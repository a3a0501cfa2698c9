/** Publishing to the stream, as job dispatch and the reminder outbox both see it. */
module Publications {
  /** What a publication did, and what the publisher was told. */
  datatype Outcome = Accepted | DeliveredButReportedFailed | NotDelivered
}
