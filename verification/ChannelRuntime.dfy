/** The store and the poller of the channel package as the code runs them:
    `codegen_kit_tg_channels/store.py` and `codegen_kit_tg_channels/polling.py`. */
module ChannelRuntime {
  import opened Options
  import opened ChannelStore
  import Names = ChannelNames
  import Sorting

  const PendingLimit := 200

  datatype Row = Row(id: DeliveryId, payload: Payload, occurredAt: Instant)

  function RowFor(deliveries: map<DeliveryId, Delivery>, id: DeliveryId): Row
    requires id in deliveries
  {
    Row(id, deliveries[id].payload, deliveries[id].occurredAt)
  }

  predicate Awaits(deliveries: map<DeliveryId, Delivery>, id: DeliveryId) {
    id in deliveries && deliveries[id].emittedAt.None?
  }

  function RowsFor(deliveries: map<DeliveryId, Delivery>, ids: seq<DeliveryId>): seq<Row>
    requires forall i :: 0 <= i < |ids| ==> ids[i] in deliveries
  {
    seq(|ids|, i requires 0 <= i < |ids| => RowFor(deliveries, ids[i]))
  }

  /** `ORDER BY occurred_at, event_id`, where `rank` orders the identifiers. */
  function PendingOrder(rank: DeliveryId -> int): (Row, Row) -> bool {
    (a: Row, b: Row) => a.occurredAt < b.occurredAt || (a.occurredAt == b.occurredAt && rank(a.id) <= rank(b.id))
  }

  /** The outbox after confirming `rows` in turn. */
  function ConfirmedRows(box: Outbox, rows: seq<Row>, at: Instant): Outbox {
    if rows == [] then box
    else ConfirmedDelivery(ConfirmedRows(box, rows[..|rows| - 1], at), rows[|rows| - 1].id, at)
  }

  lemma NoRowsConfirmed(box: Outbox, at: Instant)
    ensures ConfirmedRows(box, [], at) == box
  {
  }

  lemma ConfirmedRowsStep(box: Outbox, rows: seq<Row>, at: Instant, i: nat)
    requires i < |rows|
    ensures ConfirmedRows(box, rows[..i + 1], at)
            == ConfirmedDelivery(ConfirmedRows(box, rows[..i], at), rows[i].id, at)
  {
    assert rows[..i + 1][..i] == rows[..i];
  }

  /** `rows` lists every unconfirmed delivery once. */
  ghost predicate ListsPending(deliveries: map<DeliveryId, Delivery>, rows: seq<Row>) {
    && (forall i :: 0 <= i < |rows| ==> Awaits(deliveries, rows[i].id) && rows[i] == RowFor(deliveries, rows[i].id))
    && (forall id :: Awaits(deliveries, id) ==> exists i :: 0 <= i < |rows| && rows[i].id == id)
    && (forall i, j :: 0 <= i < j < |rows| ==> rows[i].id != rows[j].id)
  }

  /** `rows` is what `pending` answers: the first two hundred of them in order. */
  ghost predicate IsBatch(deliveries: map<DeliveryId, Delivery>, rows: seq<Row>, rank: DeliveryId -> int) {
    exists all :: ListsPending(deliveries, all) && Sorting.SortedBy(all, PendingOrder(rank))
                  && rows == all[..if |all| < PendingLimit then |all| else PendingLimit]
  }

  lemma SortKeepsListing(deliveries: map<DeliveryId, Delivery>, rows: seq<Row>, rank: DeliveryId -> int)
    requires ListsPending(deliveries, rows)
    ensures var sorted := Sorting.Sort(rows, PendingOrder(rank));
            ListsPending(deliveries, sorted) && Sorting.SortedBy(sorted, PendingOrder(rank))
  {
    var le := PendingOrder(rank);
    var sorted := Sorting.Sort(rows, le);
    Sorting.SortIsSorted(rows, le);
    forall i | 0 <= i < |sorted|
      ensures Awaits(deliveries, sorted[i].id) && sorted[i] == RowFor(deliveries, sorted[i].id)
    {
      Sorting.SortKeepsMembers(rows, le, sorted[i]);
    }
    forall i, j | 0 <= i < j < |sorted| ensures sorted[i].id != sorted[j].id {
      if sorted[i].id == sorted[j].id {
        Sorting.TwiceInOne(sorted, i, j);
        Sorting.MultiplicityGivesPositions(rows, sorted[i]);
      }
    }
    forall id | Awaits(deliveries, id) ensures exists i :: 0 <= i < |sorted| && sorted[i].id == id {
      var k :| 0 <= k < |rows| && rows[k].id == id;
      Sorting.SortKeepsMembers(rows, le, rows[k]);
    }
  }

  lemma RowsListPending(deliveries: map<DeliveryId, Delivery>, ids: seq<DeliveryId>)
    requires forall i :: 0 <= i < |ids| ==> ids[i] in deliveries && Awaits(deliveries, ids[i])
    requires forall id :: Awaits(deliveries, id) ==> id in ids
    requires forall i, j :: 0 <= i < j < |ids| ==> ids[i] != ids[j]
    ensures ListsPending(deliveries, RowsFor(deliveries, ids))
  {
    var rows := RowsFor(deliveries, ids);
    forall id | Awaits(deliveries, id) ensures exists i :: 0 <= i < |rows| && rows[i].id == id {
      var i :| 0 <= i < |ids| && ids[i] == id;
      assert rows[i].id == id;
    }
  }

  /** Confirming a batch leaves exactly the deliveries it did not list. */
  lemma {:induction false} ConfirmingSettles(box: Outbox, rows: seq<Row>, at: Instant, id: DeliveryId)
    ensures Awaits(ConfirmedRows(box, rows, at).deliveries, id)
            <==> Awaits(box.deliveries, id) && forall i :: 0 <= i < |rows| ==> rows[i].id != id
    ensures ConfirmedRows(box, rows, at).deliveries.Keys == box.deliveries.Keys
  {
    if rows != [] {
      ConfirmingSettles(box, rows[..|rows| - 1], at, id);
      assert forall i :: 0 <= i < |rows| - 1 ==> rows[..|rows| - 1][i] == rows[i];
    }
  }

  /** A batch of fewer than two hundred leaves nothing pending. */
  lemma ShortBatchEmptiesOutbox(box: Outbox, rows: seq<Row>, rank: DeliveryId -> int, at: Instant)
    requires IsBatch(box.deliveries, rows, rank) && |rows| < PendingLimit
    ensures forall id :: !Awaits(ConfirmedRows(box, rows, at).deliveries, id)
  {
    var all :| ListsPending(box.deliveries, all) && Sorting.SortedBy(all, PendingOrder(rank))
               && rows == all[..if |all| < PendingLimit then |all| else PendingLimit];
    assert rows == all;
    forall id ensures !Awaits(ConfirmedRows(box, rows, at).deliveries, id) {
      ConfirmingSettles(box, rows, at, id);
    }
  }

  // --------------------------------------------------------------- loops of a page

  /** The deliveries once the users in `done` have been handled. */
  function PartlyDelivered(deliveries: map<DeliveryId, Delivery>, subs: Subscriptions, post: Post, at: Instant,
                           done: set<string>): map<DeliveryId, Delivery> {
    var added := map user | user in Eligible(subs, post) && user in done && DeliveryIdFor(post, user) !in deliveries
                   :: DeliveryIdFor(post, user) := DeliveryFor(post, user, at);
    deliveries + added
  }

  predicate WithinSlack(subs: Subscriptions, post: Post, user: string) {
    && Subscription(user, post.channel) in subs
    && post.date >= subs[Subscription(user, post.channel)] - SubscriptionSlack
  }

  lemma EligibleIsWithinSlack(subs: Subscriptions, post: Post, user: string)
    ensures user in Eligible(subs, post) <==> WithinSlack(subs, post, user)
  {
    if WithinSlack(subs, post, user) {
      assert Subscription(user, post.channel).user in Eligible(subs, post);
    }
  }

  lemma PartHas(deliveries: map<DeliveryId, Delivery>, subs: Subscriptions, post: Post, at: Instant,
                done: set<string>, id: DeliveryId)
    ensures var part := PartlyDelivered(deliveries, subs, post, at, done);
            && (id in part <==>
                  id in deliveries
                  || (id == DeliveryIdFor(post, id.user) && id.user in done && id.user in Eligible(subs, post)))
            && (id in part ==> part[id] == if id in deliveries then deliveries[id] else DeliveryFor(post, id.user, at))
  {
    if id == DeliveryIdFor(post, id.user) && id.user in done && id.user in Eligible(subs, post) && id !in deliveries {
      assert DeliveryIdFor(post, id.user) in PartlyDelivered(deliveries, subs, post, at, done);
    }
  }

  lemma DeliverOneMore(deliveries: map<DeliveryId, Delivery>, subs: Subscriptions, post: Post, at: Instant,
                       done: set<string>, user: string)
    ensures var part := PartlyDelivered(deliveries, subs, post, at, done);
            var id := DeliveryIdFor(post, user);
            PartlyDelivered(deliveries, subs, post, at, done + {user})
            == if WithinSlack(subs, post, user) && id !in part then part[id := DeliveryFor(post, user, at)] else part
  {
    hide PartlyDelivered, Eligible, WithinSlack, DeliveryFor;
    var part := PartlyDelivered(deliveries, subs, post, at, done);
    var next := PartlyDelivered(deliveries, subs, post, at, done + {user});
    var id := DeliveryIdFor(post, user);
    EligibleIsWithinSlack(subs, post, user);
    var taken := WithinSlack(subs, post, user) && id !in part;
    var expected := if taken then part[id := DeliveryFor(post, user, at)] else part;
    forall other ensures other in next <==> other in expected
                 ensures other in next ==> next[other] == expected[other]
    {
      PartHas(deliveries, subs, post, at, done, other);
      PartHas(deliveries, subs, post, at, done + {user}, other);
    }
    assert next == expected;
  }

  lemma AllDelivered(deliveries: map<DeliveryId, Delivery>, subs: Subscriptions, post: Post, at: Instant,
                     done: set<string>)
    requires Eligible(subs, post) <= done
    ensures PartlyDelivered(deliveries, subs, post, at, done) == Delivered(deliveries, subs, post, at)
  {
  }

  lemma AcceptOneMore(box: Outbox, subs: Subscriptions, posts: seq<Post>, at: Instant, i: nat)
    requires i < |posts|
    ensures AcceptedPosts(box, subs, posts[..i + 1], at)
            == AcceptedPost(AcceptedPosts(box, subs, posts[..i], at), subs, posts[i], at)
  {
    assert posts[..i + 1] == posts[..i] + [posts[i]];
    PostsConcat(box, subs, posts[..i], [posts[i]], at);
    assert [posts[i]][1..] == [];
  }

  lemma {:induction false} InsertOneMore(subs: Subscriptions, user: string, channels: seq<string>,
                                         clock: string -> Instant, i: nat)
    requires i < |channels|
    ensures var before := InsertedAll(subs, user, channels[..i], clock);
            InsertedAll(subs, user, channels[..i + 1], clock)
            == if before.None? then None else Inserted(before.value, user, channels[i], clock(channels[i]))
    decreases i
  {
    assert channels[..i + 1] != [];
    if i == 0 {
      assert channels[..1][1..] == [];
    } else {
      var next := Inserted(subs, user, channels[0], clock(channels[0]));
      assert channels[..i + 1][1..] == channels[1..][..i] && channels[..i][1..] == channels[1..][..i - 1];
      if next.Some? {
        InsertOneMore(next.value, user, channels[1..], clock, i - 1);
      }
    }
  }

  /** A refusal part of the way refuses the whole list. */
  lemma {:induction false} RefusalStands(subs: Subscriptions, user: string, channels: seq<string>,
                                         clock: string -> Instant, i: nat)
    requires i <= |channels| && InsertedAll(subs, user, channels[..i], clock).None?
    ensures InsertedAll(subs, user, channels, clock).None?
    decreases |channels| - i
  {
    if i < |channels| {
      InsertOneMore(subs, user, channels, clock, i);
      RefusalStands(subs, user, channels, clock, i + 1);
    } else {
      assert channels[..i] == channels;
    }
  }

  class Store {
    var users: set<string>
    var starting: Option<seq<string>>
    var subscriptions: Subscriptions
    var seen: set<PostKey>
    var deliveries: map<DeliveryId, Delivery>
    var poll: PollState

    function Now(): Tables
      reads this
    {
      Tables(users, starting, subscriptions, Outbox(seen, deliveries), poll)
    }

    constructor ()
      ensures Now() == Empty
    {
      users, starting, subscriptions, seen, deliveries := {}, None, map[], {}, map[];
      poll := PollState(None, None, None, false);
    }

    /** `_insert`: refused when the channel would be one too many in the union. */
    method Insert(user: string, channel: string, now: Instant) returns (ok: bool)
      modifies `subscriptions
      ensures var r := Inserted(old(subscriptions), user, channel, now);
              ok == r.Some? && subscriptions == if ok then r.value else old(subscriptions)
    {
      var union := Channels(subscriptions);
      if channel !in union && |union| >= ChannelLimit {
        return false;
      }
      if Subscription(user, channel) !in subscriptions {
        subscriptions := subscriptions[Subscription(user, channel) := now];
      }
      return true;
    }

    /** `_initialize`; after a refusal the caller's transaction rolls back. */
    method Initialize(user: string, clock: string -> Instant) returns (ok: bool)
      modifies `users, `subscriptions
      ensures ok == Initialized(old(Now()), user, clock).Some?
      ensures ok ==> Now() == Initialized(old(Now()), user, clock).value
    {
      if user in users {
        return true;
      }
      users := users + {user};
      var seeds := if starting.Some? then starting.value else [];
      ghost var start := subscriptions;
      for i := 0 to |seeds|
        invariant users == old(users) + {user}
        invariant InsertedAll(start, user, seeds[..i], clock) == Some(subscriptions)
      {
        InsertOneMore(start, user, seeds, clock, i);
        var inserted := Insert(user, seeds[i], clock(seeds[i]));
        if !inserted {
          RefusalStands(start, user, seeds, clock, i + 1);
          return false;
        }
      }
      assert seeds[..|seeds|] == seeds && seeds == Seeds(old(Now()));
      return true;
    }

    method Add(user: string, channel: string, clock: string -> Instant) returns (ok: bool)
      modifies `users, `subscriptions
      ensures var r := Added(old(Now()), user, channel, clock);
              ok == r.Some? && Now() == if ok then r.value else old(Now())
    {
      var savedUsers, savedSubscriptions := users, subscriptions;
      ok := Initialize(user, clock);
      if ok {
        ok := Insert(user, channel, clock(channel));
      }
      if !ok {
        users, subscriptions := savedUsers, savedSubscriptions;
      }
    }

    /** `list`: the user's channels in order, once each. */
    method List(user: string, clock: string -> Instant) returns (ok: bool, channels: seq<string>)
      modifies `users, `subscriptions
      ensures var r := Initialized(old(Now()), user, clock);
              ok == r.Some? && Now() == if ok then r.value else old(Now())
      ensures ok ==> Sorting.ListsInOrder(channels, ListFor(subscriptions, user))
    {
      var savedUsers, savedSubscriptions := users, subscriptions;
      ok := Initialize(user, clock);
      channels := [];
      if !ok {
        users, subscriptions := savedUsers, savedSubscriptions;
        return;
      }
      channels := Sorting.ListInOrder(ListFor(subscriptions, user));
    }

    method Remove(user: string, channel: string, clock: string -> Instant) returns (ok: bool)
      modifies `users, `subscriptions
      ensures var r := Removed(old(Now()), user, channel, clock);
              ok == r.Some? && Now() == if ok then r.value else old(Now())
    {
      var savedUsers, savedSubscriptions := users, subscriptions;
      ok := Initialize(user, clock);
      if ok {
        subscriptions := subscriptions - {Subscription(user, channel)};
      } else {
        users, subscriptions := savedUsers, savedSubscriptions;
      }
    }

    /** `seed`: a list with a name that cannot be read, or with more than fifty channels once
        each is counted once, is refused; the first stored list is never replaced. */
    method SeedStartingList(texts: seq<string>) returns (ok: bool)
      modifies `starting
      ensures var r := Seeded(old(Now()), texts);
              ok == r.Some? && Now() == if ok then r.value else old(Now())
    {
      var names: set<string> := {};
      for i := 0 to |texts|
        invariant AllRead(texts[..i]) && names == NamesOf(texts[..i])
        invariant starting == old(starting)
      {
        var name := Names.ReadUsername(texts[i]);
        assert texts[..i + 1] == texts[..i] + [texts[i]];
        if name.None? {
          UnreadName(texts, i);
          return false;
        }
        names := names + {name.value};
      }
      assert texts[..|texts|] == texts;
      var channels := Sorting.ListInOrder(names);
      StartingListIs(texts, channels);
      if |channels| > ChannelLimit {
        return false;
      }
      if starting.None? {
        starting := Some(channels);
      }
      return true;
    }

    /** The inner loop of `accept_page`: one delivery for each subscriber within the slack. */
    method Deliver(post: Post, at: Instant)
      modifies `deliveries
      ensures deliveries == Delivered(old(deliveries), subscriptions, post, at)
    {
      var subscribers := Sorting.ListOf(set k | k in subscriptions && k.channel == post.channel :: k.user);
      ghost var done: set<string> := {};
      assert PartlyDelivered(deliveries, subscriptions, post, at, done) == deliveries;
      for i := 0 to |subscribers|
        invariant deliveries == PartlyDelivered(old(deliveries), subscriptions, post, at, done)
        invariant forall user :: user in subscribers[..i] ==> user in done
      {
        var user := subscribers[i];
        var id := DeliveryIdFor(post, user);
        DeliverOneMore(old(deliveries), subscriptions, post, at, done, user);
        if post.date >= subscriptions[Subscription(user, post.channel)] - SubscriptionSlack && id !in deliveries {
          deliveries := deliveries[id := DeliveryFor(post, user, at)];
        }
        done := done + {user};
        assert subscribers[..i + 1] == subscribers[..i] + [user];
      }
      assert subscribers[..|subscribers|] == subscribers;
      AllDelivered(old(deliveries), subscriptions, post, at, done);
    }

    /** `accept_page` */
    method AcceptPage(page: seq<Post>, at: Instant)
      modifies `seen, `deliveries
      ensures Outbox(seen, deliveries) == AcceptedPage(old(Outbox(seen, deliveries)), subscriptions, page, at)
    {
      var posts := Sorting.Sort(page, SeqOrder);
      ghost var start := Outbox(seen, deliveries);
      for i := 0 to |posts|
        invariant Outbox(seen, deliveries) == AcceptedPosts(start, subscriptions, posts[..i], at)
      {
        AcceptOneMore(start, subscriptions, posts, at, i);
        var post := posts[i];
        if post.channel in Channels(subscriptions) && KeyOf(post) !in seen {
          seen := seen + {KeyOf(post)};
          if !post.deleted {
            Deliver(post, at);
          }
        }
      }
      assert posts[..|posts|] == posts;
    }

    /** `pending` */
    method Pending(rank: DeliveryId -> int) returns (rows: seq<Row>)
      ensures IsBatch(deliveries, rows, rank)
    {
      var ids := Sorting.ListOf(set id | id in deliveries && deliveries[id].emittedAt.None?);
      var all := Sorting.Sort(RowsFor(deliveries, ids), PendingOrder(rank));
      RowsListPending(deliveries, ids);
      SortKeepsListing(deliveries, RowsFor(deliveries, ids), rank);
      rows := all[..if |all| < PendingLimit then |all| else PendingLimit];
    }

    method Confirm(id: DeliveryId, at: Instant)
      modifies `deliveries
      ensures Outbox(seen, deliveries) == ConfirmedDelivery(old(Outbox(seen, deliveries)), id, at)
    {
      if id in deliveries {
        deliveries := deliveries[id := deliveries[id].(emittedAt := Some(at))];
      }
    }
  }

  /** How many publications of a batch are accepted when the one at `failing` raises. */
  function Accepted(rows: seq<Row>, failing: nat): (r: nat)
    ensures r <= |rows|
  {
    if failing < |rows| then failing else |rows|
  }

  /** What a batch leaves in the stream: the accepted publications, and the one that raised if
      it arrived all the same. */
  function Published(rows: seq<Row>, accepted: nat, arrived: bool): seq<Row>
    requires accepted <= |rows|
  {
    rows[..accepted] + if accepted < |rows| && arrived then [rows[accepted]] else []
  }

  /** The tables after the accepted publications of a batch are confirmed. */
  function Emitted(t: Tables, rows: seq<Row>, accepted: nat, at: Instant): Tables
    requires accepted <= |rows|
  {
    t.(outbox := ConfirmedRows(t.outbox, rows[..accepted], at))
  }

  class Poller {
    const store: Store
    const configured: bool
    var stream: seq<Row>

    constructor (store: Store, configured: bool)
      ensures this.store == store && this.configured == configured && stream == []
    {
      this.store, this.configured, stream := store, configured, [];
    }

    /** `poll`: `first` and `second` are the platform's answers to the one or two requests. */
    method Poll(at: Instant, first: Response, second: Response)
      modifies store
      ensures store.Now() == if configured then Polled(old(store.Now()), at, first, second) else old(store.Now())
    {
      if !configured {
        return;
      }
      var state := store.poll;
      if state.stopped || (state.retryAt.Some? && state.retryAt.value > at) {
        return;
      }
      if store.subscriptions == map[] {
        return;
      }
      var since := Max(if state.sinceAt.Some? then state.sinceAt.value else at - FirstWindow, at - RetentionHorizon);
      state := state.(sinceAt := Some(since));
      var response := first;
      if first.Failure? && first.status == 409 {
        since := Max(Max(since, at - RestartMargin), at - RetentionHorizon);
        state := state.(cursor := None, sinceAt := Some(since));
        response := second;
      }
      match response {
        case Failure(status, retryAfter) =>
          if status == 401 || status == 403 {
            state := state.(stopped := true);
          } else {
            state := state.(retryAt := Some(at + retryAfter));
          }
        case Answer(page) =>
          store.AcceptPage(page.items, at);
          since := Max(Max(since, at - RestartMargin), at - RetentionHorizon);
          state := state.(cursor := Some(page.nextCursor), sinceAt := Some(since), retryAt := None);
      }
      store.poll := state;
    }

    /** `emit_pending`: publications `rows[..accepted]` are accepted; the next one, if any,
        raises, `arrived` telling whether the stream got it all the same. Every confirmed
        delivery was published; one that was published and not confirmed is published again. */
    method EmitPending(at: Instant, rank: DeliveryId -> int, failing: nat, arrived: bool)
      returns (rows: seq<Row>, accepted: nat)
      modifies this, store
      ensures IsBatch(old(store.deliveries), rows, rank)
      ensures accepted == Accepted(rows, failing)
      ensures stream == old(stream) + Published(rows, accepted, arrived)
      ensures store.Now() == Emitted(old(store.Now()), rows, accepted, at)
    {
      hide IsBatch, ConfirmedRows, ConfirmedDelivery;
      rows := store.Pending(rank);
      accepted := 0;
      NoRowsConfirmed(Outbox(store.seen, store.deliveries), at);
      ghost var start := Outbox(store.seen, store.deliveries);
      while accepted < |rows|
        invariant accepted <= |rows| && accepted <= failing
        invariant stream == old(stream) + rows[..accepted]
        invariant Outbox(store.seen, store.deliveries) == ConfirmedRows(start, rows[..accepted], at)
        invariant store.Now() == old(store.Now()).(outbox := Outbox(store.seen, store.deliveries))
      {
        if accepted == failing {
          if arrived {
            stream := stream + [rows[accepted]];
          }
          return;
        }
        ConfirmedRowsStep(start, rows, at, accepted);
        stream := stream + [rows[accepted]];
        store.Confirm(rows[accepted].id, at);
        assert rows[..accepted + 1] == rows[..accepted] + [rows[accepted]];
        accepted := accepted + 1;
      }
    }

    /** `tick`: what was already waiting goes out before the platform is asked, so a delayed,
        failing or stopped poll holds no delivery back. A publication that is not accepted ends
        the tick there: before the poll, and then nothing is asked, or after it, and then the
        polled page stays. With every publication accepted and a short second batch nothing is
        left waiting. `failing` and `arrived` say which publication of a batch raises, and
        whether the stream got it all the same. */
    method Tick(at: Instant, first: Response, second: Response, rank: DeliveryId -> int,
                failing: (nat, nat), arrived: (bool, bool))
      returns (waiting: seq<Row>, before: nat, found: seq<Row>, after: nat)
      modifies this, store
      ensures IsBatch(old(store.deliveries), waiting, rank) && before == Accepted(waiting, failing.0)
      ensures var emitted := Emitted(old(store.Now()), waiting, before, at);
              var polled := if configured then Polled(emitted, at, first, second) else emitted;
              if before < |waiting| then
                && store.Now() == emitted && found == [] && after == 0
                && stream == old(stream) + Published(waiting, before, arrived.0)
              else
                && IsBatch(polled.outbox.deliveries, found, rank) && after == Accepted(found, failing.1)
                && store.Now() == Emitted(polled, found, after, at)
                && stream == old(stream) + waiting + Published(found, after, arrived.1)
      ensures before == |waiting| && after == |found| < PendingLimit ==> forall id :: !Awaits(store.deliveries, id)
    {
      hide IsBatch, ConfirmedRows, ConfirmedDelivery, Polled;
      waiting, before := EmitPending(at, rank, failing.0, arrived.0);
      if before < |waiting| {
        return waiting, before, [], 0;
      }
      assert waiting[..before] == waiting;
      Poll(at, first, second);
      ghost var polled := store.Now();
      found, after := EmitPending(at, rank, failing.1, arrived.1);
      if after == |found| < PendingLimit {
        assert found[..after] == found;
        ShortBatchEmptiesOutbox(polled.outbox, found, rank, at);
      }
    }
  }
}
