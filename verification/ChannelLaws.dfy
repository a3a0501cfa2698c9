/** What the channel package promises its users, in terms of the subscription rows, the posts of a
    page as the platform sent them, and the answers to its requests. */
module ChannelLaws {
  import opened Options
  import opened ChannelStore
  import Runtime = ChannelRuntime
  import Sorting

  // ------------------------------------------------------------------ who gets a post

  /** Of the items of a page about one post, the one with the least change number; the earlier one
      if two have the same. */
  ghost predicate ComesFirst(page: seq<Post>, i: nat) {
    && i < |page|
    && forall j :: 0 <= j < |page| && page[j].channel == page[i].channel && page[j].id == page[i].id ==>
         page[i].seqNo < page[j].seqNo || (page[i].seqNo == page[j].seqNo && i <= j)
  }

  lemma SeqOrderIsTotalPreorder()
    ensures Sorting.IsTotalPreorder(SeqOrder)
  {
  }

  lemma FirstInPage(page: seq<Post>, i: nat) returns (k: nat)
    requires ComesFirst(page, i)
    ensures var posts := Sorting.Sort(page, SeqOrder); IsFirst(posts, k) && posts[k] == page[i]
  {
    SeqOrderIsTotalPreorder();
    k := Sorting.FirstAfterSorting(page, SeqOrder, (post: Post) => KeyOf(post) == KeyOf(page[i]), i);
  }

  /** What a page makes of a post it is the first to show: the item with the least change number
      decides. A user gets the post exactly if it is not deleted there and the user's subscription
      to its channel began at most ten minutes after its date; and then with that date and text. */
  lemma PageDecides(box: Outbox, subs: Subscriptions, page: seq<Post>, at: Instant, i: nat, user: string)
    requires Inv(Empty.(outbox := box))
    requires ComesFirst(page, i) && page[i].channel in Channels(subs)
    requires PostKey(page[i].channel, page[i].id) !in box.seen
    ensures var post := page[i];
            var after, id := AcceptedPage(box, subs, page, at).deliveries, DeliveryId(post.channel, post.id, user);
            && (id in after <==>
                  && !post.deleted && Subscription(user, post.channel) in subs
                  && subs[Subscription(user, post.channel)] <= post.date + 600)
            && (id in after ==>
                  after[id] == Delivery(Payload(post.channel, post.id, post.date, post.text, user), at, None))
  {
    hide Sorting.Sort, AcceptedPosts, Inv;
    var k := FirstInPage(page, i);
    FirstAppearanceDecides(box, subs, Sorting.Sort(page, SeqOrder), at, k, user);
  }

  /** A page shows nothing of channels nobody subscribes to, and changes no delivery of a post
      that was seen before. */
  lemma PageLeaves(box: Outbox, subs: Subscriptions, page: seq<Post>, at: Instant, id: DeliveryId)
    requires Inv(Empty.(outbox := box))
    requires PostKey(id.channel, id.post) in box.seen || id.channel !in Channels(subs)
             || forall i :: 0 <= i < |page| ==> page[i].channel != id.channel || page[i].id != id.post
    ensures var after := AcceptedPage(box, subs, page, at);
            && (id in after.deliveries <==> id in box.deliveries)
            && (id in after.deliveries ==> after.deliveries[id] == box.deliveries[id])
            && (PostKey(id.channel, id.post) in after.seen <==> PostKey(id.channel, id.post) in box.seen)
  {
    hide Sorting.Sort, Inv;
    var posts := Sorting.Sort(page, SeqOrder);
    forall post | post in posts ensures post in page {
      Sorting.SortKeepsMembers(page, SeqOrder, post);
    }
    if PostKey(id.channel, id.post) in box.seen {
      SeenDeliveriesAreSettled(box, subs, posts, at, id);
    } else {
      PostsAreSeen(box, subs, posts, at);
      OthersAreLeft(box, subs, posts, at, id);
    }
  }

  lemma {:induction false} OthersAreLeft(box: Outbox, subs: Subscriptions, posts: seq<Post>, at: Instant,
                                         id: DeliveryId)
    requires forall post :: post in posts && post.channel in Channels(subs) ==>
               post.channel != id.channel || post.id != id.post
    ensures var after := AcceptedPosts(box, subs, posts, at);
            && (id in after.deliveries <==> id in box.deliveries)
            && (id in after.deliveries ==> after.deliveries[id] == box.deliveries[id])
    decreases |posts|
  {
    if posts != [] {
      assert posts[0] in posts;
      DeliveredHas(box.deliveries, subs, posts[0], at, id);
      OthersAreLeft(AcceptedPost(box, subs, posts[0], at), subs, posts[1..], at, id);
    }
  }

  /** So it stays for good: over any run, what the poll that first accepted a post decided is what
      every user has of it in every later state. */
  lemma PostsAreDecidedForGood(states: seq<Tables>, steps: seq<Step>, k: nat, page: seq<Post>, i: nat, user: string,
                               j: nat)
    requires IsRun(states, steps) && k < j < |states| && ComesFirst(page, i) && steps[k].Poll?
    requires states[k + 1].outbox == AcceptedPage(states[k].outbox, states[k].subscriptions, page, steps[k].at)
    requires page[i].channel in Channels(states[k].subscriptions)
    requires PostKey(page[i].channel, page[i].id) !in states[k].outbox.seen
    ensures var post, subs := page[i], states[k].subscriptions;
            var after, id := states[j].outbox.deliveries, DeliveryId(post.channel, post.id, user);
            && (id in after <==>
                  && !post.deleted && Subscription(user, post.channel) in subs
                  && subs[Subscription(user, post.channel)] <= post.date + 600)
            && (id in after ==>
                  && after[id].payload == Payload(post.channel, post.id, post.date, post.text, user)
                  && after[id].occurredAt == steps[k].at)
  {
    hide AcceptedPage, Apply, Inv;
    var id := DeliveryId(page[i].channel, page[i].id, user);
    RunKeepsInv(states, steps, k);
    OutboxKeepsInv(states[k]);
    PageDecides(states[k].outbox, states[k].subscriptions, page, steps[k].at, i, user);
    PageIsSeen(states[k].outbox, states[k].subscriptions, page, steps[k].at, i);
    SeenPostsAreSettledForGood(states, steps, k + 1, j, id);
  }

  lemma OutboxKeepsInv(t: Tables)
    requires Inv(t)
    ensures Inv(Empty.(outbox := t.outbox))
  {
  }

  lemma PageIsSeen(box: Outbox, subs: Subscriptions, page: seq<Post>, at: Instant, i: nat)
    requires i < |page| && page[i].channel in Channels(subs)
    ensures PostKey(page[i].channel, page[i].id) in AcceptedPage(box, subs, page, at).seen
  {
    hide Sorting.Sort;
    PostsAreSeen(box, subs, Sorting.Sort(page, SeqOrder), at);
    Sorting.SortKeepsMembers(page, SeqOrder, page[i]);
  }

  // ------------------------------------------------------------------ what a poll does

  /** Nothing is asked once polling has stopped, before the retry time, or for nobody. */
  lemma PollIsSkipped(t: Tables, at: Instant, first: Response, second: Response)
    requires t.poll.stopped || (t.poll.retryAt.Some? && at < t.poll.retryAt.value) || |t.subscriptions| == 0
    ensures Polled(t, at, first, second) == t
  {
  }

  /** `x` is the greatest of the instants. */
  predicate IsLatest(x: Instant, instants: seq<Instant>) {
    x in instants && forall i :: 0 <= i < |instants| ==> instants[i] <= x
  }

  /** Otherwise the platform is asked from three days back at first, from the watermark later, and
      from thirty days back at most; a conflict (409) forgets the cursor, and asks again from one
      day back at most. Of the final answer: 401 and 403 stop polling for good; any other failure
      waits for as long as the platform says; a page is accepted, with its cursor, and moves the
      watermark to one day back at least. */
  lemma PollOutcome(t: Tables, at: Instant, first: Response, second: Response)
    returns (window: Instant, asked: Instant)
    requires !t.poll.stopped && (t.poll.retryAt.Some? ==> t.poll.retryAt.value <= at) && |t.subscriptions| != 0
    ensures var t', conflict := Polled(t, at, first, second), first.Failure? && first.status == 409;
            var response := if conflict then second else first;
            && IsLatest(window, [if t.poll.sinceAt.Some? then t.poll.sinceAt.value else at - 3 * 86_400,
                                 at - 30 * 86_400])
            && (if conflict then IsLatest(asked, [window, at - 86_400, at - 30 * 86_400]) else asked == window)
            && t' == t.(poll := t'.poll, outbox := t'.outbox)
            && (response.Failure? ==>
                  && t'.outbox == t.outbox
                  && t'.poll.cursor == (if conflict then None else t.poll.cursor)
                  && t'.poll.sinceAt == Some(asked)
                  && (t'.poll.stopped <==> response.status == 401 || response.status == 403)
                  && t'.poll.retryAt == if t'.poll.stopped then t.poll.retryAt else Some(at + response.retryAfter))
            && (response.Answer? ==>
                  && t'.outbox == AcceptedPage(t.outbox, t.subscriptions, response.page.items, at)
                  && t'.poll.cursor == Some(response.page.nextCursor)
                  && t'.poll.sinceAt.Some? && IsLatest(t'.poll.sinceAt.value, [asked, at - 86_400, at - 30 * 86_400])
                  && !t'.poll.stopped && t'.poll.retryAt.None?)
  {
    hide AcceptedPage;
    window := Window(t.poll, at);
    LatestOfTwo(if t.poll.sinceAt.Some? then t.poll.sinceAt.value else at - 3 * 86_400, at - 30 * 86_400);
    var conflict := first.Failure? && first.status == 409;
    asked := if conflict then Restarted(window, at) else window;
    LatestOfThree(window, at);
    LatestOfThree(asked, at);
  }

  lemma LatestOfTwo(a: Instant, b: Instant)
    ensures IsLatest(Max(a, b), [a, b])
  {
    assert [a, b][0] == a && [a, b][1] == b;
  }

  lemma LatestOfThree(since: Instant, at: Instant)
    ensures IsLatest(Restarted(since, at), [since, at - 86_400, at - 30 * 86_400])
  {
    var all := [since, at - 86_400, at - 30 * 86_400];
    assert all[0] == since && all[1] == at - 86_400 && all[2] == at - 30 * 86_400;
  }

  // ------------------------------------------------------- where everything comes from

  /** A step of the user that subscribed to the channel at this instant: an `add` of it, or the
      first contact, with the channel on the starting list. */
  predicate Subscribes(t: Tables, step: Step, user: string, channel: string, since: Instant) {
    match step
    case Add(u, c, clock) => u == user && clock(channel) == since && (c == channel || IsSeeded(t, user, channel))
    case List(u, clock) => u == user && clock(channel) == since && IsSeeded(t, user, channel)
    case Remove(u, _, clock) => u == user && clock(channel) == since && IsSeeded(t, user, channel)
    case _ => false
  }

  predicate IsSeeded(t: Tables, user: string, channel: string) {
    user !in t.users && t.starting.Some? && channel in t.starting.value
  }

  lemma InsertedSince(subs: Subscriptions, user: string, channel: string, now: Instant, k: Subscription)
    requires Inserted(subs, user, channel, now).Some? && k in Inserted(subs, user, channel, now).value
    ensures var after := Inserted(subs, user, channel, now).value;
            if k in subs then after[k] == subs[k] else k == Subscription(user, channel) && after[k] == now
  {
  }

  lemma {:induction false} AllInsertedSince(subs: Subscriptions, user: string, channels: seq<string>,
                                            clock: string -> Instant, k: Subscription)
    requires InsertedAll(subs, user, channels, clock).Some? && k in InsertedAll(subs, user, channels, clock).value
    ensures var after := InsertedAll(subs, user, channels, clock).value;
            if k in subs then after[k] == subs[k]
            else k.user == user && k.channel in channels && after[k] == clock(k.channel)
    decreases |channels|
  {
    if channels != [] {
      var next := Inserted(subs, user, channels[0], clock(channels[0])).value;
      AllInsertedSince(next, user, channels[1..], clock, k);
      if k in next {
        InsertedSince(subs, user, channels[0], clock(channels[0]), k);
      }
    }
  }

  lemma ContactSince(t: Tables, user: string, clock: string -> Instant, k: Subscription)
    requires Initialized(t, user, clock).Some? && k in Initialized(t, user, clock).value.subscriptions
    ensures var after := Initialized(t, user, clock).value.subscriptions;
            if k in t.subscriptions then after[k] == t.subscriptions[k]
            else k.user == user && IsSeeded(t, user, k.channel) && after[k] == clock(k.channel)
  {
    hide InsertedAll;
    if user !in t.users {
      AllInsertedSince(t.subscriptions, user, Seeds(t), clock, k);
    }
  }

  lemma AddedSince(t: Tables, user: string, channel: string, clock: string -> Instant, k: Subscription)
    requires Added(t, user, channel, clock).Some? && k in Added(t, user, channel, clock).value.subscriptions
    ensures var after := Added(t, user, channel, clock).value.subscriptions;
            if k in t.subscriptions then after[k] == t.subscriptions[k]
            else
              && k.user == user && (k.channel == channel || IsSeeded(t, user, k.channel))
              && after[k] == clock(k.channel)
  {
    hide Initialized, Inserted;
    var t' := Initialized(t, user, clock).value;
    InsertedSince(t'.subscriptions, user, channel, clock(channel), k);
    if k in t'.subscriptions {
      ContactSince(t, user, clock, k);
    } else if k in t.subscriptions {
      ContactKeeps(t, user, clock, k);
    }
  }

  lemma ContactKeeps(t: Tables, user: string, clock: string -> Instant, k: Subscription)
    requires Initialized(t, user, clock).Some? && k in t.subscriptions
    ensures k in Initialized(t, user, clock).value.subscriptions
  {
    if user !in t.users {
      AllInsertedKeeps(t.subscriptions, user, Seeds(t), clock, k);
    }
  }

  lemma {:induction false} AllInsertedKeeps(subs: Subscriptions, user: string, channels: seq<string>,
                                            clock: string -> Instant, k: Subscription)
    requires InsertedAll(subs, user, channels, clock).Some? && k in subs
    ensures k in InsertedAll(subs, user, channels, clock).value
    decreases |channels|
  {
    if channels != [] {
      AllInsertedKeeps(Inserted(subs, user, channels[0], clock(channels[0])).value, user, channels[1..], clock, k);
    }
  }

  lemma NewSubscription(t: Tables, step: Step, k: Subscription)
    requires k in Apply(t, step).subscriptions
    ensures var since := Apply(t, step).subscriptions[k];
            if k in t.subscriptions then since == t.subscriptions[k] else Subscribes(t, step, k.user, k.channel, since)
  {
    hide Initialized, Added, Polled, Seeded, ConfirmedDelivery, IsSeeded;
    match step
    case Add(user, channel, clock) =>
      if Added(t, user, channel, clock).Some? {
        AddedSince(t, user, channel, clock, k);
      }
    case List(user, clock) =>
      if Initialized(t, user, clock).Some? {
        ContactSince(t, user, clock, k);
      }
    case Remove(user, _, clock) =>
      if Initialized(t, user, clock).Some? {
        ContactSince(t, user, clock, k);
      }
    case _ => OthersKeepSubscriptions(t, step);
  }

  lemma OthersKeepSubscriptions(t: Tables, step: Step)
    requires step.Seed? || step.Poll? || step.Confirm?
    ensures Apply(t, step).subscriptions == t.subscriptions
  {
  }

  /** Every subscription was made by a step of its user, at the instant it is recorded with, and
      has been there ever since. */
  lemma {:induction false} SubscriptionsWereMade(states: seq<Tables>, steps: seq<Step>, j: nat, k: Subscription)
    returns (i: nat)
    requires IsRun(states, steps) && j < |states| && k in states[j].subscriptions
    ensures i < j && Subscribes(states[i], steps[i], k.user, k.channel, states[j].subscriptions[k])
    ensures forall m :: i < m <= j ==>
              k in states[m].subscriptions && states[m].subscriptions[k] == states[j].subscriptions[k]
    decreases j
  {
    hide Apply, Subscribes;
    NewSubscription(states[j - 1], steps[j - 1], k);
    if k in states[j - 1].subscriptions {
      i := SubscriptionsWereMade(states, steps, j - 1, k);
    } else {
      i := j - 1;
    }
  }

  lemma StepKeepsSubscription(t: Tables, step: Step, k: Subscription)
    requires k in t.subscriptions && !(step.Remove? && step.user == k.user && step.channel == k.channel)
    ensures k in Apply(t, step).subscriptions
  {
    hide Initialized, Polled, Seeded, ConfirmedDelivery;
    match step
    case Add(user, _, clock) =>
      if Initialized(t, user, clock).Some? {
        ContactKeeps(t, user, clock, k);
      }
    case List(user, clock) =>
      if Initialized(t, user, clock).Some? {
        ContactKeeps(t, user, clock, k);
      }
    case Remove(user, _, clock) =>
      if Initialized(t, user, clock).Some? {
        ContactKeeps(t, user, clock, k);
      }
    case _ => OthersKeepSubscriptions(t, step);
  }

  /** It stays, as of the same instant, until its user removes this channel. */
  lemma {:induction false} SubscriptionsStay(states: seq<Tables>, steps: seq<Step>, i: nat, j: nat, k: Subscription)
    requires IsRun(states, steps) && i <= j < |states| && k in states[i].subscriptions
    requires forall m :: i <= m < j ==>
               !(steps[m].Remove? && steps[m].user == k.user && steps[m].channel == k.channel)
    ensures k in states[j].subscriptions && states[j].subscriptions[k] == states[i].subscriptions[k]
    decreases j
  {
    hide Apply, Subscribes;
    if i < j {
      SubscriptionsStay(states, steps, i, j - 1, k);
      StepKeepsSubscription(states[j - 1], steps[j - 1], k);
      NewSubscription(states[j - 1], steps[j - 1], k);
    }
  }

  /** An emitted delivery was confirmed by a step of the run, and says when. */
  lemma {:induction false} EmissionsWereConfirmed(states: seq<Tables>, steps: seq<Step>, j: nat, id: DeliveryId)
    returns (i: nat)
    requires IsRun(states, steps) && j < |states| && id in states[j].outbox.deliveries
    requires states[j].outbox.deliveries[id].emittedAt.Some?
    ensures i < j && steps[i].Confirm? && steps[i].id == id
    ensures states[j].outbox.deliveries[id].emittedAt == Some(steps[i].confirmedAt)
    decreases j
  {
    hide Apply, Inv, DecidedBy;
    var t, step := states[j - 1], steps[j - 1];
    RunKeepsInv(states, steps, j - 1);
    if step.Confirm? && step.id == id && id in t.outbox.deliveries {
      i := j - 1;
      ConfirmSets(t, step);
    } else if id in t.outbox.deliveries {
      OthersKeepEmission(t, step, id);
      i := EmissionsWereConfirmed(states, steps, j - 1, id);
    } else {
      var m := AddedDeliveryIsDecided(t, step, id);
      NewIsUnconfirmed(t, step, id);
    }
  }

  lemma ConfirmSets(t: Tables, step: Step)
    requires step.Confirm? && step.id in t.outbox.deliveries
    ensures step.id in Apply(t, step).outbox.deliveries
    ensures Apply(t, step).outbox.deliveries[step.id].emittedAt == Some(step.confirmedAt)
  {
  }

  lemma OthersKeepEmission(t: Tables, step: Step, id: DeliveryId)
    requires Inv(t) && id in t.outbox.deliveries && !(step.Confirm? && step.id == id)
    ensures id in Apply(t, step).outbox.deliveries && Apply(t, step).outbox.deliveries[id] == t.outbox.deliveries[id]
  {
    hide AcceptedPosts, Sorting.Sort;
    if step.Poll? {
      var conflict := step.first.Failure? && step.first.status == 409;
      var response := if conflict then step.second else step.first;
      if response.Answer? {
        SeenDeliveriesAreSettled(t.outbox, t.subscriptions, Sorting.Sort(response.page.items, SeqOrder), step.at, id);
      }
    }
  }

  lemma NewIsUnconfirmed(t: Tables, step: Step, id: DeliveryId)
    requires id !in t.outbox.deliveries && id in Apply(t, step).outbox.deliveries
    ensures Apply(t, step).outbox.deliveries[id].emittedAt.None?
  {
    hide AcceptedPosts, Sorting.Sort;
    assert step.Poll?;
    var posts := AcceptedItems(t, step);
    NewDeliveryIsDecided(t.outbox, t.subscriptions, posts, step.at, id);
  }

  // ------------------------------------------------------------------ what goes out

  /** `a` goes out before `b`: it occurred earlier, or at the same time with a lower identity. */
  predicate GoesBefore(a: Runtime.Row, occurredAt: Instant, id: DeliveryId, rank: DeliveryId -> int) {
    a.occurredAt < occurredAt || (a.occurredAt == occurredAt && rank(a.id) <= rank(id))
  }

  predicate LeftOut(deliveries: map<DeliveryId, Delivery>, rows: seq<Runtime.Row>, id: DeliveryId) {
    id in deliveries && deliveries[id].emittedAt.None? && forall i :: 0 <= i < |rows| ==> rows[i].id != id
  }

  /** A batch holds unconfirmed deliveries as they were decided, each once, in order, two hundred
      at most; and what it leaves out comes after all of them, and only if it is full. */
  lemma BatchGoesFirst(deliveries: map<DeliveryId, Delivery>, rows: seq<Runtime.Row>, rank: DeliveryId -> int)
    requires Runtime.IsBatch(deliveries, rows, rank)
    ensures |rows| <= 200
    ensures forall i :: 0 <= i < |rows| ==>
              && rows[i].id in deliveries && deliveries[rows[i].id].emittedAt.None?
              && rows[i].payload == deliveries[rows[i].id].payload
              && rows[i].occurredAt == deliveries[rows[i].id].occurredAt
    ensures forall i, j :: 0 <= i < j < |rows| ==>
              rows[i].id != rows[j].id && GoesBefore(rows[i], rows[j].occurredAt, rows[j].id, rank)
    ensures forall id :: LeftOut(deliveries, rows, id) ==>
              |rows| == 200 && forall i :: 0 <= i < |rows| ==> GoesBefore(rows[i], deliveries[id].occurredAt, id, rank)
  {
    hide GoesBefore, Runtime.ListsPending;
    var all := BatchIsCut(deliveries, rows, rank);
    ListingIsInOrder(all, rank);
    ListingIsAsDecided(deliveries, all);
    forall i | 0 <= i < |rows| ensures rows[i] == all[i] {
    }
    forall id | LeftOut(deliveries, rows, id)
      ensures |rows| == 200 && forall i :: 0 <= i < |rows| ==> GoesBefore(rows[i], deliveries[id].occurredAt, id, rank)
    {
      LeftOutComesLater(deliveries, rows, all, rank, id);
    }
  }

  lemma BatchIsCut(deliveries: map<DeliveryId, Delivery>, rows: seq<Runtime.Row>, rank: DeliveryId -> int)
    returns (all: seq<Runtime.Row>)
    requires Runtime.IsBatch(deliveries, rows, rank)
    ensures Runtime.ListsPending(deliveries, all) && Sorting.SortedBy(all, Runtime.PendingOrder(rank))
    ensures |rows| <= |all| && |rows| <= 200 && rows == all[..|rows|] && (|rows| < |all| ==> |rows| == 200)
  {
    hide Runtime.ListsPending, Runtime.PendingOrder, Sorting.SortedBy;
    all :| Runtime.ListsPending(deliveries, all) && Sorting.SortedBy(all, Runtime.PendingOrder(rank))
           && rows == all[..if |all| < Runtime.PendingLimit then |all| else Runtime.PendingLimit];
  }

  lemma LeftOutComesLater(deliveries: map<DeliveryId, Delivery>, rows: seq<Runtime.Row>, all: seq<Runtime.Row>,
                          rank: DeliveryId -> int, id: DeliveryId)
    requires Runtime.ListsPending(deliveries, all) && LeftOut(deliveries, rows, id)
    requires |rows| <= |all| && rows == all[..|rows|] && (|rows| < |all| ==> |rows| == 200)
    requires forall i, j :: 0 <= i < j < |all| ==> GoesBefore(all[i], all[j].occurredAt, all[j].id, rank)
    ensures |rows| == 200 && forall i :: 0 <= i < |rows| ==> GoesBefore(rows[i], deliveries[id].occurredAt, id, rank)
  {
    hide GoesBefore, Runtime.ListsPending;
    var k := ListedAt(deliveries, all, id);
    forall i | 0 <= i < |rows| ensures rows[i] == all[i] {
    }
  }

  lemma ListingIsInOrder(all: seq<Runtime.Row>, rank: DeliveryId -> int)
    requires Sorting.SortedBy(all, Runtime.PendingOrder(rank))
    ensures forall i, j :: 0 <= i < j < |all| ==> GoesBefore(all[i], all[j].occurredAt, all[j].id, rank)
  {
    forall i, j | 0 <= i < j < |all| ensures GoesBefore(all[i], all[j].occurredAt, all[j].id, rank) {
      assert Runtime.PendingOrder(rank)(all[i], all[j]);
    }
  }

  lemma ListingIsAsDecided(deliveries: map<DeliveryId, Delivery>, all: seq<Runtime.Row>)
    requires Runtime.ListsPending(deliveries, all)
    ensures forall i :: 0 <= i < |all| ==>
              && all[i].id in deliveries && deliveries[all[i].id].emittedAt.None?
              && all[i].payload == deliveries[all[i].id].payload
              && all[i].occurredAt == deliveries[all[i].id].occurredAt
    ensures forall i, j :: 0 <= i < j < |all| ==> all[i].id != all[j].id
  {
  }

  lemma ListedAt(deliveries: map<DeliveryId, Delivery>, all: seq<Runtime.Row>, id: DeliveryId) returns (k: nat)
    requires Runtime.ListsPending(deliveries, all) && id in deliveries && deliveries[id].emittedAt.None?
    ensures k < |all| && all[k].id == id
    ensures all[k].occurredAt == deliveries[id].occurredAt
  {
    assert Runtime.Awaits(deliveries, id);
    k :| 0 <= k < |all| && all[k].id == id;
  }

  /** Confirming rows sets the time of exactly these deliveries, and leaves their content. */
  lemma {:induction false} ConfirmingSets(box: Outbox, rows: seq<Runtime.Row>, at: Instant, id: DeliveryId)
    requires id in box.deliveries
    ensures var after := Runtime.ConfirmedRows(box, rows, at);
            && after.seen == box.seen && after.deliveries.Keys == box.deliveries.Keys
            && after.deliveries[id] == if exists i :: 0 <= i < |rows| && rows[i].id == id
                                       then box.deliveries[id].(emittedAt := Some(at)) else box.deliveries[id]
  {
    if rows != [] {
      var n := |rows| - 1;
      ConfirmingSets(box, rows[..n], at, id);
      assert forall i :: 0 <= i < n ==> rows[..n][i] == rows[i];
      assert rows[n].id == id ==> exists i :: 0 <= i < |rows| && rows[i].id == id;
    }
  }
}
