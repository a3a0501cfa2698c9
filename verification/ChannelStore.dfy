/** The channel package's tables and transactions: subscriptions with their bound, one-time
    initialisation, page acceptance and the delivery outbox
    (`codegen_kit_tg_channels/store.py`, `polling.py`). */
module ChannelStore {
  import opened Options
  import Names = ChannelNames
  import Sorting

  type Instant = int

  const ChannelLimit := 50
  const SubscriptionSlack := 600
  const RestartMargin := 86_400
  const RetentionHorizon := 2_592_000
  const FirstWindow := 259_200

  datatype Subscription = Subscription(user: string, channel: string)
  datatype PostKey = PostKey(channel: string, post: int)

  /** The identity of a delivery is named by channel, post and user (section 4.3 of RFC 4122). */
  datatype DeliveryId = DeliveryId(channel: string, post: int, user: string)

  datatype Post = Post(channel: string, id: int, seqNo: int, date: Instant, text: string, deleted: bool)
  datatype Payload = Payload(channel: string, id: int, date: Instant, text: string, user: string)
  datatype Delivery = Delivery(payload: Payload, occurredAt: Instant, emittedAt: Option<Instant>)

  type Subscriptions = map<Subscription, Instant>

  datatype PollState = PollState(cursor: Option<string>, sinceAt: Option<Instant>, retryAt: Option<Instant>,
                                 stopped: bool)

  /** Seen posts and the deliveries they led to. */
  datatype Outbox = Outbox(seen: set<PostKey>, deliveries: map<DeliveryId, Delivery>)

  datatype Tables = Tables(
    users: set<string>,
    starting: Option<seq<string>>,
    subscriptions: Subscriptions,
    outbox: Outbox,
    poll: PollState)

  const Empty := Tables({}, None, map[], Outbox({}, map[]), PollState(None, None, None, false))

  // --------------------------------------------------------------- subscriptions

  function Channels(subs: Subscriptions): set<string> {
    set k | k in subs :: k.channel
  }

  function ListFor(subs: Subscriptions, user: string): set<string> {
    set k | k in subs && k.user == user :: k.channel
  }

  /** `_insert`: none is the refusal that rolls the transaction back. */
  function Inserted(subs: Subscriptions, user: string, channel: string, now: Instant): Option<Subscriptions> {
    if channel !in Channels(subs) && |Channels(subs)| >= ChannelLimit then None
    else if Subscription(user, channel) in subs then Some(subs)
    else Some(subs[Subscription(user, channel) := now])
  }

  function InsertedAll(subs: Subscriptions, user: string, channels: seq<string>,
                       clock: string -> Instant): Option<Subscriptions>
    decreases |channels|
  {
    if channels == [] then Some(subs)
    else
      var next := Inserted(subs, user, channels[0], clock(channels[0]));
      if next.None? then None else InsertedAll(next.value, user, channels[1..], clock)
  }

  function Seeds(t: Tables): seq<string> {
    if t.starting.Some? then t.starting.value else []
  }

  /** `_initialize`: the first contact of a user, and only that, subscribes to the starting list. */
  function Initialized(t: Tables, user: string, clock: string -> Instant): Option<Tables> {
    if user in t.users then Some(t)
    else
      var subs := InsertedAll(t.subscriptions, user, Seeds(t), clock);
      if subs.None? then None else Some(t.(users := t.users + {user}, subscriptions := subs.value))
  }

  function Added(t: Tables, user: string, channel: string, clock: string -> Instant): Option<Tables> {
    var t' := Initialized(t, user, clock);
    if t'.None? then None
    else
      var subs := Inserted(t'.value.subscriptions, user, channel, clock(channel));
      if subs.None? then None else Some(t'.value.(subscriptions := subs.value))
  }

  function Removed(t: Tables, user: string, channel: string, clock: string -> Instant): Option<Tables> {
    var t' := Initialized(t, user, clock);
    if t'.None? then None
    else Some(t'.value.(subscriptions := t'.value.subscriptions - {Subscription(user, channel)}))
  }

  // --------------------------------------------------------------- the starting list

  predicate AllRead(texts: seq<string>) {
    forall i :: 0 <= i < |texts| ==> Names.Username(texts[i]).Some?
  }

  /** The channels that are written in a list. */
  function NamesOf(texts: seq<string>): set<string> {
    set i | 0 <= i < |texts| && Names.Username(texts[i]).Some? :: Names.Username(texts[i]).value
  }

  function NamesRead(texts: seq<string>): seq<string>
    requires AllRead(texts)
  {
    seq(|texts|, i requires 0 <= i < |texts| => Names.Username(texts[i]).value)
  }

  /** `seed`: an unreadable name or too many channels are refused; the first stored list is
      never replaced. */
  function Seeded(t: Tables, texts: seq<string>): Option<Tables> {
    if !AllRead(texts) then None
    else
      var channels := Sorting.SortedDistinct(NamesRead(texts));
      if |channels| > ChannelLimit then None
      else if t.starting.Some? then Some(t)
      else Some(t.(starting := Some(channels)))
  }

  lemma NamesAreListed(texts: seq<string>)
    requires AllRead(texts)
    ensures Sorting.ListsInOrder(Sorting.SortedDistinct(NamesRead(texts)), NamesOf(texts))
  {
    hide Sorting.ListsInOrder, Sorting.SortedDistinct;
    var names := NamesRead(texts);
    Sorting.SortedDistinctLists(names);
    forall x ensures x in names <==> x in NamesOf(texts) {
      if x in names {
        var i :| 0 <= i < |names| && names[i] == x;
        assert Names.Username(texts[i]).value in NamesOf(texts);
      }
      if x in NamesOf(texts) {
        var i :| 0 <= i < |texts| && Names.Username(texts[i]) == Some(x);
        assert names[i] == x;
      }
    }
    assert (set x | x in names) == NamesOf(texts);
  }

  lemma StartingListIs(texts: seq<string>, channels: seq<string>)
    requires AllRead(texts) && Sorting.ListsInOrder(channels, NamesOf(texts))
    ensures channels == Sorting.SortedDistinct(NamesRead(texts))
  {
    hide Sorting.ListsInOrder;
    NamesAreListed(texts);
    Sorting.ListingIsUnique(channels, Sorting.SortedDistinct(NamesRead(texts)), NamesOf(texts));
  }

  lemma UnreadName(texts: seq<string>, i: nat)
    requires i < |texts| && Names.Username(texts[i]).None?
    ensures !AllRead(texts)
  {
  }

  /** A starting list is refused exactly when some name cannot be read or it has more than fifty
      channels, however often each is written; else it is stored sorted, unless there is one. */
  lemma SeedIsRefusedExactly(t: Tables, texts: seq<string>)
    ensures Seeded(t, texts).None? <==> !AllRead(texts) || |NamesOf(texts)| > 50
    ensures Seeded(t, texts).Some? && t.starting.None? ==>
              && Seeded(t, texts).value.starting.Some?
              && Sorting.ListsInOrder(Seeded(t, texts).value.starting.value, NamesOf(texts))
    ensures Seeded(t, texts).Some? && t.starting.Some? ==> Seeded(t, texts).value == t
  {
    if AllRead(texts) {
      hide Sorting.ListsInOrder, Sorting.SortedDistinct;
      NamesAreListed(texts);
      Sorting.OrderedListingHasTheSize(Sorting.SortedDistinct(NamesRead(texts)), NamesOf(texts));
    }
  }

  // ---------------------------------------------------------------------- pages

  function KeyOf(post: Post): PostKey {
    PostKey(post.channel, post.id)
  }

  /** Who gets a post: subscribers of its channel, unless it is older than their slack. */
  function Eligible(subs: Subscriptions, post: Post): set<string> {
    set k | k in subs && k.channel == post.channel && post.date >= subs[k] - SubscriptionSlack :: k.user
  }

  function DeliveryIdFor(post: Post, user: string): DeliveryId {
    DeliveryId(post.channel, post.id, user)
  }

  function DeliveryFor(post: Post, user: string, at: Instant): Delivery {
    Delivery(Payload(post.channel, post.id, post.date, post.text, user), at, None)
  }

  function Delivered(deliveries: map<DeliveryId, Delivery>, subs: Subscriptions, post: Post,
                     at: Instant): map<DeliveryId, Delivery>
  {
    var added := map user | user in Eligible(subs, post) && DeliveryIdFor(post, user) !in deliveries
                   :: DeliveryIdFor(post, user) := DeliveryFor(post, user, at);
    deliveries + added
  }

  function AcceptedPost(box: Outbox, subs: Subscriptions, post: Post, at: Instant): Outbox {
    if post.channel !in Channels(subs) || KeyOf(post) in box.seen then box
    else Outbox(box.seen + {KeyOf(post)},
                if post.deleted then box.deliveries else Delivered(box.deliveries, subs, post, at))
  }

  function AcceptedPosts(box: Outbox, subs: Subscriptions, posts: seq<Post>, at: Instant): Outbox
    decreases |posts|
  {
    if posts == [] then box
    else AcceptedPosts(AcceptedPost(box, subs, posts[0], at), subs, posts[1..], at)
  }

  predicate SeqOrder(a: Post, b: Post) {
    a.seqNo <= b.seqNo
  }

  /** `accept_page`: the posts of a page in the order of their change numbers. */
  function AcceptedPage(box: Outbox, subs: Subscriptions, page: seq<Post>, at: Instant): Outbox {
    AcceptedPosts(box, subs, Sorting.Sort(page, SeqOrder), at)
  }

  /** `confirm` */
  function ConfirmedDelivery(box: Outbox, id: DeliveryId, at: Instant): Outbox {
    if id in box.deliveries then box.(deliveries := box.deliveries[id := box.deliveries[id].(emittedAt := Some(at))])
    else box
  }

  // ----------------------------------------------------------------- polling

  datatype Page = Page(items: seq<Post>, nextCursor: string)
  datatype Response = Answer(page: Page) | Failure(status: int, retryAfter: nat)

  function Max(a: int, b: int): int {
    if a < b then b else a
  }

  predicate MayPoll(t: Tables, at: Instant) {
    !t.poll.stopped && (t.poll.retryAt.Some? ==> t.poll.retryAt.value <= at) && t.subscriptions != map[]
  }

  /** The watermark a poll starts from. */
  function Window(poll: PollState, at: Instant): Instant {
    Max(if poll.sinceAt.Some? then poll.sinceAt.value else at - FirstWindow, at - RetentionHorizon)
  }

  function Restarted(since: Instant, at: Instant): Instant {
    Max(Max(since, at - RestartMargin), at - RetentionHorizon)
  }

  /** `poll` of a configured client: `first` answers the request; a conflict (409) forgets the
      cursor and asks once more, which `second` answers. The page and the cursor it ends with
      are committed together. */
  function Polled(t: Tables, at: Instant, first: Response, second: Response): Tables {
    if !MayPoll(t, at) then t
    else
      var conflict := first.Failure? && first.status == 409;
      var since := if conflict then Restarted(Window(t.poll, at), at) else Window(t.poll, at);
      var cursor := if conflict then None else t.poll.cursor;
      match if conflict then second else first
      case Failure(status, retryAfter) =>
        if status == 401 || status == 403 then t.(poll := PollState(cursor, Some(since), t.poll.retryAt, true))
        else t.(poll := PollState(cursor, Some(since), Some(at + retryAfter), false))
      case Answer(page) =>
        t.(outbox := AcceptedPage(t.outbox, t.subscriptions, page.items, at),
           poll := PollState(Some(page.nextCursor), Some(Restarted(since, at)), None, false))
  }

  // --------------------------------------------------------------------- the machine

  datatype Step =
    | Add(user: string, channel: string, clock: string -> Instant)
    | List(user: string, clock: string -> Instant)
    | Remove(user: string, channel: string, clock: string -> Instant)
    | Seed(texts: seq<string>)
    | Poll(at: Instant, first: Response, second: Response)
    | Confirm(id: DeliveryId, confirmedAt: Instant)

  function Attempted(t: Tables, step: Step): Option<Tables> {
    match step
    case Add(user, channel, clock) => Added(t, user, channel, clock)
    case List(user, clock) => Initialized(t, user, clock)
    case Remove(user, channel, clock) => Removed(t, user, channel, clock)
    case Seed(texts) => Seeded(t, texts)
    case Poll(at, first, second) => Some(Polled(t, at, first, second))
    case Confirm(id, at) => Some(t.(outbox := ConfirmedDelivery(t.outbox, id, at)))
  }

  /** A refused transaction is rolled back. */
  function Apply(t: Tables, step: Step): Tables {
    var r := Attempted(t, step);
    if r.Some? then r.value else t
  }

  predicate Commits(t: Tables, step: Step) {
    Attempted(t, step).Some?
  }

  ghost predicate IsRun(states: seq<Tables>, steps: seq<Step>) {
    && |states| == |steps| + 1
    && states[0] == Empty
    && forall i :: 0 <= i < |steps| ==> states[i + 1] == Apply(states[i], steps[i])
  }

  /** The bound on the union, and only known users have subscriptions. */
  ghost predicate Inv(t: Tables) {
    && |Channels(t.subscriptions)| <= 50
    && (forall k :: k in t.subscriptions ==> k.user in t.users)
    && (forall id :: id in t.outbox.deliveries ==>
          && PostKey(id.channel, id.post) in t.outbox.seen
          && t.outbox.deliveries[id].payload.channel == id.channel
          && t.outbox.deliveries[id].payload.id == id.post
          && t.outbox.deliveries[id].payload.user == id.user)
  }

  lemma InsertKeepsBound(subs: Subscriptions, user: string, channel: string, now: Instant)
    requires |Channels(subs)| <= ChannelLimit
    ensures var r := Inserted(subs, user, channel, now);
            r.Some? ==>
              && Channels(r.value) == Channels(subs) + {channel}
              && |Channels(r.value)| <= ChannelLimit
              && r.value.Keys == subs.Keys + {Subscription(user, channel)}
              && forall k :: k in subs ==> r.value[k] == subs[k]
  {
    var r := Inserted(subs, user, channel, now);
    if r.Some? {
      assert Subscription(user, channel) in r.value;
      assert Channels(r.value) == Channels(subs) + {channel};
    }
  }

  /** The channels of a list, once each. */
  function Listed(channels: seq<string>): set<string> {
    set c | c in channels
  }

  lemma InsertIsRefusedAtTheBound(subs: Subscriptions, user: string, channel: string, now: Instant)
    requires |Channels(subs)| <= ChannelLimit
    ensures Inserted(subs, user, channel, now).None? <==> |Channels(subs) + {channel}| > 50
  {
    if channel in Channels(subs) {
      assert Channels(subs) + {channel} == Channels(subs);
    }
  }

  /** A list is refused exactly when the union of the subscribed channels with it would exceed
      the bound, whatever the order of the list and its repetitions. */
  lemma {:induction false} ListIsRefusedAtTheBound(subs: Subscriptions, user: string, channels: seq<string>,
                                                   clock: string -> Instant)
    requires |Channels(subs)| <= ChannelLimit
    ensures InsertedAll(subs, user, channels, clock).None? <==> |Channels(subs) + Listed(channels)| > 50
    decreases |channels|
  {
    hide Channels, Inserted;
    if channels == [] {
      assert Channels(subs) + Listed(channels) == Channels(subs);
    } else {
      hide Listed;
      var rest := channels[1..];
      InsertIsRefusedAtTheBound(subs, user, channels[0], clock(channels[0]));
      InsertKeepsBound(subs, user, channels[0], clock(channels[0]));
      ListedStep(Channels(subs), channels);
      var next := Inserted(subs, user, channels[0], clock(channels[0]));
      if next.Some? {
        ListIsRefusedAtTheBound(next.value, user, rest, clock);
      }
    }
  }

  /** The first channel of a list, and then the rest, joined to a set. */
  lemma ListedStep(taken: set<string>, channels: seq<string>)
    requires channels != []
    ensures taken + Listed(channels) == (taken + {channels[0]}) + Listed(channels[1..])
    ensures |taken + {channels[0]}| <= |taken + Listed(channels)|
  {
    assert Listed(channels) == {channels[0]} + Listed(channels[1..]);
    assert taken + Listed(channels) == (taken + {channels[0]}) + Listed(channels[1..]);
    SubsetSize(taken + {channels[0]}, taken + Listed(channels));
  }

  lemma SubsetSize<T>(a: set<T>, b: set<T>)
    requires a <= b
    ensures |a| <= |b|
  {
    assert b == a + (b - a);
  }

  lemma {:induction false} InsertAllKeepsBound(subs: Subscriptions, user: string, channels: seq<string>,
                                               clock: string -> Instant)
    requires |Channels(subs)| <= ChannelLimit
    ensures var r := InsertedAll(subs, user, channels, clock);
            r.Some? ==>
              && |Channels(r.value)| <= ChannelLimit
              && (forall k :: k in r.value <==> k in subs || (k.user == user && k.channel in channels))
              && forall k :: k in subs ==> r.value[k] == subs[k]
    decreases |channels|
  {
    if channels != [] {
      InsertKeepsBound(subs, user, channels[0], clock(channels[0]));
      var next := Inserted(subs, user, channels[0], clock(channels[0]));
      if next.Some? {
        InsertAllKeepsBound(next.value, user, channels[1..], clock);
        assert forall c :: c in channels <==> c == channels[0] || c in channels[1..];
      }
    }
  }

  lemma InitializeKeepsBound(t: Tables, user: string, clock: string -> Instant)
    requires Inv(t)
    ensures var r := Initialized(t, user, clock);
            r.Some? ==>
              && Inv(r.value) && user in r.value.users
              && (user in t.users ==> r.value == t)
              && (forall k: Subscription :: k.user != user ==> (k in r.value.subscriptions <==> k in t.subscriptions))
  {
    InsertAllKeepsBound(t.subscriptions, user, Seeds(t), clock);
  }

  lemma RemovalKeepsBound(subs: Subscriptions, k: Subscription)
    ensures |Channels(subs - {k})| <= |Channels(subs)|
  {
    assert Channels(subs) == Channels(subs - {k}) + (Channels(subs) - Channels(subs - {k}));
  }

  lemma DeliveredHas(deliveries: map<DeliveryId, Delivery>, subs: Subscriptions, post: Post, at: Instant,
                     id: DeliveryId)
    ensures var after := Delivered(deliveries, subs, post, at);
            && (id in after <==>
                  id in deliveries || (id == DeliveryIdFor(post, id.user) && id.user in Eligible(subs, post)))
            && (id in deliveries ==> after[id] == deliveries[id])
            && (id in after && id !in deliveries ==> after[id] == DeliveryFor(post, id.user, at))
  {
    if id == DeliveryIdFor(post, id.user) && id.user in Eligible(subs, post) && id !in deliveries {
      assert DeliveryIdFor(post, id.user) in Delivered(deliveries, subs, post, at);
    }
  }

  lemma PostKeepsIdentity(box: Outbox, subs: Subscriptions, post: Post, at: Instant)
    requires Inv(Empty.(outbox := box))
    ensures Inv(Empty.(outbox := AcceptedPost(box, subs, post, at)))
  {
    var after := AcceptedPost(box, subs, post, at);
    forall id | id in after.deliveries
      ensures PostKey(id.channel, id.post) in after.seen
      ensures var p := after.deliveries[id].payload; p.channel == id.channel && p.id == id.post && p.user == id.user
    {
      if id !in box.deliveries {
        DeliveredHas(box.deliveries, subs, post, at, id);
      }
    }
  }

  lemma {:induction false} PostsKeepIdentity(box: Outbox, subs: Subscriptions, posts: seq<Post>, at: Instant)
    requires Inv(Empty.(outbox := box))
    ensures Inv(Empty.(outbox := AcceptedPosts(box, subs, posts, at)))
    decreases |posts|
  {
    if posts != [] {
      PostKeepsIdentity(box, subs, posts[0], at);
      PostsKeepIdentity(AcceptedPost(box, subs, posts[0], at), subs, posts[1..], at);
    }
  }

  lemma PollKeepsInv(t: Tables, at: Instant, first: Response, second: Response)
    requires Inv(t)
    ensures Inv(Polled(t, at, first, second))
  {
    var conflict := first.Failure? && first.status == 409;
    var response := if conflict then second else first;
    if response.Answer? {
      PostsKeepIdentity(t.outbox, t.subscriptions, Sorting.Sort(response.page.items, SeqOrder), at);
    }
  }

  lemma StepKeepsInv(t: Tables, step: Step)
    requires Inv(t)
    ensures Inv(Apply(t, step))
  {
    match step
    case Add(user, channel, clock) =>
      InitializeKeepsBound(t, user, clock);
      var t' := Initialized(t, user, clock);
      if t'.Some? {
        InsertKeepsBound(t'.value.subscriptions, user, channel, clock(channel));
      }
    case List(user, clock) => InitializeKeepsBound(t, user, clock);
    case Remove(user, channel, clock) =>
      InitializeKeepsBound(t, user, clock);
      var t' := Initialized(t, user, clock);
      if t'.Some? {
        RemovalKeepsBound(t'.value.subscriptions, Subscription(user, channel));
      }
    case Poll(at, first, second) => PollKeepsInv(t, at, first, second);
    case _ =>
  }

  /** In every reachable state the subscribed channels number at most fifty. */
  lemma {:induction false} RunKeepsInv(states: seq<Tables>, steps: seq<Step>, i: nat)
    requires IsRun(states, steps) && i < |states|
    ensures Inv(states[i])
  {
    if i > 0 {
      RunKeepsInv(states, steps, i - 1);
      StepKeepsInv(states[i - 1], steps[i - 1]);
    }
  }

  // -------------------------------------------------------- subscriptions over a run

  /** Only a committed `add` of a channel puts it into the list of a known user. */
  lemma OnlyAddSubscribes(t: Tables, step: Step, user: string, channel: string)
    requires Inv(t) && user in t.users && channel !in ListFor(t.subscriptions, user)
    requires !(step.Add? && step.user == user && step.channel == channel && Commits(t, step))
    ensures user in Apply(t, step).users && channel !in ListFor(Apply(t, step).subscriptions, user)
  {
    var k := Subscription(user, channel);
    assert k !in t.subscriptions;
    match step
    case Add(u, c, clock) =>
      InitializeKeepsBound(t, u, clock);
      var t' := Initialized(t, u, clock);
      if t'.Some? {
        InsertKeepsBound(t'.value.subscriptions, u, c, clock(c));
      }
      assert k !in Apply(t, step).subscriptions;
    case List(u, clock) =>
      InitializeKeepsBound(t, u, clock);
      assert k !in Apply(t, step).subscriptions;
    case Remove(u, c, clock) =>
      InitializeKeepsBound(t, u, clock);
      assert k !in Apply(t, step).subscriptions;
    case Seed(_) => assert Apply(t, step).subscriptions == t.subscriptions;
    case Poll(_, _, _) => assert Apply(t, step).subscriptions == t.subscriptions;
    case Confirm(_, _) => assert Apply(t, step).subscriptions == t.subscriptions;
  }

  /** A removed channel stays out of the user's list until a later `add` of it commits. */
  lemma {:induction false} RemovedStaysOut(states: seq<Tables>, steps: seq<Step>, i: nat, j: nat, user: string,
                                           channel: string)
    requires IsRun(states, steps) && i < j < |states|
    requires steps[i].Remove? && steps[i].user == user && steps[i].channel == channel && Commits(states[i], steps[i])
    requires forall k :: i < k < j ==>
               !(steps[k].Add? && steps[k].user == user && steps[k].channel == channel && Commits(states[k], steps[k]))
    ensures user in states[j].users && channel !in ListFor(states[j].subscriptions, user)
    decreases j
  {
    if j == i + 1 {
      RunKeepsInv(states, steps, i);
      InitializeKeepsBound(states[i], user, steps[i].clock);
    } else {
      RemovedStaysOut(states, steps, i, j - 1, user, channel);
      RunKeepsInv(states, steps, j - 1);
      OnlyAddSubscribes(states[j - 1], steps[j - 1], user, channel);
    }
  }

  /** The channels a user's first contact subscribes to; none for a known user. */
  function Contacted(t: Tables, user: string): set<string> {
    if user in t.users then {} else Listed(Seeds(t))
  }

  /** First contact is refused exactly when its starting list would exceed the bound. */
  lemma ContactIsRefusedAtTheBound(t: Tables, user: string, clock: string -> Instant)
    requires Inv(t)
    ensures Initialized(t, user, clock).None? <==> |Channels(t.subscriptions) + Contacted(t, user)| > 50
    ensures var r := Initialized(t, user, clock);
            r.Some? ==> Channels(r.value.subscriptions) == Channels(t.subscriptions) + Contacted(t, user)
  {
    ListIsRefusedAtTheBound(t.subscriptions, user, Seeds(t), clock);
    InsertAllKeepsBound(t.subscriptions, user, Seeds(t), clock);
    var r := Initialized(t, user, clock);
    if r.Some? && user !in t.users {
      var after := r.value.subscriptions;
      forall c ensures c in Channels(after) <==> c in Channels(t.subscriptions) + Contacted(t, user) {
        if c in Channels(t.subscriptions) {
          var k :| k in t.subscriptions && k.channel == c;
          assert k in after;
        }
        if c in Contacted(t, user) {
          assert Subscription(user, c) in after;
        }
      }
    } else {
      assert Channels(t.subscriptions) + {} == Channels(t.subscriptions);
    }
  }

  /** `add` is refused exactly when the subscribed channels, the starting list of a user at
      first contact, and the channel itself would together exceed the bound; a refused one
      changes nothing, a committed one leaves the channel in the list. */
  lemma AddIsRefusedAtTheBound(t: Tables, user: string, channel: string, clock: string -> Instant)
    requires Inv(t)
    ensures !Commits(t, Add(user, channel, clock)) <==>
              |Channels(t.subscriptions) + Contacted(t, user) + {channel}| > 50
    ensures Commits(t, Add(user, channel, clock)) ==>
              channel in ListFor(Apply(t, Add(user, channel, clock)).subscriptions, user)
    ensures !Commits(t, Add(user, channel, clock)) ==> Apply(t, Add(user, channel, clock)) == t
  {
    var union := Channels(t.subscriptions) + Contacted(t, user);
    ContactIsRefusedAtTheBound(t, user, clock);
    SubsetSize(union, union + {channel});
    var t' := Initialized(t, user, clock);
    if t'.Some? {
      InsertIsRefusedAtTheBound(t'.value.subscriptions, user, channel, clock(channel));
      InsertKeepsBound(t'.value.subscriptions, user, channel, clock(channel));
      var r := Added(t, user, channel, clock);
      if r.Some? {
        assert Subscription(user, channel) in r.value.subscriptions;
      }
    }
  }

  // ------------------------------------------------------------------ pages over a run

  lemma {:induction false} PostsConcat(box: Outbox, subs: Subscriptions, a: seq<Post>, b: seq<Post>, at: Instant)
    ensures AcceptedPosts(box, subs, a + b, at) == AcceptedPosts(AcceptedPosts(box, subs, a, at), subs, b, at)
    decreases |a|
  {
    if a == [] {
      assert a + b == b;
    } else {
      assert (a + b)[1..] == a[1..] + b;
      PostsConcat(AcceptedPost(box, subs, a[0], at), subs, a[1..], b, at);
    }
  }

  /** Where the feed is cut into pages does not matter. */
  lemma PagesMayBeMerged(box: Outbox, subs: Subscriptions, p1: seq<Post>, p2: seq<Post>, at: Instant)
    requires forall x, y :: x in p1 && y in p2 ==> x.seqNo <= y.seqNo
    ensures AcceptedPage(AcceptedPage(box, subs, p1, at), subs, p2, at) == AcceptedPage(box, subs, p1 + p2, at)
  {
    Sorting.SortConcat(p1, p2, SeqOrder);
    PostsConcat(box, subs, Sorting.Sort(p1, SeqOrder), Sorting.Sort(p2, SeqOrder), at);
  }

  lemma {:induction false} PostsAreSeen(box: Outbox, subs: Subscriptions, posts: seq<Post>, at: Instant)
    ensures var after := AcceptedPosts(box, subs, posts, at);
            && box.seen <= after.seen
            && (forall post :: post in posts && post.channel in Channels(subs) ==> KeyOf(post) in after.seen)
            && (forall key :: key in after.seen && key !in box.seen ==>
                  exists post :: post in posts && KeyOf(post) == key && post.channel in Channels(subs))
    decreases |posts|
  {
    if posts != [] {
      var next := AcceptedPost(box, subs, posts[0], at);
      PostsAreSeen(next, subs, posts[1..], at);
      var after := AcceptedPosts(box, subs, posts, at);
      forall post | post in posts && post.channel in Channels(subs) ensures KeyOf(post) in after.seen {
        assert post == posts[0] || post in posts[1..];
      }
      forall key | key in after.seen && key !in box.seen
        ensures exists post :: post in posts && KeyOf(post) == key && post.channel in Channels(subs)
      {
        if key in next.seen {
          assert posts[0] in posts && KeyOf(posts[0]) == key;
        } else {
          var post :| post in posts[1..] && KeyOf(post) == key && post.channel in Channels(subs);
          assert post in posts;
        }
      }
    }
  }

  lemma {:induction false} SeenPostsChangeNothing(box: Outbox, subs: Subscriptions, posts: seq<Post>, at: Instant)
    requires forall post :: post in posts && post.channel in Channels(subs) ==> KeyOf(post) in box.seen
    ensures AcceptedPosts(box, subs, posts, at) == box
    decreases |posts|
  {
    if posts != [] {
      assert posts[0] in posts;
      SeenPostsChangeNothing(box, subs, posts[1..], at);
    }
  }

  /** A page that arrives again, at any time later, changes nothing. */
  lemma ReacceptingChangesNothing(box: Outbox, subs: Subscriptions, page: seq<Post>, at: Instant, later: Instant)
    ensures var once := AcceptedPage(box, subs, page, at);
            AcceptedPage(once, subs, page, later) == once
  {
    PostsAreSeen(box, subs, Sorting.Sort(page, SeqOrder), at);
    SeenPostsChangeNothing(AcceptedPage(box, subs, page, at), subs, Sorting.Sort(page, SeqOrder), later);
  }

  /** The first post of an identity in a page, in change order. */
  ghost predicate IsFirst(posts: seq<Post>, i: nat) {
    i < |posts| && forall j :: 0 <= j < i ==> KeyOf(posts[j]) != KeyOf(posts[i])
  }

  /** The user subscribes to the post's channel, since at most ten minutes after its date. */
  predicate SubscribedInTime(subs: Subscriptions, post: Post, user: string) {
    Subscription(user, post.channel) in subs && subs[Subscription(user, post.channel)] <= post.date + 600
  }

  lemma EligibleExactly(subs: Subscriptions, post: Post, user: string)
    ensures user in Eligible(subs, post) <==> SubscribedInTime(subs, post, user)
  {
    if SubscribedInTime(subs, post, user) {
      assert Subscription(user, post.channel).user in Eligible(subs, post);
    }
  }

  /** Which users a post is delivered to is settled once, by its first appearance: those whose
      subscription to its channel began at most ten minutes after the post, or nobody if it
      appears deleted; they get its date and its text. */
  lemma {:induction false} FirstAppearanceDecides(box: Outbox, subs: Subscriptions, posts: seq<Post>, at: Instant,
                                                  i: nat, user: string)
    requires Inv(Empty.(outbox := box))
    requires IsFirst(posts, i) && posts[i].channel in Channels(subs) && KeyOf(posts[i]) !in box.seen
    ensures DeliveryIdFor(posts[i], user) in AcceptedPosts(box, subs, posts, at).deliveries
            <==> !posts[i].deleted && SubscribedInTime(subs, posts[i], user)
    ensures var after, post := AcceptedPosts(box, subs, posts, at).deliveries, posts[i];
            DeliveryIdFor(post, user) in after ==>
              after[DeliveryIdFor(post, user)]
              == Delivery(Payload(post.channel, post.id, post.date, post.text, user), at, None)
    decreases |posts|
  {
    EligibleExactly(subs, posts[i], user);
    var next := AcceptedPost(box, subs, posts[0], at);
    PostsKeepIdentity(box, subs, [posts[0]], at);
    assert AcceptedPosts(box, subs, [posts[0]], at) == next;
    if i > 0 {
      FirstAppearanceDecides(next, subs, posts[1..], at, i - 1, user);
    } else {
      SeenDeliveriesAreSettled(next, subs, posts[1..], at, DeliveryIdFor(posts[0], user));
      assert DeliveryIdFor(posts[0], user) !in box.deliveries;
    }
  }

  lemma {:induction false} SeenDeliveriesAreSettled(box: Outbox, subs: Subscriptions, posts: seq<Post>, at: Instant,
                                                    id: DeliveryId)
    requires PostKey(id.channel, id.post) in box.seen
    ensures var after := AcceptedPosts(box, subs, posts, at);
            && PostKey(id.channel, id.post) in after.seen
            && (id in after.deliveries <==> id in box.deliveries)
            && (id in after.deliveries ==> after.deliveries[id] == box.deliveries[id])
    decreases |posts|
  {
    if posts != [] {
      DeliveredHas(box.deliveries, subs, posts[0], at, id);
      SeenDeliveriesAreSettled(AcceptedPost(box, subs, posts[0], at), subs, posts[1..], at, id);
    }
  }

  /** A delivery, apart from the time it was emitted. */
  function Promise(box: Outbox, id: DeliveryId): Option<(Payload, Instant)> {
    if id in box.deliveries then Some((box.deliveries[id].payload, box.deliveries[id].occurredAt)) else None
  }

  lemma SeenStaysSettled(t: Tables, step: Step, id: DeliveryId)
    requires PostKey(id.channel, id.post) in t.outbox.seen
    ensures PostKey(id.channel, id.post) in Apply(t, step).outbox.seen
    ensures Promise(Apply(t, step).outbox, id) == Promise(t.outbox, id)
  {
    if step.Poll? {
      var conflict := step.first.Failure? && step.first.status == 409;
      var response := if conflict then step.second else step.first;
      if response.Answer? {
        SeenDeliveriesAreSettled(t.outbox, t.subscriptions, Sorting.Sort(response.page.items, SeqOrder), step.at, id);
      }
    }
  }

  /** Once a post was seen, no later page, edit or subscription adds, removes or changes a
      delivery of it: every user gets it at most once. */
  lemma {:induction false} SeenPostsAreSettledForGood(states: seq<Tables>, steps: seq<Step>, i: nat, j: nat,
                                                      id: DeliveryId)
    requires IsRun(states, steps) && i <= j < |states|
    requires PostKey(id.channel, id.post) in states[i].outbox.seen
    ensures PostKey(id.channel, id.post) in states[j].outbox.seen
    ensures Promise(states[j].outbox, id) == Promise(states[i].outbox, id)
    decreases j
  {
    hide Apply, Promise;
    if i < j {
      SeenPostsAreSettledForGood(states, steps, i, j - 1, id);
      SeenStaysSettled(states[j - 1], steps[j - 1], id);
    }
  }

  /** A delivery was decided by position `i` of what was accepted: the first appearance of its
      post, not deleted, with the user subscribed in time, and it has the post's date and text. */
  ghost predicate DecidedBy(box: Outbox, subs: Subscriptions, posts: seq<Post>, at: Instant, i: nat, id: DeliveryId,
                            d: Delivery)
  {
    && IsFirst(posts, i) && KeyOf(posts[i]) !in box.seen
    && !posts[i].deleted && SubscribedInTime(subs, posts[i], id.user)
    && id == DeliveryId(posts[i].channel, posts[i].id, id.user)
    && d == Delivery(Payload(posts[i].channel, posts[i].id, posts[i].date, posts[i].text, id.user), at, None)
  }

  /** Every delivery a batch of posts adds was decided by the post's first appearance in it. */
  lemma {:induction false} NewDeliveryIsDecided(box: Outbox, subs: Subscriptions, posts: seq<Post>, at: Instant,
                                                id: DeliveryId)
    requires id !in box.deliveries && id in AcceptedPosts(box, subs, posts, at).deliveries
    ensures exists i :: DecidedBy(box, subs, posts, at, i, id, AcceptedPosts(box, subs, posts, at).deliveries[id])
    decreases |posts|
  {
    var next := AcceptedPost(box, subs, posts[0], at);
    DeliveredHas(box.deliveries, subs, posts[0], at, id);
    EligibleExactly(subs, posts[0], id.user);
    if id in next.deliveries {
      SeenDeliveriesAreSettled(next, subs, posts[1..], at, id);
      assert DecidedBy(box, subs, posts, at, 0, id, next.deliveries[id]);
    } else {
      NewDeliveryIsDecided(next, subs, posts[1..], at, id);
      var d := AcceptedPosts(next, subs, posts[1..], at).deliveries[id];
      var i :| DecidedBy(next, subs, posts[1..], at, i, id, d);
      FirstAfterAnother(box, subs, posts, at, i, id, d);
    }
  }

  lemma FirstAfterAnother(box: Outbox, subs: Subscriptions, posts: seq<Post>, at: Instant, i: nat, id: DeliveryId,
                          d: Delivery)
    requires posts != [] && DecidedBy(AcceptedPost(box, subs, posts[0], at), subs, posts[1..], at, i, id, d)
    ensures DecidedBy(box, subs, posts, at, i + 1, id, d)
  {
    var post := posts[1..][i];
    assert post.channel in Channels(subs);
    assert KeyOf(posts[0]) != KeyOf(post);
    forall j | 0 <= j < i + 1 ensures KeyOf(posts[j]) != KeyOf(posts[i + 1]) {
      if j > 0 {
        assert posts[1..][j - 1] == posts[j];
      }
    }
  }

  /** The page a poll accepts. */
  function AcceptedItems(t: Tables, step: Step): seq<Post> {
    if !step.Poll? || !MayPoll(t, step.at) then []
    else
      var response := if step.first.Failure? && step.first.status == 409 then step.second else step.first;
      if response.Answer? then Sorting.Sort(response.page.items, SeqOrder) else []
  }

  /** In every run, a delivery says what the poll that first saw its post decided: it exists
      only for a post that was not deleted then, for a user subscribed within the slack then. */
  lemma {:induction false} EveryDeliveryWasDecided(states: seq<Tables>, steps: seq<Step>, j: nat, id: DeliveryId)
    returns (k: nat, i: nat)
    requires IsRun(states, steps) && j < |states| && id in states[j].outbox.deliveries
    ensures k < j && steps[k].Poll?
    ensures DecidedBy(states[k].outbox, states[k].subscriptions, AcceptedItems(states[k], steps[k]), steps[k].at, i, id,
                      states[j].outbox.deliveries[id].(emittedAt := None))
    decreases j
  {
    hide Apply, DecidedBy, AcceptedItems, Inv;
    assert j > 0;
    var t, step := states[j - 1], steps[j - 1];
    if id in t.outbox.deliveries {
      RunKeepsInv(states, steps, j - 1);
      k, i := EveryDeliveryWasDecided(states, steps, j - 1, id);
      DeliveryKeepsPromise(t, step, id);
    } else {
      k := j - 1;
      i := AddedDeliveryIsDecided(t, step, id);
    }
  }

  lemma DeliveryKeepsPromise(t: Tables, step: Step, id: DeliveryId)
    requires Inv(t) && id in t.outbox.deliveries
    ensures id in Apply(t, step).outbox.deliveries
    ensures Apply(t, step).outbox.deliveries[id].(emittedAt := None) == t.outbox.deliveries[id].(emittedAt := None)
  {
    hide Apply;
    SeenStaysSettled(t, step, id);
  }

  lemma AddedDeliveryIsDecided(t: Tables, step: Step, id: DeliveryId) returns (i: nat)
    requires id !in t.outbox.deliveries && id in Apply(t, step).outbox.deliveries
    ensures step.Poll?
    ensures DecidedBy(t.outbox, t.subscriptions, AcceptedItems(t, step), step.at, i, id,
                      Apply(t, step).outbox.deliveries[id].(emittedAt := None))
  {
    hide AcceptedPosts, DecidedBy;
    assert step.Poll?;
    NewDeliveryIsDecided(t.outbox, t.subscriptions, AcceptedItems(t, step), step.at, id);
    i :| DecidedBy(t.outbox, t.subscriptions, AcceptedItems(t, step), step.at, i, id,
                   AcceptedPosts(t.outbox, t.subscriptions, AcceptedItems(t, step), step.at).deliveries[id]);
    DecidedIsUnconfirmed(t.outbox, t.subscriptions, AcceptedItems(t, step), step.at, i, id,
                         Apply(t, step).outbox.deliveries[id]);
  }

  lemma DecidedIsUnconfirmed(box: Outbox, subs: Subscriptions, posts: seq<Post>, at: Instant, i: nat, id: DeliveryId,
                             d: Delivery)
    requires DecidedBy(box, subs, posts, at, i, id, d)
    ensures d.(emittedAt := None) == d
  {
  }

  // ------------------------------------------------------------------- the watermark

  /** How the poll state may change: the watermark never moves back, and once polling has
      stopped nothing of it changes and no post is seen any more. */
  predicate MovesForward(t: Tables, t': Tables) {
    && (t.poll.sinceAt.Some? ==> t'.poll.sinceAt.Some? && t.poll.sinceAt.value <= t'.poll.sinceAt.value)
    && (t.poll.stopped ==>
          t'.poll == t.poll && t'.outbox.seen == t.outbox.seen
          && t'.outbox.deliveries.Keys == t.outbox.deliveries.Keys)
  }

  lemma StepMovesForward(t: Tables, step: Step)
    ensures MovesForward(t, Apply(t, step))
  {
    match step
    case Poll(at, first, second) =>
    case Confirm(id, at) => assert Apply(t, step).outbox.deliveries.Keys == t.outbox.deliveries.Keys;
    case _ => assert Apply(t, step).poll == t.poll && Apply(t, step).outbox == t.outbox;
  }

  /** Over any run, whatever the clock reads at each poll. */
  lemma {:induction false} PollMovesForward(states: seq<Tables>, steps: seq<Step>, i: nat, j: nat)
    requires IsRun(states, steps) && i <= j < |states|
    ensures MovesForward(states[i], states[j])
    decreases j
  {
    hide Apply;
    if i < j {
      PollMovesForward(states, steps, i, j - 1);
      StepMovesForward(states[j - 1], steps[j - 1]);
    }
  }

  /** A poll that commits a page with its cursor, restarting margins included. */
  ghost predicate CommitsPage(t: Tables, step: Step, t': Tables, cursor: string) {
    step.Poll? && MayPoll(t, step.at)
    && exists page ::
         page in {step.first, step.second} && page.Answer? && page.page.nextCursor == cursor
         && t'.outbox == AcceptedPage(t.outbox, t.subscriptions, page.page.items, step.at)
         && t'.poll.cursor == Some(cursor) && t'.poll.retryAt.None?
         && t'.poll.sinceAt.Some? && step.at - RestartMargin <= t'.poll.sinceAt.value
  }

  lemma CursorStep(t: Tables, step: Step, cursor: string)
    requires Apply(t, step).poll.cursor == Some(cursor)
    ensures t.poll.cursor == Some(cursor) || CommitsPage(t, step, Apply(t, step), cursor)
  {
    if step.Poll? && MayPoll(t, step.at) {
      var conflict := step.first.Failure? && step.first.status == 409;
      var response := if conflict then step.second else step.first;
      assert response in {step.first, step.second};
      assert response.Failure? ==> Apply(t, step).poll.cursor == if conflict then None else t.poll.cursor;
    }
  }

  /** The cursor advances only with its page: in every reachable state the stored cursor is the
      one that some poll of the run committed together with the posts of its page. */
  lemma {:induction false} CursorHasItsPage(states: seq<Tables>, steps: seq<Step>, j: nat) returns (k: nat)
    requires IsRun(states, steps) && j < |states| && states[j].poll.cursor.Some?
    ensures k < j && CommitsPage(states[k], steps[k], states[k + 1], states[j].poll.cursor.value)
  {
    hide Apply, CommitsPage;
    CursorStep(states[j - 1], steps[j - 1], states[j].poll.cursor.value);
    if states[j - 1].poll.cursor == states[j].poll.cursor {
      k := CursorHasItsPage(states, steps, j - 1);
    } else {
      k := j - 1;
    }
  }
}
