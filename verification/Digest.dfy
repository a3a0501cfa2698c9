/** The latest-post digest over a paged change feed
    (`codegen_kit_tg_channels/service.py`). */
module Digest {
  import opened Options
  import Sorting

  const MaxRequests := 20
  const MaxPosts := 20

  datatype Post = Post(channel: string, id: int, seqNo: int, date: int, text: string, deleted: bool)
  datatype Identity = Identity(channel: string, id: int)

  datatype Page = Page(items: seq<Post>, nextCursor: string, hasMore: bool)
  datatype Reply = Answer(page: Page) | Failure(status: int)

  /** How the platform answers the k-th request, made with a cursor. */
  type Platform = (nat, Option<string>) -> Reply

  datatype Code = NotConfigured | TryLater | InvalidUsername
  datatype Result = Ok(posts: seq<Post>) | Error(code: Code)

  function IdentityOf(post: Post): Identity {
    Identity(post.channel, post.id)
  }

  function ServiceErrorCode(status: int): Code {
    if status == 401 || status == 403 then NotConfigured
    else if status == 429 then TryLater
    else if status == 400 then InvalidUsername
    else TryLater
  }

  // ------------------------------------------------------------------ what is promised

  /** Position `i` holds the first of the highest-numbered items of its identity. */
  ghost predicate IsLatest(feed: seq<Post>, channels: seq<string>, i: int) {
    && 0 <= i < |feed|
    && feed[i].channel in channels
    && forall j :: 0 <= j < |feed| && IdentityOf(feed[j]) == IdentityOf(feed[i]) ==>
         feed[j].seqNo < feed[i].seqNo || (feed[j].seqNo == feed[i].seqNo && i <= j)
  }

  ghost predicate Shown(feed: seq<Post>, channels: seq<string>, post: Post) {
    !post.deleted && exists i :: IsLatest(feed, channels, i) && feed[i] == post
  }

  /** By (date, channel, id), greatest first. */
  predicate NewestFirst(a: Post, b: Post) {
    if a.date != b.date then a.date > b.date
    else if a.channel != b.channel then Sorting.StringLe(b.channel, a.channel)
    else a.id >= b.id
  }

  ghost predicate IsRanked(posts: seq<Post>) {
    forall i, j :: 0 <= i < j < |posts| ==>
      NewestFirst(posts[i], posts[j]) && IdentityOf(posts[i]) != IdentityOf(posts[j])
  }

  /** The digest of a feed: the newest twenty of the posts shown, each identity once. */
  ghost predicate IsDigest(feed: seq<Post>, channels: seq<string>, posts: seq<Post>) {
    && |posts| <= MaxPosts
    && (forall i :: 0 <= i < |posts| ==> Shown(feed, channels, posts[i]))
    && IsRanked(posts)
    && (forall post :: Shown(feed, channels, post) && post !in posts ==>
          |posts| == MaxPosts && forall i :: 0 <= i < |posts| ==> NewestFirst(posts[i], post))
  }

  /** The cursor the k-th request is made with. */
  function CursorAt(platform: Platform, k: nat): Option<string> {
    if k == 0 then None
    else
      var before := platform(k - 1, CursorAt(platform, k - 1));
      if before.Answer? then Some(before.page.nextCursor) else None
  }

  function ReplyAt(platform: Platform, k: nat): Reply {
    platform(k, CursorAt(platform, k))
  }

  /** The first `n` requests are answered and more is announced each time. */
  ghost predicate GoesOn(platform: Platform, n: nat) {
    forall k :: 0 <= k < n ==> ReplyAt(platform, k).Answer? && ReplyAt(platform, k).page.hasMore
  }

  predicate IsLast(reply: Reply) {
    reply.Answer? && !reply.page.hasMore
  }

  function Items(reply: Reply): seq<Post> {
    if reply.Answer? then reply.page.items else []
  }

  /** The items of the first `n` replies, one after the other. */
  function Feed(platform: Platform, n: nat): seq<Post> {
    if n == 0 then [] else Feed(platform, n - 1) + Items(ReplyAt(platform, n - 1))
  }

  // ------------------------------------------------------------------- the running fold

  function Noted(latest: map<Identity, Post>, channels: seq<string>, post: Post): map<Identity, Post> {
    if post.channel in channels && (IdentityOf(post) !in latest || latest[IdentityOf(post)].seqNo < post.seqNo)
    then latest[IdentityOf(post) := post]
    else latest
  }

  function Latest(feed: seq<Post>, channels: seq<string>): map<Identity, Post> {
    if feed == [] then map[]
    else Noted(Latest(feed[..|feed| - 1], channels), channels, feed[|feed| - 1])
  }

  lemma LatestStep(feed: seq<Post>, channels: seq<string>, post: Post)
    ensures Latest(feed + [post], channels) == Noted(Latest(feed, channels), channels, post)
  {
    assert (feed + [post])[..|feed|] == feed;
  }

  /** Adding an item keeps the latest position of an identity, or moves it to the new item. */
  lemma LatestMoves(feed: seq<Post>, channels: seq<string>, post: Post, i: int)
    requires IsLatest(feed, channels, i)
    ensures IdentityOf(post) != IdentityOf(feed[i]) || post.seqNo <= feed[i].seqNo ==>
            IsLatest(feed + [post], channels, i)
    ensures IdentityOf(post) == IdentityOf(feed[i]) && feed[i].seqNo < post.seqNo ==>
              IsLatest(feed + [post], channels, |feed|)
  {
    var longer := feed + [post];
    forall j | 0 <= j < |longer| ensures j < |feed| ==> longer[j] == feed[j] {
    }
  }

  /** The fold keeps, for every identity of a wanted channel, its latest item. */
  lemma {:induction false} LatestIsLatest(feed: seq<Post>, channels: seq<string>, identity: Identity)
    ensures var latest := Latest(feed, channels);
            && (identity in latest ==>
                  exists i :: IsLatest(feed, channels, i) && feed[i] == latest[identity]
                    && IdentityOf(feed[i]) == identity)
            && (identity !in latest ==>
                  forall i :: 0 <= i < |feed| && IdentityOf(feed[i]) == identity ==> feed[i].channel !in channels)
  {
    if feed != [] {
      var front, post := feed[..|feed| - 1], feed[|feed| - 1];
      assert feed == front + [post];
      LatestIsLatest(front, channels, identity);
      LatestStep(front, channels, post);
      if identity in Latest(front, channels) {
        var i :| IsLatest(front, channels, i) && front[i] == Latest(front, channels)[identity]
          && IdentityOf(front[i]) == identity;
        LatestMoves(front, channels, post, i);
        assert feed[i] == front[i];
      } else if identity in Latest(feed, channels) {
        assert IsLatest(feed, channels, |front|);
      }
    }
  }

  lemma LatestPositionIsUnique(feed: seq<Post>, channels: seq<string>, i: int, j: int)
    requires IsLatest(feed, channels, i) && IsLatest(feed, channels, j)
    requires IdentityOf(feed[i]) == IdentityOf(feed[j])
    ensures i == j
  {
  }

  /** The posts shown are exactly the undeleted entries of the fold. */
  lemma ShownIsKept(feed: seq<Post>, channels: seq<string>, post: Post)
    ensures Shown(feed, channels, post) <==>
              var latest := Latest(feed, channels);
              !post.deleted && IdentityOf(post) in latest && latest[IdentityOf(post)] == post
  {
    var latest := Latest(feed, channels);
    LatestIsLatest(feed, channels, IdentityOf(post));
    if Shown(feed, channels, post) {
      var i :| IsLatest(feed, channels, i) && feed[i] == post;
      assert IdentityOf(post) in latest;
      var j :| IsLatest(feed, channels, j) && feed[j] == latest[IdentityOf(post)]
        && IdentityOf(feed[j]) == IdentityOf(post);
      LatestPositionIsUnique(feed, channels, i, j);
    }
  }

  // ------------------------------------------------------------- order and uniqueness

  lemma NewestFirstIsTotalPreorder()
    ensures Sorting.IsTotalPreorder(NewestFirst)
  {
    forall a, b ensures NewestFirst(a, b) || NewestFirst(b, a) {
      Sorting.StringLeTotal(a.channel, b.channel);
    }
    forall a, b, c | NewestFirst(a, b) && NewestFirst(b, c) ensures NewestFirst(a, c) {
      if a.date == b.date == c.date && a.channel != b.channel && b.channel != c.channel {
        Sorting.StringLeTransitive(c.channel, b.channel, a.channel);
        if a.channel == c.channel {
          Sorting.StringLeAntisymmetric(a.channel, b.channel);
        }
      }
    }
  }

  lemma NewestFirstBothWays(a: Post, b: Post)
    requires NewestFirst(a, b) && NewestFirst(b, a)
    ensures IdentityOf(a) == IdentityOf(b)
  {
    if a.channel != b.channel {
      Sorting.StringLeAntisymmetric(a.channel, b.channel);
    }
  }

  lemma ShownOncePerIdentity(feed: seq<Post>, channels: seq<string>, a: Post, b: Post)
    requires Shown(feed, channels, a) && Shown(feed, channels, b) && IdentityOf(a) == IdentityOf(b)
    ensures a == b
  {
    var i :| IsLatest(feed, channels, i) && feed[i] == a;
    var j :| IsLatest(feed, channels, j) && feed[j] == b;
    LatestPositionIsUnique(feed, channels, i, j);
  }

  /** At the first place where two digests could differ, the one's post is no older. */
  lemma NoOlder(feed: seq<Post>, channels: seq<string>, p: seq<Post>, q: seq<Post>, k: nat)
    requires IsDigest(feed, channels, p) && IsDigest(feed, channels, q)
    requires k < |p| && k <= |q| && p[..k] == q[..k]
    ensures k < |q| && NewestFirst(q[k], p[k])
  {
    NewestFirstIsTotalPreorder();
    assert Shown(feed, channels, p[k]);
    forall m | 0 <= m < k ensures q[m] != p[k] {
      assert p[..k][m] == q[..k][m];
      assert IdentityOf(p[m]) != IdentityOf(p[k]);
    }
    if p[k] in q {
      var m :| 0 <= m < |q| && q[m] == p[k];
    }
  }

  lemma {:induction false} DigestsAgreeUpTo(feed: seq<Post>, channels: seq<string>, p: seq<Post>, q: seq<Post>, k: nat)
    requires IsDigest(feed, channels, p) && IsDigest(feed, channels, q)
    requires k <= |p|
    ensures k <= |q| && p[..k] == q[..k]
  {
    if k > 0 {
      DigestsAgreeUpTo(feed, channels, p, q, k - 1);
      NoOlder(feed, channels, p, q, k - 1);
      NoOlder(feed, channels, q, p, k - 1);
      NewestFirstBothWays(p[k - 1], q[k - 1]);
      ShownOncePerIdentity(feed, channels, p[k - 1], q[k - 1]);
      assert p[..k] == p[..k - 1] + [p[k - 1]] && q[..k] == q[..k - 1] + [q[k - 1]];
    }
  }

  /** A feed has one digest. */
  lemma DigestIsUnique(feed: seq<Post>, channels: seq<string>, p: seq<Post>, q: seq<Post>)
    requires IsDigest(feed, channels, p) && IsDigest(feed, channels, q)
    ensures p == q
  {
    DigestsAgreeUpTo(feed, channels, p, q, |p|);
    DigestsAgreeUpTo(feed, channels, q, p, |q|);
    assert p[..|p|] == p && q[..|q|] == q;
  }

  /** No item of the feed speaks later about the same post, and this one is not a deletion. */
  ghost predicate Stands(feed: seq<Post>, channels: seq<string>, i: nat) {
    && i < |feed| && feed[i].channel in channels && !feed[i].deleted
    && forall j :: 0 <= j < |feed| && feed[j].channel == feed[i].channel && feed[j].id == feed[i].id ==>
         feed[j].seqNo < feed[i].seqNo || (feed[j].seqNo == feed[i].seqNo && i <= j)
  }

  /** From the newest to the oldest; of one date by channel, and of one channel by number, backwards. */
  predicate ComesBefore(a: Post, b: Post) {
    && a.date >= b.date
    && (a.date == b.date ==> Sorting.StringLe(b.channel, a.channel))
    && (a.date == b.date && a.channel == b.channel ==> a.id > b.id)
  }

  ghost predicate StandsAs(feed: seq<Post>, channels: seq<string>, post: Post) {
    exists i: nat :: Stands(feed, channels, i) && feed[i] == post
  }

  lemma ShownStands(feed: seq<Post>, channels: seq<string>, post: Post)
    ensures Shown(feed, channels, post) <==> StandsAs(feed, channels, post)
  {
    if Shown(feed, channels, post) {
      var i :| IsLatest(feed, channels, i) && feed[i] == post;
      assert Stands(feed, channels, i);
    }
    if StandsAs(feed, channels, post) {
      var i: nat :| Stands(feed, channels, i) && feed[i] == post;
      assert IsLatest(feed, channels, i);
    }
  }

  lemma RankedComesBefore(a: Post, b: Post)
    requires NewestFirst(a, b) && IdentityOf(a) != IdentityOf(b)
    ensures ComesBefore(a, b)
  {
    Sorting.StringLeTotal(a.channel, b.channel);
  }

  /** What a reader sees: twenty posts at most, in this order, each as the feed last told it; and a
      post that stands in the feed is only missing if twenty newer, or equally old, ones are there. */
  lemma DigestShowsTheNewest(feed: seq<Post>, channels: seq<string>, posts: seq<Post>)
    requires IsDigest(feed, channels, posts)
    ensures |posts| <= 20
    ensures forall k :: 0 <= k < |posts| ==> StandsAs(feed, channels, posts[k])
    ensures forall k, l :: 0 <= k < l < |posts| ==> ComesBefore(posts[k], posts[l])
    ensures forall post :: StandsAs(feed, channels, post) && post !in posts ==>
              |posts| == 20 && forall k :: 0 <= k < |posts| ==> posts[k].date >= post.date
  {
    hide Shown, StandsAs, ComesBefore;
    forall post ensures Shown(feed, channels, post) <==> StandsAs(feed, channels, post) {
      ShownStands(feed, channels, post);
    }
    forall k, l | 0 <= k < l < |posts| ensures ComesBefore(posts[k], posts[l]) {
      RankedComesBefore(posts[k], posts[l]);
    }
    forall post | StandsAs(feed, channels, post) && post !in posts
      ensures |posts| == 20 && forall k :: 0 <= k < |posts| ==> posts[k].date >= post.date
    {
      assert Shown(feed, channels, post);
    }
  }

  // ---------------------------------------------------------------------- the service

  function PostsOf(latest: map<Identity, Post>, keys: seq<Identity>): seq<Post>
    requires forall i :: 0 <= i < |keys| ==> keys[i] in latest
  {
    seq(|keys|, i requires 0 <= i < |keys| => latest[keys[i]])
  }

  lemma CutIsDigest(feed: seq<Post>, channels: seq<string>, all: seq<Post>)
    requires forall post :: post in all <==> Shown(feed, channels, post)
    requires IsRanked(all)
    ensures IsDigest(feed, channels, all[..if |all| < MaxPosts then |all| else MaxPosts])
  {
    var posts := all[..if |all| < MaxPosts then |all| else MaxPosts];
    forall i | 0 <= i < |posts| ensures Shown(feed, channels, posts[i]) {
      assert posts[i] in all;
    }
    forall k | 0 <= k < |posts| ensures all[k] in posts {
      assert posts[k] == all[k];
    }
    forall post | Shown(feed, channels, post) && post !in posts
      ensures |posts| == MaxPosts && forall i :: 0 <= i < |posts| ==> NewestFirst(posts[i], post)
    {
      var k :| 0 <= k < |all| && all[k] == post;
    }
  }

  lemma SortedOncePerIdentity(feed: seq<Post>, channels: seq<string>, posts: seq<Post>)
    requires forall i :: 0 <= i < |posts| ==> Shown(feed, channels, posts[i])
    requires forall i, j :: 0 <= i < j < |posts| ==> posts[i] != posts[j]
    ensures var all := Sorting.Sort(posts, NewestFirst);
            forall i, j :: 0 <= i < j < |all| ==> IdentityOf(all[i]) != IdentityOf(all[j])
  {
    hide Shown, NewestFirst;
    var all := Sorting.Sort(posts, NewestFirst);
    forall i, j | 0 <= i < j < |all| ensures IdentityOf(all[i]) != IdentityOf(all[j]) {
      if IdentityOf(all[i]) == IdentityOf(all[j]) {
        Sorting.SortKeepsMembers(posts, NewestFirst, all[i]);
        Sorting.SortKeepsMembers(posts, NewestFirst, all[j]);
        ShownOncePerIdentity(feed, channels, all[i], all[j]);
        Sorting.TwiceInOne(all, i, j);
        Sorting.MultiplicityGivesPositions(posts, all[i]);
      }
    }
  }

  /** The entries of the fold that are not deleted are the posts to be shown. */
  lemma EntriesAreShown(feed: seq<Post>, channels: seq<string>, keys: seq<Identity>, post: Post)
    requires var latest := Latest(feed, channels);
             && (forall i :: 0 <= i < |keys| ==> keys[i] in latest && !latest[keys[i]].deleted)
             && (forall key :: key in latest && !latest[key].deleted ==> key in keys)
    ensures post in PostsOf(Latest(feed, channels), keys) <==> Shown(feed, channels, post)
  {
    hide Latest;
    var posts := PostsOf(Latest(feed, channels), keys);
    KeysAreIdentities(feed, channels, keys);
    ShownIsKept(feed, channels, post);
    hide Shown;
    if Shown(feed, channels, post) {
      var i :| 0 <= i < |keys| && keys[i] == IdentityOf(post);
      assert posts[i] == post;
    }
    if post in posts {
      var i :| 0 <= i < |posts| && posts[i] == post;
      assert IdentityOf(posts[i]) == keys[i];
    }
  }

  /** The entries of the fold that are not deleted, sorted: what the service cuts to twenty. */
  lemma SortedEntries(feed: seq<Post>, channels: seq<string>, keys: seq<Identity>)
    requires var latest := Latest(feed, channels);
             && (forall i :: 0 <= i < |keys| ==> keys[i] in latest && !latest[keys[i]].deleted)
             && (forall key :: key in latest && !latest[key].deleted ==> key in keys)
    requires forall i, j :: 0 <= i < j < |keys| ==> keys[i] != keys[j]
    ensures var all := Sorting.Sort(PostsOf(Latest(feed, channels), keys), NewestFirst);
            && (forall post :: post in all <==> Shown(feed, channels, post))
            && IsRanked(all)
  {
    hide Latest, Shown;
    var posts := PostsOf(Latest(feed, channels), keys);
    KeysAreIdentities(feed, channels, keys);
    NewestFirstIsTotalPreorder();
    hide NewestFirst;
    Sorting.SortIsSorted(posts, NewestFirst);
    forall post ensures post in Sorting.Sort(posts, NewestFirst) <==> Shown(feed, channels, post)
                ensures post in posts <==> Shown(feed, channels, post)
    {
      Sorting.SortKeepsMembers(posts, NewestFirst, post);
      EntriesAreShown(feed, channels, keys, post);
    }
    SortedOncePerIdentity(feed, channels, posts);
  }

  lemma KeysAreIdentities(feed: seq<Post>, channels: seq<string>, keys: seq<Identity>)
    requires forall i :: 0 <= i < |keys| ==> keys[i] in Latest(feed, channels)
    ensures forall i :: 0 <= i < |keys| ==> IdentityOf(PostsOf(Latest(feed, channels), keys)[i]) == keys[i]
  {
    forall i | 0 <= i < |keys| ensures IdentityOf(PostsOf(Latest(feed, channels), keys)[i]) == keys[i] {
      LatestIsLatest(feed, channels, keys[i]);
    }
  }

  /** One page of the loop. */
  method NotePage(latest: map<Identity, Post>, channels: seq<string>, items: seq<Post>, ghost feed: seq<Post>)
    returns (noted: map<Identity, Post>)
    requires latest == Latest(feed, channels)
    ensures noted == Latest(feed + items, channels)
  {
    noted := latest;
    assert feed + items[..0] == feed;
    for i := 0 to |items|
      invariant noted == Latest(feed + items[..i], channels)
    {
      var post := items[i];
      LatestStep(feed + items[..i], channels, post);
      assert feed + items[..i + 1] == (feed + items[..i]) + [post];
      if post.channel in channels {
        var identity := IdentityOf(post);
        if identity !in noted || noted[identity].seqNo < post.seqNo {
          noted := noted[identity := post];
        }
      }
    }
    assert feed + items[..|items|] == feed + items;
  }

  /** `sorted(...)[:20]` */
  method TopPosts(latest: map<Identity, Post>, ghost feed: seq<Post>, ghost channels: seq<string>)
    returns (posts: seq<Post>)
    requires latest == Latest(feed, channels)
    ensures IsDigest(feed, channels, posts)
  {
    var keys := Sorting.ListOf(set key | key in latest && !latest[key].deleted);
    var all := Sorting.Sort(PostsOf(latest, keys), NewestFirst);
    SortedEntries(feed, channels, keys);
    CutIsDigest(feed, channels, all);
    posts := all[..if |all| < MaxPosts then |all| else MaxPosts];
  }

  lemma NothingNoted(channels: seq<string>)
    ensures Latest([], channels) == map[]
  {
  }

  /** `digest`: with a feed that ends within twenty requests, the digest of that feed; a
      platform failure by its status; otherwise the caller is asked to try later. */
  method DigestOf(channels: seq<string>, configured: bool, platform: Platform) returns (r: Result)
    ensures channels == [] ==> r == Ok([])
    ensures channels != [] && !configured ==> r == Error(NotConfigured)
    ensures channels != [] && configured ==>
              && (forall k :: 0 <= k < 20 && GoesOn(platform, k) && ReplyAt(platform, k).Failure? ==>
                    var status := ReplyAt(platform, k).status;
                    r == Error(if status == 401 || status == 403 then NotConfigured
                               else if status == 400 then InvalidUsername else TryLater))
              && (forall k :: 0 <= k < 20 && GoesOn(platform, k) && IsLast(ReplyAt(platform, k)) ==>
                    r.Ok? && IsDigest(Feed(platform, k + 1), channels, r.posts))
              && (GoesOn(platform, 20) ==> r == Error(TryLater))
  {
    hide IsDigest, Latest;
    if channels == [] {
      return Ok([]);
    }
    if !configured {
      return Error(NotConfigured);
    }
    var cursor: Option<string> := None;
    var latest: map<Identity, Post> := map[];
    NothingNoted(channels);
    for request := 0 to MaxRequests
      invariant cursor == CursorAt(platform, request)
      invariant GoesOn(platform, request)
      invariant latest == Latest(Feed(platform, request), channels)
    {
      var reply := platform(request, cursor);
      assert reply == ReplyAt(platform, request);
      if reply.Failure? {
        OnlyOneEnd(platform, request);
        return Error(ServiceErrorCode(reply.status));
      }
      latest := NotePage(latest, channels, reply.page.items, Feed(platform, request));
      cursor := Some(reply.page.nextCursor);
      if !reply.page.hasMore {
        OnlyOneEnd(platform, request);
        var posts := TopPosts(latest, Feed(platform, request + 1), channels);
        return Ok(posts);
      }
    }
    return Error(TryLater);
  }

  /** Requests end in one place. */
  lemma OnlyOneEnd(platform: Platform, k: nat)
    requires GoesOn(platform, k) && (ReplyAt(platform, k).Failure? || !ReplyAt(platform, k).page.hasMore)
    ensures forall n: nat :: GoesOn(platform, n) ==> n <= k
  {
  }

  /** Where the feed is cut into pages does not matter. */
  lemma PageBoundariesDoNotMatter(one: Platform, other: Platform, m: nat, n: nat, channels: seq<string>,
                                  p: seq<Post>, q: seq<Post>)
    requires Feed(one, m) == Feed(other, n)
    requires IsDigest(Feed(one, m), channels, p) && IsDigest(Feed(other, n), channels, q)
    ensures p == q
  {
    DigestIsUnique(Feed(one, m), channels, p, q);
  }
}
