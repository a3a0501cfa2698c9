/** Python's `sorted`, as a stable insertion sort over a caller-supplied order, and the
    facts about it that the other modules rely on. */
module Sorting {
  ghost predicate IsTotalPreorder<T(!new)>(le: (T, T) -> bool) {
    && (forall x, y :: le(x, y) || le(y, x))
    && (forall x, y, z :: le(x, y) && le(y, z) ==> le(x, z))
  }

  ghost predicate SortedBy<T>(s: seq<T>, le: (T, T) -> bool) {
    forall i, j :: 0 <= i < j < |s| ==> le(s[i], s[j])
  }

  /** Entries of `s` that are tied under `le` are the same. */
  ghost predicate TiesAreEqual<T(!new)>(s: seq<T>, le: (T, T) -> bool) {
    forall x, y :: x in s && y in s && le(x, y) && le(y, x) ==> x == y
  }

  function Insert<T>(x: T, s: seq<T>, le: (T, T) -> bool): (r: seq<T>)
    ensures |r| == |s| + 1
    ensures multiset(r) == multiset(s) + multiset{x}
  {
    if s == [] then [x]
    else if le(x, s[0]) then [x] + s
    else
      assert s == [s[0]] + s[1..];
      [s[0]] + Insert(x, s[1..], le)
  }

  function Sort<T>(s: seq<T>, le: (T, T) -> bool): (r: seq<T>)
    ensures |r| == |s|
    ensures multiset(r) == multiset(s)
  {
    if s == [] then []
    else
      assert s == [s[0]] + s[1..];
      Insert(s[0], Sort(s[1..], le), le)
  }

  lemma SortKeepsMembers<T>(s: seq<T>, le: (T, T) -> bool, x: T)
    ensures x in Sort(s, le) <==> x in s
  {
    assert x in Sort(s, le) <==> x in multiset(Sort(s, le));
    assert x in s <==> x in multiset(s);
  }

  lemma {:induction false} InsertKeepsOrder<T(!new)>(x: T, s: seq<T>, le: (T, T) -> bool)
    requires IsTotalPreorder(le) && SortedBy(s, le)
    ensures SortedBy(Insert(x, s, le), le)
  {
    if s != [] && !le(x, s[0]) {
      var rest := Insert(x, s[1..], le);
      InsertKeepsOrder(x, s[1..], le);
      forall k | 0 <= k < |rest| ensures le(s[0], rest[k]) {
        assert rest[k] in multiset(rest);
        assert rest[k] == x || rest[k] in s[1..];
      }
    }
  }

  lemma {:induction false} SortIsSorted<T(!new)>(s: seq<T>, le: (T, T) -> bool)
    requires IsTotalPreorder(le)
    ensures SortedBy(Sort(s, le), le)
  {
    if s != [] {
      SortIsSorted(s[1..], le);
      InsertKeepsOrder(s[0], Sort(s[1..], le), le);
    }
  }

  /** Two sorted arrangements of the same entries agree when only equal entries are tied. */
  lemma {:induction false} SortedArrangementIsUnique<T(!new)>(a: seq<T>, b: seq<T>, le: (T, T) -> bool)
    requires IsTotalPreorder(le)
    requires multiset(a) == multiset(b)
    requires SortedBy(a, le) && SortedBy(b, le) && TiesAreEqual(a, le)
    ensures a == b
  {
    hide IsTotalPreorder, SortedBy, TiesAreEqual;
    SameSize(a, b);
    if a != [] {
      LeastIsUnique(a, b, le);
      SameRest(a, b);
      RestIsSorted(a, le);
      RestIsSorted(b, le);
      SortedArrangementIsUnique(a[1..], b[1..], le);
      assert a == [a[0]] + a[1..] && b == [b[0]] + b[1..];
    }
  }

  lemma SameSize<T>(a: seq<T>, b: seq<T>)
    requires multiset(a) == multiset(b)
    ensures |a| == |b|
  {
    assert |a| == |multiset(a)| == |multiset(b)| == |b|;
  }

  lemma SameRest<T>(a: seq<T>, b: seq<T>)
    requires a != [] && b != [] && a[0] == b[0] && multiset(a) == multiset(b)
    ensures multiset(a[1..]) == multiset(b[1..])
  {
    DroppingFirst(a);
    DroppingFirst(b);
  }

  lemma RestIsSorted<T(!new)>(s: seq<T>, le: (T, T) -> bool)
    requires s != [] && SortedBy(s, le)
    ensures SortedBy(s[1..], le) && (TiesAreEqual(s, le) ==> TiesAreEqual(s[1..], le))
  {
  }

  lemma DroppingFirst<T>(s: seq<T>)
    requires s != []
    ensures multiset(s[1..]) == multiset(s) - multiset{s[0]}
  {
    assert s == [s[0]] + s[1..];
  }

  lemma LeastIsUnique<T(!new)>(a: seq<T>, b: seq<T>, le: (T, T) -> bool)
    requires IsTotalPreorder(le) && a != [] && b != []
    requires multiset(a) == multiset(b)
    requires SortedBy(a, le) && SortedBy(b, le) && TiesAreEqual(a, le)
    ensures a[0] == b[0]
  {
    assert a[0] in multiset(b) && b[0] in multiset(a);
    var j :| 0 <= j < |b| && b[j] == a[0];
    var k :| 0 <= k < |a| && a[k] == b[0];
    assert le(b[0], b[j]) && le(a[0], a[k]);
  }

  lemma TiesIgnoreArrangement<T(!new)>(a: seq<T>, b: seq<T>, le: (T, T) -> bool)
    requires multiset(a) == multiset(b) && TiesAreEqual(a, le)
    ensures TiesAreEqual(b, le)
  {
    forall x | x in b ensures x in a {
      assert x in multiset(b);
    }
  }

  lemma TwiceInOne<T>(s: seq<T>, i: nat, j: nat)
    requires i < j < |s| && s[i] == s[j]
    ensures multiset(s)[s[i]] >= 2
  {
    assert s == s[..i] + [s[i]] + s[i + 1..j] + [s[j]] + s[j + 1..];
  }

  /** The entries but one. */
  function Dropped<T>(s: seq<T>, k: nat): seq<T>
    requires k < |s|
  {
    s[..k] + s[k + 1..]
  }

  lemma DroppedMultiset<T>(s: seq<T>, k: nat)
    requires k < |s|
    ensures multiset(Dropped(s, k)) == multiset(s) - multiset{s[k]}
  {
    assert s == s[..k] + [s[k]] + s[k + 1..];
  }

  lemma {:induction false} MultiplicityGivesPositions<T>(a: seq<T>, x: T)
    requires multiset(a)[x] >= 2
    ensures exists p, q :: 0 <= p < q < |a| && a[p] == x && a[q] == x
  {
    assert a == [a[0]] + a[1..];
    if a[0] == x {
      assert x in multiset(a[1..]);
      var q :| 0 <= q < |a[1..]| && a[1..][q] == x;
      assert a[0] == x && a[q + 1] == x;
    } else {
      MultiplicityGivesPositions(a[1..], x);
      var p, q :| 0 <= p < q < |a[1..]| && a[1..][p] == x && a[1..][q] == x;
      assert a[p + 1] == x && a[q + 1] == x;
    }
  }

  /** Sorting forgets the arrangement of its input when only equal entries are tied. */
  lemma SortIgnoresArrangement<T(!new)>(a: seq<T>, b: seq<T>, le: (T, T) -> bool)
    requires IsTotalPreorder(le)
    requires multiset(a) == multiset(b) && TiesAreEqual(a, le)
    ensures Sort(a, le) == Sort(b, le)
  {
    SortIsSorted(a, le);
    SortIsSorted(b, le);
    TiesIgnoreArrangement(a, Sort(a, le), le);
    SortedArrangementIsUnique(Sort(a, le), Sort(b, le), le);
  }

  lemma {:induction false} InsertBefore<T>(x: T, s: seq<T>, t: seq<T>, le: (T, T) -> bool)
    requires forall y :: y in t ==> le(x, y)
    ensures Insert(x, s + t, le) == Insert(x, s, le) + t
  {
    if s == [] {
      assert s + t == t;
      if t != [] {
        assert t[0] in t;
      }
    } else {
      assert (s + t)[1..] == s[1..] + t;
      InsertBefore(x, s[1..], t, le);
    }
  }

  /** Sorting is stable: what already stands before the rest may be sorted apart. */
  lemma {:induction false} SortConcat<T>(a: seq<T>, b: seq<T>, le: (T, T) -> bool)
    requires forall x, y :: x in a && y in b ==> le(x, y)
    ensures Sort(a + b, le) == Sort(a, le) + Sort(b, le)
  {
    if a == [] {
      assert a + b == b;
    } else {
      assert (a + b)[1..] == a[1..] + b;
      SortConcat(a[1..], b, le);
      forall y | y in Sort(b, le) ensures le(a[0], y) {
        SortKeepsMembers(b, le, y);
      }
      InsertBefore(a[0], Sort(a[1..], le), Sort(b, le), le);
    }
  }

  /** `s` with one more entry at position `k`. */
  function With<T>(s: seq<T>, y: T, k: nat): seq<T>
    requires k <= |s|
  {
    s[..k] + [y] + s[k..]
  }

  lemma WithBehindFirst<T>(first: T, s: seq<T>, y: T, k: nat)
    requires k <= |s|
    ensures With([first] + s, y, k + 1) == [first] + With(s, y, k)
  {
    assert ([first] + s)[..k + 1] == [first] + s[..k] && ([first] + s)[k + 1..] == s[k..];
  }

  lemma InsertSteps<T>(x: T, first: T, rest: seq<T>, le: (T, T) -> bool)
    ensures Insert(x, [first] + rest, le)
            == if le(x, first) then [x] + ([first] + rest) else [first] + Insert(x, rest, le)
  {
    assert ([first] + rest)[1..] == rest;
  }

  lemma InsertAroundFirst<T>(x: T, s: seq<T>, y: T, le: (T, T) -> bool)
    requires s != [] && le(x, y) ==> le(x, s[0])
    ensures Insert(x, With(s, y, 0), le) == With(Insert(x, s, le), y, if le(x, y) then 1 else 0)
  {
    var wide := With(s, y, 0);
    assert wide == [y] + s && wide[1..] == s;
    if le(x, y) {
      assert Insert(x, s, le) == [x] + s;
      WithBehindFirst(x, s, y, 0);
    } else {
      var r := Insert(x, s, le);
      assert With(r, y, 0) == [y] + r;
    }
  }

  lemma InsertStops<T>(x: T, s: seq<T>, le: (T, T) -> bool)
    requires s != [] && le(x, s[0])
    ensures Insert(x, s, le) == [x] + s
  {
  }

  lemma InsertBeforeFirst<T>(x: T, s: seq<T>, y: T, k: nat, le: (T, T) -> bool)
    requires 0 < k <= |s| && le(x, s[0])
    ensures Insert(x, With(s, y, k), le) == With(Insert(x, s, le), y, k + 1)
  {
    assert With(s, y, k)[0] == s[0];
    hide Insert, With;
    InsertStops(x, s, le);
    InsertStops(x, With(s, y, k), le);
    WithBehindFirst(x, s, y, k);
  }

  lemma InsertBehindFirst<T>(x: T, first: T, rest: seq<T>, y: T, k: nat, i: nat, le: (T, T) -> bool)
    requires k <= |rest| && !le(x, first)
    requires i <= |rest| + 1 && Insert(x, With(rest, y, k), le) == With(Insert(x, rest, le), y, i)
    ensures Insert(x, With([first] + rest, y, k + 1), le) == With(Insert(x, [first] + rest, le), y, i + 1)
  {
    hide Insert, With;
    InsertSteps(x, first, rest, le);
    InsertSteps(x, first, With(rest, y, k), le);
    WithBehindFirst(first, rest, y, k);
    WithBehindFirst(first, Insert(x, rest, le), y, i);
  }

  lemma {:induction false} InsertAround<T>(x: T, s: seq<T>, y: T, k: nat, le: (T, T) -> bool) returns (j: nat)
    requires k <= |s| && (k < |s| && le(x, y) ==> le(x, s[k]))
    ensures j <= |s| + 1 && Insert(x, With(s, y, k), le) == With(Insert(x, s, le), y, j)
  {
    hide Insert, With;
    if k == 0 {
      InsertAroundFirst(x, s, y, le);
      j := if le(x, y) then 1 else 0;
    } else {
      var first, rest := s[0], s[1..];
      assert s == [first] + rest;
      if le(x, first) {
        InsertBeforeFirst(x, s, y, k, le);
        j := k + 1;
      } else {
        var i := InsertAround(x, rest, y, k - 1, le);
        InsertBehindFirst(x, first, rest, y, k - 1, i, le);
        j := i + 1;
      }
    }
  }

  lemma SortedAround<T(!new)>(x: T, s: seq<T>, y: T, k: nat, le: (T, T) -> bool)
    requires k <= |s| && IsTotalPreorder(le) && SortedBy(With(s, y, k), le)
    ensures k < |s| && le(x, y) ==> le(x, s[k])
  {
    var wide := With(s, y, k);
    assert k < |s| ==> wide[k] == y && wide[k + 1] == s[k];
  }

  /** Sorting one more entry leaves the others as they were sorted. */
  lemma {:induction false} SortOneMore<T(!new)>(s: seq<T>, y: T, le: (T, T) -> bool) returns (k: nat)
    requires IsTotalPreorder(le)
    ensures k <= |s| && Sort(s + [y], le) == With(Sort(s, le), y, k)
  {
    if s == [] {
      assert s + [y] == [y] && [y][1..] == [];
      k := 0;
    } else {
      var rest := s[1..];
      assert (s + [y])[1..] == rest + [y];
      var i := SortOneMore(rest, y, le);
      SortIsSorted(rest + [y], le);
      SortedAround(s[0], Sort(rest, le), y, i, le);
      hide SortedBy, IsTotalPreorder, Insert, With;
      k := InsertAround(s[0], Sort(rest, le), y, i, le);
    }
  }

  /** Lexicographic order of strings, as Python compares them. */
  /** Among the entries that satisfy `p`, the one that is least, and first among equals, is also
      the first of them after sorting. */
  lemma {:induction false} FirstAfterSorting<T(!new)>(s: seq<T>, le: (T, T) -> bool, p: T -> bool, i: nat)
    returns (k: nat)
    requires IsTotalPreorder(le) && i < |s| && p(s[i])
    requires forall j :: 0 <= j < |s| && p(s[j]) ==> le(s[i], s[j]) && (j < i ==> !le(s[j], s[i]))
    ensures k < |s| && Sort(s, le)[k] == s[i] && forall j :: 0 <= j < k ==> !p(Sort(s, le)[j])
  {
    var rest, first := s[1..], s[0];
    SortIsSorted(rest, le);
    if i == 0 {
      forall x | x in Sort(rest, le) && p(x) ensures le(first, x) {
        SortKeepsMembers(rest, le, x);
        var j :| 0 <= j < |rest| && rest[j] == x;
        assert s[j + 1] == x;
      }
      k := InsertedFirst(first, Sort(rest, le), le, p);
    } else {
      assert rest[i - 1] == s[i];
      forall j | 0 <= j < |rest| && p(rest[j])
        ensures le(rest[i - 1], rest[j]) && (j < i - 1 ==> !le(rest[j], rest[i - 1]))
      {
        assert rest[j] == s[j + 1];
      }
      var m := FirstAfterSorting(rest, le, p, i - 1);
      k := InsertedBeside(first, Sort(rest, le), le, p, m);
    }
  }

  lemma {:induction false} InsertedFirst<T(!new)>(x: T, s: seq<T>, le: (T, T) -> bool, p: T -> bool) returns (k: nat)
    requires forall y :: y in s && p(y) ==> le(x, y)
    ensures k <= |s| && Insert(x, s, le)[k] == x && forall j :: 0 <= j < k ==> !p(Insert(x, s, le)[j])
  {
    if s == [] || le(x, s[0]) {
      k := 0;
    } else {
      assert s[0] in s;
      var m := InsertedFirst(x, s[1..], le, p);
      k := m + 1;
      assert Insert(x, s, le) == [s[0]] + Insert(x, s[1..], le);
    }
  }

  lemma {:induction false} InsertedBeside<T(!new)>(x: T, s: seq<T>, le: (T, T) -> bool, p: T -> bool, m: nat)
    returns (k: nat)
    requires IsTotalPreorder(le) && SortedBy(s, le) && m < |s| && (p(x) ==> !le(x, s[m]))
    requires forall j :: 0 <= j < m ==> !p(s[j])
    ensures k <= |s| && Insert(x, s, le)[k] == s[m] && forall j :: 0 <= j < k ==> !p(Insert(x, s, le)[j])
  {
    if le(x, s[0]) {
      assert m > 0 ==> le(s[0], s[m]);
      assert le(x, s[m]);
      k := m + 1;
    } else if m == 0 {
      k := 0;
    } else {
      var next := InsertedBeside(x, s[1..], le, p, m - 1);
      k := next + 1;
      assert Insert(x, s, le) == [s[0]] + Insert(x, s[1..], le);
    }
  }

  predicate StringLe(a: string, b: string) {
    a == [] || (b != [] && (a[0] < b[0] || (a[0] == b[0] && StringLe(a[1..], b[1..]))))
  }

  lemma {:induction false} StringLeTotal(a: string, b: string)
    ensures StringLe(a, b) || StringLe(b, a)
  {
    if a != [] && b != [] && a[0] == b[0] {
      StringLeTotal(a[1..], b[1..]);
    }
  }

  lemma {:induction false} StringLeTransitive(a: string, b: string, c: string)
    requires StringLe(a, b) && StringLe(b, c)
    ensures StringLe(a, c)
  {
    if a != [] && a[0] == b[0] && b[0] == c[0] {
      StringLeTransitive(a[1..], b[1..], c[1..]);
    }
  }

  lemma {:induction false} StringLeAntisymmetric(a: string, b: string)
    requires StringLe(a, b) && StringLe(b, a)
    ensures a == b
  {
    if a != [] {
      StringLeAntisymmetric(a[1..], b[1..]);
      assert a == [a[0]] + a[1..] && b == [b[0]] + b[1..];
    }
  }

  lemma StringLeIsTotalPreorder()
    ensures IsTotalPreorder(StringLe)
  {
    forall x: string, y: string ensures StringLe(x, y) || StringLe(y, x) {
      StringLeTotal(x, y);
    }
    forall x: string, y: string, z: string | StringLe(x, y) && StringLe(y, z) ensures StringLe(x, z) {
      StringLeTransitive(x, y, z);
    }
  }

  /** Some listing of a finite set. */
  method ListOf<T(==)>(members: set<T>) returns (list: seq<T>)
    ensures forall i :: 0 <= i < |list| ==> list[i] in members
    ensures forall x :: x in members ==> x in list
    ensures forall i, j :: 0 <= i < j < |list| ==> list[i] != list[j]
  {
    list := [];
    var rest := members;
    while rest != {}
      invariant rest <= members
      invariant forall i :: 0 <= i < |list| ==> list[i] in members && list[i] !in rest
      invariant forall x :: x in members && x !in rest ==> x in list
      invariant forall i, j :: 0 <= i < j < |list| ==> list[i] != list[j]
      decreases rest
    {
      var x :| x in rest;
      list := list + [x];
      rest := rest - {x};
    }
  }

  lemma {:induction false} ListingHasTheSize<T>(list: seq<T>, members: set<T>)
    requires forall x :: x in list <==> x in members
    requires forall i, j :: 0 <= i < j < |list| ==> list[i] != list[j]
    ensures |list| == |members|
  {
    if list == [] {
      assert members == {};
    } else {
      assert list[0] in members && list[0] !in list[1..];
      forall x ensures x in list[1..] <==> x in members - {list[0]} {
        assert x in list <==> x == list[0] || x in list[1..];
      }
      ListingHasTheSize(list[1..], members - {list[0]});
    }
  }

  /** `names` lists the members in order, once each. */
  ghost predicate ListsInOrder(names: seq<string>, members: set<string>) {
    && (forall x :: x in names <==> x in members)
    && (forall i, j :: 0 <= i < j < |names| ==> names[i] != names[j])
    && SortedBy(names, StringLe)
  }

  lemma OnceAtMost(s: seq<string>, x: string)
    requires forall i, j :: 0 <= i < j < |s| ==> s[i] != s[j]
    ensures multiset(s)[x] == if x in s then 1 else 0
  {
    if multiset(s)[x] >= 2 {
      MultiplicityGivesPositions(s, x);
    }
    assert x in s <==> x in multiset(s);
  }

  lemma DistinctListingsAreEqual(a: seq<string>, b: seq<string>)
    requires forall x :: x in a <==> x in b
    requires forall i, j :: 0 <= i < j < |a| ==> a[i] != a[j]
    requires forall i, j :: 0 <= i < j < |b| ==> b[i] != b[j]
    ensures multiset(a) == multiset(b)
  {
    forall x ensures multiset(a)[x] == multiset(b)[x] {
      OnceAtMost(a, x);
      OnceAtMost(b, x);
    }
  }

  lemma ListingIsUnique(a: seq<string>, b: seq<string>, members: set<string>)
    requires ListsInOrder(a, members) && ListsInOrder(b, members)
    ensures a == b
  {
    StringLeIsTotalPreorder();
    DistinctListingsAreEqual(a, b);
    forall x, y | x in a && y in a && StringLe(x, y) && StringLe(y, x) ensures x == y {
      StringLeAntisymmetric(x, y);
    }
    SortedArrangementIsUnique(a, b, StringLe);
  }

  lemma SortedListing(list: seq<string>, members: set<string>)
    requires forall x :: x in list <==> x in members
    requires forall i, j :: 0 <= i < j < |list| ==> list[i] != list[j]
    ensures ListsInOrder(Sort(list, StringLe), members)
  {
    var names := Sort(list, StringLe);
    StringLeIsTotalPreorder();
    SortIsSorted(list, StringLe);
    forall x ensures x in names <==> x in members {
      SortKeepsMembers(list, StringLe, x);
    }
    forall i, j | 0 <= i < j < |names| ensures names[i] != names[j] {
      if names[i] == names[j] {
        TwiceInOne(names, i, j);
        OnceAtMost(list, names[i]);
      }
    }
  }

  /** The members of a set of strings, sorted. */
  method ListInOrder(members: set<string>) returns (names: seq<string>)
    ensures ListsInOrder(names, members)
  {
    var list := ListOf(members);
    names := Sort(list, StringLe);
    SortedListing(list, members);
  }

  lemma OrderedListingHasTheSize(names: seq<string>, members: set<string>)
    requires ListsInOrder(names, members)
    ensures |names| == |members|
  {
    ListingHasTheSize(names, members);
  }

  /** The entries of a list, once each. */
  function Distinct<T(==)>(s: seq<T>): seq<T> {
    if s == [] then []
    else (if s[0] in s[1..] then [] else [s[0]]) + Distinct(s[1..])
  }

  lemma {:induction false} DistinctIs<T>(s: seq<T>)
    ensures forall x :: x in Distinct(s) <==> x in s
    ensures forall i, j :: 0 <= i < j < |Distinct(s)| ==> Distinct(s)[i] != Distinct(s)[j]
  {
    if s != [] {
      DistinctIs(s[1..]);
      var rest := Distinct(s[1..]);
      assert forall x :: x in s <==> x == s[0] || x in s[1..];
      assert forall i :: 0 <= i < |rest| ==> rest[i] in rest;
    }
  }

  /** `sorted({...})` over strings. */
  function SortedDistinct(s: seq<string>): seq<string> {
    Sort(Distinct(s), StringLe)
  }

  lemma SortedDistinctLists(s: seq<string>)
    ensures ListsInOrder(SortedDistinct(s), set x | x in s)
  {
    DistinctIs(s);
    SortedListing(Distinct(s), set x | x in s);
  }
}
