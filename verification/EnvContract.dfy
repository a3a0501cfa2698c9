/** Environment-contract fragments: their merge (`framework/contracts/env_contract.py`) and the
    fragment generated for the requirements of the active packages
    (`framework/generators/package_environment.py`). */
module EnvContract {
  import opened Options
  import Python = PythonValues
  import Sorting

  datatype Source =
    | UserSecret
    | GeneratedSecret
    | Allocation(service: Option<string>, resource: Option<string>)
    | Derived
    | Literal(value: Python.Value)
    | PlatformKey(serviceName: string, scopes: seq<string>, quota: map<string, nat>)
    | PlatformBaseUrl(serviceName: string, url: string)

  datatype Entry = Entry(
    source: Source,
    environments: seq<string>,
    consumers: seq<string>,
    required: bool,
    description: Option<string>,
    sensitive: bool)

  /** What the typed entries admit. */
  predicate ValidEntry(e: Entry) {
    && e.environments != []
    && match e.source
       case UserSecret => e.consumers != [] && e.description.Some? && e.description.value != "" && e.sensitive
       case GeneratedSecret => e.sensitive
       case Allocation(service, resource) => (service.Some? && service.value != "")
         || (resource.Some? && resource.value != "")
       case Derived => !e.sensitive
       case Literal(value) => !e.sensitive && (value.Text? || Python.IsNumber(value))
       case PlatformKey(_, _, _) => e.sensitive
       case PlatformBaseUrl(_, _) => !e.sensitive
  }

  type Entries = map<string, Entry>
  datatype Fragment = Fragment(owner: string, entries: Entries)

  // ------------------------------------------------------------------------- the merge

  /** `current != entry` is false: every field is equal, a literal's value as Python compares. */
  predicate SameEntry(a: Entry, b: Entry) {
    && a.(source := b.source) == b
    && if a.source.Literal? && b.source.Literal? then Python.Same(a.source.value, b.source.value)
       else a.source == b.source
  }

  lemma SameEntryIsReflexive(a: Entry)
    ensures SameEntry(a, a)
  {
    if a.source.Literal? {
      Python.SameIsReflexive(a.source.value);
    }
  }

  lemma SameEntryIsEuclidean(a: Entry, b: Entry, c: Entry)
    requires SameEntry(a, b) && SameEntry(a, c)
    ensures SameEntry(b, c)
  {
    if a.source.Literal? {
      Python.SameIsSymmetric(a.source.value, b.source.value);
      Python.SameIsTransitive(b.source.value, a.source.value, c.source.value);
    }
  }

  /** A fragment says that a variable is declared like this. */
  ghost predicate Declares(fragments: seq<Fragment>, name: string, entry: Entry) {
    exists i :: 0 <= i < |fragments| && name in fragments[i].entries && fragments[i].entries[name] == entry
  }

  /** The declarations of every variable are equal, as Python compares them. */
  ghost predicate Agree(fragments: seq<Fragment>) {
    forall name, a, b :: Declares(fragments, name, a) && Declares(fragments, name, b) ==> SameEntry(a, b)
  }

  /** Literal values declared for one variable have the same type when they are numbers, and
      the same sign when they are zero. */
  ghost predicate WrittenAlike(fragments: seq<Fragment>) {
    forall name, a, b ::
      Declares(fragments, name, a) && Declares(fragments, name, b) && a.source.Literal? && b.source.Literal? ==>
        Python.SameTypes(a.source.value, b.source.value)
  }

  /** Exactly what the fragments declare. */
  ghost predicate IsMerged(fragments: seq<Fragment>, merged: Entries) {
    forall name, entry :: Declares(fragments, name, entry) <==> name in merged && merged[name] == entry
  }

  /** What one fragment after the other leaves behind: the last declaration of each variable. */
  function LastWins(fragments: seq<Fragment>): Entries {
    if fragments == [] then map[]
    else LastWins(fragments[..|fragments| - 1]) + fragments[|fragments| - 1].entries
  }

  predicate OwnerOrder(a: Fragment, b: Fragment) {
    Sorting.StringLe(a.owner, b.owner)
  }

  /** What the merge of agreeing fragments comes to. */
  function MergeOf(fragments: seq<Fragment>): Entries {
    LastWins(Sorting.Sort(fragments, OwnerOrder))
  }

  datatype MergeResult = Merged(entries: Entries) | Incompatible(name: string)

  lemma DeclaresAppend(fragments: seq<Fragment>, f: Fragment, name: string, entry: Entry)
    ensures Declares(fragments + [f], name, entry)
            <==> Declares(fragments, name, entry) || (name in f.entries && f.entries[name] == entry)
  {
    var all := fragments + [f];
    if Declares(fragments, name, entry) {
      var i :| 0 <= i < |fragments| && name in fragments[i].entries && fragments[i].entries[name] == entry;
      assert all[i] == fragments[i];
    }
    if name in f.entries && f.entries[name] == entry {
      assert all[|fragments|] == f;
    }
  }

  lemma DeclaresMembers(a: seq<Fragment>, b: seq<Fragment>, name: string, entry: Entry)
    requires forall f :: f in a ==> f in b
    requires Declares(a, name, entry)
    ensures Declares(b, name, entry)
  {
    var i :| 0 <= i < |a| && name in a[i].entries && a[i].entries[name] == entry;
    assert a[i] in b;
    var j :| 0 <= j < |b| && b[j] == a[i];
  }

  lemma SortedDeclaresTheSame(fragments: seq<Fragment>, name: string, entry: Entry)
    ensures Declares(Sorting.Sort(fragments, OwnerOrder), name, entry) <==> Declares(fragments, name, entry)
  {
    var sorted := Sorting.Sort(fragments, OwnerOrder);
    forall f ensures f in sorted <==> f in fragments {
      Sorting.SortKeepsMembers(fragments, OwnerOrder, f);
    }
    if Declares(sorted, name, entry) {
      DeclaresMembers(sorted, fragments, name, entry);
    }
    if Declares(fragments, name, entry) {
      DeclaresMembers(fragments, sorted, name, entry);
    }
  }

  /** What is left behind was declared, and nothing that was declared is missing. */
  lemma {:induction false} LastWinsIsDeclared(fragments: seq<Fragment>, name: string)
    ensures name in LastWins(fragments) ==> Declares(fragments, name, LastWins(fragments)[name])
    ensures forall entry :: Declares(fragments, name, entry) ==> name in LastWins(fragments)
  {
    if fragments != [] {
      var front, last := fragments[..|fragments| - 1], fragments[|fragments| - 1];
      assert fragments == front + [last];
      LastWinsIsDeclared(front, name);
      forall entry ensures Declares(fragments, name, entry)
                           <==> Declares(front, name, entry) || (name in last.entries && last.entries[name] == entry)
      {
        DeclaresAppend(front, last, name, entry);
      }
    }
  }

  lemma MergedIsDeclared(fragments: seq<Fragment>, name: string)
    ensures name in MergeOf(fragments) ==> Declares(fragments, name, MergeOf(fragments)[name])
    ensures forall entry :: Declares(fragments, name, entry) ==> name in MergeOf(fragments)
  {
    var sorted := Sorting.Sort(fragments, OwnerOrder);
    LastWinsIsDeclared(sorted, name);
    forall entry ensures Declares(sorted, name, entry) <==> Declares(fragments, name, entry) {
      SortedDeclaresTheSame(fragments, name, entry);
    }
  }

  /** What is merged once the names in `done` have been taken over. */
  ghost predicate TakenOver(merged: Entries, f: Fragment, done: set<string>, result: Entries) {
    && done <= f.entries.Keys && result.Keys == merged.Keys + done
    && forall name :: name in result ==> result[name] == if name in done then f.entries[name] else merged[name]
  }

  lemma TakeOver(merged: Entries, f: Fragment, done: set<string>, result: Entries, name: string)
    requires TakenOver(merged, f, done, result) && name in f.entries && name !in done
    ensures name in result <==> name in merged
    ensures name in merged ==> result[name] == merged[name]
    ensures TakenOver(merged, f, done + {name}, result[name := f.entries[name]])
  {
  }

  lemma AllTakenOver(merged: Entries, f: Fragment, done: set<string>, result: Entries)
    requires TakenOver(merged, f, done, result) && f.entries.Keys <= done
    ensures result == merged + f.entries
  {
  }

  /** One fragment's entries put into what was merged so far, up to the first conflict. */
  method MergeFragment(merged: Entries, f: Fragment) returns (r: MergeResult)
    ensures r.Merged? ==>
              && (forall name :: name in merged && name in f.entries ==> SameEntry(merged[name], f.entries[name]))
              && r.entries == merged + f.entries
    ensures r.Incompatible? ==>
              r.name in merged && r.name in f.entries && !SameEntry(merged[r.name], f.entries[r.name])
  {
    hide SameEntry, TakenOver;
    var names := Sorting.ListOf(f.entries.Keys);
    var result := merged;
    ghost var done: set<string> := {};
    NothingTakenOver(merged, f);
    for i := 0 to |names|
      invariant forall name :: name in done <==> name in names[..i]
      invariant TakenOver(merged, f, done, result)
      invariant forall name :: name in merged && name in f.entries && name in done ==>
                  SameEntry(merged[name], f.entries[name])
    {
      var name := names[i];
      assert names[..i + 1] == names[..i] + [name];
      TakeOver(merged, f, done, result, name);
      if name in result && !SameEntry(result[name], f.entries[name]) {
        return Incompatible(name);
      }
      result := result[name := f.entries[name]];
      done := done + {name};
    }
    assert names[..|names|] == names;
    AllTakenOver(merged, f, done, result);
    return Merged(result);
  }

  lemma NothingTakenOver(merged: Entries, f: Fragment)
    ensures TakenOver(merged, f, {}, merged)
  {
  }

  lemma AgreeStep(fragments: seq<Fragment>, f: Fragment)
    requires Agree(fragments)
    requires forall name :: name in LastWins(fragments) && name in f.entries ==>
               SameEntry(LastWins(fragments)[name], f.entries[name])
    ensures Agree(fragments + [f])
  {
    hide SameEntry;
    forall name, a, b | Declares(fragments + [f], name, a) && Declares(fragments + [f], name, b)
      ensures SameEntry(a, b)
    {
      DeclaresAppend(fragments, f, name, a);
      DeclaresAppend(fragments, f, name, b);
      SameEntryIsReflexive(a);
      LastWinsIsDeclared(fragments, name);
      if name in LastWins(fragments) {
        SameEntryIsEuclidean(LastWins(fragments)[name], a, b);
      }
    }
  }

  /** An entry that differs from what is merged so far is a real conflict. */
  lemma ConflictIsReal(fragments: seq<Fragment>, i: nat, name: string)
    requires var sorted := Sorting.Sort(fragments, OwnerOrder);
             && i < |sorted| && name in LastWins(sorted[..i]) && name in sorted[i].entries
             && !SameEntry(LastWins(sorted[..i])[name], sorted[i].entries[name])
    ensures exists a, b :: Declares(fragments, name, a) && Declares(fragments, name, b) && !SameEntry(a, b)
    ensures !Agree(fragments)
  {
    hide SameEntry;
    var sorted := Sorting.Sort(fragments, OwnerOrder);
    var a, b := LastWins(sorted[..i])[name], sorted[i].entries[name];
    LastWinsIsDeclared(sorted[..i], name);
    DeclaresMembers(sorted[..i], sorted, name, a);
    assert Declares(sorted, name, b);
    SortedDeclaresTheSame(fragments, name, a);
    SortedDeclaresTheSame(fragments, name, b);
  }

  /** `merge_env_contract_fragments`: it succeeds exactly when the declarations of every
      variable are equal, keeps of each the one of the last owner, and names a real conflict
      otherwise. */
  method MergeFragments(fragments: seq<Fragment>) returns (r: MergeResult)
    ensures r.Merged? <==> Agree(fragments)
    ensures r.Merged? ==> r.entries == MergeOf(fragments)
    ensures r.Incompatible? ==>
              exists a, b :: Declares(fragments, r.name, a) && Declares(fragments, r.name, b) && !SameEntry(a, b)
  {
    hide SameEntry, Agree, Declares, Sorting.Sort;
    var sorted := Sorting.Sort(fragments, OwnerOrder);
    var merged: Entries := map[];
    NothingDisagrees();
    for i := 0 to |sorted|
      invariant merged == LastWins(sorted[..i])
      invariant Agree(sorted[..i])
    {
      var step := MergeFragment(merged, sorted[i]);
      if step.Incompatible? {
        ConflictIsReal(fragments, i, step.name);
        return step;
      }
      AgreeStep(sorted[..i], sorted[i]);
      assert sorted[..i + 1] == sorted[..i] + [sorted[i]];
      merged := step.entries;
    }
    assert sorted[..|sorted|] == sorted;
    SortedAgrees(fragments);
    return Merged(merged);
  }

  lemma SortedAgrees(fragments: seq<Fragment>)
    ensures Agree(Sorting.Sort(fragments, OwnerOrder)) <==> Agree(fragments)
  {
    hide SameEntry, Agree, Declares, Sorting.Sort;
    AgreementIgnoresArrangement(Sorting.Sort(fragments, OwnerOrder), fragments) by {
      forall name, entry
        ensures Declares(Sorting.Sort(fragments, OwnerOrder), name, entry) <==> Declares(fragments, name, entry)
      {
        SortedDeclaresTheSame(fragments, name, entry);
      }
    }
  }

  lemma NothingDisagrees()
    ensures Agree([])
  {
  }

  // -------------------------------------------------------- what order and owners decide

  /** The same declarations, in whatever order, repetition and ownership. */
  ghost predicate DeclareTheSame(a: seq<Fragment>, b: seq<Fragment>) {
    forall name, entry :: Declares(a, name, entry) <==> Declares(b, name, entry)
  }

  /** The same fragments in the same order, under other owners. */
  ghost predicate Reowned(a: seq<Fragment>, b: seq<Fragment>) {
    |a| == |b| && forall i :: 0 <= i < |a| ==> a[i].entries == b[i].entries
  }

  /** Whether the merge succeeds depends on what is declared alone; if it does, so does the
      result, as Python compares entries. */
  lemma AgreementIgnoresArrangement(a: seq<Fragment>, b: seq<Fragment>)
    requires DeclareTheSame(a, b)
    ensures Agree(a) <==> Agree(b)
    ensures MergeOf(a).Keys == MergeOf(b).Keys
    ensures Agree(a) ==> forall name :: name in MergeOf(a) ==> SameEntry(MergeOf(a)[name], MergeOf(b)[name])
  {
    hide SameEntry, MergeOf;
    forall name ensures name in MergeOf(a) <==> name in MergeOf(b) {
      MergedIsDeclared(a, name);
      MergedIsDeclared(b, name);
    }
    if Agree(a) {
      forall name | name in MergeOf(a) ensures SameEntry(MergeOf(a)[name], MergeOf(b)[name]) {
        MergedIsDeclared(a, name);
        MergedIsDeclared(b, name);
      }
    }
  }

  lemma SameDeclarations(a: seq<Fragment>, b: seq<Fragment>, name: string)
    requires DeclareTheSame(a, b)
    ensures forall entry :: Declares(a, name, entry) <==> Declares(b, name, entry)
  {
  }

  lemma ReownedDeclareTheSame(a: seq<Fragment>, b: seq<Fragment>)
    requires Reowned(a, b)
    ensures DeclareTheSame(a, b)
  {
    forall name, entry ensures Declares(a, name, entry) <==> Declares(b, name, entry) {
      if i :| 0 <= i < |a| && name in a[i].entries && a[i].entries[name] == entry {
        assert b[i].entries[name] == entry;
      }
      if i :| 0 <= i < |b| && name in b[i].entries && b[i].entries[name] == entry {
        assert a[i].entries[name] == entry;
      }
    }
  }

  /** Declarations that are equal and written alike are one declaration. */
  lemma AlikeIsIdentical(fragments: seq<Fragment>, name: string, a: Entry, b: Entry)
    requires Agree(fragments) && WrittenAlike(fragments)
    requires Declares(fragments, name, a) && Declares(fragments, name, b)
    ensures a == b
  {
    assert SameEntry(a, b);
    if a.source.Literal? {
      Python.EqualIsIdentical(a.source.value, b.source.value);
    }
  }

  /** Two declarations that keep the fragments from being written alike. */
  lemma UnlikeDeclarations(fragments: seq<Fragment>) returns (name: string, a: Entry, b: Entry)
    requires Agree(fragments) && !WrittenAlike(fragments)
    ensures Declares(fragments, name, a) && Declares(fragments, name, b) && a != b
  {
    name, a, b :| Declares(fragments, name, a) && Declares(fragments, name, b) && a.source.Literal? && b.source.Literal?
                  && !Python.SameTypes(a.source.value, b.source.value);
    assert SameEntry(a, b);
    Python.EqualIsIdentical(a.source.value, b.source.value);
  }

  /** A successful merge is exactly what is declared if and only if the literals of every
      variable are written alike. */
  lemma MergeIsExactlyWhatIsDeclared(fragments: seq<Fragment>)
    requires Agree(fragments)
    ensures WrittenAlike(fragments) <==> IsMerged(fragments, MergeOf(fragments))
  {
    hide Agree, WrittenAlike, Declares, MergeOf;
    var merged := MergeOf(fragments);
    if WrittenAlike(fragments) {
      forall name, entry ensures Declares(fragments, name, entry) <==> name in merged && merged[name] == entry {
        MergedIsDeclared(fragments, name);
        if Declares(fragments, name, entry) {
          AlikeIsIdentical(fragments, name, merged[name], entry);
        }
      }
    } else if IsMerged(fragments, merged) {
      var name, a, b := UnlikeDeclarations(fragments);
      assert false;
    }
  }

  /** An owner after all others. */
  function LastOwner(fragments: seq<Fragment>): string {
    if fragments == [] then "x"
    else
      var owner := LastOwner(fragments[..|fragments| - 1]);
      var last := fragments[|fragments| - 1].owner;
      if Sorting.StringLe(last, owner) then owner else last + "x"
  }

  lemma {:induction false} ExtensionIsLater(s: string)
    ensures Sorting.StringLe(s, s + "x") && !Sorting.StringLe(s + "x", s)
  {
    if s != "" {
      assert (s + "x")[1..] == s[1..] + "x";
      ExtensionIsLater(s[1..]);
    }
  }

  lemma {:induction false} LastOwnerIsLast(fragments: seq<Fragment>, i: nat)
    requires i < |fragments|
    ensures Sorting.StringLe(fragments[i].owner, LastOwner(fragments))
  {
    var n := |fragments| - 1;
    var front, last := fragments[..n], fragments[n].owner;
    Sorting.StringLeTotal(last, LastOwner(front));
    ExtensionIsLater(last);
    if i < n {
      LastOwnerIsLast(front, i);
      if !Sorting.StringLe(last, LastOwner(front)) {
        Sorting.StringLeTransitive(fragments[i].owner, LastOwner(front), last);
        Sorting.StringLeTransitive(fragments[i].owner, last, last + "x");
      }
    }
  }

  /** The i-th fragment, under an owner after all others. */
  function MadeLast(fragments: seq<Fragment>, i: nat): seq<Fragment>
    requires i < |fragments|
  {
    fragments[i := Fragment(LastOwner(fragments) + "x", fragments[i].entries)]
  }

  /** The fragment with the greatest owner comes last. */
  lemma GreatestIsLast(all: seq<Fragment>, i: nat)
    requires i < |all| && forall j :: 0 <= j < |all| && j != i ==> !OwnerOrder(all[i], all[j])
    ensures var sorted := Sorting.Sort(all, OwnerOrder); sorted[|sorted| - 1] == all[i]
  {
    hide OwnerOrder;
    var sorted := Sorting.Sort(all, OwnerOrder);
    var last := sorted[|sorted| - 1];
    OwnerOrderIsTotalPreorder();
    Sorting.SortIsSorted(all, OwnerOrder);
    Sorting.SortKeepsMembers(all, OwnerOrder, all[i]);
    Sorting.SortKeepsMembers(all, OwnerOrder, last);
    var j :| 0 <= j < |all| && all[j] == last;
    var k :| 0 <= k < |sorted| && sorted[k] == all[i];
    if k < |sorted| - 1 {
      assert OwnerOrder(all[i], last);
    }
  }

  lemma MadeLastIsLast(fragments: seq<Fragment>, i: nat, name: string)
    requires i < |fragments| && name in fragments[i].entries
    ensures Reowned(fragments, MadeLast(fragments, i))
    ensures var merged := MergeOf(MadeLast(fragments, i));
            name in merged && merged[name] == fragments[i].entries[name]
  {
    var all := MadeLast(fragments, i);
    forall j | 0 <= j < |all| && j != i ensures !OwnerOrder(all[i], all[j]) {
      LastOwnerIsLast(fragments, j);
      ExtensionIsLater(LastOwner(fragments));
      if OwnerOrder(all[i], all[j]) {
        Sorting.StringLeTransitive(LastOwner(fragments) + "x", all[j].owner, LastOwner(fragments));
      }
    }
    GreatestIsLast(all, i);
    var sorted := Sorting.Sort(all, OwnerOrder);
    assert LastWins(sorted) == LastWins(sorted[..|sorted| - 1]) + all[i].entries;
  }

  lemma OwnerOrderIsTotalPreorder()
    ensures Sorting.IsTotalPreorder(OwnerOrder)
  {
    Sorting.StringLeIsTotalPreorder();
  }

  /** Neither the order, the repetition nor the ownership of declarations has a say in a
      successful merge if and only if the literals of every variable are written alike: then
      any other arrangement gives the same entries, and else new owners already change them. */
  lemma ArrangementDoesNotMatter(fragments: seq<Fragment>)
    requires Agree(fragments)
    ensures WrittenAlike(fragments) <==>
              forall other :: DeclareTheSame(fragments, other) ==> MergeOf(other) == MergeOf(fragments)
    ensures WrittenAlike(fragments) <==>
              forall other :: Reowned(fragments, other) ==> MergeOf(other) == MergeOf(fragments)
  {
    hide Agree, WrittenAlike, MergeOf, MadeLast, DeclareTheSame;
    forall other | Reowned(fragments, other) ensures DeclareTheSame(fragments, other) {
      ReownedDeclareTheSame(fragments, other);
    }
    if WrittenAlike(fragments) {
      forall other | DeclareTheSame(fragments, other) ensures MergeOf(other) == MergeOf(fragments) {
        forall name ensures name in MergeOf(other) <==> name in MergeOf(fragments)
                    ensures name in MergeOf(other) ==> MergeOf(other)[name] == MergeOf(fragments)[name]
        {
          MergedIsDeclared(other, name);
          MergedIsDeclared(fragments, name);
          SameDeclarations(fragments, other, name);
          if name in MergeOf(other) {
            AlikeIsIdentical(fragments, name, MergeOf(other)[name], MergeOf(fragments)[name]);
          }
        }
      }
    } else {
      var name, a, b := UnlikeDeclarations(fragments);
      var i :| 0 <= i < |fragments| && name in fragments[i].entries && fragments[i].entries[name] == a;
      var j :| 0 <= j < |fragments| && name in fragments[j].entries && fragments[j].entries[name] == b;
      MadeLastIsLast(fragments, i, name);
      MadeLastIsLast(fragments, j, name);
    }
  }

  /** `{source: literal, value: 1}` of owner `a` and the same with `true` of owner `b` merge to
      `true`; with the owners exchanged they merge to `1`. */
  lemma OwnersDecideTheSpelling(entry: Entry)
    requires ValidEntry(entry) && entry.source.Literal?
    ensures var one := entry.(source := Literal(Python.Integer(1)));
            var yes := entry.(source := Literal(Python.Boolean(true)));
            var fragments := [Fragment("a", map["X" := one]), Fragment("b", map["X" := yes])];
            var exchanged := [Fragment("b", map["X" := one]), Fragment("a", map["X" := yes])];
            && ValidEntry(one) && ValidEntry(yes) && one != yes
            && Agree(fragments) && Agree(exchanged)
            && MergeOf(fragments) == map["X" := yes] && MergeOf(exchanged) == map["X" := one]
  {
    var one := entry.(source := Literal(Python.Integer(1)));
    var yes := entry.(source := Literal(Python.Boolean(true)));
    TwoFragments("a", map["X" := one], "b", map["X" := yes]);
    TwoFragments("b", map["X" := one], "a", map["X" := yes]);
    hide MergeOf, Sorting.Sort;
    assert map["X" := one] + map["X" := yes] == map["X" := yes];
    assert map["X" := yes] + map["X" := one] == map["X" := one];
  }

  lemma TwoFragments(a: string, x: Entries, b: string, y: Entries)
    ensures MergeOf([Fragment(a, x), Fragment(b, y)]) == if Sorting.StringLe(a, b) then x + y else y + x
  {
    hide Sorting.Sort, LastWins;
    var f, g := Fragment(a, x), Fragment(b, y);
    SortOfTwo(f, g);
    LastWinsOfTwo(f, g);
    LastWinsOfTwo(g, f);
  }

  lemma SortOfTwo(f: Fragment, g: Fragment)
    ensures Sorting.Sort([f, g], OwnerOrder) == if OwnerOrder(f, g) then [f, g] else [g, f]
  {
    hide OwnerOrder;
    assert [f, g][1..] == [g] && [g][1..] == [];
    assert Sorting.Sort([g], OwnerOrder) == [g];
    assert Sorting.Sort([f, g], OwnerOrder) == Sorting.Insert(f, [g], OwnerOrder);
  }

  lemma LastWinsOfTwo(f: Fragment, g: Fragment)
    ensures LastWins([f, g]) == f.entries + g.entries
  {
    assert [f, g][..1] == [f];
    LastWinsOfOne(f);
  }

  // ------------------------------------------------------------------ the requirements

  datatype PlatformSource =
    | KeySource(service: string, scopes: seq<string>, quota: map<string, nat>)
    | BaseUrlSource(service: string, url: string)

  datatype Requirement = Requirement(name: string, required: bool, source: Option<PlatformSource>)
  datatype Package = Package(name: string, environment: seq<Requirement>)

  /** One requirement, by one package. */
  datatype Request = Request(package: string, requirement: Requirement)

  /** What the packages together need of a variable. */
  datatype Need = Need(required: bool, owners: set<string>, source: Option<PlatformSource>)
  type Needs = map<string, Need>

  function RequestsOf(p: Package, n: nat): seq<Request>
    requires n <= |p.environment|
  {
    seq(n, i requires 0 <= i < n => Request(p.name, p.environment[i]))
  }

  function Requests(packages: seq<Package>): seq<Request> {
    if packages == [] then []
    else
      var last := packages[|packages| - 1];
      Requests(packages[..|packages| - 1]) + RequestsOf(last, |last.environment|)
  }

  ghost predicate Asks(requests: seq<Request>, package: string, r: Requirement) {
    exists i :: 0 <= i < |requests| && requests[i] == Request(package, r)
  }

  /** No variable is required with two different platform sources. */
  ghost predicate SourcesAgree(requests: seq<Request>) {
    forall p, q, r, s ::
      (Asks(requests, p, r) && Asks(requests, q, s) && r.name == s.name && r.source.Some? && s.source.Some?) ==>
        r.source == s.source
  }

  /** What several requests for one variable come to. */
  ghost predicate IsNeed(requests: seq<Request>, name: string, need: Need) {
    && (need.required <==> exists p, r :: Asks(requests, p, r) && r.name == name && r.required)
    && (forall p :: p in need.owners <==> exists r :: Asks(requests, p, r) && r.name == name)
    && (forall p, r :: Asks(requests, p, r) && r.name == name && r.source.Some? ==> need.source == r.source)
    && (need.source.Some? ==> exists p, r :: Asks(requests, p, r) && r.name == name && r.source == need.source)
  }

  ghost predicate Summarises(requests: seq<Request>, needs: Needs) {
    && (forall name :: name in needs <==> exists p, r :: Asks(requests, p, r) && r.name == name)
    && forall name :: name in needs ==> IsNeed(requests, name, needs[name])
  }

  const NoNeed: Need := Need(false, {}, None)

  function NeedFor(needs: Needs, name: string): Need {
    if name in needs then needs[name] else NoNeed
  }

  predicate Clashes(need: Need, r: Requirement) {
    need.source.Some? && r.source.Some? && need.source != r.source
  }

  function Widened(need: Need, q: Request): Need {
    Need(need.required || q.requirement.required, need.owners + {q.package},
         if need.source.Some? then need.source else q.requirement.source)
  }

  lemma AsksAppend(requests: seq<Request>, q: Request, p: string, r: Requirement)
    ensures Asks(requests + [q], p, r) <==> Asks(requests, p, r) || q == Request(p, r)
  {
    var all := requests + [q];
    if Asks(requests, p, r) {
      var i :| 0 <= i < |requests| && requests[i] == Request(p, r);
      assert all[i] == requests[i];
    }
    if q == Request(p, r) {
      assert all[|requests|] == q;
    }
  }

  /** A variable nobody asked for. */
  lemma NoNeedYet(requests: seq<Request>, needs: Needs, name: string)
    requires Summarises(requests, needs)
    ensures IsNeed(requests, name, NeedFor(needs, name))
  {
  }

  lemma WidenedIsNeed(requests: seq<Request>, need: Need, q: Request)
    requires IsNeed(requests, q.requirement.name, need) && !Clashes(need, q.requirement)
    ensures IsNeed(requests + [q], q.requirement.name, Widened(need, q))
  {
    forall p, r ensures Asks(requests + [q], p, r) <==> Asks(requests, p, r) || q == Request(p, r) {
      AsksAppend(requests, q, p, r);
    }
    assert Asks(requests + [q], q.package, q.requirement);
  }

  lemma OtherNeedsStay(requests: seq<Request>, name: string, need: Need, q: Request)
    requires IsNeed(requests, name, need) && q.requirement.name != name
    ensures IsNeed(requests + [q], name, need)
  {
    forall p, r ensures Asks(requests + [q], p, r) <==> Asks(requests, p, r) || q == Request(p, r) {
      AsksAppend(requests, q, p, r);
    }
  }

  lemma SummaryStep(requests: seq<Request>, needs: Needs, q: Request)
    requires Summarises(requests, needs)
    requires !Clashes(NeedFor(needs, q.requirement.name), q.requirement)
    ensures Summarises(requests + [q], needs[q.requirement.name := Widened(NeedFor(needs, q.requirement.name), q)])
  {
    var name := q.requirement.name;
    var next := needs[name := Widened(NeedFor(needs, name), q)];
    NoNeedYet(requests, needs, name);
    WidenedIsNeed(requests, NeedFor(needs, name), q);
    forall other | other in next ensures IsNeed(requests + [q], other, next[other]) {
      if other != name {
        OtherNeedsStay(requests, other, needs[other], q);
      }
    }
    forall other ensures other in next <==> exists p, r :: Asks(requests + [q], p, r) && r.name == other {
      SameNames(requests, q, other);
    }
  }

  lemma SameNames(requests: seq<Request>, q: Request, name: string)
    ensures (exists p, r :: Asks(requests + [q], p, r) && r.name == name)
            <==> name == q.requirement.name || exists p, r :: Asks(requests, p, r) && r.name == name
  {
    forall p, r ensures Asks(requests + [q], p, r) <==> Asks(requests, p, r) || q == Request(p, r) {
      AsksAppend(requests, q, p, r);
    }
    assert Asks(requests + [q], q.package, q.requirement);
  }

  lemma ClashIsReal(requests: seq<Request>, i: nat, needs: Needs)
    requires i < |requests| && Summarises(requests[..i], needs)
    requires Clashes(NeedFor(needs, requests[i].requirement.name), requests[i].requirement)
    ensures !SourcesAgree(requests)
  {
    var q := requests[i];
    var need := needs[q.requirement.name];
    assert IsNeed(requests[..i], q.requirement.name, need);
    var p, r :| Asks(requests[..i], p, r) && r.name == q.requirement.name && r.source == need.source;
    var j :| 0 <= j < i && requests[..i][j] == Request(p, r);
    assert requests[j] == Request(p, r);
    assert Asks(requests, p, r) && Asks(requests, q.package, q.requirement);
  }

  lemma SummaryMeansAgreement(requests: seq<Request>, needs: Needs)
    requires Summarises(requests, needs)
    ensures SourcesAgree(requests)
  {
    forall p, q, r, s | Asks(requests, p, r) && Asks(requests, q, s) && r.name == s.name && r.source.Some?
        && s.source.Some?
      ensures r.source == s.source
    {
      assert r.name in needs && IsNeed(requests, r.name, needs[r.name]);
    }
  }

  datatype NeedsResult = Needed(needs: Needs) | ConflictingSources(name: string)

  lemma NothingAsked()
    ensures Summarises([], map[])
  {
  }

  /** `_requirements` over the requests of the packages in turn. */
  method Requirements(packages: seq<Package>) returns (r: NeedsResult)
    ensures r.Needed? <==> SourcesAgree(Requests(packages))
    ensures r.Needed? ==> Summarises(Requests(packages), r.needs)
  {
    hide Summarises, Clashes, Widened, SourcesAgree;
    var needs: Needs := map[];
    NothingAsked();
    for i := 0 to |packages|
      invariant Summarises(Requests(packages[..i]), needs)
    {
      var p := packages[i];
      ghost var before := Requests(packages[..i]);
      assert before + RequestsOf(p, 0) == before;
      for j := 0 to |p.environment|
        invariant Summarises(before + RequestsOf(p, j), needs)
      {
        var q := Request(p.name, p.environment[j]);
        var need := NeedFor(needs, q.requirement.name);
        if Clashes(need, q.requirement) {
          RequestAt(packages, i, j);
          ClashIsReal(Requests(packages), |before| + j, needs);
          return ConflictingSources(q.requirement.name);
        }
        SummaryStep(before + RequestsOf(p, j), needs, q);
        assert before + RequestsOf(p, j + 1) == (before + RequestsOf(p, j)) + [q];
        needs := needs[q.requirement.name := Widened(need, q)];
      }
      assert packages[..i + 1][..i] == packages[..i];
    }
    assert packages[..|packages|] == packages;
    SummaryMeansAgreement(Requests(packages), needs);
    return Needed(needs);
  }

  /** The requests up to the j-th of the i-th package are a prefix of all requests. */
  lemma {:induction false} RequestAt(packages: seq<Package>, i: nat, j: nat)
    requires i < |packages| && j < |packages[i].environment|
    ensures var k := |Requests(packages[..i])| + j;
            && k < |Requests(packages)|
            && Requests(packages)[..k] == Requests(packages[..i]) + RequestsOf(packages[i], j)
            && Requests(packages)[k] == Request(packages[i].name, packages[i].environment[j])
    decreases |packages|
  {
    var front := packages[..|packages| - 1];
    if i == |packages| - 1 {
      var all := Requests(packages);
      assert all == Requests(front) + RequestsOf(packages[i], |packages[i].environment|);
    } else {
      assert front[..i] == packages[..i];
      RequestAt(front, i, j);
    }
  }

  /** The needs are a property of the set of requests: the order of the packages, and of the
      requirements within one, does not matter. */
  lemma NeedsIgnoreOrder(a: seq<Request>, b: seq<Request>, m: Needs, n: Needs)
    requires forall p, r :: Asks(a, p, r) <==> Asks(b, p, r)
    ensures SourcesAgree(a) <==> SourcesAgree(b)
    ensures Summarises(a, m) && Summarises(b, n) ==> m == n
  {
    if Summarises(a, m) && Summarises(b, n) {
      forall name ensures name in m <==> name in n
                  ensures name in m && name in n ==> m[name] == n[name]
      {
        hide IsNeed;
        if name in m && name in n {
          NeedIsUnique(a, b, name, m[name], n[name]);
        }
      }
    }
  }

  lemma NeedIsUnique(a: seq<Request>, b: seq<Request>, name: string, m: Need, n: Need)
    requires forall p, r :: Asks(a, p, r) <==> Asks(b, p, r)
    requires IsNeed(a, name, m) && IsNeed(b, name, n)
    ensures m == n
  {
    assert m.owners == n.owners;
  }

  // ------------------------------------------------------------------ the generated fragment

  const Local: string := "local"
  const Production: string := "production"
  const Backend: string := "backend"

  function FromPlatform(s: PlatformSource): Source {
    match s
    case KeySource(service, scopes, quota) => PlatformKey(service, scopes, quota)
    case BaseUrlSource(service, url) => PlatformBaseUrl(service, url)
  }

  /** The entry meets the need: both environments, the backend, no weaker obligation, and the
      platform source that is asked for. */
  predicate Meets(e: Entry, need: Need) {
    && Local in e.environments && Production in e.environments
    && Backend in e.consumers
    && (need.required ==> e.required)
    && (need.source.Some? ==> e.source == FromPlatform(need.source.value))
  }

  function Joined(names: seq<string>): string {
    if names == [] then ""
    else if |names| == 1 then names[0]
    else Joined(names[..|names| - 1]) + ", " + names[|names| - 1]
  }

  function Description(names: seq<string>): string {
    (if |names| == 1 then "Environment value required by package " else "Environment value required by packages ")
      + Joined(names)
  }

  function FreshEntry(need: Need, names: seq<string>): Entry {
    Entry(if need.source.None? then UserSecret else FromPlatform(need.source.value),
          [Local, Production], [Backend], need.required, Some(Description(names)),
          need.source.None? || need.source.value.KeySource?)
  }

  /** What is generated for the needs beside a product contract: the product's own entry where
      there is one, and it meets the need; else a fresh one. */
  ghost predicate IsGenerated(needs: Needs, contract: Entries, entries: Entries) {
    && (forall name :: name in entries <==> name in needs)
    && forall name :: name in entries ==>
         if name in contract then entries[name] == contract[name] && Meets(contract[name], needs[name])
         else exists names ::
                Sorting.ListsInOrder(names, needs[name].owners) && entries[name] == FreshEntry(needs[name], names)
  }

  ghost predicate Reusable(needs: Needs, contract: Entries) {
    forall name :: name in needs && name in contract ==> Meets(contract[name], needs[name])
  }

  /** The generated fragment is determined by the needs and the product contract. */
  lemma GeneratedIsUnique(needs: Needs, contract: Entries, a: Entries, b: Entries)
    requires IsGenerated(needs, contract, a) && IsGenerated(needs, contract, b)
    ensures a == b
  {
    forall name | name in needs ensures a[name] == b[name] {
      hide Sorting.ListsInOrder, FreshEntry, Meets;
      if name !in contract {
        var x :| Sorting.ListsInOrder(x, needs[name].owners) && a[name] == FreshEntry(needs[name], x);
        var y :| Sorting.ListsInOrder(y, needs[name].owners) && b[name] == FreshEntry(needs[name], y);
        Sorting.ListingIsUnique(x, y, needs[name].owners);
      }
    }
  }

  /** Every generated entry meets its need, and is valid when the product's own are. */
  lemma GeneratedMeetsNeeds(needs: Needs, contract: Entries, entries: Entries)
    requires IsGenerated(needs, contract, entries)
    requires forall name :: name in contract ==> ValidEntry(contract[name])
    ensures forall name :: name in needs ==> Meets(entries[name], needs[name]) && ValidEntry(entries[name])
  {
    forall name | name in needs ensures Meets(entries[name], needs[name]) && ValidEntry(entries[name]) {
      if name !in contract {
        var owners :|
          Sorting.ListsInOrder(owners, needs[name].owners) && entries[name] == FreshEntry(needs[name], owners);
        FreshMeetsNeed(needs[name], owners);
      }
    }
  }

  lemma FreshMeetsNeed(need: Need, owners: seq<string>)
    ensures Meets(FreshEntry(need, owners), need) && ValidEntry(FreshEntry(need, owners))
  {
    var e := FreshEntry(need, owners);
    assert e.environments[0] == Local && e.environments[1] == Production && e.consumers[0] == Backend;
    assert e.description.value[0] == 'E';
  }

  lemma {:induction false} LastWinsConcat(a: seq<Fragment>, b: seq<Fragment>)
    ensures LastWins(a + b) == LastWins(a) + LastWins(b)
  {
    if b == [] {
      assert a + b == a;
    } else {
      var n := |b| - 1;
      assert (a + b)[..|a + b| - 1] == a + b[..n];
      LastWinsConcat(a, b[..n]);
      AddingIsAssociative(LastWins(a), LastWins(b[..n]), b[n].entries);
    }
  }

  lemma AddingIsAssociative(a: Entries, b: Entries, c: Entries)
    ensures (a + b) + c == a + (b + c)
  {
  }

  /** A fragment that repeats what it shares with the outcome only adds the rest, wherever its
      owner puts it. */
  lemma RepeatingFragmentAdds(fragments: seq<Fragment>, g: Fragment)
    requires forall name :: name in g.entries && name in MergeOf(fragments) ==>
             g.entries[name] == MergeOf(fragments)[name]
    ensures MergeOf(fragments + [g]) == MergeOf(fragments) + g.entries
  {
    hide Sorting.Sort, Sorting.IsTotalPreorder;
    var sorted := Sorting.Sort(fragments, OwnerOrder);
    OwnerOrderIsTotalPreorder();
    var k := Sorting.SortOneMore(fragments, g, OwnerOrder);
    assert sorted == sorted[..k] + sorted[k..];
    LastWinsWithin(sorted[..k], g, sorted[k..]);
  }

  lemma LastWinsWithin(before: seq<Fragment>, g: Fragment, after: seq<Fragment>)
    requires var merged := LastWins(before + after);
             forall name :: name in g.entries && name in merged ==> g.entries[name] == merged[name]
    ensures LastWins(before + [g] + after) == LastWins(before + after) + g.entries
  {
    hide LastWins;
    LastWinsConcat(before + [g], after);
    LastWinsConcat(before, [g]);
    LastWinsConcat(before, after);
    LastWinsOfOne(g);
    RepetitionMoves(LastWins(before), g.entries, LastWins(after));
  }

  lemma LastWinsOfOne(g: Fragment)
    ensures LastWins([g]) == g.entries
  {
    assert [g][..0] == [] && LastWins([]) + g.entries == g.entries;
  }

  lemma RepetitionMoves(before: Entries, repeated: Entries, after: Entries)
    requires forall name :: name in repeated && name in before + after ==> repeated[name] == (before + after)[name]
    ensures before + repeated + after == before + after + repeated
  {
  }

  /** The generated fragment merges back with the product's without conflict, whatever its
      owner is called: the contract then has the product's variables and the missing
      requirements, and nothing else, and no product entry has changed. */
  lemma GeneratedMergesBack(fragments: seq<Fragment>, needs: Needs, entries: Entries, owner: string)
    requires Agree(fragments) && IsGenerated(needs, MergeOf(fragments), entries)
    ensures var all, contract := fragments + [Fragment(owner, entries)], MergeOf(fragments);
            && Agree(all)
            && MergeOf(all) == contract + entries
            && MergeOf(all).Keys == contract.Keys + needs.Keys
            && forall name :: name in contract ==> MergeOf(all)[name] == contract[name]
  {
    hide SameEntry, MergeOf, Agree;
    RepeatingFragmentAdds(fragments, Fragment(owner, entries));
    assert entries.Keys == needs.Keys;
    GeneratedAgrees(fragments, entries, owner);
  }

  lemma GeneratedAgrees(fragments: seq<Fragment>, entries: Entries, owner: string)
    requires Agree(fragments)
    requires forall name :: name in entries && name in MergeOf(fragments) ==> entries[name] == MergeOf(fragments)[name]
    ensures Agree(fragments + [Fragment(owner, entries)])
  {
    hide SameEntry, MergeOf;
    var g := Fragment(owner, entries);
    forall name, a, b | Declares(fragments + [g], name, a) && Declares(fragments + [g], name, b)
      ensures SameEntry(a, b)
    {
      DeclaresAppend(fragments, g, name, a);
      DeclaresAppend(fragments, g, name, b);
      MergedIsDeclared(fragments, name);
      SameEntryIsReflexive(a);
    }
  }

  /** Generating again is a fixed point, also when the generated entries have become product
      declarations: nothing is refused, and the same entries are the only outcome. */
  lemma RegeneratingIsAFixedPoint(needs: Needs, contract: Entries, entries: Entries)
    requires IsGenerated(needs, contract, entries)
    ensures Reusable(needs, contract + entries)
    ensures forall again :: IsGenerated(needs, contract + entries, again) <==> again == entries
  {
    assert Reusable(needs, contract + entries) && IsGenerated(needs, contract + entries, entries) by {
      GeneratedIsReusable(needs, contract, entries);
    }
    hide IsGenerated;
    forall again | IsGenerated(needs, contract + entries, again) ensures again == entries {
      GeneratedIsUnique(needs, contract + entries, again, entries);
    }
  }

  lemma GeneratedIsReusable(needs: Needs, contract: Entries, entries: Entries)
    requires IsGenerated(needs, contract, entries)
    ensures forall name :: name in needs ==> Meets(entries[name], needs[name])
    ensures Reusable(needs, contract + entries) && IsGenerated(needs, contract + entries, entries)
  {
    forall name | name in needs ensures Meets(entries[name], needs[name]) {
      if name !in contract {
        var owners :|
          Sorting.ListsInOrder(owners, needs[name].owners) && entries[name] == FreshEntry(needs[name], owners);
        FreshMeetsNeed(needs[name], owners);
      }
    }
  }

  datatype GenerateResult =
    | NothingToGenerate
    | Generated(entries: Entries)
    | ProductConflict(name: string)
    | SourceConflict(name: string)
    | CannotReuse(name: string)

  /** The loop over the sorted requirements. */
  method EntriesFor(needs: Needs, contract: Entries) returns (r: GenerateResult)
    ensures r.Generated? || r.CannotReuse?
    ensures r.Generated? <==> Reusable(needs, contract)
    ensures r.Generated? ==> IsGenerated(needs, contract, r.entries)
    ensures r.CannotReuse? ==> r.name in needs && r.name in contract && !Meets(contract[r.name], needs[r.name])
  {
    var names := Sorting.ListInOrder(needs.Keys);
    var entries: Entries := map[];
    for i := 0 to |names|
      invariant forall name :: name in entries <==> name in names[..i]
      invariant forall name :: name in entries ==>
                  if name in contract then entries[name] == contract[name] && Meets(contract[name], needs[name])
                  else
                    exists owners ::
                      && Sorting.ListsInOrder(owners, needs[name].owners)
                      && entries[name] == FreshEntry(needs[name], owners)
    {
      var name := names[i];
      var need := needs[name];
      if name in contract {
        if !Meets(contract[name], need) {
          return CannotReuse(name);
        }
        entries := entries[name := contract[name]];
      } else {
        var owners := Sorting.ListInOrder(need.owners);
        entries := entries[name := FreshEntry(need, owners)];
      }
      assert names[..i + 1] == names[..i] + [name];
    }
    assert names[..|names|] == names;
    return Generated(entries);
  }

  /** `generate`: it succeeds exactly when the product's fragments agree, the packages' sources
      agree, and every declaration to be reused meets the need; then it is what the needs and
      the contract determine. */
  method Generate(packages: seq<Package>, fragments: seq<Fragment>) returns (r: GenerateResult)
    ensures r.NothingToGenerate? <==> packages == []
    ensures r.Generated? ==>
              Agree(fragments) && SourcesAgree(Requests(packages))
              && exists needs ::
                   Summarises(Requests(packages), needs) && IsGenerated(needs, MergeOf(fragments), r.entries)
    ensures packages != [] && !Agree(fragments) ==> r.ProductConflict?
    ensures packages != [] && Agree(fragments) && !SourcesAgree(Requests(packages)) ==> r.SourceConflict?
    ensures r.CannotReuse? ==>
              exists needs :: Summarises(Requests(packages), needs) && !Reusable(needs, MergeOf(fragments))
    ensures r.ProductConflict? ==> !Agree(fragments)
    ensures r.SourceConflict? ==> !SourcesAgree(Requests(packages))
  {
    if packages == [] {
      return NothingToGenerate;
    }
    var merged := MergeFragments(fragments);
    if merged.Incompatible? {
      return ProductConflict(merged.name);
    }
    var summary := Requirements(packages);
    if summary.ConflictingSources? {
      return SourceConflict(summary.name);
    }
    r := EntriesFor(summary.needs, merged.entries);
  }
}
