/** What the generated environment fragment gives every package, in terms of the requirements in the
    packages' manifests and the declarations of the product. */
module EnvLaws {
  import opened Options
  import opened EnvContract
  import Sorting

  // ------------------------------------------------------------------ what is asked for

  /** A package of this name has the requirement in its manifest. */
  ghost predicate Requires(packages: seq<Package>, package: string, r: Requirement) {
    exists i, j :: 0 <= i < |packages| && 0 <= j < |packages[i].environment|
                   && packages[i].name == package && packages[i].environment[j] == r
  }

  /** The declaration can serve the requirement. */
  predicate Serves(e: Entry, r: Requirement) {
    && "local" in e.environments && "production" in e.environments && "backend" in e.consumers
    && (r.required ==> e.required)
    && (r.source.Some? ==>
          match r.source.value
          case KeySource(service, scopes, quota) => e.source == PlatformKey(service, scopes, quota)
          case BaseUrlSource(service, url) => e.source == PlatformBaseUrl(service, url))
  }

  lemma {:induction false} RequestsExactly(packages: seq<Package>, package: string, r: Requirement)
    ensures Asks(Requests(packages), package, r) <==> Requires(packages, package, r)
  {
    if packages != [] {
      var n := |packages| - 1;
      var front, last := packages[..n], packages[n];
      var own := RequestsOf(last, |last.environment|);
      RequestsExactly(front, package, r);
      AsksConcat(Requests(front), own, package, r);
      assert Asks(own, package, r) <==> last.name == package && r in last.environment by {
        OwnRequests(last, package, r);
      }
      if i, j :| 0 <= i < |packages| && 0 <= j < |packages[i].environment|
                 && packages[i].name == package && packages[i].environment[j] == r {
        assert i < n ==> front[i] == packages[i];
      }
      if i, j :| 0 <= i < |front| && 0 <= j < |front[i].environment|
                 && front[i].name == package && front[i].environment[j] == r {
        assert packages[i] == front[i];
      }
    }
  }

  lemma AsksConcat(a: seq<Request>, b: seq<Request>, package: string, r: Requirement)
    ensures Asks(a + b, package, r) <==> Asks(a, package, r) || Asks(b, package, r)
  {
    var all := a + b;
    if Asks(a, package, r) {
      var i :| 0 <= i < |a| && a[i] == Request(package, r);
      assert all[i] == a[i];
    }
    if Asks(b, package, r) {
      var i :| 0 <= i < |b| && b[i] == Request(package, r);
      assert all[|a| + i] == b[i];
    }
  }

  lemma OwnRequests(p: Package, package: string, r: Requirement)
    ensures Asks(RequestsOf(p, |p.environment|), package, r) <==> p.name == package && r in p.environment
  {
    var own := RequestsOf(p, |p.environment|);
    if p.name == package && r in p.environment {
      var j :| 0 <= j < |p.environment| && p.environment[j] == r;
      assert own[j] == Request(package, r);
    }
  }

  /** A declaration meets what the packages together need exactly when it serves each of them. */
  lemma MeetsExactly(requests: seq<Request>, name: string, need: Need, e: Entry)
    requires IsNeed(requests, name, need) && exists p, r :: Asks(requests, p, r) && r.name == name
    ensures Meets(e, need) <==> forall p, r :: Asks(requests, p, r) && r.name == name ==> Serves(e, r)
  {
    if Meets(e, need) {
      forall p, r | Asks(requests, p, r) && r.name == name ensures Serves(e, r) {
      }
    }
    if forall p, r :: Asks(requests, p, r) && r.name == name ==> Serves(e, r) {
      var p, r :| Asks(requests, p, r) && r.name == name;
      assert Serves(e, r);
      if need.required {
        var q, s :| Asks(requests, q, s) && s.name == name && s.required;
        assert Serves(e, s);
      }
      if need.source.Some? {
        var q, s :| Asks(requests, q, s) && s.name == name && s.source == need.source;
        assert Serves(e, s);
      }
    }
  }

  // ------------------------------------------------------------------ what is generated

  /** What is written for a variable the product does not declare: for both environments and the
      backend, required if some package requires it, from the platform source that is asked for or
      else a secret of the user's, and naming the packages that ask. */
  ghost predicate IsNew(packages: seq<Package>, name: string, e: Entry) {
    && e.environments == ["local", "production"] && e.consumers == ["backend"]
    && (e.required <==> exists p, r :: Requires(packages, p, r) && r.name == name && r.required)
    && (match e.source
        case PlatformKey(service, scopes, quota) =>
          exists p, r ::
            Requires(packages, p, r) && r.name == name && r.source == Some(KeySource(service, scopes, quota))
        case PlatformBaseUrl(service, url) =>
          exists p, r :: Requires(packages, p, r) && r.name == name && r.source == Some(BaseUrlSource(service, url))
        case UserSecret => forall p, r :: Requires(packages, p, r) && r.name == name ==> r.source.None?
        case _ => false)
    && (e.sensitive <==> !e.source.PlatformBaseUrl?)
    && exists owners ::
         && (forall p :: p in owners <==> exists r :: Requires(packages, p, r) && r.name == name)
         && Sorting.SortedBy(owners, Sorting.StringLe)
         && (forall i, j :: 0 <= i < j < |owners| ==> owners[i] != owners[j])
         && e.description == Some((if |owners| == 1 then "Environment value required by package "
                                   else "Environment value required by packages ") + Joined(owners))
  }

  lemma JoinedIs(names: seq<string>, name: string)
    ensures Joined([name]) == name
    ensures names != [] ==> Joined(names + [name]) == Joined(names) + ", " + name
  {
    if names != [] {
      assert (names + [name])[..|names + [name]| - 1] == names;
    }
  }

  lemma FreshIsNew(packages: seq<Package>, name: string, need: Need, owners: seq<string>)
    requires IsNeed(Requests(packages), name, need) && Sorting.ListsInOrder(owners, need.owners)
    ensures IsNew(packages, name, FreshEntry(need, owners))
  {
    hide Requests, Joined, Asks, Requires, Sorting.SortedBy;
    forall p, r ensures Asks(Requests(packages), p, r) <==> Requires(packages, p, r) {
      RequestsExactly(packages, p, r);
    }
    var e := FreshEntry(need, owners);
    OwnersAskForIt(packages, name, need, owners);
  }

  lemma OwnersAskForIt(packages: seq<Package>, name: string, need: Need, owners: seq<string>)
    requires IsNeed(Requests(packages), name, need) && Sorting.ListsInOrder(owners, need.owners)
    ensures forall p :: p in owners <==> exists r :: Requires(packages, p, r) && r.name == name
    ensures Sorting.SortedBy(owners, Sorting.StringLe)
    ensures forall i, j :: 0 <= i < j < |owners| ==> owners[i] != owners[j]
  {
    hide Requests, Asks, Requires, Sorting.SortedBy;
    forall p, r ensures Asks(Requests(packages), p, r) <==> Requires(packages, p, r) {
      RequestsExactly(packages, p, r);
    }
    forall p ensures p in owners <==> exists r :: Requires(packages, p, r) && r.name == name {
      assert p in owners <==> p in need.owners;
      assert p in need.owners <==> exists r :: Asks(Requests(packages), p, r) && r.name == name;
    }
  }

  lemma NeededExactly(packages: seq<Package>, needs: Needs, name: string)
    requires Summarises(Requests(packages), needs)
    ensures name in needs <==> exists p, r :: Requires(packages, p, r) && r.name == name
    ensures name in needs ==> exists p, r :: Asks(Requests(packages), p, r) && r.name == name
  {
    hide Requests, Asks, Requires, IsNeed;
    forall p, r ensures Asks(Requests(packages), p, r) <==> Requires(packages, p, r) {
      RequestsExactly(packages, p, r);
    }
  }

  lemma NeedMeansEveryone(packages: seq<Package>, needs: Needs, name: string, e: Entry)
    requires Summarises(Requests(packages), needs) && name in needs
    ensures Meets(e, needs[name]) <==> forall p, r :: Requires(packages, p, r) && r.name == name ==> Serves(e, r)
  {
    hide Requests, Asks, Requires, IsNeed, Meets, Serves;
    NeededExactly(packages, needs, name);
    MeetsExactly(Requests(packages), name, needs[name], e);
    forall p, r ensures Asks(Requests(packages), p, r) <==> Requires(packages, p, r) {
      RequestsExactly(packages, p, r);
    }
  }

  /** The generated fragment has an entry for every variable some package requires, and no other;
      it is the product's own declaration, or a new one; and it serves every requirement of every
      package. */
  lemma GeneratedServesEveryPackage(packages: seq<Package>, needs: Needs, contract: Entries, entries: Entries)
    requires Summarises(Requests(packages), needs) && IsGenerated(needs, contract, entries)
    ensures forall name :: name in entries <==> exists p, r :: Requires(packages, p, r) && r.name == name
    ensures forall name :: name in entries ==>
              if name in contract then entries[name] == contract[name] else IsNew(packages, name, entries[name])
    ensures forall p, r :: Requires(packages, p, r) ==> r.name in entries && Serves(entries[r.name], r)
  {
    hide Requests, Asks, Requires, IsNeed, Meets, Serves, FreshEntry, IsNew, Sorting.ListsInOrder;
    forall name ensures name in entries <==> exists p, r :: Requires(packages, p, r) && r.name == name {
      NeededExactly(packages, needs, name);
    }
    forall name | name in entries && name !in contract ensures IsNew(packages, name, entries[name]) {
      var owners :|
        Sorting.ListsInOrder(owners, needs[name].owners) && entries[name] == FreshEntry(needs[name], owners);
      FreshIsNew(packages, name, needs[name], owners);
    }
    forall p, r | Requires(packages, p, r) ensures r.name in entries && Serves(entries[r.name], r) {
      NeedMeansEveryone(packages, needs, r.name, entries[r.name]);
      if r.name !in contract {
        var owners :| Sorting.ListsInOrder(owners, needs[r.name].owners)
                      && entries[r.name] == FreshEntry(needs[r.name], owners);
        FreshMeetsNeed(needs[r.name], owners);
      }
    }
  }

  /** Generation is refused for the product's declarations exactly when one of them cannot serve a
      requirement of some package. */
  lemma ReuseIsRefusedExactly(packages: seq<Package>, needs: Needs, contract: Entries)
    requires Summarises(Requests(packages), needs)
    ensures !Reusable(needs, contract) <==>
              exists p, r :: Requires(packages, p, r) && r.name in contract && !Serves(contract[r.name], r)
  {
    hide Requests, Asks, Requires, IsNeed, Meets, Serves;
    if name :| name in needs && name in contract && !Meets(contract[name], needs[name]) {
      NeedMeansEveryone(packages, needs, name, contract[name]);
    }
    if p, r :| Requires(packages, p, r) && r.name in contract && !Serves(contract[r.name], r) {
      NeededExactly(packages, needs, r.name);
      NeedMeansEveryone(packages, needs, r.name, contract[r.name]);
    }
  }

  /** And for the packages' sources exactly when two of them require one variable from different
      platform sources. */
  lemma SourcesConflictExactly(packages: seq<Package>)
    ensures !SourcesAgree(Requests(packages)) <==>
              exists p, q, r, s ::
                && Requires(packages, p, r) && Requires(packages, q, s) && r.name == s.name
                && r.source.Some? && s.source.Some? && r.source != s.source
  {
    hide Requests, Asks, Requires;
    forall p, r ensures Asks(Requests(packages), p, r) <==> Requires(packages, p, r) {
      RequestsExactly(packages, p, r);
    }
  }
}
