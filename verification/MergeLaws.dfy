/** What the package merge holds of the specs themselves: which names are declared, by whom and with
    what, and what two packages may not both declare. */
module MergeLaws {
  import opened Options
  import opened PackageMerge
  import Python = PythonValues

  // ------------------------------------------------------------------ what is declared

  function Underscored(name: string): string {
    seq(|name|, i requires 0 <= i < |name| => if name[i] == '-' then '_' else name[i])
  }

  lemma {:induction false} PrefixIs(name: string)
    ensures Prefix(name) == Underscored(name)
  {
    if name != "" {
      PrefixIs(name[..|name| - 1]);
      assert Underscored(name) == Underscored(name[..|name| - 1])
                                  + [if name[|name| - 1] == '-' then '_' else name[|name| - 1]];
    }
  }

  /** A declared setting or job, by its full name. */
  ghost predicate IsDecl(decls: seq<Decl>, registry: Registry, prefix: string, owner: string, c: Claim) {
    exists j :: 0 <= j < |decls| && c == Claim(Key(registry, prefix + decls[j].name), owner, Schemas(decls[j].schema))
  }

  /** A published event: its name with what it is bound to, or its identifier. */
  predicate IsEvent(name: string, b: Binding, identify: string -> string, c: Claim) {
    || c == Claim(Key(Event, name), b.declarer, Binds(b))
    || c == Claim(Key(EventIdentifier, identify(name)), b.declarer + " event " + name, Nothing)
  }

  ghost predicate DeclaredByService(m: Manifest, c: Claim) {
    IsDecl(m.settings, Setting, "", m.service, c) || IsDecl(m.jobs, Job, "", m.service, c)
  }

  ghost predicate IsSharedEvent(s: Specs, c: Claim) {
    exists i :: 0 <= i < |s.events| &&
      IsEvent(s.events[i].name,
              Binding(s.events[i].model,
                      if s.events[i].model in s.models then Some(s.models[s.events[i].model]) else None,
                      "shared/spec/events.yaml"),
              s.identify, c)
  }

  /** The declarations of the product itself: core settings, settings and jobs of its services by
      their own names, and the shared events. */
  ghost predicate DeclaredByProduct(s: Specs, c: Claim) {
    || IsDecl(s.core, Setting, "", "core", c)
    || (exists i :: 0 <= i < |s.manifests| && DeclaredByService(s.manifests[i], c))
    || IsSharedEvent(s, c)
  }

  ghost predicate IsCapability(p: Package, c: Claim) {
    exists j :: 0 <= j < |p.offers| && c == Claim(Key(Capability, p.offers[j]), "package:" + p.name, Nothing)
  }

  /** What a package binds an event to: its message, model and schema. */
  function OwnBinding(p: Package, event: string): Binding
    requires event in p.messages
  {
    Binding(p.messages[event].model, Some(p.messages[event].schema), "package:" + p.name)
  }

  ghost predicate IsPublished(p: Package, identify: string -> string, c: Claim) {
    exists j :: 0 <= j < |p.publishes| && p.publishes[j] in p.messages &&
      IsEvent(p.publishes[j], OwnBinding(p, p.publishes[j]), identify, c)
  }

  /** The declarations of a package: its capabilities and database schema by their own names, its
      settings and jobs behind its prefix, and the events it publishes. */
  ghost predicate DeclaredByPackage(p: Package, identify: string -> string, c: Claim) {
    || IsCapability(p, c)
    || (p.database.Some? && c == Claim(Key(DatabaseSchema, p.database.value), "package:" + p.name, Nothing))
    || IsDecl(p.settings, Setting, Underscored(p.name) + ".", "package:" + p.name, c)
    || IsDecl(p.jobs, Job, Underscored(p.name) + ".", "package:" + p.name, c)
    || IsPublished(p, identify, c)
  }

  ghost predicate Declared(s: Specs, c: Claim) {
    DeclaredByProduct(s, c) || exists i :: 0 <= i < |s.packages| && DeclaredByPackage(s.packages[i], s.identify, c)
  }

  lemma {:induction false} FlatMapExactly<S, T>(items: seq<S>, f: S -> seq<T>, x: T)
    ensures x in FlatMap(items, f) <==> exists i :: 0 <= i < |items| && x in f(items[i])
  {
    if items != [] {
      var n := |items| - 1;
      FlatMapExactly(items[..n], f, x);
      if i :| 0 <= i < |items[..n]| && x in f(items[..n][i]) {
        assert x in f(items[i]);
      }
      if i :| 0 <= i < |items| && x in f(items[i]) {
        assert i < n ==> x in f(items[..n][i]);
      }
    }
  }

  lemma DeclsExactly(decls: seq<Decl>, registry: Registry, prefix: string, owner: string, c: Claim)
    ensures c in DeclClaims(decls, registry, prefix, owner) <==> IsDecl(decls, registry, prefix, owner, c)
  {
    hide FlatMap;
    var f := (d: Decl) => [DeclClaim(d, registry, prefix, owner)];
    FlatMapExactly(decls, f, c);
    assert forall j :: 0 <= j < |decls| ==> (c in f(decls[j]) <==> c == DeclClaim(decls[j], registry, prefix, owner));
  }

  lemma ServicesExactly(manifests: seq<Manifest>, c: Claim)
    ensures c in FlatMap(manifests, ManifestClaims) <==>
              exists i :: 0 <= i < |manifests| && DeclaredByService(manifests[i], c)
  {
    hide FlatMap, DeclClaims, IsDecl;
    FlatMapExactly(manifests, ManifestClaims, c);
    forall i | 0 <= i < |manifests| ensures c in ManifestClaims(manifests[i]) <==> DeclaredByService(manifests[i], c) {
      DeclsExactly(manifests[i].settings, Setting, "", manifests[i].service, c);
      DeclsExactly(manifests[i].jobs, Job, "", manifests[i].service, c);
    }
  }

  lemma SharedEventsExactly(s: Specs, c: Claim)
    ensures c in SharedEventClaims(s) <==> IsSharedEvent(s, c)
  {
    hide FlatMap;
    var f := (e: SharedEvent) => EventClaims(e.name, SharedBinding(s, e), s.identify);
    FlatMapExactly(s.events, f, c);
    assert forall i :: 0 <= i < |s.events| ==>
             (c in f(s.events[i]) <==> IsEvent(s.events[i].name, SharedBinding(s, s.events[i]), s.identify, c));
  }

  lemma CapabilitiesExactly(packages: seq<Package>, c: Claim)
    ensures c in CapabilityClaims(packages) <==> exists i :: 0 <= i < |packages| && IsCapability(packages[i], c)
  {
    hide FlatMap;
    FlatMapExactly(packages, CapabilityClaimsOf, c);
    forall i | 0 <= i < |packages| ensures c in CapabilityClaimsOf(packages[i]) <==> IsCapability(packages[i], c) {
      var p := packages[i];
      var f := (o: string) => [Claim(Key(Capability, o), p.Owner(), Nothing)];
      FlatMapExactly(p.offers, f, c);
      assert forall j :: 0 <= j < |p.offers| ==>
               (c in f(p.offers[j]) <==> c == Claim(Key(Capability, p.offers[j]), "package:" + p.name, Nothing));
    }
  }

  lemma PublishedExactly(p: Package, identify: string -> string, c: Claim)
    requires p.Valid()
    ensures c in PublishClaims(p, identify) <==> IsPublished(p, identify, c)
  {
    hide FlatMap, EventClaims, IsEvent;
    var f := (event: string) => EventClaims(event, PublishedBinding(p, event), identify);
    FlatMapExactly(p.publishes, f, c);
    forall j | 0 <= j < |p.publishes|
      ensures p.publishes[j] in p.messages
      ensures c in f(p.publishes[j]) <==> IsEvent(p.publishes[j], OwnBinding(p, p.publishes[j]), identify, c)
    {
      EventExactly(p.publishes[j], OwnBinding(p, p.publishes[j]), identify, c);
    }
  }

  lemma EventExactly(name: string, b: Binding, identify: string -> string, c: Claim)
    ensures c in EventClaims(name, b, identify) <==> IsEvent(name, b, identify, c)
  {
  }

  lemma PackageExactly(p: Package, identify: string -> string, c: Claim)
    requires p.Valid()
    ensures IsCapability(p, c) || c in PackageClaims(p, identify) <==> DeclaredByPackage(p, identify, c)
  {
    hide FlatMap, DeclClaims, IsDecl, PublishClaims, IsPublished, IsCapability, Package.Valid;
    PrefixIs(p.name);
    DeclsExactly(p.settings, Setting, Prefix(p.name) + ".", p.Owner(), c);
    DeclsExactly(p.jobs, Job, Prefix(p.name) + ".", p.Owner(), c);
    PublishedExactly(p, identify, c);
  }

  /** The names that are claimed are those declared, each by its declarer and with what it declares. */
  lemma ClaimsExactly(s: Specs, c: Claim)
    requires s.Valid()
    ensures c in AllClaims(s) <==> Declared(s, c)
  {
    hide FlatMap, DeclClaims, IsDecl, SharedEventClaims, IsSharedEvent, CapabilityClaims, IsCapability, PackageClaims,
      DeclaredByPackage, DeclaredByService, Package.Valid;
    DeclsExactly(s.core, Setting, "", CoreOwner, c);
    ServicesExactly(s.manifests, c);
    SharedEventsExactly(s, c);
    CapabilitiesExactly(s.packages, c);
    FlatMapExactly(s.packages, (p: Package) => PackageClaims(p, s.identify), c);
    forall i | 0 <= i < |s.packages|
      ensures IsCapability(s.packages[i], c) || c in PackageClaims(s.packages[i], s.identify) <==>
              DeclaredByPackage(s.packages[i], s.identify, c)
    {
      PackageExactly(s.packages[i], s.identify, c);
    }
  }

  // ------------------------------------------------------------------ what the merge makes of it

  lemma DeclaredIsClaimed(s: Specs, c: Claim) returns (i: nat)
    requires s.Valid() && Declared(s, c)
    ensures i < |AllClaims(s)| && AllClaims(s)[i] == c
  {
    hide AllClaims, Declared;
    ClaimsExactly(s, c);
    i :| 0 <= i < |AllClaims(s)| && AllClaims(s)[i] == c;
  }

  /** In consistent specs every name has one declarer. */
  lemma NamesHaveOneDeclarer(s: Specs, c: Claim, d: Claim)
    requires s.Valid() && Consistent(s) && Declared(s, c) && Declared(s, d) && c.key == d.key
    ensures c == d
  {
    hide AllClaims, Declared, AllProvided, ModelsAgree, AllBound;
    var i := DeclaredIsClaimed(s, c);
    var j := DeclaredIsClaimed(s, d);
  }

  /** So two packages of one prefix, as `a-b` and `a_b` are, must differ in all their settings and
      jobs; and no two packages share an event, a capability or a database schema. */
  lemma PackagesAreSeparate(s: Specs, i: nat, j: nat, c: Claim, d: Claim)
    requires s.Valid() && Consistent(s) && i < j < |s.packages|
    requires DeclaredByPackage(s.packages[i], s.identify, c) && DeclaredByPackage(s.packages[j], s.identify, d)
    ensures c.key.registry != EventIdentifier ==> c.key != d.key
  {
    hide Consistent, DeclaredByPackage;
    assert Declared(s, c) && Declared(s, d);
    if c.key == d.key {
      NamesHaveOneDeclarer(s, c, d);
      DeclarerIsPackage(s.packages[i], s.identify, c);
      DeclarerIsPackage(s.packages[j], s.identify, d);
      assert ("package:" + s.packages[i].name)[8..] == s.packages[i].name;
      assert ("package:" + s.packages[j].name)[8..] == s.packages[j].name;
    }
  }

  lemma DeclarerIsPackage(p: Package, identify: string -> string, c: Claim)
    requires DeclaredByPackage(p, identify, c)
    ensures c.key.registry != EventIdentifier ==> c.owner == "package:" + p.name
  {
  }

  /** The merged schemas of settings and jobs are exactly those declared. */
  lemma SchemasAreDeclared(s: Specs, schemas: map<Key, Schema>, k: Key, x: Schema)
    requires s.Valid() && SchemasRecord(AllClaims(s), schemas)
    ensures k in schemas && schemas[k] == x <==> exists owner :: Declared(s, Claim(k, owner, Schemas(x)))
  {
    hide AllClaims, Declared;
    var claims := AllClaims(s);
    if HasPayload(claims, k, Schemas(x)) {
      var i :| 0 <= i < |claims| && claims[i].key == k && claims[i].payload == Schemas(x);
      ClaimsExactly(s, claims[i]);
      assert claims[i] == Claim(k, claims[i].owner, Schemas(x));
    }
    if owner :| Declared(s, Claim(k, owner, Schemas(x))) {
      var i := DeclaredIsClaimed(s, Claim(k, owner, Schemas(x)));
      assert HasPayload(claims, k, Schemas(x));
    }
  }

  /** The owner of every name is the one that declares it; what services provide is theirs. */
  lemma OwnersAreDeclarers(s: Specs, owners: map<Key, string>, c: Claim)
    requires s.Valid() && Consistent(s) && OwnersRecord(Providers(s.manifests), AllClaims(s), owners) && Declared(s, c)
    ensures c.key in owners && owners[c.key] == c.owner
  {
    hide AllClaims, Declared, AllProvided, ModelsAgree, AllBound;
    var i := DeclaredIsClaimed(s, c);
  }

  /** The merged events are exactly those declared, each bound to the declared model and schema. */
  lemma BindingsAreDeclared(s: Specs, bindings: map<string, Binding>, name: string, b: Binding)
    requires s.Valid() && BindingsRecord(AllClaims(s), bindings)
    ensures name in bindings && bindings[name] == b <==>
              exists owner :: Declared(s, Claim(Key(Event, name), owner, Binds(b)))
  {
    hide AllClaims, Declared;
    var claims := AllClaims(s);
    if HasPayload(claims, Key(Event, name), Binds(b)) {
      var i :| 0 <= i < |claims| && claims[i].key == Key(Event, name) && claims[i].payload == Binds(b);
      ClaimsExactly(s, claims[i]);
      assert claims[i] == Claim(Key(Event, name), claims[i].owner, Binds(b));
    }
    if owner :| Declared(s, Claim(Key(Event, name), owner, Binds(b))) {
      var i := DeclaredIsClaimed(s, Claim(Key(Event, name), owner, Binds(b)));
      assert HasPayload(claims, Key(Event, name), Binds(b));
    }
  }

  // ------------------------------------------------------------------ what is demanded

  /** The service at position `i` is the last to offer the capability. */
  ghost predicate LastOffers(manifests: seq<Manifest>, i: nat, capability: string) {
    && i < |manifests| && capability in manifests[i].offers
    && forall j :: i < j < |manifests| ==> capability !in manifests[j].offers
  }

  /** What services provide is theirs; of several that offer it, the last one's. */
  lemma {:induction false} GivenExactly(manifests: seq<Manifest>, k: Key)
    ensures k in Providers(manifests) <==>
              k.registry == Capability && exists i :: 0 <= i < |manifests| && k.name in manifests[i].offers
    ensures k in Providers(manifests) ==>
              exists i: nat :: LastOffers(manifests, i, k.name) && Providers(manifests)[k] == manifests[i].service
  {
    if manifests != [] {
      var n := |manifests| - 1;
      var front := manifests[..n];
      GivenExactly(front, k);
      assert forall i :: 0 <= i < n ==> front[i] == manifests[i];
      if k.registry == Capability && k.name in manifests[n].offers {
        assert k in Offered(manifests[n].offers, manifests[n].service);
        assert LastOffers(manifests, n, k.name);
      } else if k in Providers(front) {
        var i: nat :| LastOffers(front, i, k.name) && Providers(front)[k] == front[i].service;
        assert LastOffers(manifests, i, k.name);
      }
    }
  }

  ghost predicate IsOffered(s: Specs, capability: string) {
    || (exists i :: 0 <= i < |s.manifests| && capability in s.manifests[i].offers)
    || (exists i :: 0 <= i < |s.packages| && capability in s.packages[i].offers)
  }

  /** A capability is provided when a service or a package offers it. */
  lemma ProvidedExactly(s: Specs, capability: string)
    ensures Provided(s, capability) <==> IsOffered(s, capability)
  {
    hide FlatMap, Providers;
    var k := Key(Capability, capability);
    GivenExactly(s.manifests, k);
    var claims := CapabilityClaims(s.packages);
    if Claimed(claims, k) {
      var i :| 0 <= i < |claims| && claims[i].key == k;
      CapabilitiesExactly(s.packages, claims[i]);
      var p :| 0 <= p < |s.packages| && IsCapability(s.packages[p], claims[i]);
      assert capability in s.packages[p].offers;
    }
    if p :| 0 <= p < |s.packages| && capability in s.packages[p].offers {
      var j :| 0 <= j < |s.packages[p].offers| && s.packages[p].offers[j] == capability;
      var c := Claim(k, "package:" + s.packages[p].name, Nothing);
      assert IsCapability(s.packages[p], c);
      CapabilitiesExactly(s.packages, c);
      var i :| 0 <= i < |claims| && claims[i] == c;
    }
  }

  /** A package publishes the event with this message. */
  predicate PublishesWith(p: Package, event: string, message: Message) {
    event in p.publishes && event in p.messages && message == p.messages[event]
  }

  lemma PublicationsExactly(s: Specs, x: Publication)
    requires s.Valid()
    ensures x in AllPublications(s.packages) <==>
              exists i, event :: 0 <= i < |s.packages| && x.owner == "package:" + s.packages[i].name
                                 && PublishesWith(s.packages[i], event, Message(x.model, x.schema))
  {
    hide FlatMap;
    FlatMapExactly(s.packages, PublicationsOf, x);
    forall i | 0 <= i < |s.packages|
      ensures x in PublicationsOf(s.packages[i]) <==>
                x.owner == "package:" + s.packages[i].name
                && exists event :: PublishesWith(s.packages[i], event, Message(x.model, x.schema))
    {
      PublicationsOfExactly(s.packages[i], x);
    }
  }

  lemma PublicationsOfExactly(p: Package, x: Publication)
    requires p.Valid()
    ensures x in PublicationsOf(p) <==>
              x.owner == "package:" + p.name && exists event :: PublishesWith(p, event, Message(x.model, x.schema))
  {
    hide FlatMap;
    var f := (event: string) => [PublicationOf(p, event)];
    FlatMapExactly(p.publishes, f, x);
    if j :| 0 <= j < |p.publishes| && x in f(p.publishes[j]) {
      assert p.publishes[j] in p.messages;
      assert PublishesWith(p, p.publishes[j], Message(x.model, x.schema));
    }
    if event :| PublishesWith(p, event, Message(x.model, x.schema)) {
      var j :| 0 <= j < |p.publishes| && p.publishes[j] == event;
      if x.owner == "package:" + p.name {
        assert x in f(p.publishes[j]);
      }
    }
  }

  /** The message models are in order when no package publishes a shared one, and any two that
      publish one model are one package with, as Python compares it, one schema. */
  ghost predicate ModelsAreInOrder(s: Specs) {
    forall i, e, x, j, f, y ::
      0 <= i < |s.packages| && 0 <= j < |s.packages|
      && PublishesWith(s.packages[i], e, x) && PublishesWith(s.packages[j], f, y) ==>
        && x.model !in s.models
        && (x.model == y.model ==> s.packages[i].name == s.packages[j].name && SameSchema(x.schema, y.schema))
  }

  lemma ModelsExactly(s: Specs)
    requires s.Valid()
    ensures ModelsAgree(s.models, AllPublications(s.packages)) <==> ModelsAreInOrder(s)
  {
    hide FlatMap, PublishesWith, AllPublications, SameSchema, Package.Valid;
    var pubs := AllPublications(s.packages);
    if ModelsAreInOrder(s) {
      forall x, y | x in pubs && y in pubs
        ensures x.model !in s.models && (x.model == y.model ==> Repeats(x, y))
      {
        PublicationsExactly(s, x);
        PublicationsExactly(s, y);
      }
    }
    if ModelsAgree(s.models, pubs) {
      forall i, e, x, j, f, y |
        0 <= i < |s.packages| && 0 <= j < |s.packages|
        && PublishesWith(s.packages[i], e, x) && PublishesWith(s.packages[j], f, y)
        ensures x.model !in s.models
        ensures x.model == y.model ==> s.packages[i].name == s.packages[j].name && SameSchema(x.schema, y.schema)
      {
        PublishedModelsAgree(s, i, e, x, j, f, y);
      }
    }
  }

  lemma PublishedModelsAgree(s: Specs, i: nat, e: string, x: Message, j: nat, f: string, y: Message)
    requires s.Valid() && ModelsAgree(s.models, AllPublications(s.packages))
    requires i < |s.packages| && j < |s.packages|
    requires PublishesWith(s.packages[i], e, x) && PublishesWith(s.packages[j], f, y)
    ensures x.model !in s.models
    ensures x.model == y.model ==> s.packages[i].name == s.packages[j].name && SameSchema(x.schema, y.schema)
  {
    hide PublishesWith, AllPublications, SameSchema, Package.Valid;
    var a := Publication("package:" + s.packages[i].name, x.model, x.schema);
    var b := Publication("package:" + s.packages[j].name, y.model, y.schema);
    assert x == Message(x.model, x.schema) && y == Message(y.model, y.schema);
    PublicationsExactly(s, a);
    PublicationsExactly(s, b);
    assert a.owner[8..] == s.packages[i].name && b.owner[8..] == s.packages[j].name;
    var k :| 0 <= k < |AllPublications(s.packages)| && AllPublications(s.packages)[k] == a;
  }

  /** What a consumer expects of an event. */
  predicate Expects(p: Package, event: string, message: Message) {
    event in p.consumes && event in p.messages && message == p.messages[event]
  }

  /** The declared event has the expected model, and its schema, apart from a title that repeats the
      model's name, is the expected one. */
  predicate Fits(b: Binding, message: Message) {
    && b.model == message.model
    && var schema := if b.schema.Some? then b.schema.value else map[];
    SameSchema(if "title" in schema && schema["title"] == Python.Text(b.model) then schema - {"title"} else schema,
               message.schema)
  }

  ghost predicate ConsumersAreServed(s: Specs) {
    forall i, event, message :: 0 <= i < |s.packages| && Expects(s.packages[i], event, message) ==>
      exists owner, b :: Declared(s, Claim(Key(Event, event), owner, Binds(b))) && Fits(b, message)
  }

  lemma UsesExactly(s: Specs, u: Use)
    requires s.Valid()
    ensures u in AllUses(s.packages) <==>
              exists i :: 0 <= i < |s.packages| && Expects(s.packages[i], u.event, u.message)
                          && u.consumer == "package:" + s.packages[i].name
  {
    hide FlatMap;
    FlatMapExactly(s.packages, UsesOf, u);
    forall i | 0 <= i < |s.packages|
      ensures u in UsesOf(s.packages[i]) <==>
                Expects(s.packages[i], u.event, u.message) && u.consumer == "package:" + s.packages[i].name
    {
      UsesOfExactly(s.packages[i], u);
    }
  }

  lemma UsesOfExactly(p: Package, u: Use)
    requires p.Valid()
    ensures u in UsesOf(p) <==> Expects(p, u.event, u.message) && u.consumer == "package:" + p.name
  {
    hide FlatMap;
    var f := (event: string) => [Use(p.Owner(), event, MessageOf(p, event))];
    FlatMapExactly(p.consumes, f, u);
    if j :| 0 <= j < |p.consumes| && u in f(p.consumes[j]) {
      assert p.consumes[j] in p.messages;
    }
    if Expects(p, u.event, u.message) && u.consumer == "package:" + p.name {
      var j :| 0 <= j < |p.consumes| && p.consumes[j] == u.event;
      assert u in f(p.consumes[j]);
    }
  }

  lemma BoundExactly(s: Specs, u: Use)
    requires s.Valid()
    ensures Bound(AllClaims(s), u) <==>
              exists owner, b :: Declared(s, Claim(Key(Event, u.event), owner, Binds(b))) && Fits(b, u.message)
  {
    hide AllClaims, Declared, SameSchema;
    var claims := AllClaims(s);
    if Bound(claims, u) {
      var i :| 0 <= i < |claims| && claims[i].key == Key(Event, u.event) && claims[i].payload.Binds?
               && Matches(claims[i].payload.binding, u.message);
      ClaimsExactly(s, claims[i]);
      assert claims[i] == Claim(Key(Event, u.event), claims[i].owner, Binds(claims[i].payload.binding));
      assert Fits(claims[i].payload.binding, u.message);
    }
    if owner, b :| Declared(s, Claim(Key(Event, u.event), owner, Binds(b))) && Fits(b, u.message) {
      var i := DeclaredIsClaimed(s, Claim(Key(Event, u.event), owner, Binds(b)));
      assert Matches(claims[i].payload.binding, u.message);
    }
  }

  lemma ConsumersExactly(s: Specs)
    requires s.Valid()
    ensures AllBound(AllClaims(s), AllUses(s.packages)) <==> ConsumersAreServed(s)
  {
    hide AllClaims, Declared, AllUses, Bound, Expects, Fits, Package.Valid;
    var uses := AllUses(s.packages);
    if ConsumersAreServed(s) {
      forall i | 0 <= i < |uses| ensures Bound(AllClaims(s), uses[i]) {
        UsesExactly(s, uses[i]);
        BoundExactly(s, uses[i]);
      }
    }
    if AllBound(AllClaims(s), uses) {
      forall i, event, message | 0 <= i < |s.packages| && Expects(s.packages[i], event, message)
        ensures exists owner, b :: Declared(s, Claim(Key(Event, event), owner, Binds(b))) && Fits(b, message)
      {
        var u := Use("package:" + s.packages[i].name, event, message);
        UsesExactly(s, u);
        BoundExactly(s, u);
        var k :| 0 <= k < |uses| && uses[k] == u;
      }
    }
  }

  /** Every capability a package requires is offered by a service or by a package. */
  ghost predicate NeedsAreMet(s: Specs) {
    forall i, need :: 0 <= i < |s.packages| && need in s.packages[i].needs ==> IsOffered(s, need)
  }

  lemma NeedsExactly(s: Specs)
    ensures AllProvided(s, AllNeeds(s.packages)) <==> NeedsAreMet(s)
  {
    hide Provided, FlatMap, IsOffered;
    var needs := AllNeeds(s.packages);
    forall need ensures Provided(s, need) <==> IsOffered(s, need) {
      ProvidedExactly(s, need);
    }
    if NeedsAreMet(s) {
      forall k | 0 <= k < |needs| ensures Provided(s, needs[k]) {
        FlatMapExactly(s.packages, NeedsOf, needs[k]);
      }
    }
    if AllProvided(s, needs) {
      forall i, need | 0 <= i < |s.packages| && need in s.packages[i].needs ensures Provided(s, need) {
        FlatMapExactly(s.packages, NeedsOf, need);
        assert need in NeedsOf(s.packages[i]);
        var k :| 0 <= k < |needs| && needs[k] == need;
      }
    }
  }

  /** Whether the specs are in order, in their own terms: names declared once, needs met, models in
      order and consumers served. */
  lemma ConsistentExactly(s: Specs)
    requires s.Valid()
    ensures Consistent(s) <==>
              && Distinct(Given(s), AllClaims(s)) && NeedsAreMet(s) && ModelsAreInOrder(s) && ConsumersAreServed(s)
  {
    hide AllClaims, Distinct, NeedsAreMet, ModelsAreInOrder, ConsumersAreServed, AllProvided, ModelsAgree, AllBound;
    NeedsExactly(s);
    ModelsExactly(s);
    ConsumersExactly(s);
  }

  // ------------------------------------------------------------------ timers

  /** The merged timers are exactly those declared, by the full names of their jobs. */
  lemma TimersAreDeclared(s: Specs, timers: map<string, int>, name: string, every: int)
    requires s.Valid() && Consistent(s) && TimersRecord(FlatMap(s.packages, TimersOf), timers)
    ensures name in timers && timers[name] == every <==>
              exists i, j :: 0 <= i < |s.packages| && IsTimer(s.packages[i], j, name, every)
  {
    hide FlatMap, Consistent, IsTimer;
    var entries := FlatMap(s.packages, TimersOf);
    if name in timers && timers[name] == every {
      var i, j := TimerIsDeclared(s, name, every);
    }
    if i, j :| 0 <= i < |s.packages| && IsTimer(s.packages[i], j, name, every) {
      TimerIsEntered(s, i, j, name, every);
      var k :| 0 <= k < |entries| && entries[k] == (name, every);
      var i', j' := TimerIsDeclared(s, name, timers[name]);
      TimersAreOne(s, i, j, every, i', j', timers[name], name);
    }
  }

  /** The `j`-th timer of a package. */
  predicate IsTimer(p: Package, j: int, name: string, every: int) {
    0 <= j < |p.timers| && name == Underscored(p.name) + "." + p.timers[j].job && every == p.timers[j].every
  }

  lemma TimersOfExactly(p: Package, name: string, every: int)
    ensures (name, every) in TimersOf(p) <==> exists j :: IsTimer(p, j, name, every)
  {
    hide FlatMap, Prefix;
    PrefixIs(p.name);
    var f := (t: Timer) => [(Qualified(p, t.job), t.every)];
    FlatMapExactly(p.timers, f, (name, every));
    forall j | 0 <= j < |p.timers| ensures (name, every) in f(p.timers[j]) <==> IsTimer(p, j, name, every) {
      assert f(p.timers[j]) == [(Qualified(p, p.timers[j].job), p.timers[j].every)];
    }
    assert TimersOf(p) == FlatMap(p.timers, f);
    if j :| IsTimer(p, j, name, every) {
      assert (name, every) in f(p.timers[j]);
    }
    if (name, every) in TimersOf(p) {
      var j :| 0 <= j < |p.timers| && (name, every) in f(p.timers[j]);
      assert IsTimer(p, j, name, every);
    }
  }

  lemma TimerIsDeclared(s: Specs, name: string, every: int) returns (i: nat, j: int)
    requires (name, every) in FlatMap(s.packages, TimersOf)
    ensures i < |s.packages| && IsTimer(s.packages[i], j, name, every)
  {
    hide FlatMap;
    FlatMapExactly(s.packages, TimersOf, (name, every));
    i :| 0 <= i < |s.packages| && (name, every) in TimersOf(s.packages[i]);
    hide IsTimer;
    TimersOfExactly(s.packages[i], name, every);
    j :| IsTimer(s.packages[i], j, name, every);
  }

  lemma TimerIsEntered(s: Specs, i: nat, j: int, name: string, every: int)
    requires i < |s.packages| && IsTimer(s.packages[i], j, name, every)
    ensures (name, every) in FlatMap(s.packages, TimersOf)
  {
    hide FlatMap;
    TimersOfExactly(s.packages[i], name, every);
    FlatMapExactly(s.packages, TimersOf, (name, every));
  }

  lemma TimerNamesItsJob(s: Specs, i: nat, j: int, name: string, every: int) returns (c: Claim)
    requires s.Valid() && i < |s.packages| && IsTimer(s.packages[i], j, name, every)
    ensures DeclaredByPackage(s.packages[i], s.identify, c) && c.key == Key(Job, name)
  {
    var p := s.packages[i];
    assert p.HasJob(p.timers[j].job);
    var k :| 0 <= k < |p.jobs| && p.jobs[k].name == p.timers[j].job;
    c := Claim(Key(Job, Underscored(p.name) + "." + p.jobs[k].name), "package:" + p.name, Schemas(p.jobs[k].schema));
    assert IsDecl(p.jobs, Job, Underscored(p.name) + ".", "package:" + p.name, c);
  }

  lemma TimersAreOne(s: Specs, i: nat, j: int, e: int, i': nat, j': int, e': int, name: string)
    requires s.Valid() && Consistent(s) && i < |s.packages| && i' < |s.packages|
    requires IsTimer(s.packages[i], j, name, e) && IsTimer(s.packages[i'], j', name, e')
    ensures e == e'
  {
    hide Consistent, DeclaredByPackage;
    var c := TimerNamesItsJob(s, i, j, name, e);
    var d := TimerNamesItsJob(s, i', j', name, e');
    if i < i' {
      PackagesAreSeparate(s, i, i', c, d);
    } else if i' < i {
      PackagesAreSeparate(s, i', i, d, c);
    } else {
      SameJob(s.packages[i], j, j', name, e, e');
    }
  }

  lemma SameJob(p: Package, j: int, j': int, name: string, e: int, e': int)
    requires p.Valid() && IsTimer(p, j, name, e) && IsTimer(p, j', name, e')
    ensures e == e'
  {
    var n := |Underscored(p.name) + "."|;
    assert p.timers[j].job == name[n..] && p.timers[j'].job == name[n..];
  }
}
