/** The ownership merge of core, service and package declarations (`framework/spec/loader.py`). */
module PackageMerge {
  import opened Options
  import Python = PythonValues
  import Sorting

  type Schema = map<string, Python.Value>

  /** `a == b` on schemas. */
  predicate SameSchema(a: Schema, b: Schema) {
    a.Keys == b.Keys && forall k :: k in a ==> Python.Same(a[k], b[k])
  }

  lemma SameSchemaIsReflexive(a: Schema)
    ensures SameSchema(a, a)
  {
    forall k | k in a ensures Python.Same(a[k], a[k]) {
      Python.SameIsReflexive(a[k]);
    }
  }

  lemma SameSchemaIsSymmetric(a: Schema, b: Schema)
    requires SameSchema(a, b)
    ensures SameSchema(b, a)
  {
    forall k | k in a ensures Python.Same(b[k], a[k]) {
      Python.SameIsSymmetric(a[k], b[k]);
    }
  }

  lemma SameSchemaIsTransitive(a: Schema, b: Schema, c: Schema)
    requires SameSchema(a, b) && SameSchema(b, c)
    ensures SameSchema(a, c)
  {
    forall k | k in a ensures Python.Same(a[k], c[k]) {
      Python.SameIsTransitive(a[k], b[k], c[k]);
    }
  }

  /** The registries of exclusive names. */
  datatype Registry = Setting | Job | Event | EventIdentifier | DatabaseSchema | Capability
  datatype Key = Key(registry: Registry, name: string)

  datatype Decl = Decl(name: string, schema: Schema)
  datatype Message = Message(model: string, schema: Schema)
  datatype Timer = Timer(job: string, every: int)
  datatype SharedEvent = SharedEvent(name: string, model: string)
  datatype EventSpec = EventSpec(name: string, model: string)

  datatype Manifest = Manifest(service: string, settings: seq<Decl>, jobs: seq<Decl>, offers: seq<string>)

  datatype Package = Package(
    name: string,
    database: Option<string>,
    needs: seq<string>,
    offers: seq<string>,
    settings: seq<Decl>,
    jobs: seq<Decl>,
    timers: seq<Timer>,
    publishes: seq<string>,
    consumes: seq<string>,
    messages: map<string, Message>)
  {
    function Owner(): string {
      "package:" + name
    }

    predicate HasJob(local: string) {
      exists j :: 0 <= j < |jobs| && jobs[j].name == local
    }

    /** What a validated package manifest guarantees: a message for every event it names, and
        timers of its own jobs only, one each. */
    predicate Valid() {
      && (forall i :: 0 <= i < |publishes| ==> publishes[i] in messages)
      && (forall i :: 0 <= i < |consumes| ==> consumes[i] in messages)
      && (forall i :: 0 <= i < |timers| ==> HasJob(timers[i].job))
      && (forall i, j :: 0 <= i < j < |timers| ==> timers[i].job != timers[j].job)
    }
  }

  datatype Specs = Specs(
    core: seq<Decl>,
    manifests: seq<Manifest>,
    events: seq<SharedEvent>,
    models: map<string, Schema>,
    packages: seq<Package>,
    identify: string -> string)
  {
    /** What resolving the active packages guarantees: valid manifests, one per name. */
    ghost predicate Valid() {
      && (forall i :: 0 <= i < |packages| ==> packages[i].Valid())
      && (forall i, j :: 0 <= i < j < |packages| ==> packages[i].name != packages[j].name)
    }
  }

  const CoreOwner: string := "core"
  const SharedEvents: string := "shared/spec/events.yaml"
  const SharedModels: string := "shared/spec/models.yaml"

  /** `name.replace("-", "_")` */
  function Prefix(name: string): string {
    if name == "" then "" else Prefix(name[..|name| - 1]) + [if name[|name| - 1] == '-' then '_' else name[|name| - 1]]
  }

  function Qualified(p: Package, local: string): string {
    Prefix(p.name) + "." + local
  }

  // ---------------------------------------------------------------- what is declared

  /** What an event name is bound to. */
  datatype Binding = Binding(model: string, schema: Option<Schema>, declarer: string)

  datatype Payload = Nothing | Schemas(schema: Schema) | Binds(binding: Binding)

  /** A claim of an exclusive name: settings and jobs come with their schema, events with their
      binding. */
  datatype Claim = Claim(key: Key, owner: string, payload: Payload)
  datatype Publication = Publication(owner: string, model: string, schema: Schema)
  datatype Use = Use(consumer: string, event: string, message: Message)

  function FlatMap<S, T>(items: seq<S>, f: S -> seq<T>): seq<T> {
    if items == [] then [] else FlatMap(items[..|items| - 1], f) + f(items[|items| - 1])
  }

  function MessageOf(p: Package, event: string): Message {
    if event in p.messages then p.messages[event] else Message("", map[])
  }

  function DeclClaim(d: Decl, registry: Registry, prefix: string, owner: string): Claim {
    Claim(Key(registry, prefix + d.name), owner, Schemas(d.schema))
  }

  function DeclClaims(decls: seq<Decl>, registry: Registry, prefix: string, owner: string): seq<Claim> {
    FlatMap(decls, (d: Decl) => [DeclClaim(d, registry, prefix, owner)])
  }

  function ManifestClaims(m: Manifest): seq<Claim> {
    DeclClaims(m.settings, Setting, "", m.service) + DeclClaims(m.jobs, Job, "", m.service)
  }

  function EventClaims(name: string, b: Binding, identify: string -> string): seq<Claim> {
    [Claim(Key(Event, name), b.declarer, Binds(b)),
     Claim(Key(EventIdentifier, identify(name)), b.declarer + " event " + name, Nothing)]
  }

  function SharedBinding(s: Specs, e: SharedEvent): Binding {
    Binding(e.model, if e.model in s.models then Some(s.models[e.model]) else None, SharedEvents)
  }

  function SharedEventClaims(s: Specs): seq<Claim> {
    FlatMap(s.events, (e: SharedEvent) => EventClaims(e.name, SharedBinding(s, e), s.identify))
  }

  function CapabilityClaimsOf(p: Package): seq<Claim> {
    FlatMap(p.offers, (c: string) => [Claim(Key(Capability, c), p.Owner(), Nothing)])
  }

  function CapabilityClaims(packages: seq<Package>): seq<Claim> {
    FlatMap(packages, CapabilityClaimsOf)
  }

  function NameClaims(p: Package): seq<Claim> {
    (if p.database.Some? then [Claim(Key(DatabaseSchema, p.database.value), p.Owner(), Nothing)] else [])
    + DeclClaims(p.settings, Setting, Prefix(p.name) + ".", p.Owner())
    + DeclClaims(p.jobs, Job, Prefix(p.name) + ".", p.Owner())
  }

  function PublishedBinding(p: Package, event: string): Binding {
    Binding(MessageOf(p, event).model, Some(MessageOf(p, event).schema), p.Owner())
  }

  function PublishClaims(p: Package, identify: string -> string): seq<Claim> {
    FlatMap(p.publishes, (event: string) => EventClaims(event, PublishedBinding(p, event), identify))
  }

  function PackageClaims(p: Package, identify: string -> string): seq<Claim> {
    NameClaims(p) + PublishClaims(p, identify)
  }

  function AllPackageClaims(packages: seq<Package>, identify: string -> string): seq<Claim> {
    FlatMap(packages, (p: Package) => PackageClaims(p, identify))
  }

  /** The claims made before any package's own names. */
  function OpeningClaims(s: Specs): seq<Claim> {
    DeclClaims(s.core, Setting, "", CoreOwner) + FlatMap(s.manifests, ManifestClaims)
    + SharedEventClaims(s) + CapabilityClaims(s.packages)
  }

  function AllClaims(s: Specs): seq<Claim> {
    OpeningClaims(s) + AllPackageClaims(s.packages, s.identify)
  }

  /** Who provides a capability among the services: the last one that offers it. */
  function Providers(manifests: seq<Manifest>): map<Key, string> {
    if manifests == [] then map[]
    else
      var last := manifests[|manifests| - 1];
      Providers(manifests[..|manifests| - 1]) + Offered(last.offers, last.service)
  }

  function Offered(offers: seq<string>, service: string): map<Key, string> {
    map c | c in offers :: Key(Capability, c) := service
  }

  /** The capabilities the services provide. */
  function Given(s: Specs): set<Key> {
    Providers(s.manifests).Keys
  }

  function PublicationsOf(p: Package): seq<Publication> {
    FlatMap(p.publishes, (event: string) => [PublicationOf(p, event)])
  }

  function PublicationOf(p: Package, event: string): Publication {
    Publication(p.Owner(), MessageOf(p, event).model, MessageOf(p, event).schema)
  }

  function AllPublications(packages: seq<Package>): seq<Publication> {
    FlatMap(packages, PublicationsOf)
  }

  function UsesOf(p: Package): seq<Use> {
    FlatMap(p.consumes, (event: string) => [Use(p.Owner(), event, MessageOf(p, event))])
  }

  function AllUses(packages: seq<Package>): seq<Use> {
    FlatMap(packages, UsesOf)
  }

  function NeedsOf(p: Package): seq<string> {
    p.needs
  }

  function AllNeeds(packages: seq<Package>): seq<string> {
    FlatMap(packages, NeedsOf)
  }

  // ------------------------------------------------------------------ when they agree

  ghost predicate Claimed(claims: seq<Claim>, k: Key) {
    exists i :: 0 <= i < |claims| && claims[i].key == k
  }

  /** No name is claimed twice, or claimed and given. */
  ghost predicate Distinct(given: set<Key>, claims: seq<Claim>) {
    && (forall i :: 0 <= i < |claims| ==> claims[i].key !in given)
    && (forall i, j :: 0 <= i < j < |claims| ==> claims[i].key != claims[j].key)
  }

  ghost predicate Provided(s: Specs, capability: string) {
    Key(Capability, capability) in Given(s) || Claimed(CapabilityClaims(s.packages), Key(Capability, capability))
  }

  ghost predicate AllProvided(s: Specs, needs: seq<string>) {
    forall i :: 0 <= i < |needs| ==> Provided(s, needs[i])
  }

  /** The same owner and, as Python compares it, the same schema. */
  predicate Repeats(a: Publication, b: Publication) {
    a.owner == b.owner && SameSchema(a.schema, b.schema)
  }

  /** A message model has one owner and one schema. */
  ghost predicate ModelsAgree(shared: map<string, Schema>, pubs: seq<Publication>) {
    && (forall i :: 0 <= i < |pubs| ==> pubs[i].model !in shared)
    && (forall x, y :: x in pubs && y in pubs && x.model == y.model ==> Repeats(x, y))
  }

  /** The declared schema without a title that only repeats the model's name. */
  function Comparable(b: Binding): Schema {
    var schema := if b.schema.Some? then b.schema.value else map[];
    if "title" in schema && schema["title"] == Python.Text(b.model) then schema - {"title"} else schema
  }

  predicate Matches(b: Binding, m: Message) {
    b.model == m.model && SameSchema(Comparable(b), m.schema)
  }

  /** The event is published, with the message that is expected of it. */
  ghost predicate Bound(claims: seq<Claim>, u: Use) {
    exists i :: 0 <= i < |claims| && claims[i].key == Key(Event, u.event) && claims[i].payload.Binds?
                && Matches(claims[i].payload.binding, u.message)
  }

  ghost predicate AllBound(claims: seq<Claim>, uses: seq<Use>) {
    forall i :: 0 <= i < |uses| ==> Bound(claims, uses[i])
  }

  /** What the merge demands of core, services and packages together. */
  ghost predicate Consistent(s: Specs) {
    && Distinct(Given(s), AllClaims(s))
    && AllProvided(s, AllNeeds(s.packages))
    && ModelsAgree(s.models, AllPublications(s.packages))
    && AllBound(AllClaims(s), AllUses(s.packages))
  }

  // ------------------------------------------------------------- order does not matter

  lemma {:induction false} FlatMapPermutes<S, T>(a: seq<S>, b: seq<S>, f: S -> seq<T>)
    requires multiset(a) == multiset(b)
    ensures multiset(FlatMap(a, f)) == multiset(FlatMap(b, f))
    decreases |a|
  {
    assert |a| == |multiset(a)| == |multiset(b)| == |b|;
    if a != [] {
      var last := a[|a| - 1];
      assert last in multiset(b);
      var k :| 0 <= k < |b| && b[k] == last;
      Sorting.DroppedMultiset(a, |a| - 1);
      Sorting.DroppedMultiset(b, k);
      FlatMapWithout(a, |a| - 1, f);
      FlatMapWithout(b, k, f);
      FlatMapPermutes(Sorting.Dropped(a, |a| - 1), Sorting.Dropped(b, k), f);
    }
  }

  lemma FlatMapLast<S, T>(front: seq<S>, last: S, f: S -> seq<T>)
    ensures FlatMap(front + [last], f) == FlatMap(front, f) + f(last)
  {
    assert (front + [last])[..|front|] == front;
  }

  lemma {:induction false} FlatMapWithout<S, T>(b: seq<S>, k: nat, f: S -> seq<T>)
    requires k < |b|
    ensures multiset(FlatMap(b, f)) == multiset(FlatMap(Sorting.Dropped(b, k), f)) + multiset(f(b[k]))
    decreases |b|
  {
    var n := |b| - 1;
    var front, last := b[..n], b[n];
    assert b == front + [last];
    FlatMapLast(front, last, f);
    if k == n {
      assert Sorting.Dropped(b, k) == front;
    } else {
      assert Sorting.Dropped(b, k) == Sorting.Dropped(front, k) + [last];
      hide FlatMap, Sorting.Dropped;
      FlatMapWithout(front, k, f);
      FlatMapLast(Sorting.Dropped(front, k), last, f);
    }
  }

  lemma DistinctPermutes(given: set<Key>, a: seq<Claim>, b: seq<Claim>)
    requires multiset(a) == multiset(b) && Distinct(given, a)
    ensures Distinct(given, b)
  {
    forall i | 0 <= i < |b| ensures b[i].key !in given {
      assert b[i] in multiset(a);
    }
    forall i, j | 0 <= i < j < |b| ensures b[i].key != b[j].key {
      assert b[i] in multiset(a) && b[j] in multiset(a);
      var p :| 0 <= p < |a| && a[p] == b[i];
      var q :| 0 <= q < |a| && a[q] == b[j];
      if b[i] == b[j] {
        Sorting.TwiceInOne(b, i, j);
        Sorting.MultiplicityGivesPositions(a, b[i]);
      }
    }
  }

  lemma SameMembers<T>(a: seq<T>, b: seq<T>, x: T)
    requires multiset(a) == multiset(b) && x in a
    ensures x in b
  {
    assert x in multiset(b);
  }

  lemma ModelsAgreePermutes(shared: map<string, Schema>, a: seq<Publication>, b: seq<Publication>)
    requires multiset(a) == multiset(b) && ModelsAgree(shared, a)
    ensures ModelsAgree(shared, b)
  {
    hide Repeats;
    forall x | x in b ensures x in a {
      SameMembers(b, a, x);
    }
  }

  lemma BoundPermutes(a: seq<Claim>, b: seq<Claim>, u: Use)
    requires multiset(a) == multiset(b) && Bound(a, u)
    ensures Bound(b, u)
  {
    var i :| 0 <= i < |a| && a[i].key == Key(Event, u.event) && a[i].payload.Binds?
      && Matches(a[i].payload.binding, u.message);
    SameMembers(a, b, a[i]);
    var j :| 0 <= j < |b| && b[j] == a[i];
  }

  lemma ClaimedPermutes(a: seq<Claim>, b: seq<Claim>, k: Key)
    requires multiset(a) == multiset(b) && Claimed(a, k)
    ensures Claimed(b, k)
  {
    var i :| 0 <= i < |a| && a[i].key == k;
    SameMembers(a, b, a[i]);
    var j :| 0 <= j < |b| && b[j] == a[i];
  }

  lemma ClaimsPermute(s: Specs, packages: seq<Package>)
    requires multiset(packages) == multiset(s.packages)
    ensures multiset(AllClaims(s)) == multiset(AllClaims(s.(packages := packages)))
    ensures multiset(CapabilityClaims(s.packages)) == multiset(CapabilityClaims(packages))
  {
    var t := s.(packages := packages);
    FlatMapPermutes(s.packages, packages, CapabilityClaimsOf);
    FlatMapPermutes(s.packages, packages, (p: Package) => PackageClaims(p, s.identify));
    assert SharedEventClaims(t) == SharedEventClaims(s) by {
      SharedClaimsIgnorePackages(s, packages, s.events);
    }
  }

  lemma {:induction false} SharedClaimsIgnorePackages(s: Specs, packages: seq<Package>, events: seq<SharedEvent>)
    ensures var t := s.(packages := packages);
            FlatMap(events, (e: SharedEvent) => EventClaims(e.name, SharedBinding(t, e), t.identify))
            == FlatMap(events, (e: SharedEvent) => EventClaims(e.name, SharedBinding(s, e), s.identify))
  {
    if events != [] {
      SharedClaimsIgnorePackages(s, packages, events[..|events| - 1]);
    }
  }

  /** The order of the packages does not matter. */
  lemma OrderDoesNotMatter(s: Specs, packages: seq<Package>)
    requires multiset(packages) == multiset(s.packages) && Consistent(s)
    ensures Consistent(s.(packages := packages))
  {
    var t := s.(packages := packages);
    ClaimsPermute(s, packages);
    DistinctPermutes(Given(s), AllClaims(s), AllClaims(t));
    FlatMapPermutes(s.packages, packages, NeedsOf);
    FlatMapPermutes(s.packages, packages, PublicationsOf);
    FlatMapPermutes(s.packages, packages, UsesOf);
    ModelsAgreePermutes(s.models, AllPublications(s.packages), AllPublications(packages));
    var needs, uses := AllNeeds(packages), AllUses(packages);
    forall i | 0 <= i < |needs| ensures Provided(t, needs[i]) {
      SameMembers(needs, AllNeeds(s.packages), needs[i]);
      assert Provided(s, needs[i]);
      if Key(Capability, needs[i]) !in Given(s) {
        ClaimedPermutes(CapabilityClaims(s.packages), CapabilityClaims(packages), Key(Capability, needs[i]));
      }
    }
    forall i | 0 <= i < |uses| ensures Bound(AllClaims(t), uses[i]) {
      SameMembers(uses, AllUses(s.packages), uses[i]);
      assert Bound(AllClaims(s), uses[i]);
      BoundPermutes(AllClaims(s), AllClaims(t), uses[i]);
    }
  }

  // ------------------------------------------------------------- what the merge records

  ghost predicate HasPayload(claims: seq<Claim>, k: Key, payload: Payload) {
    exists i :: 0 <= i < |claims| && claims[i].key == k && claims[i].payload == payload
  }

  /** The owners of the names: the given ones and the claimed ones, each with its claimer. */
  ghost predicate OwnersRecord(given: map<Key, string>, claims: seq<Claim>, owners: map<Key, string>) {
    && (forall k :: k in owners <==> k in given || Claimed(claims, k))
    && (forall k :: k in given ==> owners[k] == given[k])
    && (Distinct(given.Keys, claims) ==>
          forall i :: 0 <= i < |claims| ==> claims[i].key in owners && owners[claims[i].key] == claims[i].owner)
  }

  /** Exactly the declared schemas. */
  ghost predicate SchemasRecord(claims: seq<Claim>, schemas: map<Key, Schema>) {
    forall k, x :: k in schemas && schemas[k] == x <==> HasPayload(claims, k, Schemas(x))
  }

  /** Exactly the declared event bindings. */
  ghost predicate BindingsRecord(claims: seq<Claim>, bindings: map<string, Binding>) {
    forall name, b :: name in bindings && bindings[name] == b <==> HasPayload(claims, Key(Event, name), Binds(b))
  }

  function EventSpecs(claims: seq<Claim>): seq<EventSpec> {
    FlatMap(claims, (c: Claim) => if c.payload.Binds? then [EventSpec(c.key.name, c.payload.binding.model)] else [])
  }

  function TimersOf(p: Package): seq<(string, int)> {
    FlatMap(p.timers, (t: Timer) => [(Qualified(p, t.job), t.every)])
  }

  ghost predicate TimersRecord(entries: seq<(string, int)>, timers: map<string, int>) {
    && (forall name :: name in timers ==> (name, timers[name]) in entries)
    && (forall i :: 0 <= i < |entries| ==> entries[i].0 in timers)
  }

  /** The first publication of a model has this schema. */
  ghost predicate FirstPublishes(pubs: seq<Publication>, model: string, schema: Schema) {
    exists i :: 0 <= i < |pubs| && pubs[i].model == model && pubs[i].schema == schema && !Publishes(pubs[..i], model)
  }

  /** The models' owners, as long as the publications agree, and of each published model the
      schema it was first published with. */
  ghost predicate ModelsRecord(shared: map<string, Schema>, pubs: seq<Publication>,
                               owners: map<string, string>, models: map<string, Schema>) {
    && (forall m :: m in shared ==> m in owners && owners[m] == SharedModels)
    && (forall i :: 0 <= i < |pubs| ==>
          pubs[i].model in owners && owners[pubs[i].model] == pubs[i].owner && pubs[i].model in models)
    && (forall m :: m in owners ==> m in shared || Publishes(pubs, m))
    && (forall m :: m in models ==> FirstPublishes(pubs, m, models[m]))
  }

  ghost predicate Publishes(pubs: seq<Publication>, model: string) {
    exists i :: 0 <= i < |pubs| && pubs[i].model == model
  }

  lemma FlatMapStep<S, T>(items: seq<S>, f: S -> seq<T>, i: nat)
    requires i < |items|
    ensures FlatMap(items[..i + 1], f) == FlatMap(items[..i], f) + f(items[i])
  {
    assert items[..i + 1][..i] == items[..i];
  }

  lemma FlatMapWhole<S, T>(items: seq<S>, f: S -> seq<T>)
    ensures FlatMap(items[..|items|], f) == FlatMap(items, f) && FlatMap(items[..0], f) == []
  {
    assert items[..|items|] == items;
  }

  lemma ClaimedAppend(claims: seq<Claim>, c: Claim, k: Key)
    ensures Claimed(claims + [c], k) <==> Claimed(claims, k) || c.key == k
  {
    var all := claims + [c];
    if Claimed(claims, k) {
      var i :| 0 <= i < |claims| && claims[i].key == k;
      assert all[i] == claims[i];
    }
    if c.key == k {
      assert all[|claims|] == c;
    }
  }

  lemma PayloadAppend(claims: seq<Claim>, c: Claim, k: Key, payload: Payload)
    ensures HasPayload(claims + [c], k, payload)
            <==> HasPayload(claims, k, payload) || (c.key == k && c.payload == payload)
  {
    var all := claims + [c];
    if HasPayload(claims, k, payload) {
      var i :| 0 <= i < |claims| && claims[i].key == k && claims[i].payload == payload;
      assert all[i] == claims[i];
    }
    if c.key == k && c.payload == payload {
      assert all[|claims|] == c;
    }
  }

  lemma DistinctAppend(given: set<Key>, claims: seq<Claim>, c: Claim)
    ensures Distinct(given, claims + [c]) <==> Distinct(given, claims) && c.key !in given && !Claimed(claims, c.key)
  {
    var all := claims + [c];
    assert all[|claims|] == c && forall i :: 0 <= i < |claims| ==> all[i] == claims[i];
    if Distinct(given, all) {
      assert forall i, j :: 0 <= i < j < |claims| ==> all[i].key != all[j].key;
    }
  }

  lemma OwnersStep(given: map<Key, string>, claims: seq<Claim>, owners: map<Key, string>, c: Claim)
    requires OwnersRecord(given, claims, owners)
    ensures OwnersRecord(given, claims + [c], if c.key in owners then owners else owners[c.key := c.owner])
    ensures Distinct(given.Keys, claims + [c]) <==> Distinct(given.Keys, claims) && c.key !in owners
  {
    DistinctAppend(given.Keys, claims, c);
    forall k ensures Claimed(claims + [c], k) <==> Claimed(claims, k) || c.key == k {
      ClaimedAppend(claims, c, k);
    }
    forall i | 0 <= i < |claims| ensures Claimed(claims, claims[i].key) {
    }
  }

  lemma SchemasStep(claims: seq<Claim>, schemas: map<Key, Schema>, c: Claim)
    requires SchemasRecord(claims, schemas) && !Claimed(claims, c.key)
    ensures SchemasRecord(claims + [c], if c.payload.Schemas? then schemas[c.key := c.payload.schema] else schemas)
  {
    var next := if c.payload.Schemas? then schemas[c.key := c.payload.schema] else schemas;
    forall k, x ensures k in next && next[k] == x <==> HasPayload(claims + [c], k, Schemas(x)) {
      PayloadAppend(claims, c, k, Schemas(x));
    }
  }

  lemma BindingsStep(claims: seq<Claim>, bindings: map<string, Binding>, c: Claim)
    requires BindingsRecord(claims, bindings) && !Claimed(claims, c.key)
             && (c.payload.Binds? ==> c.key.registry == Event)
    ensures BindingsRecord(claims + [c],
                           if c.payload.Binds? then bindings[c.key.name := c.payload.binding] else bindings)
  {
    var next := if c.payload.Binds? then bindings[c.key.name := c.payload.binding] else bindings;
    forall name, b ensures name in next && next[name] == b <==> HasPayload(claims + [c], Key(Event, name), Binds(b)) {
      PayloadAppend(claims, c, Key(Event, name), Binds(b));
    }
  }

  /** Everything the claims so far have left behind. */
  ghost predicate Records(given: map<Key, string>, claims: seq<Claim>, owners: map<Key, string>,
                          schemas: map<Key, Schema>, bindings: map<string, Binding>, events: seq<EventSpec>) {
    && OwnersRecord(given, claims, owners)
    && (Distinct(given.Keys, claims) ==>
          SchemasRecord(claims, schemas) && BindingsRecord(claims, bindings) && events == EventSpecs(claims))
  }

  /** A claim that is taken, and what comes with it. */
  lemma RecordsStep(given: map<Key, string>, claims: seq<Claim>, owners: map<Key, string>, schemas: map<Key, Schema>,
                    bindings: map<string, Binding>, events: seq<EventSpec>, c: Claim)
    requires Records(given, claims, owners, schemas, bindings, events) && c.key !in owners
    requires c.payload.Binds? ==> c.key.registry == Event
    ensures Records(given, claims + [c], owners[c.key := c.owner],
                    if c.payload.Schemas? then schemas[c.key := c.payload.schema] else schemas,
                    if c.payload.Binds? then bindings[c.key.name := c.payload.binding] else bindings,
                    if c.payload.Binds? then events + [EventSpec(c.key.name, c.payload.binding.model)] else events)
  {
    OwnersStep(given, claims, owners, c);
    if Distinct(given.Keys, claims + [c]) {
      SchemasStep(claims, schemas, c);
      BindingsStep(claims, bindings, c);
    }
  }

  /** A claim that is refused changes nothing that is recorded, whatever is bound after it. */
  lemma RefusalStep(given: map<Key, string>, claims: seq<Claim>, owners: map<Key, string>, schemas: map<Key, Schema>,
                    bindings: map<string, Binding>, events: seq<EventSpec>, c: Claim, later: map<string, Binding>)
    requires Records(given, claims, owners, schemas, bindings, events) && c.key in owners
    ensures Records(given, claims + [c], owners, schemas, later, events)
    ensures !Distinct(given.Keys, claims + [c])
  {
    OwnersStep(given, claims, owners, c);
  }

  lemma RepeatsIsReflexive(x: Publication)
    ensures Repeats(x, x)
  {
    SameSchemaIsReflexive(x.schema);
  }

  lemma RepeatsIsSymmetric(x: Publication, y: Publication)
    requires Repeats(x, y)
    ensures Repeats(y, x)
  {
    SameSchemaIsSymmetric(x.schema, y.schema);
  }

  lemma ModelsAgreeAppend(shared: map<string, Schema>, pubs: seq<Publication>, x: Publication)
    ensures ModelsAgree(shared, pubs + [x]) <==>
              ModelsAgree(shared, pubs) && x.model !in shared
              && forall y :: y in pubs && y.model == x.model ==> Repeats(y, x)
  {
    hide Repeats;
    var all := pubs + [x];
    assert all[|pubs|] == x && forall i :: 0 <= i < |pubs| ==> all[i] == pubs[i];
    assert forall y :: y in all <==> y in pubs || y == x;
    RepeatsIsReflexive(x);
    forall y | y in pubs && Repeats(y, x) ensures Repeats(x, y) {
      RepeatsIsSymmetric(y, x);
    }
  }

  datatype Error =
    | Clash(key: Key, previous: string, owner: string)
    | Unprovided(owner: string, capability: string)
    | ModelClash(model: string, previous: string, owner: string)
    | ModelConflict(model: string, owner: string)
    | Unpublished(consumer: string, event: string)
    | Mismatch(consumer: string, event: string)

  /** What has been looked at so far is in order. */
  ghost predicate InOrder(s: Specs, claims: seq<Claim>, needs: seq<string>, pubs: seq<Publication>, uses: seq<Use>) {
    && Distinct(Given(s), claims)
    && AllProvided(s, needs)
    && ModelsAgree(s.models, pubs)
    && AllBound(claims, uses)
  }

  class Merger {
    const specs: Specs
    var owners: map<Key, string>
    var errors: seq<Error>
    var schemas: map<Key, Schema>
    var timers: map<string, int>
    var events: seq<EventSpec>
    var bindings: map<string, Binding>
    var modelOwners: map<string, string>
    var packageModels: map<string, Schema>

    ghost var claims: seq<Claim>
    ghost var needs: seq<string>
    ghost var pubs: seq<Publication>
    ghost var uses: seq<Use>

    ghost predicate Inv()
      reads this
    {
      && Records(Providers(specs.manifests), claims, owners, schemas, bindings, events)
      && (ModelsAgree(specs.models, pubs) ==> ModelsRecord(specs.models, pubs, modelOwners, packageModels))
      && (errors == [] <==> InOrder(specs, claims, needs, pubs, uses))
    }

    ghost predicate CapabilitiesSettled()
      reads this
    {
      forall c :: Key(Capability, c) in owners <==> Provided(specs, c)
    }

    /** `_claim_name` */
    method ClaimName(key: Key, owner: string, ghost payload: Payload) returns (ok: bool)
      modifies `owners, `errors, `claims
      ensures claims == old(claims) + [Claim(key, owner, payload)]
      ensures ok == (key !in old(owners))
      ensures owners == if ok then old(owners)[key := owner] else old(owners)
      ensures errors == if ok then old(errors) else old(errors) + [Clash(key, old(owners)[key], owner)]
    {
      ok := key !in owners;
      if ok {
        owners := owners[key := owner];
      } else {
        errors := errors + [Clash(key, owners[key], owner)];
      }
      claims := claims + [Claim(key, owner, payload)];
    }

    /** A claim without more to it. */
    method ClaimOnly(key: Key, owner: string)
      requires Inv() && uses == []
      modifies `owners, `errors, `claims
      ensures Inv()
      ensures claims == old(claims) + [Claim(key, owner, Nothing)]
      ensures owners.Keys == old(owners).Keys + {key}
    {
      hide Records, InOrder, ModelsAgree, ModelsRecord, Providers;
      ghost var c := Claim(key, owner, Nothing);
      ClaimKeepsInv(specs, claims, needs, pubs, owners, schemas, bindings, events, c, bindings);
      var ok := ClaimName(key, owner, Nothing);
    }

    /** The loop over the names of a settings or jobs schema. */
    method MergeDecls(decls: seq<Decl>, registry: Registry, prefix: string, owner: string)
      requires Inv() && uses == [] && registry in {Setting, Job}
      modifies `owners, `errors, `claims, `schemas
      ensures Inv()
      ensures claims == old(claims) + DeclClaims(decls, registry, prefix, owner)
      ensures forall c :: Key(Capability, c) in owners <==> Key(Capability, c) in old(owners)
    {
      hide Records, InOrder, ModelsAgree, ModelsRecord, Providers, FlatMap;
      ghost var f := (d: Decl) => [DeclClaim(d, registry, prefix, owner)];
      FlatMapWhole(decls, f);
      for i := 0 to |decls|
        invariant Inv()
        invariant claims == old(claims) + FlatMap(decls[..i], f)
        invariant forall c :: Key(Capability, c) in owners <==> Key(Capability, c) in old(owners)
      {
        FlatMapStep(decls, f, i);
        assert f(decls[i]) == [DeclClaim(decls[i], registry, prefix, owner)];
        ghost var c := DeclClaim(decls[i], registry, prefix, owner);
        var key := Key(registry, prefix + decls[i].name);
        ClaimKeepsInv(specs, claims, needs, pubs, owners, schemas, bindings, events, c, bindings);
        var ok := ClaimName(key, owner, Schemas(decls[i].schema));
        if ok {
          schemas := schemas[key := decls[i].schema];
        }
      }
    }

    /** The two claims of an event and, for a shared one, its binding: a repeated shared name is
        bound again. */
    method MergeEvent(name: string, b: Binding, shared: bool)
      requires Inv() && uses == []
      modifies `owners, `errors, `claims, `bindings, `events
      ensures Inv()
      ensures claims == old(claims) + EventClaims(name, b, specs.identify)
      ensures forall c :: Key(Capability, c) in owners <==> Key(Capability, c) in old(owners)
    {
      hide Records, InOrder, ModelsAgree, ModelsRecord, Providers;
      ghost var c := Claim(Key(Event, name), b.declarer, Binds(b));
      ClaimKeepsInv(specs, claims, needs, pubs, owners, schemas, bindings, events, c,
                    if shared then bindings[name := b] else bindings);
      var ok := ClaimName(Key(Event, name), b.declarer, Binds(b));
      if ok {
        events := events + [EventSpec(name, b.model)];
      }
      if ok || shared {
        bindings := bindings[name := b];
      }
      assert Inv();
      ClaimOnly(Key(EventIdentifier, specs.identify(name)), b.declarer + " event " + name);
      assert EventClaims(name, b, specs.identify)
             == [Claim(Key(Event, name), b.declarer, Binds(b))]
                + [Claim(Key(EventIdentifier, specs.identify(name)), b.declarer + " event " + name, Nothing)];
    }

    constructor (specs: Specs, given: map<Key, string>)
      requires given == Providers(specs.manifests)
      ensures this.specs == specs && Inv() && owners == given && owners.Keys == Given(specs)
      ensures errors == [] && claims == [] && needs == [] && pubs == [] && uses == [] && timers == map[]
    {
      this.specs, owners, errors, schemas, timers := specs, given, [], map[], map[];
      events, bindings, modelOwners := [], map[], map m | m in specs.models :: SharedModels;
      packageModels := map[];
      claims, needs, pubs, uses := [], [], [], [];
      new;
      NothingMerged(specs);
      hide Records, InOrder, ModelsRecord, ModelsAgree, Providers;
    }

    method MergeManifests()
      requires Inv() && uses == []
      modifies `owners, `errors, `claims, `schemas
      ensures Inv()
      ensures claims == old(claims) + FlatMap(specs.manifests, ManifestClaims)
      ensures forall c :: Key(Capability, c) in owners <==> Key(Capability, c) in old(owners)
    {
      hide Records, InOrder, ModelsAgree, ModelsRecord, Providers, DeclClaims, Inv, FlatMap;
      FlatMapWhole(specs.manifests, ManifestClaims);
      for i := 0 to |specs.manifests|
        invariant Inv()
        invariant claims == old(claims) + FlatMap(specs.manifests[..i], ManifestClaims)
        invariant forall c :: Key(Capability, c) in owners <==> Key(Capability, c) in old(owners)
      {
        FlatMapStep(specs.manifests, ManifestClaims, i);
        var m := specs.manifests[i];
        MergeDecls(m.settings, Setting, "", m.service);
        MergeDecls(m.jobs, Job, "", m.service);
      }
    }

    method MergeSharedEvents()
      requires Inv() && uses == []
      modifies `owners, `errors, `claims, `bindings, `events
      ensures Inv()
      ensures claims == old(claims) + SharedEventClaims(specs)
      ensures forall c :: Key(Capability, c) in owners <==> Key(Capability, c) in old(owners)
    {
      hide Records, InOrder, ModelsAgree, ModelsRecord, Providers, EventClaims, SharedBinding, Inv, FlatMap;
      ghost var f := (e: SharedEvent) => EventClaims(e.name, SharedBinding(specs, e), specs.identify);
      FlatMapWhole(specs.events, f);
      for i := 0 to |specs.events|
        invariant Inv()
        invariant claims == old(claims) + FlatMap(specs.events[..i], f)
        invariant forall c :: Key(Capability, c) in owners <==> Key(Capability, c) in old(owners)
      {
        FlatMapStep(specs.events, f, i);
        MergeEvent(specs.events[i].name, SharedBinding(specs, specs.events[i]), true);
      }
    }

    method MergeCapabilitiesOf(p: Package)
      requires Inv() && uses == []
      modifies `owners, `errors, `claims
      ensures Inv()
      ensures claims == old(claims) + CapabilityClaimsOf(p)
      ensures forall k :: k in owners <==> k in old(owners) || Claimed(CapabilityClaimsOf(p), k)
    {
      hide Records, InOrder, ModelsAgree, ModelsRecord, Providers, FlatMap;
      ghost var f := (c: string) => [Claim(Key(Capability, c), p.Owner(), Nothing)];
      FlatMapWhole(p.offers, f);
      for i := 0 to |p.offers|
        invariant Inv()
        invariant claims == old(claims) + FlatMap(p.offers[..i], f)
        invariant forall k :: k in owners <==> k in old(owners) || Claimed(FlatMap(p.offers[..i], f), k)
      {
        FlatMapStep(p.offers, f, i);
        ghost var c := Claim(Key(Capability, p.offers[i]), p.Owner(), Nothing);
        forall k
          ensures Claimed(FlatMap(p.offers[..i], f) + [c], k) <==> Claimed(FlatMap(p.offers[..i], f), k) || c.key == k
        {
          ClaimedAppend(FlatMap(p.offers[..i], f), c, k);
        }
        ClaimOnly(Key(Capability, p.offers[i]), p.Owner());
      }
    }

    method MergeCapabilities()
      requires Inv() && uses == []
      requires forall c :: Key(Capability, c) in owners <==> Key(Capability, c) in Given(specs)
      modifies `owners, `errors, `claims
      ensures Inv()
      ensures claims == old(claims) + CapabilityClaims(specs.packages)
      ensures CapabilitiesSettled()
    {
      hide Records, InOrder, ModelsAgree, ModelsRecord, Providers, CapabilityClaimsOf, Inv, FlatMap;
      var packages := specs.packages;
      FlatMapWhole(packages, CapabilityClaimsOf);
      for i := 0 to |packages|
        invariant Inv()
        invariant claims == old(claims) + FlatMap(packages[..i], CapabilityClaimsOf)
        invariant forall c :: Key(Capability, c) in owners <==>
                    Key(Capability, c) in Given(specs)
                      || Claimed(FlatMap(packages[..i], CapabilityClaimsOf), Key(Capability, c))
      {
        FlatMapStep(packages, CapabilityClaimsOf, i);
        forall k
          ensures Claimed(FlatMap(packages[..i + 1], CapabilityClaimsOf), k) <==>
                    || Claimed(FlatMap(packages[..i], CapabilityClaimsOf), k)
                    || Claimed(CapabilityClaimsOf(packages[i]), k)
        {
          ClaimedConcat(FlatMap(packages[..i], CapabilityClaimsOf), CapabilityClaimsOf(packages[i]), k);
        }
        MergeCapabilitiesOf(packages[i]);
      }
    }

    /** Every capability a package needs must be provided by a service or a package. */
    method CheckNeeds(p: Package)
      requires Inv() && uses == [] && CapabilitiesSettled()
      modifies `errors, `needs
      ensures Inv()
      ensures needs == old(needs) + p.needs
    {
      hide Records, ModelsAgree, ModelsRecord, Providers, Provided;
      for i := 0 to |p.needs|
        invariant Inv()
        invariant needs == old(needs) + p.needs[..i]
      {
        NeedsAppend(specs, needs, p.needs[i]);
        if Key(Capability, p.needs[i]) !in owners {
          errors := errors + [Unprovided(p.Owner(), p.needs[i])];
        }
        needs := needs + [p.needs[i]];
      }
      assert p.needs[..|p.needs|] == p.needs;
    }

    /** The timers of a package whose jobs have become its own. */
    method MergeTimers(p: Package, ghost entries: seq<(string, int)>)
      requires Inv() && p.Valid()
      requires Distinct(Given(specs), claims) ==> TimersRecord(entries, timers)
      requires forall i :: 0 <= i < |p.jobs| ==> DeclClaim(p.jobs[i], Job, Prefix(p.name) + ".", p.Owner()) in claims
      modifies `timers
      ensures Distinct(Given(specs), claims) ==> TimersRecord(entries + TimersOf(p), timers)
    {
      hide ModelsAgree, ModelsRecord, Providers, InOrder, OwnersRecord, SchemasRecord, BindingsRecord, EventSpecs,
        Distinct, TimersRecord, FlatMap, Prefix, Package.Valid;
      ghost var f := (t: Timer) => [(Qualified(p, t.job), t.every)];
      FlatMapWhole(p.timers, f);
      assert entries + [] == entries;
      for i := 0 to |p.timers|
        invariant Distinct(Given(specs), claims) ==> TimersRecord(entries + FlatMap(p.timers[..i], f), timers)
      {
        var t := p.timers[i];
        var name := Qualified(p, t.job);
        ghost var before := entries + FlatMap(p.timers[..i], f);
        FlatMapStep(p.timers, f, i);
        TimersAppend(before, timers, name, t.every);
        OwnJobIsOwned(p, claims, owners, Providers(specs.manifests), i);
        assert entries + (FlatMap(p.timers[..i], f) + [(name, t.every)]) == before + [(name, t.every)];
        if Key(Job, name) in owners && owners[Key(Job, name)] == p.Owner() {
          timers := timers[name := t.every];
        }
      }
    }

    /** `_merge_package_names` */
    method MergePackageNames(p: Package, ghost entries: seq<(string, int)>)
      requires Inv() && uses == [] && CapabilitiesSettled() && p.Valid()
      requires Distinct(Given(specs), claims) ==> TimersRecord(entries, timers)
      modifies `owners, `errors, `claims, `schemas, `timers, `needs
      ensures Inv() && CapabilitiesSettled()
      ensures claims == old(claims) + NameClaims(p)
      ensures needs == old(needs) + p.needs
      ensures Distinct(Given(specs), claims) ==> TimersRecord(entries + TimersOf(p), timers)
    {
      hide Records, InOrder, ModelsAgree, ModelsRecord, Providers, DeclClaims, Distinct, TimersRecord, Provided;
      ghost var start := claims;
      if p.database.Some? {
        ClaimOnly(Key(DatabaseSchema, p.database.value), p.Owner());
      }
      CheckNeeds(p);
      MergeDecls(p.settings, Setting, Prefix(p.name) + ".", p.Owner());
      MergeDecls(p.jobs, Job, Prefix(p.name) + ".", p.Owner());
      assert claims == start + NameClaims(p);
      DistinctPrefix(Given(specs), start, NameClaims(p));
      JobsAreClaimed(p, start);
      MergeTimers(p, entries);
    }

    /** The model of a published event: one owner, one schema. */
    method PublishModel(x: Publication)
      requires Inv() && uses == [] && x.owner != SharedModels
      modifies `errors, `pubs, `modelOwners, `packageModels
      ensures Inv()
      ensures pubs == old(pubs) + [x]
    {
      hide Records, Distinct, AllProvided, Providers, ModelsAgree, ModelsRecord;
      ModelsAgreeShrinks(specs.models, pubs, x);
      if ModelsAgree(specs.models, pubs) {
        if x.model in modelOwners {
          KnownModel(specs.models, pubs, modelOwners, packageModels, x);
        } else {
          NewModel(specs.models, pubs, modelOwners, packageModels, x);
        }
      }
      if x.model in modelOwners && modelOwners[x.model] != x.owner {
        errors := errors + [ModelClash(x.model, modelOwners[x.model], x.owner)];
      } else if x.model !in modelOwners {
        modelOwners := modelOwners[x.model := x.owner];
        packageModels := packageModels[x.model := x.schema];
      } else if x.model !in packageModels || !SameSchema(packageModels[x.model], x.schema) {
        errors := errors + [ModelConflict(x.model, x.owner)];
      }
      pubs := pubs + [x];
    }

    /** One published event. */
    method MergePackageEvent(p: Package, event: string)
      requires Inv() && uses == [] && CapabilitiesSettled()
      modifies `owners, `errors, `claims, `bindings, `events, `pubs, `modelOwners, `packageModels
      ensures Inv() && CapabilitiesSettled()
      ensures claims == old(claims) + EventClaims(event, PublishedBinding(p, event), specs.identify)
      ensures pubs == old(pubs) + [PublicationOf(p, event)]
    {
      hide Records, InOrder, ModelsAgree, ModelsRecord, Providers, EventClaims, Provided, PublishedBinding;
      PackageOwner(p);
      MergeEvent(event, PublishedBinding(p, event), false);
      PublishModel(PublicationOf(p, event));
    }

    /** `_merge_package_events` */
    method MergePackageEvents(p: Package)
      requires Inv() && uses == [] && CapabilitiesSettled()
      modifies `owners, `errors, `claims, `bindings, `events, `pubs, `modelOwners, `packageModels
      ensures Inv() && CapabilitiesSettled()
      ensures claims == old(claims) + PublishClaims(p, specs.identify)
      ensures pubs == old(pubs) + PublicationsOf(p)
    {
      hide Records, InOrder, ModelsAgree, ModelsRecord, Providers, EventClaims, Provided, PublishedBinding,
        PublicationOf, Inv, CapabilitiesSettled, FlatMap;
      ghost var f := (event: string) => EventClaims(event, PublishedBinding(p, event), specs.identify);
      ghost var g := (event: string) => [PublicationOf(p, event)];
      FlatMapWhole(p.publishes, f);
      FlatMapWhole(p.publishes, g);
      for i := 0 to |p.publishes|
        invariant Inv() && CapabilitiesSettled()
        invariant claims == old(claims) + FlatMap(p.publishes[..i], f)
        invariant pubs == old(pubs) + FlatMap(p.publishes[..i], g)
      {
        FlatMapStep(p.publishes, f, i);
        FlatMapStep(p.publishes, g, i);
        MergePackageEvent(p, p.publishes[i]);
      }
    }

    /** The consumers of one package. */
    method ValidateConsumersOf(p: Package)
      requires Inv()
      modifies `errors, `uses
      ensures Inv()
      ensures uses == old(uses) + UsesOf(p)
    {
      hide Records, InOrder, ModelsAgree, ModelsRecord, Providers, FlatMap, Matches;
      ghost var f := (event: string) => [Use(p.Owner(), event, MessageOf(p, event))];
      FlatMapWhole(p.consumes, f);
      for i := 0 to |p.consumes|
        invariant Inv()
        invariant uses == old(uses) + FlatMap(p.consumes[..i], f)
      {
        FlatMapStep(p.consumes, f, i);
        var event := p.consumes[i];
        ghost var u := Use(p.Owner(), event, MessageOf(p, event));
        BindingsDecideUse(specs, claims, needs, pubs, uses, owners, schemas, bindings, events, u);
        if event !in bindings {
          errors := errors + [Unpublished(p.Owner(), event)];
        } else if !Matches(bindings[event], MessageOf(p, event)) {
          errors := errors + [Mismatch(p.Owner(), event)];
        }
        uses := uses + [u];
      }
    }

    /** Everything before the packages' own names. */
    method Open()
      requires Inv() && claims == [] && uses == [] && owners.Keys == Given(specs)
      modifies `owners, `errors, `claims, `schemas, `bindings, `events
      ensures Inv() && CapabilitiesSettled()
      ensures claims == OpeningClaims(specs)
    {
      hide Records, InOrder, ModelsAgree, ModelsRecord, Providers, Provided, DeclClaims, SharedEventClaims,
        CapabilityClaims, ManifestClaims, Inv;
      MergeDecls(specs.core, Setting, "", CoreOwner);
      MergeManifests();
      MergeSharedEvents();
      MergeCapabilities();
      assert [] + DeclClaims(specs.core, Setting, "", CoreOwner) == DeclClaims(specs.core, Setting, "", CoreOwner);
    }

    /** The two passes over one package. */
    method MergePackage(p: Package, ghost entries: seq<(string, int)>)
      requires Inv() && uses == [] && CapabilitiesSettled() && p.Valid()
      requires Distinct(Given(specs), claims) ==> TimersRecord(entries, timers)
      modifies `owners, `errors, `claims, `schemas, `timers, `needs, `bindings, `events, `pubs, `modelOwners,
        `packageModels
      ensures Inv() && CapabilitiesSettled()
      ensures claims == old(claims) + PackageClaims(p, specs.identify)
      ensures needs == old(needs) + NeedsOf(p) && pubs == old(pubs) + PublicationsOf(p)
      ensures Distinct(Given(specs), claims) ==> TimersRecord(entries + TimersOf(p), timers)
    {
      hide Records, InOrder, ModelsAgree, ModelsRecord, Providers, Provided, Distinct, TimersRecord, NameClaims,
        PublishClaims, Inv;
      MergePackageNames(p, entries);
      DistinctPrefix(Given(specs), claims, PublishClaims(p, specs.identify));
      MergePackageEvents(p);
      assert claims == old(claims) + (NameClaims(p) + PublishClaims(p, specs.identify));
    }

    method MergePackages()
      requires specs.Valid() && Inv() && uses == [] && CapabilitiesSettled()
      requires claims == OpeningClaims(specs) && needs == [] && pubs == [] && timers == map[]
      modifies `owners, `errors, `claims, `schemas, `timers, `needs, `bindings, `events, `pubs, `modelOwners,
        `packageModels
      ensures Inv()
      ensures claims == AllClaims(specs) && needs == AllNeeds(specs.packages) && pubs == AllPublications(specs.packages)
      ensures Distinct(Given(specs), claims) ==> TimersRecord(FlatMap(specs.packages, TimersOf), timers)
    {
      hide Records, InOrder, ModelsAgree, ModelsRecord, Providers, Provided, Distinct, TimersRecord, PackageClaims,
        OpeningClaims, TimersOf, PublicationsOf, NeedsOf, CapabilitiesSettled, Inv, FlatMap;
      var packages := specs.packages;
      ghost var f := (p: Package) => PackageClaims(p, specs.identify);
      FlatMapWhole(packages, f);
      FlatMapWhole(packages, NeedsOf);
      FlatMapWhole(packages, PublicationsOf);
      FlatMapWhole(packages, TimersOf);
      NoTimers();
      for i := 0 to |packages|
        invariant Inv() && uses == [] && CapabilitiesSettled()
        invariant claims == OpeningClaims(specs) + FlatMap(packages[..i], f)
        invariant needs == FlatMap(packages[..i], NeedsOf)
        invariant pubs == FlatMap(packages[..i], PublicationsOf)
        invariant Distinct(Given(specs), claims) ==> TimersRecord(FlatMap(packages[..i], TimersOf), timers)
      {
        FlatMapStep(packages, f, i);
        FlatMapStep(packages, NeedsOf, i);
        FlatMapStep(packages, PublicationsOf, i);
        FlatMapStep(packages, TimersOf, i);
        MergePackage(packages[i], FlatMap(packages[..i], TimersOf));
      }
    }

    /** `_validate_package_event_consumers` */
    method ValidateConsumers()
      requires Inv() && uses == []
      modifies `errors, `uses
      ensures Inv()
      ensures uses == AllUses(specs.packages)
    {
      hide Records, InOrder, ModelsAgree, ModelsRecord, Providers, UsesOf, Inv;
      FlatMapWhole(specs.packages, UsesOf);
      for i := 0 to |specs.packages|
        invariant Inv()
        invariant uses == FlatMap(specs.packages[..i], UsesOf)
      {
        FlatMapStep(specs.packages, UsesOf, i);
        ValidateConsumersOf(specs.packages[i]);
      }
    }

    /** `_validate_and_merge_packages` on a fresh merger: the error list is empty exactly when
        the declarations are consistent, and then the registries, schemas, bindings, events,
        timers and models are exactly what is declared. */
    method Merge()
      requires specs.Valid() && Inv() && timers == map[]
      requires claims == [] && needs == [] && pubs == [] && uses == [] && owners.Keys == Given(specs)
      modifies this
      ensures errors == [] <==> Consistent(specs)
      ensures errors == [] ==>
                && SchemasRecord(AllClaims(specs), schemas)
                && OwnersRecord(Providers(specs.manifests), AllClaims(specs), owners)
                && BindingsRecord(AllClaims(specs), bindings)
                && events == EventSpecs(AllClaims(specs))
                && TimersRecord(FlatMap(specs.packages, TimersOf), timers)
                && ModelsRecord(specs.models, AllPublications(specs.packages), modelOwners, packageModels)
    {
      hide Records, InOrder, ModelsAgree, ModelsRecord, Providers, Distinct, TimersRecord, AllClaims, OpeningClaims,
        AllNeeds, AllPublications, AllUses, Consistent, OwnersRecord, SchemasRecord, BindingsRecord,
        CapabilitiesSettled, EventSpecs;
      Open();
      MergePackages();
      ValidateConsumers();
      OrderMeansConsistent(specs);
      if errors == [] {
        RecordsMean(specs, owners, schemas, bindings, events);
      }
    }
  }

  lemma NothingMerged(s: Specs)
    ensures Records(Providers(s.manifests), [], Providers(s.manifests), map[], map[], [])
    ensures ModelsRecord(s.models, [], map m | m in s.models :: SharedModels, map[])
    ensures InOrder(s, [], [], [], [])
  {
    hide Providers, Repeats, FlatMap;
    NothingBound();
    assert forall k :: !Claimed([], k);
  }

  lemma NothingBound()
    ensures SchemasRecord([], map[]) && BindingsRecord([], map[]) && EventSpecs([]) == []
  {
  }

  /** `capability_owners` from the services: the last one to provide a capability is kept. */
  method ServiceCapabilities(s: Specs) returns (owners: map<Key, string>)
    ensures owners == Providers(s.manifests)
  {
    hide Offered;
    owners := map[];
    for i := 0 to |s.manifests|
      invariant owners == Providers(s.manifests[..i])
    {
      var m := s.manifests[i];
      ghost var before := owners;
      NoOffers(m.service);
      for j := 0 to |m.offers|
        invariant owners == before + Offered(m.offers[..j], m.service)
      {
        OneMoreOffer(m.offers, m.service, j);
        owners := owners[Key(Capability, m.offers[j]) := m.service];
      }
      assert m.offers[..|m.offers|] == m.offers;
      assert s.manifests[..i + 1][..i] == s.manifests[..i];
    }
    assert s.manifests[..|s.manifests|] == s.manifests;
  }

  lemma NoOffers(service: string)
    ensures Offered([], service) == map[]
  {
  }

  lemma OneMoreOffer(offers: seq<string>, service: string, j: nat)
    requires j < |offers|
    ensures Offered(offers[..j + 1], service) == Offered(offers[..j], service)[Key(Capability, offers[j]) := service]
  {
    var before, after := Offered(offers[..j], service), Offered(offers[..j + 1], service);
    assert offers[..j + 1] == offers[..j] + [offers[j]];
    forall k ensures k in after <==> k in before || k == Key(Capability, offers[j]) {
      assert k in before <==> k.registry == Capability && k.name in offers[..j];
      assert k in after <==> k.registry == Capability && k.name in offers[..j + 1];
    }
  }

  /** The whole merge of a set of specs. */
  method ValidateAndMerge(specs: Specs) returns (merger: Merger)
    requires specs.Valid()
    ensures fresh(merger) && merger.specs == specs
    ensures merger.errors == [] <==> Consistent(specs)
    ensures merger.errors == [] ==>
              && SchemasRecord(AllClaims(specs), merger.schemas)
              && OwnersRecord(Providers(specs.manifests), AllClaims(specs), merger.owners)
              && BindingsRecord(AllClaims(specs), merger.bindings)
              && merger.events == EventSpecs(AllClaims(specs))
              && TimersRecord(FlatMap(specs.packages, TimersOf), merger.timers)
              && ModelsRecord(specs.models, AllPublications(specs.packages), merger.modelOwners, merger.packageModels)
  {
    hide *;
    var given := ServiceCapabilities(specs);
    merger := new Merger(specs, given);
    merger.Merge();
  }

  /** One more claim keeps the records and the tally, whether it is taken or refused. */
  lemma ClaimKeepsInv(s: Specs, claims: seq<Claim>, needs: seq<string>, pubs: seq<Publication>,
                      owners: map<Key, string>, schemas: map<Key, Schema>, bindings: map<string, Binding>,
                      events: seq<EventSpec>, c: Claim, later: map<string, Binding>)
    requires Records(Providers(s.manifests), claims, owners, schemas, bindings, events)
    requires c.payload.Binds? ==> c.key.registry == Event
    ensures c.key !in owners ==>
              && Records(Providers(s.manifests), claims + [c], owners[c.key := c.owner],
                         if c.payload.Schemas? then schemas[c.key := c.payload.schema] else schemas,
                         if c.payload.Binds? then bindings[c.key.name := c.payload.binding] else bindings,
                         if c.payload.Binds? then events + [EventSpec(c.key.name, c.payload.binding.model)] else events)
    ensures c.key in owners ==> Records(Providers(s.manifests), claims + [c], owners, schemas, later, events)
    ensures InOrder(s, claims + [c], needs, pubs, []) <==> InOrder(s, claims, needs, pubs, []) && c.key !in owners
  {
    hide Records;
    assert OwnersRecord(Providers(s.manifests), claims, owners) by {
      RecordsOwners(Providers(s.manifests), claims, owners, schemas, bindings, events);
    }
    OwnersStep(Providers(s.manifests), claims, owners, c);
    if c.key in owners {
      RefusalStep(Providers(s.manifests), claims, owners, schemas, bindings, events, c, later);
    } else {
      RecordsStep(Providers(s.manifests), claims, owners, schemas, bindings, events, c);
    }
  }

  lemma RecordsOwners(given: map<Key, string>, claims: seq<Claim>, owners: map<Key, string>, schemas: map<Key, Schema>,
                      bindings: map<string, Binding>, events: seq<EventSpec>)
    requires Records(given, claims, owners, schemas, bindings, events)
    ensures OwnersRecord(given, claims, owners)
  {
  }

  lemma ClaimedConcat(a: seq<Claim>, b: seq<Claim>, k: Key)
    ensures Claimed(a + b, k) <==> Claimed(a, k) || Claimed(b, k)
  {
    var all := a + b;
    if Claimed(a, k) {
      var i :| 0 <= i < |a| && a[i].key == k;
      assert all[i] == a[i];
    }
    if Claimed(b, k) {
      var i :| 0 <= i < |b| && b[i].key == k;
      assert all[|a| + i] == b[i];
    }
  }

  lemma NeedsAppend(s: Specs, needs: seq<string>, n: string)
    ensures AllProvided(s, needs + [n]) <==> AllProvided(s, needs) && Provided(s, n)
  {
    var all := needs + [n];
    assert all[|needs|] == n && forall i :: 0 <= i < |needs| ==> all[i] == needs[i];
  }

  lemma UsesAppend(claims: seq<Claim>, uses: seq<Use>, u: Use)
    ensures AllBound(claims, uses + [u]) <==> AllBound(claims, uses) && Bound(claims, u)
  {
    var all := uses + [u];
    assert all[|uses|] == u && forall i :: 0 <= i < |uses| ==> all[i] == uses[i];
  }

  lemma BoundByRecord(given: set<Key>, claims: seq<Claim>, bindings: map<string, Binding>, u: Use)
    requires BindingsRecord(claims, bindings)
    ensures Bound(claims, u) ==> u.event in bindings
    ensures u.event in bindings && Matches(bindings[u.event], u.message) ==> Bound(claims, u)
    ensures Bound(claims, u) && Distinct(given, claims) ==> u.event in bindings && Matches(bindings[u.event], u.message)
  {
    if Bound(claims, u) {
      var i :| 0 <= i < |claims| && claims[i].key == Key(Event, u.event) && claims[i].payload.Binds?
               && Matches(claims[i].payload.binding, u.message);
      assert HasPayload(claims, Key(Event, u.event), Binds(claims[i].payload.binding));
    }
    if u.event in bindings {
      assert HasPayload(claims, Key(Event, u.event), Binds(bindings[u.event]));
    }
  }

  /** Whether one more consumed event is in order can be seen from the recorded bindings. */
  lemma BindingsDecideUse(s: Specs, claims: seq<Claim>, needs: seq<string>, pubs: seq<Publication>, uses: seq<Use>,
                          owners: map<Key, string>, schemas: map<Key, Schema>, bindings: map<string, Binding>,
                          events: seq<EventSpec>, u: Use)
    requires Records(Providers(s.manifests), claims, owners, schemas, bindings, events)
    ensures InOrder(s, claims, needs, pubs, uses + [u]) <==>
              InOrder(s, claims, needs, pubs, uses) && u.event in bindings && Matches(bindings[u.event], u.message)
  {
    hide ModelsAgree, OwnersRecord, SchemasRecord, EventSpecs, AllProvided, Providers, AllBound, Matches;
    UsesAppend(claims, uses, u);
    if Distinct(Given(s), claims) {
      BoundByRecord(Given(s), claims, bindings, u);
    }
  }

  lemma DistinctPrefix(given: set<Key>, a: seq<Claim>, b: seq<Claim>)
    ensures Distinct(given, a + b) ==> Distinct(given, a)
  {
    if Distinct(given, a + b) {
      assert forall i :: 0 <= i < |a| ==> (a + b)[i] == a[i];
    }
  }

  lemma {:induction false} FlatMapHas<S, T>(items: seq<S>, f: S -> seq<T>, i: nat, x: T)
    requires i < |items| && x in f(items[i])
    ensures x in FlatMap(items, f)
  {
    if i < |items| - 1 {
      FlatMapHas(items[..|items| - 1], f, i, x);
    }
  }

  lemma JobsAreClaimed(p: Package, start: seq<Claim>)
    ensures forall i :: 0 <= i < |p.jobs| ==>
            DeclClaim(p.jobs[i], Job, Prefix(p.name) + ".", p.Owner()) in start + NameClaims(p)
  {
    forall i | 0 <= i < |p.jobs|
      ensures DeclClaim(p.jobs[i], Job, Prefix(p.name) + ".", p.Owner()) in start + NameClaims(p)
    {
      FlatMapHas(p.jobs, (d: Decl) => [DeclClaim(d, Job, Prefix(p.name) + ".", p.Owner())], i,
                 DeclClaim(p.jobs[i], Job, Prefix(p.name) + ".", p.Owner()));
    }
  }

  /** Once its names are taken, the job of a package's timer is the package's own. */
  lemma OwnJobIsOwned(p: Package, claims: seq<Claim>, owners: map<Key, string>, given: map<Key, string>, i: nat)
    requires p.Valid() && OwnersRecord(given, claims, owners) && i < |p.timers|
    requires forall j :: 0 <= j < |p.jobs| ==> DeclClaim(p.jobs[j], Job, Prefix(p.name) + ".", p.Owner()) in claims
    ensures var k := Key(Job, Qualified(p, p.timers[i].job));
            Distinct(given.Keys, claims) ==> k in owners && owners[k] == p.Owner()
  {
    hide Distinct, Prefix;
    assert p.HasJob(p.timers[i].job);
    var j :| 0 <= j < |p.jobs| && p.jobs[j].name == p.timers[i].job;
    var c := DeclClaim(p.jobs[j], Job, Prefix(p.name) + ".", p.Owner());
    assert c in claims && c.key == Key(Job, Qualified(p, p.timers[i].job));
  }

  lemma TimersAppend(entries: seq<(string, int)>, timers: map<string, int>, name: string, every: int)
    ensures TimersRecord(entries, timers) ==> TimersRecord(entries + [(name, every)], timers[name := every])
  {
    var all, next := entries + [(name, every)], timers[name := every];
    assert all[|entries|] == (name, every);
    if TimersRecord(entries, timers) {
      forall n | n in next ensures (n, next[n]) in all {
        if n != name {
          assert (n, timers[n]) in entries;
        }
      }
    }
  }

  lemma NoTimers()
    ensures TimersRecord([], map[])
  {
  }

  lemma PackageOwner(p: Package)
    ensures p.Owner() != SharedModels
  {
    assert p.Owner()[0] == 'p' && SharedModels[0] == 's';
  }

  lemma ModelsAgreeShrinks(shared: map<string, Schema>, pubs: seq<Publication>, x: Publication)
    ensures ModelsAgree(shared, pubs + [x]) ==> ModelsAgree(shared, pubs)
  {
    ModelsAgreeAppend(shared, pubs, x);
  }

  lemma PublishesAppend(pubs: seq<Publication>, x: Publication, model: string)
    ensures Publishes(pubs + [x], model) <==> Publishes(pubs, model) || x.model == model
  {
    var all := pubs + [x];
    if i :| 0 <= i < |pubs| && pubs[i].model == model {
      assert all[i].model == model;
    }
    if x.model == model {
      assert all[|pubs|].model == model;
    }
  }

  lemma FirstPublishesAppend(pubs: seq<Publication>, x: Publication, model: string, schema: Schema)
    ensures FirstPublishes(pubs, model, schema) ==> FirstPublishes(pubs + [x], model, schema)
    ensures !Publishes(pubs, x.model) ==> FirstPublishes(pubs + [x], x.model, x.schema)
  {
    var all := pubs + [x];
    if i :| 0 <= i < |pubs| && pubs[i].model == model && pubs[i].schema == schema && !Publishes(pubs[..i], model) {
      assert all[i] == pubs[i] && all[..i] == pubs[..i];
    }
    assert all[|pubs|] == x && all[..|pubs|] == pubs;
  }

  lemma PublishedIsRecorded(shared: map<string, Schema>, pubs: seq<Publication>, owners: map<string, string>,
                            models: map<string, Schema>, model: string)
    requires ModelsRecord(shared, pubs, owners, models) && Publishes(pubs, model)
    ensures model in owners && model in models
  {
  }

  /** A model without an owner yet. */
  lemma NewModel(shared: map<string, Schema>, pubs: seq<Publication>, owners: map<string, string>,
                 models: map<string, Schema>, x: Publication)
    requires ModelsRecord(shared, pubs, owners, models) && x.model !in owners
    ensures ModelsRecord(shared, pubs + [x], owners[x.model := x.owner], models[x.model := x.schema])
    ensures ModelsAgree(shared, pubs) ==> ModelsAgree(shared, pubs + [x])
  {
    hide ModelsAgree, FirstPublishes, Publishes;
    if Publishes(pubs, x.model) {
      PublishedIsRecorded(shared, pubs, owners, models, x.model);
    }
    forall m ensures Publishes(pubs + [x], m) <==> Publishes(pubs, m) || x.model == m {
      PublishesAppend(pubs, x, m);
    }
    forall m | m in models ensures FirstPublishes(pubs + [x], m, models[m]) {
      FirstPublishesAppend(pubs, x, m, models[m]);
    }
    FirstPublishesAppend(pubs, x, x.model, x.schema);
    ModelsAgreeAppend(shared, pubs, x);
  }

  /** The recorded schema of a model repeats every publication of it. */
  lemma RecordedRepeats(shared: map<string, Schema>, pubs: seq<Publication>, owners: map<string, string>,
                        models: map<string, Schema>, y: Publication) returns (first: Publication)
    requires ModelsRecord(shared, pubs, owners, models) && ModelsAgree(shared, pubs) && y in pubs
    ensures first in pubs && first.model == y.model && first.schema == models[y.model] && Repeats(first, y)
  {
    hide Repeats;
    assert FirstPublishes(pubs, y.model, models[y.model]);
    var i :| 0 <= i < |pubs| && pubs[i].model == y.model && pubs[i].schema == models[y.model];
    first := pubs[i];
  }

  /** A publication that repeats the record keeps it. */
  lemma RepeatedModel(shared: map<string, Schema>, pubs: seq<Publication>, owners: map<string, string>,
                      models: map<string, Schema>, x: Publication)
    requires ModelsRecord(shared, pubs, owners, models) && x.model in models
    requires x.model in owners && owners[x.model] == x.owner
    ensures ModelsRecord(shared, pubs + [x], owners, models)
  {
    hide FirstPublishes;
    forall m ensures Publishes(pubs + [x], m) <==> Publishes(pubs, m) || x.model == m {
      PublishesAppend(pubs, x, m);
    }
    forall m | m in models ensures FirstPublishes(pubs + [x], m, models[m]) {
      FirstPublishesAppend(pubs, x, m, models[m]);
    }
  }

  /** Whether a publication repeats all earlier ones of its model can be seen from the record. */
  lemma RecordDecides(shared: map<string, Schema>, pubs: seq<Publication>, owners: map<string, string>,
                      models: map<string, Schema>, x: Publication)
    requires ModelsRecord(shared, pubs, owners, models) && ModelsAgree(shared, pubs) && x.model in models
    ensures forall y :: y in pubs && y.model == x.model ==>
              (Repeats(y, x) <==> y.owner == x.owner && SameSchema(models[x.model], x.schema))
  {
    hide FirstPublishes, ModelsRecord, ModelsAgree, SameSchema;
    forall y | y in pubs && y.model == x.model
      ensures Repeats(y, x) <==> y.owner == x.owner && SameSchema(models[x.model], x.schema)
    {
      var first := RecordedRepeats(shared, pubs, owners, models, y);
      RepeatsIsSymmetric(first, y);
      if Repeats(y, x) {
        SameSchemaIsTransitive(first.schema, y.schema, x.schema);
      }
      if SameSchema(models[x.model], x.schema) {
        SameSchemaIsTransitive(y.schema, first.schema, x.schema);
      }
    }
  }

  /** What the record says of a model with an owner. */
  lemma RecordOf(shared: map<string, Schema>, pubs: seq<Publication>, owners: map<string, string>,
                 models: map<string, Schema>, model: string)
    requires ModelsRecord(shared, pubs, owners, models) && ModelsAgree(shared, pubs) && model in owners
    ensures model in shared ==> owners[model] == SharedModels
    ensures model !in shared ==>
              && model in models && (forall y :: y in pubs && y.model == model ==> y.owner == owners[model])
              && exists y :: y in pubs && y.model == model
  {
    if model !in shared {
      assert Publishes(pubs, model);
      var i :| 0 <= i < |pubs| && pubs[i].model == model;
      assert pubs[i] in pubs;
    }
  }

  /** A model that has an owner: the publication repeats it, or disagrees. */
  lemma KnownModel(shared: map<string, Schema>, pubs: seq<Publication>, owners: map<string, string>,
                   models: map<string, Schema>, x: Publication)
    requires ModelsRecord(shared, pubs, owners, models) && ModelsAgree(shared, pubs)
    requires x.model in owners && x.owner != SharedModels
    ensures owners[x.model] == x.owner ==> x.model in models
    ensures owners[x.model] == x.owner && SameSchema(models[x.model], x.schema) ==>
              ModelsRecord(shared, pubs + [x], owners, models) && ModelsAgree(shared, pubs + [x])
    ensures owners[x.model] != x.owner || !SameSchema(models[x.model], x.schema) ==> !ModelsAgree(shared, pubs + [x])
  {
    hide ModelsRecord, ModelsAgree, SameSchema, Repeats;
    RecordOf(shared, pubs, owners, models, x.model);
    ModelsAgreeAppend(shared, pubs, x);
    if x.model !in shared {
      RecordDecides(shared, pubs, owners, models, x);
      if owners[x.model] == x.owner {
        RepeatedModel(shared, pubs, owners, models, x);
      }
    }
  }

  lemma OrderMeansConsistent(s: Specs)
    ensures Consistent(s) <==>
              InOrder(s, AllClaims(s), AllNeeds(s.packages), AllPublications(s.packages), AllUses(s.packages))
  {
  }

  lemma RecordsMean(s: Specs, owners: map<Key, string>, schemas: map<Key, Schema>, bindings: map<string, Binding>,
                    events: seq<EventSpec>)
    requires Records(Providers(s.manifests), AllClaims(s), owners, schemas, bindings, events) && Consistent(s)
    ensures OwnersRecord(Providers(s.manifests), AllClaims(s), owners) && SchemasRecord(AllClaims(s), schemas)
    ensures BindingsRecord(AllClaims(s), bindings) && events == EventSpecs(AllClaims(s))
    ensures Distinct(Given(s), AllClaims(s)) && ModelsAgree(s.models, AllPublications(s.packages))
  {
  }

  // --------------------------------------------------- the outcome ignores the order

  lemma PayloadPermutes(a: seq<Claim>, b: seq<Claim>, k: Key, payload: Payload)
    requires multiset(a) == multiset(b) && HasPayload(a, k, payload)
    ensures HasPayload(b, k, payload)
  {
    var i :| 0 <= i < |a| && a[i].key == k && a[i].payload == payload;
    SameMembers(a, b, a[i]);
    var j :| 0 <= j < |b| && b[j] == a[i];
  }

  lemma SchemasWithin(a: seq<Claim>, b: seq<Claim>, m: map<Key, Schema>, n: map<Key, Schema>)
    requires multiset(a) == multiset(b) && SchemasRecord(a, m) && SchemasRecord(b, n)
    ensures forall k :: k in m ==> k in n && n[k] == m[k]
  {
    forall k | k in m ensures k in n && n[k] == m[k] {
      PayloadPermutes(a, b, k, Schemas(m[k]));
    }
  }

  lemma SchemasIgnoreOrder(a: seq<Claim>, b: seq<Claim>, m: map<Key, Schema>, n: map<Key, Schema>)
    requires multiset(a) == multiset(b) && SchemasRecord(a, m) && SchemasRecord(b, n)
    ensures m == n
  {
    SchemasWithin(a, b, m, n);
    SchemasWithin(b, a, n, m);
  }

  lemma BindingsWithin(a: seq<Claim>, b: seq<Claim>, m: map<string, Binding>, n: map<string, Binding>)
    requires multiset(a) == multiset(b) && BindingsRecord(a, m) && BindingsRecord(b, n)
    ensures forall k :: k in m ==> k in n && n[k] == m[k]
  {
    forall k | k in m ensures k in n && n[k] == m[k] {
      PayloadPermutes(a, b, Key(Event, k), Binds(m[k]));
    }
  }

  lemma BindingsIgnoreOrder(a: seq<Claim>, b: seq<Claim>, m: map<string, Binding>, n: map<string, Binding>)
    requires multiset(a) == multiset(b) && BindingsRecord(a, m) && BindingsRecord(b, n)
    ensures m == n
  {
    BindingsWithin(a, b, m, n);
    BindingsWithin(b, a, n, m);
  }

  lemma {:induction false} FlatMapOnly<S, T>(items: seq<S>, f: S -> seq<T>, x: T) returns (i: nat)
    requires x in FlatMap(items, f)
    ensures i < |items| && x in f(items[i])
  {
    var n := |items| - 1;
    if x in f(items[n]) {
      i := n;
    } else {
      i := FlatMapOnly(items[..n], f, x);
    }
  }

  /** The package and the timer an entry comes from. */
  lemma TimerOrigin(packages: seq<Package>, name: string, every: int) returns (p: Package, t: Timer)
    requires (name, every) in FlatMap(packages, TimersOf)
    ensures p in packages && t in p.timers && name == Qualified(p, t.job) && every == t.every
  {
    var i := FlatMapOnly(packages, TimersOf, (name, every));
    p := packages[i];
    var j := FlatMapOnly(p.timers, (t: Timer) => [(Qualified(p, t.job), t.every)], (name, every));
    t := p.timers[j];
  }

  ghost predicate IsOwnJob(c: Claim, p: Package, t: Timer) {
    c.key == Key(Job, Qualified(p, t.job)) && c.owner == p.Owner()
  }

  lemma OwnJobOf(p: Package, t: Timer) returns (c: Claim)
    requires p.Valid() && t in p.timers
    ensures c in NameClaims(p) && IsOwnJob(c, p, t)
  {
    var j :| 0 <= j < |p.timers| && p.timers[j] == t;
    var k :| 0 <= k < |p.jobs| && p.jobs[k].name == t.job;
    JobsAreClaimed(p, []);
    assert [] + NameClaims(p) == NameClaims(p);
    c := DeclClaim(p.jobs[k], Job, Prefix(p.name) + ".", p.Owner());
  }

  /** Every timer belongs to a job its own package has claimed. */
  lemma TimerHasOwnJob(s: Specs, p: Package, t: Timer)
    requires s.Valid() && p in s.packages && t in p.timers
    ensures exists c :: c in AllClaims(s) && IsOwnJob(c, p, t)
  {
    hide NameClaims, PublishClaims, OpeningClaims, IsOwnJob, FlatMap, Package.Valid;
    var c := OwnJobOf(p, t);
    var i :| 0 <= i < |s.packages| && s.packages[i] == p;
    FlatMapHas(s.packages, (q: Package) => PackageClaims(q, s.identify), i, c);
    assert c in AllClaims(s);
  }

  lemma SamePackage(s: Specs, p: Package, q: Package)
    requires s.Valid() && p in s.packages && q in s.packages && p.Owner() == q.Owner()
    ensures p == q
  {
    assert p.name == p.Owner()[|"package:"|..] && q.name == q.Owner()[|"package:"|..];
  }

  lemma SameTimer(p: Package, t: Timer, u: Timer)
    requires p.Valid() && t in p.timers && u in p.timers && Qualified(p, t.job) == Qualified(p, u.job)
    ensures t == u
  {
    var prefix := Prefix(p.name) + ".";
    assert t.job == Qualified(p, t.job)[|prefix|..] && u.job == Qualified(p, u.job)[|prefix|..];
  }

  /** Every timer of the packages has its own job among the claims, and an owner is one package. */
  ghost predicate TimersAreOwned(claims: seq<Claim>, packages: seq<Package>) {
    && (forall p, t :: p in packages && t in p.timers ==> exists c :: c in claims && IsOwnJob(c, p, t))
    && (forall p, q :: p in packages && q in packages && p.Owner() == q.Owner() ==> p == q)
    && (forall p, t, u ::
          p in packages && t in p.timers && u in p.timers && Qualified(p, t.job) == Qualified(p, u.job) ==> t == u)
  }

  lemma ValidTimersAreOwned(s: Specs)
    requires s.Valid()
    ensures TimersAreOwned(AllClaims(s), s.packages)
  {
    hide AllClaims, IsOwnJob;
    forall p, t | p in s.packages && t in p.timers ensures exists c :: c in AllClaims(s) && IsOwnJob(c, p, t) {
      TimerHasOwnJob(s, p, t);
    }
    forall p, q | p in s.packages && q in s.packages && p.Owner() == q.Owner() ensures p == q {
      SamePackage(s, p, q);
    }
    forall p, t, u | p in s.packages && t in p.timers && u in p.timers && Qualified(p, t.job) == Qualified(p, u.job)
      ensures t == u
    {
      SameTimer(p, t, u);
    }
  }

  /** A timer's name stands for one period. */
  lemma TimersAreFunctional(given: set<Key>, claims: seq<Claim>, packages: seq<Package>, name: string, a: int, b: int)
    requires Distinct(given, claims) && TimersAreOwned(claims, packages)
    requires (name, a) in FlatMap(packages, TimersOf) && (name, b) in FlatMap(packages, TimersOf)
    ensures a == b
  {
    hide Package.Owner, Qualified, TimersOf;
    var p, t := TimerOrigin(packages, name, a);
    var q, u := TimerOrigin(packages, name, b);
    var c :| c in claims && IsOwnJob(c, p, t);
    var d :| d in claims && IsOwnJob(d, q, u);
  }

  lemma TimersIgnoreOrder(given: set<Key>, claims: seq<Claim>, a: seq<Package>, b: seq<Package>, m: map<string, int>,
                          n: map<string, int>)
    requires Distinct(given, claims) && TimersAreOwned(claims, a) && multiset(a) == multiset(b)
    requires TimersRecord(FlatMap(a, TimersOf), m) && TimersRecord(FlatMap(b, TimersOf), n)
    ensures m == n
  {
    hide TimersOf, Distinct, TimersAreOwned;
    var x, y := FlatMap(a, TimersOf), FlatMap(b, TimersOf);
    FlatMapPermutes(a, b, TimersOf);
    forall name | name in m ensures name in n && n[name] == m[name] {
      SameMembers(x, y, (name, m[name]));
      var i :| 0 <= i < |y| && y[i] == (name, m[name]);
      SameMembers(y, x, (name, n[name]));
      TimersAreFunctional(given, claims, a, name, m[name], n[name]);
    }
    forall name | name in n ensures name in m {
      SameMembers(y, x, (name, n[name]));
      var i :| 0 <= i < |x| && x[i] == (name, n[name]);
    }
  }

  lemma OwnersIgnoreOrder(given: map<Key, string>, a: seq<Claim>, b: seq<Claim>, m: map<Key, string>,
                          n: map<Key, string>)
    requires multiset(a) == multiset(b) && Distinct(given.Keys, a)
    requires OwnersRecord(given, a, m) && OwnersRecord(given, b, n)
    ensures m == n
  {
    DistinctPermutes(given.Keys, a, b);
    forall k ensures k in m <==> k in n
             ensures k in m ==> m[k] == n[k]
    {
      if Claimed(a, k) {
        ClaimedPermutes(a, b, k);
        var i :| 0 <= i < |a| && a[i].key == k;
        SameMembers(a, b, a[i]);
        var j :| 0 <= j < |b| && b[j] == a[i];
      } else if Claimed(b, k) {
        ClaimedPermutes(b, a, k);
      }
    }
  }

  lemma PublishesPermutes(a: seq<Publication>, b: seq<Publication>, model: string)
    requires multiset(a) == multiset(b) && Publishes(a, model)
    ensures Publishes(b, model)
  {
    var i :| 0 <= i < |a| && a[i].model == model;
    SameMembers(a, b, a[i]);
    var j :| 0 <= j < |b| && b[j] == a[i];
  }

  /** The first publication of a model is the first one in some package. */
  lemma {:induction false} FirstWithinPackage(packages: seq<Package>, model: string, schema: Schema)
    returns (p: Package)
    requires FirstPublishes(AllPublications(packages), model, schema)
    ensures p in packages && FirstPublishes(PublicationsOf(p), model, schema)
  {
    hide PublicationsOf;
    var pubs := AllPublications(packages);
    var i :| 0 <= i < |pubs| && pubs[i].model == model && pubs[i].schema == schema && !Publishes(pubs[..i], model);
    var n := |packages| - 1;
    var front, last := AllPublications(packages[..n]), PublicationsOf(packages[n]);
    assert pubs == front + last;
    if i < |front| {
      assert pubs[i] == front[i] && pubs[..i] == front[..i];
      p := FirstWithinPackage(packages[..n], model, schema);
    } else {
      var k := i - |front|;
      assert pubs[i] == last[k];
      forall j | 0 <= j < k ensures last[..k][j].model != model {
        assert pubs[..i][|front| + j] == last[..k][j];
      }
      p := packages[n];
    }
  }

  lemma FirstIsUnique(pubs: seq<Publication>, model: string, x: Schema, y: Schema)
    requires FirstPublishes(pubs, model, x) && FirstPublishes(pubs, model, y)
    ensures x == y
  {
    var i :| 0 <= i < |pubs| && pubs[i].model == model && pubs[i].schema == x && !Publishes(pubs[..i], model);
    var j :| 0 <= j < |pubs| && pubs[j].model == model && pubs[j].schema == y && !Publishes(pubs[..j], model);
    if i < j {
      PublishesBefore(pubs, i, j);
    } else if j < i {
      PublishesBefore(pubs, j, i);
    }
  }

  lemma PublishesBefore(pubs: seq<Publication>, i: nat, j: nat)
    requires i < j <= |pubs|
    ensures Publishes(pubs[..j], pubs[i].model)
  {
    assert pubs[..j][i] == pubs[i];
  }

  /** A package's publication of a model, among all publications. */
  lemma PublicationOfPackage(packages: seq<Package>, p: Package, model: string, schema: Schema) returns (x: Publication)
    requires p in packages && FirstPublishes(PublicationsOf(p), model, schema)
    ensures x in AllPublications(packages) && x.model == model && x.owner == p.Owner()
  {
    var own := PublicationsOf(p);
    var k :| 0 <= k < |own| && own[k].model == model;
    x := own[k];
    var i :| 0 <= i < |packages| && packages[i] == p;
    FlatMapHas(packages, PublicationsOf, i, x);
    var f := (event: string) => [PublicationOf(p, event)];
    var j := FlatMapOnly(p.publishes, f, x);
  }

  /** All publications of a model are one package's, so the order of the packages leaves the
      first of them where it was. */
  lemma FirstIgnoresOrder(s: Specs, packages: seq<Package>, model: string, x: Schema, y: Schema)
    requires s.Valid() && multiset(packages) == multiset(s.packages)
    requires ModelsAgree(s.models, AllPublications(s.packages))
    requires FirstPublishes(AllPublications(s.packages), model, x)
             && FirstPublishes(AllPublications(packages), model, y)
    ensures x == y
  {
    hide FirstPublishes, PublicationsOf, AllPublications, SameSchema, Specs.Valid, Package.Owner;
    var p := FirstWithinPackage(s.packages, model, x);
    var q := FirstWithinPackage(packages, model, y);
    SameMembers(packages, s.packages, q);
    var a := PublicationOfPackage(s.packages, p, model, x);
    var b := PublicationOfPackage(s.packages, q, model, y);
    assert Repeats(a, b);
    SamePackage(s, p, q);
    FirstIsUnique(PublicationsOf(p), model, x, y);
  }

  lemma ModelsWithin(s: Specs, packages: seq<Package>, owners: map<string, string>, owners': map<string, string>,
                     models: map<string, Schema>, models': map<string, Schema>, m: string)
    requires s.Valid() && multiset(packages) == multiset(s.packages)
    requires ModelsAgree(s.models, AllPublications(s.packages))
    requires ModelsRecord(s.models, AllPublications(s.packages), owners, models)
    requires ModelsRecord(s.models, AllPublications(packages), owners', models')
    requires Publishes(AllPublications(s.packages), m)
    ensures m in owners && m in owners' && owners[m] == owners'[m]
    ensures m in models && m in models' && models[m] == models'[m]
  {
    hide AllPublications, ModelsAgree, Specs.Valid, FirstPublishes;
    var a, b := AllPublications(s.packages), AllPublications(packages);
    PublicationsPermute(s.packages, packages);
    var i :| 0 <= i < |a| && a[i].model == m;
    SameMembers(a, b, a[i]);
    var j :| 0 <= j < |b| && b[j] == a[i];
    FirstIgnoresOrder(s, packages, m, models[m], models'[m]);
  }

  lemma FirstIsPublished(pubs: seq<Publication>, model: string, schema: Schema)
    requires FirstPublishes(pubs, model, schema)
    ensures Publishes(pubs, model)
  {
  }

  /** Nothing is recorded but shared and published models. */
  lemma RecordsOnlyPublished(shared: map<string, Schema>, pubs: seq<Publication>, owners: map<string, string>,
                             models: map<string, Schema>, m: string)
    requires ModelsRecord(shared, pubs, owners, models) && !Publishes(pubs, m)
    ensures m !in models
    ensures m in owners <==> m in shared
    ensures m in owners ==> owners[m] == SharedModels
  {
    hide FirstPublishes, Publishes;
    if m in models {
      FirstIsPublished(pubs, m, models[m]);
    }
  }

  lemma ModelsIgnoreOrder(s: Specs, packages: seq<Package>, owners: map<string, string>, owners': map<string, string>,
                          models: map<string, Schema>, models': map<string, Schema>)
    requires s.Valid() && multiset(packages) == multiset(s.packages)
    requires ModelsAgree(s.models, AllPublications(s.packages))
    requires ModelsRecord(s.models, AllPublications(s.packages), owners, models)
    requires ModelsRecord(s.models, AllPublications(packages), owners', models')
    ensures owners == owners' && models == models'
  {
    hide AllPublications, ModelsAgree, ModelsRecord, Specs.Valid, Publishes;
    var a, b := AllPublications(s.packages), AllPublications(packages);
    PublicationsPermute(s.packages, packages);
    forall m ensures m in owners <==> m in owners'
             ensures m in owners ==> owners[m] == owners'[m]
             ensures m in models <==> m in models'
             ensures m in models ==> models[m] == models'[m]
    {
      if Publishes(a, m) {
        ModelsWithin(s, packages, owners, owners', models, models', m);
      } else {
        if Publishes(b, m) {
          PublishesPermutes(b, a, m);
        }
        RecordsOnlyPublished(s.models, a, owners, models, m);
        RecordsOnlyPublished(s.models, b, owners', models', m);
      }
    }
  }

  lemma PublicationsPermute(a: seq<Package>, b: seq<Package>)
    requires multiset(a) == multiset(b)
    ensures multiset(AllPublications(a)) == multiset(AllPublications(b))
  {
    FlatMapPermutes(a, b, PublicationsOf);
  }

  /** What a merge without errors has recorded. */
  datatype Outcome = Outcome(
    owners: map<Key, string>,
    schemas: map<Key, Schema>,
    bindings: map<string, Binding>,
    timers: map<string, int>,
    modelOwners: map<string, string>,
    packageModels: map<string, Schema>)

  ghost predicate IsOutcome(s: Specs, o: Outcome) {
    && OwnersRecord(Providers(s.manifests), AllClaims(s), o.owners)
    && SchemasRecord(AllClaims(s), o.schemas)
    && BindingsRecord(AllClaims(s), o.bindings)
    && TimersRecord(FlatMap(s.packages, TimersOf), o.timers)
    && ModelsRecord(s.models, AllPublications(s.packages), o.modelOwners, o.packageModels)
  }

  /** Merging the packages in another order gives the same owners, schemas, bindings, timers
      and message models. */
  lemma OutcomeIgnoresOrder(s: Specs, packages: seq<Package>, o: Outcome, o': Outcome)
    requires s.Valid() && Consistent(s) && multiset(packages) == multiset(s.packages)
    requires IsOutcome(s, o) && IsOutcome(s.(packages := packages), o')
    ensures o == o'
  {
    hide OwnersRecord, SchemasRecord, BindingsRecord, TimersRecord, ModelsRecord, AllClaims, AllPublications, TimersOf,
      Specs.Valid, Distinct, AllProvided, AllBound, ModelsAgree, FlatMap;
    var t := s.(packages := packages);
    ClaimsPermute(s, packages);
    OwnersIgnoreOrder(Providers(s.manifests), AllClaims(s), AllClaims(t), o.owners, o'.owners);
    SchemasIgnoreOrder(AllClaims(s), AllClaims(t), o.schemas, o'.schemas);
    BindingsIgnoreOrder(AllClaims(s), AllClaims(t), o.bindings, o'.bindings);
    ValidTimersAreOwned(s);
    TimersIgnoreOrder(Given(s), AllClaims(s), s.packages, packages, o.timers, o'.timers);
    ModelsIgnoreOrder(s, packages, o.modelOwners, o'.modelOwners, o.packageModels, o'.packageModels);
  }
}
