/** Which lines of a module reach the bot application's handler registry, through any alias:
    `_ApplicationAliases` and `registry_accesses` of `framework/host_contract.py`. */
module HostContract {
  // ----------------------------------------------------------------- syntax tree

  datatype Kind = FunctionScope | ClassScope

  datatype Parameter = Parameter(name: string, annotation: seq<Node>)

  /** The syntax the analysis distinguishes. `Scope` is a function, a lambda or a class, with
      every child it has; `Other` is any other node, the module itself included. Optional
      children are sequences of at most one node. */
  datatype Node =
    | Name(line: nat, id: string)
    | Attribute(line: nat, value: Node, attr: string)
    | Subscript(line: nat, value: Node, index: Node)
    | Call(line: nat, func: Node, args: seq<Node>, keywords: seq<Node>)
    | Text(line: nat, text: string)
    | Tuple(line: nat, elements: seq<Node>)
    | Assign(line: nat, targets: seq<Node>, value: Node)
    | AnnAssign(line: nat, target: Node, annotation: Node, given: seq<Node>)
    | NamedExpr(line: nat, target: Node, value: Node)
    | WithItem(line: nat, context: Node, vars: seq<Node>)
    | Scope(line: nat, kind: Kind, parameters: seq<Parameter>, body: seq<Node>)
    | Other(line: nat, body: seq<Node>)

  function SizeAll(nodes: seq<Node>): nat
    decreases nodes
  {
    if nodes == [] then 0 else Size(nodes[0]) + SizeAll(nodes[1..])
  }

  function Size(n: Node): (r: nat)
    ensures r > 0
    decreases n
  {
    match n
    case Name(_, _) => 1
    case Text(_, _) => 1
    case Attribute(_, v, _) => 1 + Size(v)
    case Subscript(_, v, i) => 1 + Size(v) + Size(i)
    case Call(_, f, args, keywords) => 1 + Size(f) + SizeAll(args) + SizeAll(keywords)
    case Tuple(_, es) => 1 + SizeAll(es)
    case Assign(_, ts, v) => 1 + SizeAll(ts) + Size(v)
    case AnnAssign(_, t, a, v) => 1 + Size(t) + Size(a) + SizeAll(v)
    case NamedExpr(_, t, v) => 1 + Size(t) + Size(v)
    case WithItem(_, c, vs) => 1 + Size(c) + SizeAll(vs)
    case Scope(_, _, _, body) => 1 + SizeAll(body)
    case Other(_, body) => 1 + SizeAll(body)
  }

  function Children(n: Node): seq<Node> {
    match n
    case Name(_, _) => []
    case Text(_, _) => []
    case Attribute(_, v, _) => [v]
    case Subscript(_, v, i) => [v, i]
    case Call(_, f, args, keywords) => [f] + args + keywords
    case Tuple(_, es) => es
    case Assign(_, ts, v) => ts + [v]
    case AnnAssign(_, t, a, v) => [t, a] + v
    case NamedExpr(_, t, v) => [t, v]
    case WithItem(_, c, vs) => [c] + vs
    case Scope(_, _, _, body) => body
    case Other(_, body) => body
  }

  lemma {:induction false} SizeAllConcat(a: seq<Node>, b: seq<Node>)
    ensures SizeAll(a + b) == SizeAll(a) + SizeAll(b)
  {
    if a == [] {
      assert a + b == b;
    } else {
      assert (a + b)[1..] == a[1..] + b;
      SizeAllConcat(a[1..], b);
    }
  }

  lemma SizeAllOne(n: Node)
    ensures SizeAll([n]) == Size(n)
  {
    assert [n][1..] == [];
  }

  lemma ChildrenAreSmaller(n: Node)
    ensures SizeAll(Children(n)) == Size(n) - 1
  {
    match n
    case Name(_, _) =>
    case Text(_, _) =>
    case Attribute(_, v, _) => SizeAllOne(v);
    case Subscript(_, v, i) => SizeAllOne(v); SizeAllOne(i); SizeAllConcat([v], [i]);
    case Call(_, f, args, keywords) =>
      SizeAllOne(f); SizeAllConcat([f], args); SizeAllConcat([f] + args, keywords);
    case Tuple(_, _) =>
    case Assign(_, ts, v) => SizeAllOne(v); SizeAllConcat(ts, [v]);
    case AnnAssign(_, t, a, v) => SizeAllOne(t); SizeAllOne(a); SizeAllConcat([t], [a]); SizeAllConcat([t, a], v);
    case NamedExpr(_, t, v) => SizeAllOne(t); SizeAllOne(v); SizeAllConcat([t], [v]);
    case WithItem(_, c, vs) => SizeAllOne(c); SizeAllConcat([c], vs);
    case Scope(_, _, _, _) =>
    case Other(_, _) =>
  }

  lemma SizeAllLast(nodes: seq<Node>)
    requires nodes != []
    ensures SizeAll(nodes) == SizeAll(nodes[..|nodes| - 1]) + Size(nodes[|nodes| - 1])
  {
    var last := nodes[|nodes| - 1];
    assert nodes == nodes[..|nodes| - 1] + [last];
    SizeAllConcat(nodes[..|nodes| - 1], [last]);
    SizeAllOne(last);
  }

  /** The nodes below `nodes`, last first, without the insides of nested scopes. */
  function Region(nodes: seq<Node>): seq<Node>
    decreases SizeAll(nodes)
  {
    if nodes == [] then []
    else
      var last := nodes[|nodes| - 1];
      SizeAllLast(nodes);
      ChildrenAreSmaller(last);
      [last] + (if last.Scope? then [] else Region(Children(last))) + Region(nodes[..|nodes| - 1])
  }

  lemma {:induction false} RegionConcat(a: seq<Node>, b: seq<Node>)
    ensures Region(a + b) == Region(b) + Region(a)
    decreases |b|
  {
    if b == [] {
      assert a + b == a;
    } else {
      var last := b[|b| - 1];
      assert (a + b)[|a + b| - 1] == last;
      assert (a + b)[..|a + b| - 1] == a + b[..|b| - 1];
      RegionConcat(a, b[..|b| - 1]);
    }
  }

  /** Every node of a region is one of its roots or lies below one. */
  lemma {:induction false} RegionIsSmaller(nodes: seq<Node>, n: Node)
    requires n in Region(nodes)
    ensures Size(n) <= SizeAll(nodes)
    decreases SizeAll(nodes)
  {
    var last := nodes[|nodes| - 1];
    SizeAllLast(nodes);
    ChildrenAreSmaller(last);
    if n == last {
    } else if !last.Scope? && n in Region(Children(last)) {
      RegionIsSmaller(Children(last), n);
    } else {
      RegionIsSmaller(nodes[..|nodes| - 1], n);
    }
  }

  /** The nodes of one scope. */
  function ScopeNodes(scope: Node): (r: seq<Node>)
    ensures forall n :: n in r ==> Size(n) < Size(scope)
  {
    ChildrenAreSmaller(scope);
    var r := Region(Children(scope));
    assert forall n :: n in r ==> Size(n) < Size(scope) by {
      forall n | n in r ensures Size(n) < Size(scope) {
        RegionIsSmaller(Children(scope), n);
      }
    }
    r
  }

  // ---------------------------------------------------- the rules of aliasing

  const ApplicationNames := {"application", "app"}
  const ApplicationTypes := {"Application", "CoreApplication"}
  const AttributeFunctions := {"getattr", "setattr", "delattr"}

  /** `text.rpartition(".")[2]` */
  function AfterLastDot(text: string): string {
    if text == "" then ""
    else if text[|text| - 1] == '.' then ""
    else AfterLastDot(text[..|text| - 1]) + [text[|text| - 1]]
  }

  /** `text.partition("[")[0]` */
  function BeforeBracket(text: string): string {
    if text == "" || text[0] == '[' then "" else [text[0]] + BeforeBracket(text[1..])
  }

  function AnnotatesApplication(n: Node): bool {
    match n
    case Subscript(_, v, _) => AnnotatesApplication(v)
    case Text(_, text) => BeforeBracket(AfterLastDot(text)) in ApplicationTypes
    case Name(_, id) => id in ApplicationTypes
    case Attribute(_, _, attr) => attr in ApplicationTypes
    case _ => false
  }

  /** Whether an expression is the application, given its alias attributes and names. */
  predicate IsApplication(attributes: set<string>, names: set<string>, n: Node) {
    match n
    case Attribute(_, v, attr) => attr in ApplicationNames || attr in attributes || IsApplication(attributes, names, v)
    case Subscript(_, v, _) => IsApplication(attributes, names, v)
    case Call(_, f, _, _) => IsApplication(attributes, names, f)
    case Name(_, id) => id in ApplicationNames || id in names
    case _ => false
  }

  /** The items of a tuple target that stand opposite the application. */
  function UnpackedTargets(attributes: set<string>, names: set<string>, items: seq<Node>, values: seq<Node>): seq<Node>
  {
    if items == [] || values == [] then []
    else (if IsApplication(attributes, names, values[0]) then [items[0]] else [])
         + UnpackedTargets(attributes, names, items[1..], values[1..])
  }

  function AssignedTargets(attributes: set<string>, names: set<string>, targets: seq<Node>, value: Node): seq<Node> {
    if targets == [] then []
    else
      (if IsApplication(attributes, names, value) then [targets[0]]
       else if targets[0].Tuple? && value.Tuple? then
         UnpackedTargets(attributes, names, targets[0].elements, value.elements)
       else [])
      + AssignedTargets(attributes, names, targets[1..], value)
  }

  /** The targets one node binds to the application. */
  function BoundTargets(attributes: set<string>, names: set<string>, n: Node): seq<Node> {
    match n
    case Assign(_, targets, value) => AssignedTargets(attributes, names, targets, value)
    case AnnAssign(_, target, annotation, given) =>
      var bound := AnnotatesApplication(annotation) || (given != [] && IsApplication(attributes, names, given[0]));
      if bound then [target] else []
    case NamedExpr(_, target, value) => if IsApplication(attributes, names, value) then [target] else []
    case WithItem(_, context, vars) => if vars != [] && IsApplication(attributes, names, context) then [vars[0]] else []
    case _ => []
  }

  function BoundNames(attributes: set<string>, names: set<string>, nodes: seq<Node>): set<string> {
    set n, t | n in nodes && t in BoundTargets(attributes, names, n) && t.Name? :: t.id
  }

  function BoundAttributes(attributes: set<string>, names: set<string>, nodes: seq<Node>): set<string> {
    set n, t | n in nodes && t in BoundTargets(attributes, names, n) && t.Attribute? :: t.attr
  }

  function AfterParameters(parameters: seq<Parameter>, names: set<string>): set<string> {
    if parameters == [] then names
    else
      var p := parameters[0];
      var typed := p.annotation != [] && AnnotatesApplication(p.annotation[0]);
      var rest := if typed then names + {p.name} else names - {p.name};
      AfterParameters(parameters[1..], rest)
  }

  /** The names a scope starts from: what it inherits, shadowed by its parameters. */
  function Start(scope: Node, inherited: set<string>): set<string> {
    if scope.Scope? && scope.kind == FunctionScope then AfterParameters(scope.parameters, inherited) else inherited
  }

  /** What the functions of a scope see: a class body's own names are invisible to them. */
  function Visible(scope: Node, inherited: set<string>, names: set<string>): set<string> {
    if scope.Scope? && scope.kind == ClassScope then inherited else names
  }

  predicate IsRegistryAccess(attributes: set<string>, names: set<string>, n: Node) {
    match n
    case Attribute(_, v, attr) => attr == "handlers" && IsApplication(attributes, names, v)
    case Call(_, f, args, _) =>
      && f.Name? && f.id in AttributeFunctions
      && |args| >= 2 && IsApplication(attributes, names, args[0])
      && args[1].Text? && args[1].text == "handlers"
    case _ => false
  }

  function AccessLines(attributes: set<string>, names: set<string>, nodes: seq<Node>): set<nat> {
    set n | n in nodes && !n.Scope? && IsRegistryAccess(attributes, names, n) :: n.line
  }

  /** A set of facts closed under the rules: `attributes` are alias attributes, `lines` are
      registry accesses, and every scope has a set of alias names. */
  ghost predicate Solution(attributes: set<string>, lines: set<nat>, scope: Node, inherited: set<string>)
    decreases Size(scope), 1
  {
    exists names :: SolutionWith(attributes, lines, scope, inherited, names)
  }

  ghost predicate SolutionWith(attributes: set<string>, lines: set<nat>, scope: Node, inherited: set<string>,
                               names: set<string>)
    decreases Size(scope), 0
  {
    var nodes := ScopeNodes(scope);
    && Start(scope, inherited) <= names
    && BoundNames(attributes, names, nodes) <= names
    && BoundAttributes(attributes, names, nodes) <= attributes
    && AccessLines(attributes, names, nodes) <= lines
    && forall n :: n in nodes && n.Scope? ==> Solution(attributes, lines, n, Visible(scope, inherited, names))
  }

  // --------------------------------------------------------- the least solution

  /** Everything `BoundTargets` could ever yield. */
  function PossibleTargets(n: Node): seq<Node> {
    match n
    case Assign(_, targets, _) => targets + PossibleItems(targets)
    case AnnAssign(_, target, _, _) => [target]
    case NamedExpr(_, target, _) => [target]
    case WithItem(_, _, vars) => vars
    case _ => []
  }

  function PossibleItems(targets: seq<Node>): seq<Node> {
    if targets == [] then []
    else (if targets[0].Tuple? then targets[0].elements else []) + PossibleItems(targets[1..])
  }

  function PossibleNames(nodes: seq<Node>): set<string> {
    set n, t | n in nodes && t in PossibleTargets(n) && t.Name? :: t.id
  }

  function PossibleAttributes(nodes: seq<Node>): set<string> {
    set n, t | n in nodes && t in PossibleTargets(n) && t.Attribute? :: t.attr
  }

  lemma {:induction false} UnpackedTargetsArePossible(attributes: set<string>, names: set<string>, items: seq<Node>,
                                                      values: seq<Node>, t: Node)
    requires t in UnpackedTargets(attributes, names, items, values)
    ensures t in items
  {
    if t != items[0] {
      UnpackedTargetsArePossible(attributes, names, items[1..], values[1..], t);
    } else if !IsApplication(attributes, names, values[0]) {
      UnpackedTargetsArePossible(attributes, names, items[1..], values[1..], t);
    }
  }

  lemma {:induction false} AssignedTargetsArePossible(attributes: set<string>, names: set<string>, targets: seq<Node>,
                                                      value: Node, t: Node)
    requires t in AssignedTargets(attributes, names, targets, value)
    ensures t in targets + PossibleItems(targets)
  {
    if t in AssignedTargets(attributes, names, targets[1..], value) {
      AssignedTargetsArePossible(attributes, names, targets[1..], value, t);
    } else if !IsApplication(attributes, names, value) {
      UnpackedTargetsArePossible(attributes, names, targets[0].elements, value.elements, t);
    }
  }

  lemma BoundTargetsArePossible(attributes: set<string>, names: set<string>, n: Node, t: Node)
    requires t in BoundTargets(attributes, names, n)
    ensures t in PossibleTargets(n)
  {
    if n.Assign? {
      AssignedTargetsArePossible(attributes, names, n.targets, n.value, t);
    }
  }

  lemma BoundIsPossible(attributes: set<string>, names: set<string>, nodes: seq<Node>)
    ensures BoundNames(attributes, names, nodes) <= PossibleNames(nodes)
    ensures BoundAttributes(attributes, names, nodes) <= PossibleAttributes(nodes)
  {
    forall n, t | n in nodes && t in BoundTargets(attributes, names, n) ensures t in PossibleTargets(n) {
      BoundTargetsArePossible(attributes, names, n, t);
    }
  }

  lemma SubsetSize<T>(a: set<T>, b: set<T>)
    requires a <= b
    ensures |a| <= |b| && (|a| == |b| ==> a == b)
  {
    assert b == a + (b - a);
  }

  /** The least set of names above `names` that the nodes of one scope close. */
  function ClosedNames(attributes: set<string>, nodes: seq<Node>, names: set<string>): set<string>
    decreases |PossibleNames(nodes) - names|
  {
    var more := names + BoundNames(attributes, names, nodes);
    if more == names then names
    else
      BoundIsPossible(attributes, names, nodes);
      SubsetSize(PossibleNames(nodes) - more, PossibleNames(nodes) - names);
      assert PossibleNames(nodes) - more != PossibleNames(nodes) - names by {
        var x :| x in more && x !in names;
        assert x in PossibleNames(nodes) - names;
      }
      ClosedNames(attributes, nodes, more)
  }

  function Names(attributes: set<string>, scope: Node, inherited: set<string>): set<string> {
    ClosedNames(attributes, ScopeNodes(scope), Start(scope, inherited))
  }

  /** The attributes bound in a scope and in the scopes it defines. */
  function TreeAttributes(attributes: set<string>, scope: Node, inherited: set<string>): set<string>
    decreases Size(scope)
  {
    var nodes := ScopeNodes(scope);
    var names := Names(attributes, scope, inherited);
    BoundAttributes(attributes, names, nodes)
    + set n, a | n in nodes && n.Scope? && a in TreeAttributes(attributes, n, Visible(scope, inherited, names)) :: a
  }

  function TreeLines(attributes: set<string>, scope: Node, inherited: set<string>): set<nat>
    decreases Size(scope)
  {
    var nodes := ScopeNodes(scope);
    var names := Names(attributes, scope, inherited);
    AccessLines(attributes, names, nodes)
    + set n, l | n in nodes && n.Scope? && l in TreeLines(attributes, n, Visible(scope, inherited, names)) :: l
  }

  function TreePossible(scope: Node): set<string>
    decreases Size(scope)
  {
    var nodes := ScopeNodes(scope);
    PossibleAttributes(nodes) + set n, a | n in nodes && n.Scope? && a in TreePossible(n) :: a
  }

  lemma {:induction false} TreeAttributesArePossible(attributes: set<string>, scope: Node, inherited: set<string>)
    ensures TreeAttributes(attributes, scope, inherited) <= TreePossible(scope)
    decreases Size(scope)
  {
    var nodes := ScopeNodes(scope);
    var names := Names(attributes, scope, inherited);
    BoundIsPossible(attributes, names, nodes);
    forall n | n in nodes && n.Scope?
      ensures TreeAttributes(attributes, n, Visible(scope, inherited, names)) <= TreePossible(n)
    {
      TreeAttributesArePossible(attributes, n, Visible(scope, inherited, names));
    }
  }

  function ClosedAttributes(root: Node, attributes: set<string>): set<string>
    decreases |TreePossible(root) - attributes|
  {
    var more := attributes + TreeAttributes(attributes, root, {});
    if more == attributes then attributes
    else
      TreeAttributesArePossible(attributes, root, {});
      SubsetSize(TreePossible(root) - more, TreePossible(root) - attributes);
      assert TreePossible(root) - more != TreePossible(root) - attributes by {
        var x :| x in more && x !in attributes;
        assert x in TreePossible(root) - attributes;
      }
      ClosedAttributes(root, more)
  }

  function LeastAttributes(root: Node): set<string> {
    ClosedAttributes(root, {})
  }

  function LeastLines(root: Node): set<nat> {
    TreeLines(LeastAttributes(root), root, {})
  }

  // ---------------------------------------------------------------- monotonicity

  lemma {:induction false} IsApplicationGrows(a: set<string>, a': set<string>, x: set<string>, x': set<string>, n: Node)
    requires a <= a' && x <= x' && IsApplication(a, x, n)
    ensures IsApplication(a', x', n)
  {
    match n
    case Attribute(_, v, attr) =>
      if attr !in ApplicationNames && attr !in a {
        IsApplicationGrows(a, a', x, x', v);
      }
    case Subscript(_, v, _) => IsApplicationGrows(a, a', x, x', v);
    case Call(_, f, _, _) => IsApplicationGrows(a, a', x, x', f);
    case Name(_, _) =>
    case _ =>
  }

  lemma {:induction false} UnpackedTargetsGrow(a: set<string>, a': set<string>, x: set<string>, x': set<string>,
                                               items: seq<Node>, values: seq<Node>, t: Node)
    requires a <= a' && x <= x' && t in UnpackedTargets(a, x, items, values)
    ensures t in UnpackedTargets(a', x', items, values)
  {
    if IsApplication(a, x, values[0]) {
      IsApplicationGrows(a, a', x, x', values[0]);
    }
    if t in UnpackedTargets(a, x, items[1..], values[1..]) {
      UnpackedTargetsGrow(a, a', x, x', items[1..], values[1..], t);
    }
  }

  lemma {:induction false} AssignedTargetsGrow(a: set<string>, a': set<string>, x: set<string>, x': set<string>,
                                               targets: seq<Node>, value: Node, t: Node)
    requires a <= a' && x <= x' && t in AssignedTargets(a, x, targets, value)
    ensures t in AssignedTargets(a', x', targets, value)
  {
    if IsApplication(a, x, value) {
      IsApplicationGrows(a, a', x, x', value);
    } else if targets[0].Tuple? && value.Tuple? && t in UnpackedTargets(a, x, targets[0].elements, value.elements) {
      UnpackedTargetsGrow(a, a', x, x', targets[0].elements, value.elements, t);
    }
    if t in AssignedTargets(a, x, targets[1..], value) {
      AssignedTargetsGrow(a, a', x, x', targets[1..], value, t);
    }
  }

  lemma BoundTargetsGrow(a: set<string>, a': set<string>, x: set<string>, x': set<string>, n: Node, t: Node)
    requires a <= a' && x <= x' && t in BoundTargets(a, x, n)
    ensures t in BoundTargets(a', x', n)
  {
    match n
    case Assign(_, targets, value) => AssignedTargetsGrow(a, a', x, x', targets, value, t);
    case AnnAssign(_, _, annotation, given) =>
      if !AnnotatesApplication(annotation) {
        IsApplicationGrows(a, a', x, x', given[0]);
      }
    case NamedExpr(_, _, value) => IsApplicationGrows(a, a', x, x', value);
    case WithItem(_, context, _) => IsApplicationGrows(a, a', x, x', context);
    case _ =>
  }

  lemma BoundGrows(a: set<string>, a': set<string>, x: set<string>, x': set<string>, nodes: seq<Node>)
    requires a <= a' && x <= x'
    ensures BoundNames(a, x, nodes) <= BoundNames(a', x', nodes)
    ensures BoundAttributes(a, x, nodes) <= BoundAttributes(a', x', nodes)
    ensures AccessLines(a, x, nodes) <= AccessLines(a', x', nodes)
  {
    forall n, t | n in nodes && t in BoundTargets(a, x, n) ensures t in BoundTargets(a', x', n) {
      BoundTargetsGrow(a, a', x, x', n, t);
    }
    forall n | n in nodes && IsRegistryAccess(a, x, n) ensures IsRegistryAccess(a', x', n) {
      IsApplicationGrows(a, a', x, x', if n.Attribute? then n.value else n.args[0]);
    }
  }

  lemma {:induction false} AfterParametersGrows(parameters: seq<Parameter>, x: set<string>, x': set<string>)
    requires x <= x'
    ensures AfterParameters(parameters, x) <= AfterParameters(parameters, x')
  {
    if parameters != [] {
      var p := parameters[0];
      if p.annotation != [] && AnnotatesApplication(p.annotation[0]) {
        AfterParametersGrows(parameters[1..], x + {p.name}, x' + {p.name});
      } else {
        AfterParametersGrows(parameters[1..], x - {p.name}, x' - {p.name});
      }
    }
  }

  // ------------------------------------------- the closures are least closed sets

  lemma {:induction false} ClosedNamesIsClosed(a: set<string>, nodes: seq<Node>, x: set<string>)
    ensures var c := ClosedNames(a, nodes, x); x <= c && BoundNames(a, c, nodes) <= c
    decreases |PossibleNames(nodes) - x|
  {
    var more := x + BoundNames(a, x, nodes);
    if more != x {
      BoundIsPossible(a, x, nodes);
      SubsetSize(PossibleNames(nodes) - more, PossibleNames(nodes) - x);
      var y :| y in more && y !in x;
      assert y in PossibleNames(nodes) - x;
      ClosedNamesIsClosed(a, nodes, more);
    }
  }

  lemma {:induction false} ClosedNamesIsLeast(a: set<string>, a': set<string>, nodes: seq<Node>, x: set<string>,
                                              c: set<string>)
    requires a <= a' && x <= c && BoundNames(a', c, nodes) <= c
    ensures ClosedNames(a, nodes, x) <= c
    decreases |PossibleNames(nodes) - x|
  {
    var more := x + BoundNames(a, x, nodes);
    if more != x {
      BoundIsPossible(a, x, nodes);
      SubsetSize(PossibleNames(nodes) - more, PossibleNames(nodes) - x);
      var y :| y in more && y !in x;
      assert y in PossibleNames(nodes) - x;
      BoundGrows(a, a', x, c, nodes);
      ClosedNamesIsLeast(a, a', nodes, more, c);
    }
  }

  /** `Names` is the least set that contains the start of the scope and is closed. */
  lemma NamesIsLeastClosed(a: set<string>, scope: Node, inherited: set<string>)
    ensures var x := Names(a, scope, inherited);
            && Start(scope, inherited) <= x && BoundNames(a, x, ScopeNodes(scope)) <= x
            && forall c :: Start(scope, inherited) <= c && BoundNames(a, c, ScopeNodes(scope)) <= c ==> x <= c
  {
    ClosedNamesIsClosed(a, ScopeNodes(scope), Start(scope, inherited));
    forall c | Start(scope, inherited) <= c && BoundNames(a, c, ScopeNodes(scope)) <= c
      ensures Names(a, scope, inherited) <= c
    {
      ClosedNamesIsLeast(a, a, ScopeNodes(scope), Start(scope, inherited), c);
    }
  }

  lemma NamesGrow(a: set<string>, a': set<string>, scope: Node, i: set<string>, i': set<string>)
    requires a <= a' && i <= i'
    ensures Names(a, scope, i) <= Names(a', scope, i')
  {
    if scope.Scope? && scope.kind == FunctionScope {
      AfterParametersGrows(scope.parameters, i, i');
    }
    ClosedNamesIsClosed(a', ScopeNodes(scope), Start(scope, i'));
    ClosedNamesIsLeast(a, a', ScopeNodes(scope), Start(scope, i), Names(a', scope, i'));
  }

  lemma {:induction false} TreeGrows(a: set<string>, a': set<string>, scope: Node, i: set<string>, i': set<string>)
    requires a <= a' && i <= i'
    ensures TreeAttributes(a, scope, i) <= TreeAttributes(a', scope, i')
    ensures TreeLines(a, scope, i) <= TreeLines(a', scope, i')
    decreases Size(scope)
  {
    var nodes := ScopeNodes(scope);
    var x, x' := Names(a, scope, i), Names(a', scope, i');
    NamesGrow(a, a', scope, i, i');
    BoundGrows(a, a', x, x', nodes);
    forall n | n in nodes && n.Scope?
      ensures TreeAttributes(a, n, Visible(scope, i, x)) <= TreeAttributes(a', n, Visible(scope, i', x'))
      ensures TreeLines(a, n, Visible(scope, i, x)) <= TreeLines(a', n, Visible(scope, i', x'))
    {
      TreeGrows(a, a', n, Visible(scope, i, x), Visible(scope, i', x'));
    }
  }

  lemma {:induction false} ClosedAttributesIsClosed(root: Node, a: set<string>)
    ensures var c := ClosedAttributes(root, a); a <= c && TreeAttributes(c, root, {}) <= c
    decreases |TreePossible(root) - a|
  {
    var more := a + TreeAttributes(a, root, {});
    if more != a {
      TreeAttributesArePossible(a, root, {});
      SubsetSize(TreePossible(root) - more, TreePossible(root) - a);
      var y :| y in more && y !in a;
      assert y in TreePossible(root) - a;
      ClosedAttributesIsClosed(root, more);
    }
  }

  lemma {:induction false} ClosedAttributesIsLeast(root: Node, a: set<string>, c: set<string>)
    ensures a <= c && TreeAttributes(c, root, {}) <= c ==> ClosedAttributes(root, a) <= c
    decreases |TreePossible(root) - a|
  {
    var more := a + TreeAttributes(a, root, {});
    if more != a && a <= c {
      TreeAttributesArePossible(a, root, {});
      SubsetSize(TreePossible(root) - more, TreePossible(root) - a);
      var y :| y in more && y !in a;
      assert y in TreePossible(root) - a;
      TreeGrows(a, c, root, {}, {});
      ClosedAttributesIsLeast(root, more, c);
    }
  }

  lemma {:induction false} ClosedTreeIsSolution(a: set<string>, lines: set<nat>, scope: Node, i: set<string>)
    requires TreeAttributes(a, scope, i) <= a && TreeLines(a, scope, i) <= lines
    ensures Solution(a, lines, scope, i)
    decreases Size(scope)
  {
    var x := Names(a, scope, i);
    NamesIsLeastClosed(a, scope, i);
    forall n | n in ScopeNodes(scope) && n.Scope? ensures Solution(a, lines, n, Visible(scope, i, x)) {
      ClosedTreeIsSolution(a, lines, n, Visible(scope, i, x));
    }
    assert SolutionWith(a, lines, scope, i, x);
  }

  lemma {:induction false} SolutionCoversTree(a: set<string>, lines: set<nat>, scope: Node, i: set<string>,
                                              i': set<string>)
    requires Solution(a, lines, scope, i') && i <= i'
    ensures TreeAttributes(a, scope, i) <= a && TreeLines(a, scope, i) <= lines
    decreases Size(scope)
  {
    var x' :| SolutionWith(a, lines, scope, i', x');
    var x := Names(a, scope, i);
    var nodes := ScopeNodes(scope);
    if scope.Scope? && scope.kind == FunctionScope {
      AfterParametersGrows(scope.parameters, i, i');
    }
    ClosedNamesIsLeast(a, a, nodes, Start(scope, i), x');
    BoundGrows(a, a, x, x', nodes);
    forall n | n in nodes && n.Scope?
      ensures TreeAttributes(a, n, Visible(scope, i, x)) <= a && TreeLines(a, n, Visible(scope, i, x)) <= lines
    {
      SolutionCoversTree(a, lines, n, Visible(scope, i, x), Visible(scope, i', x'));
    }
  }

  /** The least attributes and lines are a solution of the rules, and every solution has them. */
  lemma LeastSolution(root: Node)
    ensures Solution(LeastAttributes(root), LeastLines(root), root, {})
    ensures forall a, lines :: Solution(a, lines, root, {}) ==> LeastAttributes(root) <= a && LeastLines(root) <= lines
  {
    ClosedAttributesIsClosed(root, {});
    ClosedTreeIsSolution(LeastAttributes(root), LeastLines(root), root, {});
    forall a, lines | Solution(a, lines, root, {}) ensures LeastAttributes(root) <= a && LeastLines(root) <= lines {
      SolutionCoversTree(a, lines, root, {}, {});
      ClosedAttributesIsLeast(root, {}, a);
      TreeGrows(LeastAttributes(root), a, root, {}, {});
    }
  }

  lemma {:induction false} ParametersForget(parameters: seq<Parameter>, x: set<string>, p: string)
    requires exists k :: 0 <= k < |parameters| && parameters[k].name == p
    ensures AfterParameters(parameters, x) == AfterParameters(parameters, x - {p})
  {
    var q := parameters[0];
    if q.name == p {
      assert x + {p} == x - {p} + {p} && x - {p} - {p} == x - {p};
    } else {
      var k :| 0 <= k < |parameters| && parameters[k].name == p;
      assert parameters[1..][k - 1] == parameters[k];
      var typed := q.annotation != [] && AnnotatesApplication(q.annotation[0]);
      var rest := if typed then x + {q.name} else x - {q.name};
      ParametersForget(parameters[1..], rest, p);
      assert rest - {p} == if typed then x - {p} + {q.name} else x - {p} - {q.name};
    }
  }

  /** A function and the scopes it defines see the enclosing names through its own only. */
  lemma NamesDecideTree(a: set<string>, scope: Node, i: set<string>, i': set<string>)
    requires scope.Scope? && scope.kind == FunctionScope && Names(a, scope, i) == Names(a, scope, i')
    ensures TreeAttributes(a, scope, i) == TreeAttributes(a, scope, i')
    ensures TreeLines(a, scope, i) == TreeLines(a, scope, i')
  {
    hide Names, BoundAttributes, AccessLines, ScopeNodes;
    var names := Names(a, scope, i);
    assert Visible(scope, i, names) == Visible(scope, i', names);
  }

  /** A parameter shadows: whatever the enclosing scopes call by its name has no effect on the
      names of its function, nor on anything found in it or in the scopes it defines, be the
      parameter typed as the application, bound to it in the body, or neither. */
  lemma ParameterShadows(a: set<string>, scope: Node, inherited: set<string>, p: string)
    requires scope.Scope? && scope.kind == FunctionScope
    requires exists k :: 0 <= k < |scope.parameters| && scope.parameters[k].name == p
    ensures Names(a, scope, inherited) == Names(a, scope, inherited - {p})
    ensures TreeAttributes(a, scope, inherited) == TreeAttributes(a, scope, inherited - {p})
    ensures TreeLines(a, scope, inherited) == TreeLines(a, scope, inherited - {p})
  {
    ParametersForget(scope.parameters, inherited, p);
    NamesDecideTree(a, scope, inherited, inherited - {p});
  }

  /** So a parameter that is not typed as the application, and that its function never binds
      to it, is no alias inside the function. */
  lemma UnboundParameterIsNoAlias(a: set<string>, scope: Node, inherited: set<string>, p: string)
    requires scope.Scope? && scope.kind == FunctionScope
    requires exists k :: 0 <= k < |scope.parameters| && scope.parameters[k].name == p
    requires forall k :: 0 <= k < |scope.parameters| && scope.parameters[k].name == p ==>
               scope.parameters[k].annotation == [] || !AnnotatesApplication(scope.parameters[k].annotation[0])
    requires p !in PossibleNames(ScopeNodes(scope))
    ensures p !in Names(a, scope, inherited)
  {
    ParametersDiscard(scope.parameters, inherited, p);
    var start := Start(scope, inherited);
    var c := start + PossibleNames(ScopeNodes(scope));
    BoundIsPossible(a, c, ScopeNodes(scope));
    ClosedNamesIsLeast(a, a, ScopeNodes(scope), start, c);
  }

  lemma {:induction false} ParametersDiscard(parameters: seq<Parameter>, x: set<string>, p: string)
    requires p !in x || exists k :: 0 <= k < |parameters| && parameters[k].name == p
    requires forall k :: 0 <= k < |parameters| && parameters[k].name == p ==>
               parameters[k].annotation == [] || !AnnotatesApplication(parameters[k].annotation[0])
    ensures p !in AfterParameters(parameters, x)
  {
    if parameters != [] {
      var q := parameters[0];
      var rest := if q.annotation != [] && AnnotatesApplication(q.annotation[0]) then x + {q.name} else x - {q.name};
      if p in rest {
        var k :| 0 <= k < |parameters| && parameters[k].name == p;
        assert k > 0 && parameters[1..][k - 1] == parameters[k];
      }
      ParametersDiscard(parameters[1..], rest, p);
    }
  }
}
