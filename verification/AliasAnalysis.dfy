/** The alias analysis as the code runs it: growing sets, a node stack and a scope worklist.
    It computes the least solution of the rules in `HostContract`. */
module AliasAnalysis {
  import opened HostContract

  /** The stack after its top has been walked. */
  function NextStack(stack: seq<Node>): seq<Node>
    requires stack != []
  {
    var top := stack[|stack| - 1];
    stack[..|stack| - 1] + if top.Scope? then [] else Children(top)
  }

  lemma RegionUnfolds(stack: seq<Node>)
    requires stack != []
    ensures var top := stack[|stack| - 1];
            Region(stack) == [top] + ((if top.Scope? then [] else Region(Children(top))) + Region(stack[..|stack| - 1]))
  {
  }

  lemma RegionStep(stack: seq<Node>)
    requires stack != []
    ensures Region(stack) == [stack[|stack| - 1]] + Region(NextStack(stack))
  {
    var top, rest := stack[|stack| - 1], stack[..|stack| - 1];
    RegionUnfolds(stack);
    RegionConcat(rest, if top.Scope? then [] else Children(top));
  }

  lemma NextStackIsSmaller(stack: seq<Node>)
    requires stack != []
    ensures SizeAll(NextStack(stack)) < SizeAll(stack)
  {
    var top, rest := stack[|stack| - 1], stack[..|stack| - 1];
    SizeAllLast(stack);
    ChildrenAreSmaller(top);
    SizeAllConcat(rest, if top.Scope? then [] else Children(top));
  }

  lemma NothingLeft()
    ensures Region([]) == []
  {
  }

  /** `_scope_nodes`: a stack walk that does not enter nested scopes. */
  method WalkScope(scope: Node) returns (nodes: seq<Node>)
    ensures nodes == ScopeNodes(scope)
  {
    hide Region, SizeAll, Children;
    var stack := Children(scope);
    nodes := [];
    NothingLeft();
    while stack != []
      invariant nodes + Region(stack) == ScopeNodes(scope)
      decreases SizeAll(stack)
    {
      RegionStep(stack);
      NextStackIsSmaller(stack);
      var node := stack[|stack| - 1];
      assert (nodes + [node]) + Region(NextStack(stack)) == nodes + ([node] + Region(NextStack(stack)));
      nodes := nodes + [node];
      stack := stack[..|stack| - 1] + if node.Scope? then [] else Children(node);
    }
  }

  function PendingSize(pending: seq<(Node, set<string>)>): nat {
    if pending == [] then 0 else Size(pending[0].0) + PendingSize(pending[1..])
  }

  lemma {:induction false} PendingSizeConcat(a: seq<(Node, set<string>)>, b: seq<(Node, set<string>)>)
    ensures PendingSize(a + b) == PendingSize(a) + PendingSize(b)
  {
    if a == [] {
      assert a + b == b;
    } else {
      assert (a + b)[1..] == a[1..] + b;
      PendingSizeConcat(a[1..], b);
    }
  }

  /** The scopes among `nodes`, each with the names it sees. */
  function NestedScopes(nodes: seq<Node>, visible: set<string>): seq<(Node, set<string>)> {
    if nodes == [] then []
    else (if nodes[0].Scope? then [(nodes[0], visible)] else []) + NestedScopes(nodes[1..], visible)
  }

  lemma {:induction false} NestedScopesConcat(a: seq<Node>, b: seq<Node>, visible: set<string>)
    ensures NestedScopes(a + b, visible) == NestedScopes(a, visible) + NestedScopes(b, visible)
  {
    if a == [] {
      assert a + b == b;
    } else {
      NestedScopesConcat(a[1..], b, visible);
      assert (a + b)[0] == a[0] && (a + b)[1..] == a[1..] + b;
      var head: seq<(Node, set<string>)> := if a[0].Scope? then [(a[0], visible)] else [];
      assert head + (NestedScopes(a[1..], visible) + NestedScopes(b, visible))
             == (head + NestedScopes(a[1..], visible)) + NestedScopes(b, visible);
    }
  }

  lemma {:induction false} NestedScopesAre(nodes: seq<Node>, visible: set<string>, n: Node, seen: set<string>)
    ensures (n, seen) in NestedScopes(nodes, visible) <==> n in nodes && n.Scope? && seen == visible
  {
    if nodes != [] {
      NestedScopesAre(nodes[1..], visible, n, seen);
      assert n in nodes <==> n == nodes[0] || n in nodes[1..];
    }
  }

  lemma {:induction false} NestedScopesAreSmaller(nodes: seq<Node>, visible: set<string>)
    ensures PendingSize(NestedScopes(Region(nodes), visible)) <= SizeAll(nodes)
    decreases SizeAll(nodes)
  {
    if nodes != [] {
      var last, rest := nodes[|nodes| - 1], nodes[..|nodes| - 1];
      SizeAllLast(nodes);
      ChildrenAreSmaller(last);
      var inner := if last.Scope? then [] else Region(Children(last));
      assert Region(nodes) == [last] + inner + Region(rest);
      NestedScopesConcat([last] + inner, Region(rest), visible);
      NestedScopesConcat([last], inner, visible);
      PendingSizeConcat(NestedScopes([last] + inner, visible), NestedScopes(Region(rest), visible));
      PendingSizeConcat(NestedScopes([last], visible), NestedScopes(inner, visible));
      NestedScopesAreSmaller(rest, visible);
      assert [last][1..] == [];
      if last.Scope? {
        assert NestedScopes([last], visible) == [(last, visible)];
        assert PendingSize([(last, visible)]) == Size(last) by {
          assert [(last, visible)][1..] == [];
        }
      } else {
        NestedScopesAreSmaller(Children(last), visible);
      }
    }
  }

  // -------------------------------------------------- what a pass still has to do

  ghost function LinesOf(a: set<string>, pending: seq<(Node, set<string>)>): set<nat> {
    set p, l | p in pending && l in TreeLines(a, p.0, p.1) :: l
  }

  ghost function AttributesOf(a: set<string>, pending: seq<(Node, set<string>)>): set<string> {
    set p, x | p in pending && x in TreeAttributes(a, p.0, p.1) :: x
  }

  lemma NestedLines(a: set<string>, nodes: seq<Node>, visible: set<string>, l: nat)
    ensures l in LinesOf(a, NestedScopes(nodes, visible))
            <==> exists n :: n in nodes && n.Scope? && l in TreeLines(a, n, visible)
  {
    var nested := NestedScopes(nodes, visible);
    if n :| n in nodes && n.Scope? && l in TreeLines(a, n, visible) {
      NestedScopesAre(nodes, visible, n, visible);
      assert (n, visible) in nested;
    }
    if l in LinesOf(a, nested) {
      var p :| p in nested && l in TreeLines(a, p.0, p.1);
      NestedScopesAre(nodes, visible, p.0, p.1);
    }
  }

  lemma NestedAttributes(a: set<string>, nodes: seq<Node>, visible: set<string>, x: string)
    ensures x in AttributesOf(a, NestedScopes(nodes, visible))
            <==> exists n :: n in nodes && n.Scope? && x in TreeAttributes(a, n, visible)
  {
    var nested := NestedScopes(nodes, visible);
    if n :| n in nodes && n.Scope? && x in TreeAttributes(a, n, visible) {
      NestedScopesAre(nodes, visible, n, visible);
      assert (n, visible) in nested;
    }
    if x in AttributesOf(a, nested) {
      var p :| p in nested && x in TreeAttributes(a, p.0, p.1);
      NestedScopesAre(nodes, visible, p.0, p.1);
    }
  }

  /** The lines of a scope are its own accesses and those of the scopes it defines. */
  lemma TreeLinesSplit(a: set<string>, scope: Node, inherited: set<string>)
    ensures var names := Names(a, scope, inherited);
            TreeLines(a, scope, inherited)
            == AccessLines(a, names, ScopeNodes(scope))
               + LinesOf(a, NestedScopes(ScopeNodes(scope), Visible(scope, inherited, names)))
  {
    var names := Names(a, scope, inherited);
    var visible := Visible(scope, inherited, names);
    forall l ensures l in LinesOf(a, NestedScopes(ScopeNodes(scope), visible))
                     <==> exists n :: n in ScopeNodes(scope) && n.Scope? && l in TreeLines(a, n, visible) {
      NestedLines(a, ScopeNodes(scope), visible, l);
    }
  }

  lemma TreeAttributesSplit(a: set<string>, scope: Node, inherited: set<string>)
    ensures var names := Names(a, scope, inherited);
            TreeAttributes(a, scope, inherited)
            == BoundAttributes(a, names, ScopeNodes(scope))
               + AttributesOf(a, NestedScopes(ScopeNodes(scope), Visible(scope, inherited, names)))
  {
    var names := Names(a, scope, inherited);
    var visible := Visible(scope, inherited, names);
    forall x ensures x in AttributesOf(a, NestedScopes(ScopeNodes(scope), visible))
                     <==> exists n :: n in ScopeNodes(scope) && n.Scope? && x in TreeAttributes(a, n, visible) {
      NestedAttributes(a, ScopeNodes(scope), visible, x);
    }
  }

  lemma LinesSplit(a: set<string>, p: seq<(Node, set<string>)>, q: seq<(Node, set<string>)>)
    ensures LinesOf(a, p + q) == LinesOf(a, p) + LinesOf(a, q)
    ensures AttributesOf(a, p + q) == AttributesOf(a, p) + AttributesOf(a, q)
  {
  }

  lemma PendingSplit(a: set<string>, rest: seq<(Node, set<string>)>, scope: Node, inherited: set<string>)
    ensures LinesOf(a, rest + [(scope, inherited)]) == LinesOf(a, rest) + TreeLines(a, scope, inherited)
    ensures AttributesOf(a, rest + [(scope, inherited)]) == AttributesOf(a, rest) + TreeAttributes(a, scope, inherited)
  {
    hide TreeLines, TreeAttributes;
    var one := [(scope, inherited)];
    LinesSplit(a, rest, one);
    assert forall p :: p in one <==> p == (scope, inherited);
    forall l ensures l in LinesOf(a, one) <==> l in TreeLines(a, scope, inherited) {
      if l in TreeLines(a, scope, inherited) {
        assert (scope, inherited) in one;
      }
    }
    forall x ensures x in AttributesOf(a, one) <==> x in TreeAttributes(a, scope, inherited) {
      if x in TreeAttributes(a, scope, inherited) {
        assert (scope, inherited) in one;
      }
    }
  }

  /** Replacing a scope by its nested scopes leaves out its own accesses and bindings. */
  lemma StepSplits(a: set<string>, rest: seq<(Node, set<string>)>, scope: Node, inherited: set<string>)
    ensures var names := Names(a, scope, inherited);
            var next := rest + NestedScopes(ScopeNodes(scope), Visible(scope, inherited, names));
            && LinesOf(a, rest + [(scope, inherited)]) == AccessLines(a, names, ScopeNodes(scope)) + LinesOf(a, next)
            && AttributesOf(a, rest + [(scope, inherited)])
                 == BoundAttributes(a, names, ScopeNodes(scope)) + AttributesOf(a, next)
  {
    hide *;
    PendingSplit(a, rest, scope, inherited);
    TreeLinesSplit(a, scope, inherited);
    TreeAttributesSplit(a, scope, inherited);
    LinesSplit(a, rest, NestedScopes(ScopeNodes(scope), Visible(scope, inherited, Names(a, scope, inherited))));
  }

  lemma NestedGrow(a: set<string>, nodes: seq<Node>, visible: set<string>, visible': set<string>)
    requires visible <= visible'
    ensures AttributesOf(a, NestedScopes(nodes, visible)) <= AttributesOf(a, NestedScopes(nodes, visible'))
  {
    forall x | x in AttributesOf(a, NestedScopes(nodes, visible))
      ensures x in AttributesOf(a, NestedScopes(nodes, visible'))
    {
      NestedAttributes(a, nodes, visible, x);
      NestedAttributes(a, nodes, visible', x);
      var n :| n in nodes && n.Scope? && x in TreeAttributes(a, n, visible);
      TreeGrows(a, a, n, visible, visible');
    }
  }

  /** Names found so far never lead outside the least attributes. */
  lemma StepStaysWithin(a: set<string>, rest: seq<(Node, set<string>)>, scope: Node, inherited: set<string>,
                        names: set<string>)
    requires AttributesOf(a, rest + [(scope, inherited)]) <= a
    requires names <= Names(a, scope, inherited)
    ensures AttributesOf(a, rest + NestedScopes(ScopeNodes(scope), Visible(scope, inherited, names))) <= a
  {
    StepSplits(a, rest, scope, inherited);
    var most := Names(a, scope, inherited);
    NestedGrow(a, ScopeNodes(scope), Visible(scope, inherited, names), Visible(scope, inherited, most));
    LinesSplit(a, rest, NestedScopes(ScopeNodes(scope), Visible(scope, inherited, names)));
    LinesSplit(a, rest, NestedScopes(ScopeNodes(scope), Visible(scope, inherited, most)));
  }

  lemma NestedPendingIsSmaller(rest: seq<(Node, set<string>)>, scope: Node, inherited: set<string>,
                               visible: set<string>)
    ensures PendingSize(rest + NestedScopes(ScopeNodes(scope), visible)) < PendingSize(rest + [(scope, inherited)])
  {
    PendingSizeConcat(rest, NestedScopes(ScopeNodes(scope), visible));
    PendingSizeConcat(rest, [(scope, inherited)]);
    assert [(scope, inherited)][1..] == [];
    NestedScopesAreSmaller(Children(scope), visible);
    ChildrenAreSmaller(scope);
  }

  // ---------------------------------------------------------- one pass of binding

  /** A pair of attributes and names that the nodes of a scope keep. */
  ghost predicate Keeps(a: set<string>, x: set<string>, nodes: seq<Node>) {
    BoundNames(a, x, nodes) <= x && BoundAttributes(a, x, nodes) <= a
  }

  /** Everything one node binds is already there. */
  ghost predicate Settled(a: set<string>, x: set<string>, n: Node) {
    forall t :: t in BoundTargets(a, x, n) ==> (t.Name? ==> t.id in x) && (t.Attribute? ==> t.attr in a)
  }

  ghost function WithNames(x: set<string>, targets: seq<Node>): set<string> {
    x + set t | t in targets && t.Name? :: t.id
  }

  ghost function WithAttributes(a: set<string>, targets: seq<Node>): set<string> {
    a + set t | t in targets && t.Attribute? :: t.attr
  }

  lemma NothingNewIsSettled(a: set<string>, x: set<string>, n: Node)
    requires WithAttributes(a, BoundTargets(a, x, n)) <= a && WithNames(x, BoundTargets(a, x, n)) <= x
    ensures Settled(a, x, n)
  {
  }

  ghost predicate AllSettled(a: set<string>, x: set<string>, nodes: seq<Node>, i: nat)
    requires i <= |nodes|
  {
    i == 0 || (AllSettled(a, x, nodes, i - 1) && Settled(a, x, nodes[i - 1]))
  }

  lemma {:induction false} SettledAt(a: set<string>, x: set<string>, nodes: seq<Node>, i: nat, j: nat)
    requires j < i <= |nodes| && AllSettled(a, x, nodes, i)
    ensures Settled(a, x, nodes[j])
  {
    hide Settled;
    if j < i - 1 {
      SettledAt(a, x, nodes, i - 1, j);
    }
  }

  lemma SettledIsClosed(a: set<string>, x: set<string>, nodes: seq<Node>)
    requires AllSettled(a, x, nodes, |nodes|)
    ensures Keeps(a, x, nodes)
  {
    forall n | n in nodes ensures Settled(a, x, n) {
      var j :| 0 <= j < |nodes| && nodes[j] == n;
      SettledAt(a, x, nodes, |nodes|, j);
    }
  }

  /** Binding one more node stays within every pair the rules keep. */
  lemma BindingStaysWithin(a: set<string>, x: set<string>, nodes: seq<Node>, i: nat, a0: set<string>, x0: set<string>)
    requires i < |nodes| && Keeps(a, x, nodes)
    requires a0 <= a && x0 <= x
    ensures var targets := BoundTargets(a0, x0, nodes[i]);
            WithAttributes(a0, targets) <= a && WithNames(x0, targets) <= x
  {
    forall t | t in BoundTargets(a0, x0, nodes[i]) ensures t in BoundTargets(a, x, nodes[i]) {
      BoundTargetsGrow(a0, a, x0, x, nodes[i], t);
    }
  }

  /** A set of attributes that already has whatever a scope binds under it. */
  ghost predicate ClosesScope(a: set<string>, start: set<string>, scope: Node, inherited: set<string>) {
    start <= a && BoundAttributes(a, Names(a, scope, inherited), ScopeNodes(scope)) <= a
  }

  /** Once a pass adds nothing, the attributes close the scope, and the names bound the least
      ones from above. */
  lemma QuietClosesScope(a: set<string>, start: set<string>, scope: Node, inherited: set<string>, names: set<string>)
    requires start <= a && Start(scope, inherited) <= names && Keeps(a, names, ScopeNodes(scope))
    ensures Names(a, scope, inherited) <= names
    ensures ClosesScope(a, start, scope, inherited)
  {
    ClosedNamesIsLeast(a, a, ScopeNodes(scope), Start(scope, inherited), names);
    BoundGrows(a, a, Names(a, scope, inherited), names, ScopeNodes(scope));
  }

  lemma ClosingKeeps(a: set<string>, start: set<string>, scope: Node, inherited: set<string>)
    requires ClosesScope(a, start, scope, inherited)
    ensures Keeps(a, Names(a, scope, inherited), ScopeNodes(scope))
  {
    NamesIsLeastClosed(a, scope, inherited);
  }

  lemma BindingIsPossible(nodes: seq<Node>, i: nat, a0: set<string>, x0: set<string>)
    requires i < |nodes|
    ensures var targets := BoundTargets(a0, x0, nodes[i]);
            && WithAttributes(a0, targets) <= a0 + PossibleAttributes(nodes)
            && WithNames(x0, targets) <= x0 + PossibleNames(nodes)
  {
    forall t | t in BoundTargets(a0, x0, nodes[i]) ensures t in PossibleTargets(nodes[i]) {
      BoundTargetsArePossible(a0, x0, nodes[i], t);
    }
  }

  lemma AssignedToNothing(attributes: set<string>, names: set<string>, value: Node)
    ensures AssignedTargets(attributes, names, [], value) == []
  {
  }

  lemma AssignedStep(attributes: set<string>, names: set<string>, all: seq<Node>, value: Node, i: nat)
    requires i < |all|
    ensures AssignedTargets(attributes, names, all[i..], value)
            == (if IsApplication(attributes, names, value) then [all[i]]
                else if all[i].Tuple? && value.Tuple? then
                  UnpackedTargets(attributes, names, all[i].elements, value.elements)
                else [])
               + AssignedTargets(attributes, names, all[i + 1..], value)
  {
    hide IsApplication, UnpackedTargets;
    assert all[i..][1..] == all[i + 1..];
  }

  class ApplicationAliases {
    var attributes: set<string>

    constructor ()
      ensures attributes == {}
    {
      attributes := {};
    }

    /** `reaches`: walk down attribute, subscript and call heads to a name. */
    method Reaches(node: Node, names: set<string>) returns (r: bool)
      ensures r == IsApplication(attributes, names, node)
    {
      var n := node;
      while n.Attribute? || n.Subscript? || n.Call?
        invariant IsApplication(attributes, names, n) == IsApplication(attributes, names, node)
        decreases n
      {
        if n.Attribute? && (n.attr in ApplicationNames || n.attr in attributes) {
          return true;
        }
        n := if n.Call? then n.func else n.value;
      }
      return n.Name? && (n.id in ApplicationNames || n.id in names);
    }

    /** `_targets` */
    method Targets(node: Node, names: set<string>) returns (targets: seq<Node>)
      ensures targets == BoundTargets(attributes, names, node)
    {
      targets := [];
      match node
      case Assign(_, all, value) =>
        targets := AssignTargets(all, value, names);
      case AnnAssign(_, target, annotation, given) =>
        var found := AnnotatesApplication(annotation);
        if !found && given != [] {
          found := Reaches(given[0], names);
        }
        if found {
          targets := [target];
        }
      case NamedExpr(_, target, value) =>
        var found := Reaches(value, names);
        if found {
          targets := [target];
        }
      case WithItem(_, context, vars) =>
        if vars != [] {
          var found := Reaches(context, names);
          if found {
            targets := [vars[0]];
          }
        }
      case _ =>
    }

    method AssignTargets(all: seq<Node>, value: Node, names: set<string>) returns (targets: seq<Node>)
      ensures targets == AssignedTargets(attributes, names, all, value)
    {
      hide AssignedTargets, IsApplication, UnpackedTargets;
      AssignedToNothing(attributes, names, value);
      assert all[0..] == all;
      targets := [];
      var i := 0;
      while i < |all|
        invariant 0 <= i <= |all|
        invariant targets + AssignedTargets(attributes, names, all[i..], value)
                  == AssignedTargets(attributes, names, all, value)
      {
        AssignedStep(attributes, names, all, value, i);
        var target := all[i];
        var found := Reaches(value, names);
        if found {
          targets := targets + [target];
        } else if target.Tuple? && value.Tuple? {
          var items := Unpack(target.elements, value.elements, names);
          targets := targets + items;
        }
        i := i + 1;
      }
      assert all[|all|..] == [];
    }

    method Unpack(items: seq<Node>, values: seq<Node>, names: set<string>) returns (targets: seq<Node>)
      ensures targets == UnpackedTargets(attributes, names, items, values)
    {
      targets := [];
      var i := 0;
      while i < |items| && i < |values|
        invariant 0 <= i <= |items| && i <= |values|
        invariant targets + UnpackedTargets(attributes, names, items[i..], values[i..])
                  == UnpackedTargets(attributes, names, items, values)
      {
        assert items[i..][1..] == items[i + 1..] && values[i..][1..] == values[i + 1..];
        var found := Reaches(values[i], names);
        if found {
          targets := targets + [items[i]];
        }
        i := i + 1;
      }
    }

    /** `_bind`, for every target of one node. */
    method BindAll(targets: seq<Node>, names: set<string>) returns (grown: set<string>)
      modifies this
      ensures grown == WithNames(names, targets)
      ensures attributes == WithAttributes(old(attributes), targets)
    {
      grown := names;
      for i := 0 to |targets|
        invariant grown == WithNames(names, targets[..i])
        invariant attributes == WithAttributes(old(attributes), targets[..i])
      {
        assert targets[..i + 1] == targets[..i] + [targets[i]];
        if targets[i].Name? {
          grown := grown + {targets[i].id};
        } else if targets[i].Attribute? {
          attributes := attributes + {targets[i].attr};
        }
      }
      assert targets[..|targets|] == targets;
    }

    /** Binding what one node assigns. */
    method BindNode(nodes: seq<Node>, i: nat, names: set<string>) returns (grown: set<string>)
      requires i < |nodes|
      modifies this
      ensures old(attributes) <= attributes <= old(attributes) + PossibleAttributes(nodes)
      ensures names <= grown <= names + PossibleNames(nodes)
      ensures attributes <= old(attributes) && grown <= names ==> Settled(old(attributes), names, nodes[i])
      ensures forall a, x :: Keeps(a, x, nodes) && old(attributes) <= a && names <= x ==> attributes <= a && grown <= x
    {
      var targets := Targets(nodes[i], names);
      grown := BindAll(targets, names);
      BindingIsPossible(nodes, i, old(attributes), names);
      forall a, x | Keeps(a, x, nodes) && old(attributes) <= a && names <= x ensures attributes <= a && grown <= x {
        BindingStaysWithin(a, x, nodes, i, old(attributes), names);
      }
      if attributes <= old(attributes) && grown <= names {
        NothingNewIsSettled(old(attributes), names, nodes[i]);
      }
    }

    /** One walk over the nodes of a scope, binding as it goes. */
    method Pass(nodes: seq<Node>, names: set<string>) returns (grown: set<string>)
      modifies this
      ensures old(attributes) <= attributes <= old(attributes) + PossibleAttributes(nodes)
      ensures names <= grown <= names + PossibleNames(nodes)
      ensures attributes <= old(attributes) && grown <= names ==> Keeps(old(attributes), names, nodes)
      ensures forall a, x :: Keeps(a, x, nodes) && old(attributes) <= a && names <= x ==> attributes <= a && grown <= x
    {
      grown := names;
      ghost var quiet := true;
      for i := 0 to |nodes|
        invariant old(attributes) <= attributes <= old(attributes) + PossibleAttributes(nodes)
        invariant names <= grown <= names + PossibleNames(nodes)
        invariant attributes <= old(attributes) && grown <= names ==> quiet
        invariant quiet ==> attributes == old(attributes) && grown == names
        invariant quiet ==> AllSettled(old(attributes), names, nodes, i)
        invariant forall a, x :: Keeps(a, x, nodes) && old(attributes) <= a && names <= x ==>
                  attributes <= a && grown <= x
      {
        ghost var a0, x0 := attributes, grown;
        grown := BindNode(nodes, i, grown);
        quiet := quiet && attributes <= old(attributes) && grown <= names;
        assert quiet ==> a0 == old(attributes) && x0 == names;
      }
      if quiet {
        SettledIsClosed(old(attributes), names, nodes);
      }
    }

    /** `scope_names`: passes until nothing grows. */
    method ScopeNames(scope: Node, inherited: set<string>) returns (names: set<string>)
      modifies this
      ensures old(attributes) <= attributes
      ensures names == Names(attributes, scope, inherited)
      ensures BoundAttributes(attributes, names, ScopeNodes(scope)) <= attributes
      ensures forall a :: ClosesScope(a, old(attributes), scope, inherited) ==> attributes <= a
    {
      hide Names, BoundAttributes, ScopeNodes, Start, Keeps, PossibleNames, PossibleAttributes;
      names := StartNames(scope, inherited);
      var nodes := WalkScope(scope);
      ghost var maxNames, maxAttributes := names + PossibleNames(nodes), attributes + PossibleAttributes(nodes);
      forall a | ClosesScope(a, old(attributes), scope, inherited) ensures names <= Names(a, scope, inherited) {
        NamesIsLeastClosed(a, scope, inherited);
      }
      while true
        invariant Start(scope, inherited) <= names <= maxNames
        invariant old(attributes) <= attributes <= maxAttributes
        invariant forall a :: ClosesScope(a, old(attributes), scope, inherited) ==>
                    attributes <= a && names <= Names(a, scope, inherited)
        decreases |maxNames| + |maxAttributes| - |names| - |attributes|
      {
        ghost var a0 := attributes;
        var before := (|names|, |attributes|);
        var grown := Pass(nodes, names);
        forall a | ClosesScope(a, old(attributes), scope, inherited)
          ensures attributes <= a && grown <= Names(a, scope, inherited)
        {
          ClosingKeeps(a, old(attributes), scope, inherited);
        }
        SubsetSize(names, grown);
        SubsetSize(a0, attributes);
        SubsetSize(grown, maxNames);
        SubsetSize(attributes, maxAttributes);
        if before == (|grown|, |attributes|) {
          QuietClosesScope(attributes, old(attributes), scope, inherited, names);
          assert attributes == a0 && grown == names;
          return;
        }
        names := grown;
      }
    }

    /** The names a scope starts from: what it inherits, shadowed by its parameters. */
    method StartNames(scope: Node, inherited: set<string>) returns (names: set<string>)
      ensures names == Start(scope, inherited)
    {
      names := inherited;
      if scope.Scope? && scope.kind == FunctionScope {
        var i := 0;
        while i < |scope.parameters|
          invariant 0 <= i <= |scope.parameters|
          invariant AfterParameters(scope.parameters[i..], names) == AfterParameters(scope.parameters, inherited)
        {
          var p := scope.parameters[i];
          assert scope.parameters[i..][1..] == scope.parameters[i + 1..];
          if p.annotation != [] && AnnotatesApplication(p.annotation[0]) {
            names := names + {p.name};
          } else {
            names := names - {p.name};
          }
          i := i + 1;
        }
      }
    }

    /** The rest of one worklist step: the scope's accesses, and the scopes it defines. */
    method Collect(nodes: seq<Node>, names: set<string>, visible: set<string>)
      returns (lines: set<nat>, nested: seq<(Node, set<string>)>)
      ensures lines == AccessLines(attributes, names, nodes)
      ensures nested == NestedScopes(nodes, visible)
    {
      lines, nested := {}, [];
      for i := 0 to |nodes|
        invariant lines == AccessLines(attributes, names, nodes[..i])
        invariant nested == NestedScopes(nodes[..i], visible)
      {
        var node := nodes[i];
        assert nodes[..i + 1] == nodes[..i] + [node];
        NestedScopesConcat(nodes[..i], [node], visible);
        assert [node][1..] == [];
        if node.Scope? {
          nested := nested + [(node, visible)];
        } else {
          var access := RegistryAccess(node, names);
          if access {
            lines := lines + {node.line};
          }
        }
      }
      assert nodes[..|nodes|] == nodes;
    }

    /** `registry_access` */
    method RegistryAccess(node: Node, names: set<string>) returns (r: bool)
      ensures r == IsRegistryAccess(attributes, names, node)
    {
      if node.Attribute? {
        r := false;
        if node.attr == "handlers" {
          r := Reaches(node.value, names);
        }
      } else if node.Call? && node.func.Name? && node.func.id in AttributeFunctions && |node.args| >= 2 {
        r := Reaches(node.args[0], names);
        r := r && node.args[1].Text? && node.args[1].text == "handlers";
      } else {
        r := false;
      }
    }
  }

  // -------------------------------------------------------------- the whole module

  ghost predicate IsLeast(s: set<nat>, m: nat) {
    m in s && forall k :: k in s ==> m <= k
  }

  method Sorted(lines: set<nat>) returns (r: seq<nat>)
    ensures (set l | l in r) == lines
    ensures forall i, j :: 0 <= i < j < |r| ==> r[i] < r[j]
  {
    var rest := lines;
    r := [];
    while rest != {}
      invariant forall l :: l in lines <==> l in r || l in rest
      invariant forall i, j :: 0 <= i < j < |r| ==> r[i] < r[j]
      invariant forall i, k :: 0 <= i < |r| && k in rest ==> r[i] < k
      decreases rest
    {
      HasLeast(rest);
      ghost var m :| IsLeast(rest, m);
      var least :| least in rest && forall k :: k in rest ==> least <= k;
      assert forall l :: l in r + [least] <==> l in r || l == least;
      r := r + [least];
      rest := rest - {least};
    }
  }

  lemma {:induction false} HasLeast(s: set<nat>)
    requires s != {}
    ensures exists least :: IsLeast(s, least)
    decreases s
  {
    var x :| x in s;
    var rest := s - {x};
    assert s == rest + {x};
    if rest == {} {
      assert IsLeast(s, x);
    } else {
      HasLeast(rest);
      var y :| IsLeast(rest, y);
      assert IsLeast(s, if x < y then x else y);
    }
  }

  lemma NothingPending(a: set<string>)
    ensures LinesOf(a, []) == {} && AttributesOf(a, []) == {}
  {
  }

  /** One worklist pass. It may take any pending entry; the code takes the last. The lines are
      exact when no attribute was new. */
  method ScanScopes(aliases: ApplicationAliases, root: Node, ghost least: set<string>) returns (found: set<nat>)
    requires aliases.attributes <= least && TreeAttributes(least, root, {}) <= least
    modifies aliases
    ensures old(aliases.attributes) <= aliases.attributes <= least
    ensures aliases.attributes == old(aliases.attributes) ==>
              && found == TreeLines(aliases.attributes, root, {})
              && TreeAttributes(aliases.attributes, root, {}) <= aliases.attributes
  {
    hide TreeAttributes, TreeLines, LinesOf, AttributesOf;
    ghost var known := aliases.attributes;
    found := {};
    var pending: seq<(Node, set<string>)> := [(root, {})];
    PendingStart(known, root);
    PendingStart(least, root);
    while pending != []
      invariant known <= aliases.attributes <= least
      invariant AttributesOf(least, pending) <= least
      invariant aliases.attributes == known ==>
                  && found + LinesOf(known, pending) == TreeLines(known, root, {})
                  && TreeAttributes(known, root, {}) <= known + AttributesOf(known, pending)
      decreases PendingSize(pending)
    {
      var k :| 0 <= k < |pending|;
      var scope, inherited := pending[k].0, pending[k].1;
      AnyEntry(pending, k);
      pending := pending[..k] + pending[k + 1..];
      StepSplits(least, pending, scope, inherited);
      var names := aliases.ScopeNames(scope, inherited);
      assert ClosesScope(least, old(aliases.attributes), scope, inherited);
      NamesGrow(aliases.attributes, least, scope, inherited, inherited);
      StepStaysWithin(least, pending, scope, inherited, names);
      var visible := if scope.Scope? && scope.kind == ClassScope then inherited else names;
      var nodes := WalkScope(scope);
      NestedPendingIsSmaller(pending, scope, inherited, visible);
      var accesses, nested := aliases.Collect(nodes, names, visible);
      if aliases.attributes == known {
        StepIsExact(known, pending, scope, inherited, found, root);
      }
      found := found + accesses;
      pending := pending + nested;
    }
    NothingPending(known);
  }

  /** Which entry is taken from the worklist makes no difference to what is pending. */
  lemma AnyEntry(pending: seq<(Node, set<string>)>, k: nat)
    requires k < |pending|
    ensures var all := pending[..k] + pending[k + 1..] + [(pending[k].0, pending[k].1)];
            && (forall a :: LinesOf(a, pending) == LinesOf(a, all) && AttributesOf(a, pending) == AttributesOf(a, all))
            && PendingSize(pending) == PendingSize(all)
  {
    var rest, one := pending[..k] + pending[k + 1..], [(pending[k].0, pending[k].1)];
    assert pending == pending[..k] + one + pending[k + 1..];
    forall p ensures p in pending <==> p in rest + one {
    }
    PendingSizeConcat(pending[..k] + one, pending[k + 1..]);
    PendingSizeConcat(pending[..k], one);
    PendingSizeConcat(pending[..k], pending[k + 1..]);
    PendingSizeConcat(rest, one);
  }

  /** With no new attribute, a step moves a scope's own accesses from pending to found. */
  lemma StepIsExact(known: set<string>, rest: seq<(Node, set<string>)>, scope: Node, inherited: set<string>,
                    found: set<nat>, root: Node)
    requires BoundAttributes(known, Names(known, scope, inherited), ScopeNodes(scope)) <= known
    requires found + LinesOf(known, rest + [(scope, inherited)]) == TreeLines(known, root, {})
    requires TreeAttributes(known, root, {}) <= known + AttributesOf(known, rest + [(scope, inherited)])
    ensures var names := Names(known, scope, inherited);
            var next := rest + NestedScopes(ScopeNodes(scope), Visible(scope, inherited, names));
            && (found + AccessLines(known, names, ScopeNodes(scope))) + LinesOf(known, next)
                 == TreeLines(known, root, {})
            && TreeAttributes(known, root, {}) <= known + AttributesOf(known, next)
  {
    StepSplits(known, rest, scope, inherited);
  }

  lemma PendingStart(a: set<string>, root: Node)
    ensures LinesOf(a, [(root, {})]) == TreeLines(a, root, {})
    ensures AttributesOf(a, [(root, {})]) == TreeAttributes(a, root, {})
  {
    var none: seq<(Node, set<string>)> := [];
    PendingSplit(a, none, root, {});
    assert none + [(root, {})] == [(root, {})];
    NothingPending(a);
  }

  /** `registry_accesses`: worklist passes over the scopes until no alias attribute is new.
      The lines are those of the least solution, in order and without repetition. */
  method RegistryAccesses(root: Node) returns (lines: seq<nat>)
    ensures (set l | l in lines) == LeastLines(root)
    ensures forall i, j :: 0 <= i < j < |lines| ==> lines[i] < lines[j]
  {
    hide TreeAttributes, TreeLines;
    var aliases := new ApplicationAliases();
    ghost var least := LeastAttributes(root);
    ClosedAttributesIsClosed(root, {});
    while true
      invariant aliases.attributes <= least
      decreases |least| - |aliases.attributes|
    {
      var known := aliases.attributes;
      var found := ScanScopes(aliases, root, least);
      SubsetSize(known, aliases.attributes);
      SubsetSize(aliases.attributes, least);
      if aliases.attributes == known {
        ClosedAttributesIsLeast(root, {}, known);
        assert known == least;
        lines := Sorted(found);
        return;
      }
    }
  }
}
