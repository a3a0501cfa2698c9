/** What the rules of HostContract say of the syntax: exactly which expressions are the application,
    which annotations name its type, which targets a statement binds and which names a scope starts
    from; and that every form which makes an alias makes one, wherever it stands in a module. */
module AliasLaws {
  import opened HostContract

  // ------------------------------------------------------------------ expressions

  /** One step from an expression to a larger one. */
  datatype Link = ByAttribute(line: nat, attr: string) | ByIndex(line: nat, index: Node)
                | ByCall(line: nat, args: seq<Node>, keywords: seq<Node>)

  function Linked(base: Node, link: Link): Node {
    match link
    case ByAttribute(line, attr) => Attribute(line, base, attr)
    case ByIndex(line, index) => Subscript(line, base, index)
    case ByCall(line, args, keywords) => Call(line, base, args, keywords)
  }

  /** `base` with a chain of attributes, subscripts and calls behind it. */
  function Chain(base: Node, links: seq<Link>): Node {
    if links == [] then base else Linked(Chain(base, links[..|links| - 1]), links[|links| - 1])
  }

  /** `app`, `application`, an alias, or an attribute of such a name. */
  predicate IsBase(attributes: set<string>, names: set<string>, n: Node) {
    || (n.Name? && (n.id == "application" || n.id == "app" || n.id in names))
    || (n.Attribute? && (n.attr == "application" || n.attr == "app" || n.attr in attributes))
  }

  /** The expression is a base, or a chain behind one. */
  ghost predicate Leads(attributes: set<string>, names: set<string>, n: Node) {
    exists base, links :: n == Chain(base, links) && IsBase(attributes, names, base)
  }

  lemma ChainGrows(base: Node, links: seq<Link>, link: Link)
    ensures Chain(base, links + [link]) == Linked(Chain(base, links), link)
  {
    assert (links + [link])[..|links + [link]| - 1] == links;
  }

  lemma LeadsOn(attributes: set<string>, names: set<string>, n: Node, link: Link)
    requires Leads(attributes, names, n)
    ensures Leads(attributes, names, Linked(n, link))
  {
    var base, links :| n == Chain(base, links) && IsBase(attributes, names, base);
    ChainGrows(base, links, link);
  }

  lemma BaseLeads(attributes: set<string>, names: set<string>, n: Node)
    requires IsBase(attributes, names, n)
    ensures Leads(attributes, names, n)
  {
    assert n == Chain(n, []);
  }

  lemma {:induction false} ChainIsApplication(attributes: set<string>, names: set<string>, base: Node, links: seq<Link>)
    requires IsBase(attributes, names, base)
    ensures IsApplication(attributes, names, Chain(base, links))
  {
    if links != [] {
      ChainIsApplication(attributes, names, base, links[..|links| - 1]);
    }
  }

  /** An expression is taken for the application exactly when it leads to it. */
  lemma {:induction false} ApplicationsExactly(attributes: set<string>, names: set<string>, n: Node)
    ensures IsApplication(attributes, names, n) <==> Leads(attributes, names, n)
    decreases n
  {
    if IsApplication(attributes, names, n) {
      if IsBase(attributes, names, n) {
        BaseLeads(attributes, names, n);
      } else {
        match n
        case Attribute(line, v, attr) =>
          ApplicationsExactly(attributes, names, v);
          LeadsOn(attributes, names, v, ByAttribute(line, attr));
        case Subscript(line, v, index) =>
          ApplicationsExactly(attributes, names, v);
          LeadsOn(attributes, names, v, ByIndex(line, index));
        case Call(line, f, args, keywords) =>
          ApplicationsExactly(attributes, names, f);
          LeadsOn(attributes, names, f, ByCall(line, args, keywords));
        case _ =>
      }
    }
    if Leads(attributes, names, n) {
      var base, links :| n == Chain(base, links) && IsBase(attributes, names, base);
      ChainIsApplication(attributes, names, base, links);
    }
  }

  // ------------------------------------------------------------------ annotations

  function Indexed(base: Node, indices: seq<(nat, Node)>): Node {
    if indices == [] then base
    else Subscript(indices[|indices| - 1].0, Indexed(base, indices[..|indices| - 1]), indices[|indices| - 1].1)
  }

  predicate IsTypeName(id: string) {
    id == "Application" || id == "CoreApplication"
  }

  /** A text whose last dotted part, up to a bracket, is the type. */
  ghost predicate TextNamesType(text: string) {
    exists before, id, behind ::
      && text == before + id + behind && IsTypeName(id)
      && (before != "" ==> before[|before| - 1] == '.')
      && (behind != "" ==> behind[0] == '[') && '.' !in behind
  }

  ghost predicate NamesType(n: Node) {
    match n
    case Name(_, id) => IsTypeName(id)
    case Attribute(_, _, attr) => IsTypeName(attr)
    case Text(_, text) => TextNamesType(text)
    case _ => false
  }

  /** The type as a name, an attribute or a text, with any subscripts behind it. */
  ghost predicate IsTypeAnnotation(n: Node) {
    exists base, indices :: n == Indexed(base, indices) && NamesType(base)
  }

  lemma {:induction false} AfterLastDotIs(before: string, rest: string)
    requires (before != "" ==> before[|before| - 1] == '.') && '.' !in rest
    ensures AfterLastDot(before + rest) == rest
  {
    var text := before + rest;
    if rest == "" {
      assert text == before;
    } else {
      assert text[..|text| - 1] == before + rest[..|rest| - 1];
      assert text[|text| - 1] == rest[|rest| - 1];
      AfterLastDotIs(before, rest[..|rest| - 1]);
    }
  }

  lemma {:induction false} LastDotSplits(text: string) returns (before: string)
    ensures text == before + AfterLastDot(text) && (before != "" ==> before[|before| - 1] == '.')
    ensures '.' !in AfterLastDot(text)
  {
    if text == "" || text[|text| - 1] == '.' {
      before := text;
    } else {
      before := LastDotSplits(text[..|text| - 1]);
    }
  }

  lemma {:induction false} BeforeBracketIs(id: string, behind: string)
    requires '[' !in id && (behind != "" ==> behind[0] == '[')
    ensures BeforeBracket(id + behind) == id
  {
    var text := id + behind;
    if id == "" {
      assert text == behind;
    } else {
      assert text[0] == id[0] && text[1..] == id[1..] + behind;
      BeforeBracketIs(id[1..], behind);
    }
  }

  lemma {:induction false} BracketSplits(text: string) returns (behind: string)
    ensures text == BeforeBracket(text) + behind && (behind != "" ==> behind[0] == '[')
  {
    if text == "" || text[0] == '[' {
      behind := text;
    } else {
      behind := BracketSplits(text[1..]);
    }
  }

  lemma NamedTextSplits(text: string)
    requires IsTypeName(BeforeBracket(AfterLastDot(text)))
    ensures TextNamesType(text)
  {
    hide AfterLastDot, BeforeBracket, IsTypeName;
    var rest := AfterLastDot(text);
    var before := LastDotSplits(text);
    var behind := BracketSplits(rest);
    var id := BeforeBracket(rest);
    assert text == before + id + behind;
    assert rest[|id|..] == behind;
  }

  lemma SplitTextIsNamed(before: string, id: string, behind: string)
    requires IsTypeName(id) && (before != "" ==> before[|before| - 1] == '.')
    requires (behind != "" ==> behind[0] == '[') && '.' !in behind
    ensures BeforeBracket(AfterLastDot(before + id + behind)) == id
  {
    hide AfterLastDot, BeforeBracket, IsTypeName;
    TypeNamesAreWords(id);
    assert before + id + behind == before + (id + behind);
    AfterLastDotIs(before, id + behind);
    BeforeBracketIs(id, behind);
  }

  lemma TypeNamesAreWords(id: string)
    requires IsTypeName(id)
    ensures '.' !in id && '[' !in id
  {
  }

  lemma TextsExactly(text: string)
    ensures BeforeBracket(AfterLastDot(text)) in ApplicationTypes <==> TextNamesType(text)
  {
    hide AfterLastDot, BeforeBracket;
    if IsTypeName(BeforeBracket(AfterLastDot(text))) {
      NamedTextSplits(text);
    }
    if TextNamesType(text) {
      var before, id, behind :|
        && text == before + id + behind && IsTypeName(id)
        && (before != "" ==> before[|before| - 1] == '.')
        && (behind != "" ==> behind[0] == '[') && '.' !in behind;
      SplitTextIsNamed(before, id, behind);
    }
  }

  lemma {:induction false} IndexedAnnotates(base: Node, indices: seq<(nat, Node)>)
    requires !base.Subscript?
    ensures AnnotatesApplication(Indexed(base, indices)) == AnnotatesApplication(base)
  {
    if indices != [] {
      IndexedAnnotates(base, indices[..|indices| - 1]);
    }
  }

  /** An annotation is taken for the application's type exactly in these forms. */
  lemma {:induction false} AnnotationsExactly(n: Node)
    ensures AnnotatesApplication(n) <==> IsTypeAnnotation(n)
    decreases n
  {
    if AnnotatesApplication(n) {
      if n.Subscript? {
        AnnotationsExactly(n.value);
        var base, indices :| n.value == Indexed(base, indices) && NamesType(base);
        var longer := indices + [(n.line, n.index)];
        assert longer[..|longer| - 1] == indices;
        assert n == Indexed(base, longer);
      } else {
        if n.Text? {
          TextsExactly(n.text);
        }
        assert n == Indexed(n, []) && NamesType(n);
      }
    }
    if IsTypeAnnotation(n) {
      var base, indices :| n == Indexed(base, indices) && NamesType(base);
      if base.Text? {
        TextsExactly(base.text);
      }
      IndexedAnnotates(base, indices);
    }
  }

  // ------------------------------------------------------------------ what is bound

  /** The forms in which a statement binds a target to the application. */
  ghost predicate Binds(attributes: set<string>, names: set<string>, n: Node, target: Node) {
    match n
    case Assign(_, targets, value) =>
      || (target in targets && Leads(attributes, names, value))
      || (value.Tuple? && exists k, j :: 0 <= k < |targets| && targets[k].Tuple?
                                         && 0 <= j < |targets[k].elements| && j < |value.elements|
                                         && targets[k].elements[j] == target
                                         && Leads(attributes, names, value.elements[j]))
    case AnnAssign(_, left, annotation, given) =>
      target == left && (IsTypeAnnotation(annotation) || (given != [] && Leads(attributes, names, given[0])))
    case NamedExpr(_, left, value) => target == left && Leads(attributes, names, value)
    case WithItem(_, context, vars) => vars != [] && target == vars[0] && Leads(attributes, names, context)
    case _ => false
  }

  lemma {:induction false} UnpackedExactly(attributes: set<string>, names: set<string>, items: seq<Node>,
                                           values: seq<Node>, target: Node)
    ensures target in UnpackedTargets(attributes, names, items, values) <==>
              exists j :: 0 <= j < |items| && j < |values| && items[j] == target
                          && IsApplication(attributes, names, values[j])
  {
    if items != [] && values != [] {
      UnpackedExactly(attributes, names, items[1..], values[1..], target);
      if j :| 0 <= j < |items| && j < |values| && items[j] == target && IsApplication(attributes, names, values[j]) {
        if j > 0 {
          assert items[1..][j - 1] == target && values[1..][j - 1] == values[j];
        }
      }
      if j :| 0 <= j < |items[1..]| && j < |values[1..]| && items[1..][j] == target
              && IsApplication(attributes, names, values[1..][j]) {
        assert items[j + 1] == target && values[j + 1] == values[1..][j];
      }
    }
  }

  predicate Unpacks(attributes: set<string>, names: set<string>, left: Node, value: Node, target: Node) {
    left.Tuple? && value.Tuple? && target in UnpackedTargets(attributes, names, left.elements, value.elements)
  }

  lemma {:induction false} AssignedExactly(attributes: set<string>, names: set<string>, targets: seq<Node>, value: Node,
                                           target: Node)
    ensures target in AssignedTargets(attributes, names, targets, value) <==>
              if IsApplication(attributes, names, value) then target in targets
              else exists k :: 0 <= k < |targets| && Unpacks(attributes, names, targets[k], value, target)
  {
    if targets != [] {
      AssignedExactly(attributes, names, targets[1..], value, target);
      if k :| 0 <= k < |targets| && Unpacks(attributes, names, targets[k], value, target) {
        if k > 0 {
          assert targets[1..][k - 1] == targets[k];
        }
      }
      if k :| 0 <= k < |targets[1..]| && Unpacks(attributes, names, targets[1..][k], value, target) {
        assert targets[k + 1] == targets[1..][k];
      }
    }
  }

  lemma TargetsExactly(attributes: set<string>, names: set<string>, n: Node, target: Node)
    ensures target in BoundTargets(attributes, names, n) <==> Binds(attributes, names, n, target)
  {
    hide Leads, IsTypeAnnotation;
    match n
    case Assign(_, targets, value) => AssignmentsExactly(attributes, names, n, target);
    case AnnAssign(_, _, annotation, given) =>
      AnnotationsExactly(annotation);
      if given != [] {
        ApplicationsExactly(attributes, names, given[0]);
      }
    case NamedExpr(_, _, value) => ApplicationsExactly(attributes, names, value);
    case WithItem(_, context, _) => ApplicationsExactly(attributes, names, context);
    case _ =>
  }

  lemma AssignmentsExactly(attributes: set<string>, names: set<string>, n: Node, target: Node)
    requires n.Assign?
    ensures target in BoundTargets(attributes, names, n) <==> Binds(attributes, names, n, target)
  {
    hide Leads, UnpackedTargets, AssignedTargets;
    AssignedExactly(attributes, names, n.targets, n.value, target);
    ApplicationsExactly(attributes, names, n.value);
    if n.value.Tuple? {
      forall k | 0 <= k < |n.targets| && n.targets[k].Tuple?
        ensures Unpacks(attributes, names, n.targets[k], n.value, target) <==>
                  exists j :: 0 <= j < |n.targets[k].elements| && j < |n.value.elements|
                              && n.targets[k].elements[j] == target && Leads(attributes, names, n.value.elements[j])
      {
        UnpackedExactly(attributes, names, n.targets[k].elements, n.value.elements, target);
        forall j | 0 <= j < |n.value.elements|
          ensures IsApplication(attributes, names, n.value.elements[j]) <==>
                  Leads(attributes, names, n.value.elements[j])
        {
          ApplicationsExactly(attributes, names, n.value.elements[j]);
        }
      }
    }
  }

  // ------------------------------------------------------------------ parameters

  /** The last parameter of the name, if there is one, is typed as the application. */
  ghost predicate ParameterIsTyped(parameters: seq<Parameter>, k: nat)
    requires k < |parameters|
  {
    parameters[k].annotation != [] && IsTypeAnnotation(parameters[k].annotation[0])
  }

  predicate LastOfName(parameters: seq<Parameter>, k: nat) {
    k < |parameters| && forall j :: k < j < |parameters| ==> parameters[j].name != parameters[k].name
  }

  lemma {:induction false} ParametersExactly(parameters: seq<Parameter>, names: set<string>, x: string)
    ensures x in AfterParameters(parameters, names) <==>
              if exists k :: 0 <= k < |parameters| && parameters[k].name == x
              then exists k :: 0 <= k < |parameters| && LastOfName(parameters, k) && parameters[k].name == x
                               && ParameterIsTyped(parameters, k)
              else x in names
  {
    hide IsTypeAnnotation;
    if parameters != [] {
      var p, rest := parameters[0], parameters[1..];
      if p.annotation != [] {
        AnnotationsExactly(p.annotation[0]);
      }
      var typed := p.annotation != [] && AnnotatesApplication(p.annotation[0]);
      ParametersExactly(rest, if typed then names + {p.name} else names - {p.name}, x);
      assert forall k :: 0 < k < |parameters| ==> parameters[k] == rest[k - 1];
      assert forall k :: 0 < k < |parameters| ==>
               (LastOfName(parameters, k) <==> LastOfName(rest, k - 1));
    }
  }

  /** The names a function starts from: its own typed parameters, and of what it inherits what
      no parameter shadows. A class or a module starts from what it inherits. */
  lemma StartExactly(scope: Node, inherited: set<string>, x: string)
    ensures x in Start(scope, inherited) <==>
              if scope.Scope? && scope.kind == FunctionScope
                 && exists k :: 0 <= k < |scope.parameters| && scope.parameters[k].name == x
              then exists k :: 0 <= k < |scope.parameters| && LastOfName(scope.parameters, k)
                               && scope.parameters[k].name == x && ParameterIsTyped(scope.parameters, k)
              else x in inherited
  {
    hide AfterParameters, IsTypeAnnotation, LastOfName;
    if scope.Scope? && scope.kind == FunctionScope {
      ParametersExactly(scope.parameters, inherited, x);
    }
  }

  // ------------------------------------------------------------------ a whole module

  function Parts(n: Node): (r: seq<Node>)
    ensures forall part :: part in r ==> Size(part) < Size(n)
  {
    ChildrenAreSmaller(n);
    assert forall part :: part in Children(n) ==> Size(part) < Size(n) by {
      forall part | part in Children(n) ensures Size(part) < Size(n) {
        var k :| 0 <= k < |Children(n)| && Children(n)[k] == part;
        PartIsSmaller(Children(n), k);
      }
    }
    Children(n)
  }

  /** The node is written in the scope, outside the scopes nested in it. */
  ghost predicate WrittenIn(n: Node, scope: Node)
    decreases Size(scope), 0
  {
    exists part :: part in Parts(scope) && WrittenBelow(n, part)
  }

  ghost predicate WrittenBelow(n: Node, part: Node)
    decreases Size(part), 1
  {
    n == part || (!part.Scope? && WrittenIn(n, part))
  }

  lemma {:induction false} PartIsSmaller(nodes: seq<Node>, k: nat)
    requires k < |nodes|
    ensures Size(nodes[k]) <= SizeAll(nodes)
  {
    if k > 0 {
      PartIsSmaller(nodes[1..], k - 1);
    }
  }

  /** The nodes of a scope are those written in it. */
  lemma ScopeNodesExactly(scope: Node, n: Node)
    ensures n in ScopeNodes(scope) <==> WrittenIn(n, scope)
  {
    ChildrenAreSmaller(scope);
    RegionExactly(Children(scope), n);
  }

  ghost predicate WrittenAmong(n: Node, nodes: seq<Node>) {
    exists part :: part in nodes && WrittenBelow(n, part)
  }

  lemma AmongSplits(n: Node, front: seq<Node>, last: Node)
    ensures WrittenAmong(n, front + [last]) <==> WrittenAmong(n, front) || WrittenBelow(n, last)
  {
    hide WrittenBelow;
    assert last in front + [last];
  }

  lemma BelowUnfolds(n: Node, part: Node)
    ensures WrittenBelow(n, part) <==> n == part || (!part.Scope? && WrittenAmong(n, Children(part)))
  {
  }

  lemma {:induction false} RegionExactly(nodes: seq<Node>, n: Node)
    ensures n in Region(nodes) <==> WrittenAmong(n, nodes)
    decreases SizeAll(nodes), |nodes|
  {
    hide Region, WrittenAmong, WrittenBelow, Children;
    if nodes == [] {
      NothingBelow(n);
    } else {
      var front, last := nodes[..|nodes| - 1], nodes[|nodes| - 1];
      SizeAllLast(nodes);
      ChildrenAreSmaller(last);
      RegionExactly(front, n);
      if !last.Scope? {
        RegionExactly(Children(last), n);
      }
      RegionSplits(nodes, n);
      BelowUnfolds(n, last);
      AmongSplits(n, front, last);
      assert nodes == front + [last];
    }
  }

  lemma NothingBelow(n: Node)
    ensures !WrittenAmong(n, []) && Region([]) == []
  {
  }

  lemma RegionSplits(nodes: seq<Node>, n: Node)
    requires nodes != []
    ensures var last := nodes[|nodes| - 1];
            n in Region(nodes) <==>
              n == last || (!last.Scope? && n in Region(Children(last))) || n in Region(nodes[..|nodes| - 1])
  {
  }

  /** The scope is the module, or it is nested in it, at any depth. */
  ghost predicate Lies(scope: Node, root: Node)
    decreases Size(root)
  {
    scope == root || exists n :: n in ScopeNodes(root) && n.Scope? && Lies(scope, n)
  }

  /** So, and these are the names it inherits there: a function's own, or what a class inherits. */
  ghost predicate Occurs(attributes: set<string>, scope: Node, inherited: set<string>, root: Node, outer: set<string>)
    decreases Size(root)
  {
    || (scope == root && inherited == outer)
    || exists n :: n in ScopeNodes(root) && n.Scope?
                   && Occurs(attributes, scope, inherited, n, SeenInside(attributes, root, outer))
  }

  function SeenInside(attributes: set<string>, scope: Node, inherited: set<string>): set<string> {
    if scope.Scope? && scope.kind == ClassScope then inherited else Names(attributes, scope, inherited)
  }

  lemma {:induction false} LyingOccurs(attributes: set<string>, scope: Node, root: Node, outer: set<string>)
    returns (inherited: set<string>)
    requires Lies(scope, root)
    ensures Occurs(attributes, scope, inherited, root, outer)
    decreases Size(root)
  {
    if scope == root {
      inherited := outer;
    } else {
      var n :| n in ScopeNodes(root) && n.Scope? && Lies(scope, n);
      inherited := LyingOccurs(attributes, scope, n, SeenInside(attributes, root, outer));
    }
  }

  /** The handler registry is read, assigned or deleted, or reached by its name. */
  ghost predicate Accesses(attributes: set<string>, names: set<string>, n: Node) {
    match n
    case Attribute(_, v, attr) => attr == "handlers" && Leads(attributes, names, v)
    case Call(_, f, args, _) =>
      && f.Name? && (f.id == "getattr" || f.id == "setattr" || f.id == "delattr")
      && |args| >= 2 && Leads(attributes, names, args[0]) && args[1].Text? && args[1].text == "handlers"
    case _ => false
  }

  lemma AccessesExactly(attributes: set<string>, names: set<string>, n: Node)
    ensures IsRegistryAccess(attributes, names, n) <==> Accesses(attributes, names, n)
  {
    hide Leads, IsApplication;
    match n
    case Attribute(_, v, _) => ApplicationsExactly(attributes, names, v);
    case Call(_, _, args, _) =>
      if args != [] {
        ApplicationsExactly(attributes, names, args[0]);
      }
    case _ =>
  }

  ghost predicate FoundIn(attributes: set<string>, scope: Node, names: set<string>, line: nat) {
    exists n :: n in ScopeNodes(scope) && !n.Scope? && n.line == line && Accesses(attributes, names, n)
  }

  ghost predicate BoundIn(attributes: set<string>, scope: Node, names: set<string>, attr: string) {
    exists n, t :: n in ScopeNodes(scope) && Binds(attributes, names, n, t) && t.Attribute? && t.attr == attr
  }

  lemma FoundExactly(attributes: set<string>, scope: Node, names: set<string>, line: nat)
    ensures line in AccessLines(attributes, names, ScopeNodes(scope)) <==> FoundIn(attributes, scope, names, line)
  {
    hide Accesses, IsRegistryAccess;
    forall n | n in ScopeNodes(scope)
      ensures IsRegistryAccess(attributes, names, n) <==> Accesses(attributes, names, n)
    {
      AccessesExactly(attributes, names, n);
    }
  }

  lemma BoundExactly(attributes: set<string>, scope: Node, names: set<string>, attr: string)
    ensures attr in BoundAttributes(attributes, names, ScopeNodes(scope)) <==> BoundIn(attributes, scope, names, attr)
  {
    hide Binds, BoundTargets;
    forall n, t | n in ScopeNodes(scope)
      ensures t in BoundTargets(attributes, names, n) <==> Binds(attributes, names, n, t)
    {
      TargetsExactly(attributes, names, n, t);
    }
  }

  /** The lines and attributes of a tree of scopes are those of the scopes that occur in it. */
  lemma {:induction false} TreeExactly(attributes: set<string>, root: Node, outer: set<string>, line: nat, attr: string)
    ensures line in TreeLines(attributes, root, outer) <==>
              exists scope, inherited :: Occurs(attributes, scope, inherited, root, outer)
                                         && FoundIn(attributes, scope, Names(attributes, scope, inherited), line)
    ensures attr in TreeAttributes(attributes, root, outer) <==>
              exists scope, inherited :: Occurs(attributes, scope, inherited, root, outer)
                                         && BoundIn(attributes, scope, Names(attributes, scope, inherited), attr)
    decreases Size(root)
  {
    hide FoundIn, BoundIn, AccessLines, BoundAttributes, Names;
    var inside := SeenInside(attributes, root, outer);
    FoundExactly(attributes, root, Names(attributes, root, outer), line);
    BoundExactly(attributes, root, Names(attributes, root, outer), attr);
    forall n | n in ScopeNodes(root) && n.Scope?
      ensures line in TreeLines(attributes, n, inside) <==>
                exists scope, inherited :: Occurs(attributes, scope, inherited, n, inside)
                                           && FoundIn(attributes, scope, Names(attributes, scope, inherited), line)
      ensures attr in TreeAttributes(attributes, n, inside) <==>
                exists scope, inherited :: Occurs(attributes, scope, inherited, n, inside)
                                           && BoundIn(attributes, scope, Names(attributes, scope, inherited), attr)
    {
      TreeExactly(attributes, n, inside, line, attr);
    }
    assert Visible(root, outer, Names(attributes, root, outer)) == inside;
    assert Occurs(attributes, root, outer, root, outer);
  }

  /** The analysis finds exactly the lines that access the registry in some scope of the module,
      through the names of that scope and the alias attributes of the module; */
  lemma LinesExactly(root: Node, line: nat)
    ensures var a := LeastAttributes(root);
            line in LeastLines(root) <==>
              exists scope, inherited :: Occurs(a, scope, inherited, root, {})
                                         && FoundIn(a, scope, Names(a, scope, inherited), line)
  {
    TreeExactly(LeastAttributes(root), root, {}, line, "");
  }

  /** and these are exactly the attributes bound to the application in some scope of it. */
  lemma AttributesExactly(root: Node, attr: string)
    ensures var a := LeastAttributes(root);
            attr in a <==>
              exists scope, inherited :: Occurs(a, scope, inherited, root, {})
                                         && BoundIn(a, scope, Names(a, scope, inherited), attr)
  {
    hide Occurs, BoundIn, Names, TreeAttributes, ClosedAttributes;
    var a := LeastAttributes(root);
    TreeExactly(a, root, {}, 0, attr);
    ClosedAttributesIsClosed(root, {});
    var tree := TreeAttributes(a, root, {});
    TreeGrows(tree, a, root, {}, {});
    ClosedAttributesIsLeast(root, {}, tree);
  }

  /** The names of a scope are closed under every form of binding. */
  lemma BoundNameIsAlias(attributes: set<string>, scope: Node, inherited: set<string>, n: Node, target: Node)
    requires n in ScopeNodes(scope) && target.Name?
    requires Binds(attributes, Names(attributes, scope, inherited), n, target)
    ensures target.id in Names(attributes, scope, inherited)
  {
    hide Binds, Names, BoundTargets, ScopeNodes;
    var names := Names(attributes, scope, inherited);
    NamesIsLeastClosed(attributes, scope, inherited);
    TargetsExactly(attributes, names, n, target);
    assert target.id in BoundNames(attributes, names, ScopeNodes(scope));
  }

  // ------------------------------------------------------------- every form is found

  /** The scope itself makes `x` an alias: it is a parameter typed as the application, or a
      statement of the scope binds it to an expression that leads to the application. */
  ghost predicate Introduces(scope: Node, x: string) {
    || (scope.Scope? && scope.kind == FunctionScope
        && exists k :: 0 <= k < |scope.parameters| && LastOfName(scope.parameters, k) && scope.parameters[k].name == x
                       && ParameterIsTyped(scope.parameters, k))
    || exists n, t :: n in ScopeNodes(scope) && Binds({}, {}, n, t) && t.Name? && t.id == x
  }

  lemma LeadsGrows(a: set<string>, a': set<string>, x: set<string>, x': set<string>, n: Node)
    requires a <= a' && x <= x' && Leads(a, x, n)
    ensures Leads(a', x', n)
  {
    var base, links :| n == Chain(base, links) && IsBase(a, x, base);
    assert IsBase(a', x', base);
  }

  lemma BindsGrows(a: set<string>, a': set<string>, x: set<string>, x': set<string>, n: Node, t: Node)
    requires a <= a' && x <= x' && Binds(a, x, n, t)
    ensures Binds(a', x', n, t)
  {
    hide Binds, BoundTargets;
    TargetsExactly(a, x, n, t);
    BoundTargetsGrow(a, a', x, x', n, t);
    TargetsExactly(a', x', n, t);
  }

  lemma AccessesGrows(a: set<string>, a': set<string>, x: set<string>, x': set<string>, n: Node)
    requires a <= a' && x <= x' && Accesses(a, x, n)
    ensures Accesses(a', x', n)
  {
    hide Leads;
    LeadsGrows(a, a', x, x', if n.Attribute? then n.value else n.args[0]);
  }

  lemma IntroducedNameIsAlias(attributes: set<string>, scope: Node, inherited: set<string>, x: string)
    requires Introduces(scope, x)
    ensures x in Names(attributes, scope, inherited)
  {
    hide Binds, Names, ParameterIsTyped, LastOfName, Start;
    NamesIsLeastClosed(attributes, scope, inherited);
    StartExactly(scope, inherited, x);
    if n, t :| n in ScopeNodes(scope) && Binds({}, {}, n, t) && t.Name? && t.id == x {
      BindsGrows({}, attributes, {}, Names(attributes, scope, inherited), n, t);
      BoundNameIsAlias(attributes, scope, inherited, n, t);
    }
  }

  /** Going inwards from `outer`, no function on the way, `scope` included, has a parameter `x`. */
  ghost predicate SeesFrom(x: string, scope: Node, outer: Node)
    decreases Size(outer)
  {
    exists n :: n in ScopeNodes(outer) && n.Scope?
                && (n.kind == FunctionScope ==> forall k :: 0 <= k < |n.parameters| ==> n.parameters[k].name != x)
                && (n == scope || SeesFrom(x, scope, n))
  }

  lemma {:induction false} AliasIsSeen(attributes: set<string>, x: string, scope: Node, outer: Node, i: set<string>)
    returns (inherited: set<string>)
    requires SeesFrom(x, scope, outer) && x in SeenInside(attributes, outer, i)
    ensures Occurs(attributes, scope, inherited, outer, i) && x in Names(attributes, scope, inherited)
    decreases Size(outer)
  {
    hide Names, Start;
    var n :| n in ScopeNodes(outer) && n.Scope?
             && (n.kind == FunctionScope ==> forall k :: 0 <= k < |n.parameters| ==> n.parameters[k].name != x)
             && (n == scope || SeesFrom(x, scope, n));
    var inside := SeenInside(attributes, outer, i);
    StartExactly(n, inside, x);
    NamesIsLeastClosed(attributes, n, inside);
    if n == scope {
      inherited := inside;
      assert Occurs(attributes, n, inside, n, inside);
    } else {
      inherited := AliasIsSeen(attributes, x, scope, n, inside);
    }
  }

  lemma {:induction false} OccursThrough(attributes: set<string>, scope: Node, inherited: set<string>, middle: Node,
                                         between: set<string>, root: Node, outer: set<string>)
    requires Occurs(attributes, middle, between, root, outer)
    requires Occurs(attributes, scope, inherited, middle, between)
    ensures Occurs(attributes, scope, inherited, root, outer)
    decreases Size(root)
  {
    hide SeenInside;
    if !(middle == root && between == outer) {
      var n :| n in ScopeNodes(root) && n.Scope?
               && Occurs(attributes, middle, between, n, SeenInside(attributes, root, outer));
      OccursThrough(attributes, scope, inherited, middle, between, n, SeenInside(attributes, root, outer));
    }
  }

  lemma AccessIsFound(root: Node, scope: Node, inherited: set<string>, n: Node, a: set<string>, x: set<string>)
    requires Occurs(LeastAttributes(root), scope, inherited, root, {})
    requires n in ScopeNodes(scope) && Accesses(a, x, n)
    requires a <= LeastAttributes(root) && x <= Names(LeastAttributes(root), scope, inherited)
    ensures n.line in LeastLines(root)
  {
    hide Accesses, Occurs, Names, LeastLines;
    AccessesGrows(a, LeastAttributes(root), x, Names(LeastAttributes(root), scope, inherited), n);
    assert FoundIn(LeastAttributes(root), scope, Names(LeastAttributes(root), scope, inherited), n.line) by {
      AccessIsNoScope(a, x, n);
    }
    LinesExactly(root, n.line);
  }

  lemma AccessIsNoScope(a: set<string>, x: set<string>, n: Node)
    requires Accesses(a, x, n)
    ensures !n.Scope?
  {
  }

  /** Wherever a scope of a module makes `x` an alias, an access through `x` in that scope is
      found, whatever chain of attributes, subscripts and calls stands between. */
  lemma AliasIsFound(root: Node, scope: Node, x: string, n: Node)
    requires Lies(scope, root) && Introduces(scope, x)
    requires n in ScopeNodes(scope) && Accesses({}, {x}, n)
    ensures n.line in LeastLines(root)
  {
    hide Accesses, Introduces, Lies, Occurs, Names, LeastLines;
    var a := LeastAttributes(root);
    var inherited := LyingOccurs(a, scope, root, {});
    IntroducedNameIsAlias(a, scope, inherited, x);
    AccessIsFound(root, scope, inherited, n, {}, {x});
  }

  /** So it is in the scopes nested in it, unless a parameter shadows `x`; what a class body
      binds is seen in the class body only. */
  lemma NestedAliasIsFound(root: Node, outer: Node, x: string, scope: Node, n: Node)
    requires Lies(outer, root) && Introduces(outer, x) && !(outer.Scope? && outer.kind == ClassScope)
    requires SeesFrom(x, scope, outer)
    requires n in ScopeNodes(scope) && Accesses({}, {x}, n)
    ensures n.line in LeastLines(root)
  {
    hide Accesses, Introduces, Lies, Occurs, Names, LeastLines, SeesFrom;
    var a := LeastAttributes(root);
    var between := LyingOccurs(a, outer, root, {});
    IntroducedNameIsAlias(a, outer, between, x);
    var inherited := AliasIsSeen(a, x, scope, outer, between);
    OccursThrough(a, scope, inherited, outer, between, root, {});
    AccessIsFound(root, scope, inherited, n, {}, {x});
  }

  /** An attribute bound to the application anywhere is an alias everywhere in the module. */
  lemma AttributeAliasIsFound(root: Node, scope: Node, statement: Node, target: Node, other: Node, n: Node)
    requires Lies(scope, root) && statement in ScopeNodes(scope)
    requires Binds({}, {}, statement, target) && target.Attribute?
    requires Lies(other, root) && n in ScopeNodes(other) && Accesses({target.attr}, {}, n)
    ensures n.line in LeastLines(root)
  {
    hide Accesses, Binds, Lies, Occurs, Names, LeastLines;
    var a := LeastAttributes(root);
    var inherited := LyingOccurs(a, scope, root, {});
    BindsGrows({}, a, {}, Names(a, scope, inherited), statement, target);
    assert BoundIn(a, scope, Names(a, scope, inherited), target.attr);
    AttributesExactly(root, target.attr);
    var seen := LyingOccurs(a, other, root, {});
    AccessIsFound(root, other, seen, n, {target.attr}, {});
  }
}
