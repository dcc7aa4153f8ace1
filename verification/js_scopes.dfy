/** The scope tree of a JavaScript file (analyseJs.py:67-184): `_getScopeTree`
    walks the parse tree, opening a scope for every block statement and every
    function, and `_getVariables` records in the current scope the variables a
    node declares, assigns or names.

    The Python scopes are objects linked by `parent` and `children`; here they
    live in an arena, a sequence indexed by scope number, with the root at 0 and
    `parent`/`children` holding indices. The walk either completes or raises the
    IndexError of an assignment whose target names no identifier; `raised`
    records the latter, and the arena then holds what was built before it. */
module JsScopes {
  import opened Common
  import opened JsAst

  datatype ScopeKind = GlobalScope | ModuleScope | BlockScope | FunctionScope | ArrowExpressionScope

  /** `VariableInfo.type` */
  datatype Role = Declaration | Parameter | Assignment | Undeclared

  /** `VariableInfo`: `scope` is the index of the scope it was recorded in, `at`
      its line and column (None where the Python leaves them unset). */
  datatype Occurrence = Occurrence(
    name: Option<string>,
    kind: Option<DeclKind>,
    role: Role,
    initialValue: Option<string>,
    scope: nat,
    at: Option<Pos>)

  /** `ScopeInfo`, with `children` and `parent` as arena indices. */
  datatype Scope = Scope(level: nat, kind: ScopeKind, variables: seq<Occurrence>, children: seq<nat>, parent: Option<nat>)

  type Arena = seq<Scope>

  /** Result of walking a node: the arena, and whether the walk raised. */
  datatype Outcome = Outcome(scopes: Arena, raised: bool)

  predicate IsRootKind(k: ScopeKind) {
    k == GlobalScope || k == ModuleScope
  }

  /** The shape `_getScopeTree` builds: a tree rooted at 0 whose levels count the
      depth, whose parent and children links agree, in which every scope is
      appended once to its parent's children, and whose occurrences sit in the
      scope they name. */
  ghost predicate WellFormed(a: Arena) {
    && |a| > 0
    && a[0].level == 0 && a[0].parent == None && IsRootKind(a[0].kind)
    && ParentsLinked(a) && ChildrenLinked(a) && ChildrenDistinct(a) && VariablesPlaced(a)
  }

  /** Every scope but the root hangs below an earlier scope, one level deeper,
      and is listed among its children. */
  ghost predicate ParentsLinked(a: Arena) {
    forall i {:trigger a[i].parent} :: 0 < i < |a| ==>
      && a[i].parent.Some? && a[i].parent.value < i
      && a[i].level == a[a[i].parent.value].level + 1
      && !IsRootKind(a[i].kind)
      && i in a[a[i].parent.value].children
  }

  ghost predicate ChildrenLinked(a: Arena) {
    forall i, j :: 0 <= i < |a| && 0 <= j < |a[i].children| ==>
      i < a[i].children[j] < |a| && a[a[i].children[j]].parent == Some(i)
  }

  ghost predicate ChildrenDistinct(a: Arena) {
    forall i {:trigger a[i].children} :: 0 <= i < |a| ==> Distinct(a[i].children)
  }

  ghost predicate VariablesPlaced(a: Arena) {
    forall i, k :: 0 <= i < |a| && 0 <= k < |a[i].variables| ==> a[i].variables[k].scope == i
  }

  /** The arena as it starts: the program's scope, 'module' or 'global'. */
  function Root(p: Program): (a: Arena)
    ensures WellFormed(a)
    ensures a[0].kind == ModuleScope <==> p.sourceType == "module"
  {
    [Scope(0, if p.sourceType == "module" then ModuleScope else GlobalScope, [], [], None)]
  }

  /** A new scope one level below `parent`, appended to its children. */
  function Open(a: Arena, parent: nat, kind: ScopeKind): (r: Arena)
    requires parent < |a|
    ensures |r| == |a| + 1
  {
    a[parent := a[parent].(children := a[parent].children + [|a|])]
    + [Scope(a[parent].level + 1, kind, [], [], Some(parent))]
  }

  /** `variables.append(...)` for each of `occs`, in scope `s`. */
  function Record(a: Arena, s: nat, occs: seq<Occurrence>): (r: Arena)
    requires s < |a|
    ensures |r| == |a|
  {
    a[s := a[s].(variables := a[s].variables + occs)]
  }

  /** The scope a function opens: an arrow function whose body is an expression
      gets an 'arrowexpression' scope, every other function a 'function' scope. */
  function FunctionScopeKind(form: FunctionForm, body: Node): (k: ScopeKind)
    ensures k == ArrowExpressionScope <==> form == ArrowFunctionExpression && !body.BlockStatement?
    ensures k != ArrowExpressionScope ==> k == FunctionScope
  {
    if form == ArrowFunctionExpression && !body.BlockStatement? then ArrowExpressionScope else FunctionScope
  }

  /** `findIdentifiers`: the names of the identifiers reachable through single
      sub-node fields, in field order; lists are not searched. */
  function FindIdentifiers(n: Node): seq<string> {
    match n
    case Identifier(_, name) => [name]
    case ExpressionStatement(_, e, _) => FindIdentifiers(e)
    case AssignmentExpression(_, l, r) => FindIdentifiers(l) + FindIdentifiers(r)
    case Function(_, _, id, _, body) =>
      (if id.Some? then FindIdentifiers(id.value) else []) + FindIdentifiers(body)
    case Other(_, _, fs) => FieldIdentifiers(fs)
    case _ => []
  }

  function FieldIdentifiers(fs: seq<Field>): seq<string> {
    if fs == [] then [] else FieldIdentifier(fs[0]) + FieldIdentifiers(fs[1..])
  }

  function FieldIdentifier(f: Field): seq<string> {
    if f.Child? then FindIdentifiers(f.node) else []
  }

  /** The name recorded for an assignment: the target's name when it is an
      identifier, otherwise the first identifier found in the assignment; None
      where there is none and `ids[0]` raises. */
  function AssignedName(n: Node): (r: Option<string>)
    requires n.AssignmentExpression?
    ensures n.left.Identifier? ==> r == Some(n.left.name)
    ensures r.None? <==> !n.left.Identifier? && FindIdentifiers(n.left) == [] && FindIdentifiers(n.right) == []
  {
    if n.left.Identifier? then Some(n.left.name)
    else
      var ids := FindIdentifiers(n);
      if ids == [] then None else Some(ids[0])
  }

  /** The occurrences of the declarators of one declaration, in scope `s`.
      `carried` is the initial value left over from the previous declarator. */
  function DeclarationOccurrences(kind: DeclKind, ds: seq<Declarator>, s: nat, carried: Option<string>): (r: seq<Occurrence>)
    ensures |r| == |ds|
  {
    if ds == [] then []
    else
      var d := ds[0];
      var value := if d.init.Some? then LiteralValue(d.init.value) else carried;
      [Occurrence(NameOf(d.id), Some(kind), Declaration, value, s, Some(d.id.at))]
      + DeclarationOccurrences(kind, ds[1..], s, value)
  }

  /** Each declarator gives one 'declaration' of the declaration's kind, named
      after its target when that is an identifier and placed at the target. Its
      initial value is the literal it is initialised with (None for an
      initialiser that is not a literal); a declarator without initialiser
      repeats the value of the one before it. */
  lemma DeclarationOccurrencesFacts(kind: DeclKind, ds: seq<Declarator>, s: nat, carried: Option<string>)
    ensures var r := DeclarationOccurrences(kind, ds, s, carried);
      && (forall i :: 0 <= i < |ds| ==>
            && r[i].name == NameOf(ds[i].id) && r[i].kind == Some(kind) && r[i].role == Declaration
            && r[i].scope == s && r[i].at == Some(ds[i].id.at))
      && (forall i :: 0 <= i < |ds| && ds[i].init.Some? ==> r[i].initialValue == LiteralValue(ds[i].init.value))
      && (forall i {:trigger ds[i]} :: 0 < i < |ds| && ds[i].init.None? ==> r[i].initialValue == r[i - 1].initialValue)
      && (0 < |ds| && ds[0].init.None? ==> r[0].initialValue == carried)
  {
    forall i | 0 <= i < |ds| {
      DeclarationAt(kind, ds, s, carried, i);
    }
  }

  /** Record i is made from declarator i and the value carried to it. */
  lemma {:induction false} DeclarationAt(kind: DeclKind, ds: seq<Declarator>, s: nat, carried: Option<string>, i: nat)
    requires i < |ds|
    ensures var r := DeclarationOccurrences(kind, ds, s, carried);
      var before := if i == 0 then carried else r[i - 1].initialValue;
      r[i] == Occurrence(NameOf(ds[i].id), Some(kind), Declaration,
                         if ds[i].init.Some? then LiteralValue(ds[i].init.value) else before, s, Some(ds[i].id.at))
  {
    var value := if ds[0].init.Some? then LiteralValue(ds[0].init.value) else carried;
    var r := DeclarationOccurrences(kind, ds, s, carried);
    var rest := DeclarationOccurrences(kind, ds[1..], s, value);
    assert r == [r[0]] + rest;
    if i > 0 {
      DeclarationAt(kind, ds[1..], s, value, i - 1);
      assert ds[1..][i - 1] == ds[i];
      assert r[i] == rest[i - 1];
      if i > 1 {
        assert r[i - 1] == rest[i - 2];
      }
    }
  }

  /** The occurrences of a function's parameters, in scope `s`, starting from
      the given name, initial value and position. */
  function ParameterOccurrences(ps: seq<Node>, s: nat, name: Option<string>, value: Option<string>, at: Option<Pos>): (r: seq<Occurrence>)
    ensures |r| == |ps|
  {
    if ps == [] then []
    else
      var p := ps[0];
      [Occurrence(NextName(p, name), None, Parameter, NextValue(p, value), s, NextAt(p, at))]
      + ParameterOccurrences(ps[1..], s, NextName(p, name), NextValue(p, value), NextAt(p, at))
  }

  /** The name recorded for parameter `p` when the one before it had `name`. */
  function NextName(p: Node, name: Option<string>): Option<string> {
    if p.Identifier? then Some(p.name) else if p.AssignmentExpression? then NameOf(p.left) else name
  }

  /** The initial value recorded for parameter `p`. */
  function NextValue(p: Node, value: Option<string>): Option<string> {
    if p.AssignmentExpression? then LiteralValue(p.right) else value
  }

  /** The position recorded for parameter `p`. */
  function NextAt(p: Node, at: Option<Pos>): Option<Pos> {
    if p.Identifier? then Some(p.at) else if p.AssignmentExpression? then Some(p.left.at) else at
  }

  lemma ParameterOccurrencesCons(ps: seq<Node>, s: nat, name: Option<string>, value: Option<string>, at: Option<Pos>)
    requires ps != []
    ensures var r := ParameterOccurrences(ps, s, name, value, at);
      var rest := ParameterOccurrences(ps[1..], s, NextName(ps[0], name), NextValue(ps[0], value), NextAt(ps[0], at));
      && r[0] == Occurrence(NextName(ps[0], name), None, Parameter, NextValue(ps[0], value), s, NextAt(ps[0], at))
      && forall i :: 0 < i < |ps| ==> r[i] == rest[i - 1] && ps[i] == ps[1..][i - 1]
  {
  }

  /** Each parameter gives one 'parameter' without kind. An identifier sets name
      and position; a parameter shaped as an assignment sets name, position and
      initial value (its right-hand literal, or None). */
  lemma ParameterOccurrencesFacts(ps: seq<Node>, s: nat, name: Option<string>, value: Option<string>, at: Option<Pos>)
    ensures var r := ParameterOccurrences(ps, s, name, value, at);
      && (forall i :: 0 <= i < |ps| ==> r[i].role == Parameter && r[i].kind == None && r[i].scope == s)
      && (forall i :: 0 <= i < |ps| && ps[i].Identifier? ==> r[i].name == Some(ps[i].name) && r[i].at == Some(ps[i].at))
      && (forall i :: 0 <= i < |ps| && ps[i].AssignmentExpression? ==>
            r[i].name == NameOf(ps[i].left) && r[i].at == Some(ps[i].left.at) && r[i].initialValue == LiteralValue(ps[i].right))
  {
    ParameterRoles(ps, s, name, value, at);
    forall i | 0 <= i < |ps| {
      ParameterAt(ps, s, name, value, at, i);
    }
  }

  lemma {:induction false} ParameterRoles(ps: seq<Node>, s: nat, name: Option<string>, value: Option<string>, at: Option<Pos>)
    ensures var r := ParameterOccurrences(ps, s, name, value, at);
      forall i :: 0 <= i < |ps| ==> r[i].role == Parameter && r[i].kind == None && r[i].scope == s
  {
    if ps != [] {
      ParameterRoles(ps[1..], s, NextName(ps[0], name), NextValue(ps[0], value), NextAt(ps[0], at));
      ParameterOccurrencesCons(ps, s, name, value, at);
    }
  }

  /** Record i is made from parameter i and the name, value and position
      before it. */
  lemma {:induction false} ParameterAt(ps: seq<Node>, s: nat, name: Option<string>, value: Option<string>, at: Option<Pos>, i: nat)
    requires i < |ps|
    ensures var r := ParameterOccurrences(ps, s, name, value, at);
      var prevName := if i == 0 then name else r[i - 1].name;
      var prevValue := if i == 0 then value else r[i - 1].initialValue;
      var prevAt := if i == 0 then at else r[i - 1].at;
      r[i].name == NextName(ps[i], prevName) && r[i].initialValue == NextValue(ps[i], prevValue)
      && r[i].at == NextAt(ps[i], prevAt)
  {
    ParameterOccurrencesCons(ps, s, name, value, at);
    if i > 0 {
      ParameterAt(ps[1..], s, NextName(ps[0], name), NextValue(ps[0], value), NextAt(ps[0], at), i - 1);
    }
  }

  /** What a parameter that is neither an identifier nor an assignment records:
      the name, position and initial value of the parameter before it (None for
      the first); an identifier keeps the initial value before it. */
  lemma ParameterOccurrencesCarry(ps: seq<Node>, s: nat, name: Option<string>, value: Option<string>, at: Option<Pos>)
    ensures var r := ParameterOccurrences(ps, s, name, value, at);
      && (forall i {:trigger ps[i]} :: 0 < i < |ps| && !ps[i].AssignmentExpression? ==> r[i].initialValue == r[i - 1].initialValue)
      && (forall i {:trigger ps[i]} :: 0 < i < |ps| && !ps[i].Identifier? && !ps[i].AssignmentExpression? ==>
            r[i].name == r[i - 1].name && r[i].at == r[i - 1].at)
      && (0 < |ps| && !ps[0].AssignmentExpression? ==> r[0].initialValue == value)
      && (0 < |ps| && !ps[0].Identifier? && !ps[0].AssignmentExpression? ==> r[0].name == name && r[0].at == at)
  {
    forall i | 0 <= i < |ps| {
      ParameterAt(ps, s, name, value, at, i);
    }
  }

  /** What `_getVariables(node, s)` appends to scope `s`: None where it raises. */
  function OwnOccurrences(n: Node, s: nat): (r: Option<seq<Occurrence>>)
    ensures r.None? <==> n.AssignmentExpression? && AssignedName(n).None?
    ensures r.Some? ==> forall k :: 0 <= k < |r.value| ==> r.value[k].scope == s
  {
    match n
    case VariableDeclaration(_, kind, ds) =>
      DeclarationOccurrencesFacts(kind, ds, s, None);
      Some(DeclarationOccurrences(kind, ds, s, None))
    case ExpressionStatement(_, e, _) =>
      Some(if e.Identifier? then [Occurrence(Some(e.name), None, Undeclared, None, s, Some(e.at))] else [])
    case AssignmentExpression(_, left, _) =>
      var name := AssignedName(n);
      if name.None? then None else Some([Occurrence(name, None, Assignment, None, s, Some(left.at))])
    case Function(_, _, _, params, _) =>
      ParameterOccurrencesFacts(params, s, None, None, None);
      Some(ParameterOccurrences(params, s, None, None, None))
    case _ => Some([])
  }

  lemma RecordNothing(a: Arena, s: nat)
    requires s < |a|
    ensures Record(a, s, []) == a
  {
    assert a[s].variables + [] == a[s].variables;
  }

  lemma RecordTwice(a: Arena, s: nat, xs: seq<Occurrence>, ys: seq<Occurrence>)
    requires s < |a|
    ensures Record(Record(a, s, xs), s, ys) == Record(a, s, xs + ys)
  {
    assert a[s].variables + xs + ys == a[s].variables + (xs + ys);
  }

  lemma DeclarationOccurrencesStep(kind: DeclKind, ds: seq<Declarator>, i: nat, s: nat, carried: Option<string>)
    requires i < |ds|
    ensures var value := if ds[i].init.Some? then LiteralValue(ds[i].init.value) else carried;
      DeclarationOccurrences(kind, ds[i..], s, carried)
      == [Occurrence(NameOf(ds[i].id), Some(kind), Declaration, value, s, Some(ds[i].id.at))]
         + DeclarationOccurrences(kind, ds[i + 1..], s, value)
  {
    assert ds[i..][1..] == ds[i + 1..];
  }

  lemma ParameterOccurrencesStep(ps: seq<Node>, i: nat, s: nat, name: Option<string>, value: Option<string>, at: Option<Pos>)
    requires i < |ps|
    ensures var p := ps[i];
      var name' := if p.Identifier? then Some(p.name) else if p.AssignmentExpression? then NameOf(p.left) else name;
      var value' := if p.AssignmentExpression? then LiteralValue(p.right) else value;
      var at' := if p.Identifier? then Some(p.at) else if p.AssignmentExpression? then Some(p.left.at) else at;
      ParameterOccurrences(ps[i..], s, name, value, at)
      == [Occurrence(name', None, Parameter, value', s, at')] + ParameterOccurrences(ps[i + 1..], s, name', value', at')
  {
    assert ps[i..][1..] == ps[i + 1..];
  }

  /** Appends the occurrences of a node, or raises. */
  function Recorded(a: Arena, s: nat, own: Option<seq<Occurrence>>): (r: Outcome)
    requires s < |a|
    ensures |r.scopes| == |a|
  {
    if own.None? then Outcome(a, true) else Outcome(Record(a, s, own.value), false)
  }

  /** The scope tree of a (fixed-up) program: the root scope, then the walk of
      the top-level statements in it. */
  function ScopeTree(p: Program): (r: Outcome)
    ensures |r.scopes| >= 1
  {
    WalkedList(p.body, 0, Root(p))
  }

  /** `_getScopeTree(node, cur)` on a node: a block or a function walks its
      statements in a new scope (a function's own block does not open a second
      one) and then records the node's occurrences there; any other node walks
      its sub-nodes in `cur`, catching what they raise, and then records its
      occurrences in `cur`. */
  function Walked(n: Node, cur: nat, a: Arena): (r: Outcome)
    requires cur < |a|
    ensures |a| <= |r.scopes|
    decreases n, 1
  {
    match n
    case BlockStatement(_, stmts) =>
      var s := |a|;
      var r1 := WalkedList(stmts, s, Open(a, cur, BlockScope));
      if r1.raised then r1 else Recorded(r1.scopes, s, OwnOccurrences(n, s))
    case Function(_, form, _, _, body) =>
      var s := |a|;
      var a1 := Open(a, cur, FunctionScopeKind(form, body));
      var r1 := if body.BlockStatement? then WalkedList(body.statements, s, a1) else Walked(body, s, a1);
      if r1.raised then r1 else Recorded(r1.scopes, s, OwnOccurrences(n, s))
    case _ =>
      Recorded(WalkedChildren(n, cur, a), cur, OwnOccurrences(n, cur))
  }

  /** The `try: for attr, value in vars(node).items(): ...` of a generic node:
      its sub-nodes in field order, the remaining ones skipped once one raises,
      and the exception itself dropped. */
  function WalkedChildren(n: Node, cur: nat, a: Arena): (r: Arena)
    requires cur < |a|
    requires !n.BlockStatement? && !n.Function?
    ensures |a| <= |r|
    decreases n, 0
  {
    match n
    case VariableDeclaration(_, _, ds) => WalkedDeclarators(ds, cur, a)
    case ExpressionStatement(_, e, _) => Walked(e, cur, a).scopes
    case AssignmentExpression(_, left, right) =>
      var r1 := Walked(left, cur, a);
      if r1.raised then r1.scopes else Walked(right, cur, r1.scopes).scopes
    case Other(_, _, fs) => WalkedFields(fs, cur, a).scopes
    case _ => a
  }

  /** `_getScopeTree` on a list: the items in order, stopping at the first that
      raises and passing the exception on. */
  function WalkedList(ns: seq<Node>, cur: nat, a: Arena): (r: Outcome)
    requires cur < |a|
    ensures |a| <= |r.scopes|
    decreases ns, 0
  {
    if ns == [] then Outcome(a, false)
    else
      var r1 := Walked(ns[0], cur, a);
      if r1.raised then r1 else WalkedList(ns[1..], cur, r1.scopes)
  }

  /** The sub-node fields of an `Other` node, stopping at the first that raises. */
  function WalkedFields(fs: seq<Field>, cur: nat, a: Arena): (r: Outcome)
    requires cur < |a|
    ensures |a| <= |r.scopes|
    decreases fs, 0
  {
    if fs == [] then Outcome(a, false)
    else
      var r1 := WalkedField(fs[0], cur, a);
      if r1.raised then r1 else WalkedFields(fs[1..], cur, r1.scopes)
  }

  function WalkedField(f: Field, cur: nat, a: Arena): (r: Outcome)
    requires cur < |a|
    ensures |a| <= |r.scopes|
    decreases f, 0
  {
    match f
    case Child(m) => Walked(m, cur, a)
    case Children(ms) => WalkedList(ms, cur, a)
  }

  /** The declarators of a declaration, each a generic node with fields `id` and
      `init` whose walk catches what those raise. */
  function WalkedDeclarators(ds: seq<Declarator>, cur: nat, a: Arena): (r: Arena)
    requires cur < |a|
    ensures |a| <= |r|
    decreases ds, 0
  {
    if ds == [] then a else WalkedDeclarators(ds[1..], cur, WalkedDeclarator(ds[0], cur, a))
  }

  function WalkedDeclarator(d: Declarator, cur: nat, a: Arena): (r: Arena)
    requires cur < |a|
    ensures |a| <= |r|
    decreases d, 0
  {
    var r1 := Walked(d.id, cur, a);
    if r1.raised || d.init.None? then r1.scopes else Walked(d.init.value, cur, r1.scopes).scopes
  }

  // ---------------------------------------------------------------------------
  // The shape of the tree

  /** `r` is `a` after work in scope `cur` and in scopes created after `a`: the
      other existing scopes are untouched, and `cur` only gained variables and
      children at the end. */
  ghost predicate Grows(a: Arena, r: Arena, cur: nat) {
    && cur < |a| <= |r|
    && (forall j :: 0 <= j < |a| && j != cur ==> r[j] == a[j])
    && r[cur].level == a[cur].level && r[cur].kind == a[cur].kind && r[cur].parent == a[cur].parent
    && a[cur].variables <= r[cur].variables
    && a[cur].children <= r[cur].children
  }

  lemma GrowsTransitive(a: Arena, b: Arena, c: Arena, cur: nat)
    requires Grows(a, b, cur) && Grows(b, c, cur)
    ensures Grows(a, c, cur)
  {
  }

  /** Work in a scope created after `a` leaves the scopes of `a` as they were. */
  lemma GrowsNested(a: Arena, a1: Arena, b: Arena, s: nat, cur: nat)
    requires Grows(a, a1, cur) && Grows(a1, b, s) && |a| <= s
    ensures Grows(a, b, cur)
  {
  }

  lemma OpenWellFormed(a: Arena, p: nat, kind: ScopeKind)
    requires WellFormed(a) && p < |a| && !IsRootKind(kind)
    ensures WellFormed(Open(a, p, kind)) && Grows(a, Open(a, p, kind), p)
  {
    OpenParentsLinked(a, p, kind);
    OpenChildrenLinked(a, p, kind);
    OpenChildrenDistinct(a, p, kind);
    var r := Open(a, p, kind);
    assert forall i :: 0 <= i < |a| && i != p ==> r[i] == a[i];
  }

  lemma OpenParentsLinked(a: Arena, p: nat, kind: ScopeKind)
    requires ParentsLinked(a) && p < |a| && !IsRootKind(kind)
    ensures ParentsLinked(Open(a, p, kind))
  {
    var r := Open(a, p, kind);
    forall i | 0 < i < |r|
      ensures && r[i].parent.Some? && r[i].parent.value < i
              && r[i].level == r[r[i].parent.value].level + 1
              && !IsRootKind(r[i].kind)
              && i in r[r[i].parent.value].children
    {
      if i < |a| {
        var q := a[i].parent.value;
        assert i in a[q].children;
        assert r[q].children == a[q].children || r[q].children == a[q].children + [|a|];
      } else {
        assert r[p].children[|a[p].children|] == i;
      }
    }
  }

  lemma OpenChildrenLinked(a: Arena, p: nat, kind: ScopeKind)
    requires ChildrenLinked(a) && p < |a|
    ensures ChildrenLinked(Open(a, p, kind))
  {
    var r := Open(a, p, kind);
    forall i, j | 0 <= i < |r| && 0 <= j < |r[i].children|
      ensures i < r[i].children[j] < |r| && r[r[i].children[j]].parent == Some(i)
    {
      if i == p && j == |a[p].children| {
        assert r[i].children[j] == |a|;
      } else {
        assert r[i].children[j] == a[i].children[j];
      }
    }
  }

  lemma OpenChildrenDistinct(a: Arena, p: nat, kind: ScopeKind)
    requires ChildrenLinked(a) && ChildrenDistinct(a) && p < |a|
    ensures ChildrenDistinct(Open(a, p, kind))
  {
    var r := Open(a, p, kind);
    forall i | 0 <= i < |r|
      ensures Distinct(r[i].children)
    {
      if i == p {
        forall j | 0 <= j < |a[p].children|
          ensures a[p].children[j] != |a|
        {
        }
      }
    }
  }

  lemma RecordWellFormed(a: Arena, s: nat, occs: seq<Occurrence>)
    requires WellFormed(a) && s < |a|
    requires forall k :: 0 <= k < |occs| ==> occs[k].scope == s
    ensures WellFormed(Record(a, s, occs)) && Grows(a, Record(a, s, occs), s)
  {
    var r := Record(a, s, occs);
    assert forall i :: 0 <= i < |a| && i != s ==> r[i] == a[i];
    SameLinks(a, r);
    RecordVariablesPlaced(a, s, occs);
  }

  /** Scopes with the same levels, kinds, parents and children are linked the
      same way. */
  lemma SameLinks(a: Arena, r: Arena)
    requires |a| == |r|
    requires forall i :: 0 <= i < |a| ==> r[i].children == a[i].children && r[i].parent == a[i].parent
    requires forall i :: 0 <= i < |a| ==> r[i].level == a[i].level && r[i].kind == a[i].kind
    ensures ParentsLinked(a) ==> ParentsLinked(r)
    ensures ChildrenLinked(a) ==> ChildrenLinked(r)
    ensures ChildrenDistinct(a) ==> ChildrenDistinct(r)
  {
  }

  lemma RecordVariablesPlaced(a: Arena, s: nat, occs: seq<Occurrence>)
    requires VariablesPlaced(a) && s < |a|
    requires forall k :: 0 <= k < |occs| ==> occs[k].scope == s
    ensures VariablesPlaced(Record(a, s, occs))
  {
    var r := Record(a, s, occs);
    forall i, k | 0 <= i < |r| && 0 <= k < |r[i].variables|
      ensures r[i].variables[k].scope == i
    {
      if i == s && k >= |a[s].variables| {
        assert r[i].variables[k] == occs[k - |a[s].variables|];
      }
    }
  }

  lemma RecordedWellFormed(a: Arena, s: nat, own: Option<seq<Occurrence>>)
    requires WellFormed(a) && s < |a|
    requires own.Some? ==> forall k :: 0 <= k < |own.value| ==> own.value[k].scope == s
    ensures WellFormed(Recorded(a, s, own).scopes) && Grows(a, Recorded(a, s, own).scopes, s)
  {
    if own.Some? {
      RecordWellFormed(a, s, own.value);
    }
  }

  /** Walking a node keeps the tree well formed, changes no scope that existed
      before except the current one, and only appends to the current one. */
  lemma {:induction false} WalkedWellFormed(n: Node, cur: nat, a: Arena)
    requires WellFormed(a) && cur < |a|
    ensures WellFormed(Walked(n, cur, a).scopes) && Grows(a, Walked(n, cur, a).scopes, cur)
    decreases n, 1
  {
    match n
    case BlockStatement(_, _) => WalkedBlockWellFormed(n, cur, a);
    case Function(_, _, _, _, _) => WalkedFunctionWellFormed(n, cur, a);
    case _ =>
      WalkedChildrenWellFormed(n, cur, a);
      var a1 := WalkedChildren(n, cur, a);
      RecordedWellFormed(a1, cur, OwnOccurrences(n, cur));
      GrowsTransitive(a, a1, Walked(n, cur, a).scopes, cur);
  }

  lemma {:induction false} WalkedBlockWellFormed(n: Node, cur: nat, a: Arena)
    requires WellFormed(a) && cur < |a|
    requires n.BlockStatement?
    ensures WellFormed(Walked(n, cur, a).scopes) && Grows(a, Walked(n, cur, a).scopes, cur)
    decreases n, 0
  {
    var s := |a|;
    var a1 := Open(a, cur, BlockScope);
    OpenWellFormed(a, cur, BlockScope);
    WalkedListWellFormed(n.statements, s, a1);
    var r1 := WalkedList(n.statements, s, a1);
    RecordedWellFormed(r1.scopes, s, OwnOccurrences(n, s));
    GrowsTransitive(a1, r1.scopes, Walked(n, cur, a).scopes, s);
    GrowsNested(a, a1, Walked(n, cur, a).scopes, s, cur);
  }

  lemma {:induction false} WalkedFunctionWellFormed(n: Node, cur: nat, a: Arena)
    requires WellFormed(a) && cur < |a|
    requires n.Function?
    ensures WellFormed(Walked(n, cur, a).scopes) && Grows(a, Walked(n, cur, a).scopes, cur)
    decreases n, 0
  {
    var s := |a|;
    var body := n.body;
    var a1 := Open(a, cur, FunctionScopeKind(n.form, body));
    OpenWellFormed(a, cur, FunctionScopeKind(n.form, body));
    var r1 := if body.BlockStatement? then WalkedList(body.statements, s, a1) else Walked(body, s, a1);
    FunctionBodyWellFormed(body, s, a1);
    RecordedWellFormed(r1.scopes, s, OwnOccurrences(n, s));
    GrowsTransitive(a1, r1.scopes, Walked(n, cur, a).scopes, s);
    GrowsNested(a, a1, Walked(n, cur, a).scopes, s, cur);
  }

  /** A function's body is walked in the function's own scope. */
  lemma {:induction false} FunctionBodyWellFormed(body: Node, s: nat, a1: Arena)
    requires WellFormed(a1) && s < |a1|
    ensures var r1 := if body.BlockStatement? then WalkedList(body.statements, s, a1) else Walked(body, s, a1);
      WellFormed(r1.scopes) && Grows(a1, r1.scopes, s)
    decreases body, 2
  {
    if body.BlockStatement? {
      WalkedListWellFormed(body.statements, s, a1);
    } else {
      WalkedWellFormed(body, s, a1);
    }
  }

  lemma {:induction false} WalkedChildrenWellFormed(n: Node, cur: nat, a: Arena)
    requires WellFormed(a) && cur < |a|
    requires !n.BlockStatement? && !n.Function?
    ensures WellFormed(WalkedChildren(n, cur, a)) && Grows(a, WalkedChildren(n, cur, a), cur)
    decreases n, 0
  {
    match n
    case VariableDeclaration(_, _, ds) => WalkedDeclaratorsWellFormed(ds, cur, a);
    case ExpressionStatement(_, e, _) => WalkedWellFormed(e, cur, a);
    case AssignmentExpression(_, left, right) =>
      WalkedWellFormed(left, cur, a);
      var r1 := Walked(left, cur, a);
      if !r1.raised {
        WalkedWellFormed(right, cur, r1.scopes);
        GrowsTransitive(a, r1.scopes, Walked(right, cur, r1.scopes).scopes, cur);
      }
    case Other(_, _, fs) => WalkedFieldsWellFormed(fs, cur, a);
    case Identifier(_, _) =>
    case Literal(_, _) =>
  }

  lemma {:induction false} WalkedListWellFormed(ns: seq<Node>, cur: nat, a: Arena)
    requires WellFormed(a) && cur < |a|
    ensures WellFormed(WalkedList(ns, cur, a).scopes) && Grows(a, WalkedList(ns, cur, a).scopes, cur)
    decreases ns, 0
  {
    if ns != [] {
      WalkedWellFormed(ns[0], cur, a);
      var r1 := Walked(ns[0], cur, a);
      if !r1.raised {
        WalkedListWellFormed(ns[1..], cur, r1.scopes);
        GrowsTransitive(a, r1.scopes, WalkedList(ns, cur, a).scopes, cur);
      }
    }
  }

  lemma {:induction false} WalkedFieldsWellFormed(fs: seq<Field>, cur: nat, a: Arena)
    requires WellFormed(a) && cur < |a|
    ensures WellFormed(WalkedFields(fs, cur, a).scopes) && Grows(a, WalkedFields(fs, cur, a).scopes, cur)
    decreases fs, 0
  {
    if fs != [] {
      WalkedFieldWellFormed(fs[0], cur, a);
      var r1 := WalkedField(fs[0], cur, a);
      if !r1.raised {
        WalkedFieldsWellFormed(fs[1..], cur, r1.scopes);
        GrowsTransitive(a, r1.scopes, WalkedFields(fs, cur, a).scopes, cur);
      }
    }
  }

  lemma {:induction false} WalkedFieldWellFormed(f: Field, cur: nat, a: Arena)
    requires WellFormed(a) && cur < |a|
    ensures WellFormed(WalkedField(f, cur, a).scopes) && Grows(a, WalkedField(f, cur, a).scopes, cur)
    decreases f, 0
  {
    match f
    case Child(m) => WalkedWellFormed(m, cur, a);
    case Children(ms) => WalkedListWellFormed(ms, cur, a);
  }

  lemma {:induction false} WalkedDeclaratorsWellFormed(ds: seq<Declarator>, cur: nat, a: Arena)
    requires WellFormed(a) && cur < |a|
    ensures WellFormed(WalkedDeclarators(ds, cur, a)) && Grows(a, WalkedDeclarators(ds, cur, a), cur)
    decreases ds, 0
  {
    if ds != [] {
      WalkedDeclaratorWellFormed(ds[0], cur, a);
      var a1 := WalkedDeclarator(ds[0], cur, a);
      WalkedDeclaratorsWellFormed(ds[1..], cur, a1);
      GrowsTransitive(a, a1, WalkedDeclarators(ds, cur, a), cur);
    }
  }

  lemma {:induction false} WalkedDeclaratorWellFormed(d: Declarator, cur: nat, a: Arena)
    requires WellFormed(a) && cur < |a|
    ensures WellFormed(WalkedDeclarator(d, cur, a)) && Grows(a, WalkedDeclarator(d, cur, a), cur)
    decreases d, 0
  {
    WalkedWellFormed(d.id, cur, a);
    var r1 := Walked(d.id, cur, a);
    if !r1.raised && d.init.Some? {
      WalkedWellFormed(d.init.value, cur, r1.scopes);
      GrowsTransitive(a, r1.scopes, Walked(d.init.value, cur, r1.scopes).scopes, cur);
    }
  }

  /** The tree `_getScopeTree` builds for a program is well formed, whether or
      not the walk raised part-way. */
  lemma ScopeTreeWellFormed(p: Program)
    ensures WellFormed(ScopeTree(p).scopes)
    ensures ScopeTree(p).scopes[0].kind == ModuleScope <==> p.sourceType == "module"
  {
    WalkedListWellFormed(p.body, 0, Root(p));
  }

  // ---------------------------------------------------------------------------
  // The walk as the analyser performs it

  /** Builds the scope tree in place, as `_getScopeTree` and `_getVariables` do,
      appending to the scopes' lists as it goes. */
  class ScopeTreeBuilder {
    var scopes: Arena

    constructor (p: Program)
      ensures scopes == Root(p)
    {
      scopes := Root(p);
    }

    /** `ScopeInfo(parent.level + 1, kind, ...)` and `parent.children.append(...)` */
    method OpenScope(parent: nat, kind: ScopeKind) returns (s: nat)
      requires parent < |scopes|
      modifies this
      ensures s == |old(scopes)| && scopes == Open(old(scopes), parent, kind)
    {
      s := |scopes|;
      scopes := Open(scopes, parent, kind);
    }

    /** `scopeInfo.variables.append(occurrence)` */
    method Append(s: nat, occ: Occurrence)
      requires s < |scopes|
      modifies this
      ensures scopes == Record(old(scopes), s, [occ])
    {
      scopes := scopes[s := scopes[s].(variables := scopes[s].variables + [occ])];
    }

    /** `_getScopeTree(node, scopes[cur])` */
    method GetScopeTree(n: Node, cur: nat) returns (raised: bool)
      requires cur < |scopes|
      modifies this
      ensures Outcome(scopes, raised) == Walked(n, cur, old(scopes))
      decreases n, 1
    {
      if n.BlockStatement? {
        var s := OpenScope(cur, BlockScope);
        raised := GetScopeTreeList(n.statements, s);
        if !raised {
          raised := GetVariables(n, s);
        }
      } else if n.Function? {
        var s := OpenScope(cur, FunctionScopeKind(n.form, n.body));
        if n.body.BlockStatement? {
          raised := GetScopeTreeList(n.body.statements, s);
        } else {
          raised := GetScopeTree(n.body, s);
        }
        if !raised {
          raised := GetVariables(n, s);
        }
      } else {
        GetScopeTreeOfAttributes(n, cur);
        raised := GetVariables(n, cur);
      }
    }

    /** The guarded walk over `vars(node)` of a generic node. */
    method GetScopeTreeOfAttributes(n: Node, cur: nat)
      requires cur < |scopes|
      requires !n.BlockStatement? && !n.Function?
      modifies this
      ensures scopes == WalkedChildren(n, cur, old(scopes))
      decreases n, 0
    {
      match n
      case VariableDeclaration(_, _, ds) =>
        GetScopeTreeDeclarators(ds, cur);
      case ExpressionStatement(_, e, _) =>
        var _ := GetScopeTree(e, cur);
      case AssignmentExpression(_, left, right) =>
        var raised := GetScopeTree(left, cur);
        if !raised {
          raised := GetScopeTree(right, cur);
        }
      case Other(_, _, fs) =>
        var _ := GetScopeTreeFields(fs, cur);
      case Identifier(_, _) =>
      case Literal(_, _) =>
    }

    /** `_getScopeTree` on a list of nodes. */
    method GetScopeTreeList(ns: seq<Node>, cur: nat) returns (raised: bool)
      requires cur < |scopes|
      modifies this
      ensures Outcome(scopes, raised) == WalkedList(ns, cur, old(scopes))
      decreases ns, 0
    {
      raised := false;
      var i := 0;
      while i < |ns| && !raised
        invariant 0 <= i <= |ns|
        invariant cur < |scopes|
        invariant raised ==> Outcome(scopes, true) == WalkedList(ns, cur, old(scopes))
        invariant !raised ==> WalkedList(ns[i..], cur, scopes) == WalkedList(ns, cur, old(scopes))
      {
        assert ns[i..][1..] == ns[i + 1..];
        raised := GetScopeTree(ns[i], cur);
        i := i + 1;
      }
    }

    method GetScopeTreeFields(fs: seq<Field>, cur: nat) returns (raised: bool)
      requires cur < |scopes|
      modifies this
      ensures Outcome(scopes, raised) == WalkedFields(fs, cur, old(scopes))
      decreases fs, 0
    {
      raised := false;
      var i := 0;
      while i < |fs| && !raised
        invariant 0 <= i <= |fs|
        invariant cur < |scopes|
        invariant raised ==> Outcome(scopes, true) == WalkedFields(fs, cur, old(scopes))
        invariant !raised ==> WalkedFields(fs[i..], cur, scopes) == WalkedFields(fs, cur, old(scopes))
      {
        assert fs[i..][1..] == fs[i + 1..];
        raised := GetScopeTreeField(fs[i], cur);
        i := i + 1;
      }
    }

    method GetScopeTreeField(f: Field, cur: nat) returns (raised: bool)
      requires cur < |scopes|
      modifies this
      ensures Outcome(scopes, raised) == WalkedField(f, cur, old(scopes))
      decreases f, 0
    {
      match f
      case Child(m) =>
        raised := GetScopeTree(m, cur);
      case Children(ms) =>
        raised := GetScopeTreeList(ms, cur);
    }

    /** The list `node.declarations`, each declarator a guarded generic node. */
    method GetScopeTreeDeclarators(ds: seq<Declarator>, cur: nat)
      requires cur < |scopes|
      modifies this
      ensures scopes == WalkedDeclarators(ds, cur, old(scopes))
      decreases ds, 0
    {
      for i := 0 to |ds|
        invariant cur < |scopes|
        invariant WalkedDeclarators(ds[i..], cur, scopes) == WalkedDeclarators(ds, cur, old(scopes))
      {
        assert ds[i..][1..] == ds[i + 1..];
        GetScopeTreeDeclarator(ds[i], cur);
      }
    }

    /** A `VariableDeclarator`: its `id`, then its `init` unless the `id` raised. */
    method GetScopeTreeDeclarator(d: Declarator, cur: nat)
      requires cur < |scopes|
      modifies this
      ensures scopes == WalkedDeclarator(d, cur, old(scopes))
      decreases d, 0
    {
      var raised := GetScopeTree(d.id, cur);
      if !raised && d.init.Some? {
        raised := GetScopeTree(d.init.value, cur);
      }
    }

    /** `_getVariables(node, scopes[s])`: appends the occurrences of `n`. */
    method GetVariables(n: Node, s: nat) returns (raised: bool)
      requires s < |scopes|
      modifies this
      ensures Outcome(scopes, raised) == Recorded(old(scopes), s, OwnOccurrences(n, s))
    {
      raised := false;
      RecordNothing(scopes, s);
      match n
      case VariableDeclaration(_, kind, ds) =>
        AppendDeclarations(kind, ds, s);
      case ExpressionStatement(_, e, _) =>
        if e.Identifier? {
          Append(s, Occurrence(Some(e.name), None, Undeclared, None, s, Some(e.at)));
        }
      case AssignmentExpression(_, left, _) =>
        var name: Option<string> := None;
        if left.Identifier? {
          name := Some(left.name);
        } else {
          var ids := FindIdentifiers(n);
          if ids == [] {
            raised := true;
            return;
          }
          name := Some(ids[0]);
        }
        Append(s, Occurrence(name, None, Assignment, None, s, Some(left.at)));
      case Function(_, _, _, params, _) =>
        AppendParameters(params, s);
      case _ =>
    }

    /** The loop over `node.declarations`, whose initial value survives from one
        declarator to the next. */
    method AppendDeclarations(kind: DeclKind, ds: seq<Declarator>, s: nat)
      requires s < |scopes|
      modifies this
      ensures scopes == Record(old(scopes), s, DeclarationOccurrences(kind, ds, s, None))
    {
      var initialValue: Option<string> := None;
      ghost var done: seq<Occurrence> := [];
      RecordNothing(scopes, s);
      for i := 0 to |ds|
        invariant s < |scopes|
        invariant scopes == Record(old(scopes), s, done)
        invariant done + DeclarationOccurrences(kind, ds[i..], s, initialValue) == DeclarationOccurrences(kind, ds, s, None)
      {
        DeclarationOccurrencesStep(kind, ds, i, s, initialValue);
        if ds[i].init.Some? {
          initialValue := LiteralValue(ds[i].init.value);
        }
        var occ := Occurrence(NameOf(ds[i].id), Some(kind), Declaration, initialValue, s, Some(ds[i].id.at));
        Append(s, occ);
        RecordTwice(old(scopes), s, done, [occ]);
        ghost var rest := DeclarationOccurrences(kind, ds[i + 1..], s, initialValue);
        assert done + [occ] + rest == done + ([occ] + rest);
        done := done + [occ];
      }
      assert ds[|ds|..] == [];
      assert done + DeclarationOccurrences(kind, [], s, initialValue) == done;
    }

    /** The loop over `node.params`, whose name, initial value and position
        survive from one parameter to the next. */
    method AppendParameters(params: seq<Node>, s: nat)
      requires s < |scopes|
      modifies this
      ensures scopes == Record(old(scopes), s, ParameterOccurrences(params, s, None, None, None))
    {
      var name: Option<string>, initialValue: Option<string>, at: Option<Pos> := None, None, None;
      ghost var done: seq<Occurrence> := [];
      RecordNothing(scopes, s);
      for i := 0 to |params|
        invariant s < |scopes|
        invariant scopes == Record(old(scopes), s, done)
        invariant done + ParameterOccurrences(params[i..], s, name, initialValue, at) == ParameterOccurrences(params, s, None, None, None)
      {
        ParameterOccurrencesStep(params, i, s, name, initialValue, at);
        var param := params[i];
        if param.Identifier? {
          name := Some(param.name);
          at := Some(param.at);
        } else if param.AssignmentExpression? {
          name := NameOf(param.left);
          initialValue := LiteralValue(param.right);
          at := Some(param.left.at);
        }
        var occ := Occurrence(name, None, Parameter, initialValue, s, at);
        Append(s, occ);
        RecordTwice(old(scopes), s, done, [occ]);
        ghost var rest := ParameterOccurrences(params[i + 1..], s, name, initialValue, at);
        assert done + [occ] + rest == done + ([occ] + rest);
        done := done + [occ];
      }
      assert params[|params|..] == [];
      assert done + ParameterOccurrences([], s, name, initialValue, at) == done;
    }
  }

  /** `_getScopeTree(program)`: the tree of a whole program. */
  method BuildScopeTree(p: Program) returns (scopes: Arena, raised: bool)
    ensures Outcome(scopes, raised) == ScopeTree(p)
    ensures WellFormed(scopes)
  {
    var builder := new ScopeTreeBuilder(p);
    raised := builder.GetScopeTreeList(p.body, 0);
    scopes := builder.scopes;
    ScopeTreeWellFormed(p);
  }
}
