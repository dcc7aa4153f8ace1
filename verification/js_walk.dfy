/** What the walk of `_getScopeTree` (analyseJs.py:148-184) opens and records,
    stated without the arena. For a walk in which no assignment lacks a name,
    so that nothing raises:

    - the scopes appended to the arena are one per block statement and one per
      function reached through the walked fields, in the order the walk meets
      them (`Opened`); a function's own block does not open a second scope, and
      parameters are not walked;
    - the current scope gains the occurrences of the nodes outside any nested
      scope, each node's own after those of its sub-nodes (`Local`);
    - a block's scope holds the occurrences of its statements, and a function's
      scope those of its body followed by its parameters. */
module JsWalk {
  import opened Common
  import opened JsAst
  import opened JsScopes
  import opened JsResolve

  // ---------------------------------------------------------------------------
  // Walks that do not raise

  /** Every assignment the walk reaches names an identifier. */
  predicate Clean(n: Node)
    decreases n, 1
  {
    match n
    case BlockStatement(_, stmts) => CleanList(stmts)
    case Function(_, _, _, _, body) => if body.BlockStatement? then CleanList(body.statements) else Clean(body)
    case VariableDeclaration(_, _, ds) => CleanDeclarators(ds)
    case ExpressionStatement(_, e, _) => Clean(e)
    case AssignmentExpression(_, left, right) => AssignedName(n).Some? && Clean(left) && Clean(right)
    case Other(_, _, fs) => CleanFields(fs)
    case _ => true
  }

  predicate CleanList(ns: seq<Node>)
    decreases ns, 0
  {
    ns == [] || (Clean(ns[0]) && CleanList(ns[1..]))
  }

  predicate CleanFields(fs: seq<Field>)
    decreases fs, 0
  {
    fs == [] || (CleanField(fs[0]) && CleanFields(fs[1..]))
  }

  predicate CleanField(f: Field)
    decreases f, 0
  {
    match f
    case Child(m) => Clean(m)
    case Children(ms) => CleanList(ms)
  }

  predicate CleanDeclarators(ds: seq<Declarator>)
    decreases ds, 0
  {
    ds == [] || (CleanDeclarator(ds[0]) && CleanDeclarators(ds[1..]))
  }

  predicate CleanDeclarator(d: Declarator)
    decreases d, 0
  {
    Clean(d.id) && (d.init.Some? ==> Clean(d.init.value))
  }

  // ---------------------------------------------------------------------------
  // The scopes a node opens

  /** The kinds of the scopes a node opens, in the order the walk opens them:
      one for a block statement, one for a function, and those of the walked
      sub-nodes. */
  function Opened(n: Node): seq<ScopeKind>
    decreases n, 1
  {
    match n
    case BlockStatement(_, stmts) => [BlockScope] + OpenedList(stmts)
    case Function(_, form, _, _, body) =>
      [FunctionScopeKind(form, body)] + (if body.BlockStatement? then OpenedList(body.statements) else Opened(body))
    case VariableDeclaration(_, _, ds) => OpenedDeclarators(ds)
    case ExpressionStatement(_, e, _) => Opened(e)
    case AssignmentExpression(_, left, right) => Opened(left) + Opened(right)
    case Other(_, _, fs) => OpenedFields(fs)
    case _ => []
  }

  function OpenedList(ns: seq<Node>): seq<ScopeKind>
    decreases ns, 0
  {
    if ns == [] then [] else Opened(ns[0]) + OpenedList(ns[1..])
  }

  function OpenedFields(fs: seq<Field>): seq<ScopeKind>
    decreases fs, 0
  {
    if fs == [] then [] else OpenedField(fs[0]) + OpenedFields(fs[1..])
  }

  function OpenedField(f: Field): seq<ScopeKind>
    decreases f, 0
  {
    match f
    case Child(m) => Opened(m)
    case Children(ms) => OpenedList(ms)
  }

  function OpenedDeclarators(ds: seq<Declarator>): seq<ScopeKind>
    decreases ds, 0
  {
    if ds == [] then [] else OpenedDeclarator(ds[0]) + OpenedDeclarators(ds[1..])
  }

  function OpenedDeclarator(d: Declarator): seq<ScopeKind>
    decreases d, 0
  {
    Opened(d.id) + (if d.init.Some? then Opened(d.init.value) else [])
  }

  // ---------------------------------------------------------------------------
  // The occurrences a node records in the current scope

  /** What `_getVariables` appends for the node itself (nothing where it raises). */
  function Own(n: Node, s: nat): seq<Occurrence> {
    var own := OwnOccurrences(n, s);
    if own.Some? then own.value else []
  }

  /** The occurrences a node records in scope `s`, in the order they are
      appended: for a node that opens no scope, those of its walked sub-nodes,
      then its own; a block or a function records nothing in `s`. */
  function Local(n: Node, s: nat): seq<Occurrence>
    decreases n, 1
  {
    if n.BlockStatement? || n.Function? then [] else LocalChildren(n, s) + Own(n, s)
  }

  function LocalChildren(n: Node, s: nat): seq<Occurrence>
    requires !n.BlockStatement? && !n.Function?
    decreases n, 0
  {
    match n
    case VariableDeclaration(_, _, ds) => LocalDeclarators(ds, s)
    case ExpressionStatement(_, e, _) => Local(e, s)
    case AssignmentExpression(_, left, right) => Local(left, s) + Local(right, s)
    case Other(_, _, fs) => LocalFields(fs, s)
    case _ => []
  }

  function LocalList(ns: seq<Node>, s: nat): seq<Occurrence>
    decreases ns, 0
  {
    if ns == [] then [] else Local(ns[0], s) + LocalList(ns[1..], s)
  }

  function LocalFields(fs: seq<Field>, s: nat): seq<Occurrence>
    decreases fs, 0
  {
    if fs == [] then [] else LocalField(fs[0], s) + LocalFields(fs[1..], s)
  }

  function LocalField(f: Field, s: nat): seq<Occurrence>
    decreases f, 0
  {
    match f
    case Child(m) => Local(m, s)
    case Children(ms) => LocalList(ms, s)
  }

  function LocalDeclarators(ds: seq<Declarator>, s: nat): seq<Occurrence>
    decreases ds, 0
  {
    if ds == [] then [] else LocalDeclarator(ds[0], s) + LocalDeclarators(ds[1..], s)
  }

  function LocalDeclarator(d: Declarator, s: nat): seq<Occurrence>
    decreases d, 0
  {
    Local(d.id, s) + (if d.init.Some? then Local(d.init.value, s) else [])
  }

  /** What a function's body records in the function's scope `s`. */
  function BodyLocal(body: Node, s: nat): seq<Occurrence> {
    if body.BlockStatement? then LocalList(body.statements, s) else Local(body, s)
  }

  // ---------------------------------------------------------------------------
  // The walk against these definitions

  /** `r` is `a` after a walk in scope `cur` that opened scopes of the kinds
      `ks` and appended `occs` to `cur`: the scopes that existed keep their
      kinds and parents, and those other than `cur` are untouched. */
  ghost predicate Step(a: Arena, r: Arena, cur: nat, ks: seq<ScopeKind>, occs: seq<Occurrence>) {
    && cur < |a| && |r| == |a| + |ks|
    && (forall j :: 0 <= j < |a| && j != cur ==> r[j] == a[j])
    && r[cur].kind == a[cur].kind && r[cur].parent == a[cur].parent
    && (forall i :: 0 <= i < |ks| ==> r[|a| + i].kind == ks[i])
    && r[cur].variables == a[cur].variables + occs
  }

  lemma StepThen(a: Arena, b: Arena, c: Arena, cur: nat, k1: seq<ScopeKind>, k2: seq<ScopeKind>, o1: seq<Occurrence>, o2: seq<Occurrence>)
    requires Step(a, b, cur, k1, o1) && Step(b, c, cur, k2, o2)
    ensures Step(a, c, cur, k1 + k2, o1 + o2)
  {
    forall i | 0 <= i < |k1 + k2|
      ensures c[|a| + i].kind == (k1 + k2)[i]
    {
      if i < |k1| {
        assert c[|a| + i] == b[|a| + i];
      } else {
        assert c[|b| + (i - |k1|)].kind == k2[i - |k1|];
      }
    }
    assert a[cur].variables + o1 + o2 == a[cur].variables + (o1 + o2);
  }

  lemma StepNothing(a: Arena, cur: nat)
    requires cur < |a|
    ensures Step(a, a, cur, [], [])
  {
    assert a[cur].variables + [] == a[cur].variables;
  }

  /** Opening a scope of kind `k` below `cur`. */
  lemma StepOpen(a: Arena, cur: nat, k: ScopeKind)
    requires cur < |a|
    ensures Step(a, Open(a, cur, k), cur, [k], [])
    ensures Open(a, cur, k)[|a|] == Scope(a[cur].level + 1, k, [], [], Some(cur))
  {
    assert a[cur].variables + [] == a[cur].variables;
  }

  /** Recording `occs` in scope `s`. */
  lemma StepRecord(a: Arena, s: nat, occs: seq<Occurrence>)
    requires s < |a|
    ensures Step(a, Record(a, s, occs), s, [], occs)
  {
  }

  /** Work in a scope `s` created after `a` leaves `cur` as it was. */
  lemma StepNested(a: Arena, a1: Arena, r: Arena, cur: nat, s: nat, k1: seq<ScopeKind>, k2: seq<ScopeKind>, o: seq<Occurrence>)
    requires Step(a, a1, cur, k1, []) && Step(a1, r, s, k2, o) && |a| <= s
    ensures Step(a, r, cur, k1 + k2, [])
    ensures r[s].parent == a1[s].parent && r[s].variables == a1[s].variables + o
  {
    forall i | 0 <= i < |k1 + k2|
      ensures r[|a| + i].kind == (k1 + k2)[i]
    {
      if i < |k1| {
        assert r[|a| + i].kind == a1[|a| + i].kind;
      } else {
        assert r[|a1| + (i - |k1|)].kind == k2[i - |k1|];
      }
    }
  }

  /** A node the walk meets without raising opens the scopes `Opened` names,
      keeps the kinds of the scopes before, and appends `Local` to the current
      scope. */
  lemma {:induction false} WalkedClean(n: Node, cur: nat, a: Arena)
    requires cur < |a| && Clean(n)
    ensures var r := Walked(n, cur, a);
      !r.raised && Step(a, r.scopes, cur, Opened(n), Local(n, cur))
    decreases n, 2
  {
    match n
    case BlockStatement(_, _) =>
      WalkedBlockClean(n, cur, a);
      assert a[cur].variables + [] == a[cur].variables;
    case Function(_, _, _, _, _) =>
      WalkedFunctionClean(n, cur, a);
      assert a[cur].variables + [] == a[cur].variables;
    case _ =>
      OwnAfterChildren(n, cur, a);
  }

  /** A node that opens no scope records its own occurrences after everything
      its sub-nodes recorded in the same scope. */
  lemma {:induction false} OwnAfterChildren(n: Node, cur: nat, a: Arena)
    requires cur < |a| && Clean(n)
    requires !n.BlockStatement? && !n.Function?
    ensures var r := Walked(n, cur, a);
      && !r.raised && Step(a, r.scopes, cur, Opened(n), LocalChildren(n, cur) + OwnOccurrences(n, cur).value)
    decreases n, 1
  {
    WalkedChildrenClean(n, cur, a);
    var r0 := WalkedChildren(n, cur, a);
    var own := OwnOccurrences(n, cur);
    assert own.Some?;
    StepRecord(r0, cur, own.value);
    StepThen(a, r0, Record(r0, cur, own.value), cur, Opened(n), [], LocalChildren(n, cur), own.value);
    assert Opened(n) + [] == Opened(n);
  }

  /** A block opens one block scope below the current one, which holds the
      occurrences of its statements; the current scope records nothing. */
  lemma {:induction false} WalkedBlockClean(n: Node, cur: nat, a: Arena)
    requires cur < |a| && Clean(n) && n.BlockStatement?
    ensures var r := Walked(n, cur, a);
      && !r.raised && Step(a, r.scopes, cur, Opened(n), [])
      && r.scopes[|a|].parent == Some(cur)
      && r.scopes[|a|].variables == LocalList(n.statements, |a|)
    decreases n, 1
  {
    var s := |a|;
    var a1 := Open(a, cur, BlockScope);
    StepOpen(a, cur, BlockScope);
    WalkedListClean(n.statements, s, a1);
    var r1 := WalkedList(n.statements, s, a1);
    assert OwnOccurrences(n, s) == Some([]);
    StepRecord(r1.scopes, s, []);
    StepThen(a1, r1.scopes, Record(r1.scopes, s, []), s, OpenedList(n.statements), [], LocalList(n.statements, s), []);
    assert OpenedList(n.statements) + [] == OpenedList(n.statements);
    assert LocalList(n.statements, s) + [] == LocalList(n.statements, s);
    StepNested(a, a1, Record(r1.scopes, s, []), cur, s, [BlockScope], OpenedList(n.statements), LocalList(n.statements, s));
  }

  /** A function opens one function or arrow-expression scope below the current
      one, which holds the occurrences of its body and then its parameters;
      the current scope records nothing. */
  lemma {:induction false} WalkedFunctionClean(n: Node, cur: nat, a: Arena)
    requires cur < |a| && Clean(n) && n.Function?
    ensures var r := Walked(n, cur, a);
      && !r.raised && Step(a, r.scopes, cur, Opened(n), [])
      && r.scopes[|a|].parent == Some(cur)
      && r.scopes[|a|].variables == BodyLocal(n.body, |a|) + ParameterOccurrences(n.params, |a|, None, None, None)
    decreases n, 1
  {
    var s := |a|;
    var body := n.body;
    var kind := FunctionScopeKind(n.form, body);
    var a1 := Open(a, cur, kind);
    StepOpen(a, cur, kind);
    var r1 := if body.BlockStatement? then WalkedList(body.statements, s, a1) else Walked(body, s, a1);
    var inner := if body.BlockStatement? then OpenedList(body.statements) else Opened(body);
    if body.BlockStatement? {
      WalkedListClean(body.statements, s, a1);
    } else {
      WalkedClean(body, s, a1);
    }
    assert !r1.raised && Step(a1, r1.scopes, s, inner, BodyLocal(body, s));
    var params := ParameterOccurrences(n.params, s, None, None, None);
    StepRecord(r1.scopes, s, params);
    StepThen(a1, r1.scopes, Record(r1.scopes, s, params), s, inner, [], BodyLocal(body, s), params);
    assert inner + [] == inner;
    StepNested(a, a1, Record(r1.scopes, s, params), cur, s, [kind], inner, BodyLocal(body, s) + params);
  }

  lemma {:induction false} WalkedChildrenClean(n: Node, cur: nat, a: Arena)
    requires cur < |a| && Clean(n)
    requires !n.BlockStatement? && !n.Function?
    ensures Step(a, WalkedChildren(n, cur, a), cur, Opened(n), LocalChildren(n, cur))
    decreases n, 0
  {
    match n
    case VariableDeclaration(_, _, ds) => WalkedDeclaratorsClean(ds, cur, a);
    case ExpressionStatement(_, e, _) => WalkedClean(e, cur, a);
    case AssignmentExpression(_, left, right) =>
      WalkedClean(left, cur, a);
      var r1 := Walked(left, cur, a);
      WalkedClean(right, cur, r1.scopes);
      StepThen(a, r1.scopes, Walked(right, cur, r1.scopes).scopes, cur, Opened(left), Opened(right), Local(left, cur), Local(right, cur));
    case Other(_, _, fs) => WalkedFieldsClean(fs, cur, a);
    case Identifier(_, _) => StepNothing(a, cur);
    case Literal(_, _) => StepNothing(a, cur);
  }

  lemma {:induction false} WalkedListClean(ns: seq<Node>, cur: nat, a: Arena)
    requires cur < |a| && CleanList(ns)
    ensures var r := WalkedList(ns, cur, a);
      !r.raised && Step(a, r.scopes, cur, OpenedList(ns), LocalList(ns, cur))
    decreases ns, 0
  {
    if ns == [] {
      StepNothing(a, cur);
    } else {
      WalkedClean(ns[0], cur, a);
      var r1 := Walked(ns[0], cur, a);
      WalkedListClean(ns[1..], cur, r1.scopes);
      StepThen(a, r1.scopes, WalkedList(ns[1..], cur, r1.scopes).scopes, cur,
               Opened(ns[0]), OpenedList(ns[1..]), Local(ns[0], cur), LocalList(ns[1..], cur));
    }
  }

  lemma {:induction false} WalkedFieldsClean(fs: seq<Field>, cur: nat, a: Arena)
    requires cur < |a| && CleanFields(fs)
    ensures var r := WalkedFields(fs, cur, a);
      !r.raised && Step(a, r.scopes, cur, OpenedFields(fs), LocalFields(fs, cur))
    decreases fs, 0
  {
    if fs == [] {
      StepNothing(a, cur);
    } else {
      WalkedFieldClean(fs[0], cur, a);
      var r1 := WalkedField(fs[0], cur, a);
      WalkedFieldsClean(fs[1..], cur, r1.scopes);
      StepThen(a, r1.scopes, WalkedFields(fs[1..], cur, r1.scopes).scopes, cur,
               OpenedField(fs[0]), OpenedFields(fs[1..]), LocalField(fs[0], cur), LocalFields(fs[1..], cur));
    }
  }

  lemma {:induction false} WalkedFieldClean(f: Field, cur: nat, a: Arena)
    requires cur < |a| && CleanField(f)
    ensures var r := WalkedField(f, cur, a);
      !r.raised && Step(a, r.scopes, cur, OpenedField(f), LocalField(f, cur))
    decreases f, 0
  {
    match f
    case Child(m) => WalkedClean(m, cur, a);
    case Children(ms) => WalkedListClean(ms, cur, a);
  }

  lemma {:induction false} WalkedDeclaratorsClean(ds: seq<Declarator>, cur: nat, a: Arena)
    requires cur < |a| && CleanDeclarators(ds)
    ensures Step(a, WalkedDeclarators(ds, cur, a), cur, OpenedDeclarators(ds), LocalDeclarators(ds, cur))
    decreases ds, 0
  {
    if ds == [] {
      StepNothing(a, cur);
    } else {
      WalkedDeclaratorClean(ds[0], cur, a);
      var a1 := WalkedDeclarator(ds[0], cur, a);
      WalkedDeclaratorsClean(ds[1..], cur, a1);
      StepThen(a, a1, WalkedDeclarators(ds[1..], cur, a1), cur,
               OpenedDeclarator(ds[0]), OpenedDeclarators(ds[1..]), LocalDeclarator(ds[0], cur), LocalDeclarators(ds[1..], cur));
    }
  }

  lemma {:induction false} WalkedDeclaratorClean(d: Declarator, cur: nat, a: Arena)
    requires cur < |a| && CleanDeclarator(d)
    ensures Step(a, WalkedDeclarator(d, cur, a), cur, OpenedDeclarator(d), LocalDeclarator(d, cur))
    decreases d, 0
  {
    WalkedClean(d.id, cur, a);
    var r1 := Walked(d.id, cur, a);
    if d.init.Some? {
      WalkedClean(d.init.value, cur, r1.scopes);
      StepThen(a, r1.scopes, Walked(d.init.value, cur, r1.scopes).scopes, cur,
               Opened(d.id), Opened(d.init.value), Local(d.id, cur), Local(d.init.value, cur));
    } else {
      StepNothing(r1.scopes, cur);
      StepThen(a, r1.scopes, r1.scopes, cur, Opened(d.id), [], Local(d.id, cur), []);
      assert Opened(d.id) + [] == Opened(d.id);
      assert Local(d.id, cur) + [] == Local(d.id, cur);
    }
  }

  /** The scope tree of a program whose walk does not raise: after the root come
      exactly the scopes of the blocks and functions of the program, in the
      order the walk meets them, and the root holds the occurrences of the
      top-level statements outside any block or function. */
  lemma ScopeTreeClean(p: Program)
    requires CleanList(p.body)
    ensures var r := ScopeTree(p);
      && !r.raised
      && |r.scopes| == 1 + |OpenedList(p.body)|
      && (forall i :: 0 <= i < |OpenedList(p.body)| ==> r.scopes[1 + i].kind == OpenedList(p.body)[i])
      && r.scopes[0].variables == LocalList(p.body, 0)
  {
    WalkedListClean(p.body, 0, Root(p));
  }

  // ---------------------------------------------------------------------------
  // Parameters that are patterns

  /** A statement `x = <literal>` opens no scope and records one assignment
      of `x` in the current scope. */
  lemma AssignLiteralLocal(stmt: Node, x: string, at: Pos, s: nat)
    requires stmt.ExpressionStatement? && stmt.expression.AssignmentExpression?
    requires stmt.expression.left == Identifier(at, x) && stmt.expression.right.Literal?
    ensures Clean(stmt) && Opened(stmt) == []
    ensures Local(stmt, s) == [Occurrence(Some(x), None, Assignment, None, s, Some(at))]
  {
    var assign := stmt.expression;
    assert Clean(assign.left) && Clean(assign.right);
    assert Opened(assign.left) == [] && Opened(assign.right) == [];
    assert Local(assign.left, s) == [] && Local(assign.right, s) == [];
    assert Own(assign, s) == [Occurrence(Some(x), None, Assignment, None, s, Some(at))];
    assert Own(stmt, s) == [];
    assert Local(assign, s) == Own(assign, s);
    assert LocalChildren(stmt, s) == Local(assign, s);
  }

  /** The scopes of a program that is one function whose single parameter is
      neither an identifier nor an assignment expression and whose body only
      assigns a literal to `x`: the parameter is recorded without a name. */
  lemma DefaultParameterScopes(p: Program, x: string, at: Pos)
    requires |p.body| == 1 && p.body[0].Function? && p.body[0].body.BlockStatement?
    requires |p.body[0].params| == 1
    requires !p.body[0].params[0].Identifier? && !p.body[0].params[0].AssignmentExpression?
    requires |p.body[0].body.statements| == 1 && p.body[0].body.statements[0].ExpressionStatement?
    requires p.body[0].body.statements[0].expression.AssignmentExpression?
    requires p.body[0].body.statements[0].expression.left == Identifier(at, x)
    requires p.body[0].body.statements[0].expression.right.Literal?
    ensures !ScopeTree(p).raised && |ScopeTree(p).scopes| == 2
    ensures ScopeTree(p).scopes[0].variables == []
    ensures ScopeTree(p).scopes[1].variables
      == [Occurrence(Some(x), None, Assignment, None, 1, Some(at)), Occurrence(None, None, Parameter, None, 1, None)]
  {
    var f := p.body[0];
    var stmt := f.body.statements[0];
    var written := Occurrence(Some(x), None, Assignment, None, 1, Some(at));
    var unnamed := Occurrence(None, None, Parameter, None, 1, None);
    AssignLiteralLocal(stmt, x, at, 1);
    assert f.body.statements[1..] == [];
    assert CleanList(f.body.statements);
    assert OpenedList(f.body.statements[1..]) == [] && LocalList(f.body.statements[1..], 1) == [];
    assert OpenedList(f.body.statements) == [];
    assert Opened(f) == [FunctionScopeKind(f.form, f.body)];
    assert LocalList(f.body.statements, 1) == [written];
    assert BodyLocal(f.body, 1) == [written];
    assert ParameterOccurrences(f.params, 1, None, None, None) == [unnamed] by {
      assert f.params[1..] == [];
    }
    var a0 := Root(p);
    WalkedFunctionClean(f, 0, a0);
    var r := Walked(f, 0, a0);
    assert ScopeTree(p) == r by {
      assert p.body[1..] == [];
      assert WalkedList(p.body[1..], 0, r.scopes) == Outcome(r.scopes, false);
    }
    assert r.scopes[1].variables == [written, unnamed];
  }

  /** A parameter that is neither an identifier nor an assignment expression
      (a default-valued `a = 1`, which esprima parses as an
      `AssignmentPattern`, or a destructuring pattern) is recorded without a
      name, so an assignment to it in the function's body is reported as
      undeclared: `function f(a = 1) { a = 2 }` reports `a`. */
  lemma DefaultParameterUndeclared(p: Program, x: string, at: Pos)
    requires |p.body| == 1 && p.body[0].Function? && p.body[0].body.BlockStatement?
    requires |p.body[0].params| == 1
    requires !p.body[0].params[0].Identifier? && !p.body[0].params[0].AssignmentExpression?
    requires |p.body[0].body.statements| == 1 && p.body[0].body.statements[0].ExpressionStatement?
    requires p.body[0].body.statements[0].expression.AssignmentExpression?
    requires p.body[0].body.statements[0].expression.left == Identifier(at, x)
    requires p.body[0].body.statements[0].expression.right.Literal?
    requires x != "window" && x != "document"
    ensures !ScopeTree(p).raised && |ScopeTree(p).scopes| == 2
    ensures ScopeTree(p).scopes[1].variables
      == [Occurrence(Some(x), None, Assignment, None, 1, Some(at)), Occurrence(None, None, Parameter, None, 1, None)]
    ensures Occurrence(Some(x), None, Assignment, None, 1, Some(at)) in UndeclaredIn(ScopeTree(p).scopes, 0, 0, IgnoredGlobals)
  {
    DefaultParameterScopes(p, x, at);
    var r := ScopeTree(p);
    var written := Occurrence(Some(x), None, Assignment, None, 1, Some(at));
    ScopeTreeWellFormed(p);
    assert !DeclaredOnPath(r.scopes, 1, Some(x)) by {
      assert r.scopes[0].variables == [];
      forall u: nat | u < |r.scopes| && AncestorOrSelf(r.scopes, u, 1)
        ensures !DeclaresIn(r.scopes[u], Some(x))
      {
        assert u == 0 || u == 1;
      }
    }
    UndeclaredReportIff(r.scopes, written);
  }
}
