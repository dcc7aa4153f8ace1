/** Queries over the scope tree (analyseJs.py:185-264): which variables are
    declared at the top level, which are declared with `var` anywhere, and which
    are used or assigned without a declaration on the way up to the root. */
module JsResolve {
  import opened Common
  import opened Grouping
  import opened JsAst
  import opened JsScopes

  /** Names the analyser never reports as undeclared. */
  const IgnoredGlobals: seq<string> := ["window", "document"]

  predicate IsDeclaring(o: Occurrence) {
    o.role == Declaration || o.role == Parameter
  }

  predicate IsUse(o: Occurrence) {
    o.role == Undeclared || o.role == Assignment
  }

  predicate IsVarDeclaration(o: Occurrence) {
    o.role == Declaration && o.kind == Some(Var)
  }

  /** `isVariableDeclaredInScope` as a property */
  predicate DeclaresIn(sc: Scope, name: Option<string>) {
    exists k :: 0 <= k < |sc.variables| && sc.variables[k].name == name && IsDeclaring(sc.variables[k])
  }

  /** `isVariableDeclaredInScope`: the search through one scope's variables. */
  method IsVariableDeclaredInScope(sc: Scope, name: Option<string>) returns (found: bool)
    ensures found == DeclaresIn(sc, name)
  {
    found := false;
    for k := 0 to |sc.variables|
      invariant !found ==> forall j :: 0 <= j < k ==> !(sc.variables[j].name == name && IsDeclaring(sc.variables[j]))
      invariant found ==> DeclaresIn(sc, name)
    {
      var v := sc.variables[k];
      if v.name == name && IsDeclaring(v) {
        found := true;
        break;
      }
    }
  }

  /** `t` is `s` or lies above it on its parent chain. */
  predicate AncestorOrSelf(a: Arena, t: nat, s: nat)
    decreases s
  {
    t <= s < |a| && (s == t || (a[s].parent.Some? && a[s].parent.value < s && AncestorOrSelf(a, t, a[s].parent.value)))
  }

  /** `isVariableDeclaredInScopeTree(name, s)` as a property: a declaration or
      parameter named `name` in `s` or in a scope above it, up to `top`. */
  predicate DeclaredInChain(a: Arena, s: nat, top: nat, name: Option<string>)
    decreases s
  {
    s < |a|
    && (DeclaresIn(a[s], name)
        || (s != top && a[s].parent.Some? && a[s].parent.value < s && DeclaredInChain(a, a[s].parent.value, top, name)))
  }

  /** `isVariableDeclaredInScopeTree`: the loop that climbs from `s` towards
      `top`, with `parentScope` None while the start scope is being searched. */
  method IsVariableDeclaredInScopeTree(a: Arena, s: nat, top: nat, name: Option<string>) returns (found: bool)
    requires AncestorOrSelf(a, top, s)
    ensures found == DeclaredInChain(a, s, top, name)
  {
    found := false;
    var parentScope: Option<nat> := None;
    while !found
      invariant parentScope.Some? ==> parentScope.value < |a| && AncestorOrSelf(a, top, parentScope.value) && s != top
      invariant !found ==> DeclaredInChain(a, s, top, name) == DeclaredInChain(a, if parentScope.Some? then parentScope.value else s, top, name)
      invariant found ==> DeclaredInChain(a, s, top, name)
      decreases if parentScope.Some? then parentScope.value else s
    {
      var c := if parentScope.Some? then parentScope.value else s;
      found := IsVariableDeclaredInScope(a[c], name);
      if found {
        break;
      } else if a[s].parent.Some? && s != top && parentScope != Some(top) {
        parentScope := a[c].parent;
      } else {
        break;
      }
    }
  }

  /** Reported by `_findUndeclaredVariables` with top scope `top`: a use or
      assignment in scope `s` with no declaration up the chain, whose name is not
      ignored. */
  predicate Reported(a: Arena, s: nat, top: nat, ignore: seq<string>, o: Occurrence) {
    IsUse(o) && !DeclaredInChain(a, s, top, o.name) && !(o.name.Some? && o.name.value in ignore)
  }

  /** The occurrences of the subtree of `s` that `keep` selects, scope by scope:
      those of `s` itself, then those below each child in turn. */
  function Collect(a: Arena, s: nat, keep: (nat, Occurrence) -> bool): seq<Occurrence>
    requires s < |a|
    decreases |a| - s, 1, 0
  {
    Kept(a[s].variables, s, keep) + CollectChildren(a, a[s].children, s, keep)
  }

  function CollectChildren(a: Arena, cs: seq<nat>, p: nat, keep: (nat, Occurrence) -> bool): seq<Occurrence>
    requires p < |a|
    decreases |a| - p, 0, |cs|
  {
    if cs == [] then []
    else (if p < cs[0] < |a| then Collect(a, cs[0], keep) else []) + CollectChildren(a, cs[1..], p, keep)
  }

  /** What `Collect` keeps for `_findUndeclaredVariables`. */
  function UndeclaredKeep(a: Arena, top: nat, ignore: seq<string>): (nat, Occurrence) -> bool {
    (t: nat, o: Occurrence) => Reported(a, t, top, ignore, o)
  }

  /** What `Collect` keeps for `findVarDeclaredVariables`. */
  predicate VarKeep(t: nat, o: Occurrence) {
    IsVarDeclaration(o)
  }

  function UndeclaredIn(a: Arena, s: nat, top: nat, ignore: seq<string>): seq<Occurrence>
    requires s < |a|
  {
    Collect(a, s, UndeclaredKeep(a, top, ignore))
  }

  function VarDeclaredIn(a: Arena, s: nat): seq<Occurrence>
    requires s < |a|
  {
    Collect(a, s, VarKeep)
  }

  /** The occurrences among `vs`, those of scope `s`, that `keep` selects. */
  function Kept(vs: seq<Occurrence>, s: nat, keep: (nat, Occurrence) -> bool): seq<Occurrence> {
    Filter(vs, o => keep(s, o))
  }

  /** The test `_findUndeclaredVariables` applies to one variable of scope `s`. */
  method ReportsOccurrence(a: Arena, s: nat, top: nat, ignore: seq<string>, v: Occurrence) returns (reported: bool)
    requires AncestorOrSelf(a, top, s)
    ensures reported == UndeclaredKeep(a, top, ignore)(s, v)
  {
    reported := false;
    if v.role == Undeclared || v.role == Assignment {
      var declared := IsVariableDeclaredInScopeTree(a, s, top, v.name);
      if !declared {
        if !(v.name.Some? && v.name.value in ignore) {
          reported := true;
        }
      }
    }
  }

  /** `topScopeInfo`: the given top scope, or the start scope when none is given. */
  function TopScope(s: nat, topParent: Option<nat>): nat {
    if topParent.Some? then topParent.value else s
  }

  /** `_findUndeclaredVariables(scopes[s], checkChildScopes, ignore, topParent)`:
      the top scope is `topParent`, or `s` itself when none is given. */
  method FindUndeclaredVariables(a: Arena, s: nat, checkChildScopes: bool, ignore: seq<string>, topParent: Option<nat>)
    returns (r: seq<Occurrence>)
    requires ChildrenLinked(a) && s < |a|
    requires topParent.Some? ==> AncestorOrSelf(a, topParent.value, s)
    ensures r == if checkChildScopes then UndeclaredIn(a, s, TopScope(s, topParent), ignore)
                 else Kept(a[s].variables, s, UndeclaredKeep(a, TopScope(s, topParent), ignore))
    decreases |a| - s
  {
    var top := TopScope(s, topParent);
    ghost var keep := UndeclaredKeep(a, top, ignore);
    var vs := a[s].variables;
    ghost var own := Kept(vs, s, keep);
    r := [];
    assert vs[0..] == vs;
    for k := 0 to |vs|
      invariant r + Kept(vs[k..], s, keep) == own
    {
      var v := vs[k];
      KeptStep(vs, k, s, keep);
      var reported := ReportsOccurrence(a, s, top, ignore, v);
      if reported {
        r := r + [v];
      }
    }
    assert vs[|vs|..] == [];
    assert r == own;
    if checkChildScopes {
      var cs := a[s].children;
      assert cs[0..] == cs;
      ghost var whole := own + CollectChildren(a, cs, s, keep);
      for i := 0 to |cs|
        invariant r + CollectChildren(a, cs[i..], s, keep) == whole
      {
        CollectChildrenStep(a, s, i, keep);
        ChildBelow(a, s, cs[i]);
        AncestorTransitive(a, top, s, cs[i]);
        var sub := FindUndeclaredVariables(a, cs[i], true, ignore, Some(top));
        CollectChildrenNext(a, s, i, keep, r, sub, whole);
        r := r + sub;
      }
      CollectChildrenDone(a, s, keep, r, whole);
    }
  }

  lemma KeptMembership(vs: seq<Occurrence>, s: nat, keep: (nat, Occurrence) -> bool, o: Occurrence)
    ensures o in Kept(vs, s, keep) <==> o in vs && keep(s, o)
  {
    FilterMembership(vs, o' => keep(s, o'), o);
  }

  lemma KeptStep(vs: seq<Occurrence>, k: nat, s: nat, keep: (nat, Occurrence) -> bool)
    requires k < |vs|
    ensures Kept(vs[k..], s, keep) == (if keep(s, vs[k]) then [vs[k]] else []) + Kept(vs[k + 1..], s, keep)
  {
    assert vs[k..][1..] == vs[k + 1..];
  }

  lemma CollectChildrenStep(a: Arena, p: nat, i: nat, keep: (nat, Occurrence) -> bool)
    requires ChildrenLinked(a) && p < |a| && i < |a[p].children|
    ensures p < a[p].children[i] < |a|
    ensures CollectChildren(a, a[p].children[i..], p, keep)
      == Collect(a, a[p].children[i], keep) + CollectChildren(a, a[p].children[i + 1..], p, keep)
  {
    var cs := a[p].children;
    assert cs[i..][1..] == cs[i + 1..];
  }

  /** One more child's occurrences appended. */
  lemma CollectChildrenNext(a: Arena, p: nat, i: nat, keep: (nat, Occurrence) -> bool,
                            r: seq<Occurrence>, sub: seq<Occurrence>, whole: seq<Occurrence>)
    requires ChildrenLinked(a) && p < |a| && i < |a[p].children|
    requires r + CollectChildren(a, a[p].children[i..], p, keep) == whole
    requires p < a[p].children[i] < |a| && sub == Collect(a, a[p].children[i], keep)
    ensures (r + sub) + CollectChildren(a, a[p].children[i + 1..], p, keep) == whole
  {
    CollectChildrenStep(a, p, i, keep);
    AppendNext(r, sub, CollectChildren(a, a[p].children[i + 1..], p, keep), CollectChildren(a, a[p].children[i..], p, keep), whole);
  }

  lemma CollectChildrenDone(a: Arena, p: nat, keep: (nat, Occurrence) -> bool, r: seq<Occurrence>, whole: seq<Occurrence>)
    requires p < |a|
    requires r + CollectChildren(a, a[p].children[|a[p].children|..], p, keep) == whole
    ensures r == whole
  {
    assert a[p].children[|a[p].children|..] == [];
  }

  /** `findVarDeclaredVariables(scopes[s])`: the 'var' declarations of the
      subtree. The variant used for the global query tests
      `not scopeInfo == 'function'`, which compares a scope with a string and so
      always holds; it does the same as this one. */
  method FindVarDeclaredVariables(a: Arena, s: nat) returns (r: seq<Occurrence>)
    requires ChildrenLinked(a) && s < |a|
    ensures r == VarDeclaredIn(a, s)
    decreases |a| - s
  {
    r := Kept(a[s].variables, s, VarKeep);
    var cs := a[s].children;
    for i := 0 to |cs|
      invariant r + CollectChildren(a, cs[i..], s, VarKeep) == Collect(a, s, VarKeep)
    {
      CollectChildrenStep(a, s, i, VarKeep);
      var sub := FindVarDeclaredVariables(a, cs[i]);
      CollectChildrenNext(a, s, i, VarKeep, r, sub, Collect(a, s, VarKeep));
      r := r + sub;
    }
    CollectChildrenDone(a, s, VarKeep, r, Collect(a, s, VarKeep));
  }

  /** The global query: every declaration of the root scope, plus the 'var'
      declarations below each child of the root that is not a function scope. */
  function GlobalDeclared(a: Arena): seq<Occurrence>
    requires |a| > 0
  {
    RootDeclarations(a) + GlobalBelow(a, a[0].children)
  }

  /** The declarations of any kind in the root scope. */
  function RootDeclarations(a: Arena): (r: seq<Occurrence>)
    requires |a| > 0
  {
    Filter(a[0].variables, (o: Occurrence) => o.role == Declaration)
  }

  function GlobalBelow(a: Arena, cs: seq<nat>): seq<Occurrence>
    requires |a| > 0
  {
    if cs == [] then []
    else (if 0 < cs[0] < |a| && a[cs[0]].kind != FunctionScope then VarDeclaredIn(a, cs[0]) else [])
         + GlobalBelow(a, cs[1..])
  }

  lemma GlobalBelowStep(a: Arena, i: nat)
    requires |a| > 0 && ChildrenLinked(a) && i < |a[0].children|
    ensures 0 < a[0].children[i] < |a|
    ensures GlobalBelow(a, a[0].children[i..])
      == (if a[a[0].children[i]].kind != FunctionScope then VarDeclaredIn(a, a[0].children[i]) else [])
         + GlobalBelow(a, a[0].children[i + 1..])
  {
    var cs := a[0].children;
    assert cs[i..][1..] == cs[i + 1..];
  }

  lemma GlobalBelowNext(a: Arena, i: nat, r: seq<Occurrence>, sub: seq<Occurrence>, whole: seq<Occurrence>)
    requires |a| > 0 && ChildrenLinked(a) && i < |a[0].children|
    requires r + GlobalBelow(a, a[0].children[i..]) == whole
    requires 0 < a[0].children[i] < |a|
    requires sub == if a[a[0].children[i]].kind != FunctionScope then VarDeclaredIn(a, a[0].children[i]) else []
    ensures (r + sub) + GlobalBelow(a, a[0].children[i + 1..]) == whole
  {
    GlobalBelowStep(a, i);
    AppendNext(r, sub, GlobalBelow(a, a[0].children[i + 1..]), GlobalBelow(a, a[0].children[i..]), whole);
  }

  lemma GlobalBelowDone(a: Arena, r: seq<Occurrence>)
    requires |a| > 0
    requires r + GlobalBelow(a, a[0].children[|a[0].children|..]) == GlobalDeclared(a)
    ensures r == GlobalDeclared(a)
  {
    assert a[0].children[|a[0].children|..] == [];
  }

  /** `_checkGlobalDeclaredVariables` on a built tree. */
  method CheckGlobalDeclaredVariables(a: Arena) returns (r: seq<Occurrence>)
    requires |a| > 0 && ChildrenLinked(a)
    ensures r == GlobalDeclared(a)
  {
    r := RootDeclarations(a);
    var cs := a[0].children;
    assert cs[0..] == cs;
    for i := 0 to |cs|
      invariant r + GlobalBelow(a, cs[i..]) == GlobalDeclared(a)
    {
      GlobalBelowStep(a, i);
      if a[cs[i]].kind != FunctionScope {
        var sub := FindVarDeclaredVariables(a, cs[i]);
        GlobalBelowNext(a, i, r, sub, GlobalDeclared(a));
        r := r + sub;
      } else {
        GlobalBelowNext(a, i, r, [], GlobalDeclared(a));
        assert r + [] == r;
      }
    }
    GlobalBelowDone(a, r);
  }

  /** `_checkAllVarDeclaredVariables` on a built tree. */
  method CheckAllVarDeclaredVariables(a: Arena) returns (r: seq<Occurrence>)
    requires WellFormed(a)
    ensures r == VarDeclaredIn(a, 0)
  {
    r := FindVarDeclaredVariables(a, 0);
  }

  /** `_checkGlobalUndeclaredVariables` on a built tree. */
  method CheckGlobalUndeclaredVariables(a: Arena) returns (r: seq<Occurrence>)
    requires WellFormed(a)
    ensures r == UndeclaredIn(a, 0, 0, IgnoredGlobals)
  {
    r := FindUndeclaredVariables(a, 0, true, IgnoredGlobals, None);
  }

  // ---------------------------------------------------------------------------
  // What the queries find, stated without the traversal

  lemma {:induction false} AncestorTransitive(a: Arena, x: nat, y: nat, z: nat)
    requires AncestorOrSelf(a, x, y) && AncestorOrSelf(a, y, z)
    ensures AncestorOrSelf(a, x, z)
    decreases z
  {
    if z != y {
      AncestorTransitive(a, x, y, a[z].parent.value);
    }
  }

  lemma ChildBelow(a: Arena, s: nat, c: nat)
    requires ChildrenLinked(a) && s < |a| && c in a[s].children
    ensures AncestorOrSelf(a, s, c) && s < c < |a|
  {
    var j :| 0 <= j < |a[s].children| && a[s].children[j] == c;
    assert AncestorOrSelf(a, s, s);
  }

  /** A scope strictly below `s` lies below one of its children. */
  lemma {:induction false} BelowSomeChild(a: Arena, s: nat, t: nat)
    requires WellFormed(a) && AncestorOrSelf(a, s, t) && t != s
    ensures exists c: nat :: c in a[s].children && AncestorOrSelf(a, c, t)
    decreases t
  {
    var p := a[t].parent.value;
    assert 0 < t;
    if p == s {
      assert t in a[s].children && AncestorOrSelf(a, t, t);
    } else {
      BelowSomeChild(a, s, p);
      var c: nat :| c in a[s].children && AncestorOrSelf(a, c, p);
      assert AncestorOrSelf(a, c, t);
    }
  }

  /** In a well-formed tree the root lies above every scope. */
  lemma {:induction false} RootAboveAll(a: Arena, t: nat)
    requires WellFormed(a) && t < |a|
    ensures AncestorOrSelf(a, 0, t)
    decreases t
  {
    if t != 0 {
      RootAboveAll(a, a[t].parent.value);
    }
  }

  lemma {:induction false} CollectSound(a: Arena, s: nat, keep: (nat, Occurrence) -> bool, o: Occurrence)
    requires WellFormed(a) && s < |a| && o in Collect(a, s, keep)
    ensures exists t: nat :: AncestorOrSelf(a, s, t) && o in a[t].variables && keep(t, o)
    decreases |a| - s, 1, 0
  {
    var own := Kept(a[s].variables, s, keep);
    KeptMembership(a[s].variables, s, keep, o);
    if o in own {
      assert AncestorOrSelf(a, s, s);
    } else {
      CollectChildrenSound(a, a[s].children, s, keep, o);
      var c: nat, t: nat :| c in a[s].children && AncestorOrSelf(a, c, t) && o in a[t].variables && keep(t, o);
      ChildBelow(a, s, c);
      AncestorTransitive(a, s, c, t);
    }
  }

  lemma {:induction false} CollectChildrenSound(a: Arena, cs: seq<nat>, p: nat, keep: (nat, Occurrence) -> bool, o: Occurrence)
    requires WellFormed(a) && p < |a| && o in CollectChildren(a, cs, p, keep)
    ensures exists c: nat, t: nat :: c in cs && AncestorOrSelf(a, c, t) && o in a[t].variables && keep(t, o)
    decreases |a| - p, 0, |cs|
  {
    var head := if p < cs[0] < |a| then Collect(a, cs[0], keep) else [];
    if o in head {
      CollectSound(a, cs[0], keep, o);
    } else {
      CollectChildrenSound(a, cs[1..], p, keep, o);
      var c: nat, t: nat :| c in cs[1..] && AncestorOrSelf(a, c, t) && o in a[t].variables && keep(t, o);
      assert c in cs;
    }
  }

  lemma {:induction false} CollectChildrenContains(a: Arena, cs: seq<nat>, p: nat, keep: (nat, Occurrence) -> bool, c: nat, o: Occurrence)
    requires p < c < |a| && c in cs && o in Collect(a, c, keep)
    ensures o in CollectChildren(a, cs, p, keep)
    decreases |cs|
  {
    if cs[0] != c {
      CollectChildrenContains(a, cs[1..], p, keep, c, o);
    }
  }

  lemma {:induction false} CollectComplete(a: Arena, s: nat, keep: (nat, Occurrence) -> bool, t: nat, o: Occurrence)
    requires WellFormed(a) && AncestorOrSelf(a, s, t) && o in a[t].variables && keep(t, o)
    ensures o in Collect(a, s, keep)
    decreases |a| - s
  {
    if t == s {
      KeptMembership(a[s].variables, s, keep, o);
    } else {
      BelowSomeChild(a, s, t);
      var c: nat :| c in a[s].children && AncestorOrSelf(a, c, t);
      ChildBelow(a, s, c);
      CollectComplete(a, c, keep, t, o);
      CollectChildrenContains(a, a[s].children, s, keep, c, o);
    }
  }

  /** What `Collect` gathers: exactly the selected occurrences of the scopes at
      or below `s`. */
  lemma CollectMembership(a: Arena, s: nat, keep: (nat, Occurrence) -> bool, o: Occurrence)
    requires WellFormed(a) && s < |a|
    ensures o in Collect(a, s, keep) <==> exists t: nat :: AncestorOrSelf(a, s, t) && o in a[t].variables && keep(t, o)
  {
    if o in Collect(a, s, keep) {
      CollectSound(a, s, keep, o);
    }
    if exists t: nat :: AncestorOrSelf(a, s, t) && o in a[t].variables && keep(t, o) {
      var t: nat :| AncestorOrSelf(a, s, t) && o in a[t].variables && keep(t, o);
      CollectComplete(a, s, keep, t, o);
    }
  }

  /** A declaration or parameter of `name` in `t` or in one of the scopes above it. */
  ghost predicate DeclaredOnPath(a: Arena, t: nat, name: Option<string>) {
    exists u: nat :: u < |a| && AncestorOrSelf(a, u, t) && DeclaresIn(a[u], name)
  }

  /** The climbing search up to the root finds a declaration exactly when one
      sits on the path from the scope to the root. */
  lemma {:induction false} DeclaredInChainToRoot(a: Arena, t: nat, name: Option<string>)
    requires WellFormed(a) && t < |a|
    ensures DeclaredInChain(a, t, 0, name) <==> DeclaredOnPath(a, t, name)
    decreases t
  {
    assert AncestorOrSelf(a, t, t);
    if t != 0 {
      var p := a[t].parent.value;
      DeclaredInChainToRoot(a, p, name);
      if DeclaredOnPath(a, p, name) {
        var u: nat :| u < |a| && AncestorOrSelf(a, u, p) && DeclaresIn(a[u], name);
        assert AncestorOrSelf(a, u, t);
      }
      if DeclaredOnPath(a, t, name) && !DeclaresIn(a[t], name) {
        var u: nat :| u < |a| && AncestorOrSelf(a, u, t) && DeclaresIn(a[u], name);
        assert AncestorOrSelf(a, u, p);
      }
    } else {
      if DeclaredOnPath(a, 0, name) {
        var u: nat :| u < |a| && AncestorOrSelf(a, u, 0) && DeclaresIn(a[u], name);
        assert u == 0;
      }
    }
  }

  /** The undeclared-variable report: an occurrence is listed exactly when it is
      a use or an assignment, no declaration or parameter of its name sits on
      the path from its scope to the root, and its name is not 'window' or
      'document'. */
  lemma UndeclaredReportIff(a: Arena, o: Occurrence)
    requires WellFormed(a)
    ensures o in UndeclaredIn(a, 0, 0, IgnoredGlobals) <==>
      exists t: nat :: t < |a| && o in a[t].variables && IsUse(o) && !DeclaredOnPath(a, t, o.name)
                  && !(o.name == Some("window") || o.name == Some("document"))
  {
    var keep := UndeclaredKeep(a, 0, IgnoredGlobals);
    CollectMembership(a, 0, keep, o);
    if o in UndeclaredIn(a, 0, 0, IgnoredGlobals) {
      var t: nat :| AncestorOrSelf(a, 0, t) && o in a[t].variables && keep(t, o);
      DeclaredInChainToRoot(a, t, o.name);
    }
    if exists t: nat :: t < |a| && o in a[t].variables && IsUse(o) && !DeclaredOnPath(a, t, o.name)
                  && !(o.name == Some("window") || o.name == Some("document")) {
      var t: nat :| t < |a| && o in a[t].variables && IsUse(o) && !DeclaredOnPath(a, t, o.name)
                  && !(o.name == Some("window") || o.name == Some("document"));
      DeclaredInChainToRoot(a, t, o.name);
      RootAboveAll(a, t);
      assert keep(t, o);
    }
  }

  /** The 'var' report: every 'var' declaration of every scope, and nothing else. */
  lemma AllVarReportIff(a: Arena, o: Occurrence)
    requires WellFormed(a)
    ensures o in VarDeclaredIn(a, 0) <==> exists t: nat :: t < |a| && o in a[t].variables && IsVarDeclaration(o)
  {
    CollectMembership(a, 0, VarKeep, o);
    if exists t: nat :: t < |a| && o in a[t].variables && IsVarDeclaration(o) {
      var t: nat :| t < |a| && o in a[t].variables && IsVarDeclaration(o);
      RootAboveAll(a, t);
    }
  }

  lemma {:induction false} GlobalBelowMembership(a: Arena, cs: seq<nat>, o: Occurrence)
    requires WellFormed(a) && forall i :: 0 <= i < |cs| ==> cs[i] in a[0].children
    ensures o in GlobalBelow(a, cs) <==>
      exists c: nat, t: nat :: c in cs && AncestorOrSelf(a, c, t) && a[c].kind != FunctionScope && o in a[t].variables && IsVarDeclaration(o)
    decreases |cs|
  {
    if cs != [] {
      GlobalBelowMembership(a, cs[1..], o);
      ChildBelow(a, 0, cs[0]);
      CollectMembership(a, cs[0], VarKeep, o);
      if exists c: nat, t: nat :: c in cs && AncestorOrSelf(a, c, t) && a[c].kind != FunctionScope && o in a[t].variables && IsVarDeclaration(o) {
        var c: nat, t: nat :| c in cs && AncestorOrSelf(a, c, t) && a[c].kind != FunctionScope && o in a[t].variables && IsVarDeclaration(o);
        if c != cs[0] {
          assert c in cs[1..];
        }
      }
    }
  }

  /** The global report: the root's own declarations of any kind, and the 'var'
      declarations at or below each child of the root that is not a function
      scope. A function nested in such a child does not stop the search. */
  lemma GlobalReportIff(a: Arena, o: Occurrence)
    requires WellFormed(a)
    ensures o in GlobalDeclared(a) <==>
      || (o in a[0].variables && o.role == Declaration)
      || exists c: nat, t: nat :: c in a[0].children && AncestorOrSelf(a, c, t) && a[c].kind != FunctionScope && o in a[t].variables && IsVarDeclaration(o)
  {
    GlobalBelowMembership(a, a[0].children, o);
  }
}
