/** The per-file JavaScript checks (analyseJs.py:56-66, 185-310): source type,
    strict mode, the three variable reports formatted by
    `_variableInfosToOutputResult`, and the scan for DOM level 0 event members. */
module JsChecks {
  import opened Common
  import opened Grouping
  import opened JsAst
  import opened JsScopes
  import opened JsResolve

  // ---------------------------------------------------------------------------
  // `_variableInfosToOutputResult`

  /** One `line:column(depth:level)` entry; `at` is None where the occurrence
      has no position. */
  datatype Location = Location(at: Option<Pos>, depth: nat)

  /** One output line: a variable name and the places it occurs, in order. The
      column padding of the Python f-string is not modelled. */
  datatype VariableLine = VariableLine(name: string, locations: seq<Location>)

  function NameKey(o: Occurrence): Option<string> {
    o.name
  }

  /** The depth printed for an occurrence: the level of the scope it sits in. */
  function Depth(a: Arena, o: Occurrence): nat {
    if o.scope < |a| then a[o.scope].level else 0
  }

  function LocationOf(a: Arena): Occurrence -> Location {
    (o: Occurrence) => Location(o.at, Depth(a, o))
  }

  predicate SomeNameless(occs: seq<Occurrence>) {
    exists i :: 0 <= i < |occs| && occs[i].name.None?
  }

  /** The report: one line per distinct name in order of first occurrence, each
      listing the locations of that name in input order. Formatting a name that
      is None with a width raises a TypeError, so a nameless occurrence makes the
      whole report fail (None). */
  function OutputLines(a: Arena, occs: seq<Occurrence>): (r: Option<seq<VariableLine>>)
    ensures r.None? <==> SomeNameless(occs)
  {
    if SomeNameless(occs) then None
    else
      var keys := FirstSeen(Map(occs, NameKey));
      NamedKeys(occs);
      Some(seq(|keys|, i requires 0 <= i < |keys| =>
        VariableLine(keys[i].value, Map(Select(occs, NameKey, keys[i]), LocationOf(a)))))
  }

  /** Without nameless occurrences every key is a name. */
  lemma NamedKeys(occs: seq<Occurrence>)
    requires !SomeNameless(occs)
    ensures forall i :: 0 <= i < |FirstSeen(Map(occs, NameKey))| ==> FirstSeen(Map(occs, NameKey))[i].Some?
  {
    var keys := FirstSeen(Map(occs, NameKey));
    forall i | 0 <= i < |keys| ensures keys[i].Some? {
      FirstSeenMembership(Map(occs, NameKey), keys[i]);
      assert keys[i] in Map(occs, NameKey);
      var j :| 0 <= j < |occs| && Map(occs, NameKey)[j] == keys[i];
    }
  }

  /** `_variableInfosToOutputResult`: the dictionary loop, then one line per key. */
  method VariableInfosToOutputResult(a: Arena, occs: seq<Occurrence>) returns (r: Option<seq<VariableLine>>)
    ensures r == OutputLines(a, occs)
  {
    var keys, groups := GroupBy(occs, NameKey);
    var lines: seq<VariableLine> := [];
    for i := 0 to |keys|
      invariant |lines| == i
      invariant LinesUpTo(a, occs, keys, lines)
    {
      var key := keys[i];
      assert key in groups;
      var locations := Map(groups[key], LocationOf(a));
      if key.None? {
        NamelessKey(occs, key);
        return None;
      }
      LinesUpToSnoc(a, occs, keys, lines);
      lines := lines + [VariableLine(key.value, locations)];
    }
    OutputLinesAre(a, occs, lines);
    r := Some(lines);
  }

  /** The first lines of the report, one per key, each key a name. */
  predicate LinesUpTo(a: Arena, occs: seq<Occurrence>, keys: seq<Option<string>>, lines: seq<VariableLine>) {
    && |lines| <= |keys|
    && forall j :: 0 <= j < |lines| ==>
         keys[j].Some? && lines[j] == VariableLine(keys[j].value, Map(Select(occs, NameKey, keys[j]), LocationOf(a)))
  }

  lemma LinesUpToSnoc(a: Arena, occs: seq<Occurrence>, keys: seq<Option<string>>, lines: seq<VariableLine>)
    requires LinesUpTo(a, occs, keys, lines) && |lines| < |keys| && keys[|lines|].Some?
    ensures LinesUpTo(a, occs, keys, lines + [VariableLine(keys[|lines|].value, Map(Select(occs, NameKey, keys[|lines|]), LocationOf(a)))])
  {
  }

  /** A key None among the names means a nameless occurrence. */
  lemma NamelessKey(occs: seq<Occurrence>, key: Option<string>)
    requires key in FirstSeen(Map(occs, NameKey)) && key.None?
    ensures SomeNameless(occs)
  {
    FirstSeenMembership(Map(occs, NameKey), key);
    var j :| 0 <= j < |occs| && Map(occs, NameKey)[j] == key;
    assert occs[j].name.None?;
  }

  /** When every key is a name, the report is Some of one line per key. */
  lemma OutputLinesAre(a: Arena, occs: seq<Occurrence>, lines: seq<VariableLine>)
    requires |lines| == |FirstSeen(Map(occs, NameKey))|
    requires LinesUpTo(a, occs, FirstSeen(Map(occs, NameKey)), lines)
    ensures OutputLines(a, occs) == Some(lines)
  {
    var keys := FirstSeen(Map(occs, NameKey));
    forall j | 0 <= j < |occs| ensures occs[j].name.Some? {
      assert Map(occs, NameKey)[j] == occs[j].name;
      FirstSeenMembership(Map(occs, NameKey), occs[j].name);
      var k :| 0 <= k < |keys| && keys[k] == occs[j].name;
    }
    assert !SomeNameless(occs);
    var out := OutputLines(a, occs).value;
    assert |out| == |lines|;
    assert forall j :: 0 <= j < |lines| ==> out[j] == lines[j];
    assert out == lines;
    assert OutputLines(a, occs) == Some(out);
  }

  function LocationCount(lines: seq<VariableLine>): nat {
    if lines == [] then 0 else LocationCount(lines[..|lines| - 1]) + |lines[|lines| - 1].locations|
  }

  lemma {:induction false} LocationCountMatches(a: Arena, occs: seq<Occurrence>, keys: seq<Option<string>>, lines: seq<VariableLine>)
    requires |lines| == |keys|
    requires forall i :: 0 <= i < |keys| ==> lines[i].locations == Map(Select(occs, NameKey, keys[i]), LocationOf(a))
    ensures LocationCount(lines) == SumSizes(keys, occs, NameKey)
  {
    if lines != [] {
      var n := |lines| - 1;
      LocationCountMatches(a, occs, keys[..n], lines[..n]);
    }
  }

  /** Every occurrence appears in exactly one line: the report's names are
      distinct and its locations add up to the number of occurrences. */
  lemma OutputLinesComplete(a: Arena, occs: seq<Occurrence>)
    requires OutputLines(a, occs).Some?
    ensures var lines := OutputLines(a, occs).value;
      && (forall i, j :: 0 <= i < j < |lines| ==> lines[i].name != lines[j].name)
      && LocationCount(lines) == |occs|
  {
    var keys := FirstSeen(Map(occs, NameKey));
    var lines := OutputLines(a, occs).value;
    LocationCountMatches(a, occs, keys, lines);
    GroupSizesSum(occs, NameKey);
    NamedKeys(occs);
    forall i, j | 0 <= i < j < |lines| ensures lines[i].name != lines[j].name {
      assert lines[i].name == keys[i].value && lines[j].name == keys[j].value;
      assert keys[i] != keys[j];
    }
  }

  /** Each line lists exactly the occurrences of its name. */
  lemma OutputLinesSelect(a: Arena, occs: seq<Occurrence>, i: nat)
    requires OutputLines(a, occs).Some? && i < |OutputLines(a, occs).value|
    ensures var line := OutputLines(a, occs).value[i];
      && Some(line.name) in Map(occs, NameKey)
      && line.locations == Map(Select(occs, NameKey, Some(line.name)), LocationOf(a))
  {
    var keys := FirstSeen(Map(occs, NameKey));
    NamedKeys(occs);
    FirstSeenMembership(Map(occs, NameKey), keys[i]);
    assert keys[i] in Map(occs, NameKey);
    assert OutputLines(a, occs).value[i].name == keys[i].value;
  }

  // ---------------------------------------------------------------------------
  // `_checkStrictMode`, `_checkEventLevelHandling`

  /** `_checkStrictMode`: nothing for an empty program, else 'OK' exactly when the
      first statement is the directive 'use strict'. */
  function StrictMode(p: Program): (r: Option<seq<string>>)
    ensures r.None? <==> p.body == []
    ensures r == Some(["OK"]) <==> p.body != [] && DirectiveOf(p.body[0]) == Some("use strict")
    ensures r.Some? ==> r == Some(["OK"]) || r == Some(["NOK"])
  {
    if p.body == [] then None
    else if DirectiveOf(p.body[0]) == Some("use strict") then Some(["OK"])
    else Some(["NOK"])
  }

  /** Token `i` is an identifier starting with 'on' right after a '.' punctuator. */
  predicate IsEventMember(ts: seq<Token>, i: nat)
    requires i < |ts|
  {
    && ts[i].tokenType == "Identifier" && StartsWith(ts[i].value, "on")
    && i > 0 && ts[i - 1].tokenType == "Punctuator" && ts[i - 1].value == "."
  }

  /** The event members among the first `n` tokens, in token order. */
  function EventMembers(ts: seq<Token>, n: nat): seq<Token>
    requires n <= |ts|
  {
    if n == 0 then [] else EventMembers(ts, n - 1) + (if IsEventMember(ts, n - 1) then [ts[n - 1]] else [])
  }

  /** `_checkEventLevelHandling`: nothing when there are no tokens. */
  method CheckEventLevelHandling(p: Program) returns (r: Option<seq<Token>>)
    ensures r.None? <==> p.tokens == []
    ensures r.Some? ==> r.value == EventMembers(p.tokens, |p.tokens|)
  {
    var ts := p.tokens;
    if ts == [] {
      return None;
    }
    var found: seq<Token> := [];
    for index := 0 to |ts|
      invariant found == EventMembers(ts, index)
    {
      var token := ts[index];
      if token.tokenType == "Identifier" && StartsWith(token.value, "on") {
        if index > 0 {
          var prevToken := ts[index - 1];
          if prevToken.tokenType == "Punctuator" && prevToken.value == "." {
            found := found + [token];
          }
        }
      }
    }
    r := Some(found);
  }

  /** The scan reports a token exactly when it is an event member, so never the
      first token. */
  lemma {:induction false} EventMembersIff(ts: seq<Token>, n: nat, t: Token)
    requires n <= |ts|
    ensures t in EventMembers(ts, n) <==> exists i :: 0 < i < n && IsEventMember(ts, i) && ts[i] == t
    decreases n
  {
    if n > 0 {
      EventMembersIff(ts, n - 1, t);
      if t in EventMembers(ts, n) && t !in EventMembers(ts, n - 1) {
        assert IsEventMember(ts, n - 1) && ts[n - 1] == t;
      }
    }
  }

  // ---------------------------------------------------------------------------
  // `_checkJsFiles` for one file

  /** The results recorded for one file: an error line when any check raised,
      otherwise the six results in the order they are appended. */
  datatype JsReport =
    | Failed
    | Checked(sourceType: seq<string>, strictMode: Option<seq<string>>,
              globalVariables: seq<VariableLine>, varVariables: seq<VariableLine>,
              undeclaredVariables: seq<VariableLine>, eventLevelHandling: Option<seq<Token>>)

  /** What the three variable checks report on a tree. */
  function GlobalLines(a: Arena): Option<seq<VariableLine>>
    requires |a| > 0
  {
    OutputLines(a, GlobalDeclared(a))
  }

  function VarLines(a: Arena): Option<seq<VariableLine>>
    requires |a| > 0
  {
    OutputLines(a, VarDeclaredIn(a, 0))
  }

  function UndeclaredLines(a: Arena): Option<seq<VariableLine>>
    requires |a| > 0
  {
    OutputLines(a, UndeclaredIn(a, 0, 0, IgnoredGlobals))
  }

  /** The checks of `_checkJsFiles` on one parsed file, inside its try block. */
  method CheckJsFile(parsed: Program) returns (r: JsReport)
    ensures var t := ScopeTree(Fixed(parsed));
      r.Failed? <==>
        t.raised || GlobalLines(t.scopes).None? || VarLines(t.scopes).None? || UndeclaredLines(t.scopes).None?
    ensures var t := ScopeTree(Fixed(parsed));
      r.Checked? ==>
        && r.sourceType == [Fixed(parsed).sourceType]
        && r.strictMode == StrictMode(parsed)
        && Some(r.globalVariables) == GlobalLines(t.scopes)
        && Some(r.varVariables) == VarLines(t.scopes)
        && Some(r.undeclaredVariables) == UndeclaredLines(t.scopes)
        && (r.eventLevelHandling.None? <==> parsed.tokens == [])
        && (r.eventLevelHandling.Some? ==> r.eventLevelHandling.value == EventMembers(parsed.tokens, |parsed.tokens|))
  {
    var p := FixSourceType(parsed);
    assert p.sourceType == Fixed(parsed).sourceType;
    assert p == Fixed(parsed);
    var sourceType := [p.sourceType];
    var strictMode := StrictMode(p);
    var scopes, raised := BuildScopeTree(p);
    if raised {
      return Failed;
    }
    var globals := CheckGlobalDeclaredVariables(scopes);
    var globalLines := VariableInfosToOutputResult(scopes, globals);
    if globalLines.None? {
      return Failed;
    }
    var vars := CheckAllVarDeclaredVariables(scopes);
    var varLines := VariableInfosToOutputResult(scopes, vars);
    if varLines.None? {
      return Failed;
    }
    var undeclared := CheckGlobalUndeclaredVariables(scopes);
    var undeclaredLines := VariableInfosToOutputResult(scopes, undeclared);
    if undeclaredLines.None? {
      return Failed;
    }
    var events := CheckEventLevelHandling(p);
    r := Checked(sourceType, strictMode, globalLines.value, varLines.value, undeclaredLines.value, events);
  }
}
