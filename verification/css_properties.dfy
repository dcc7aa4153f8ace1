/** The property checks of the CSS analyser (`_checkProperties` and the checks
    built on it, analyseCss.py:93-169): a list of wanted items such as
    `display:grid` or `flex-*` is parsed into name/value conditions, and every
    style rule is reported with the properties that meet one of them. */
module CssProperties {
  import opened Common
  import opened CssSheet

  /** `re.match(p.replace('*', '.*'), s)` for a pattern made of literal
      characters and `*`: some prefix of `s` matches `p`, each `*` standing for
      any run of characters other than a line break (`.` does not match "\n"). */
  predicate WildMatch(p: string, s: string)
    decreases |p| + |s|
  {
    if p == [] then true
    else if p[0] == '*' then WildMatch(p[1..], s) || (s != [] && s[0] != '\n' && WildMatch(p, s[1..]))
    else s != [] && s[0] == p[0] && WildMatch(p[1..], s[1..])
  }

  /** A pattern without `*` matches exactly the strings it starts. */
  lemma {:induction false} WildLiteral(p: string, s: string)
    requires '*' !in p
    ensures WildMatch(p, s) <==> StartsWith(s, p)
  {
    if p != [] && s != [] {
      assert '*' !in p[1..];
      WildLiteral(p[1..], s[1..]);
      if |p| <= |s| {
        assert s[..|p|] == [s[0]] + s[1..][..|p| - 1];
        assert p == [p[0]] + p[1..];
      }
    }
  }

  /** A literal followed by `*` matches exactly the strings the literal starts. */
  lemma {:induction false} WildLiteralStar(p: string, s: string)
    requires '*' !in p
    ensures WildMatch(p + "*", s) <==> StartsWith(s, p)
  {
    var q := p + "*";
    if p == [] {
      assert q[1..] == [];
    } else {
      assert q[0] == p[0] && q[1..] == p[1..] + "*";
      if s != [] {
        assert '*' !in p[1..];
        WildLiteralStar(p[1..], s[1..]);
        if |p| <= |s| {
          assert s[..|p|] == [s[0]] + s[1..][..|p| - 1];
          assert p == [p[0]] + p[1..];
        }
      }
    }
  }

  /** `s` holds `p` after a first stretch of `k` characters without a line break. */
  predicate LineRunThen(s: string, k: int, p: string) {
    0 <= k <= |s| && '\n' !in s[..k] && StartsWith(s[k..], p)
  }

  /** `*` followed by a literal matches exactly the strings holding the literal
      after a stretch without a line break. */
  lemma {:induction false} WildStarLiteral(p: string, s: string)
    requires '*' !in p
    ensures WildMatch("*" + p, s) <==> exists k :: LineRunThen(s, k, p)
  {
    var q := "*" + p;
    assert q[0] == '*' && q[1..] == p;
    WildLiteral(p, s);
    assert s[..0] == [] && s[0..] == s;
    if WildMatch(q, s) {
      if WildMatch(p, s) {
        assert LineRunThen(s, 0, p);
      } else {
        WildStarLiteral(p, s[1..]);
        var k :| LineRunThen(s[1..], k, p);
        assert s[..k + 1] == [s[0]] + s[1..][..k];
        assert s[k + 1..] == s[1..][k..];
        assert LineRunThen(s, k + 1, p);
      }
    }
    if exists k :: LineRunThen(s, k, p) {
      var k :| LineRunThen(s, k, p);
      if k > 0 {
        assert s[0] == s[..k][0];
        WildStarLiteral(p, s[1..]);
        assert s[1..][..k - 1] == s[1..k];
        assert forall c :: c in s[1..k] ==> c in s[..k];
        assert s[1..][k - 1..] == s[k..];
        assert LineRunThen(s[1..], k - 1, p);
      }
    }
  }

  /** A parsed wanted item: a name pattern and, when one was given, a value
      pattern. */
  datatype Wanted = Wanted(name: string, value: Option<string>)

  /** The parse of one item in the loop of `_checkProperties`: `name:value`
      becomes two patterns (an empty side becoming `*`), a plain name a name
      pattern alone, and anything else keeps only the text before its first
      colon; an item with nothing there is dropped. */
  function ParseWanted(item: string): (r: Option<Wanted>)
    ensures r.Some? ==> r.value.name != ""
    ensures r.Some? && r.value.value.Some? ==> r.value.value.value != ""
  {
    var parts := Split(item, ':');
    if |parts| == 2 then
      Some(Wanted(if parts[0] != "" then parts[0] else "*", Some(if parts[1] != "" then parts[1] else "*")))
    else if parts[0] != "" then Some(Wanted(parts[0], None))
    else None
  }

  /** An item without a colon is a name pattern, unless it is empty. */
  lemma ParseNoColon(item: string)
    requires ':' !in item
    ensures ParseWanted(item) == if item == "" then None else Some(Wanted(item, None))
  {
    SplitNoSep(item, ':');
  }

  /** `a:b` with one colon is the pair of patterns, an empty side becoming `*`. */
  lemma ParseOneColon(a: string, b: string)
    requires ':' !in a && ':' !in b
    ensures ParseWanted(a + ":" + b) == Some(Wanted(if a != "" then a else "*", Some(if b != "" then b else "*")))
  {
    SplitFirst(a, b, ':');
    SplitNoSep(b, ':');
  }

  /** With two colons or more only the text before the first one is kept, as a
      name pattern without a value pattern. */
  lemma ParseColons(a: string, rest: string)
    requires ':' !in a && ':' in rest
    ensures ParseWanted(a + ":" + rest) == if a == "" then None else Some(Wanted(a, None))
  {
    SplitFirst(a, rest, ':');
    SplitHasSep(rest, ':');
  }

  function OptionSeq<T>(o: Option<T>): seq<T> {
    if o.Some? then [o.value] else []
  }

  /** `propertiesWanted` after the parse loop over `items`. */
  function WantedOf(items: seq<string>): (r: seq<Wanted>)
    ensures |r| <= |items|
    ensures forall i :: 0 <= i < |r| ==> r[i].name != ""
  {
    if items == [] then []
    else WantedOf(items[..|items| - 1]) + OptionSeq(ParseWanted(items[|items| - 1]))
  }

  lemma WantedOfSnoc(items: seq<string>, item: string)
    ensures WantedOf(items + [item]) == WantedOf(items) + OptionSeq(ParseWanted(item))
  {
    assert (items + [item])[..|items|] == items;
  }

  /** `_isWantedProperty`: never when both patterns are empty, otherwise each
      non-empty pattern matches the start of the name or of the value. */
  predicate IsWanted(d: Declaration, w: Wanted) {
    var hasName := w.name != "";
    var hasValue := w.value.Some? && w.value.value != "";
    && (hasName || hasValue)
    && (hasName ==> WildMatch(w.name, d.name))
    && (hasValue ==> WildMatch(w.value.value, d.value))
  }

  /** A plain name item such as `overflow` or `float` catches every property
      whose name starts with it (`overflow-x` included), whatever its value. */
  lemma NameItemWanted(item: string, d: Declaration)
    requires item != "" && ':' !in item && '*' !in item
    ensures ParseWanted(item) == Some(Wanted(item, None))
    ensures IsWanted(d, Wanted(item, None)) <==> StartsWith(d.name, item)
  {
    ParseNoColon(item);
    WildLiteral(item, d.name);
  }

  /** An item `a*` such as `flex-*` catches every property whose name starts
      with `a`. */
  lemma NameStarItemWanted(a: string, d: Declaration)
    requires ':' !in a && '*' !in a
    ensures ParseWanted(a + "*") == Some(Wanted(a + "*", None))
    ensures IsWanted(d, Wanted(a + "*", None)) <==> StartsWith(d.name, a)
  {
    assert ':' !in a + "*";
    ParseNoColon(a + "*");
    WildLiteralStar(a, d.name);
  }

  /** An item `a:b` such as `display:grid` catches every property whose name
      starts with `a` and whose value starts with `b`. */
  lemma PairItemWanted(a: string, b: string, d: Declaration)
    requires a != "" && b != ""
    requires ':' !in a && ':' !in b && '*' !in a && '*' !in b
    ensures ParseWanted(a + ":" + b) == Some(Wanted(a, Some(b)))
    ensures IsWanted(d, Wanted(a, Some(b))) <==> StartsWith(d.name, a) && StartsWith(d.value, b)
  {
    ParseOneColon(a, b);
    WildLiteral(a, d.name);
    WildLiteral(b, d.value);
  }

  /** `:*!important` parses to any name with a value pattern `*!important`. */
  lemma ImportantParse()
    ensures ParseWanted(":*!important") == Some(Wanted("*", Some("*!important")))
  {
    assert ':' !in "*!important" by {
      assert forall k :: 0 <= k < |"*!important"| ==> "*!important"[k] != ':';
    }
    assert ":*!important" == "" + ":" + "*!important";
    ParseOneColon("", "*!important");
  }

  /** The condition parsed from `:*!important` catches every property, whatever
      its name, whose value holds `!important` after a stretch without a line break. */
  lemma ImportantItemWanted(d: Declaration)
    ensures IsWanted(d, Wanted("*", Some("*!important"))) <==> exists k :: LineRunThen(d.value, k, "!important")
  {
    assert WildMatch("*", d.name) by {
      assert "*"[1..] == [];
    }
    assert '*' !in "!important" by {
      assert forall k :: 0 <= k < |"!important"| ==> "!important"[k] != '*';
    }
    assert "*!important" == "*" + "!important";
    WildStarLiteral("!important", d.value);
  }

  /** A value without `!` is never caught by the `*!important` condition.
      cssutils keeps the priority apart from the value, so a parsed value has
      no `!important` and the condition never fires. */
  lemma ImportantNeedsBang(d: Declaration)
    requires '!' !in d.value
    ensures !IsWanted(d, Wanted("*", Some("*!important")))
  {
    ImportantItemWanted(d);
    forall k | 0 <= k <= |d.value|
      ensures !StartsWith(d.value[k..], "!important")
    {
      if k < |d.value| {
        assert d.value[k] != '!';
        assert d.value[k..][0] == d.value[k];
      }
    }
  }

  /** Some condition of `ws` catches `d`. */
  predicate AnyWanted(ws: seq<Wanted>, d: Declaration) {
    exists i :: 0 <= i < |ws| && IsWanted(d, ws[i])
  }

  function WantedTest(ws: seq<Wanted>): Declaration -> bool {
    d => AnyWanted(ws, d)
  }

  /** `foundedProperties`: the properties of the rule that some condition
      catches, in rule order, each taken once. */
  function Found(ws: seq<Wanted>, rule: Rule): seq<Declaration> {
    Filter(Declarations(rule), WantedTest(ws))
  }

  /** Condition `w` catches one of `found`. */
  predicate Matched(found: seq<Declaration>, w: Wanted) {
    exists k :: 0 <= k < |found| && IsWanted(found[k], w)
  }

  /** Every condition catches one of `found` (`hasAllWantedProperties`). */
  predicate AllMatched(ws: seq<Wanted>, found: seq<Declaration>) {
    forall i :: 0 <= i < |ws| ==> Matched(found, ws[i])
  }

  /** `prop[0]+':'+prop[1]` */
  function DeclarationText(d: Declaration): string {
    d.name + ":" + d.value
  }

  /** `selector+' { '+', '.join(...)+' }'` */
  function ReportLine(selector: string, found: seq<Declaration>): string {
    selector + " { " + Join(Map(found, DeclarationText), ", ") + " }"
  }

  /** What `_checkProperties` reports for one style rule: nothing when no
      property is caught or, with `requireAll`, when some condition catches
      none of them; otherwise the rule with its caught properties. */
  function RuleReport(rule: Rule, ws: seq<Wanted>, requireAll: bool): seq<string> {
    var found := Found(ws, rule);
    if found != [] && (!requireAll || AllMatched(ws, found)) then [ReportLine(SelectorText(rule), found)] else []
  }

  /** The report for the style rules `rules`, in order. */
  function PropertiesReport(rules: seq<Rule>, ws: seq<Wanted>, requireAll: bool): seq<string> {
    if rules == [] then []
    else PropertiesReport(rules[..|rules| - 1], ws, requireAll) + RuleReport(rules[|rules| - 1], ws, requireAll)
  }

  lemma PropertiesReportSnoc(rules: seq<Rule>, i: nat, ws: seq<Wanted>, requireAll: bool)
    requires i < |rules|
    ensures PropertiesReport(rules[..i + 1], ws, requireAll) == PropertiesReport(rules[..i], ws, requireAll) + RuleReport(rules[i], ws, requireAll)
  {
    assert rules[..i + 1][..i] == rules[..i];
  }

  /** The inner loops of `_checkProperties` for one rule: each property is
      tried against the conditions in turn and taken at the first that
      catches it. */
  method FindWanted(rule: Rule, ws: seq<Wanted>) returns (found: seq<Declaration>)
    ensures found == Found(ws, rule)
  {
    var props := Declarations(rule);
    found := [];
    for i := 0 to |props|
      invariant found == Filter(props[..i], WantedTest(ws))
    {
      var p := props[i];
      ghost var before := found;
      var j := 0;
      while j < |ws|
        invariant 0 <= j <= |ws|
        invariant found == before
        invariant forall k :: 0 <= k < j ==> !IsWanted(p, ws[k])
      {
        if IsWanted(p, ws[j]) {
          found := found + [p];
          break;
        }
        j := j + 1;
      }
      FilterSnoc(props, i, WantedTest(ws));
    }
    assert props[..|props|] == props;
  }

  /** The require-all loop: each condition is looked for among the caught
      properties, stopping at the first that it catches. */
  method HasAllWanted(ws: seq<Wanted>, found: seq<Declaration>) returns (all: bool)
    ensures all == AllMatched(ws, found)
  {
    all := true;
    for i := 0 to |ws|
      invariant all == forall k :: 0 <= k < i ==> Matched(found, ws[k])
    {
      var hit := false;
      var j := 0;
      while j < |found|
        invariant 0 <= j <= |found|
        invariant !hit
        invariant forall k :: 0 <= k < j ==> !IsWanted(found[k], ws[i])
      {
        hit := hit || IsWanted(found[j], ws[i]);
        if hit {
          break;
        }
        j := j + 1;
      }
      assert hit == Matched(found, ws[i]);
      all := all && hit;
    }
  }

  /** `_checkProperties`: the parse loop, then one report line per style rule
      that qualifies. */
  method CheckProperties(sheet: seq<Rule>, items: seq<string>, requireAll: bool) returns (results: seq<string>)
    ensures results == PropertiesReport(StyleRules(sheet), WantedOf(items), requireAll)
  {
    var ws: seq<Wanted> := [];
    for i := 0 to |items|
      invariant ws == WantedOf(items[..i])
    {
      WantedOfSnoc(items[..i], items[i]);
      assert items[..i + 1] == items[..i] + [items[i]];
      var w := ParseWanted(items[i]);
      if w.Some? {
        ws := ws + [w.value];
      }
    }
    assert items[..|items|] == items;
    var rules := StyleRules(sheet);
    results := [];
    for i := 0 to |rules|
      invariant results == PropertiesReport(rules[..i], ws, requireAll)
    {
      PropertiesReportSnoc(rules, i, ws, requireAll);
      var found := FindWanted(rules[i], ws);
      if found != [] {
        if !requireAll {
          results := results + [ReportLine(SelectorText(rules[i]), found)];
        } else {
          var all := HasAllWanted(ws, found);
          if all {
            results := results + [ReportLine(SelectorText(rules[i]), found)];
          }
        }
      }
    }
    assert rules[..|rules|] == rules;
  }

  /** Each property of the rule enters the caught list at most as often as it
      occurs in the rule, and not at all unless a condition catches it. */
  lemma FoundOnce(ws: seq<Wanted>, rule: Rule, d: Declaration)
    ensures multiset(Found(ws, rule))[d] == if AnyWanted(ws, d) then multiset(Declarations(rule))[d] else 0
  {
    FilterCount(Declarations(rule), WantedTest(ws), d);
  }

  /** A condition catches one of the caught properties exactly when it catches
      one of the rule's properties. */
  lemma MatchedFound(ws: seq<Wanted>, rule: Rule, i: nat)
    requires i < |ws|
    ensures Matched(Found(ws, rule), ws[i]) <==> Matched(Declarations(rule), ws[i])
  {
    var props, found := Declarations(rule), Found(ws, rule);
    if Matched(found, ws[i]) {
      var k :| 0 <= k < |found| && IsWanted(found[k], ws[i]);
      FilterMembership(props, WantedTest(ws), found[k]);
    }
    if Matched(props, ws[i]) {
      var k :| 0 <= k < |props| && IsWanted(props[k], ws[i]);
      FilterMembership(props, WantedTest(ws), props[k]);
      var m :| 0 <= m < |found| && found[m] == props[k];
    }
  }

  /** Without `requireAll`, a style rule is reported exactly when one of its
      properties is caught by some condition. */
  lemma AnyModeReport(rule: Rule, ws: seq<Wanted>)
    ensures RuleReport(rule, ws, false) != [] <==> exists k :: 0 <= k < |Declarations(rule)| && AnyWanted(ws, Declarations(rule)[k])
  {
    var props, found := Declarations(rule), Found(ws, rule);
    if found != [] {
      FilterMembership(props, WantedTest(ws), found[0]);
    }
    if exists k :: 0 <= k < |props| && AnyWanted(ws, props[k]) {
      var k :| 0 <= k < |props| && AnyWanted(ws, props[k]);
      FilterMembership(props, WantedTest(ws), props[k]);
    }
  }

  /** With `requireAll` and at least one condition, a style rule is reported
      exactly when every condition catches one of its properties. */
  lemma RequireAllReport(rule: Rule, ws: seq<Wanted>)
    requires ws != []
    ensures RuleReport(rule, ws, true) != [] <==> AllMatched(ws, Declarations(rule))
  {
    var found := Found(ws, rule);
    forall i | 0 <= i < |ws| ensures Matched(found, ws[i]) <==> Matched(Declarations(rule), ws[i]) {
      MatchedFound(ws, rule, i);
    }
    if AllMatched(ws, found) {
      assert Matched(found, ws[0]);
    }
  }

  /** There is at most one report line per style rule. */
  lemma {:induction false} PropertiesReportLength(rules: seq<Rule>, ws: seq<Wanted>, requireAll: bool)
    ensures |PropertiesReport(rules, ws, requireAll)| <= |rules|
  {
    if rules != [] {
      PropertiesReportLength(rules[..|rules| - 1], ws, requireAll);
    }
  }

  const SemiForbiddenItems: seq<string> := ["overflow"]
  const ForbiddenItems: seq<string> := ["float", ":*!important"]
  const GridItems: seq<string> := ["display:grid", "display:inline-grid", "grid", "grid-template-*", "grid-area"]
  const FlexboxItems: seq<string> := ["display:flex", "display:inline-flex", "flex", "flex-*", "order"]
  const HiddenTitleItems: seq<string> := ["position:absolute", "width", "height", "left", "overflow:hidden"]

  /** The forbidden check looks for any `float` property and any value marked
      `!important`. */
  lemma ForbiddenWanted()
    ensures WantedOf(ForbiddenItems) == [Wanted("float", None), Wanted("*", Some("*!important"))]
  {
    var ws := [Wanted("float", None), Wanted("*", Some("*!important"))];
    forall i | 0 <= i < |ForbiddenItems| ensures ParseWanted(ForbiddenItems[i]) == Some(ws[i]) {
      if i == 0 {
        FloatParse();
      } else {
        ImportantParse();
      }
    }
    WantedOfParsed(ForbiddenItems, ws);
  }

  lemma FloatParse()
    ensures ParseWanted("float") == Some(Wanted("float", None))
  {
    assert ':' !in "float" by {
      assert forall k :: 0 <= k < |"float"| ==> "float"[k] != ':';
    }
    ParseNoColon("float");
  }

  /** `name:value` with literal sides parses to the pair of them. */
  lemma HiddenTitlePairParse(item: string, a: string, b: string)
    requires a != "" && b != "" && ':' !in a && ':' !in b
    requires item == a + ":" + b
    ensures ParseWanted(item) == Some(Wanted(a, Some(b)))
  {
    ParseOneColon(a, b);
  }

  lemma PositionParse()
    ensures ParseWanted("position:absolute") == Some(Wanted("position", Some("absolute")))
  {
    assert ':' !in "position" && ':' !in "absolute" by {
      assert forall k :: 0 <= k < |"position"| ==> "position"[k] != ':';
      assert forall k :: 0 <= k < |"absolute"| ==> "absolute"[k] != ':';
    }
    HiddenTitlePairParse("position:absolute", "position", "absolute");
  }

  lemma OverflowParse()
    ensures ParseWanted("overflow:hidden") == Some(Wanted("overflow", Some("hidden")))
  {
    assert ':' !in "overflow" && ':' !in "hidden" by {
      assert forall k :: 0 <= k < |"overflow"| ==> "overflow"[k] != ':';
      assert forall k :: 0 <= k < |"hidden"| ==> "hidden"[k] != ':';
    }
    HiddenTitlePairParse("overflow:hidden", "overflow", "hidden");
  }

  lemma NameParse(item: string)
    requires item in ["width", "height", "left"]
    ensures ParseWanted(item) == Some(Wanted(item, None))
  {
    assert item != "" && forall k :: 0 <= k < |item| ==> item[k] != ':';
    ParseNoColon(item);
  }

  /** When every item parses, the wanted list is their parses in order. */
  lemma {:induction false} WantedOfParsed(items: seq<string>, ws: seq<Wanted>)
    requires |items| == |ws|
    requires forall i :: 0 <= i < |items| ==> ParseWanted(items[i]) == Some(ws[i])
    ensures WantedOf(items) == ws
  {
    if items != [] {
      var n := |items| - 1;
      WantedOfParsed(items[..n], ws[..n]);
      assert ws == ws[..n] + [ws[n]];
    }
  }

  /** The hidden-title check wants `position:absolute`, `width`, `height`,
      `left` and `overflow:hidden`, all five in one rule. */
  lemma HiddenTitleWanted()
    ensures WantedOf(HiddenTitleItems) == [Wanted("position", Some("absolute")), Wanted("width", None),
                                Wanted("height", None), Wanted("left", None), Wanted("overflow", Some("hidden"))]
  {
    var ws := [Wanted("position", Some("absolute")), Wanted("width", None),
               Wanted("height", None), Wanted("left", None), Wanted("overflow", Some("hidden"))];
    var items := HiddenTitleItems;
    forall i | 0 <= i < |items| ensures ParseWanted(items[i]) == Some(ws[i]) {
      if i == 0 {
        PositionParse();
      } else if i == 4 {
        OverflowParse();
      } else {
        NameParse(items[i]);
      }
    }
    WantedOfParsed(items, ws);
  }

  /** `result.replace('{','{\n\t\t').replace(',',',\n\t\t')`: a line break and
      two tabs after every `{` and every `,`. */
  function Indent(s: string): (r: string)
    ensures |r| == |s| + 3 * (CountChar(s, '{') + CountChar(s, ','))
  {
    if s == [] then []
    else (if s[0] == '{' || s[0] == ',' then [s[0]] + "\n\t\t" else [s[0]]) + Indent(s[1..])
  }

  /** `_checkSemiForbiddenProperties` */
  method CheckSemiForbiddenProperties(sheet: seq<Rule>) returns (results: seq<string>)
    ensures results == PropertiesReport(StyleRules(sheet), WantedOf(SemiForbiddenItems), false)
  {
    results := CheckProperties(sheet, SemiForbiddenItems, false);
  }

  /** `_checkForbiddenProperties` */
  method CheckForbiddenProperties(sheet: seq<Rule>) returns (results: seq<string>)
    ensures results == PropertiesReport(StyleRules(sheet), WantedOf(ForbiddenItems), false)
  {
    results := CheckProperties(sheet, ForbiddenItems, false);
  }

  /** `_checkHiddenTitle` */
  method CheckHiddenTitle(sheet: seq<Rule>) returns (results: seq<string>)
    ensures results == PropertiesReport(StyleRules(sheet), WantedOf(HiddenTitleItems), true)
  {
    results := CheckProperties(sheet, HiddenTitleItems, true);
  }

  /** The reformatting loop of `_checkGrid` and `_checkFlexbox`. */
  method IndentAll(lines: seq<string>) returns (out: seq<string>)
    ensures out == Map(lines, Indent)
  {
    out := [];
    for i := 0 to |lines|
      invariant out == Map(lines[..i], Indent)
    {
      assert lines[..i + 1] == lines[..i] + [lines[i]];
      MapAppend(lines[..i], [lines[i]], Indent);
      out := out + [Indent(lines[i])];
    }
    assert lines[..|lines|] == lines;
  }

  /** `_checkGrid` */
  method CheckGrid(sheet: seq<Rule>) returns (out: seq<string>)
    ensures out == Map(PropertiesReport(StyleRules(sheet), WantedOf(GridItems), false), Indent)
  {
    var results := CheckProperties(sheet, GridItems, false);
    out := IndentAll(results);
  }

  /** `_checkFlexbox` */
  method CheckFlexbox(sheet: seq<Rule>) returns (out: seq<string>)
    ensures out == Map(PropertiesReport(StyleRules(sheet), WantedOf(FlexboxItems), false), Indent)
  {
    var results := CheckProperties(sheet, FlexboxItems, false);
    out := IndentAll(results);
  }
}
