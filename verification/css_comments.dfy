/** The comment check of the CSS analyser (`_checkComments`,
    analyseCss.py:170-230): top-level comments are listed, and every style rule
    is listed with its comments, the properties that need a comment, and the
    properties written next to a comment; every other stretch of properties
    shows as one `...`. */
module CssComments {
  import opened Common
  import opened CssSheet

  /** `requiredCommentedProperties` */
  const RequiredCommented: seq<string> := ["position", "box-sizing"]

  /** Child `j` exists and is a comment. */
  predicate CommentAt(cs: seq<Child>, j: int) {
    0 <= j < |cs| && cs[j].Comment?
  }

  /** A property that must always be shown with its comment. */
  predicate Required(c: Child) {
    c.Property? && c.name in RequiredCommented
  }

  /** Child `j` is a property that is not required and has no comment on
      either side: it falls in a gap. */
  predicate Uncommented(cs: seq<Child>, j: int) {
    0 <= j < |cs| && cs[j].Property? && !Required(cs[j]) && !CommentAt(cs, j - 1) && !CommentAt(cs, j + 1)
  }

  /** What one child contributes: its text, the `...` that opens a gap, or
      nothing inside a gap. */
  datatype Piece = Keep(text: string) | GapStart | GapRest

  function PieceAt(cs: seq<Child>, j: nat): Piece
    requires j < |cs|
  {
    if cs[j].Comment? then Keep(cs[j].text)
    else if !Uncommented(cs, j) then Keep(cs[j].text + ";")
    else if Uncommented(cs, j - 1) then GapRest
    else GapStart
  }

  function Render(p: Piece): seq<string> {
    match p
    case Keep(t) => [t]
    case GapStart => ["..."]
    case GapRest => []
  }

  /** `styleRuleResults` after the first `n` children. */
  function ItemsUpTo(cs: seq<Child>, n: nat): seq<string>
    requires n <= |cs|
  {
    if n == 0 then [] else ItemsUpTo(cs, n - 1) + Render(PieceAt(cs, n - 1))
  }

  function RuleItems(cs: seq<Child>): seq<string> {
    ItemsUpTo(cs, |cs|)
  }

  /** The child loop of `_checkComments`, driven by the flags that say whether
      the previous child was a comment and whether it was part of a gap. */
  method ChildItems(cs: seq<Child>) returns (items: seq<string>)
    ensures items == RuleItems(cs)
  {
    items := [];
    var prevComment, prevGap := false, false;
    for j := 0 to |cs|
      invariant items == ItemsUpTo(cs, j)
      invariant prevComment == CommentAt(cs, j - 1)
      invariant prevGap == Uncommented(cs, j - 1)
    {
      var isComment, startOfGap, partOfGap := false, false, false;
      match cs[j] {
        case Comment(text) =>
          items := items + [text];
          isComment := true;
        case Property(name, _, text) =>
          if name in RequiredCommented {
            items := items + [text + ";"];
          } else {
            var nextComment := false;
            if j < |cs| - 1 {
              nextComment := cs[j + 1].Comment?;
            }
            if prevComment || nextComment {
              items := items + [text + ";"];
            } else if !prevGap {
              items := items + ["..."];
              startOfGap := true;
            } else {
              partOfGap := true;
            }
          }
      }
      prevComment := isComment;
      prevGap := startOfGap || partOfGap;
    }
  }

  /** One entry of the report: a top-level comment, or a style rule with its
      shown children. */
  datatype CommentEntry = TopComment(text: string) | RuleComments(selector: string, items: seq<string>)

  predicate IsTopComment(e: CommentEntry) {
    e.TopComment?
  }

  predicate IsCommentRule(r: Rule) {
    r.CommentRule?
  }

  function TopCommentOf(r: Rule): CommentEntry {
    if r.CommentRule? then TopComment(r.text) else TopComment("")
  }

  /** What one top-level rule contributes: a comment is listed, a style rule
      is listed unless it shows nothing or only a single `...`, and other
      rules are skipped. */
  function RuleEntry(r: Rule): seq<CommentEntry> {
    match r
    case CommentRule(text) => [TopComment(text)]
    case StyleRule(selector, cs) =>
      var items := RuleItems(cs);
      if items != [] && items != ["..."] then [RuleComments(selector, items)] else []
    case OtherRule => []
  }

  /** `results` after the rules of `sheet`. */
  function CommentsReport(sheet: seq<Rule>): seq<CommentEntry> {
    if sheet == [] then []
    else CommentsReport(sheet[..|sheet| - 1]) + RuleEntry(sheet[|sheet| - 1])
  }

  lemma CommentsReportSnoc(sheet: seq<Rule>, i: nat)
    requires i < |sheet|
    ensures CommentsReport(sheet[..i + 1]) == CommentsReport(sheet[..i]) + RuleEntry(sheet[i])
  {
    assert sheet[..i + 1][..i] == sheet[..i];
  }

  /** The output line of an entry (the collapsing of white space is not
      modelled). */
  function EntryText(e: CommentEntry): string {
    match e
    case TopComment(text) => text
    case RuleComments(selector, items) => selector + " { " + "\n\t\t" + Join(items, "\n\t\t") + " }"
  }

  /** `_checkComments`: the loop over the rules, then the output loop. */
  method CheckComments(sheet: seq<Rule>) returns (out: seq<string>)
    ensures out == Map(CommentsReport(sheet), EntryText)
  {
    var results: seq<CommentEntry> := [];
    for i := 0 to |sheet|
      invariant results == CommentsReport(sheet[..i])
    {
      CommentsReportSnoc(sheet, i);
      match sheet[i] {
        case CommentRule(text) =>
          results := results + [TopComment(text)];
        case StyleRule(selector, cs) =>
          var items := ChildItems(cs);
          if items != [] && !(|items| == 1 && items[0] == "...") {
            results := results + [RuleComments(selector, items)];
          }
        case OtherRule =>
      }
    }
    assert sheet[..|sheet|] == sheet;
    out := [];
    for i := 0 to |results|
      invariant out == Map(results[..i], EntryText)
    {
      assert results[..i + 1] == results[..i] + [results[i]];
      MapAppend(results[..i], [results[i]], EntryText);
      out := out + [EntryText(results[i])];
    }
    assert results[..|results|] == results;
  }

  /** The items shown for the first `m` children stay in front when more
      children are handled. */
  lemma {:induction false} ItemsUpToPrefix(cs: seq<Child>, m: nat, n: nat)
    requires m <= n <= |cs|
    ensures ItemsUpTo(cs, m) <= ItemsUpTo(cs, n)
  {
    if m < n {
      ItemsUpToPrefix(cs, m, n - 1);
    }
  }

  /** Comments, required properties and properties next to a comment are
      shown with their text, and exactly those children are. */
  lemma KeptChild(cs: seq<Child>, j: nat)
    requires j < |cs|
    ensures PieceAt(cs, j).Keep? <==>
              cs[j].Comment? || Required(cs[j]) || CommentAt(cs, j - 1) || CommentAt(cs, j + 1)
    ensures PieceAt(cs, j).Keep? ==> PieceAt(cs, j).text in RuleItems(cs)
  {
    ItemsUpToPrefix(cs, j + 1, |cs|);
    var before, after := ItemsUpTo(cs, j), ItemsUpTo(cs, j + 1);
    assert after == before + Render(PieceAt(cs, j));
    if PieceAt(cs, j).Keep? {
      assert after[|before|] == PieceAt(cs, j).text;
      assert RuleItems(cs)[|before|] == after[|before|];
    }
  }

  /** A run of consecutive properties in a gap, starting right after a child
      that is not in one, adds exactly one `...`. */
  lemma {:induction false} GapRun(cs: seq<Child>, i: nat, k: nat)
    requires i < k <= |cs|
    requires forall j :: i <= j < k ==> Uncommented(cs, j)
    requires !Uncommented(cs, i - 1)
    ensures ItemsUpTo(cs, k) == ItemsUpTo(cs, i) + ["..."]
  {
    if k == i + 1 {
      assert Uncommented(cs, i);
      assert PieceAt(cs, i) == GapStart;
    } else {
      GapRun(cs, i, k - 1);
      assert Uncommented(cs, k - 2);
      assert PieceAt(cs, k - 1) == GapRest;
    }
  }

  /** A style rule with no comment and no required property shows a single
      `...`, so it is left out of the report. */
  lemma NoCommentRuleDropped(selector: string, cs: seq<Child>)
    requires cs != []
    requires forall j :: 0 <= j < |cs| ==> cs[j].Property? && !Required(cs[j])
    ensures RuleItems(cs) == ["..."]
    ensures RuleEntry(StyleRule(selector, cs)) == []
  {
    GapRun(cs, 0, |cs|);
  }

  /** A style rule holding a comment (other than a bare `...`) or a required
      property is always reported. */
  lemma CommentedRuleKept(selector: string, cs: seq<Child>, j: nat)
    requires j < |cs|
    requires (cs[j].Comment? && cs[j].text != "...") || Required(cs[j])
    ensures RuleEntry(StyleRule(selector, cs)) == [RuleComments(selector, RuleItems(cs))]
  {
    KeptChild(cs, j);
    var t := PieceAt(cs, j).text;
    if Required(cs[j]) {
      assert t[|t| - 1] == ';';
    }
    assert t != "...";
  }

  /** Every top-level comment is reported, in sheet order. */
  lemma {:induction false} TopCommentsKept(sheet: seq<Rule>)
    ensures Filter(CommentsReport(sheet), IsTopComment) == Map(Filter(sheet, IsCommentRule), TopCommentOf)
  {
    if sheet != [] {
      var n := |sheet| - 1;
      TopCommentsKept(sheet[..n]);
      FilterAppend(CommentsReport(sheet[..n]), RuleEntry(sheet[n]), IsTopComment);
      assert sheet == sheet[..n] + [sheet[n]];
      FilterAppend(sheet[..n], [sheet[n]], IsCommentRule);
      MapAppend(Filter(sheet[..n], IsCommentRule), Filter([sheet[n]], IsCommentRule), TopCommentOf);
    }
  }

  /** No reported style rule shows nothing or a lone `...`. */
  lemma {:induction false} ReportedRulesShowSomething(sheet: seq<Rule>, k: nat)
    requires k < |CommentsReport(sheet)|
    ensures var e := CommentsReport(sheet)[k];
      e.RuleComments? ==> e.items != [] && e.items != ["..."]
  {
    var n := |sheet| - 1;
    var front := CommentsReport(sheet[..n]);
    if k < |front| {
      ReportedRulesShowSomething(sheet[..n], k);
    }
  }
}
