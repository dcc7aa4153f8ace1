/** The per-file HTML convention checks (analyseHtml.py:204-410) and the way
    `_checkHtmlFiles` gates them on the base structure (analyseHtml.py:411-455).
    Each check is a specification function over the element tree and a method
    that follows the loop of the source. Results are kept structured: the text
    the source builds around them (prefixes, `'; '.join`, `str(tag)`) is not
    modelled. */
module HtmlChecks {
  import opened Common
  import opened Grouping
  import opened HtmlTree

  /** `tag.sourceline` */
  function Line(n: Node): nat {
    if n.Element? then n.sourceline else 0
  }

  /** The value of an attribute, "" when absent. */
  function AttrValue(n: Node, key: string): string {
    if n.Text? then "" else match GetAttr(n.attrs, key) case Some(v) => v case None => ""
  }

  // ---------------------------------------------------------------------------
  // `_checkBaseStructure` (analyseHtml.py:204-229)

  /** The findings of the base-structure check. `LangMissing` is the entry the
      source appends as the one-element list `['Lang missing']`. */
  datatype BaseIssue = MissingHtml | MissingHead | MissingBody | LangMissing | BadCharset(charset: string) | CharsetMissing

  predicate IsCharsetMeta(n: Node) {
    n.Element? && n.name == "meta" && HasAttr(n, "charset")
  }

  /** A `<meta charset>` whose value does not start with `utf-`, ignoring case. */
  predicate IsBadCharsetMeta(n: Node) {
    IsCharsetMeta(n) && !StartsWithIgnoreCase(AttrValue(n, "charset"), "utf-")
  }

  function CharsetIssue(n: Node): BaseIssue {
    BadCharset(AttrValue(n, "charset"))
  }

  predicate HasCharsetMeta(cs: seq<Node>) {
    exists i :: 0 <= i < |cs| && IsCharsetMeta(cs[i])
  }

  /** What the check reports about a document. */
  function BaseStructure(doc: Node): seq<BaseIssue> {
    match Find(doc, "html")
    case None => [MissingHtml]
    case Some(html) =>
      match Find(html, "head")
      case None => [MissingHead]
      case Some(head) =>
        if Find(html, "body").None? then [MissingBody]
        else (if HasAttr(html, "lang") then [] else [LangMissing])
             + Map(Filter(head.children, IsBadCharsetMeta), CharsetIssue)
             + (if HasCharsetMeta(head.children) then [] else [CharsetMissing])
  }

  /** Only the first missing one of html, head and body is reported, and then
      alone; otherwise the report is empty exactly when `html` has a `lang`, the
      head has a charset meta and every charset meta of the head names a UTF
      encoding. */
  lemma BaseStructureCases(doc: Node)
    ensures Find(doc, "html").None? ==> BaseStructure(doc) == [MissingHtml]
    ensures Find(doc, "html").Some? && Find(Find(doc, "html").value, "head").None?
            ==> BaseStructure(doc) == [MissingHead]
    ensures Find(doc, "html").Some? && Find(Find(doc, "html").value, "head").Some?
            && Find(Find(doc, "html").value, "body").None?
            ==> BaseStructure(doc) == [MissingBody]
    ensures BaseStructure(doc) == []
            <==> Find(doc, "html").Some?
                 && var html := Find(doc, "html").value;
                 && Find(html, "head").Some? && Find(html, "body").Some?
                 && HasAttr(html, "lang")
                 && var head := Find(html, "head").value;
                 && HasCharsetMeta(head.children)
                 && (forall i :: 0 <= i < |head.children| ==> !IsBadCharsetMeta(head.children[i]))
  {
    match Find(doc, "html")
    case None =>
    case Some(html) =>
      match Find(html, "head")
      case None =>
      case Some(head) =>
        var cs := head.children;
        forall i | 0 <= i < |cs| ensures IsBadCharsetMeta(cs[i]) ==> |Filter(cs, IsBadCharsetMeta)| > 0 {
          FilterMembership(cs, IsBadCharsetMeta, cs[i]);
        }
        if Filter(cs, IsBadCharsetMeta) != [] {
          FilterMembership(cs, IsBadCharsetMeta, Filter(cs, IsBadCharsetMeta)[0]);
        }
  }

  /** `_checkBaseStructure` */
  method CheckBaseStructure(doc: Node) returns (r: seq<BaseIssue>)
    ensures r == BaseStructure(doc)
  {
    var html := Find(doc, "html");
    if html.None? {
      return [MissingHtml];
    }
    var head := Find(html.value, "head");
    if head.None? {
      return [MissingHead];
    }
    if Find(html.value, "body").None? {
      return [MissingBody];
    }
    r := if HasAttr(html.value, "lang") then [] else [LangMissing];
    var issues, hasCharset := CheckCharsets(head.value.children);
    r := r + issues;
    if !hasCharset {
      r := r + [CharsetMissing];
    }
  }

  lemma CharsetStep(cs: seq<Node>, i: nat)
    requires i < |cs|
    ensures HasCharsetMeta(cs[..i + 1]) == (HasCharsetMeta(cs[..i]) || IsCharsetMeta(cs[i]))
    ensures Map(Filter(cs[..i + 1], IsBadCharsetMeta), CharsetIssue)
            == Map(Filter(cs[..i], IsBadCharsetMeta), CharsetIssue)
               + (if IsBadCharsetMeta(cs[i]) then [CharsetIssue(cs[i])] else [])
  {
    CharsetSeen(cs, i);
    var before := Filter(cs[..i], IsBadCharsetMeta);
    var step := if IsBadCharsetMeta(cs[i]) then [cs[i]] else [];
    FilterSnoc(cs, i, IsBadCharsetMeta);
    MapAppend(before, step, CharsetIssue);
  }

  lemma CharsetSeen(cs: seq<Node>, i: nat)
    requires i < |cs|
    ensures HasCharsetMeta(cs[..i + 1]) == (HasCharsetMeta(cs[..i]) || IsCharsetMeta(cs[i]))
  {
    assert forall j :: 0 <= j < i ==> cs[..i + 1][j] == cs[..i][j];
    assert cs[..i + 1][i] == cs[i];
  }

  /** The loop over the children of `head` in `_checkBaseStructure`. */
  method CheckCharsets(cs: seq<Node>) returns (issues: seq<BaseIssue>, hasCharset: bool)
    ensures issues == Map(Filter(cs, IsBadCharsetMeta), CharsetIssue)
    ensures hasCharset == HasCharsetMeta(cs)
  {
    issues, hasCharset := [], false;
    for i := 0 to |cs|
      invariant hasCharset == HasCharsetMeta(cs[..i])
      invariant issues == Map(Filter(cs[..i], IsBadCharsetMeta), CharsetIssue)
    {
      var tag := cs[i];
      CharsetStep(cs, i);
      if tag.Element? && tag.name == "meta" && HasAttr(tag, "charset") {
        hasCharset := true;
        var charset := AttrValue(tag, "charset");
        if !StartsWithIgnoreCase(charset, "utf-") {
          issues := issues + [BadCharset(charset)];
        }
      }
    }
    assert cs[..|cs|] == cs;
  }

  // ---------------------------------------------------------------------------
  // `_checkCodeOutsideBody` (analyseHtml.py:230-237)

  predicate IsOutsideBody(n: Node) {
    n.Element? && n.name != "head" && n.name != "body"
  }

  /** The element children of `html` other than head and body; nothing without
      an `html` element. */
  function CodeOutsideBody(doc: Node): (r: seq<Node>)
    ensures Find(doc, "html").None? ==> r == []
    ensures Find(doc, "html").Some? ==>
              forall n :: n in r <==> n in Find(doc, "html").value.children && IsOutsideBody(n)
  {
    match Find(doc, "html")
    case None => []
    case Some(html) =>
      var r := Filter(html.children, IsOutsideBody);
      forall n ensures n in r <==> n in html.children && IsOutsideBody(n) {
        FilterMembership(html.children, IsOutsideBody, n);
      }
      r
  }

  method CheckCodeOutsideBody(doc: Node) returns (r: seq<Node>)
    ensures r == CodeOutsideBody(doc)
  {
    var html := Find(doc, "html");
    r := [];
    if html.Some? {
      var cs := html.value.children;
      for i := 0 to |cs|
        invariant r == Filter(cs[..i], IsOutsideBody)
      {
        FilterSnoc(cs, i, IsOutsideBody);
        if cs[i].Element? && !(cs[i].name in ["head", "body"]) {
          r := r + [cs[i]];
        }
      }
      assert cs[..|cs|] == cs;
    }
  }

  // ---------------------------------------------------------------------------
  // Source lines grouped by tag name (analyseHtml.py:258-318)

  /** One output line: a tag name and the source lines of its elements. */
  datatype TagLines = TagLines(name: string, lines: seq<nat>)

  /** `results[tag.name].append(str(tag.sourceline))` over `tags`, then one
      line per name in order of first appearance. */
  function GroupedLines(tags: seq<Node>): seq<TagLines> {
    LinesOf(tags, FirstSeen(Map(tags, TagName)))
  }

  /** One line per key, listing the source lines of the elements with that name. */
  function LinesOf(tags: seq<Node>, keys: seq<string>): (r: seq<TagLines>)
    ensures |r| == |keys|
    ensures forall i :: 0 <= i < |keys| ==> r[i] == TagLines(keys[i], Map(Select(tags, TagName, keys[i]), Line))
  {
    if keys == [] then [] else LinesOf(tags, keys[..|keys| - 1]) + [TagLines(keys[|keys| - 1], Map(Select(tags, TagName, keys[|keys| - 1]), Line))]
  }

  method GroupSourcelines(tags: seq<Node>) returns (r: seq<TagLines>)
    ensures r == GroupedLines(tags)
  {
    var keys, groups := GroupBy(tags, TagName);
    r := [];
    for i := 0 to |keys|
      invariant r == LinesOf(tags, keys[..i])
    {
      var k := keys[i];
      assert k in groups;
      LinesOfSnoc(tags, keys, i);
      r := r + [TagLines(k, Map(groups[k], Line))];
    }
    assert keys[..|keys|] == keys;
  }

  lemma LinesOfSnoc(tags: seq<Node>, keys: seq<string>, i: nat)
    requires i < |keys|
    ensures LinesOf(tags, keys[..i + 1]) == LinesOf(tags, keys[..i]) + [TagLines(keys[i], Map(Select(tags, TagName, keys[i]), Line))]
  {
    assert keys[..i + 1][..i] == keys[..i];
  }

  function LineCount(r: seq<TagLines>): nat {
    if r == [] then 0 else LineCount(r[..|r| - 1]) + |r[|r| - 1].lines|
  }

  lemma {:induction false} LineCountMatches(tags: seq<Node>, keys: seq<string>, r: seq<TagLines>)
    requires |r| == |keys|
    requires forall i :: 0 <= i < |keys| ==> r[i].lines == Map(Select(tags, TagName, keys[i]), Line)
    ensures LineCount(r) == SumSizes(keys, tags, TagName)
  {
    if r != [] {
      var n := |r| - 1;
      LineCountMatches(tags, keys[..n], r[..n]);
    }
  }

  /** Every element is listed once: the names are distinct, each is the name of
      some element, each line lists the source lines of exactly the elements
      with that name in document order, and the lines add up to the number of
      elements. */
  lemma GroupedLinesComplete(tags: seq<Node>)
    ensures var r := GroupedLines(tags);
      && (forall i, j :: 0 <= i < j < |r| ==> r[i].name != r[j].name)
      && (forall i :: 0 <= i < |r| ==> r[i].name in Map(tags, TagName)
                                       && r[i].lines == Map(Select(tags, TagName, r[i].name), Line))
      && (forall t :: t in tags ==> exists i :: 0 <= i < |r| && r[i].name == TagName(t))
      && LineCount(r) == |tags|
  {
    var keys := FirstSeen(Map(tags, TagName));
    var r := GroupedLines(tags);
    LineCountMatches(tags, keys, r);
    GroupSizesSum(tags, TagName);
    GroupedLinesNames(tags);
  }

  lemma GroupedLinesNames(tags: seq<Node>)
    ensures var r := GroupedLines(tags);
      && (forall i, j :: 0 <= i < j < |r| ==> r[i].name != r[j].name)
      && (forall i :: 0 <= i < |r| ==> r[i].name in Map(tags, TagName))
      && (forall t :: t in tags ==> exists i :: 0 <= i < |r| && r[i].name == TagName(t))
  {
    var keys := FirstSeen(Map(tags, TagName));
    var r := GroupedLines(tags);
    assert forall i :: 0 <= i < |r| ==> r[i].name == keys[i];
    forall i | 0 <= i < |r| ensures r[i].name in Map(tags, TagName) {
      FirstSeenMembership(Map(tags, TagName), keys[i]);
    }
    forall t | t in tags ensures exists i :: 0 <= i < |r| && r[i].name == TagName(t) {
      var j :| 0 <= j < |tags| && tags[j] == t;
      assert Map(tags, TagName)[j] == TagName(t);
      FirstSeenMembership(Map(tags, TagName), TagName(t));
      var i :| 0 <= i < |keys| && keys[i] == TagName(t);
      assert r[i].name == keys[i];
    }
  }

  /** When all elements share one name, the result is that name with all their
      lines (nothing for no elements). */
  lemma GroupedLinesOneName(tags: seq<Node>, name: string)
    requires forall i :: 0 <= i < |tags| ==> TagName(tags[i]) == name
    ensures GroupedLines(tags) == if tags == [] then [] else [TagLines(name, Map(tags, Line))]
  {
    if tags != [] {
      KeysOneName(tags, name);

    }
  }

  // ---------------------------------------------------------------------------
  // `_checkMain` (analyseHtml.py:258-273)

  datatype MainReport = MissingMain | MultipleMain(groups: seq<TagLines>) | SingleMain

  function MainCheck(doc: Node): MainReport {
    var tags := FindAll(doc, ["main"]);
    if tags == [] then MissingMain
    else if |tags| > 1 then MultipleMain(GroupedLines(tags))
    else SingleMain
  }

  method CheckMain(doc: Node) returns (r: MainReport)
    ensures r == MainCheck(doc)
  {
    var tags := FindAll(doc, ["main"]);
    if tags == [] {
      r := MissingMain;
    } else if |tags| > 1 {
      var groups := GroupSourcelines(tags);
      r := MultipleMain(groups);
    } else {
      r := SingleMain;
    }
  }

  /** Missing when there is no main element, a single line listing every main
      element's source line when there are several, and nothing otherwise. */
  lemma MainCheckCases(doc: Node)
    ensures MainCheck(doc) == MissingMain <==> forall e :: e in Descendants(doc) ==> e.name != "main"
    ensures MainCheck(doc).MultipleMain? ==>
              MainCheck(doc).groups == [TagLines("main", Map(FindAll(doc, ["main"]), Line))]
    ensures MainCheck(doc) == SingleMain <==> |FindAll(doc, ["main"])| == 1
  {
    var tags := FindAll(doc, ["main"]);
    forall i | 0 <= i < |tags| ensures TagName(tags[i]) == "main" {
      assert tags[i] in tags;
    }
    GroupedLinesOneName(tags, "main");
    if tags != [] {
      assert tags[0] in tags;
    }
  }

  // ---------------------------------------------------------------------------
  // `_checkNestedArticles`, `_checkForbiddenTags`, `_checkSemiForbiddenTags`
  // (analyseHtml.py:274-318)

  const SemiForbiddenTags := ["div", "span", "br"]
  const ForbiddenTags := ["b", "i", "u", "hr"]

  function NestedArticles(doc: Node): seq<TagLines> {
    GroupedLines(SelectDescendant(doc, "article", "article"))
  }

  method CheckNestedArticles(doc: Node) returns (r: seq<TagLines>)
    ensures r == NestedArticles(doc)
  {
    var tags := SelectDescendant(doc, "article", "article");
    r := GroupSourcelines(tags);
  }

  /** The nested-articles result is one line holding the source lines of the
      article elements that have an article ancestor, or nothing. */
  lemma NestedArticlesLines(doc: Node)
    ensures var tags := SelectDescendant(doc, "article", "article");
            NestedArticles(doc) == if tags == [] then [] else [TagLines("article", Map(tags, Line))]
  {
    var tags := SelectDescendant(doc, "article", "article");
    forall i | 0 <= i < |tags| ensures TagName(tags[i]) == "article" {
      assert tags[i] in tags;
    }
    GroupedLinesOneName(tags, "article");
  }

  function ForbiddenTagLines(doc: Node, names: seq<string>): seq<TagLines> {
    GroupedLines(FindAll(doc, names))
  }

  /** `_checkForbiddenTags` with `ForbiddenTags`, `_checkSemiForbiddenTags` with
      `SemiForbiddenTags`. */
  method CheckForbiddenTags(doc: Node, names: seq<string>) returns (r: seq<TagLines>)
    ensures r == ForbiddenTagLines(doc, names)
  {
    var tags := FindAll(doc, names);
    r := GroupSourcelines(tags);
  }

  /** Only the listed names are reported, and every element with one of those
      names is. */
  lemma ForbiddenTagsReported(doc: Node, names: seq<string>)
    ensures var r := ForbiddenTagLines(doc, names);
      && (forall i :: 0 <= i < |r| ==> r[i].name in names)
      && (forall e :: e in Descendants(doc) && e.name in names ==>
            exists i :: 0 <= i < |r| && r[i].name == e.name && e.sourceline in r[i].lines)
  {
    var tags := FindAll(doc, names);
    ReportedNames(tags, names);
    forall e | e in Descendants(doc) && e.name in names
      ensures exists i :: 0 <= i < |GroupedLines(tags)| && GroupedLines(tags)[i].name == e.name
                          && e.sourceline in GroupedLines(tags)[i].lines
    {
      assert e in tags;
      ReportedLine(tags, e);
    }
  }

  lemma ReportedNames(tags: seq<Node>, names: seq<string>)
    requires forall t :: t in tags ==> TagName(t) in names
    ensures forall i :: 0 <= i < |GroupedLines(tags)| ==> GroupedLines(tags)[i].name in names
  {
    var r := GroupedLines(tags);
    GroupedLinesNames(tags);
    forall i | 0 <= i < |r| ensures r[i].name in names {
      var j :| 0 <= j < |tags| && Map(tags, TagName)[j] == r[i].name;
      assert tags[j] in tags;
    }
  }

  lemma ReportedLine(tags: seq<Node>, e: Node)
    requires e in tags
    ensures exists i :: 0 <= i < |GroupedLines(tags)| && GroupedLines(tags)[i].name == TagName(e)
                        && Line(e) in GroupedLines(tags)[i].lines
  {
    var r := GroupedLines(tags);
    GroupedLinesNames(tags);
    var i :| 0 <= i < |r| && r[i].name == TagName(e);
    LineSelected(tags, e);
  }

  lemma LineSelected(tags: seq<Node>, e: Node)
    requires e in tags
    ensures Line(e) in Map(Select(tags, TagName, TagName(e)), Line)
  {
    var sel := Select(tags, TagName, TagName(e));
    SelectMembership(tags, TagName, TagName(e), e);
    var k :| 0 <= k < |sel| && sel[k] == e;
    assert Map(sel, Line)[k] == Line(e);
  }

  // ---------------------------------------------------------------------------
  // `_checkImageScaling` (analyseHtml.py:333-350)

  predicate HasWidth(n: Node) {
    HasAttr(n, "width")
  }

  predicate HasHeight(n: Node) {
    HasAttr(n, "height")
  }

  /** `find_all('img', width=True)` */
  function ImagesWithWidth(doc: Node): seq<Node> {
    Filter(FindAll(doc, ["img"]), HasWidth)
  }

  /** `find_all('img', height=True)` */
  function ImagesWithHeight(doc: Node): seq<Node> {
    Filter(FindAll(doc, ["img"]), HasHeight)
  }

  /** The distinct source lines of `tags` per name, names and lines in order of
      first appearance. */
  function DistinctLines(tags: seq<Node>): seq<TagLines> {
    DistinctLinesOf(tags, FirstSeen(Map(tags, TagName)))
  }

  function DistinctLinesOf(tags: seq<Node>, keys: seq<string>): (r: seq<TagLines>)
    ensures |r| == |keys|
    ensures forall i :: 0 <= i < |keys| ==> r[i] == TagLines(keys[i], Entry(tags, TagName, Line, keys[i]))
  {
    if keys == [] then [] else DistinctLinesOf(tags, keys[..|keys| - 1]) + [TagLines(keys[|keys| - 1], Entry(tags, TagName, Line, keys[|keys| - 1]))]
  }

  function ImageScaling(doc: Node): seq<TagLines> {
    DistinctLines(ImagesWithWidth(doc) + ImagesWithHeight(doc))
  }

  /** `loopTags`: each element's source line under its name, unless it is
      already listed there. */
  method LoopTags(tags: seq<Node>, ghost done: seq<Node>, keys0: seq<string>, groups0: map<string, seq<nat>>)
    returns (keys: seq<string>, groups: map<string, seq<nat>>)
    requires EntryState(done, TagName, Line, keys0, groups0)
    ensures EntryState(done + tags, TagName, Line, keys, groups)
  {
    keys, groups := keys0, groups0;
    assert done + tags[..0] == done;
    for i := 0 to |tags|
      invariant EntryState(done + tags[..i], TagName, Line, keys, groups)
    {
      keys, groups := AddDistinct(tags[i], TagName, Line, done + tags[..i], keys, groups);
      assert done + tags[..i + 1] == (done + tags[..i]) + [tags[i]];
    }
    assert tags[..|tags|] == tags;
  }

  method CheckImageScaling(doc: Node) returns (r: seq<TagLines>)
    ensures r == ImageScaling(doc)
  {
    var widths, heights := ImagesWithWidth(doc), ImagesWithHeight(doc);
    var keys, groups := LoopTags(widths, [], [], map[]);
    assert [] + widths == widths;
    keys, groups := LoopTags(heights, widths, keys, groups);
    r := EntryLines(widths + heights, keys, groups);
  }

  /** The output lines of the dictionary built by `loopTags`. */
  method EntryLines(ghost all: seq<Node>, keys: seq<string>, groups: map<string, seq<nat>>) returns (r: seq<TagLines>)
    requires keys == FirstSeen(Map(all, TagName))
    requires forall k :: k in keys ==> k in groups && groups[k] == Entry(all, TagName, Line, k)
    ensures r == DistinctLines(all)
  {
    r := [];
    for i := 0 to |keys|
      invariant r == DistinctLinesOf(all, keys[..i])
    {
      var k := keys[i];
      DistinctLinesOfSnoc(all, keys, i);
      r := r + [TagLines(k, groups[k])];
    }
    assert keys[..|keys|] == keys;
  }

  lemma DistinctLinesOfSnoc(tags: seq<Node>, keys: seq<string>, i: nat)
    requires i < |keys|
    ensures DistinctLinesOf(tags, keys[..i + 1]) == DistinctLinesOf(tags, keys[..i]) + [TagLines(keys[i], Entry(tags, TagName, Line, keys[i]))]
  {
    assert keys[..i + 1][..i] == keys[..i];
  }

  /** When all elements share one name, that name is the only key. */
  lemma KeysOneName(tags: seq<Node>, name: string)
    requires tags != []
    requires forall i :: 0 <= i < |tags| ==> TagName(tags[i]) == name
    ensures FirstSeen(Map(tags, TagName)) == [name]
    ensures Select(tags, TagName, name) == tags
  {
    FirstSeenConst(Map(tags, TagName), name);
    SelectAll(tags, TagName, name);
  }

  lemma ImagesAreImg(doc: Node)
    ensures forall i :: 0 <= i < |ImagesWithWidth(doc) + ImagesWithHeight(doc)| ==>
              TagName((ImagesWithWidth(doc) + ImagesWithHeight(doc))[i]) == "img"
  {
    var widths, heights := ImagesWithWidth(doc), ImagesWithHeight(doc);
    var all := widths + heights;
    var imgs := FindAll(doc, ["img"]);
    forall i | 0 <= i < |all| ensures TagName(all[i]) == "img" {
      if i < |widths| {
        assert all[i] in widths;
        FilterMembership(imgs, HasWidth, all[i]);
      } else {
        assert all[i] in heights;
        FilterMembership(imgs, HasHeight, all[i]);
      }
    }
  }

  /** Each source line is listed at most once, every width or height image's
      line is listed, and the lines of images with a width come first. */
  lemma ImageScalingLines(doc: Node)
    ensures var widths, heights := ImagesWithWidth(doc), ImagesWithHeight(doc);
            var r := ImageScaling(doc);
      && (forall i :: 0 <= i < |r| ==> r[i].name == "img" && Distinct(r[i].lines))
      && (widths + heights == [] <==> r == [])
      && (widths + heights != [] ==>
            |r| == 1 && FirstSeen(Map(widths, Line)) <= r[0].lines
            && forall t :: t in widths + heights ==> Line(t) in r[0].lines)
      && (forall i, l :: 0 <= i < |r| && l in r[i].lines ==>
            exists t :: t in widths + heights && Line(t) == l && TagName(t) == "img" && (HasWidth(t) || HasHeight(t)))
  {
    ImagesAreImg(doc);
    ImageLines(ImagesWithWidth(doc), ImagesWithHeight(doc));
    ImageLinesSound(doc);
  }

  /** Every listed line is the line of an `img` with a width or a height. */
  lemma ImageLinesSound(doc: Node)
    ensures var widths, heights := ImagesWithWidth(doc), ImagesWithHeight(doc);
            var r := ImageScaling(doc);
            forall i, l :: 0 <= i < |r| && l in r[i].lines ==>
              exists t :: t in widths + heights && Line(t) == l && TagName(t) == "img" && (HasWidth(t) || HasHeight(t))
  {
    var all := ImagesWithWidth(doc) + ImagesWithHeight(doc);
    ImagesAreImg(doc);
    ImagesHaveSize(doc);
    forall i | 0 <= i < |all|
      ensures HasWidth(all[i]) || HasHeight(all[i])
    {
      assert all[i] in ImagesWithWidth(doc) || all[i] in ImagesWithHeight(doc);
    }
    LinesOfImages(all);
  }

  lemma ImagesHaveSize(doc: Node)
    ensures forall t :: t in ImagesWithWidth(doc) ==> HasWidth(t)
    ensures forall t :: t in ImagesWithHeight(doc) ==> HasHeight(t)
  {
    forall t | t in ImagesWithWidth(doc) ensures HasWidth(t) {
      FilterMembership(FindAll(doc, ["img"]), HasWidth, t);
    }
    forall t | t in ImagesWithHeight(doc) ensures HasHeight(t) {
      FilterMembership(FindAll(doc, ["img"]), HasHeight, t);
    }
  }

  lemma LinesOfImages(all: seq<Node>)
    requires forall i :: 0 <= i < |all| ==> TagName(all[i]) == "img" && (HasWidth(all[i]) || HasHeight(all[i]))
    ensures var r := DistinctLines(all);
            forall i, l :: 0 <= i < |r| && l in r[i].lines ==>
              exists t :: t in all && Line(t) == l && TagName(t) == "img" && (HasWidth(t) || HasHeight(t))
  {
    var r := DistinctLines(all);
    DistinctLinesOneName(all, "img");
    forall i, l | 0 <= i < |r| && l in r[i].lines
      ensures exists t :: t in all && Line(t) == l && TagName(t) == "img" && (HasWidth(t) || HasHeight(t))
    {
      assert i == 0 && r[i].lines == FirstSeen(Map(all, Line));
      var j := LineSource(all, l);
      assert all[j] in all;
    }
  }

  /** An index of `tags` whose line is `l`, for a listed line `l`. */
  lemma LineSource(tags: seq<Node>, l: nat) returns (j: nat)
    requires l in FirstSeen(Map(tags, Line))
    ensures j < |tags| && Line(tags[j]) == l
  {
    var lines := Map(tags, Line);
    FirstSeenMembership(lines, l);
    j :| 0 <= j < |lines| && lines[j] == l;
  }

  /** The report for `img` elements listed with the ones that have a width first. */
  lemma ImageLines(widths: seq<Node>, heights: seq<Node>)
    requires forall i :: 0 <= i < |widths + heights| ==> TagName((widths + heights)[i]) == "img"
    ensures var r := DistinctLines(widths + heights);
      && (forall i :: 0 <= i < |r| ==> r[i].name == "img" && Distinct(r[i].lines))
      && (widths + heights == [] <==> r == [])
      && (widths + heights != [] ==>
            |r| == 1 && FirstSeen(Map(widths, Line)) <= r[0].lines
            && forall t :: t in widths + heights ==> Line(t) in r[0].lines)
  {
    var all := widths + heights;
    DistinctLinesOneName(all, "img");
    if all != [] {
      MapAppend(widths, heights, Line);
      FirstSeenPrefix(Map(widths, Line), Map(heights, Line));
      LinesListed(all);
    }
  }

  lemma DistinctLinesOneName(tags: seq<Node>, name: string)
    requires forall i :: 0 <= i < |tags| ==> TagName(tags[i]) == name
    ensures DistinctLines(tags) == if tags == [] then [] else [TagLines(name, FirstSeen(Map(tags, Line)))]
  {
    if tags != [] {
      KeysOneName(tags, name);
    }
  }

  lemma LinesListed(all: seq<Node>)
    ensures forall t :: t in all ==> Line(t) in FirstSeen(Map(all, Line))
  {
    forall t | t in all ensures Line(t) in FirstSeen(Map(all, Line)) {
      var j :| 0 <= j < |all| && all[j] == t;
      assert Map(all, Line)[j] == Line(t);
      FirstSeenMembership(Map(all, Line), Line(t));
    }
  }

  /** The first-seen keys of a prefix are a prefix of the first-seen keys. */
  lemma {:induction false} FirstSeenPrefix<K>(xs: seq<K>, ys: seq<K>)
    ensures FirstSeen(xs) <= FirstSeen(xs + ys)
    decreases |ys|
  {
    if ys == [] {
      assert xs + ys == xs;
    } else {
      var init := ys[..|ys| - 1];
      var last := ys[|ys| - 1];
      FirstSeenPrefix(xs, init);
      assert xs + ys == (xs + init) + [last];
      FirstSeenSnoc(xs + init, last);
    }
  }

  // ---------------------------------------------------------------------------
  // Form controls (analyseHtml.py:359-410)

  const FormInputTags := ["input", "select", "textarea"]
  const ValAttributes := ["required", "minlength", "maxlength", "min", "max", "step", "pattern"]

  /** The key an element is counted under by `_checkFormInputTypes`. */
  function InputTypeKey(tag: Node): (k: string)
    ensures TagName(tag) == "input" && !HasAttr(tag, "type") ==> k == "input_text"
    ensures TagName(tag) == "input" && HasAttr(tag, "type") ==> k == "input_" + AttrValue(tag, "type")
    ensures TagName(tag) != "input" ==> k == TagName(tag)
  {
    if TagName(tag) == "input" then
      if !HasAttr(tag, "type") then "input_text" else "input_" + AttrValue(tag, "type")
    else TagName(tag)
  }

  /** One `count\tkey` output line. */
  datatype CountLine = CountLine(count: nat, key: string)

  function CountLines<T(==)>(xs: seq<T>, key: T -> string): seq<CountLine> {
    CountLinesOf(xs, key, FirstSeen(Map(xs, key)))
  }

  function CountLinesOf<T(==)>(xs: seq<T>, key: T -> string, keys: seq<string>): (r: seq<CountLine>)
    ensures |r| == |keys|
    ensures forall i :: 0 <= i < |keys| ==> r[i] == CountLine(|Select(xs, key, keys[i])|, keys[i])
  {
    if keys == [] then [] else CountLinesOf(xs, key, keys[..|keys| - 1]) + [CountLine(|Select(xs, key, keys[|keys| - 1])|, keys[|keys| - 1])]
  }

  function CountSum(r: seq<CountLine>): nat {
    if r == [] then 0 else CountSum(r[..|r| - 1]) + r[|r| - 1].count
  }

  lemma {:induction false} CountSumMatches<T>(xs: seq<T>, key: T -> string, keys: seq<string>, r: seq<CountLine>)
    requires |r| == |keys|
    requires forall i :: 0 <= i < |keys| ==> r[i].count == |Select(xs, key, keys[i])|
    ensures CountSum(r) == SumSizes(keys, xs, key)
  {
    if r != [] {
      var n := |r| - 1;
      CountSumMatches(xs, key, keys[..n], r[..n]);
    }
  }

  /** The counts are for distinct keys and add up to the number of items. */
  lemma CountLinesSum<T>(xs: seq<T>, key: T -> string)
    ensures var r := CountLines(xs, key);
      && (forall i, j :: 0 <= i < j < |r| ==> r[i].key != r[j].key)
      && CountSum(r) == |xs|
  {
    var keys := FirstSeen(Map(xs, key));
    CountSumMatches(xs, key, keys, CountLines(xs, key));
    GroupSizesSum(xs, key);
    var r := CountLines(xs, key);
    forall i, j | 0 <= i < j < |r| ensures r[i].key != r[j].key {
      assert keys[i] != keys[j];
    }
  }

  /** Turns the counting dictionary into its output lines. */
  method CountOutput<T(==)>(xs: seq<T>, key: T -> string, keys: seq<string>, counts: map<string, nat>)
    returns (r: seq<CountLine>)
    requires keys == FirstSeen(Map(xs, key))
    requires forall k :: k in counts <==> k in keys
    requires forall k :: k in counts ==> counts[k] == |Select(xs, key, k)|
    ensures r == CountLines(xs, key)
  {
    r := [];
    for i := 0 to |keys|
      invariant r == CountLinesOf(xs, key, keys[..i])
    {
      var k := keys[i];
      assert k in counts;
      CountLinesOfSnoc(xs, key, keys, i);
      r := r + [CountLine(counts[k], k)];
    }
    assert keys[..|keys|] == keys;
  }

  lemma CountLinesOfSnoc<T>(xs: seq<T>, key: T -> string, keys: seq<string>, i: nat)
    requires i < |keys|
    ensures CountLinesOf(xs, key, keys[..i + 1]) == CountLinesOf(xs, key, keys[..i]) + [CountLine(|Select(xs, key, keys[i])|, keys[i])]
  {
    assert keys[..i + 1][..i] == keys[..i];
  }

  function FormInputTypes(doc: Node): seq<CountLine> {
    CountLines(FindAll(doc, FormInputTags), InputTypeKey)
  }

  /** `_checkFormInputTypes`. The source's test `inputType and inputType in
      results` is the plain membership test, as the key is never empty. */
  method CheckFormInputTypes(doc: Node) returns (r: seq<CountLine>)
    ensures r == FormInputTypes(doc)
  {
    var tags := FindAll(doc, FormInputTags);
    var keys, counts := Tally(tags, InputTypeKey);
    r := CountOutput(tags, InputTypeKey, keys, counts);
  }

  /** The attribute names of `tag` among `ValAttributes`, in that order. */
  function ValidationsOf(tag: Node): seq<string> {
    Filter(ValAttributes, AttrTest(tag))
  }

  /** Whether `tag` has a given attribute. */
  function AttrTest(tag: Node): string -> bool {
    (a: string) => HasAttr(tag, a)
  }

  /** Every (element, attribute) hit of the nested loop, in loop order. */
  function Hits(tags: seq<Node>): seq<string> {
    if tags == [] then [] else Hits(tags[..|tags| - 1]) + ValidationsOf(tags[|tags| - 1])
  }

  function AttrKey(a: string): string {
    a
  }

  function FormInputValidations(doc: Node): seq<CountLine> {
    CountLines(Hits(FindAll(doc, FormInputTags)), AttrKey)
  }

  lemma HitsSnoc(tags: seq<Node>, i: nat)
    requires i < |tags|
    ensures Hits(tags[..i + 1]) == Hits(tags[..i]) + ValidationsOf(tags[i])
  {
    assert tags[..i + 1][..i] == tags[..i];
  }

  /** The counting dictionary after the attribute hits `done`. */
  ghost predicate CountState(done: seq<string>, keys: seq<string>, counts: map<string, nat>) {
    && keys == FirstSeen(Map(done, AttrKey))
    && (forall x :: x in counts <==> x in keys)
    && (forall x :: x in counts ==> counts[x] == |Select(done, AttrKey, x)|)
  }

  /** `_checkFormInputValidations`: for each element, for each validation
      attribute it has, count one under that attribute. */
  method CheckFormInputValidations(doc: Node) returns (r: seq<CountLine>)
    ensures r == FormInputValidations(doc)
  {
    var tags := FindAll(doc, FormInputTags);
    var keys, counts := CountAllValidations(tags);
    r := CountOutput(Hits(tags), AttrKey, keys, counts);
  }

  /** The outer loop of `_checkFormInputValidations`, over the form controls. */
  method CountAllValidations(tags: seq<Node>) returns (keys: seq<string>, counts: map<string, nat>)
    ensures CountState(Hits(tags), keys, counts)
  {
    keys, counts := [], map[];
    for i := 0 to |tags|
      invariant CountState(Hits(tags[..i]), keys, counts)
    {
      keys, counts := CountValidations(tags[i], ValAttributes, Hits(tags[..i]), keys, counts);
      HitsSnoc(tags, i);
    }
    assert tags[..|tags|] == tags;
  }

  /** The inner loop of `_checkFormInputValidations`, over the validation
      attributes `names` (called with `ValAttributes`). */
  method CountValidations(tag: Node, names: seq<string>, ghost before: seq<string>, keys0: seq<string>, counts0: map<string, nat>)
    returns (keys: seq<string>, counts: map<string, nat>)
    requires CountState(before, keys0, counts0)
    ensures CountState(before + Filter(names, AttrTest(tag)), keys, counts)
  {
    keys, counts := keys0, counts0;
    assert before + Filter(names[..0], AttrTest(tag)) == before;
    for j := 0 to |names|
      invariant CountState(before + Filter(names[..j], AttrTest(tag)), keys, counts)
    {
      ghost var seen := before + Filter(names[..j], AttrTest(tag));
      SeenSnoc(tag, names, j, before);
      if HasAttr(tag, names[j]) {
        keys, counts := Count(seen, names[j], keys, counts);
      }
    }
    assert names[..|names|] == names;
  }

  lemma SeenSnoc(tag: Node, names: seq<string>, j: nat, before: seq<string>)
    requires j < |names|
    ensures HasAttr(tag, names[j]) ==>
      before + Filter(names[..j + 1], AttrTest(tag)) == (before + Filter(names[..j], AttrTest(tag))) + [names[j]]
    ensures !HasAttr(tag, names[j]) ==>
      before + Filter(names[..j + 1], AttrTest(tag)) == before + Filter(names[..j], AttrTest(tag))
  {
    FilterSnoc(names, j, AttrTest(tag));
  }

  /** `results[k] += 1` or `results[k] = 1` for one more key `k`. */
  method Count(ghost done: seq<string>, k: string, keys0: seq<string>, counts0: map<string, nat>)
    returns (keys: seq<string>, counts: map<string, nat>)
    requires CountState(done, keys0, counts0)
    ensures CountState(done + [k], keys, counts)
  {
    assert Map(done + [k], AttrKey) == Map(done, AttrKey) + [k];
    FirstSeenSnoc(Map(done, AttrKey), k);
    if k in counts0 {
      keys, counts := keys0, counts0[k := counts0[k] + 1];
    } else {
      FirstSeenMembership(Map(done, AttrKey), k);
      SelectNone(done, AttrKey, k);
      keys, counts := keys0 + [k], counts0[k := 1];
    }
    forall x | x in counts ensures counts[x] == |Select(done + [k], AttrKey, x)| {
      SelectAppend(done, [k], AttrKey, x);
      if x != k {
        assert x in counts0;
      }
    }
  }

  /** A validation attribute is counted once for every form control that has it. */
  lemma {:induction false} ValidationCount(tags: seq<Node>, a: string)
    requires a in ValAttributes
    ensures |Select(Hits(tags), AttrKey, a)| == |Filter(tags, WithAttr(a))|
  {
    if tags != [] {
      var n := |tags| - 1;
      assert tags[..n + 1] == tags;
      FilterSnoc(tags, n, WithAttr(a));
      ValidationCount(tags[..n], a);
      SelectAppend(Hits(tags[..n]), ValidationsOf(tags[n]), AttrKey, a);
      ValidationsOfSelect(tags[n], a);
    }
  }

  /** Whether an element has attribute `a`. */
  function WithAttr(a: string): Node -> bool {
    (t: Node) => HasAttr(t, a)
  }

  lemma ValidationsOfSelect(tag: Node, a: string)
    requires a in ValAttributes
    ensures Select(ValidationsOf(tag), AttrKey, a) == if HasAttr(tag, a) then [a] else []
  {
    assert Distinct(ValAttributes);
    SelectFilterDistinct(ValAttributes, AttrTest(tag), a);
  }

  /** Among distinct names, selecting one of them after filtering leaves it
      alone or nothing. */
  lemma {:induction false} SelectFilterDistinct(xs: seq<string>, p: string -> bool, a: string)
    requires Distinct(xs) && a in xs
    ensures Select(Filter(xs, p), AttrKey, a) == if p(a) then [a] else []
  {
    var h := if p(xs[0]) then [xs[0]] else [];
    var rest := Filter(xs[1..], p);
    assert Filter(xs, p) == h + rest;
    SelectAppend(h, rest, AttrKey, a);
    SelectHead(h, xs[0], p, a);
    if xs[0] == a {
      assert a !in xs[1..];
      forall j | 0 <= j < |rest| ensures Map(rest, AttrKey)[j] != a {
        assert rest[j] in rest;
        FilterMembership(xs[1..], p, rest[j]);
      }
      SelectNone(rest, AttrKey, a);
    } else {
      assert a in xs[1..];
      SelectFilterDistinct(xs[1..], p, a);
    }
  }

  lemma SelectHead(h: seq<string>, x: string, p: string -> bool, a: string)
    requires h == if p(x) then [x] else []
    ensures Select(h, AttrKey, a) == if p(x) && x == a then [x] else []
  {
    if p(x) {
      SelectSnocOne([], x, AttrKey, a);
      assert [] + [x] == [x];
    }
  }

  /** An element `_checkFormInputNameAttr` reports: no or an empty `name`,
      unless it is a submit or reset input. */
  predicate LacksName(tag: Node) {
    && !(TagName(tag) == "input" && HasAttr(tag, "type")
         && (AttrValue(tag, "type") == "submit" || AttrValue(tag, "type") == "reset"))
    && (!HasAttr(tag, "name") || AttrValue(tag, "name") == "")
  }

  function FormInputNameAttr(doc: Node): (r: seq<Node>)
    ensures forall t :: t in r <==> t in FindAll(doc, FormInputTags) && LacksName(t)
  {
    var r := Filter(FindAll(doc, FormInputTags), LacksName);
    forall t ensures t in r <==> t in FindAll(doc, FormInputTags) && LacksName(t) {
      FilterMembership(FindAll(doc, FormInputTags), LacksName, t);
    }
    r
  }

  method CheckFormInputNameAttr(doc: Node) returns (r: seq<Node>)
    ensures r == FormInputNameAttr(doc)
  {
    var tags := FindAll(doc, FormInputTags);
    r := [];
    for i := 0 to |tags|
      invariant r == Filter(tags[..i], LacksName)
    {
      var tag := tags[i];
      FilterSnoc(tags, i, LacksName);
      if TagName(tag) == "input" && HasAttr(tag, "type")
         && (AttrValue(tag, "type") == "submit" || AttrValue(tag, "type") == "reset") {
        continue;
      }
      if !HasAttr(tag, "name") || AttrValue(tag, "name") == "" {
        r := r + [tag];
      }
    }
    assert tags[..|tags|] == tags;
  }

  // ---------------------------------------------------------------------------
  // Gating in `_checkHtmlFiles` (analyseHtml.py:411-455)

  /** The results of the checks that run only on a sound base structure. */
  datatype OtherResults = OtherResults(
    codeOutsideBody: seq<Node>,
    main: MainReport,
    nestedArticles: seq<TagLines>,
    forbiddenTags: seq<TagLines>,
    semiForbiddenTags: seq<TagLines>,
    imageScaling: seq<TagLines>,
    formInputTypes: seq<CountLine>,
    formInputNameAttr: seq<Node>,
    formInputValidations: seq<CountLine>)

  datatype FileReport = FileReport(baseStructure: seq<BaseIssue>, others: Option<OtherResults>)

  /** The checks of one file: the base structure, and the other checks only
      when it reports nothing (so a missing `lang` or charset suppresses them). */
  method CheckHtmlFile(doc: Node) returns (r: FileReport)
    ensures r.baseStructure == BaseStructure(doc)
    ensures r.others.Some? <==> BaseStructure(doc) == []
    ensures r.others.Some? ==> r.others.value == OtherResults(
      CodeOutsideBody(doc), MainCheck(doc), NestedArticles(doc),
      ForbiddenTagLines(doc, ForbiddenTags), ForbiddenTagLines(doc, SemiForbiddenTags),
      ImageScaling(doc), FormInputTypes(doc), FormInputNameAttr(doc), FormInputValidations(doc))
  {
    var base := CheckBaseStructure(doc);
    if base != [] {
      return FileReport(base, None);
    }
    var outside := CheckCodeOutsideBody(doc);
    var main := CheckMain(doc);
    var nested := CheckNestedArticles(doc);
    var forbidden := CheckForbiddenTags(doc, ForbiddenTags);
    var semiForbidden := CheckForbiddenTags(doc, SemiForbiddenTags);
    var scaling := CheckImageScaling(doc);
    var types := CheckFormInputTypes(doc);
    var names := CheckFormInputNameAttr(doc);
    var validations := CheckFormInputValidations(doc);
    r := FileReport(base, Some(OtherResults(outside, main, nested, forbidden, semiForbidden,
                                             scaling, types, names, validations)));
  }
}
