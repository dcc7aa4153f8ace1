/** The style-sheet link check of the CSS analyser (`_checkExternStylesInHtml`,
    analyseCss.py:283-299): the `href` of every `link` in the document head
    that is a style sheet, listing local ones, external ones or both, and
    leaving out external links to web fonts. */
module CssLinks {
  import opened Common
  import opened HtmlTree

  /** `ignoreInUrls` */
  const IgnoreInUrls := "fonts"

  /** White space as bs4 splits multi-valued attributes at it: the `\S+` runs of
      a Python `str` pattern, whose `\s` is every character `str.isspace()`
      accepts (the ASCII controls 9-13 and 28-31, the space, NEL, the no-break
      space that `&nbsp;` decodes to, and the Unicode space separators). */
  predicate IsBlank(c: char) {
    || '\t' <= c <= '\r'
    || '\U{1C}' <= c <= ' '
    || c == '\U{85}' || c == '\U{A0}' || c == '\U{1680}'
    || '\U{2000}' <= c <= '\U{200A}'
    || c == '\U{2028}' || c == '\U{2029}' || c == '\U{202F}' || c == '\U{205F}' || c == '\U{3000}'
  }

  /** The length of the word `s` starts with. */
  function WordLength(s: string): (n: nat)
    requires s != [] && !IsBlank(s[0])
    ensures 1 <= n <= |s|
    ensures forall i :: 0 <= i < n ==> !IsBlank(s[i])
    ensures n < |s| ==> IsBlank(s[n])
    ensures (forall i :: 0 <= i < |s| ==> !IsBlank(s[i])) ==> n == |s|
  {
    if |s| == 1 || IsBlank(s[1]) then 1 else 1 + WordLength(s[1..])
  }

  /** `rel` is a multi-valued attribute: bs4 gives it as the list of the
      non-blank runs of its text. */
  function Words(s: string): (r: seq<string>)
    ensures forall i :: 0 <= i < |r| ==> r[i] != [] && forall j :: 0 <= j < |r[i]| ==> !IsBlank(r[i][j])
    decreases |s|
  {
    if s == [] then []
    else if IsBlank(s[0]) then Words(s[1..])
    else
      var n := WordLength(s);
      [s[..n]] + Words(s[n..])
  }

  /** A word without blanks, with blanks before and after it or not, is one
      word. */
  lemma {:induction false} WordsOfWord(pre: string, w: string, post: string)
    requires forall j :: 0 <= j < |pre| ==> IsBlank(pre[j])
    requires w != [] && forall j :: 0 <= j < |w| ==> !IsBlank(w[j])
    requires forall j :: 0 <= j < |post| ==> IsBlank(post[j])
    ensures Words(pre + w + post) == [w]
    decreases |pre|
  {
    var s := pre + w + post;
    if pre == [] {
      assert s == w + post;
      var n := WordLength(s);
      assert forall i :: 0 <= i < |w| ==> s[i] == w[i];
      assert |w| < |s| ==> s[|w|] == post[0];
      assert s[..n] == w;
      assert s[n..] == post;
      WordsOfBlanks(post);
    } else {
      assert s[1..] == pre[1..] + w + post;
      WordsOfWord(pre[1..], w, post);
    }
  }

  /** Blanks alone hold no word. */
  lemma {:induction false} WordsOfBlanks(s: string)
    requires forall j :: 0 <= j < |s| ==> IsBlank(s[j])
    ensures Words(s) == []
    decreases |s|
  {
    if s != [] {
      WordsOfBlanks(s[1..]);
    }
  }

  /** `rel="stylesheet&nbsp;"` names the style-sheet relation: the no-break
      space is a separator like any other. */
  lemma NoBreakSpaceSeparates()
    ensures Words("stylesheet\U{A0}") == ["stylesheet"]
  {
    var w := "stylesheet";
    assert forall j :: 0 <= j < |w| ==> !IsBlank(w[j]);
    assert "stylesheet\U{A0}" == [] + w + "\U{A0}";
    WordsOfWord([], w, "\U{A0}");
  }

  function AttrOf(e: Node, key: string): Option<string> {
    if e.Element? then GetAttr(e.attrs, key) else None
  }

  /** `linkTag['href']` */
  function Href(e: Node): string {
    var h := AttrOf(e, "href");
    if h.Some? then h.value else ""
  }

  /** A link without `rel`, or whose `rel` has the word `stylesheet`. */
  predicate StyleSheetRel(e: Node) {
    var rel := AttrOf(e, "rel");
    rel.None? || "stylesheet" in Words(rel.value)
  }

  /** `re.match('http', href, re.IGNORECASE)` */
  predicate IsExternal(href: string) {
    StartsWithIgnoreCase(href, "http")
  }

  /** The loop appends this link's `href`. */
  predicate Listed(e: Node, local: bool, external: bool) {
    && AttrOf(e, "href").Some?
    && StyleSheetRel(e)
    && ((local && !IsExternal(Href(e))) || (external && IsExternal(Href(e)) && !Contains(Href(e), IgnoreInUrls)))
  }

  function ListedTest(local: bool, external: bool): Node -> bool {
    e => Listed(e, local, external)
  }

  /** `document.head.find_all('link') if document.head else []` */
  function LinkTags(doc: Node): seq<Node> {
    var head := Find(doc, "head");
    if head.Some? then FindAll(head.value, ["link"]) else []
  }

  /** The addresses listed for `links`, in order. */
  function ListedHrefs(links: seq<Node>, local: bool, external: bool): seq<string> {
    Map(Filter(links, ListedTest(local, external)), Href)
  }

  /** What the check lists for a document, in document order. */
  function ExternStyles(doc: Node, local: bool, external: bool): seq<string> {
    ListedHrefs(LinkTags(doc), local, external)
  }

  lemma ListedHrefsSnoc(links: seq<Node>, i: nat, local: bool, external: bool)
    requires i < |links|
    ensures ListedHrefs(links[..i + 1], local, external)
         == ListedHrefs(links[..i], local, external) + (if Listed(links[i], local, external) then [Href(links[i])] else [])
  {
    FilterSnoc(links, i, ListedTest(local, external));
    MapAppend(Filter(links[..i], ListedTest(local, external)), Filter([links[i]], ListedTest(local, external)), Href);
  }

  /** The body of the link loop: what one link adds to the result. */
  method LinkHrefs(link: Node, local: bool, external: bool) returns (added: seq<string>)
    ensures added == if Listed(link, local, external) then [Href(link)] else []
  {
    added := [];
    var href := AttrOf(link, "href");
    if href.Some? {
      var rel := AttrOf(link, "rel");
      if rel.Some? && !("stylesheet" in Words(rel.value)) {
        return;
      }
      var http := StartsWithIgnoreCase(href.value, "http");
      if local && !http {
        added := added + [href.value];
      }
      if external && http {
        if !Contains(href.value, IgnoreInUrls) {
          added := added + [href.value];
        }
      }
    }
  }

  /** The loop over the links of the head. */
  method ListLinks(links: seq<Node>, local: bool, external: bool) returns (result: seq<string>)
    ensures result == ListedHrefs(links, local, external)
  {
    result := [];
    for i := 0 to |links|
      invariant result == ListedHrefs(links[..i], local, external)
    {
      ListedHrefsSnoc(links, i, local, external);
      var added := LinkHrefs(links[i], local, external);
      result := result + added;
    }
    assert links[..|links|] == links;
  }

  /** `_checkExternStylesInHtml` on a parsed document. */
  method CheckExternStylesInHtml(doc: Node, local: bool, external: bool) returns (result: seq<string>)
    ensures result == ExternStyles(doc, local, external)
  {
    var head := Find(doc, "head");
    var links := if head.Some? then FindAll(head.value, ["link"]) else [];
    result := ListLinks(links, local, external);
  }

  /** Every listed address is local when local links are asked for, or
      external and not a font when external ones are. */
  lemma ExternStylesSound(doc: Node, local: bool, external: bool, k: nat)
    requires k < |ExternStyles(doc, local, external)|
    ensures var h := ExternStyles(doc, local, external)[k];
      (local && !IsExternal(h)) || (external && IsExternal(h) && !Contains(h, IgnoreInUrls))
  {
    var kept := Filter(LinkTags(doc), ListedTest(local, external));
    FilterMembership(LinkTags(doc), ListedTest(local, external), kept[k]);
  }

  /** Every style-sheet link of the head whose address is of a requested kind
      (and, when external, not a font) is listed; nothing is listed without a
      head. */
  lemma ExternStylesComplete(doc: Node, local: bool, external: bool, e: Node)
    requires e in LinkTags(doc) && Listed(e, local, external)
    ensures Href(e) in ExternStyles(doc, local, external)
    ensures Find(doc, "head").Some?
  {
    var kept := Filter(LinkTags(doc), ListedTest(local, external));
    FilterMembership(LinkTags(doc), ListedTest(local, external), e);
    var j :| 0 <= j < |kept| && kept[j] == e;
    assert ExternStyles(doc, local, external)[j] == Href(e);
  }

  /** A link whose `rel` lacks the word `stylesheet` is never listed, whatever
      its address. */
  lemma NonStyleSheetSkipped(e: Node, local: bool, external: bool)
    requires AttrOf(e, "rel").Some? && "stylesheet" !in Words(AttrOf(e, "rel").value)
    ensures !Listed(e, local, external)
  {
  }

  /** Local and external addresses never mix: asking for local links alone
      lists no external address, and the other way round. */
  lemma LocalExternalApart(doc: Node)
    ensures forall h :: h in ExternStyles(doc, true, false) ==> !IsExternal(h)
    ensures forall h :: h in ExternStyles(doc, false, true) ==> IsExternal(h) && !Contains(h, IgnoreInUrls)
  {
    forall h | h in ExternStyles(doc, true, false) ensures !IsExternal(h) {
      var k :| 0 <= k < |ExternStyles(doc, true, false)| && ExternStyles(doc, true, false)[k] == h;
      ExternStylesSound(doc, true, false, k);
    }
    forall h | h in ExternStyles(doc, false, true) ensures IsExternal(h) && !Contains(h, IgnoreInUrls) {
      var k :| 0 <= k < |ExternStyles(doc, false, true)| && ExternStyles(doc, false, true)[k] == h;
      ExternStylesSound(doc, false, true, k);
    }
  }
}
