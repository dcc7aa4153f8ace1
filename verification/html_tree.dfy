/** The part of a BeautifulSoup document that the HTML and CSS analysers look at
    (analyseHtml.py, analyseHtmlOutline.py, analyseCss.py). Parsing is not
    modelled: a parsed file is given as a `Node` whose root is the document
    itself (bs4 names it "[document]"). Text, comments and doctypes are all
    `Text` nodes, as they are all `NavigableString`s in bs4. */
module HtmlTree {
  import opened Common

  /** One attribute, `key="value"`. */
  datatype Attr = Attr(key: string, value: string)

  datatype Node =
    | Text(content: string)
    | Element(name: string, attrs: seq<Attr>, sourceline: nat, children: seq<Node>)

  const DocumentName := "[document]"

  /** `tag.name` */
  function TagName(n: Node): string {
    if n.Element? then n.name else ""
  }

  /** The element nodes strictly below `n`, in document order: what
      `n.find_all(True)` and `n.select('*')` return. */
  function Descendants(n: Node): (r: seq<Node>)
    ensures forall i :: 0 <= i < |r| ==> r[i].Element?
    decreases n, 1
  {
    if n.Text? then [] else DescendantsOf(n.children)
  }

  /** The elements among `cs` and below them, in document order. */
  function DescendantsOf(cs: seq<Node>): (r: seq<Node>)
    ensures forall i :: 0 <= i < |r| ==> r[i].Element?
    decreases cs, 0
  {
    if cs == [] then [] else Subtree(cs[0]) + DescendantsOf(cs[1..])
  }

  /** `n` itself (when it is an element) followed by its descendants. */
  function Subtree(n: Node): (r: seq<Node>)
    ensures forall i :: 0 <= i < |r| ==> r[i].Element?
    decreases n, 2
  {
    if n.Element? then [n] + Descendants(n) else []
  }

  lemma {:induction false} DescendantsOfAppend(xs: seq<Node>, ys: seq<Node>)
    ensures DescendantsOf(xs + ys) == DescendantsOf(xs) + DescendantsOf(ys)
  {
    if xs == [] {
      assert xs + ys == ys;
    } else {
      assert (xs + ys)[0] == xs[0] && (xs + ys)[1..] == xs[1..] + ys;
      DescendantsOfAppend(xs[1..], ys);
    }
  }

  lemma DescendantsOfSingleton(x: Node)
    ensures DescendantsOf([x]) == Subtree(x)
    ensures x.Element? ==> Subtree(x) == [x] + DescendantsOf(x.children)
  {
    assert [x][1..] == [];
  }

  /** The value of attribute `key`, if the element has one: `tag.get(key)`. */
  function GetAttr(attrs: seq<Attr>, key: string): (r: Option<string>)
    ensures r.Some? <==> exists i :: 0 <= i < |attrs| && attrs[i].key == key
    ensures r.Some? ==> Attr(key, r.value) in attrs
  {
    if attrs == [] then None
    else if attrs[0].key == key then Some(attrs[0].value)
    else
      var r := GetAttr(attrs[1..], key);
      assert forall i :: 0 < i < |attrs| ==> attrs[i] == attrs[1..][i - 1];
      r
  }

  /** `tag.has_attr(key)` */
  predicate HasAttr(n: Node, key: string) {
    n.Element? && GetAttr(n.attrs, key).Some?
  }

  /** `n.find_all(names)`: the descendants whose name is one of `names`. */
  function FindAll(n: Node, names: seq<string>): (r: seq<Node>)
    ensures forall e :: e in r <==> e in Descendants(n) && e.name in names
  {
    var r := Filter(Descendants(n), (e: Node) => e.Element? && e.name in names);
    forall e ensures e in r <==> e in Descendants(n) && e.name in names {
      FilterMembership(Descendants(n), (e: Node) => e.Element? && e.name in names, e);
    }
    r
  }

  /** `n.find(name)` (also `n.html`, `n.head`): the first descendant with that name. */
  function Find(n: Node, name: string): (r: Option<Node>)
    ensures r.Some? <==> exists e :: e in Descendants(n) && e.name == name
    ensures r.Some? ==> r.value in Descendants(n) && r.value.name == name
    ensures r.Some? ==> r.value == FindAll(n, [name])[0]
  {
    var all := FindAll(n, [name]);
    if all == [] then
      assert forall e :: e in Descendants(n) && e.name == name ==> e in all;
      None
    else
      assert all[0] in all;
      Some(all[0])
  }

  /** The elements below `cs`, in document order, each paired with the names of
      its ancestors from the top of `cs` down (`above` prefixed). */
  function WithAncestors(cs: seq<Node>, above: seq<string>): (r: seq<(Node, seq<string>)>)
    decreases cs, 0
  {
    if cs == [] then []
    else NodeWithAncestors(cs[0], above) + WithAncestors(cs[1..], above)
  }

  function NodeWithAncestors(n: Node, above: seq<string>): (r: seq<(Node, seq<string>)>)
    decreases n, 1
  {
    if n.Text? then [] else [(n, above)] + WithAncestors(n.children, above + [n.name])
  }

  /** Forgetting the ancestor names gives back document order. */
  lemma {:induction false} WithAncestorsOrder(cs: seq<Node>, above: seq<string>)
    ensures Map(WithAncestors(cs, above), (p: (Node, seq<string>)) => p.0) == DescendantsOf(cs)
    decreases cs, 0
  {
    if cs != [] {
      var f := (p: (Node, seq<string>)) => p.0;
      NodeWithAncestorsOrder(cs[0], above);
      WithAncestorsOrder(cs[1..], above);
      MapAppend(NodeWithAncestors(cs[0], above), WithAncestors(cs[1..], above), f);
    }
  }

  lemma {:induction false} NodeWithAncestorsOrder(n: Node, above: seq<string>)
    ensures Map(NodeWithAncestors(n, above), (p: (Node, seq<string>)) => p.0) == Subtree(n)
    decreases n, 1
  {
    if n.Element? {
      var f := (p: (Node, seq<string>)) => p.0;
      WithAncestorsOrder(n.children, above + [n.name]);
      MapAppend([(n, above)], WithAncestors(n.children, above + [n.name]), f);
    }
  }

  function NestedKeep(outer: string, inner: string): ((Node, seq<string>)) -> bool {
    (p: (Node, seq<string>)) => p.0.Element? && p.0.name == inner && outer in p.1
  }

  /** The descendants named `inner` that have an ancestor named `outer` below
      `n`: the CSS selector `outer inner`, as in `document.select('article article')`. */
  function SelectDescendant(n: Node, outer: string, inner: string): (r: seq<Node>)
    ensures forall e :: e in r ==> e in Descendants(n) && e.name == inner
  {
    var tagged := if n.Element? then WithAncestors(n.children, []) else [];
    var hits := Filter(tagged, NestedKeep(outer, inner));
    var r := Map(hits, (p: (Node, seq<string>)) => p.0);
    forall e | e in r ensures e in Descendants(n) && e.name == inner {
      var i :| 0 <= i < |r| && r[i] == e;
      FilterMembership(tagged, NestedKeep(outer, inner), hits[i]);
      if n.Element? {
        WithAncestorsOrder(n.children, []);
        var j :| 0 <= j < |tagged| && tagged[j] == hits[i];
        assert Map(tagged, (p: (Node, seq<string>)) => p.0)[j] == e;
      }
    }
    r
  }
}
