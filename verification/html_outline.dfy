/** The HTML outline checker (analyseHtmlOutline.py): a document is reduced to
    its outline skeleton (text removed, every element that is neither sectioning
    nor a heading unwrapped), and the skeleton is folded into three error lists:
    untitled sections, heading level conflicts and sections with several
    headings. */
module HtmlOutline {
  import opened Common
  import opened Sorting
  import opened HtmlTree

  const SectioningElements := ["body", "nav", "aside", "article", "section"]

  /** `headingRegex.match(name)`, `^h([1-6])$`: the number of a heading name. */
  function HeadingLevel(name: string): (r: Option<nat>)
    ensures r.Some? <==> |name| == 2 && name[0] == 'h' && '1' <= name[1] <= '6'
    ensures r.Some? ==> 1 <= r.value <= 6 && name[1] == DigitChar(r.value)
  {
    if |name| == 2 && name[0] == 'h' && '1' <= name[1] <= '6' then Some(name[1] as int - '0' as int)
    else None
  }

  predicate IsSectioning(n: Node) {
    n.Element? && n.name in SectioningElements
  }

  predicate IsHeading(n: Node) {
    n.Element? && HeadingLevel(n.name).Some?
  }

  /** An element that belongs in the outline skeleton. */
  predicate IsOutline(n: Node) {
    IsSectioning(n) || IsHeading(n)
  }

  /** An element with its children dropped: what identifies it in document order. */
  function Shallow(n: Node): Node {
    if n.Element? then n.(children := []) else n
  }

  function Size(n: Node): (r: nat)
    ensures r >= 1
    decreases n, 1
  {
    if n.Text? then 1 else 1 + TotalSize(n.children)
  }

  function TotalSize(cs: seq<Node>): nat
    decreases cs, 0
  {
    if cs == [] then 0 else Size(cs[0]) + TotalSize(cs[1..])
  }

  lemma {:induction false} TotalSizeAppend(xs: seq<Node>, ys: seq<Node>)
    ensures TotalSize(xs + ys) == TotalSize(xs) + TotalSize(ys)
  {
    if xs == [] {
      assert xs + ys == ys;
    } else {
      assert (xs + ys)[0] == xs[0] && (xs + ys)[1..] == xs[1..] + ys;
      TotalSizeAppend(xs[1..], ys);
    }
  }

  lemma TotalSizeSplit(cs: seq<Node>, i: nat)
    requires i < |cs|
    ensures TotalSize(cs) == TotalSize(cs[..i]) + Size(cs[i]) + TotalSize(cs[i + 1..])
  {
    assert cs == cs[..i] + ([cs[i]] + cs[i + 1..]);
    TotalSizeAppend(cs[..i], [cs[i]] + cs[i + 1..]);
    assert ([cs[i]] + cs[i + 1..])[1..] == cs[i + 1..];
  }

  // ---------------------------------------------------------------------------
  // Removing the displayed text (analyseHtmlOutline.py:61-67)

  /** Every text node among `cs` removed, at every depth. */
  function StripText(cs: seq<Node>): (r: seq<Node>)
    decreases cs, 0
  {
    if cs == [] then []
    else (if cs[0].Element? then [StripNode(cs[0])] else []) + StripText(cs[1..])
  }

  function StripNode(n: Node): (r: Node)
    requires n.Element?
    ensures r.Element? && Shallow(r) == Shallow(n)
    decreases n, 1
  {
    n.(children := StripText(n.children))
  }

  /** No text node at any depth. */
  predicate TextFree(cs: seq<Node>)
    decreases cs, 0
  {
    forall i :: 0 <= i < |cs| ==> TextFreeNode(cs[i])
  }

  predicate TextFreeNode(n: Node)
    decreases n, 1
  {
    n.Element? && TextFree(n.children)
  }

  lemma {:induction false} StripTextAppend(xs: seq<Node>, ys: seq<Node>)
    ensures StripText(xs + ys) == StripText(xs) + StripText(ys)
  {
    if xs == [] {
      assert xs + ys == ys;
    } else {
      assert (xs + ys)[0] == xs[0] && (xs + ys)[1..] == xs[1..] + ys;
      StripTextAppend(xs[1..], ys);
    }
  }

  /** After stripping, no text node remains at any depth. */
  lemma {:induction false} StripTextLeavesNoText(cs: seq<Node>)
    ensures TextFree(StripText(cs))
    decreases cs, 0
  {
    if cs != [] {
      StripTextLeavesNoText(cs[1..]);
      var head := if cs[0].Element? then [StripNode(cs[0])] else [];
      if cs[0].Element? {
        StripTextLeavesNoText(cs[0].children);
        assert TextFreeNode(StripNode(cs[0]));
      }
      var r := StripText(cs);
      assert r == head + StripText(cs[1..]);
      forall i | 0 <= i < |r| ensures TextFreeNode(r[i]) {
        if i >= |head| {
          assert r[i] == StripText(cs[1..])[i - |head|];
        }
      }
    }
  }

  /** Stripping keeps every element, in document order. */
  lemma {:induction false} StripTextKeepsOrder(cs: seq<Node>)
    ensures Map(DescendantsOf(StripText(cs)), Shallow) == Map(DescendantsOf(cs), Shallow)
    decreases cs, 0
  {
    if cs != [] {
      var c := cs[0];
      var head := if c.Element? then [StripNode(c)] else [];
      assert StripText(cs) == head + StripText(cs[1..]);
      DescendantsOfAppend(head, StripText(cs[1..]));
      StripTextKeepsOrder(cs[1..]);
      MapAppend(DescendantsOf(head), DescendantsOf(StripText(cs[1..])), Shallow);
      MapAppend(Subtree(c), DescendantsOf(cs[1..]), Shallow);
      if c.Element? {
        StripTextKeepsOrder(c.children);
        DescendantsOfSingleton(StripNode(c));
        DescendantsOfSingleton(c);
        MapAppend([StripNode(c)], DescendantsOf(StripText(c.children)), Shallow);
        MapAppend([c], DescendantsOf(c.children), Shallow);
      }
    }
  }

  lemma {:induction false} StripTextFixesTextFree(cs: seq<Node>)
    requires TextFree(cs)
    ensures StripText(cs) == cs
    decreases cs, 0
  {
    if cs != [] {
      assert TextFreeNode(cs[0]);
      StripTextFixesTextFree(cs[0].children);
      assert TextFree(cs[1..]) by {
        forall i | 0 <= i < |cs[1..]| ensures TextFreeNode(cs[1..][i]) {
          assert cs[1..][i] == cs[i + 1];
        }
      }
      StripTextFixesTextFree(cs[1..]);
      assert cs == [cs[0]] + cs[1..];
    }
  }

  /** `_deleteDisplayedText`: rebuilds the children of `n` without its text
      nodes, recursively. */
  method DeleteDisplayedText(n: Node) returns (r: Node)
    requires n.Element?
    ensures r == StripNode(n)
  {
    var newChildren: seq<Node> := [];
    for i := 0 to |n.children|
      invariant newChildren == StripText(n.children[..i])
    {
      var child := n.children[i];
      assert n.children[..i + 1] == n.children[..i] + [child];
      StripTextAppend(n.children[..i], [child]);
      if child.Element? {
        var stripped := DeleteDisplayedText(child);
        newChildren := newChildren + [stripped];
      }
    }
    assert n.children[..|n.children|] == n.children;
    r := n.(children := newChildren);
  }

  // ---------------------------------------------------------------------------
  // Unwrapping the non-outline elements (analyseHtmlOutline.py:68-79)

  /** The children `cs` once every non-outline element among and below them is
      replaced by its own (pruned) children. */
  function PruneList(cs: seq<Node>): (r: seq<Node>)
    decreases cs, 0
  {
    if cs == [] then [] else PruneOne(cs[0]) + PruneList(cs[1..])
  }

  function PruneOne(c: Node): (r: seq<Node>)
    decreases c, 1
  {
    if c.Text? then [c]
    else if IsOutline(c) then [c.(children := PruneList(c.children))]
    else PruneList(c.children)
  }

  /** Only text and outline elements, at every depth. */
  predicate OutlineOnly(cs: seq<Node>)
    decreases cs, 0
  {
    forall i :: 0 <= i < |cs| ==> OutlineOnlyNode(cs[i])
  }

  predicate OutlineOnlyNode(n: Node)
    decreases n, 1
  {
    n.Text? || (IsOutline(n) && OutlineOnly(n.children))
  }

  lemma {:induction false} PruneListAppend(xs: seq<Node>, ys: seq<Node>)
    ensures PruneList(xs + ys) == PruneList(xs) + PruneList(ys)
  {
    if xs == [] {
      assert xs + ys == ys;
    } else {
      assert (xs + ys)[0] == xs[0] && (xs + ys)[1..] == xs[1..] + ys;
      PruneListAppend(xs[1..], ys);
    }
  }

  lemma OutlineOnlyAppend(xs: seq<Node>, ys: seq<Node>)
    requires OutlineOnly(xs) && OutlineOnly(ys)
    ensures OutlineOnly(xs + ys)
  {
    forall i | 0 <= i < |xs + ys| ensures OutlineOnlyNode((xs + ys)[i]) {
      if i >= |xs| {
        assert (xs + ys)[i] == ys[i - |xs|];
      }
    }
  }

  /** After pruning only outline elements remain below the root. */
  lemma {:induction false} PruneLeavesOutline(cs: seq<Node>)
    ensures OutlineOnly(PruneList(cs))
    decreases cs, 0
  {
    if cs != [] {
      PruneOneLeavesOutline(cs[0]);
      PruneLeavesOutline(cs[1..]);
      OutlineOnlyAppend(PruneOne(cs[0]), PruneList(cs[1..]));
    }
  }

  lemma {:induction false} PruneOneLeavesOutline(c: Node)
    ensures OutlineOnly(PruneOne(c))
    decreases c, 1
  {
    if c.Element? {
      PruneLeavesOutline(c.children);
      if IsOutline(c) {
        assert OutlineOnlyNode(PruneOne(c)[0]);
      }
    }
  }

  /** A tree that holds only outline elements is left as it is. */
  lemma {:induction false} PruneFixesOutline(cs: seq<Node>)
    requires OutlineOnly(cs)
    ensures PruneList(cs) == cs
    decreases cs, 0
  {
    if cs != [] {
      assert OutlineOnlyNode(cs[0]);
      if cs[0].Element? {
        PruneFixesOutline(cs[0].children);
      }
      assert OutlineOnly(cs[1..]) by {
        forall i | 0 <= i < |cs[1..]| ensures OutlineOnlyNode(cs[1..][i]) {
          assert cs[1..][i] == cs[i + 1];
        }
      }
      PruneFixesOutline(cs[1..]);
      assert cs == [cs[0]] + cs[1..];
    }
  }

  /** Pruning is idempotent. */
  lemma PruneIdempotent(cs: seq<Node>)
    ensures PruneList(PruneList(cs)) == PruneList(cs)
  {
    PruneLeavesOutline(cs);
    PruneFixesOutline(PruneList(cs));
  }

  /** The kept elements are the outline elements of the original, in document
      order. */
  lemma {:induction false} PruneKeepsOutlineOrder(cs: seq<Node>)
    ensures Map(DescendantsOf(PruneList(cs)), Shallow) == Map(Filter(DescendantsOf(cs), IsOutline), Shallow)
    decreases cs, 0
  {
    if cs != [] {
      var c := cs[0];
      PruneOneKeepsOutlineOrder(c);
      PruneKeepsOutlineOrder(cs[1..]);
      DescendantsOfAppend(PruneOne(c), PruneList(cs[1..]));
      MapAppend(DescendantsOf(PruneOne(c)), DescendantsOf(PruneList(cs[1..])), Shallow);
      FilterAppend(Subtree(c), DescendantsOf(cs[1..]), IsOutline);
      MapAppend(Filter(Subtree(c), IsOutline), Filter(DescendantsOf(cs[1..]), IsOutline), Shallow);
    }
  }

  lemma {:induction false} PruneOneKeepsOutlineOrder(c: Node)
    ensures Map(DescendantsOf(PruneOne(c)), Shallow) == Map(Filter(Subtree(c), IsOutline), Shallow)
    decreases c, 1
  {
    if c.Element? {
      PruneKeepsOutlineOrder(c.children);
      assert Subtree(c) == [c] + DescendantsOf(c.children);
      FilterAppend([c], DescendantsOf(c.children), IsOutline);
      if IsOutline(c) {
        var c' := c.(children := PruneList(c.children));
        DescendantsOfSingleton(c');
        MapAppend([c'], DescendantsOf(c'.children), Shallow);
        MapAppend([c], Filter(DescendantsOf(c.children), IsOutline), Shallow);
      } else {
        assert Filter([c], IsOutline) == [];
      }
    }
  }

  lemma {:induction false} PruneShrinks(cs: seq<Node>)
    ensures TotalSize(PruneList(cs)) <= TotalSize(cs)
    decreases cs, 0
  {
    if cs != [] {
      PruneOneShrinks(cs[0]);
      PruneShrinks(cs[1..]);
      TotalSizeAppend(PruneOne(cs[0]), PruneList(cs[1..]));
    }
  }

  lemma {:induction false} PruneOneShrinks(c: Node)
    ensures TotalSize(PruneOne(c)) <= Size(c)
    decreases c, 1
  {
    if c.Element? {
      PruneShrinks(c.children);
      if IsOutline(c) {
        var c' := c.(children := PruneList(c.children));
        assert TotalSize([c']) == Size(c') + TotalSize([]);
      }
    }
  }

  /** Pruning keeps a text-free tree text-free. */
  lemma {:induction false} PruneKeepsTextFree(cs: seq<Node>)
    requires TextFree(cs)
    ensures TextFree(PruneList(cs))
    decreases cs, 0
  {
    if cs != [] {
      assert TextFreeNode(cs[0]);
      PruneKeepsTextFree(cs[0].children);
      assert TextFree(cs[1..]) by {
        forall i | 0 <= i < |cs[1..]| ensures TextFreeNode(cs[1..][i]) {
          assert cs[1..][i] == cs[i + 1];
        }
      }
      PruneKeepsTextFree(cs[1..]);
      var h := PruneOne(cs[0]);
      var r := PruneList(cs);
      if IsOutline(cs[0]) {
        assert TextFreeNode(h[0]);
      }
      forall i | 0 <= i < |r| ensures TextFreeNode(r[i]) {
        if i >= |h| {
          assert r[i] == PruneList(cs[1..])[i - |h|];
        }
      }
    }
  }

  /** Unwrapping a non-outline element at `i` of a list whose first `i`
      entries are pruned: the pruned image stays the same, the size drops, and
      pruning the result keeps those first `i` entries. */
  lemma UnwrapStep(contents: seq<Node>, i: nat)
    requires i < |contents| && contents[i].Element? && !IsOutline(contents[i])
    requires forall j :: 0 <= j < i ==> OutlineOnlyNode(contents[j])
    ensures var unwrapped := contents[..i] + contents[i].children + contents[i + 1..];
            && PruneList(unwrapped) == PruneList(contents)
            && TotalSize(unwrapped) < TotalSize(contents)
            && !OutlineOnly(contents)
            && i <= |PruneList(unwrapped)| && PruneList(unwrapped)[..i] == contents[..i]
            && OutlineOnly(PruneList(unwrapped))
  {
    var tag := contents[i];
    var unwrapped := contents[..i] + tag.children + contents[i + 1..];
    assert contents == contents[..i] + [tag] + contents[i + 1..];
    PruneListAppend(contents[..i] + [tag], contents[i + 1..]);
    PruneListAppend(contents[..i], [tag]);
    PruneListAppend(contents[..i] + tag.children, contents[i + 1..]);
    PruneListAppend(contents[..i], tag.children);
    assert PruneList([tag]) == PruneOne(tag) + PruneList([]);
    TotalSizeSplit(contents, i);
    TotalSizeAppend(contents[..i] + tag.children, contents[i + 1..]);
    TotalSizeAppend(contents[..i], tag.children);
    assert !OutlineOnlyNode(contents[i]);
    assert OutlineOnly(contents[..i]) by {
      forall j | 0 <= j < i ensures OutlineOnlyNode(contents[..i][j]) {
        assert contents[..i][j] == contents[j];
      }
    }
    PruneFixesOutline(contents[..i]);
    PruneLeavesOutline(unwrapped);
  }

  /** Pruning below the outline element at `i` keeps the pruned image of the
      list and everything else in it. */
  lemma KeepStep(contents: seq<Node>, i: nat, pruned: Node)
    requires i < |contents| && IsOutline(contents[i])
    requires pruned == contents[i].(children := PruneList(contents[i].children))
    ensures var kept := contents[..i] + [pruned] + contents[i + 1..];
            && |kept| == |contents| && kept[i] == pruned
            && (forall j :: 0 <= j < |kept| && j != i ==> kept[j] == contents[j])
            && PruneList(kept) == PruneList(contents)
            && OutlineOnlyNode(pruned)
            && TotalSize(kept) <= TotalSize(contents)
  {
    var tag := contents[i];
    var kept := contents[..i] + [pruned] + contents[i + 1..];
    assert contents == contents[..i] + [tag] + contents[i + 1..];
    PruneListAppend(contents[..i] + [tag], contents[i + 1..]);
    PruneListAppend(contents[..i], [tag]);
    PruneListAppend(contents[..i] + [pruned], contents[i + 1..]);
    PruneListAppend(contents[..i], [pruned]);
    PruneIdempotent(tag.children);
    assert PruneList([pruned]) == PruneOne(pruned) + PruneList([]);
    assert PruneList([tag]) == PruneOne(tag) + PruneList([]);
    PruneLeavesOutline(tag.children);
    PruneShrinks(tag.children);
    TotalSizeSplit(contents, i);
    TotalSizeSplit(kept, i);
    assert kept[..i] == contents[..i] && kept[i + 1..] == contents[i + 1..];
  }

  /** `_deleteNonOutlineTags(n)`. The loop walks the children of `n`; an
      element that is not part of the outline is unwrapped (replaced by its
      children) and the whole of `n` is pruned again from the start, after
      which the walk goes on at the next position; an outline element is pruned
      in its turn. */
  method DeleteNonOutlineTags(n: Node) returns (r: Node)
    requires n.Element?
    ensures r == n.(children := PruneList(n.children))
    decreases Size(n)
  {
    var contents := n.children;
    var i := 0;
    while i < |contents|
      invariant i <= |contents| + 1
      invariant PruneList(contents) == PruneList(n.children)
      invariant forall j :: 0 <= j < i && j < |contents| ==> OutlineOnlyNode(contents[j])
      invariant TotalSize(contents) <= TotalSize(n.children)
      decreases if OutlineOnly(contents) then 0 else 1, |contents| + 1 - i
    {
      var tag := contents[i];
      TotalSizeSplit(contents, i);
      if tag.Element? && !IsOutline(tag) {
        // tag.unwrap(), then start over on the whole of n
        UnwrapStep(contents, i);
        var unwrapped := contents[..i] + tag.children + contents[i + 1..];
        var again := DeleteNonOutlineTags(n.(children := unwrapped));
        contents := again.children;
        PruneIdempotent(unwrapped);
        PruneShrinks(unwrapped);
        i := i + 1;
      } else if tag.Element? {
        // an outline element: prune below it
        var pruned := DeleteNonOutlineTags(tag);
        KeepStep(contents, i, pruned);
        ghost var before := contents;
        contents := contents[..i] + [pruned] + contents[i + 1..];
        assert OutlineOnly(before) ==> OutlineOnly(contents) by {
          if OutlineOnly(before) {
            forall j | 0 <= j < |contents| ensures OutlineOnlyNode(contents[j]) {
              if j != i {
                assert contents[j] == before[j];
              }
            }
          }
        }
        i := i + 1;
      } else {
        i := i + 1;
      }
    }
    assert OutlineOnly(contents);
    PruneFixesOutline(contents);
    r := n.(children := contents);
  }

  /** The outline skeleton of a document: text removed, then every non-outline
      element unwrapped (`_getOutlineSkeleton`). */
  function Skeleton(n: Node): (r: Node)
    requires n.Element?
    ensures r.Element? && Shallow(r) == Shallow(n)
  {
    n.(children := PruneList(StripText(n.children)))
  }

  /** The skeleton is text-free, holds only outline elements, lists the outline
      elements of the document in document order, and is its own skeleton. */
  lemma SkeletonProperties(n: Node)
    requires n.Element?
    ensures TextFree(Skeleton(n).children) && OutlineOnly(Skeleton(n).children)
    ensures Map(Descendants(Skeleton(n)), Shallow) == Map(Filter(Descendants(n), IsOutline), Shallow)
    ensures Skeleton(Skeleton(n)) == Skeleton(n)
  {
    var s := StripText(n.children);
    StripTextLeavesNoText(n.children);
    PruneKeepsTextFree(s);
    PruneLeavesOutline(s);
    PruneKeepsOutlineOrder(s);
    StripTextKeepsOrder(n.children);
    FilterShallow(DescendantsOf(s), DescendantsOf(n.children));
    StripTextFixesTextFree(PruneList(s));
    PruneIdempotent(s);
  }

  /** Filtering by `IsOutline` only looks at what `Shallow` keeps. */
  lemma {:induction false} FilterShallow(xs: seq<Node>, ys: seq<Node>)
    requires Map(xs, Shallow) == Map(ys, Shallow)
    ensures Map(Filter(xs, IsOutline), Shallow) == Map(Filter(ys, IsOutline), Shallow)
  {
    if xs != [] {
      assert |ys| == |xs|;
      assert Shallow(xs[0]) == Map(xs, Shallow)[0] == Map(ys, Shallow)[0] == Shallow(ys[0]);
      assert Map(xs[1..], Shallow) == Map(xs, Shallow)[1..];
      assert Map(ys[1..], Shallow) == Map(ys, Shallow)[1..];
      FilterShallow(xs[1..], ys[1..]);
      assert IsOutline(xs[0]) == IsOutline(ys[0]);
      var hx := if IsOutline(xs[0]) then [xs[0]] else [];
      var hy := if IsOutline(ys[0]) then [ys[0]] else [];
      MapAppend(hx, Filter(xs[1..], IsOutline), Shallow);
      MapAppend(hy, Filter(ys[1..], IsOutline), Shallow);
    }
  }

  /** `_getOutlineSkeleton` */
  method GetOutlineSkeleton(soup: Node) returns (r: Node)
    requires soup.Element?
    ensures r == Skeleton(soup)
  {
    var stripped := DeleteDisplayedText(soup);
    r := DeleteNonOutlineTags(stripped);
  }

  // ---------------------------------------------------------------------------
  // Checking the skeleton (analyseHtmlOutline.py:87-126)

  /** `_hasPreviousSiblingSectioningElement`: some earlier sibling is a
      sectioning element. */
  predicate PrevSectioning(cs: seq<Node>, i: nat) {
    exists j :: 0 <= j < i && j < |cs| && IsSectioning(cs[j])
  }

  /** The loop over `previous_siblings`, nearest first. */
  method HasPreviousSiblingSectioningElement(cs: seq<Node>, i: nat) returns (found: bool)
    requires i < |cs|
    ensures found == PrevSectioning(cs, i)
  {
    found := false;
    var j := i;
    while j > 0
      invariant 0 <= j <= i
      invariant !found ==> forall k :: j <= k < i ==> !IsSectioning(cs[k])
      invariant found ==> PrevSectioning(cs, i)
    {
      j := j - 1;
      if cs[j].Element? && cs[j].name in SectioningElements {
        found := true;
        break;
      }
    }
  }

  /** The three error lists: Untitled, Level conflict, Multiple headings. */
  datatype Errors = Errors(untitled: seq<nat>, levelConflict: seq<nat>, multipleHeadings: seq<nat>)

  const NoErrors := Errors([], [], [])

  /** `_pairwiseSum`: the lists joined componentwise. */
  function PairwiseSum(a: Errors, b: Errors): (r: Errors)
    ensures |r.untitled| == |a.untitled| + |b.untitled|
    ensures |r.levelConflict| == |a.levelConflict| + |b.levelConflict|
    ensures |r.multipleHeadings| == |a.multipleHeadings| + |b.multipleHeadings|
  {
    Errors(a.untitled + b.untitled, a.levelConflict + b.levelConflict, a.multipleHeadings + b.multipleHeadings)
  }

  /** `_pairwiseSum` has the empty lists as unit and is associative. */
  lemma PairwiseSumMonoid(a: Errors, b: Errors, c: Errors)
    ensures PairwiseSum(NoErrors, a) == a && PairwiseSum(a, NoErrors) == a
    ensures PairwiseSum(PairwiseSum(a, b), c) == PairwiseSum(a, PairwiseSum(b, c))
  {
    assert a.untitled + [] == a.untitled && a.levelConflict + [] == a.levelConflict;
    assert a.multipleHeadings + [] == a.multipleHeadings;
    assert a.untitled + b.untitled + c.untitled == a.untitled + (b.untitled + c.untitled);
    assert a.levelConflict + b.levelConflict + c.levelConflict == a.levelConflict + (b.levelConflict + c.levelConflict);
  }

  /** What `_checkOutline` returns: the heading count, the count of headings
      that came first but after a sectioning sibling, and the errors. */
  datatype OutlineResult = OutlineResult(headingCount: nat, prevSectioningCount: nat, errors: Errors)

  /** `_checkOutline(n, level)` */
  function CheckOutline(n: Node, level: nat): (r: OutlineResult)
    requires n.Element?
    decreases n, 0, 0
  {
    var acc := CheckChildren(n.children, level, |n.children|);
    if n.name in SectioningElements then
      var untitled := (acc.headingCount == 0 && level > 0) || acc.prevSectioningCount > 0;
      var multiple := acc.headingCount > 1;
      acc.(errors := Errors(
        acc.errors.untitled + (if untitled then [n.sourceline] else []),
        acc.errors.levelConflict,
        acc.errors.multipleHeadings + (if multiple then [n.sourceline] else [])))
    else acc
  }

  /** The loop of `_checkOutline` over the first `k` children. */
  function CheckChildren(cs: seq<Node>, level: nat, k: nat): (r: OutlineResult)
    requires k <= |cs|
    decreases cs, 1, k
  {
    if k == 0 then OutlineResult(0, 0, NoErrors)
    else
      var acc := CheckChildren(cs, level, k - 1);
      var tag := cs[k - 1];
      if tag.Text? then acc
      else if tag.name in SectioningElements then
        acc.(errors := PairwiseSum(acc.errors, CheckOutline(tag, level + 1).errors))
      else
        var prev := if PrevSectioning(cs, k - 1) && acc.headingCount == 0
                    then acc.prevSectioningCount + 1 else acc.prevSectioningCount;
        match HeadingLevel(tag.name)
        case Some(h) =>
          var errors := if h != level
                        then acc.errors.(levelConflict := acc.errors.levelConflict + [tag.sourceline])
                        else acc.errors;
          OutlineResult(acc.headingCount + 1, prev, errors)
        case None =>
          var nested := CheckOutline(tag, level);
          OutlineResult(acc.headingCount + nested.headingCount, prev + nested.prevSectioningCount,
                        PairwiseSum(acc.errors, nested.errors))
  }

  predicate ErrorsPrefix(a: Errors, b: Errors) {
    a.untitled <= b.untitled && a.levelConflict <= b.levelConflict
    && a.multipleHeadings <= b.multipleHeadings
  }

  /** The error lists only ever grow at their ends as the loop goes on. */
  lemma {:induction false} ErrorsGrow(cs: seq<Node>, level: nat, k: nat, m: nat)
    requires k <= m <= |cs|
    ensures ErrorsPrefix(CheckChildren(cs, level, k).errors, CheckChildren(cs, level, m).errors)
    decreases m
  {
    if k < m {
      ErrorsGrow(cs, level, k, m - 1);
      var a := CheckChildren(cs, level, k).errors;
      var b := CheckChildren(cs, level, m - 1).errors;
      var c := CheckChildren(cs, level, m).errors;
      assert ErrorsPrefix(b, c);
      assert c.untitled[..|a.untitled|] == b.untitled[..|a.untitled|];
      assert c.levelConflict[..|a.levelConflict|] == b.levelConflict[..|a.levelConflict|];
      assert c.multipleHeadings[..|a.multipleHeadings|] == b.multipleHeadings[..|a.multipleHeadings|];
    }
  }

  /** The errors one child adds to the loop of its parent: those of a nested
      section checked one level down, a level conflict for a heading whose
      number is not the level, those of any other element checked at the same
      level, and none for text. */
  function ChildErrors(tag: Node, level: nat): Errors {
    if tag.Text? then NoErrors
    else if tag.name in SectioningElements then CheckOutline(tag, level + 1).errors
    else
      match HeadingLevel(tag.name)
      case Some(h) => Errors([], if h != level then [tag.sourceline] else [], [])
      case None => CheckOutline(tag, level).errors
  }

  /** The errors of the children, joined in document order. */
  function ErrorsOf(cs: seq<Node>, level: nat): Errors {
    if cs == [] then NoErrors else PairwiseSum(ChildErrors(cs[0], level), ErrorsOf(cs[1..], level))
  }

  lemma {:induction false} ErrorsOfSnoc(cs: seq<Node>, x: Node, level: nat)
    ensures ErrorsOf(cs + [x], level) == PairwiseSum(ErrorsOf(cs, level), ChildErrors(x, level))
  {
    if cs == [] {
      assert [x][1..] == [];
      PairwiseSumMonoid(ChildErrors(x, level), NoErrors, NoErrors);
    } else {
      assert (cs + [x])[1..] == cs[1..] + [x];
      ErrorsOfSnoc(cs[1..], x, level);
      PairwiseSumMonoid(ChildErrors(cs[0], level), ErrorsOf(cs[1..], level), ChildErrors(x, level));
    }
  }

  /** `_pairwiseSum` keeps document order: after the first `k` children the
      error lists are the lists each child contributes, one child after the
      other, whatever the heading counts were along the way. */
  lemma {:induction false} ChildErrorsInOrder(cs: seq<Node>, level: nat, k: nat)
    requires k <= |cs|
    ensures CheckChildren(cs, level, k).errors == ErrorsOf(cs[..k], level)
  {
    if k > 0 {
      ChildErrorsInOrder(cs, level, k - 1);
      assert cs[..k] == cs[..k - 1] + [cs[k - 1]];
      ErrorsOfSnoc(cs[..k - 1], cs[k - 1], level);
      var acc := CheckChildren(cs, level, k - 1).errors;
      PairwiseSumMonoid(acc, NoErrors, NoErrors);
    }
  }

  /** The errors of an element are those of its children in document order,
      followed for a sectioning element by its own Untitled and Multiple
      headings entries; level conflicts come from the children alone. */
  lemma NestedErrorsFirst(n: Node, level: nat)
    requires n.Element?
    ensures var e := CheckOutline(n, level).errors;
            var c := ErrorsOf(n.children, level);
            && e.levelConflict == c.levelConflict
            && c.untitled <= e.untitled && |e.untitled| <= |c.untitled| + 1
            && c.multipleHeadings <= e.multipleHeadings && |e.multipleHeadings| <= |c.multipleHeadings| + 1
            && (!IsSectioning(n) ==> e == c)
  {
    ChildErrorsInOrder(n.children, level, |n.children|);
    assert n.children[..|n.children|] == n.children;
  }

  /** A heading child whose number differs from the level is reported as a
      level conflict. */
  lemma LevelConflictReported(cs: seq<Node>, level: nat, j: nat, k: nat)
    requires j < k <= |cs|
    requires IsHeading(cs[j]) && HeadingLevel(cs[j].name).value != level
    ensures cs[j].sourceline in CheckChildren(cs, level, k).errors.levelConflict
  {
    ErrorsGrow(cs, level, j + 1, k);
    var conflicts := CheckChildren(cs, level, j + 1).errors.levelConflict;
    assert conflicts[|conflicts| - 1] == cs[j].sourceline;
    assert CheckChildren(cs, level, k).errors.levelConflict[|conflicts| - 1] == cs[j].sourceline;
  }

  /** Number of heading children among the first `k`. */
  function HeadingsBefore(cs: seq<Node>, k: nat): nat
    requires k <= |cs|
  {
    if k == 0 then 0 else HeadingsBefore(cs, k - 1) + (if IsHeading(cs[k - 1]) then 1 else 0)
  }

  /** The first heading child among the first `k` has a sectioning sibling
      before it. */
  predicate FirstHeadingAfterSectioning(cs: seq<Node>, k: nat)
    requires k <= |cs|
  {
    exists j :: 0 <= j < k && IsHeading(cs[j]) && HeadingsBefore(cs, j) == 0 && PrevSectioning(cs, j)
  }

  /** Every child is an outline element (true of a text-free skeleton). */
  predicate OutlineChildren(cs: seq<Node>) {
    forall j :: 0 <= j < |cs| ==> IsOutline(cs[j])
  }

  /** One step of the loop over an outline child. */
  lemma CountsStep(cs: seq<Node>, level: nat, k: nat)
    requires 0 < k <= |cs| && IsOutline(cs[k - 1])
    ensures var acc := CheckChildren(cs, level, k - 1);
            var r := CheckChildren(cs, level, k);
            && r.headingCount == acc.headingCount + (if IsHeading(cs[k - 1]) then 1 else 0)
            && r.prevSectioningCount == acc.prevSectioningCount
               + (if IsHeading(cs[k - 1]) && PrevSectioning(cs, k - 1) && acc.headingCount == 0 then 1 else 0)
  {
  }

  /** The first heading child among `k` comes after a sectioning sibling when
      it already did among `k - 1`, or when child `k - 1` is that first heading. */
  lemma FirstHeadingStep(cs: seq<Node>, k: nat)
    requires 0 < k <= |cs|
    ensures FirstHeadingAfterSectioning(cs, k)
            <==> FirstHeadingAfterSectioning(cs, k - 1)
                 || (IsHeading(cs[k - 1]) && HeadingsBefore(cs, k - 1) == 0 && PrevSectioning(cs, k - 1))
    ensures FirstHeadingAfterSectioning(cs, k - 1) ==> HeadingsBefore(cs, k - 1) > 0
  {
    if FirstHeadingAfterSectioning(cs, k - 1) {
      var j :| 0 <= j < k - 1 && IsHeading(cs[j]) && HeadingsBefore(cs, j) == 0 && PrevSectioning(cs, j);
      HeadingsGrow(cs, j + 1, k - 1);
    }
  }

  /** Over outline children, the loop counts the heading children, and counts
      one "heading after a sectioning sibling" exactly when the first heading
      child has a sectioning sibling before it. */
  lemma {:induction false} CheckChildrenCounts(cs: seq<Node>, level: nat, k: nat)
    requires k <= |cs| && OutlineChildren(cs)
    ensures CheckChildren(cs, level, k).headingCount == HeadingsBefore(cs, k)
    ensures CheckChildren(cs, level, k).prevSectioningCount == if FirstHeadingAfterSectioning(cs, k) then 1 else 0
  {
    if k > 0 {
      CheckChildrenCounts(cs, level, k - 1);
      CountsInduct(cs, level, k);
    }
  }

  lemma CountsInduct(cs: seq<Node>, level: nat, k: nat)
    requires 0 < k <= |cs| && IsOutline(cs[k - 1])
    requires CheckChildren(cs, level, k - 1).headingCount == HeadingsBefore(cs, k - 1)
    requires CheckChildren(cs, level, k - 1).prevSectioningCount
             == if FirstHeadingAfterSectioning(cs, k - 1) then 1 else 0
    ensures CheckChildren(cs, level, k).headingCount == HeadingsBefore(cs, k)
    ensures CheckChildren(cs, level, k).prevSectioningCount == if FirstHeadingAfterSectioning(cs, k) then 1 else 0
  {
    CountsStep(cs, level, k);
    FirstHeadingStep(cs, k);
  }

  lemma {:induction false} HeadingsGrow(cs: seq<Node>, k: nat, m: nat)
    requires k <= m <= |cs|
    ensures HeadingsBefore(cs, k) <= HeadingsBefore(cs, m)
    decreases m
  {
    if k < m {
      HeadingsGrow(cs, k, m - 1);
    }
  }

  /** A sectioning element is reported Untitled exactly when it has no heading
      child below level 0, or when its first heading child comes after a
      sectioning sibling; the entry follows those of the nested sections. */
  lemma UntitledIff(n: Node, level: nat)
    requires IsSectioning(n) && OutlineChildren(n.children)
    ensures var cs := n.children;
            CheckOutline(n, level).errors.untitled
            == CheckChildren(cs, level, |cs|).errors.untitled
               + (if (HeadingsBefore(cs, |cs|) == 0 && level > 0) || FirstHeadingAfterSectioning(cs, |cs|)
                  then [n.sourceline] else [])
  {
    CheckChildrenCounts(n.children, level, |n.children|);
  }

  /** A sectioning element is reported for multiple headings exactly when it
      has more than one heading child (headings inside nested sections do not
      count); the entry follows those of the nested sections. */
  lemma MultipleHeadingsIff(n: Node, level: nat)
    requires IsSectioning(n) && OutlineChildren(n.children)
    ensures var cs := n.children;
            CheckOutline(n, level).errors.multipleHeadings
            == CheckChildren(cs, level, |cs|).errors.multipleHeadings
               + (if HeadingsBefore(cs, |cs|) > 1 then [n.sourceline] else [])
  {
    CheckChildrenCounts(n.children, level, |n.children|);
  }

  /** A heading child counts as many times as there are heading children; no
      heading child means the count is zero. */
  lemma HeadingsBeforeZero(cs: seq<Node>, k: nat)
    requires k <= |cs|
    ensures HeadingsBefore(cs, k) == 0 <==> forall j :: 0 <= j < k ==> !IsHeading(cs[j])
  {
    if k > 0 {
      HeadingsBeforeZero(cs, k - 1);
    }
  }

  /** `checkOutline`: the errors of the skeleton checked from level 0. */
  method CheckDocumentOutline(soup: Node) returns (errors: Errors)
    requires soup.Element?
    ensures errors == CheckOutline(Skeleton(soup), 0).errors
  {
    var skeleton := GetOutlineSkeleton(soup);
    errors := CheckOutline(skeleton, 0).errors;
  }

  // ---------------------------------------------------------------------------
  // Formatting (analyseHtmlOutline.py:186-199)

  /** The line numbers as strings, in string order. */
  function SortedLineStrings(lines: seq<nat>): (r: seq<string>)
    ensures multiset(r) == multiset(Map(lines, NatToString))
    ensures SortedBy(r, StrLessEq)
  {
    forall a, b, c ensures StrLessEq(a, b) || StrLessEq(b, a)
                   ensures StrLessEq(a, b) && StrLessEq(b, c) ==> StrLessEq(a, c) {
      StrLessEqTotalPreorder(a, b, c);
    }
    SortBySorted(Map(lines, NatToString), StrLessEq);
    SortBy(Map(lines, NatToString), StrLessEq)
  }

  /** `_formatErrorOutput` */
  function FormatErrorOutput(lines: seq<nat>, errorType: string): (r: string)
    ensures r == "" <==> lines == []
  {
    if lines == [] then ""
    else "\t" + errorType + ": " + Join(SortedLineStrings(lines), "; ") + "\n"
  }

  /** Line numbers are sorted as strings, so line 10 is listed before line 9. */
  lemma FormatSortsAsStrings(errorType: string)
    ensures FormatErrorOutput([9 as nat, 10], errorType) == "\t" + errorType + ": " + "10; 9" + "\n"
  {
    NineTenStrings();
    JoinNineTen();
  }

  lemma JoinNineTen()
    ensures Join(["10", "9"], "; ") == "10; 9"
  {
    var parts := ["10", "9"];
    assert parts[1..] == ["9"];
    assert Join(["9"], "; ") == "9";
    assert "10" + "; " + "9" == "10; 9";
  }

  lemma NineTenStrings()
    ensures SortedLineStrings([9 as nat, 10]) == ["10", "9"]
  {
    var lines: seq<nat> := [9, 10];
    assert NatToString(9) == "9";
    assert NatToString(10) == NatToString(1) + [DigitChar(0)] == "10";
    assert Map(lines, NatToString) == ["9", "10"];
    SortNineTen();
  }

  lemma SortNineTen()
    ensures SortBy(["9", "10"], StrLessEq) == ["10", "9"]
  {
    assert StrLess("10", "9");
    assert Insert("10", [], StrLessEq) == ["10"];
    assert SortBy(["10"], StrLessEq) == ["10"] by {
      assert ["10"][1..] == [];
    }
    assert !StrLessEq("9", "10");
    assert Insert("9", ["10"], StrLessEq) == ["10"] + Insert("9", [], StrLessEq) == ["10", "9"];
    assert ["9", "10"][1..] == ["10"];
  }

  /** `_formatOutlineErrors` */
  function FormatOutlineErrors(errors: Errors): (r: string)
    ensures r == "" <==> errors == NoErrors
  {
    FormatErrorOutput(errors.untitled, "[Outline] Untitled")
    + FormatErrorOutput(errors.levelConflict, "[Outline] Level conflict")
    + FormatErrorOutput(errors.multipleHeadings, "[Outline] Multiple headings")
  }
}
