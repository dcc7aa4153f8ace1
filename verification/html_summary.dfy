/** The tag counts of analyseHtml.py. `_flattenHtmlFile` (analyseHtml.py:58-79)
    counts the elements of a file by name and keeps those counts in a global
    list of `TagInfo` records, so that a file is counted once.
    `_getTagsSummaryOfFile` (analyseHtml.py:88-120) lists a file's counts,
    either all of them or in the order of a (nested) list of tag names, popping
    each listed name from its dictionary so that the "other tags" at the end
    are the names that list did not mention. The `f'{name:<10}{count:>5}'`
    text of a line is not modelled: a line is a name and a count. */
module HtmlSummary {
  import opened Common
  import opened Sorting
  import opened Grouping
  import opened HtmlTree

  // ---------------------------------------------------------------------------
  // Counting the elements of a file (analyseHtml.py:58-79)

  /** A tag name with its count: an item of `Counter(...).items()` or of
      `uniqueTagsSorted`. */
  datatype TagCount = TagCount(name: string, count: nat)

  /** `TagInfo(fileName, name, count)` */
  datatype TagInfo = TagInfo(fileName: string, name: string, count: nat)

  function InfoName(t: TagInfo): string {
    t.name
  }

  function InfoCount(t: TagInfo): nat {
    t.count
  }

  /** One record per key, holding the number of elements with that name. */
  function InfosOf(fileName: string, tags: seq<Node>, keys: seq<string>): (r: seq<TagInfo>)
    ensures |r| == |keys|
    ensures forall i :: 0 <= i < |keys| ==> r[i] == TagInfo(fileName, keys[i], |Select(tags, TagName, keys[i])|)
  {
    if keys == [] then []
    else
      var n := |keys| - 1;
      InfosOf(fileName, tags, keys[..n]) + [TagInfo(fileName, keys[n], |Select(tags, TagName, keys[n])|)]
  }

  lemma InfosOfSnoc(fileName: string, tags: seq<Node>, keys: seq<string>, i: nat)
    requires i < |keys|
    ensures InfosOf(fileName, tags, keys[..i + 1])
            == InfosOf(fileName, tags, keys[..i]) + [TagInfo(fileName, keys[i], |Select(tags, TagName, keys[i])|)]
  {
    assert keys[..i + 1][..i] == keys[..i];
  }

  /** The element names of a document, each once, in ascending order. */
  function SortedTagNames(doc: Node): seq<string> {
    SortBy(FirstSeen(Map(Descendants(doc), TagName)), StrLessEq)
  }

  /** The records `_flattenHtmlFile` adds for a file it has not seen before:
      `sorted(Counter(tag.name for tag in document.select('*')).items())`. */
  function FileTagInfos(fileName: string, doc: Node): seq<TagInfo> {
    InfosOf(fileName, Descendants(doc), SortedTagNames(doc))
  }

  /** The records of a file are in strictly ascending name order, so each name
      has exactly one record. */
  lemma FileTagInfosAscending(fileName: string, doc: Node)
    ensures var r := FileTagInfos(fileName, doc);
      forall i, j :: 0 <= i < j < |r| ==> StrLess(r[i].name, r[j].name)
  {
    var ks := SortedTagNames(doc);
    var r := FileTagInfos(fileName, doc);
    SortStringsAscending(FirstSeen(Map(Descendants(doc), TagName)));
    assert StrictlyAscending(ks);
    forall i, j | 0 <= i < j < |r| ensures StrLess(r[i].name, r[j].name) {
      assert r[i].name == ks[i] && r[j].name == ks[j];
    }
  }

  /** Every record belongs to the file and counts at least one element, and
      every element of the document is counted under its name. */
  lemma FileTagInfosCounts(fileName: string, doc: Node)
    ensures var r := FileTagInfos(fileName, doc);
      && (forall i :: 0 <= i < |r| ==> r[i].fileName == fileName && r[i].count > 0)
      && (forall e :: e in Descendants(doc) ==> exists i :: 0 <= i < |r| && r[i].name == e.name)
  {
    var ds := Descendants(doc);
    var names := Map(ds, TagName);
    SortByMembership(FirstSeen(names), StrLessEq);
    forall k | k in SortedTagNames(doc) ensures |Select(ds, TagName, k)| > 0 {
      NameCounted(ds, k);
    }
    forall e | e in ds ensures TagName(e) in SortedTagNames(doc) {
      NameListed(ds, e);
    }
    InfosNamed(fileName, ds, SortedTagNames(doc));
  }

  /** A name among the first-seen names is the name of some element. */
  lemma NameCounted(ds: seq<Node>, k: string)
    requires k in FirstSeen(Map(ds, TagName))
    ensures |Select(ds, TagName, k)| > 0
  {
    var names := Map(ds, TagName);
    FirstSeenMembership(names, k);
    var j :| 0 <= j < |names| && names[j] == k;
    SelectMembership(ds, TagName, k, ds[j]);
  }

  /** Every element's name is among the first-seen names. */
  lemma NameListed(ds: seq<Node>, e: Node)
    requires e in ds
    ensures TagName(e) in FirstSeen(Map(ds, TagName))
  {
    var names := Map(ds, TagName);
    var j :| 0 <= j < |ds| && ds[j] == e;
    assert names[j] == TagName(e);
    FirstSeenMembership(names, TagName(e));
  }

  /** The records of `keys` carry the file name, a count for each key present
      and a record for each key. */
  lemma InfosNamed(fileName: string, ds: seq<Node>, keys: seq<string>)
    requires forall k :: k in keys ==> |Select(ds, TagName, k)| > 0
    requires forall e :: e in ds ==> TagName(e) in keys
    ensures var r := InfosOf(fileName, ds, keys);
      && (forall i :: 0 <= i < |r| ==> r[i].fileName == fileName && r[i].count > 0)
      && (forall e :: e in ds ==> exists i :: 0 <= i < |r| && r[i].name == TagName(e))
  {
    var r := InfosOf(fileName, ds, keys);
    forall i | 0 <= i < |r| ensures r[i].count > 0 {
      assert keys[i] in keys;
    }
    forall e | e in ds ensures exists i :: 0 <= i < |r| && r[i].name == TagName(e) {
      var i :| 0 <= i < |keys| && keys[i] == TagName(e);
      assert r[i].name == TagName(e);
    }
  }

  lemma {:induction false} InfosTotal(fileName: string, tags: seq<Node>, keys: seq<string>)
    ensures Total(InfosOf(fileName, tags, keys), InfoCount) == SumSizes(keys, tags, TagName)
  {
    if keys != [] {
      var n := |keys| - 1;
      InfosTotal(fileName, tags, keys[..n]);
      TotalSnoc(InfosOf(fileName, tags, keys[..n]), TagInfo(fileName, keys[n], |Select(tags, TagName, keys[n])|), InfoCount);
    }
  }

  /** The counts of a file add up to the number of its elements. */
  lemma FileTagInfosSum(fileName: string, doc: Node)
    ensures Total(FileTagInfos(fileName, doc), InfoCount) == |Descendants(doc)|
  {
    var ds := Descendants(doc);
    var names := Map(ds, TagName);
    var fs := FirstSeen(names);
    var ks := SortedTagNames(doc);
    DistinctPermutation(fs, ks);
    forall i | 0 <= i < |ds| ensures TagName(ds[i]) in ks {
      assert names[i] == TagName(ds[i]);
      FirstSeenMembership(names, TagName(ds[i]));
      assert TagName(ds[i]) in multiset(fs);
    }
    SumSizesCover(ks, ds, TagName);
    InfosTotal(fileName, ds, ks);
  }

  function InFile(fileName: string): TagInfo -> bool {
    (t: TagInfo) => t.fileName == fileName
  }

  /** The records kept for each flattened file are the counts of the document
      it was parsed into, and no record belongs to a file not flattened. */
  ghost predicate CacheInvariant(entries: seq<TagInfo>, docs: map<string, Node>) {
    FilesCached(entries, docs) && EntriesFiled(entries, docs)
  }

  /** Each flattened file's records are its tag counts. */
  ghost predicate FilesCached(entries: seq<TagInfo>, docs: map<string, Node>) {
    forall f :: f in docs ==> Filter(entries, InFile(f)) == FileTagInfos(f, docs[f])
  }

  /** Every record belongs to a flattened file. */
  ghost predicate EntriesFiled(entries: seq<TagInfo>, docs: map<string, Node>) {
    forall i :: 0 <= i < |entries| ==> entries[i].fileName in docs
  }

  /** Records of file `fileName` appended to the list add to its records and
      to no other file's. */
  lemma FilterFileAppend(entries: seq<TagInfo>, infos: seq<TagInfo>, fileName: string, f: string)
    requires forall i :: 0 <= i < |infos| ==> infos[i].fileName == fileName
    ensures Filter(entries + infos, InFile(f))
            == Filter(entries, InFile(f)) + (if f == fileName then infos else [])
  {
    FilterAppend(entries, infos, InFile(f));
    if f == fileName {
      FilterAll(infos, InFile(f));
    } else {
      FilterNone(infos, InFile(f));
    }
  }

  /** Appending the records of a file that has none yet keeps the invariant. */
  lemma CacheAppend(entries: seq<TagInfo>, docs: map<string, Node>, fileName: string, doc: Node)
    requires CacheInvariant(entries, docs)
    requires Filter(entries, InFile(fileName)) == []
    requires fileName in docs ==> docs[fileName] == doc
    ensures CacheInvariant(entries + FileTagInfos(fileName, doc), docs[fileName := doc])
    ensures fileName in docs ==> FileTagInfos(fileName, doc) == []
  {
    FileTagInfosCounts(fileName, doc);
    CacheAppendFiles(entries, docs, fileName, doc);
    CacheAppendFiled(entries, docs, fileName, FileTagInfos(fileName, doc), doc);
  }

  lemma CacheAppendFiles(entries: seq<TagInfo>, docs: map<string, Node>, fileName: string, doc: Node)
    requires FilesCached(entries, docs)
    requires Filter(entries, InFile(fileName)) == []
    requires fileName in docs ==> docs[fileName] == doc
    requires forall i :: 0 <= i < |FileTagInfos(fileName, doc)| ==> FileTagInfos(fileName, doc)[i].fileName == fileName
    ensures FilesCached(entries + FileTagInfos(fileName, doc), docs[fileName := doc])
  {
    var infos := FileTagInfos(fileName, doc);
    var docs' := docs[fileName := doc];
    forall f | f in docs' ensures Filter(entries + infos, InFile(f)) == FileTagInfos(f, docs'[f]) {
      FilterFileAppend(entries, infos, fileName, f);
    }
  }

  lemma CacheAppendFiled(entries: seq<TagInfo>, docs: map<string, Node>, fileName: string, infos: seq<TagInfo>, doc: Node)
    requires EntriesFiled(entries, docs)
    requires forall i :: 0 <= i < |infos| ==> infos[i].fileName == fileName
    ensures EntriesFiled(entries + infos, docs[fileName := doc])
  {
    forall i | 0 <= i < |entries + infos| ensures (entries + infos)[i].fileName in docs[fileName := doc] {
      if i >= |entries| {
        assert (entries + infos)[i] == infos[i - |entries|];
      }
    }
  }

  /** A file with records is a flattened file, and its records are its counts. */
  lemma CacheHit(entries: seq<TagInfo>, docs: map<string, Node>, fileName: string, doc: Node)
    requires CacheInvariant(entries, docs)
    requires fileName in docs ==> docs[fileName] == doc
    requires Filter(entries, InFile(fileName)) != []
    ensures fileName in docs && docs[fileName := doc] == docs
    ensures Filter(entries, InFile(fileName)) == FileTagInfos(fileName, doc)
  {
    var r := Filter(entries, InFile(fileName));
    assert r[0] in r;
    FilterMembership(entries, InFile(fileName), r[0]);
  }

  /** One call of `_flattenHtmlFile`: either the file's records were found in
      the list, or its counts were appended to it. */
  lemma FlattenStep(entries: seq<TagInfo>, docs: map<string, Node>, fileName: string, doc: Node,
                    found: bool, r: seq<TagInfo>, entries': seq<TagInfo>)
    requires CacheInvariant(entries, docs)
    requires fileName in docs ==> docs[fileName] == doc
    requires found <==> Filter(entries, InFile(fileName)) != []
    requires found ==> r == Filter(entries, InFile(fileName)) && entries' == entries
    requires !found ==> r == FileTagInfos(fileName, doc) && entries' == entries + r
    ensures CacheInvariant(entries', docs[fileName := doc])
    ensures r == FileTagInfos(fileName, doc)
    ensures fileName in docs ==> entries' == entries
    ensures fileName !in docs ==> entries' == entries + r
  {
    if found {
      CacheHit(entries, docs, fileName, doc);
    } else {
      CacheAppend(entries, docs, fileName, doc);
      if fileName in docs {
        assert entries + [] == entries;
      }
    }
  }

  /** The first loop of `_flattenHtmlFile`: the records already kept for a file. */
  method Collect(entries: seq<TagInfo>, fileName: string) returns (r: seq<TagInfo>)
    ensures r == Filter(entries, InFile(fileName))
  {
    r := [];
    for i := 0 to |entries|
      invariant r == Filter(entries[..i], InFile(fileName))
    {
      FilterSnoc(entries, i, InFile(fileName));
      if entries[i].fileName == fileName {
        r := r + [entries[i]];
      }
    }
    assert entries[..|entries|] == entries;
  }

  /** The global `flatmapHtmlFiles`, with (ghost) the document each flattened
      file was parsed into. */
  class FlatCache {
    var entries: seq<TagInfo>
    ghost var docs: map<string, Node>

    ghost predicate Valid()
      reads this
    {
      CacheInvariant(entries, docs)
    }

    constructor ()
      ensures Valid()
      ensures entries == [] && docs == map[]
    {
      entries := [];
      docs := map[];
    }

    /** `_flattenHtmlFile`: the records of a file flattened before, or else the
        counts of its document, appended to the global list. The parse cache
        hands out the same document for the same file, hence the second
        requires. */
    method Flatten(fileName: string, doc: Node) returns (r: seq<TagInfo>)
      requires Valid()
      requires fileName in docs ==> docs[fileName] == doc
      modifies this
      ensures Valid()
      ensures docs == old(docs)[fileName := doc]
      ensures r == FileTagInfos(fileName, doc)
      ensures fileName in old(docs) ==> entries == old(entries)
      ensures fileName !in old(docs) ==> entries == old(entries) + r
    {
      ghost var before := entries;
      r := Collect(entries, fileName);
      var found := r != [];
      if !found {
        r := AppendCounts(fileName, doc);
      }
      FlattenStep(before, docs, fileName, doc, found, r, entries);
      docs := docs[fileName := doc];
    }

    /** The second loop of `_flattenHtmlFile`: a record for each counted
        name, appended to the global list as it is to the result. */
    method AppendCounts(fileName: string, doc: Node) returns (r: seq<TagInfo>)
      modifies this
      ensures r == FileTagInfos(fileName, doc)
      ensures entries == old(entries) + r
      ensures docs == old(docs)
    {
      var counted := CountNames(doc);
      ghost var ds, ks := Descendants(doc), SortedTagNames(doc);
      ghost var before := entries;
      r := [];
      for i := 0 to |counted|
        invariant r == InfosOf(fileName, ds, ks[..i])
        invariant entries == before + r
        invariant docs == old(docs)
      {
        InfosOfSnoc(fileName, ds, ks, i);
        var info := TagInfo(fileName, counted[i].name, counted[i].count);
        assert info == TagInfo(fileName, ks[i], |Select(ds, TagName, ks[i])|);
        entries := entries + [info];
        r := r + [info];
      }
      assert ks[..|ks|] == ks;
    }
  }

  /** `sorted(Counter([tag.name for tag in document.select('*')]).items(), key=name)` */
  method CountNames(doc: Node) returns (counted: seq<TagCount>)
    ensures |counted| == |SortedTagNames(doc)|
    ensures forall i :: 0 <= i < |counted| ==>
      counted[i] == TagCount(SortedTagNames(doc)[i], |Select(Descendants(doc), TagName, SortedTagNames(doc)[i])|)
  {
    var ds := Descendants(doc);
    var keys, counts := Tally(ds, TagName);
    var sorted := SortBy(keys, StrLessEq);
    SortByMembership(keys, StrLessEq);
    counted := CountsLoop(ds, sorted, counts);
  }

  /** The items of the sorted counter, one entry per name. */
  method CountsLoop(ds: seq<Node>, keys: seq<string>, counts: map<string, nat>) returns (counted: seq<TagCount>)
    requires forall k :: k in keys ==> k in counts && counts[k] == |Select(ds, TagName, k)|
    ensures |counted| == |keys|
    ensures forall i :: 0 <= i < |keys| ==> counted[i] == TagCount(keys[i], |Select(ds, TagName, keys[i])|)
  {
    counted := [];
    for i := 0 to |keys|
      invariant |counted| == i
      invariant forall j :: 0 <= j < i ==> counted[j] == TagCount(keys[j], |Select(ds, TagName, keys[j])|)
    {
      counted := counted + [TagCount(keys[i], counts[keys[i]])];
    }
  }

  // ---------------------------------------------------------------------------
  // The summary of one file (analyseHtml.py:88-120)

  function ToCount(t: TagInfo): TagCount {
    TagCount(t.name, t.count)
  }

  /** The summed count of each key. */
  function TotalsOf(infos: seq<TagInfo>, keys: seq<string>): (r: seq<TagCount>)
    ensures |r| == |keys|
    ensures forall i :: 0 <= i < |keys| ==> r[i] == TagCount(keys[i], Total(Select(infos, InfoName, keys[i]), InfoCount))
  {
    if keys == [] then []
    else
      var n := |keys| - 1;
      TotalsOf(infos, keys[..n]) + [TagCount(keys[n], Total(Select(infos, InfoName, keys[n]), InfoCount))]
  }

  lemma TotalsOfSnoc(infos: seq<TagInfo>, keys: seq<string>, i: nat)
    requires i < |keys|
    ensures TotalsOf(infos, keys[..i + 1])
            == TotalsOf(infos, keys[..i]) + [TagCount(keys[i], Total(Select(infos, InfoName, keys[i]), InfoCount))]
  {
    assert keys[..i + 1][..i] == keys[..i];
  }

  /** `uniqueTagsSorted`: the counts of the records summed per name, in
      ascending name order. */
  function Totals(infos: seq<TagInfo>): seq<TagCount> {
    TotalsOf(infos, SortBy(FirstSeen(Map(infos, InfoName)), StrLessEq))
  }

  predicate Ascending(cs: seq<TagCount>) {
    forall i, j :: 0 <= i < j < |cs| ==> StrLess(cs[i].name, cs[j].name)
  }

  /** The dictionary is in strictly ascending name order. */
  lemma TotalsAscending(infos: seq<TagInfo>)
    ensures Ascending(Totals(infos))
  {
    var ks := SortBy(FirstSeen(Map(infos, InfoName)), StrLessEq);
    var r := Totals(infos);
    SortStringsAscending(FirstSeen(Map(infos, InfoName)));
    assert StrictlyAscending(ks);
    forall i, j | 0 <= i < j < |r| ensures StrLess(r[i].name, r[j].name) {
      assert r[i].name == ks[i] && r[j].name == ks[j];
    }
  }

  /** For the records of one file the sums are that file's counts. */
  lemma TotalsOfFile(fileName: string, doc: Node)
    ensures Totals(FileTagInfos(fileName, doc)) == Map(FileTagInfos(fileName, doc), ToCount)
  {
    var infos := FileTagInfos(fileName, doc);
    FileTagInfosAscending(fileName, doc);
    TotalsOfAscending(infos);
  }

  /** Records already in strictly ascending name order are their own sums. */
  lemma TotalsOfAscending(infos: seq<TagInfo>)
    requires forall i, j :: 0 <= i < j < |infos| ==> StrLess(infos[i].name, infos[j].name)
    ensures Totals(infos) == Map(infos, ToCount)
  {
    var names := Map(infos, InfoName);
    AscendingKeys(names);
    TotalsOfDistinct(infos);
  }

  /** Strictly ascending names are distinct and sort to themselves. */
  lemma AscendingKeys(names: seq<string>)
    requires forall i, j :: 0 <= i < j < |names| ==> StrLess(names[i], names[j])
    ensures Distinct(names) && SortBy(FirstSeen(names), StrLessEq) == names
  {
    forall i, j | 0 <= i < j < |names| ensures names[i] != names[j] && StrLessEq(names[i], names[j]) {
      StrLessTrichotomy(names[i], names[j]);
    }
    FirstSeenDistinct(names);
    SortBySortedInput(names, StrLessEq);
  }

  /** Summing records with distinct names, in their own order, keeps each count. */
  lemma TotalsOfDistinct(infos: seq<TagInfo>)
    requires Distinct(Map(infos, InfoName))
    ensures TotalsOf(infos, Map(infos, InfoName)) == Map(infos, ToCount)
  {
    var names := Map(infos, InfoName);
    var r := TotalsOf(infos, names);
    forall i | 0 <= i < |infos| ensures r[i] == ToCount(infos[i]) {
      assert names[i] == infos[i].name;
      SelectDistinctKey(infos, InfoName, i);
      TotalSingle(infos[i], InfoCount);
    }
  }

  /** The loop summing the records per name, then `sorted(uniqueTags.items())`. */
  method SumByName(infos: seq<TagInfo>) returns (totals: seq<TagCount>)
    ensures totals == Totals(infos)
  {
    var keys, sums := TallySum(infos, InfoName, InfoCount);
    var sorted := SortBy(keys, StrLessEq);
    SortByMembership(keys, StrLessEq);
    totals := TotalsLoop(infos, sorted, sums);
  }

  /** The items of the sorted dictionary, one entry per key. */
  method TotalsLoop(infos: seq<TagInfo>, keys: seq<string>, sums: map<string, nat>) returns (totals: seq<TagCount>)
    requires forall k :: k in keys ==> k in sums && sums[k] == Total(Select(infos, InfoName, k), InfoCount)
    ensures totals == TotalsOf(infos, keys)
  {
    totals := [];
    for i := 0 to |keys|
      invariant totals == TotalsOf(infos, keys[..i])
    {
      TotalsOfSnoc(infos, keys, i);
      totals := totals + [TagCount(keys[i], sums[keys[i]])];
    }
    assert keys[..|keys|] == keys;
  }

  /** An entry of the `tags` parameter: a tag name or a nested list. */
  datatype TagItem = Tag(name: string) | Group(items: seq<TagItem>)

  /** A line of the summary: `''`, or a tag name with its count. */
  datatype SummaryLine = Blank | TagLine(name: string, count: nat)

  function LineOf(c: TagCount): SummaryLine {
    TagLine(c.name, c.count)
  }

  /** The count of the first entry named `t`, if there is one. */
  function CountOf(cs: seq<TagCount>, t: string): (r: Option<nat>)
    ensures r.Some? <==> exists i :: 0 <= i < |cs| && cs[i].name == t
    ensures r.Some? ==> TagCount(t, r.value) in cs
  {
    if cs == [] then None
    else if cs[0].name == t then Some(cs[0].count)
    else
      var r := CountOf(cs[1..], t);
      assert forall i :: 0 < i < |cs| ==> cs[i] == cs[1..][i - 1];
      r
  }

  /** `uniqueTagsSorted.pop(t)`: the entries without the first one named `t`. */
  function RemoveFirst(cs: seq<TagCount>, t: string): seq<TagCount> {
    if cs == [] then []
    else if cs[0].name == t then cs[1..]
    else [cs[0]] + RemoveFirst(cs[1..], t)
  }

  /** The summary of a file for the names `tags`: all counts when there are
      none, otherwise the lines of the listed names followed, when
      `includeOther` holds, by `''` and the counts of the names left over. */
  function Summary(totals: seq<TagCount>, tags: seq<TagItem>, includeOther: bool): seq<SummaryLine>
    decreases tags, 2
  {
    if tags == [] then Map(totals, LineOf)
    else
      var w := Walk(totals, tags, totals);
      if includeOther then w.0 + [Blank] + Map(w.1, LineOf) else w.0
  }

  /** The lines for `items` and what is left of the dictionary `rem`. */
  function Walk(totals: seq<TagCount>, items: seq<TagItem>, rem: seq<TagCount>): (seq<SummaryLine>, seq<TagCount>)
    decreases items, 1
  {
    if items == [] then ([], rem)
    else
      var s := Step(totals, items[0], rem);
      var w := Walk(totals, items[1..], s.1);
      (s.0 + w.0, w.1)
  }

  /** One item: a nested list is summarised on its own, from a fresh
      dictionary and without other tags, then followed by `''`; a name found in
      the dictionary gives its line and is popped, a name not found gives
      nothing. */
  function Step(totals: seq<TagCount>, item: TagItem, rem: seq<TagCount>): (seq<SummaryLine>, seq<TagCount>)
    decreases item, 0
  {
    match item
    case Group(sub) => (Summary(totals, sub, false) + [Blank], rem)
    case Tag(t) =>
      match CountOf(rem, t)
      case Some(n) => ([TagLine(t, n)], RemoveFirst(rem, t))
      case None => ([], rem)
  }

  /** The tag names listed at the top level of `items`. */
  function Mentioned(items: seq<TagItem>): (r: seq<string>)
    ensures forall t :: t in r <==> Tag(t) in items
  {
    if items == [] then []
    else
      var r := (if items[0].Tag? then [items[0].name] else []) + Mentioned(items[1..]);
      assert forall x :: x in items <==> x == items[0] || x in items[1..];
      r
  }

  // ---------------------------------------------------------------------------
  // Properties of the summary

  /** Popping a name from an ascending dictionary removes that entry alone. */
  lemma {:induction false} RemoveFirstAscending(cs: seq<TagCount>, t: string)
    requires Ascending(cs)
    ensures Ascending(RemoveFirst(cs, t))
    ensures forall c :: c in RemoveFirst(cs, t) <==> c in cs && c.name != t
  {
    if cs != [] {
      assert forall c :: c in cs <==> c == cs[0] || c in cs[1..];
      forall j | 0 < j < |cs| ensures cs[j].name != cs[0].name {
        StrLessIrreflexive(cs[0].name);
      }
      if cs[0].name != t {
        RemoveFirstAscending(cs[1..], t);
        var r := RemoveFirst(cs, t);
        forall i, j | 0 <= i < j < |r| ensures StrLess(r[i].name, r[j].name) {
          if i == 0 {
            assert r[j] in RemoveFirst(cs[1..], t);
          }
        }
      }
    }
  }

  /** In an ascending dictionary the count of a listed entry is found by name. */
  lemma {:induction false} CountOfMember(cs: seq<TagCount>, c: TagCount)
    requires Ascending(cs)
    requires c in cs
    ensures CountOf(cs, c.name) == Some(c.count)
  {
    if cs[0] != c {
      StrLessIrreflexive(cs[0].name);
      assert c in cs[1..];
      CountOfMember(cs[1..], c);
      var k :| 0 <= k < |cs[1..]| && cs[1..][k] == c;
      assert cs[0].name != c.name by {
        assert StrLess(cs[0].name, cs[k + 1].name);
      }
    }
  }

  /** The entries left after the items of one level are exactly those whose
      name that level did not mention (nested lists use a dictionary of their
      own), still in ascending order. */
  lemma {:induction false} WalkRemaining(totals: seq<TagCount>, items: seq<TagItem>, rem: seq<TagCount>)
    requires Ascending(rem)
    ensures Ascending(Walk(totals, items, rem).1)
    ensures forall c :: c in Walk(totals, items, rem).1 <==> c in rem && c.name !in Mentioned(items)
  {
    if items != [] {
      var s := Step(totals, items[0], rem);
      if items[0].Tag? {
        RemoveFirstAscending(rem, items[0].name);
        if CountOf(rem, items[0].name).None? {
          forall c | c in rem ensures c.name != items[0].name { }
        }
      }
      WalkRemaining(totals, items[1..], s.1);
    }
  }

  /** A name listed at the top level whose entry is still in the dictionary
      gets a line with its count. */
  lemma {:induction false} WalkReports(totals: seq<TagCount>, items: seq<TagItem>, rem: seq<TagCount>, c: TagCount)
    requires Ascending(rem)
    requires c in rem
    requires c.name in Mentioned(items)
    ensures LineOf(c) in Walk(totals, items, rem).0
  {
    var s := Step(totals, items[0], rem);
    if items[0] == Tag(c.name) {
      CountOfMember(rem, c);
    } else {
      if items[0].Tag? {
        RemoveFirstAscending(rem, items[0].name);
      }
      WalkReports(totals, items[1..], s.1, c);
    }
  }

  /** With `includeOtherTags` (or without a tag list) every count of the file
      appears in the summary. */
  lemma SummaryComplete(totals: seq<TagCount>, tags: seq<TagItem>, c: TagCount)
    requires Ascending(totals)
    requires c in totals
    ensures LineOf(c) in Summary(totals, tags, true)
  {
    if tags != [] {
      var w := Walk(totals, tags, totals);
      if c.name in Mentioned(tags) {
        WalkReports(totals, tags, totals, c);
      } else {
        WalkRemaining(totals, tags, totals);
        assert LineOf(c) in Map(w.1, LineOf);
      }
    }
  }

  /** Every line with a count reports a count of the file: the summary never
      invents a tag or a number. */
  lemma {:induction false} SummarySound(totals: seq<TagCount>, tags: seq<TagItem>, includeOther: bool)
    ensures forall n, k :: TagLine(n, k) in Summary(totals, tags, includeOther) ==> TagCount(n, k) in totals
    decreases tags, 2
  {
    if tags != [] {
      WalkSound(totals, tags, totals);
    }
  }

  lemma {:induction false} WalkSound(totals: seq<TagCount>, items: seq<TagItem>, rem: seq<TagCount>)
    requires forall c :: c in rem ==> c in totals
    ensures forall n, k :: TagLine(n, k) in Walk(totals, items, rem).0 ==> TagCount(n, k) in totals
    ensures forall c :: c in Walk(totals, items, rem).1 ==> c in totals
    decreases items, 1
  {
    if items != [] {
      StepSound(totals, items[0], rem);
      WalkSound(totals, items[1..], Step(totals, items[0], rem).1);
    }
  }

  lemma {:induction false} StepSound(totals: seq<TagCount>, item: TagItem, rem: seq<TagCount>)
    requires forall c :: c in rem ==> c in totals
    ensures forall n, k :: TagLine(n, k) in Step(totals, item, rem).0 ==> TagCount(n, k) in totals
    ensures forall c :: c in Step(totals, item, rem).1 ==> c in totals
    decreases item, 0
  {
    match item
    case Group(sub) =>
      SummarySound(totals, sub, false);
    case Tag(t) =>
      RemoveFirstSubset(rem, t);
  }

  lemma {:induction false} RemoveFirstSubset(cs: seq<TagCount>, t: string)
    ensures forall c :: c in RemoveFirst(cs, t) ==> c in cs
  {
    if cs != [] && cs[0].name != t {
      RemoveFirstSubset(cs[1..], t);
    }
  }

  // ---------------------------------------------------------------------------
  // The summary as the source computes it

  /** `for key,val in uniqueTagsSorted.items(): if tagName == key: ... pop ... break` */
  method PopTag(rem: seq<TagCount>, t: string) returns (found: Option<nat>, rest: seq<TagCount>)
    ensures found == CountOf(rem, t)
    ensures rest == RemoveFirst(rem, t)
  {
    var i := 0;
    while i < |rem| && rem[i].name != t
      invariant 0 <= i <= |rem|
      invariant forall j :: 0 <= j < i ==> rem[j].name != t
    {
      i := i + 1;
    }
    if i < |rem| {
      PopFound(rem, t, i);
      found, rest := Some(rem[i].count), rem[..i] + rem[i + 1..];
    } else {
      PopMissing(rem, t);
      found, rest := None, rem;
    }
  }

  lemma {:induction false} PopFound(cs: seq<TagCount>, t: string, i: nat)
    requires i < |cs|
    requires forall j :: 0 <= j < i ==> cs[j].name != t
    requires cs[i].name == t
    ensures CountOf(cs, t) == Some(cs[i].count)
    ensures RemoveFirst(cs, t) == cs[..i] + cs[i + 1..]
  {
    if i == 0 {
      assert cs[..0] + cs[1..] == cs[1..];
    } else {
      var tl := cs[1..];
      PopFound(tl, t, i - 1);
      assert tl[..i - 1] == cs[1..i];
      assert tl[i..] == cs[i + 1..];
      assert cs[..i] == [cs[0]] + cs[1..i];
    }
  }

  lemma {:induction false} PopMissing(cs: seq<TagCount>, t: string)
    requires forall j :: 0 <= j < |cs| ==> cs[j].name != t
    ensures RemoveFirst(cs, t) == cs
  {
    if cs != [] {
      PopMissing(cs[1..], t);
      assert cs == [cs[0]] + cs[1..];
    }
  }

  /** `for key,val in uniqueTagsSorted.items(): results.append(...)` */
  method AppendLines(lines: seq<SummaryLine>, cs: seq<TagCount>) returns (r: seq<SummaryLine>)
    ensures r == lines + Map(cs, LineOf)
  {
    r := lines;
    for i := 0 to |cs|
      invariant r == lines + Map(cs[..i], LineOf)
    {
      MapPrefix(cs, i, LineOf);
      r := r + [LineOf(cs[i])];
    }
    assert cs[..|cs|] == cs;
  }

  lemma WalkUnfold(totals: seq<TagCount>, items: seq<TagItem>, i: nat, rem: seq<TagCount>)
    requires i < |items|
    ensures var s := Step(totals, items[i], rem);
      var w := Walk(totals, items[i + 1..], s.1);
      Walk(totals, items[i..], rem) == (s.0 + w.0, w.1)
  {
    assert items[i..][0] == items[i] && items[i..][1..] == items[i + 1..];
  }

  /** `_getTagsSummaryOfFile(htmlFile, tags, includeOtherTags)`, given the
      records `_flattenHtmlFile` returns for the file. */
  method TagsSummaryOfFile(infos: seq<TagInfo>, tags: seq<TagItem>, includeOther: bool) returns (lines: seq<SummaryLine>)
    ensures lines == Summary(Totals(infos), tags, includeOther)
    decreases tags, 2
  {
    var totals := SumByName(infos);
    if tags == [] {
      lines := AppendLines([], totals);
    } else {
      var rem;
      lines, rem := WalkTags(infos, totals, tags);
      if includeOther {
        lines := AppendLines(lines + [Blank], rem);
      }
    }
  }

  /** The loop over the items of `tags`, popping from the dictionary. */
  method WalkTags(infos: seq<TagInfo>, totals: seq<TagCount>, tags: seq<TagItem>) returns (lines: seq<SummaryLine>, rem: seq<TagCount>)
    requires totals == Totals(infos)
    ensures (lines, rem) == Walk(totals, tags, totals)
    decreases tags, 1
  {
    ghost var full := Walk(totals, tags, totals);
    rem := totals;
    lines := [];
    for i := 0 to |tags|
      invariant lines + Walk(totals, tags[i..], rem).0 == full.0
      invariant Walk(totals, tags[i..], rem).1 == full.1
    {
      WalkUnfold(totals, tags, i, rem);
      var out, rest := SummaryStep(infos, totals, tags[i], rem);
      lines := lines + out;
      rem := rest;
    }
    assert tags[|tags|..] == [];
    assert Walk(totals, tags[|tags|..], rem) == ([], rem);
    assert lines == full.0 && rem == full.1;
  }

  /** The body of the loop over `tags`. */
  method SummaryStep(infos: seq<TagInfo>, totals: seq<TagCount>, item: TagItem, rem: seq<TagCount>)
    returns (out: seq<SummaryLine>, rest: seq<TagCount>)
    requires totals == Totals(infos)
    ensures (out, rest) == Step(totals, item, rem)
    decreases item, 0
  {
    match item
    case Group(sub) =>
      var inner := TagsSummaryOfFile(infos, sub, false);
      out, rest := inner + [Blank], rem;
    case Tag(t) =>
      var found, popped := PopTag(rem, t);
      if found.Some? {
        out, rest := [TagLine(t, found.value)], popped;
      } else {
        out, rest := [], rem;
      }
  }
}
