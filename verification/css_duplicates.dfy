/** The duplicate check of the CSS analyser (`_getUniqueIdentifier` and
    `_checkCssDuplicates`, analyseCss.py:54-92): every flattened property gets a
    key built from the requested fields, the properties are grouped by key, the
    groups are sorted by size or by key, and every group of at least the
    minimum size is reported with its size and its count per file. */
module CssDuplicates {
  import opened Common
  import opened Sorting
  import opened Grouping
  import opened CssSheet

  /** `_getUniqueIdentifier`: the property name, then the value (after a colon
      when the name is there too), then the selector around what was built. */
  function UniqueIdentifier(p: PropertyInfo, uniqueness: seq<string>): string {
    var byProperty := if "property" in uniqueness then p.property else "";
    var byValue := if "value" in uniqueness then (if "property" in uniqueness then byProperty + ":" + p.value else p.value)
                   else byProperty;
    if "selector" in uniqueness then (if |byValue| == 0 then p.selector else p.selector + "{" + byValue + "}")
    else byValue
  }

  /** The shapes of the key for the field lists the analyser asks for. */
  lemma UniqueIdentifierForms(p: PropertyInfo, u: seq<string>)
    ensures "selector" in u && "property" in u && "value" in u ==>
              UniqueIdentifier(p, u) == p.selector + "{" + p.property + ":" + p.value + "}"
    ensures "selector" !in u && "property" in u && "value" in u ==>
              UniqueIdentifier(p, u) == p.property + ":" + p.value
    ensures "selector" !in u && "property" in u && "value" !in u ==>
              UniqueIdentifier(p, u) == p.property
    ensures "selector" in u && "value" !in u && ("property" !in u || p.property == "") ==>
              UniqueIdentifier(p, u) == p.selector
  {
  }

  /** Two strings cut at the first occurrence of the same mark agree on both
      sides of it. */
  lemma SplitAtMark(a: string, x: string, b: string, y: string, c: char)
    requires c !in a && c !in b
    requires a + [c] + x == b + [c] + y
    ensures a == b && x == y
  {
    var s := a + [c] + x;
    MarkAt(a, x, c);
    MarkAt(b, y, c);
    assert |a| == |b|;
    assert a == s[..|a|] && b == s[..|b|];
    assert x == s[|a| + 1..] && y == s[|b| + 1..];
  }

  /** In `a + [c] + x` with no `c` in `a`, the first `c` is at `|a|`. */
  lemma MarkAt(a: string, x: string, c: char)
    requires c !in a
    ensures (a + [c] + x)[|a|] == c
    ensures forall i :: 0 <= i < |a| ==> (a + [c] + x)[i] != c
  {
    assert forall i :: 0 <= i < |a| ==> (a + [c] + x)[i] == a[i];
  }

  /** On the property level, two properties share a key exactly when they have
      the same name and the same value (property names hold no colon). */
  lemma PropertyLevelKeys(p: PropertyInfo, q: PropertyInfo, u: seq<string>)
    requires "selector" !in u && "property" in u && "value" in u
    requires ':' !in p.property && ':' !in q.property
    ensures UniqueIdentifier(p, u) == UniqueIdentifier(q, u) <==> p.property == q.property && p.value == q.value
  {
    UniqueIdentifierForms(p, u);
    UniqueIdentifierForms(q, u);
    if UniqueIdentifier(p, u) == UniqueIdentifier(q, u) {
      SplitAtMark(p.property, p.value, q.property, q.value, ':');
    }
  }

  /** On the selector level, two properties share a key exactly when they have
      the same selector, name and value (selectors hold no brace). */
  lemma SelectorLevelKeys(p: PropertyInfo, q: PropertyInfo, u: seq<string>)
    requires "selector" in u && "property" in u && "value" in u
    requires '{' !in p.selector && '{' !in q.selector && ':' !in p.property && ':' !in q.property
    ensures UniqueIdentifier(p, u) == UniqueIdentifier(q, u) <==>
              p.selector == q.selector && p.property == q.property && p.value == q.value
  {
    UniqueIdentifierForms(p, u);
    UniqueIdentifierForms(q, u);
    if UniqueIdentifier(p, u) == UniqueIdentifier(q, u) {
      var x, y := p.property + ":" + p.value + "}", q.property + ":" + q.value + "}";
      assert p.selector + "{" + p.property + ":" + p.value + "}" == p.selector + ['{'] + x;
      assert q.selector + "{" + q.property + ":" + q.value + "}" == q.selector + ['{'] + y;
      SplitAtMark(p.selector, x, q.selector, y, '{');
      assert x[..|x| - 1] == p.property + ":" + p.value;
      assert y[..|y| - 1] == q.property + ":" + q.value;
      SplitAtMark(p.property, p.value, q.property, q.value, ':');
    }
  }

  function KeyOf(u: seq<string>): PropertyInfo -> string {
    p => UniqueIdentifier(p, u)
  }

  /** A dictionary value `[count, records]`. */
  datatype Group = Group(count: nat, records: seq<PropertyInfo>)

  /** The group of key `k` once all of `flat` is seen: the properties with that
      key, and how many there are. */
  function GroupOf(flat: seq<PropertyInfo>, u: seq<string>, k: string): Group {
    Group(|Select(flat, KeyOf(u), k)|, Select(flat, KeyOf(u), k))
  }

  /** The grouping loop of `_checkCssDuplicates`: the dictionary's keys in
      insertion order, and its values. */
  method GroupProperties(flat: seq<PropertyInfo>, u: seq<string>) returns (keys: seq<string>, groups: map<string, Group>)
    ensures keys == FirstSeen(Map(flat, KeyOf(u)))
    ensures forall k :: k in groups <==> k in keys
    ensures forall k :: k in groups ==> groups[k] == GroupOf(flat, u, k)
  {
    keys, groups := [], map[];
    for i := 0 to |flat|
      invariant keys == FirstSeen(Map(flat[..i], KeyOf(u)))
      invariant forall k :: k in groups <==> k in keys
      invariant forall k :: k in groups ==> groups[k] == GroupOf(flat[..i], u, k)
    {
      var k := UniqueIdentifier(flat[i], u);
      MapPrefix(flat, i, KeyOf(u));
      FirstSeenSnoc(Map(flat[..i], KeyOf(u)), k);
      ghost var before := groups;
      if !(k in groups) {
        FirstSeenMembership(Map(flat[..i], KeyOf(u)), k);
        SelectNone(flat[..i], KeyOf(u), k);
        groups := groups[k := Group(1, [flat[i]])];
        keys := keys + [k];
      } else {
        groups := groups[k := Group(groups[k].count + 1, groups[k].records + [flat[i]])];
      }
      forall k' | k' in groups ensures groups[k'] == GroupOf(flat[..i + 1], u, k') {
        SelectSnoc(flat, i, KeyOf(u), k');
        if k' != k {
          assert k' in before;
        }
      }
    }
    assert flat[..|flat|] == flat;
  }

  /** One dictionary item `(key, [count, records])`. */
  datatype Item = Item(key: string, count: nat, records: seq<PropertyInfo>)

  function ItemOf(flat: seq<PropertyInfo>, u: seq<string>): string -> Item {
    k => Item(k, |Select(flat, KeyOf(u), k)|, Select(flat, KeyOf(u), k))
  }

  /** `uniqueProperties.items()` in insertion order. */
  function Items(flat: seq<PropertyInfo>, u: seq<string>): seq<Item> {
    Map(FirstSeen(Map(flat, KeyOf(u))), ItemOf(flat, u))
  }

  /** Python's `<` on the records of a group: lists of named tuples compared
      element by element, each tuple field by field. */
  predicate InfoLess(a: PropertyInfo, b: PropertyInfo) {
    if a.cssFilename != b.cssFilename then StrLess(a.cssFilename, b.cssFilename)
    else if a.selector != b.selector then StrLess(a.selector, b.selector)
    else if a.property != b.property then StrLess(a.property, b.property)
    else StrLess(a.value, b.value)
  }

  predicate RecordsLess(xs: seq<PropertyInfo>, ys: seq<PropertyInfo>) {
    if xs == [] then ys != []
    else if ys == [] then false
    else if xs[0] != ys[0] then InfoLess(xs[0], ys[0])
    else RecordsLess(xs[1..], ys[1..])
  }

  /** `[count, records] < [count', records']` */
  predicate GroupLess(a: Item, b: Item) {
    a.count < b.count || (a.count == b.count && RecordsLess(a.records, b.records))
  }

  /** `sorted(..., key=lambda item: item[1], reverse=True)`: a stable sort that
      lets `a` stay ahead of `b` unless `b`'s group compares greater. */
  predicate AmountFirst(a: Item, b: Item) {
    !GroupLess(a, b)
  }

  /** `sorted(..., key=lambda item: item[0])` */
  predicate KeyFirst(a: Item, b: Item) {
    StrLessEq(a.key, b.key)
  }

  function Order(sortByAmount: bool): (Item, Item) -> bool {
    if sortByAmount then AmountFirst else KeyFirst
  }

  /** One `file (n)` part of a report line. */
  datatype FileCount = FileCount(name: string, count: nat)

  function FileName(p: PropertyInfo): string {
    p.cssFilename
  }

  function FileCountOf(records: seq<PropertyInfo>): string -> FileCount {
    f => FileCount(f, |Select(records, FileName, f)|)
  }

  /** `cssFilenames`: how many of the records come from each file, files in
      order of first appearance. */
  function FileCounts(records: seq<PropertyInfo>): seq<FileCount> {
    Map(FirstSeen(Map(records, FileName)), FileCountOf(records))
  }

  /** One reported group: its size, its key and its per-file counts. */
  datatype DuplicateLine = DuplicateLine(count: nat, key: string, files: seq<FileCount>)

  function LineOf(it: Item): DuplicateLine {
    DuplicateLine(it.count, it.key, FileCounts(it.records))
  }

  function AtLeast(minimum: int): Item -> bool {
    (it: Item) => it.count >= minimum
  }

  /** What `_checkCssDuplicates` reports for the flattened properties `flat`. */
  function Duplicates(flat: seq<PropertyInfo>, u: seq<string>, sortByAmount: bool, minimum: int): seq<DuplicateLine> {
    Map(Filter(SortBy(Items(flat, u), Order(sortByAmount)), AtLeast(minimum)), LineOf)
  }

  function FileText(f: FileCount): string {
    f.name + " (" + NatToString(f.count) + ")"
  }

  /** `f'{count}\t{key}\t[{cssFilesInfo}]'` */
  function LineText(l: DuplicateLine): string {
    NatToString(l.count) + "\t" + l.key + "\t[" + Join(Map(l.files, FileText), ",") + "]"
  }

  /** The per-file counting loop for one group. */
  method CountFiles(records: seq<PropertyInfo>) returns (files: seq<FileCount>)
    ensures files == FileCounts(records)
  {
    var names, counts := Tally(records, FileName);
    files := [];
    for j := 0 to |names|
      invariant files == Map(names[..j], FileCountOf(records))
    {
      FirstSeenMembership(Map(records, FileName), names[j]);
      MapPrefix(names, j, FileCountOf(records));
      files := files + [FileCount(names[j], counts[names[j]])];
    }
    assert names[..|names|] == names;
  }

  /** `uniqueProperties.items()`: the dictionary's entries in key order. */
  method ItemsOf(flat: seq<PropertyInfo>, u: seq<string>, keys: seq<string>, groups: map<string, Group>)
    returns (items: seq<Item>)
    requires keys == FirstSeen(Map(flat, KeyOf(u)))
    requires forall k :: k in groups <==> k in keys
    requires forall k :: k in groups ==> groups[k] == GroupOf(flat, u, k)
    ensures items == Items(flat, u)
  {
    items := [];
    for i := 0 to |keys|
      invariant items == Map(keys[..i], ItemOf(flat, u))
    {
      MapPrefix(keys, i, ItemOf(flat, u));
      var g := groups[keys[i]];
      items := items + [Item(keys[i], g.count, g.records)];
    }
    assert keys[..|keys|] == keys;
  }

  /** The output loop: one line per sorted item of at least the minimum size. */
  method ReportLines(sorted: seq<Item>, minimum: int) returns (lines: seq<string>)
    ensures lines == Map(Map(Filter(sorted, AtLeast(minimum)), LineOf), LineText)
  {
    lines := [];
    ghost var kept: seq<Item> := [];
    for i := 0 to |sorted|
      invariant kept == Filter(sorted[..i], AtLeast(minimum))
      invariant lines == Map(Map(kept, LineOf), LineText)
    {
      FilterSnoc(sorted, i, AtLeast(minimum));
      var it := sorted[i];
      if it.count >= minimum {
        var files := CountFiles(it.records);
        MapAppend(kept, [it], LineOf);
        MapAppend(Map(kept, LineOf), [LineOf(it)], LineText);
        kept := kept + [it];
        lines := lines + [LineText(DuplicateLine(it.count, it.key, files))];
      }
    }
    assert sorted[..|sorted|] == sorted;
  }

  /** `_checkCssDuplicates` on the flattened properties: grouping, sorting,
      and one line per group that is large enough. */
  method CheckCssDuplicates(flat: seq<PropertyInfo>, u: seq<string>, sortByAmount: bool, minimum: int)
    returns (lines: seq<string>)
    ensures lines == Map(Duplicates(flat, u, sortByAmount, minimum), LineText)
  {
    var keys, groups := GroupProperties(flat, u);
    var items := ItemsOf(flat, u, keys, groups);
    var sorted := SortBy(items, Order(sortByAmount));
    lines := ReportLines(sorted, minimum);
  }

  /** Every item of the dictionary is the group of its key: its count is the
      number of its records, which are exactly the properties with that key,
      and the keys differ from item to item. */
  lemma ItemsFaithful(flat: seq<PropertyInfo>, u: seq<string>, i: nat)
    requires i < |Items(flat, u)|
    ensures var it := Items(flat, u)[i];
      && it.count == |it.records| >= 1
      && it.records == Select(flat, KeyOf(u), it.key)
      && forall j :: 0 <= j < |Items(flat, u)| && j != i ==> Items(flat, u)[j].key != it.key
  {
    var keys := FirstSeen(Map(flat, KeyOf(u)));
    FirstSeenMembership(Map(flat, KeyOf(u)), keys[i]);
    var m :| 0 <= m < |flat| && Map(flat, KeyOf(u))[m] == keys[i];
    SelectMembership(flat, KeyOf(u), keys[i], flat[m]);
  }

  /** The counts of all groups add up to the number of flattened properties. */
  lemma ItemCountsSum(flat: seq<PropertyInfo>, u: seq<string>)
    ensures Total(Items(flat, u), (it: Item) => it.count) == |flat|
  {
    var keys := FirstSeen(Map(flat, KeyOf(u)));
    TotalOfSizes(keys, ItemOf(flat, u), (it: Item) => it.count, flat, KeyOf(u));
    GroupSizesSum(flat, KeyOf(u));
  }

  /** The reported lines are the lines of the large enough items, each
      keeping its item's key and count. */
  lemma DuplicateLineSource(flat: seq<PropertyInfo>, u: seq<string>, sortByAmount: bool, minimum: int, k: nat)
    requires k < |Duplicates(flat, u, sortByAmount, minimum)|
    ensures exists i :: 0 <= i < |Items(flat, u)| && Items(flat, u)[i].count >= minimum &&
                        Duplicates(flat, u, sortByAmount, minimum)[k] == LineOf(Items(flat, u)[i])
  {
    var items := Items(flat, u);
    var sorted := SortBy(items, Order(sortByAmount));
    var kept := Filter(sorted, AtLeast(minimum));
    FilterMembership(sorted, AtLeast(minimum), kept[k]);
    SortByMembership(items, Order(sortByAmount));
    var i :| 0 <= i < |items| && items[i] == kept[k];
  }

  /** Each reported line has at least the minimum count, that count is the
      number of properties with its key, and its per-file counts add up to
      it. */
  lemma DuplicateLineFacts(flat: seq<PropertyInfo>, u: seq<string>, sortByAmount: bool, minimum: int, k: nat)
    requires k < |Duplicates(flat, u, sortByAmount, minimum)|
    ensures var l := Duplicates(flat, u, sortByAmount, minimum)[k];
      && l.count >= minimum
      && l.count == |Select(flat, KeyOf(u), l.key)|
      && Total(l.files, (f: FileCount) => f.count) == l.count
  {
    DuplicateLineSource(flat, u, sortByAmount, minimum, k);
    var items := Items(flat, u);
    var i :| 0 <= i < |items| && items[i].count >= minimum &&
             Duplicates(flat, u, sortByAmount, minimum)[k] == LineOf(items[i]);
    ItemsFaithful(flat, u, i);
    FileCountsSum(items[i].records);
  }

  /** The per-file counts of a group add up to the number of its records. */
  lemma FileCountsSum(records: seq<PropertyInfo>)
    ensures Total(FileCounts(records), (f: FileCount) => f.count) == |records|
  {
    TotalOfSizes(FirstSeen(Map(records, FileName)), FileCountOf(records), (f: FileCount) => f.count, records, FileName);
    GroupSizesSum(records, FileName);
  }

  /** Every group of at least the minimum size is reported. */
  lemma DuplicatesComplete(flat: seq<PropertyInfo>, u: seq<string>, sortByAmount: bool, minimum: int, i: nat)
    requires i < |Items(flat, u)| && Items(flat, u)[i].count >= minimum
    ensures LineOf(Items(flat, u)[i]) in Duplicates(flat, u, sortByAmount, minimum)
  {
    var items := Items(flat, u);
    var sorted := SortBy(items, Order(sortByAmount));
    SortByMembership(items, Order(sortByAmount));
    FilterMembership(sorted, AtLeast(minimum), items[i]);
    var kept := Filter(sorted, AtLeast(minimum));
    var j :| 0 <= j < |kept| && kept[j] == items[i];
    assert Map(kept, LineOf)[j] == LineOf(items[i]);
  }

  /** Sorted by amount, the reported counts never increase. */
  lemma DuplicatesByAmount(flat: seq<PropertyInfo>, u: seq<string>, minimum: int)
    ensures var lines := Duplicates(flat, u, true, minimum);
      forall i, j :: 0 <= i < j < |lines| ==> lines[i].count >= lines[j].count
  {
    var items := Items(flat, u);
    var m := (it: Item) => it.count as int;
    SortByNonIncreasing(items, AmountFirst, m);
    var sorted := SortBy(items, AmountFirst);
    var le := (a: Item, b: Item) => a.count >= b.count;
    assert SortedBy(sorted, le);
    FilterSortedBy(sorted, AtLeast(minimum), le);
  }

  /** Sorted by key, the reported keys are strictly ascending. */
  lemma DuplicatesByKey(flat: seq<PropertyInfo>, u: seq<string>, minimum: int)
    ensures var lines := Duplicates(flat, u, false, minimum);
      forall i, j :: 0 <= i < j < |lines| ==> StrLess(lines[i].key, lines[j].key)
  {
    var items := Items(flat, u);
    forall a: Item, b: Item, c: Item
      ensures KeyFirst(a, b) || KeyFirst(b, a)
      ensures KeyFirst(a, b) && KeyFirst(b, c) ==> KeyFirst(a, c)
    {
      StrLessEqTotalPreorder(a.key, b.key, c.key);
    }
    SortBySorted(items, KeyFirst);
    var sorted := SortBy(items, KeyFirst);
    SortByMembership(items, KeyFirst);
    KeysDistinct(flat, u);
    assert Distinct(items);
    DistinctPermutation(items, sorted);
    var lt := (a: Item, b: Item) => StrLess(a.key, b.key);
    forall i, j | 0 <= i < j < |sorted| ensures lt(sorted[i], sorted[j]) {
      assert sorted[i] in items && sorted[j] in items;
      ItemOfKey(flat, u, sorted[i]);
      ItemOfKey(flat, u, sorted[j]);
      StrLessTrichotomy(sorted[i].key, sorted[j].key);
    }
    assert SortedBy(sorted, lt);
    FilterSortedBy(sorted, AtLeast(minimum), lt);
  }

  /** Different items have different keys. */
  lemma KeysDistinct(flat: seq<PropertyInfo>, u: seq<string>)
    ensures forall i, j :: 0 <= i < j < |Items(flat, u)| ==> Items(flat, u)[i].key != Items(flat, u)[j].key
  {
  }

  /** An item is the group of its own key. */
  lemma ItemOfKey(flat: seq<PropertyInfo>, u: seq<string>, it: Item)
    requires it in Items(flat, u)
    ensures it == ItemOf(flat, u)(it.key)
  {
  }
}
