/** The check for DOM Level 0 event handlers written as HTML attributes
    (`_checkEventAttributeHandling`, analyseJs.py:342-352): every element that
    carries an attribute whose name starts with "on" is reported with its line,
    its name and those attributes. */
module JsEvents {
  import opened Common
  import opened HtmlTree

  /** An attribute such as `onclick="..."`: its name starts with "on". */
  predicate IsEventAttr(a: Attr) {
    StartsWith(a.key, "on")
  }

  /** `getEventAttributes(tag)`: the event attributes of an element, in
      attribute order. */
  function EventAttributes(n: Node): (r: seq<Attr>)
    ensures forall a :: a in r <==> n.Element? && a in n.attrs && IsEventAttr(a)
  {
    if n.Text? then []
    else
      var r := Filter(n.attrs, IsEventAttr);
      forall a ensures a in r <==> a in n.attrs && IsEventAttr(a) {
        FilterMembership(n.attrs, IsEventAttr, a);
      }
      r
  }

  /** `hasEventAttribute(tag)` */
  predicate HasEventAttribute(n: Node) {
    EventAttributes(n) != []
  }

  /** One reported element: `sourceline: <name k="v" ...>`. */
  datatype EventReport = EventReport(line: nat, name: string, handlers: seq<Attr>)

  function Report(n: Node): EventReport
    requires n.Element?
  {
    EventReport(n.sourceline, n.name, EventAttributes(n))
  }

  function ReportOf(n: Node): EventReport {
    if n.Element? then Report(n) else EventReport(0, "", [])
  }

  /** What the check reports for a document: one entry per element with an
      event attribute, in document order. */
  function EventHandling(doc: Node): seq<EventReport> {
    Map(Filter(Descendants(doc), HasEventAttribute), ReportOf)
  }

  /** The check as the source runs it: a loop over the tags `find_all` returns. */
  method CheckEventAttributeHandling(doc: Node) returns (r: seq<EventReport>)
    ensures r == EventHandling(doc)
  {
    var tags := Filter(Descendants(doc), HasEventAttribute);
    r := [];
    var i := 0;
    while i < |tags|
      invariant 0 <= i <= |tags|
      invariant r == Map(tags[..i], ReportOf)
    {
      assert tags[..i + 1] == tags[..i] + [tags[i]];
      MapAppend(tags[..i], [tags[i]], ReportOf);
      r := r + [ReportOf(tags[i])];
      i := i + 1;
    }
    assert tags[..i] == tags;
  }

  /** Every reported element is an element of the document whose handlers are
      exactly its attributes starting with "on", and there is at least one. */
  lemma {:induction false} EventHandlingSound(doc: Node, k: nat)
    requires k < |EventHandling(doc)|
    ensures var rep := EventHandling(doc)[k];
      rep.handlers != [] &&
      (forall a :: a in rep.handlers ==> StartsWith(a.key, "on")) &&
      exists e :: e in Descendants(doc) && e.Element? &&
        rep == EventReport(e.sourceline, e.name, EventAttributes(e))
  {
    var tags := Filter(Descendants(doc), HasEventAttribute);
    var e := tags[k];
    FilterMembership(Descendants(doc), HasEventAttribute, e);
  }

  /** Every element of the document with an event attribute is reported. */
  lemma {:induction false} EventHandlingComplete(doc: Node, e: Node)
    requires e in Descendants(doc)
    requires exists a :: a in e.attrs && StartsWith(a.key, "on")
    ensures exists k :: (0 <= k < |EventHandling(doc)| &&
                         EventHandling(doc)[k] == EventReport(e.sourceline, e.name, EventAttributes(e)))
  {
    var a :| a in e.attrs && StartsWith(a.key, "on");
    assert a in EventAttributes(e);
    var tags := Filter(Descendants(doc), HasEventAttribute);
    FilterMembership(Descendants(doc), HasEventAttribute, e);
    var k :| 0 <= k < |tags| && tags[k] == e;
    assert EventHandling(doc)[k] == ReportOf(e);
  }

  /** Elements without an event attribute are never reported. */
  lemma {:induction false} EventHandlingQuiet(doc: Node)
    requires forall e :: e in Descendants(doc) ==> forall a :: a in e.attrs ==> !StartsWith(a.key, "on")
    ensures EventHandling(doc) == []
  {
    forall e | e in Descendants(doc) ensures !HasEventAttribute(e) {
      if e.Element? {
        FilterNone(e.attrs, IsEventAttr);
      }
    }
    FilterNone(Descendants(doc), HasEventAttribute);
  }
}
