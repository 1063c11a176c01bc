/**
 The XML and HTML serializers (`appendArrayToXML`, `appendArrayToHTML`),
 modelled as the element tree handed to DOMDocument rather than as bytes.
 Each comes with a reader that recovers, from the element tree alone, the
 keys, nesting and leaf texts of the array that was written.
 */
module Markup {

  import opened Wrappers
  import opened ResultTree

  /** A DOM node: an element, a text node, or a CDATA section. */
  datatype Node =
    | Element(tag: string, children: seq<Node>)
    | Text(text: string)
    | CData(data: string)

  // ---------------------------------------------------------------------------
  // XML
  // ---------------------------------------------------------------------------

  /**
   The element name of an entry: a string key names it; an integer key gives
   `entry` for a scalar, `message` for an array with a set msgID, and
   `bottle` for any other array.
   */
  function XmlTag(e: Entry): (t: string)
    ensures e.key.StrKey? ==> t == e.key.s
    ensures e.key.IntKey? ==> t in ListTags
    ensures e.key.IntKey? ==> (t == "entry" <==> !e.val.Arr?)
    ensures e.key.IntKey? ==> (t == "message" <==> e.val.Arr? && IsSet(e.val.entries, StrKey("msgID")))
  {
    if e.key.StrKey? then e.key.s
    else if !e.val.Arr? then "entry"
    else if IsSet(e.val.entries, StrKey("msgID")) then "message"
    else "bottle"
  }

  /** The names an integer-keyed entry can get. */
  const ListTags: set<string> := {"entry", "message", "bottle"}

  /** What goes inside an entry's element: the array's children, or the leaf text as CDATA. */
  function XmlContent(v: Value): (ns: seq<Node>)
    ensures v.Arr? ==> |ns| == |v.entries|
    ensures !v.Arr? ==> ns == [CData(LeafText(v))]
  {
    match v
    case Arr(es) => XmlEntries(es)
    case _ => [CData(LeafText(v))]
  }

  function XmlEntry(e: Entry): (n: Node)
    ensures n.Element? && n.tag == XmlTag(e)
  {
    Element(XmlTag(e), XmlContent(e.val))
  }

  function XmlEntries(es: seq<Entry>): (ns: seq<Node>)
    ensures |ns| == |es|
    ensures forall i :: 0 <= i < |es| ==> ns[i].Element? && ns[i].tag == XmlTag(es[i])
  {
    if es == [] then [] else [XmlEntry(es[0])] + XmlEntries(es[1..])
  }

  /** `outputToXML`: the whole output array under a root element `xml`. */
  function ToXml(output: seq<Entry>): (n: Node)
    ensures n.Element? && n.tag == "xml" && |n.children| == |output|
  {
    Element("xml", XmlEntries(output))
  }

  /**
   Reading an element's content back. A single CDATA section is a leaf; an
   element list whose first name is one of `ListTags` is a list, numbered
   from 0; any other element list is a record keyed by the element names.
   */
  function ReadXmlContent(ns: seq<Node>): Value
    decreases ns, 1
  {
    if |ns| == 1 && ns[0].CData? then Str(ns[0].data)
    else if ns != [] && ns[0].Element? && ns[0].tag !in ListTags then Arr(ReadXmlRecord(ns))
    else Arr(ReadXmlList(ns, 0))
  }

  function ReadXmlNode(n: Node): Value {
    match n
    case Element(_, children) => ReadXmlContent(children)
    case _ => Null
  }

  function ReadXmlRecord(ns: seq<Node>): seq<Entry>
    decreases ns, 0
  {
    if ns == [] then []
    else
      var key := if ns[0].Element? then ns[0].tag else "";
      [Entry(StrKey(key), ReadXmlNode(ns[0]))] + ReadXmlRecord(ns[1..])
  }

  function ReadXmlList(ns: seq<Node>, next: int): seq<Entry>
    decreases ns, 0
  {
    if ns == [] then [] else [Entry(IntKey(next), ReadXmlNode(ns[0]))] + ReadXmlList(ns[1..], next + 1)
  }

  /** The XML document read back as an array; `None` when the root is not `xml`. */
  function FromXml(doc: Node): Option<Value> {
    if doc.Element? && doc.tag == "xml" then Some(ReadXmlContent(doc.children)) else None
  }

  /**
   The arrays XML can carry back: every array is a list or a record, and no
   record key is one of the names given to integer-keyed entries (a record
   `{"entry": 1}` and a list `[1]` print the same).
   */
  predicate XmlReadable(v: Value) {
    match v
    case Arr(es) => (IsList(es) || (IsRecord(es) && NoListTags(es))) && XmlReadableEntries(es)
    case _ => true
  }

  predicate NoListTags(es: seq<Entry>) {
    forall i :: 0 <= i < |es| ==> es[i].key.StrKey? ==> es[i].key.s !in ListTags
  }

  predicate XmlReadableEntry(e: Entry) {
    XmlReadable(e.val)
  }

  predicate XmlReadableEntries(es: seq<Entry>) {
    if es == [] then true else XmlReadableEntry(es[0]) && XmlReadableEntries(es[1..])
  }

  /** Keys `IntKey(next)`, `IntKey(next + 1)`, ...: a list, or the tail of one. */
  predicate NumberedFrom(es: seq<Entry>, next: int) {
    forall i :: 0 <= i < |es| ==> es[i].key == IntKey(next + i)
  }

  lemma NumberedTail(es: seq<Entry>, next: int)
    requires es != [] && NumberedFrom(es, next)
    ensures es[0].key == IntKey(next)
    ensures NumberedFrom(es[1..], next + 1)
  {
    forall i | 0 <= i < |es[1..]| ensures es[1..][i].key == IntKey(next + 1 + i) {
      assert es[1..][i] == es[i + 1];
    }
  }

  /** Writing a tree as XML and reading it back keeps its keys, nesting and leaf texts. */
  lemma {:induction false} XmlRoundTrip(v: Value)
    requires XmlReadable(v)
    ensures ReadXmlContent(XmlContent(v)) == Erase(v)
    decreases v, 2
  {
    match v
    case Arr(es) =>
      if es == [] {
      } else if IsList(es) {
        assert NumberedFrom(es, 0);
        XmlListRoundTrip(es, 0);
      } else {
        XmlRecordRoundTrip(es);
      }
    case _ =>
  }

  lemma {:induction false} XmlEntryRoundTrip(e: Entry)
    requires XmlReadable(e.val)
    ensures ReadXmlNode(XmlEntry(e)) == Erase(e.val)
    decreases e, 3
  {
    XmlRoundTrip(e.val);
  }

  lemma {:induction false} XmlListRoundTrip(es: seq<Entry>, next: int)
    requires NumberedFrom(es, next) && XmlReadableEntries(es)
    ensures ReadXmlList(XmlEntries(es), next) == EraseEntries(es)
    decreases es, 1
  {
    if es != [] {
      NumberedTail(es, next);
      XmlEntryRoundTrip(es[0]);
      XmlListRoundTrip(es[1..], next + 1);
      assert XmlEntries(es)[1..] == XmlEntries(es[1..]);
    }
  }

  lemma {:induction false} XmlRecordRoundTrip(es: seq<Entry>)
    requires IsRecord(es) && NoListTags(es) && XmlReadableEntries(es) && es != []
    ensures ReadXmlContent(XmlEntries(es)) == Arr(EraseEntries(es))
    decreases es, 1
  {
    XmlRecordEntries(es);
  }

  lemma {:induction false} XmlRecordEntries(es: seq<Entry>)
    requires IsRecord(es) && XmlReadableEntries(es)
    ensures ReadXmlRecord(XmlEntries(es)) == EraseEntries(es)
    decreases es, 0
  {
    if es != [] {
      XmlEntryRoundTrip(es[0]);
      assert IsRecord(es[1..]) by {
        forall i | 0 <= i < |es[1..]| ensures es[1..][i].key.StrKey? {
          assert es[1..][i] == es[i + 1];
        }
      }
      XmlRecordEntries(es[1..]);
      assert XmlEntries(es)[1..] == XmlEntries(es[1..]);
    }
  }

  /** The whole document: `FromXml` inverts `ToXml` up to the leaves' text. */
  lemma ToXmlRoundTrip(output: seq<Entry>)
    requires XmlReadable(Arr(output))
    ensures FromXml(ToXml(output)) == Some(Erase(Arr(output)))
  {
    XmlRoundTrip(Arr(output));
  }

  // ---------------------------------------------------------------------------
  // HTML
  // ---------------------------------------------------------------------------

  /** An ordered list when index 0 is set, an unordered one otherwise. */
  function ListTag(es: seq<Entry>): (t: string)
    ensures t == "ol" || t == "ul"
  {
    if IsSet(es, IntKey(0)) then "ol" else "ul"
  }

  /** The bold `key: ` prefix, written only for string keys. */
  function Label(k: Key): (ns: seq<Node>)
    ensures k.StrKey? ==> ns == [Element("b", [Text(k.s + ": ")])]
    ensures k.IntKey? ==> ns == []
  {
    if k.StrKey? then [Element("b", [Text(k.s + ": ")])] else []
  }

  function HtmlList(es: seq<Entry>): (n: Node)
    ensures n.Element? && n.tag == ListTag(es) && |n.children| == |es|
    decreases es, 1
  {
    Element(ListTag(es), HtmlItems(es))
  }

  function HtmlBody(v: Value): (ns: seq<Node>)
    ensures |ns| == 1
    ensures !v.Arr? ==> ns == [CData(LeafText(v))]
  {
    match v
    case Arr(es) => [HtmlList(es)]
    case _ => [CData(LeafText(v))]
  }

  function HtmlItem(e: Entry): (n: Node)
    ensures n.Element? && n.tag == "li"
    ensures n.children == Label(e.key) + HtmlBody(e.val)
  {
    Element("li", Label(e.key) + HtmlBody(e.val))
  }

  function HtmlItems(es: seq<Entry>): (ns: seq<Node>)
    ensures |ns| == |es|
    ensures forall i :: 0 <= i < |es| ==> ns[i] == HtmlItem(es[i])
    decreases es, 0
  {
    if es == [] then [] else [HtmlItem(es[0])] + HtmlItems(es[1..])
  }

  /** `outputToHTML`: the output array as a list inside `html` and `body`. */
  function ToHtml(output: seq<Entry>): (n: Node)
    ensures n == Element("html", [Element("body", [HtmlList(output)])])
  {
    Element("html", [Element("body", [HtmlList(output)])])
  }

  /** An item's text label with the trailing ": " taken off, if it has one. */
  function ReadLabel(ns: seq<Node>): Option<string> {
    if ns != [] && ns[0].Element? && ns[0].tag == "b" && |ns[0].children| == 1 && ns[0].children[0].Text? then
      var t := ns[0].children[0].text;
      if |t| >= 2 && t[|t| - 2..] == ": " then Some(t[..|t| - 2]) else None
    else None
  }

  /** A list item's value: a single CDATA section is a leaf, a nested list an array. */
  function ReadHtmlBody(ns: seq<Node>): Value {
    if |ns| == 1 && ns[0].CData? then Str(ns[0].data)
    else if |ns| == 1 && ns[0].Element? then Arr(ReadHtmlItems(ns[0].children, 0))
    else Null
  }

  /** An item without a label takes its position as its key. */
  function ReadHtmlItem(n: Node, position: int): Entry {
    match n
    case Element(_, children) =>
      var name := ReadLabel(children);
      if name.Some? then Entry(StrKey(name.value), ReadHtmlBody(children[1..]))
      else Entry(IntKey(position), ReadHtmlBody(children))
    case _ => Entry(IntKey(position), Null)
  }

  function ReadHtmlItems(ns: seq<Node>, position: int): seq<Entry> {
    if ns == [] then [] else [ReadHtmlItem(ns[0], position)] + ReadHtmlItems(ns[1..], position + 1)
  }

  /** The HTML document read back as an array; `None` unless it is `html` > `body` > one list. */
  function FromHtml(doc: Node): Option<Value> {
    if doc.Element? && doc.tag == "html" && |doc.children| == 1 then
      var body := doc.children[0];
      if body.Element? && body.tag == "body" && |body.children| == 1 && body.children[0].Element? then
        Some(Arr(ReadHtmlItems(body.children[0].children, 0)))
      else None
    else None
  }

  /** Keys the reader can restore: string keys, or integer keys equal to their position. */
  predicate PositionedFrom(es: seq<Entry>, position: int) {
    forall i :: 0 <= i < |es| ==> es[i].key.StrKey? || es[i].key == IntKey(position + i)
  }

  lemma PositionedTail(es: seq<Entry>, position: int)
    requires es != [] && PositionedFrom(es, position)
    ensures es[0].key.StrKey? || es[0].key == IntKey(position)
    ensures PositionedFrom(es[1..], position + 1)
  {
    forall i | 0 <= i < |es[1..]| ensures es[1..][i].key.StrKey? || es[1..][i].key == IntKey(position + 1 + i) {
      assert es[1..][i] == es[i + 1];
    }
  }

  lemma ReadLabelOf(k: Key, body: seq<Node>)
    ensures k.StrKey? ==> ReadLabel(Label(k) + body) == Some(k.s)
    ensures k.StrKey? ==> (Label(k) + body)[1..] == body
    ensures |body| == 1 && body[0].Element? && body[0].tag != "b" ==> ReadLabel(Label(k) + body) == (if k.StrKey? then Some(k.s) else None)
    ensures |body| == 1 && body[0].CData? ==> ReadLabel(Label(k) + body) == (if k.StrKey? then Some(k.s) else None)
  {
    if k.StrKey? {
      var t := k.s + ": ";
      assert t[|t| - 2..] == ": ";
      assert t[..|t| - 2] == k.s;
    }
  }

  /** Writing a tree as HTML and reading it back keeps its keys, nesting and leaf texts. */
  lemma {:induction false} HtmlRoundTrip(v: Value)
    requires ListsAndRecords(v)
    ensures ReadHtmlBody(HtmlBody(v)) == Erase(v)
    decreases v, 2
  {
    match v
    case Arr(es) =>
      assert PositionedFrom(es, 0);
      HtmlItemsRoundTrip(es, 0);
    case _ =>
  }

  lemma {:induction false} HtmlItemRoundTrip(e: Entry, position: int)
    requires ListsAndRecords(e.val)
    requires e.key.StrKey? || e.key == IntKey(position)
    ensures ReadHtmlItem(HtmlItem(e), position) == EraseEntry(e)
    decreases e, 3
  {
    HtmlRoundTrip(e.val);
    ReadLabelOf(e.key, HtmlBody(e.val));
  }

  lemma {:induction false} HtmlItemsRoundTrip(es: seq<Entry>, position: int)
    requires PositionedFrom(es, position) && ListsAndRecordsEntries(es)
    ensures ReadHtmlItems(HtmlItems(es), position) == EraseEntries(es)
    decreases es, 1
  {
    if es != [] {
      PositionedTail(es, position);
      HtmlItemRoundTrip(es[0], position);
      HtmlItemsRoundTrip(es[1..], position + 1);
      assert HtmlItems(es)[1..] == HtmlItems(es[1..]);
    }
  }

  /** The whole document: `FromHtml` inverts `ToHtml` up to the leaves' text. */
  lemma ToHtmlRoundTrip(output: seq<Entry>)
    requires ListsAndRecords(Arr(output))
    ensures FromHtml(ToHtml(output)) == Some(Erase(Arr(output)))
  {
    HtmlRoundTrip(Arr(output));
  }

  /**
   A list is printed as `<ol>` exactly when its first value is not null; a
   record, having no key 0, always as `<ul>`.
   */
  lemma ListTagOfListOrRecord(es: seq<Entry>)
    ensures IsList(es) && es != [] ==> (ListTag(es) == "ol" <==> !es[0].val.Null?)
    ensures IsRecord(es) ==> ListTag(es) == "ul"
  {
    if IsList(es) && es != [] {
      assert Get(es, IntKey(0)) == Some(es[0].val);
    }
    if IsRecord(es) {
      assert IntKey(0) !in Keys(es);
    }
  }
}
