/**
 Result shaping: how `getBottleInfoByID`, `getMessageList` and
 `getMessageByID` turn database rows into the output array. A message is a
 record whose keys always come in one fixed order, some of them optional;
 the order is what every serializer prints.
 */
module Shaping {

  import opened Wrappers
  import opened Decimal
  import opened ResultTree
  import opened Store

  // ---------------------------------------------------------------------------
  // Records with a fixed key order
  // ---------------------------------------------------------------------------

  predicate DistinctNames(names: seq<string>) {
    forall i, j :: 0 <= i < j < |names| ==> names[i] != names[j]
  }

  /** Position of `k` in `names`; `|names|` when it is not one of them. */
  function Rank(names: seq<string>, k: Key): (r: nat)
    ensures r <= |names|
    ensures r < |names| ==> k == StrKey(names[r])
  {
    if names == [] then 0 else if k == StrKey(names[0]) then 0 else 1 + Rank(names[1..], k)
  }

  /** The keys of `es` appear in the order of `names`, each at most once. */
  predicate InOrder(es: seq<Entry>, names: seq<string>) {
    forall a, b :: 0 <= a < b < |es| ==> Rank(names, es[a].key) < Rank(names, es[b].key)
  }

  /**
   A record filled in the order of `names`: the i-th name gets an entry
   exactly when `slots[i]` holds a value.
   */
  function Assemble(names: seq<string>, slots: seq<Option<Value>>): (es: seq<Entry>)
    requires |names| == |slots|
    ensures |es| <= |names|
    decreases |names|
  {
    if names == [] then []
    else
      (if slots[0].Some? then [Entry(StrKey(names[0]), slots[0].value)] else [])
      + Assemble(names[1..], slots[1..])
  }

  /** Every key of `es` is one of `names`. */
  predicate KeysAmong(es: seq<Entry>, names: seq<string>) {
    forall j :: 0 <= j < |es| ==> es[j].key.StrKey? && es[j].key.s in names
  }

  lemma {:induction false} AssembleNames(names: seq<string>, slots: seq<Option<Value>>)
    requires |names| == |slots|
    ensures KeysAmong(Assemble(names, slots), names)
    decreases |names|
  {
    if names != [] {
      AssembleNames(names[1..], slots[1..]);
      var rest := Assemble(names[1..], slots[1..]);
      var es := Assemble(names, slots);
      forall j | 0 <= j < |es| ensures es[j].key.StrKey? && es[j].key.s in names {
        if slots[0].Some? && j == 0 {
          assert es[j].key == StrKey(names[0]);
        } else {
          var jr := if slots[0].Some? then j - 1 else j;
          assert es[j] == rest[jr];
          assert rest[jr].key.s in names[1..];
        }
      }
    }
  }

  lemma RankTail(names: seq<string>, k: Key)
    requires DistinctNames(names) && names != []
    requires k.StrKey? && k.s in names[1..]
    ensures Rank(names, k) == 1 + Rank(names[1..], k)
  {
    var i :| 0 <= i < |names[1..]| && names[1..][i] == k.s;
    assert names[i + 1] == k.s;
  }

  lemma {:induction false} AssembleInOrder(names: seq<string>, slots: seq<Option<Value>>)
    requires |names| == |slots| && DistinctNames(names)
    ensures InOrder(Assemble(names, slots), names)
    decreases |names|
  {
    if names != [] {
      var rest := Assemble(names[1..], slots[1..]);
      var es := Assemble(names, slots);
      assert DistinctNames(names[1..]);
      AssembleInOrder(names[1..], slots[1..]);
      AssembleNames(names[1..], slots[1..]);
      forall j | 0 <= j < |rest| ensures Rank(names, rest[j].key) == 1 + Rank(names[1..], rest[j].key) {
        assert rest[j].key.StrKey? && rest[j].key.s in names[1..];
        RankTail(names, rest[j].key);
      }
      if slots[0].Some? {
        var head := Entry(StrKey(names[0]), slots[0].value);
        assert es == [head] + rest;
        assert Rank(names, head.key) == 0;
        forall a, b | 0 <= a < b < |es| ensures Rank(names, es[a].key) < Rank(names, es[b].key) {
          assert es[b] == rest[b - 1];
          if a == 0 {
            assert es[a] == head;
          } else {
            assert es[a] == rest[a - 1];
          }
        }
      } else {
        assert es == rest;
      }
    }
  }

  lemma {:induction false} AssembleAbsent(names: seq<string>, slots: seq<Option<Value>>, n: string)
    requires |names| == |slots| && n !in names
    ensures Get(Assemble(names, slots), StrKey(n)) == None
    decreases |names|
  {
    if names != [] {
      AssembleAbsent(names[1..], slots[1..], n);
      GetCons(Assemble(names, slots), StrKey(n));
      if slots[0].Some? {
        assert Assemble(names, slots)[1..] == Assemble(names[1..], slots[1..]);
      }
    }
  }

  lemma GetCons(es: seq<Entry>, k: Key)
    ensures Get(es, k) == if es == [] then None else if es[0].key == k then Some(es[0].val) else Get(es[1..], k)
  {
  }

  /** The record holds exactly the filled slots, each under its own name. */
  lemma {:induction false} AssembleGet(names: seq<string>, slots: seq<Option<Value>>, i: nat)
    requires |names| == |slots| && DistinctNames(names) && i < |names|
    ensures Get(Assemble(names, slots), StrKey(names[i])) == slots[i]
    decreases |names|
  {
    var es := Assemble(names, slots);
    var rest := Assemble(names[1..], slots[1..]);
    assert DistinctNames(names[1..]);
    GetCons(es, StrKey(names[i]));
    if slots[0].Some? {
      assert es[1..] == rest;
    } else {
      assert es == rest;
    }
    if i == 0 {
      if slots[0].None? {
        assert names[0] !in names[1..];
        AssembleAbsent(names[1..], slots[1..], names[0]);
      }
    } else {
      AssembleGet(names[1..], slots[1..], i - 1);
    }
  }

  /** The values stored under each of `names`, in order. */
  function Lookup(es: seq<Entry>, names: seq<string>): (r: seq<Option<Value>>)
    ensures |r| == |names|
    ensures forall i :: 0 <= i < |names| ==> r[i] == Get(es, StrKey(names[i]))
  {
    seq(|names|, i requires 0 <= i < |names| => Get(es, StrKey(names[i])))
  }

  /** Looking the names up in an assembled record gives back the slots. */
  lemma LookupAssemble(names: seq<string>, slots: seq<Option<Value>>)
    requires |names| == |slots| && DistinctNames(names)
    ensures Lookup(Assemble(names, slots), names) == slots
  {
    var r := Lookup(Assemble(names, slots), names);
    forall i | 0 <= i < |names| ensures r[i] == slots[i] {
      AssembleGet(names, slots, i);
    }
  }

  // ---------------------------------------------------------------------------
  // Messages
  // ---------------------------------------------------------------------------

  /** The order in which a message's keys are assigned. */
  const MessageFields: seq<string> :=
    ["btlID", "msgID", "title", "txt", "img", "author", "time", "toBeDeleted", "deleted", "location", "crc"]

  /** `getImageURL`: the image is assumed to be a PNG. */
  function ImageUrl(host: string, bottle: string, message: string): string {
    "http://" + host + "/bottles/" + bottle + "/messages/" + message + ".png"
  }

  /** `$toBeDeleted == 1 || $deleteDate != NULL`: the message's content is withheld. */
  predicate Tombstone(row: Row) {
    row.toBeDeleted == 1 || !LooselyNull(row.deleted)
  }

  predicate HasLocation(row: Row) {
    !LooselyNull(row.longitude) && !LooselyNull(row.latitude)
  }

  function Location(row: Row): Value {
    Arr([Entry(StrKey("longitude"), row.longitude), Entry(StrKey("latitude"), row.latitude)])
  }

  /** A slot filled only when `present`. */
  function When(present: bool, v: Value): (r: Option<Value>)
    ensures r.Some? <==> present
    ensures r.Some? ==> r.value == v
  {
    if present then Some(v) else None
  }

  /**
   A message as the service decides to show it, before it becomes an array:
   the `Option` fields are the keys that may be missing.
   */
  datatype MessageView = MessageView(
    btlID: Value,
    msgID: Value,
    title: Option<Value>,
    txt: Value,
    img: Option<Value>,
    author: Value,
    time: Value,
    toBeDeleted: Option<Value>,
    deleted: Option<Value>,
    location: Option<Value>,
    crc: Value)

  /** The view's fields in the order of `MessageFields`. */
  function Slots(m: MessageView): (slots: seq<Option<Value>>)
    ensures |slots| == |MessageFields|
  {
    [Some(m.btlID), Some(m.msgID), m.title, Some(m.txt), m.img, Some(m.author), Some(m.time),
     m.toBeDeleted, m.deleted, m.location, Some(m.crc)]
  }

  /** Reading the fields back from their slots. */
  function ViewOf(slots: seq<Option<Value>>): (r: Option<MessageView>)
    requires |slots| == |MessageFields|
    ensures r.Some? <==> (slots[0].Some? && slots[1].Some? && slots[3].Some? && slots[5].Some? &&
      slots[6].Some? && slots[10].Some?)
    ensures r.Some? ==> Slots(r.value) == slots
  {
    if slots[0].Some? && slots[1].Some? && slots[3].Some? && slots[5].Some? && slots[6].Some? && slots[10].Some? then
      Some(MessageView(slots[0].value, slots[1].value, slots[2], slots[3].value, slots[4], slots[5].value,
        slots[6].value, slots[7], slots[8], slots[9], slots[10].value))
    else None
  }

  /**
   The shaping of one row. `bottle` and `message` are the IDs as text (the
   URL segment, or the stored message ID printed), used for the image URL;
   both go through `intval` for btlID and msgID. `delListing` is
   `isset($_GET['del'])` of a listing.
   */
  function Shape(host: string, bottle: string, message: string, row: Row, delListing: bool): (m: MessageView)
    ensures m.btlID == Int(IntValOfString(bottle)) && m.msgID == Int(IntValOfString(message))
    ensures m.author == row.author && m.time == row.time && m.crc == row.crc
    ensures Tombstone(row) ==> m.txt == Str("") && m.title.None? && m.img.None?
    ensures !Tombstone(row) ==> m.txt == row.text
    ensures m.title.Some? <==> !Tombstone(row) && !LooselyNull(row.title)
    ensures m.title.Some? ==> m.title.value == row.title
    ensures m.img.Some? <==> !Tombstone(row) && row.hasPicture == 1
    ensures m.img.Some? ==> m.img.value == Str(ImageUrl(host, bottle, message))
    ensures m.toBeDeleted.Some? <==> delListing
    ensures m.toBeDeleted.Some? ==> m.toBeDeleted.value == Bool(row.toBeDeleted == 1)
    ensures m.deleted.Some? <==> delListing && !LooselyNull(row.deleted)
    ensures m.deleted.Some? ==> m.toBeDeleted.Some? && m.deleted.value == row.deleted
    ensures m.location.Some? <==> HasLocation(row)
    ensures m.location.Some? ==> m.location.value == Location(row)
  {
    var shown := !Tombstone(row);
    MessageView(
      Int(IntValOfString(bottle)),
      Int(IntValOfString(message)),
      When(shown && !LooselyNull(row.title), row.title),
      if shown then row.text else Str(""),
      When(shown && row.hasPicture == 1, Str(ImageUrl(host, bottle, message))),
      row.author,
      row.time,
      When(delListing, Bool(row.toBeDeleted == 1)),
      When(delListing && !LooselyNull(row.deleted), row.deleted),
      When(HasLocation(row), Location(row)),
      row.crc)
  }

  /** The array built from a view: its present fields, in the order they are assigned. */
  function Record(m: MessageView): (es: seq<Entry>)
    ensures IsRecord(es) && UniqueKeys(es) && InOrder(es, MessageFields)
  {
    MessageFieldsDistinct();
    RecordOfAssemble(MessageFields, Slots(m));
    Assemble(MessageFields, Slots(m))
  }

  /** The view a client reads back from a message array, if it has the mandatory keys. */
  function ReadRecord(es: seq<Entry>): Option<MessageView> {
    ViewOf(Lookup(es, MessageFields))
  }

  /** Every field of the view sits under its own name, and no other key is present. */
  lemma RecordFields(m: MessageView)
    ensures forall i :: 0 <= i < |MessageFields| ==> Get(Record(m), StrKey(MessageFields[i])) == Slots(m)[i]
    ensures forall n :: n !in MessageFields ==> Get(Record(m), StrKey(n)) == None
  {
    MessageFieldsDistinct();
    forall i | 0 <= i < |MessageFields| ensures Get(Record(m), StrKey(MessageFields[i])) == Slots(m)[i] {
      AssembleGet(MessageFields, Slots(m), i);
    }
    forall n | n !in MessageFields ensures Get(Record(m), StrKey(n)) == None {
      AssembleAbsent(MessageFields, Slots(m), n);
    }
  }

  /** A client reading a message array back recovers the view it was built from. */
  lemma ReadRecordOfRecord(m: MessageView)
    ensures ReadRecord(Record(m)) == Some(m)
  {
    MessageFieldsDistinct();
    LookupAssemble(MessageFields, Slots(m));
    ViewOfSlots(m);
  }

  lemma ViewOfSlots(m: MessageView)
    ensures ViewOf(Slots(m)) == Some(m)
  {
  }

  /** One message of a listing or a single message. */
  function Message(host: string, bottle: string, message: string, row: Row, delListing: bool): (es: seq<Entry>)
    ensures IsRecord(es) && UniqueKeys(es) && InOrder(es, MessageFields)
  {
    Record(Shape(host, bottle, message, row, delListing))
  }

  lemma MessageFieldsDistinct()
    ensures DistinctNames(MessageFields)
  {
  }

  /** A record assembled from distinct names is a record, in order, with unique keys. */
  lemma RecordOfAssemble(names: seq<string>, slots: seq<Option<Value>>)
    requires |names| == |slots| && DistinctNames(names)
    ensures var es := Assemble(names, slots);
      IsRecord(es) && UniqueKeys(es) && InOrder(es, names)
  {
    AssembleNames(names, slots);
    AssembleInOrder(names, slots);
  }

  /**
   The listing: one message per selected row, in the order given (newest
   first), under the keys 0, 1, 2, ...
   */
  function Listing(host: string, bottle: string, ids: seq<int>, msgs: Messages, delListing: bool): (es: seq<Entry>)
    requires forall i :: 0 <= i < |ids| ==> (IntValOfString(bottle), ids[i]) in msgs
    ensures |es| == |ids| && IsList(es)
    ensures forall i :: 0 <= i < |es| ==>
      es[i].val == Arr(Message(host, bottle, IntToString(ids[i]), msgs[(IntValOfString(bottle), ids[i])], delListing))
  {
    seq(|ids|, i requires 0 <= i < |ids| =>
      Entry(IntKey(i), Arr(Message(host, bottle, IntToString(ids[i]), msgs[(IntValOfString(bottle), ids[i])], delListing))))
  }

  /**
   A client reading entry `i` of a listing finds, under key `i`, the
   message shaped from row `ids[i]`, and its msgID is `ids[i]`.
   */
  lemma ListingReadsBack(host: string, bottle: string, ids: seq<int>, msgs: Messages, delListing: bool, i: nat)
    requires forall j :: 0 <= j < |ids| ==> (IntValOfString(bottle), ids[j]) in msgs
    requires i < |ids|
    ensures var es := Listing(host, bottle, ids, msgs, delListing);
      && es[i].key == IntKey(i)
      && es[i].val.Arr?
      && ReadRecord(es[i].val.entries)
         == Some(Shape(host, bottle, IntToString(ids[i]), msgs[(IntValOfString(bottle), ids[i])], delListing))
    ensures InRange(ids[i]) ==>
      ReadRecord(Listing(host, bottle, ids, msgs, delListing)[i].val.entries).value.msgID == Int(ids[i])
  {
    var m := Shape(host, bottle, IntToString(ids[i]), msgs[(IntValOfString(bottle), ids[i])], delListing);
    ReadRecordOfRecord(m);
    if InRange(ids[i]) {
      IntToStringRoundTrip(ids[i]);
    }
  }

  // ---------------------------------------------------------------------------
  // Bottle information
  // ---------------------------------------------------------------------------

  const BottleFields: seq<string> := ["id", "name", "nom", "protocolVersionMajor", "protocolVersionMinor"]

  /** The values of the bottle answer, one per field: `intval` of the URL ID, the name, the count, the versions. */
  function BottleSlots(bottle: string, info: BottleInfo): (slots: seq<Option<Value>>)
    ensures |slots| == |BottleFields|
  {
    [Some(Int(IntValOfString(bottle))), Some(info.name), Some(Int(info.count)), Some(info.major), Some(info.minor)]
  }

  lemma BottleFieldsDistinct()
    ensures DistinctNames(BottleFields)
  {
  }

  /** `getBottleInfoByID` once the aggregate row has a name: every field is assigned, in this order. */
  function BottleTree(bottle: string, info: BottleInfo): (es: seq<Entry>)
    ensures IsRecord(es) && UniqueKeys(es) && InOrder(es, BottleFields)
  {
    BottleFieldsDistinct();
    RecordOfAssemble(BottleFields, BottleSlots(bottle, info));
    Assemble(BottleFields, BottleSlots(bottle, info))
  }

  /** A client reading the bottle answer by its field names gets every value back, none missing. */
  lemma BottleTreeReadsBack(bottle: string, info: BottleInfo)
    ensures Lookup(BottleTree(bottle, info), BottleFields) == BottleSlots(bottle, info)
  {
    BottleFieldsDistinct();
    LookupAssemble(BottleFields, BottleSlots(bottle, info));
  }
}
