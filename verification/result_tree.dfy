/**
 The result tree: the PHP array every operation fills and every serializer
 walks. A PHP array is an ordered sequence of key/value entries; insertion
 order is what the serializers print, so it is kept as a sequence here.
 */
module ResultTree {

  import opened Wrappers
  import opened Decimal

  datatype Key = IntKey(n: int) | StrKey(s: string)

  datatype Value =
    | Str(s: string)
    | Int(i: int)
    | Bool(b: bool)
    | Null
    | Arr(entries: seq<Entry>)

  datatype Entry = Entry(key: Key, val: Value)

  /** The key as PHP prints it (`strval($key)`). */
  function KeyText(k: Key): string {
    match k
    case IntKey(n) => IntToString(n)
    case StrKey(s) => s
  }

  function Keys(es: seq<Entry>): (ks: seq<Key>)
    ensures |ks| == |es|
    ensures forall i :: 0 <= i < |es| ==> ks[i] == es[i].key
  {
    seq(|es|, i requires 0 <= i < |es| => es[i].key)
  }

  /** `$array[$k]`: the value stored under `k`, or nothing. */
  function Get(es: seq<Entry>, k: Key): (r: Option<Value>)
    ensures r.Some? <==> k in Keys(es)
  {
    if es == [] then None
    else if es[0].key == k then Some(es[0].val)
    else
      assert Keys(es) == [es[0].key] + Keys(es[1..]);
      Get(es[1..], k)
  }

  function Field(es: seq<Entry>, name: string): Option<Value> {
    Get(es, StrKey(name))
  }

  /** PHP's `isset($array[$k])`: the key is present and its value is not null. */
  predicate IsSet(es: seq<Entry>, k: Key) {
    Get(es, k).Some? && !Get(es, k).value.Null?
  }

  predicate HasField(es: seq<Entry>, name: string) {
    StrKey(name) in Keys(es)
  }

  /** `$v == NULL` under PHP's loose comparison: null, false, 0, "" and the empty array. */
  predicate LooselyNull(v: Value) {
    match v
    case Null => true
    case Bool(b) => !b
    case Int(i) => i == 0
    case Str(s) => s == ""
    case Arr(es) => es == []
  }

  /** `!$v`: PHP's falsy values. Unlike `== NULL`, the string "0" is falsy too. */
  predicate Falsy(v: Value) {
    LooselyNull(v) || v == Str("0")
  }

  /** PHP's string conversion `(string)$v`, as used when a value is bound as text. */
  function StrVal(v: Value): string {
    match v
    case Str(s) => s
    case Int(i) => IntToString(i)
    case Bool(b) => if b then "1" else ""
    case Null => ""
    case Arr(_) => "Array"
  }

  /** PHP's `intval($v)`, as used when a value is bound as an integer. */
  function IntVal(v: Value): (n: int)
    ensures InRange(n)
  {
    match v
    case Str(s) => IntValOfString(s)
    case Int(i) => Clamp(i)
    case Bool(b) => if b then 1 else 0
    case Null => 0
    case Arr(es) => if es == [] then 0 else 1
  }

  /**
   The text every serializer prints for a scalar leaf: booleans as "true" or
   "false", everything else through PHP's string conversion.
   */
  function LeafText(v: Value): (t: string)
    requires !v.Arr?
    ensures v.Bool? ==> t == (if v.b then "true" else "false")
    ensures !v.Bool? ==> t == StrVal(v)
  {
    match v
    case Bool(b) => if b then "true" else "false"
    case _ => StrVal(v)
  }

  /** A list in PHP's sense: the keys are 0, 1, 2, ... in order. */
  predicate IsList(es: seq<Entry>) {
    forall i :: 0 <= i < |es| ==> es[i].key == IntKey(i)
  }

  /** An object-like array: every key is a string. */
  predicate IsRecord(es: seq<Entry>) {
    forall i :: 0 <= i < |es| ==> es[i].key.StrKey?
  }

  predicate UniqueKeys(es: seq<Entry>) {
    forall i, j :: 0 <= i < j < |es| ==> es[i].key != es[j].key
  }

  /**
   The keys a PHP array can really hold: an integer key is a 64-bit integer,
   and a string key is never the canonical text of one (PHP turns "5" into 5).
   */
  predicate ValidKey(k: Key) {
    match k
    case IntKey(n) => InRange(n)
    case StrKey(s) => CanonicalInt(s).None?
  }

  /** Every array in the tree is a genuine PHP array. */
  predicate WellFormed(v: Value) {
    match v
    case Arr(es) => UniqueKeys(es) && WellFormedEntries(es)
    case _ => true
  }

  predicate WellFormedEntry(e: Entry) {
    ValidKey(e.key) && WellFormed(e.val)
  }

  predicate WellFormedEntries(es: seq<Entry>) {
    if es == [] then true else WellFormedEntry(es[0]) && WellFormedEntries(es[1..])
  }

  /** Every array in the tree is either a list or a record. */
  predicate ListsAndRecords(v: Value) {
    match v
    case Arr(es) => (IsList(es) || IsRecord(es)) && ListsAndRecordsEntries(es)
    case _ => true
  }

  predicate ListsAndRecordsEntry(e: Entry) {
    ListsAndRecords(e.val)
  }

  predicate ListsAndRecordsEntries(es: seq<Entry>) {
    if es == [] then true else ListsAndRecordsEntry(es[0]) && ListsAndRecordsEntries(es[1..])
  }

  /**
   What a text-only format keeps of a tree: the same keys and nesting, each
   scalar leaf replaced by the text printed for it.
   */
  function Erase(v: Value): (r: Value)
    ensures v.Arr? <==> r.Arr?
    ensures v.Arr? ==> |r.entries| == |v.entries|
    ensures !v.Arr? ==> r == Str(LeafText(v))
  {
    match v
    case Arr(es) => Arr(EraseEntries(es))
    case _ => Str(LeafText(v))
  }

  function EraseEntry(e: Entry): (r: Entry)
    ensures r.key == e.key
  {
    Entry(e.key, Erase(e.val))
  }

  function EraseEntries(es: seq<Entry>): (r: seq<Entry>)
    ensures |r| == |es|
    ensures Keys(r) == Keys(es)
  {
    if es == [] then [] else [EraseEntry(es[0])] + EraseEntries(es[1..])
  }
}
