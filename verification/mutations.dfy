/**
 The writing statements of `webservice.php`: single insert, the
 all-or-nothing batch insert, and the batch that completes soft deletions.
 The bind/execute outcome of each statement and the outcome of each image
 write are given by the caller, by the item's position in its batch.
 */
module Mutations {

  import opened Wrappers
  import opened Decimal
  import opened ResultTree
  import opened Store

  /** The conventional place of a message's image. */
  function ImagePath(bottle: string, message: string): string {
    "images/bottles/" + bottle + "/" + message + ".png"
  }

  /** `$item[...]` on a batch element: a non-array element has no fields. */
  function Fields(v: Value): (es: seq<Entry>)
    ensures v.Arr? ==> es == v.entries
  {
    if v.Arr? then v.entries else []
  }

  function FieldOr(es: seq<Entry>, name: string, default: Value): Value {
    match Field(es, name)
    case Some(v) => v
    case None => default
  }

  /** The fields an inbound message object must set: btlID, msgID, txt, author, time, crc. */
  predicate HasMandatoryFields(v: Value) {
    && v.Arr?
    && IsSet(v.entries, StrKey("btlID"))
    && IsSet(v.entries, StrKey("msgID"))
    && IsSet(v.entries, StrKey("txt"))
    && IsSet(v.entries, StrKey("author"))
    && IsSet(v.entries, StrKey("time"))
    && IsSet(v.entries, StrKey("crc"))
  }

  /** A JSON ID equals a URL segment: an integer through its decimal text, a string as text. */
  predicate IdMatches(v: Value, segment: string) {
    (v.Int? && IntToString(v.i) == segment) || (v.Str? && v.s == segment)
  }

  /** A batch item passes the loop's own check: mandatory fields set and btlID naming the URL's bottle. */
  predicate ValidItem(v: Value, bottle: string) {
    HasMandatoryFields(v) && IdMatches(FieldOr(v.entries, "btlID", Null), bottle)
  }

  // ---------------------------------------------------------------------------
  // Reading one inbound message
  // ---------------------------------------------------------------------------

  /**
   An inbound message as `insertSingleMessage` reads it into its local
   variables before binding them as `iississdds`: the key through `intval`,
   text fields through string conversion (an unset title is NULL), the
   coordinates as given, and the image path and payload.
   */
  datatype Inbound = Inbound(
    key: MessageKey,
    path: string,
    hasImage: bool,
    payload: string,
    title: Value,
    text: Value,
    author: Value,
    time: Value,
    longitude: Value,
    latitude: Value,
    crc: Value)

  /** `location.longitude` or `location.latitude`, when both levels are set. */
  function Coordinate(es: seq<Entry>, name: string): Value {
    var loc := FieldOr(es, "location", Null);
    if loc.Arr? && IsSet(loc.entries, StrKey(name)) then FieldOr(loc.entries, name, Null) else Null
  }

  function TextOrNull(es: seq<Entry>, name: string): Value {
    if IsSet(es, StrKey(name)) then Str(StrVal(FieldOr(es, name, Null))) else Null
  }

  function Read(v: Value): (it: Inbound)
    ensures it.hasImage <==> IsSet(Fields(v), StrKey("img"))
    ensures it.title.Null? <==> !IsSet(Fields(v), StrKey("title"))
  {
    var es := Fields(v);
    var btl := FieldOr(es, "btlID", Null);
    var msg := FieldOr(es, "msgID", Null);
    Inbound(
      key := (IntVal(btl), IntVal(msg)),
      path := ImagePath(StrVal(btl), StrVal(msg)),
      hasImage := IsSet(es, StrKey("img")),
      payload := StrVal(FieldOr(es, "img", Null)),
      title := TextOrNull(es, "title"),
      text := TextOrNull(es, "txt"),
      author := TextOrNull(es, "author"),
      time := TextOrNull(es, "time"),
      longitude := Coordinate(es, "longitude"),
      latitude := Coordinate(es, "latitude"),
      crc := TextOrNull(es, "crc"))
  }

  /** The row stored for an inbound message; a new row is not flagged and not deleted. */
  function RowOf(it: Inbound, picture: bool): (row: Row)
    ensures row.toBeDeleted == 0 && row.deleted == Null
    ensures row.hasPicture == (if picture then 1 else 0)
    ensures row.title == it.title && row.text == it.text && row.crc == it.crc
  {
    Row(
      title := it.title,
      text := it.text,
      hasPicture := if picture then 1 else 0,
      author := it.author,
      time := it.time,
      toBeDeleted := 0,
      deleted := Null,
      longitude := it.longitude,
      latitude := it.latitude,
      crc := it.crc)
  }

  // ---------------------------------------------------------------------------
  // One insert statement
  // ---------------------------------------------------------------------------

  /** The image payload is written when `img` is set and the folder and file can be written. */
  predicate WritesImage(it: Inbound, writeOk: bool) {
    it.hasImage && writeOk
  }

  /** `file_put_contents(...) != FALSE`: zero bytes written counts as no picture. */
  predicate HasPicture(it: Inbound, writeOk: bool) {
    WritesImage(it, writeOk) && it.payload != ""
  }

  datatype InsertError = Invalid | ExecFailed | Duplicate

  datatype Step = Step(messages: Messages, files: Files, error: Option<InsertError>)

  /**
   `insertSingleMessage`: write the optional image, then insert with
   `On Duplicate Key Update message_id=message_id`. A failed bind or execute
   removes this item's own image when a picture was recorded; a duplicate
   key (zero affected rows) changes no row and keeps the image just written.
   */
  function InsertOne(it: Inbound, msgs: Messages, files: Files, writeOk: bool, execOk: bool): (r: Step)
    ensures r.error.None? <==> execOk && it.key !in msgs
    ensures r.error == Some(Duplicate) <==> execOk && it.key in msgs
    ensures r.error.Some? ==> r.error != Some(Invalid) && r.messages == msgs
    ensures r.error.None? ==> r.messages == msgs[it.key := RowOf(it, HasPicture(it, writeOk))]
    ensures it.path in r.files <==>
      if !execOk && HasPicture(it, writeOk) then false
      else WritesImage(it, writeOk) || it.path in files
    ensures WritesImage(it, writeOk) && !(!execOk && HasPicture(it, writeOk)) ==>
      r.files[it.path] == it.payload
  {
    var written := if WritesImage(it, writeOk) then files[it.path := it.payload] else files;
    var picture := HasPicture(it, writeOk);
    if !execOk then Step(msgs, if picture then written - {it.path} else written, Some(ExecFailed))
    else if it.key in msgs then Step(msgs, written, Some(Duplicate))
    else Step(msgs[it.key := RowOf(it, picture)], written, None)
  }

  /** An insert touches no file but the item's own image. */
  lemma InsertOneFiles(it: Inbound, msgs: Messages, files: Files, writeOk: bool, execOk: bool)
    ensures var r := InsertOne(it, msgs, files, writeOk, execOk);
      forall p :: p != it.path ==> (p in r.files <==> p in files) && (p in files ==> r.files[p] == files[p])
  {
  }

  // ---------------------------------------------------------------------------
  // The batch insert
  // ---------------------------------------------------------------------------

  /** A batch element after the loop's check and the field reads. */
  datatype Candidate = Candidate(valid: bool, item: Inbound)

  function ReadBatch(entries: seq<Entry>, bottle: string): (cs: seq<Candidate>)
    ensures |cs| == |entries|
    ensures forall i :: 0 <= i < |cs| ==>
      cs[i].valid == ValidItem(entries[i].val, bottle) && cs[i].item == Read(entries[i].val)
  {
    seq(|entries|, i requires 0 <= i < |entries| =>
      Candidate(ValidItem(entries[i].val, bottle), Read(entries[i].val)))
  }

  datatype Failure = Failure(at: nat, reason: InsertError)

  datatype Batch = Batch(messages: Messages, files: Files, failure: Option<Failure>)

  /** The loop of `insertMessages`, from item position `start` on; it stops at the first failure. */
  function InsertItems(cs: seq<Candidate>, msgs: Messages, files: Files,
                       writeFails: set<nat>, execFails: set<nat>, start: nat): (r: Batch)
    ensures r.failure.Some? ==> start <= r.failure.value.at < start + |cs|
    decreases |cs|
  {
    if cs == [] then Batch(msgs, files, None)
    else if !cs[0].valid then Batch(msgs, files, Some(Failure(start, Invalid)))
    else
      var s := InsertOne(cs[0].item, msgs, files, start !in writeFails, start !in execFails);
      if s.error.Some? then Batch(s.messages, s.files, Some(Failure(start, s.error.value)))
      else InsertItems(cs[1..], s.messages, s.files, writeFails, execFails, start + 1)
  }

  /**
   `insertMessages`: all or nothing. On a failure the transaction is rolled
   back, so the rows are the snapshot taken before the batch; the image files
   are left as the loop left them.
   */
  function InsertBatch(entries: seq<Entry>, bottle: string, msgs: Messages, files: Files,
                       writeFails: set<nat>, execFails: set<nat>): (r: Batch)
    ensures r.failure.Some? ==> r.messages == msgs && r.failure.value.at < |entries|
    ensures r.failure == InsertItems(ReadBatch(entries, bottle), msgs, files, writeFails, execFails, 0).failure
    ensures r.files == InsertItems(ReadBatch(entries, bottle), msgs, files, writeFails, execFails, 0).files
  {
    var b := InsertItems(ReadBatch(entries, bottle), msgs, files, writeFails, execFails, 0);
    if b.failure.Some? then Batch(msgs, b.files, b.failure) else b
  }

  // ---------------------------------------------------------------------------
  // What a batch insert does, stated item by item
  // ---------------------------------------------------------------------------

  /** The keys a batch names, in order. */
  function KeysOf(cs: seq<Candidate>): (ks: seq<MessageKey>)
    ensures |ks| == |cs|
    ensures forall i :: 0 <= i < |cs| ==> ks[i] == cs[i].item.key
  {
    seq(|cs|, i requires 0 <= i < |cs| => cs[i].item.key)
  }

  /** The row the batch writes for item `i`, whose position is `start + i`. */
  function RowAt(cs: seq<Candidate>, writeFails: set<nat>, start: nat, i: nat): Row
    requires i < |cs|
  {
    RowOf(cs[i].item, HasPicture(cs[i].item, start + i !in writeFails))
  }

  /** No key of `ks` is in `used`, and no key occurs twice. */
  predicate Fresh<K(==)>(ks: seq<K>, used: set<K>) {
    && (forall i :: 0 <= i < |ks| ==> ks[i] !in used)
    && (forall i, j :: 0 <= i < j < |ks| ==> ks[i] != ks[j])
  }

  lemma FreshCons<K>(ks: seq<K>, used: set<K>)
    requires |ks| > 0
    ensures Fresh(ks, used) <==> ks[0] !in used && Fresh(ks[1..], used + {ks[0]})
  {
    var rest := ks[1..];
    if ks[0] !in used && Fresh(rest, used + {ks[0]}) {
      forall i, j | 0 <= i < j < |ks| ensures ks[i] != ks[j] {
        assert ks[j] == rest[j - 1];
        if i > 0 {
          assert ks[i] == rest[i - 1];
        }
      }
      forall i | 0 <= i < |ks| ensures ks[i] !in used {
        if i > 0 {
          assert ks[i] == rest[i - 1];
        }
      }
    }
    if Fresh(ks, used) {
      forall j | 0 <= j < |rest| ensures rest[j] !in used + {ks[0]} {
        assert rest[j] == ks[j + 1];
      }
      forall i, j | 0 <= i < j < |rest| ensures rest[i] != rest[j] {
        assert rest[i] == ks[i + 1] && rest[j] == ks[j + 1];
      }
    }
  }

  /**
   Reference meaning of a batch that gets through: every item is valid and
   its statement executes, and the keys are new to the store and pairwise
   distinct (a key met twice is a duplicate the second time).
   */
  predicate Succeeds(cs: seq<Candidate>, msgs: Messages, execFails: set<nat>, start: nat) {
    && (forall i :: 0 <= i < |cs| ==> cs[i].valid && start + i !in execFails)
    && Fresh(KeysOf(cs), msgs.Keys)
  }

  lemma SucceedsCons(cs: seq<Candidate>, msgs: Messages, execFails: set<nat>, start: nat, row: Row)
    requires |cs| > 0
    ensures Succeeds(cs, msgs, execFails, start) <==>
      && cs[0].valid && start !in execFails && cs[0].item.key !in msgs
      && Succeeds(cs[1..], msgs[cs[0].item.key := row], execFails, start + 1)
  {
    var rest := cs[1..];
    var k := cs[0].item.key;
    assert KeysOf(rest) == KeysOf(cs)[1..];
    assert msgs[k := row].Keys == msgs.Keys + {k};
    FreshCons(KeysOf(cs), msgs.Keys);
    if Succeeds(cs, msgs, execFails, start) {
      forall j | 0 <= j < |rest| ensures rest[j].valid && start + 1 + j !in execFails {
        assert rest[j] == cs[j + 1];
      }
      assert Succeeds(rest, msgs[k := row], execFails, start + 1);
    }
    if && cs[0].valid && start !in execFails && k !in msgs
       && Succeeds(rest, msgs[k := row], execFails, start + 1) {
      forall i | 0 <= i < |cs| ensures cs[i].valid && start + i !in execFails {
        if i > 0 {
          assert cs[i] == rest[i - 1];
        }
      }
      assert Succeeds(cs, msgs, execFails, start);
    }
  }

  /** One step of the loop, when the first item gets through. */
  lemma InsertItemsStep(cs: seq<Candidate>, msgs: Messages, files: Files,
                        writeFails: set<nat>, execFails: set<nat>, start: nat)
    requires cs != [] && cs[0].valid
    requires InsertOne(cs[0].item, msgs, files, start !in writeFails, start !in execFails).error.None?
    ensures var s := InsertOne(cs[0].item, msgs, files, start !in writeFails, start !in execFails);
      && s.messages == msgs[cs[0].item.key := RowAt(cs, writeFails, start, 0)]
      && InsertItems(cs, msgs, files, writeFails, execFails, start) ==
         InsertItems(cs[1..], s.messages, s.files, writeFails, execFails, start + 1)
  {
  }

  /** A batch loop reports no failure exactly when the batch gets through. */
  lemma {:induction false} InsertItemsSucceeds(cs: seq<Candidate>, msgs: Messages, files: Files,
                                               writeFails: set<nat>, execFails: set<nat>, start: nat)
    ensures InsertItems(cs, msgs, files, writeFails, execFails, start).failure.None? <==>
      Succeeds(cs, msgs, execFails, start)
    decreases |cs|
  {
    if cs != [] {
      var row := RowAt(cs, writeFails, start, 0);
      SucceedsCons(cs, msgs, execFails, start, row);
      if cs[0].valid {
        var s := InsertOne(cs[0].item, msgs, files, start !in writeFails, start !in execFails);
        if s.error.None? {
          InsertItemsStep(cs, msgs, files, writeFails, execFails, start);
          InsertItemsSucceeds(cs[1..], s.messages, s.files, writeFails, execFails, start + 1);
        }
      }
    }
  }

  /** A batch that gets through adds exactly the items' keys, one new row per item. */
  lemma {:induction false} InsertItemsCommits(cs: seq<Candidate>, msgs: Messages, files: Files,
                                              writeFails: set<nat>, execFails: set<nat>, start: nat)
    requires Succeeds(cs, msgs, execFails, start)
    ensures var r := InsertItems(cs, msgs, files, writeFails, execFails, start);
      && (forall k :: k in r.messages <==> k in msgs || k in KeysOf(cs))
      && |r.messages| == |msgs| + |cs|
    decreases |cs|
  {
    if cs != [] {
      var k := cs[0].item.key;
      SucceedsCons(cs, msgs, execFails, start, RowAt(cs, writeFails, start, 0));
      var s := InsertOne(cs[0].item, msgs, files, start !in writeFails, start !in execFails);
      InsertItemsStep(cs, msgs, files, writeFails, execFails, start);
      InsertItemsCommits(cs[1..], s.messages, s.files, writeFails, execFails, start + 1);
      assert KeysOf(cs) == [k] + KeysOf(cs[1..]);
    }
  }

  /** A batch that gets through changes no row that was there before. */
  lemma {:induction false} InsertItemsKeepsRows(cs: seq<Candidate>, msgs: Messages, files: Files,
                                                writeFails: set<nat>, execFails: set<nat>, start: nat)
    requires Succeeds(cs, msgs, execFails, start)
    ensures var r := InsertItems(cs, msgs, files, writeFails, execFails, start);
      forall k :: k in msgs ==> k in r.messages && r.messages[k] == msgs[k]
    decreases |cs|
  {
    if cs != [] {
      SucceedsCons(cs, msgs, execFails, start, RowAt(cs, writeFails, start, 0));
      var s := InsertOne(cs[0].item, msgs, files, start !in writeFails, start !in execFails);
      InsertItemsStep(cs, msgs, files, writeFails, execFails, start);
      InsertItemsKeepsRows(cs[1..], s.messages, s.files, writeFails, execFails, start + 1);
    }
  }

  /** After a batch that gets through, item `i`'s key holds the row built from item `i`. */
  lemma {:induction false} InsertItemsRows(cs: seq<Candidate>, msgs: Messages, files: Files,
                                           writeFails: set<nat>, execFails: set<nat>, start: nat, i: nat)
    requires Succeeds(cs, msgs, execFails, start)
    requires i < |cs|
    ensures var r := InsertItems(cs, msgs, files, writeFails, execFails, start);
      cs[i].item.key in r.messages && r.messages[cs[i].item.key] == RowAt(cs, writeFails, start, i)
    decreases |cs|
  {
    var row := RowAt(cs, writeFails, start, 0);
    SucceedsCons(cs, msgs, execFails, start, row);
    var s := InsertOne(cs[0].item, msgs, files, start !in writeFails, start !in execFails);
    InsertItemsStep(cs, msgs, files, writeFails, execFails, start);
    InsertItemsKeepsRows(cs[1..], s.messages, s.files, writeFails, execFails, start + 1);
    if i > 0 {
      InsertItemsRows(cs[1..], s.messages, s.files, writeFails, execFails, start + 1, i - 1);
      assert cs[1..][i - 1] == cs[i];
    }
  }

  /** Why a batch loop stops: the reason names the failing item's first unmet check. */
  lemma {:induction false} InsertItemsReason(cs: seq<Candidate>, msgs: Messages, files: Files,
                                             writeFails: set<nat>, execFails: set<nat>, start: nat)
    ensures var r := InsertItems(cs, msgs, files, writeFails, execFails, start);
      r.failure.Some? ==>
        var i := r.failure.value.at - start;
        && (r.failure.value.reason == Invalid <==> !cs[i].valid)
        && (r.failure.value.reason == ExecFailed <==> cs[i].valid && start + i in execFails)
    decreases |cs|
  {
    var r := InsertItems(cs, msgs, files, writeFails, execFails, start);
    if cs != [] && r.failure.Some? && cs[0].valid {
      var s := InsertOne(cs[0].item, msgs, files, start !in writeFails, start !in execFails);
      if s.error.None? {
        InsertItemsStep(cs, msgs, files, writeFails, execFails, start);
        InsertItemsReason(cs[1..], s.messages, s.files, writeFails, execFails, start + 1);
        assert cs[1..][r.failure.value.at - start - 1] == cs[r.failure.value.at - start];
      }
    }
  }

  /** The items before the one a batch loop stops at all get through. */
  lemma {:induction false} InsertItemsStopsAfter(cs: seq<Candidate>, msgs: Messages, files: Files,
                                                 writeFails: set<nat>, execFails: set<nat>, start: nat)
    ensures var r := InsertItems(cs, msgs, files, writeFails, execFails, start);
      r.failure.Some? ==> Succeeds(cs[..r.failure.value.at - start], msgs, execFails, start)
    decreases |cs|
  {
    var r := InsertItems(cs, msgs, files, writeFails, execFails, start);
    if cs != [] && r.failure.Some? {
      var i := r.failure.value.at - start;
      var s := InsertOne(cs[0].item, msgs, files, start !in writeFails, start !in execFails);
      if cs[0].valid && s.error.None? {
        InsertItemsStep(cs, msgs, files, writeFails, execFails, start);
        InsertItemsStopsAfter(cs[1..], s.messages, s.files, writeFails, execFails, start + 1);
        PrefixCons(cs, i);
        SucceedsCons(cs[..i], msgs, execFails, start, RowAt(cs, writeFails, start, 0));
      } else {
        assert Succeeds(cs[..0], msgs, execFails, start);
      }
    }
  }

  /** The item a batch loop stops at does not get through. */
  lemma {:induction false} InsertItemsStopsAt(cs: seq<Candidate>, msgs: Messages, files: Files,
                                              writeFails: set<nat>, execFails: set<nat>, start: nat)
    ensures var r := InsertItems(cs, msgs, files, writeFails, execFails, start);
      r.failure.Some? ==> !Succeeds(cs[..r.failure.value.at - start + 1], msgs, execFails, start)
    decreases |cs|
  {
    var r := InsertItems(cs, msgs, files, writeFails, execFails, start);
    if cs != [] && r.failure.Some? {
      var i := r.failure.value.at - start;
      var s := InsertOne(cs[0].item, msgs, files, start !in writeFails, start !in execFails);
      PrefixCons(cs, i + 1);
      SucceedsCons(cs[..i + 1], msgs, execFails, start, RowAt(cs, writeFails, start, 0));
      if cs[0].valid && s.error.None? {
        InsertItemsStep(cs, msgs, files, writeFails, execFails, start);
        InsertItemsStopsAt(cs[1..], s.messages, s.files, writeFails, execFails, start + 1);
      }
    }
  }

  lemma PrefixCons<T>(xs: seq<T>, n: nat)
    requires 0 < n <= |xs|
    ensures xs[..n][0] == xs[0] && xs[..n][1..] == xs[1..][..n - 1]
  {
  }

  /**
   The failing item's own image, when the batch stopped because its
   statement did not execute: the only file the loop ever removes.
   */
  predicate RemovedAt(r: Batch, cs: seq<Candidate>, start: nat, p: string) {
    && r.failure.Some?
    && r.failure.value.reason == ExecFailed
    && start <= r.failure.value.at < start + |cs|
    && p == cs[r.failure.value.at - start].item.path
  }

  /** Item `i` was handed to the insert statement: it came before the failing item, or failed there. */
  predicate Reached(r: Batch, start: nat, i: nat) {
    || r.failure.None?
    || start + i < r.failure.value.at
    || (start + i == r.failure.value.at && r.failure.value.reason != Invalid)
  }

  /**
   Image files after a batch loop: every file that existed stays, and every
   image an item wrote stays, except the failing item's own image when its
   statement did not execute; in particular a rollback leaves the images
   of the items before the failing one in place. No other file appears.
   */
  lemma {:induction false} InsertItemsFiles(cs: seq<Candidate>, msgs: Messages, files: Files,
                                            writeFails: set<nat>, execFails: set<nat>, start: nat)
    ensures var r := InsertItems(cs, msgs, files, writeFails, execFails, start);
      forall p :: p in files && !RemovedAt(r, cs, start, p) ==> p in r.files
    ensures var r := InsertItems(cs, msgs, files, writeFails, execFails, start);
      forall i :: 0 <= i < |cs| ==>
        ((Reached(r, start, i) && WritesImage(cs[i].item, start + i !in writeFails) &&
          !RemovedAt(r, cs, start, cs[i].item.path)) ==> cs[i].item.path in r.files)
    ensures var r := InsertItems(cs, msgs, files, writeFails, execFails, start);
      forall p :: p in r.files ==> p in files || exists i :: 0 <= i < |cs| && cs[i].item.path == p
    decreases |cs|
  {
    var r := InsertItems(cs, msgs, files, writeFails, execFails, start);
    if cs != [] && cs[0].valid {
      var s := InsertOne(cs[0].item, msgs, files, start !in writeFails, start !in execFails);
      if s.error.None? {
        var rest := cs[1..];
        InsertItemsStep(cs, msgs, files, writeFails, execFails, start);
        InsertOneFiles(cs[0].item, msgs, files, start !in writeFails, start !in execFails);
        InsertItemsFiles(rest, s.messages, s.files, writeFails, execFails, start + 1);
        assert forall p :: RemovedAt(r, rest, start + 1, p) ==> RemovedAt(r, cs, start, p);
        assert forall i :: 0 < i < |cs| ==> rest[i - 1] == cs[i];
      }
    }
  }

  /**
   A batch loop that stops keeps the image an earlier item wrote, unless it
   is the failing item's own file and that item's statement failed.
   */
  lemma StoppedKeepsImage(cs: seq<Candidate>, msgs: Messages, files: Files,
                          writeFails: set<nat>, execFails: set<nat>, j: nat)
    requires var r := InsertItems(cs, msgs, files, writeFails, execFails, 0);
      r.failure.Some? && j < r.failure.value.at
    requires var at := InsertItems(cs, msgs, files, writeFails, execFails, 0).failure.value.at;
      WritesImage(cs[j].item, j !in writeFails) && cs[j].item.path != cs[at].item.path
    ensures cs[j].item.path in InsertItems(cs, msgs, files, writeFails, execFails, 0).files
  {
    var r := InsertItems(cs, msgs, files, writeFails, execFails, 0);
    InsertItemsFiles(cs, msgs, files, writeFails, execFails, 0);
    assert Reached(r, 0, j);
    assert !RemovedAt(r, cs, 0, cs[j].item.path);
    assert WritesImage(cs[j].item, 0 + j !in writeFails);
  }

  /** The failing item's image is gone when its statement failed after a picture was recorded. */
  lemma {:induction false} InsertItemsUnlinks(cs: seq<Candidate>, msgs: Messages, files: Files,
                                              writeFails: set<nat>, execFails: set<nat>, start: nat)
    ensures var r := InsertItems(cs, msgs, files, writeFails, execFails, start);
      r.failure.Some? && r.failure.value.reason == ExecFailed ==>
        var i := r.failure.value.at - start;
        HasPicture(cs[i].item, start + i !in writeFails) ==> cs[i].item.path !in r.files
    decreases |cs|
  {
    var r := InsertItems(cs, msgs, files, writeFails, execFails, start);
    if cs != [] && r.failure.Some? && r.failure.value.at > start {
      var s := InsertOne(cs[0].item, msgs, files, start !in writeFails, start !in execFails);
      InsertItemsUnlinks(cs[1..], s.messages, s.files, writeFails, execFails, start + 1);
      assert cs[1..][r.failure.value.at - start - 1] == cs[r.failure.value.at - start];
    }
  }

  // ---------------------------------------------------------------------------
  // Completing deletions
  // ---------------------------------------------------------------------------

  /**
   `Update messages Set to_be_deleted = 0, deleted = ? Where to_be_deleted = 1
   And message_id = ?`. There is no bottle filter: a flagged message with
   this ID is completed in every bottle.
   */
  function MarkOne(msgs: Messages, id: int, date: string): (r: Messages)
    ensures r.Keys == msgs.Keys
  {
    map k | k in msgs :: if k.1 == id && Flagged(msgs[k]) then CompletedRow(msgs[k], date) else msgs[k]
  }

  /** Every statement at positions `from` up to `from + count` executes. */
  predicate Executes(execFails: set<nat>, from: nat, count: nat) {
    forall p :: from <= p < from + count ==> p !in execFails
  }

  /** The loop of `markMessagesAsDeleted` from position `start` on; None when a statement fails. */
  function MarkItems(msgs: Messages, ids: seq<Entry>, date: string, execFails: set<nat>, start: nat): (r: Option<Messages>)
    ensures r.Some? ==> r.value.Keys == msgs.Keys
    decreases |ids|
  {
    if ids == [] then Some(msgs)
    else if start in execFails then None
    else MarkItems(MarkOne(msgs, IntVal(ids[0].val), date), ids[1..], date, execFails, start + 1)
  }

  /**
   `markMessagesAsDeleted`: Some(new rows) when every update executed (the
   commit); None when one failed, which rolls back to the snapshot.
   */
  function MarkDeleted(msgs: Messages, ids: seq<Entry>, date: string, execFails: set<nat>): (r: Option<Messages>)
    ensures r.Some? ==> r.value.Keys == msgs.Keys
  {
    MarkItems(msgs, ids, date, execFails, 0)
  }

  /** The IDs a mark-deleted batch names, each through `intval`. */
  function IdSet(ids: seq<Entry>): (s: set<int>)
    ensures forall i :: 0 <= i < |ids| ==> IntVal(ids[i].val) in s
    ensures forall x :: x in s ==> exists i :: 0 <= i < |ids| && IntVal(ids[i].val) == x
  {
    set i | 0 <= i < |ids| :: IntVal(ids[i].val)
  }

  /** A row that the completion applies to, and what it becomes. */
  predicate Flagged(row: Row) {
    row.toBeDeleted == 1
  }

  function CompletedRow(row: Row, date: string): Row {
    row.(toBeDeleted := 0, deleted := Str(date))
  }

  /**
   Reference meaning of a completed mark-deleted batch: exactly the flagged
   rows whose message ID is named, in whatever bottle, are completed with
   the date; every other row and every key stays.
   */
  function Completed(msgs: Messages, named: set<int>, date: string): (r: Messages)
    ensures r.Keys == msgs.Keys
  {
    map k | k in msgs :: if k.1 in named && Flagged(msgs[k]) then CompletedRow(msgs[k], date) else msgs[k]
  }

  lemma IdSetCons(ids: seq<Entry>)
    requires ids != []
    ensures IdSet(ids) == {IntVal(ids[0].val)} + IdSet(ids[1..])
  {
    forall x | x in IdSet(ids) ensures x in {IntVal(ids[0].val)} + IdSet(ids[1..]) {
      var i :| 0 <= i < |ids| && IntVal(ids[i].val) == x;
      if i > 0 {
        assert ids[1..][i - 1] == ids[i];
      }
    }
    forall x | x in IdSet(ids[1..]) ensures x in IdSet(ids) {
      var i :| 0 <= i < |ids[1..]| && IntVal(ids[1..][i].val) == x;
      assert ids[1..][i] == ids[i + 1];
    }
  }

  /** One update statement, followed by completing `named`, completes `named` and its ID. */
  lemma MarkOneThenCompleted(msgs: Messages, id: int, named: set<int>, date: string)
    ensures Completed(MarkOne(msgs, id, date), named, date) == Completed(msgs, {id} + named, date)
  {
    var a := Completed(MarkOne(msgs, id, date), named, date);
    var b := Completed(msgs, {id} + named, date);
    forall k | k in a ensures a[k] == b[k] {
    }
    assert a == b;
  }

  lemma CompletedNone(msgs: Messages, date: string)
    ensures Completed(msgs, {}, date) == msgs
  {
    assert forall k :: k in msgs ==> Completed(msgs, {}, date)[k] == msgs[k];
  }

  /**
   The mark-deleted loop is all or nothing: it fails exactly when one of its
   statements fails, and otherwise its rows are the reference completion of
   the named IDs, whatever the order and repetitions in the list.
   */
  lemma {:induction false} MarkItemsCompletes(msgs: Messages, ids: seq<Entry>, date: string,
                                              execFails: set<nat>, start: nat)
    ensures MarkItems(msgs, ids, date, execFails, start) ==
      if Executes(execFails, start, |ids|) then Some(Completed(msgs, IdSet(ids), date)) else None
    decreases |ids|
  {
    if ids == [] {
      CompletedNone(msgs, date);
      assert IdSet(ids) == {};
    } else if start in execFails {
      assert !Executes(execFails, start, |ids|);
    } else {
      var id := IntVal(ids[0].val);
      MarkItemsCompletes(MarkOne(msgs, id, date), ids[1..], date, execFails, start + 1);
      MarkOneThenCompleted(msgs, id, IdSet(ids[1..]), date);
      IdSetCons(ids);
      assert Executes(execFails, start, |ids|) <==> Executes(execFails, start + 1, |ids| - 1);
    }
  }

  lemma MarkDeletedCompletes(msgs: Messages, ids: seq<Entry>, date: string, execFails: set<nat>)
    ensures MarkDeleted(msgs, ids, date, execFails) ==
      if Executes(execFails, 0, |ids|) then Some(Completed(msgs, IdSet(ids), date)) else None
  {
    MarkItemsCompletes(msgs, ids, date, execFails, 0);
  }

  /** Completing twice with the same IDs and date is completing once. */
  lemma CompletedIdempotent(msgs: Messages, named: set<int>, date: string)
    ensures Completed(Completed(msgs, named, date), named, date) == Completed(msgs, named, date)
  {
    var once := Completed(msgs, named, date);
    forall k | k in once ensures Completed(once, named, date)[k] == once[k] {
    }
    assert Completed(once, named, date) == once;
  }

  /**
   A completion that matches no flagged row changes nothing, and it is not
   an error: the update count is never checked.
   */
  lemma CompletedNoMatch(msgs: Messages, named: set<int>, date: string)
    requires forall k :: k in msgs && Flagged(msgs[k]) ==> k.1 !in named
    ensures Completed(msgs, named, date) == msgs
  {
    forall k | k in msgs ensures Completed(msgs, named, date)[k] == msgs[k] {
    }
    assert Completed(msgs, named, date) == msgs;
  }

  /** Only flagged rows are completed, and a completed row is no longer flagged. */
  lemma CompletedRows(msgs: Messages, named: set<int>, date: string, k: MessageKey)
    requires k in msgs
    ensures var r := Completed(msgs, named, date);
      && (Flagged(msgs[k]) && k.1 in named ==> !Flagged(r[k]) && r[k].deleted == Str(date))
      && (!Flagged(msgs[k]) || k.1 !in named ==> r[k] == msgs[k])
      && r[k].(toBeDeleted := msgs[k].toBeDeleted, deleted := msgs[k].deleted) == msgs[k]
  {
  }

  /**
   There is no bottle filter: a flagged message with the named ID is
   completed in another bottle too.
   */
  lemma CompletionCrossesBottles(row: Row, date: string)
    requires Flagged(row)
    ensures var msgs := map[(1, 7) := row, (2, 7) := row];
      var r := Completed(msgs, {7}, date);
      !Flagged(r[(1, 7)]) && !Flagged(r[(2, 7)])
  {
  }
}
