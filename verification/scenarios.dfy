/**
 Properties of whole requests and of requests in sequence: what a
 successful POST stores is what a GET of the same URL answers, the image it
 wrote is what the image URL serves, and the failure paths leave the store
 as it was.
 */
module Scenarios {

  import opened Wrappers
  import opened Decimal
  import opened ResultTree
  import opened Request
  import opened Store
  import Mutations
  import opened Shaping
  import opened Service
  import opened Formats

  /** An ID in the body that matches a URL segment is read as the integer the segment reads as. */
  lemma IdMatchesIntVal(v: Value, segment: string)
    requires Mutations.IdMatches(v, segment)
    requires v.Int? ==> InRange(v.i)
    ensures IntVal(v) == IntValOfString(segment)
    ensures StrVal(v) == segment
  {
    if v.Int? {
      IntToStringRoundTrip(v.i);
    }
  }

  /** JSON integers decode to 64-bit values. */
  predicate IdsInRange(body: Value)
    requires body.Arr?
  {
    && (var b := Mutations.FieldOr(body.entries, "btlID", Null); b.Int? ==> InRange(b.i))
    && (var m := Mutations.FieldOr(body.entries, "msgID", Null); m.Int? ==> InRange(m.i))
  }

  /** A body that passes the check is stored under the URL's IDs, its image under the URL's image path. */
  lemma ReadUnderUrl(body: Option<Value>, bottle: string, message: string)
    requires SingleValid(body, bottle, message) && IdsInRange(body.value)
    ensures Mutations.Read(body.value).key == (IntValOfString(bottle), IntValOfString(message))
    ensures Mutations.Read(body.value).path == Mutations.ImagePath(bottle, message)
  {
    var es := body.value.entries;
    IdMatchesIntVal(Mutations.FieldOr(es, "btlID", Null), bottle);
    IdMatchesIntVal(Mutations.FieldOr(es, "msgID", Null), message);
  }

  /**
   The stored row is read back under the URL's IDs: after a 201 for
   bottles/<b>/messages/<m>, a GET of the same URL answers 200 with the
   message shaped from the row that was written, text shown.
   */
  lemma InsertThenGet(host: string, bottle: string, message: string, body: Option<Value>,
                      o: Oracle, st: State, ext: Option<string>)
    requires body.Some? && body.value.Arr? && IdsInRange(body.value)
    requires InsertSingleOp(host, bottle, message, body, o, st).response.status == CREATED
    ensures var st' := InsertSingleOp(host, bottle, message, body, o, st).state;
      var it := Mutations.Read(body.value);
      var row := Mutations.RowOf(it, Mutations.HasPicture(it, 0 !in o.writeFails));
      && MessageOp(host, bottle, message, ext, o, st').status == OK
      && MessageOp(host, bottle, message, ext, o, st').body == Render(Message(host, bottle, message, row, false), ext)
      && !Tombstone(row)
      && Shape(host, bottle, message, row, false).txt == it.text
  {
    ReadUnderUrl(body, bottle, message);
    var st' := InsertSingleOp(host, bottle, message, body, o, st).state;
    var it := Mutations.Read(body.value);
    var row := Mutations.RowOf(it, Mutations.HasPicture(it, 0 !in o.writeFails));
    assert st'.messages[(IntValOfString(bottle), IntValOfString(message))] == row;
    assert !Tombstone(row);
  }

  /**
   An image sent with a message that was stored is served from the image
   URL of that message, as written (a PNG that decodes).
   */
  lemma InsertThenFetchImage(host: string, bottle: string, message: string, body: Option<Value>,
                             o: Oracle, st: State)
    requires body.Some? && body.value.Arr? && IdsInRange(body.value)
    requires InsertSingleOp(host, bottle, message, body, o, st).response.status == CREATED
    requires Mutations.WritesImage(Mutations.Read(body.value), 0 !in o.writeFails) && o.pngOk
    ensures var st' := InsertSingleOp(host, bottle, message, body, o, st).state;
      ImageOp(bottle, message, o, st') == Response(OK, None, None, PngBody(Mutations.Read(body.value).payload))
  {
    ReadUnderUrl(body, bottle, message);
  }

  /** Posting a message whose key is taken answers 400 and keeps the stored row. */
  lemma DuplicateInsert(host: string, bottle: string, message: string, body: Option<Value>, o: Oracle, st: State)
    requires SingleValid(body, bottle, message) && o.prepareOk
    requires Mutations.Read(body.value).key in st.messages
    ensures var r := InsertSingleOp(host, bottle, message, body, o, st);
      r.response.status == BAD_REQUEST && r.state.messages == st.messages
  {
  }

  /** Posting the same message twice: the second answer is 400 and the stored row is the first one. */
  lemma InsertTwice(host: string, bottle: string, message: string, body: Option<Value>, o: Oracle, st: State)
    requires InsertSingleOp(host, bottle, message, body, o, st).response.status == CREATED
    ensures var once := InsertSingleOp(host, bottle, message, body, o, st).state;
      var twice := InsertSingleOp(host, bottle, message, body, o, once);
      twice.response.status == BAD_REQUEST && twice.state.messages == once.messages
  {
  }

  /**
   A committed batch adds exactly its keys, each with the row written for
   it, and keeps every row that was there.
   */
  lemma BatchCommitsAll(host: string, bottle: string, items: seq<Entry>, o: Oracle, st: State)
    requires InsertBatchOp(host, bottle, items, o, st).response.status == CREATED
    ensures var after := InsertBatchOp(host, bottle, items, o, st).state.messages;
      var cs := Mutations.ReadBatch(items, bottle);
      && (forall k :: k in after <==> k in st.messages || k in Mutations.KeysOf(cs))
      && |after| == |st.messages| + |items|
      && (forall k :: k in st.messages ==> k in after && after[k] == st.messages[k])
      && (forall i :: 0 <= i < |cs| ==>
            cs[i].item.key in after && after[cs[i].item.key] == Mutations.RowAt(cs, o.writeFails, 0, i))
  {
    var cs := Mutations.ReadBatch(items, bottle);
    var b := Mutations.InsertItems(cs, st.messages, st.files, o.writeFails, o.execFails, 0);
    assert InsertBatchOp(host, bottle, items, o, st).state.messages == b.messages;
    Mutations.InsertItemsCommits(cs, st.messages, st.files, o.writeFails, o.execFails, 0);
    Mutations.InsertItemsKeepsRows(cs, st.messages, st.files, o.writeFails, o.execFails, 0);
    forall i | 0 <= i < |cs|
      ensures cs[i].item.key in b.messages && b.messages[cs[i].item.key] == Mutations.RowAt(cs, o.writeFails, 0, i)
    {
      Mutations.InsertItemsRows(cs, st.messages, st.files, o.writeFails, o.execFails, 0, i);
    }
  }

  /**
   A batch that stops leaves every row as it was but not every file: the
   image an earlier item wrote stays, unless it is the very file of the
   failing item and that item's statement failed.
   */
  lemma RollbackKeepsEarlierImages(host: string, bottle: string, items: seq<Entry>, o: Oracle, st: State, j: nat)
    requires o.prepareOk
    requires var b := Mutations.InsertBatch(items, bottle, st.messages, st.files, o.writeFails, o.execFails);
      b.failure.Some? && j < b.failure.value.at
    requires var cs := Mutations.ReadBatch(items, bottle);
      var at := Mutations.InsertBatch(items, bottle, st.messages, st.files, o.writeFails, o.execFails).failure.value.at;
      && Mutations.WritesImage(cs[j].item, j !in o.writeFails)
      && cs[j].item.path != cs[at].item.path
    ensures var r := InsertBatchOp(host, bottle, items, o, st);
      && r.response.status == BAD_REQUEST
      && r.state.messages == st.messages
      && Mutations.ReadBatch(items, bottle)[j].item.path in r.state.files
  {
    var cs := Mutations.ReadBatch(items, bottle);
    Mutations.StoppedKeepsImage(cs, st.messages, st.files, o.writeFails, o.execFails, j);
  }

  /** A path the service does not serve is 404 whatever the method, body or environment, and changes nothing. */
  lemma UnservedPath(c: Call, o: Oracle, st: State)
    requires !ValidShape(ParsePath(c.path).segments)
    ensures Exec(c, o, st) == Outcome(st, Status(NOT_FOUND))
  {
  }

  /** Reads never change the state. */
  lemma GetChangesNothing(c: Call, o: Oracle, st: State)
    requires c.verb == "GET"
    ensures Exec(c, o, st).state == st
  {
  }

  /**
   A POST of a valid message to a message path whose key is free answers 201
   with the message URL, and a GET of the same path then answers 200 with the
   stored message, whatever the query of either request.
   */
  lemma PostThenGet(host: string, b: string, m: string, body: Option<Value>, q: Query, q': Query,
                    body': Option<Value>, o: Oracle, st: State)
    requires CleanSegment(b) && CleanSegment(m)
    requires SingleValid(body, b, m) && body.value.Arr? && IdsInRange(body.value)
    requires o.connectOk && o.prepareOk && 0 !in o.execFails
    requires Mutations.Read(body.value).key !in st.messages
    ensures var post := Exec(Call("/bottles/" + b + "/messages/" + m, "POST", q, body, host), o, st);
      && post.response.status == CREATED
      && post.response.location == Some(MessageUrl(host, b, m))
    ensures var st' := Exec(Call("/bottles/" + b + "/messages/" + m, "POST", q, body, host), o, st).state;
      var it := Mutations.Read(body.value);
      var row := Mutations.RowOf(it, Mutations.HasPicture(it, 0 !in o.writeFails));
      var r := Exec(Call("/bottles/" + b + "/messages/" + m, "GET", q', body', host), o, st');
      && r.state == st'
      && r.response.status == OK
      && r.response.body == Render(Message(host, b, m, row, false), None)
  {
    PostIsInsert(host, b, m, body, q, o, st);
    var st' := InsertSingleOp(host, b, m, body, o, st).state;
    GetIsRead(host, b, m, body', q', o, st');
    InsertThenGet(host, b, m, body, o, st, None);
  }

  /** Once connected, a POST to a message path runs the single insert on its two IDs. */
  lemma PostIsInsert(host: string, b: string, m: string, body: Option<Value>, q: Query, o: Oracle, st: State)
    requires CleanSegment(b) && CleanSegment(m) && o.connectOk
    ensures Exec(Call("/bottles/" + b + "/messages/" + m, "POST", q, body, host), o, st)
         == InsertSingleOp(host, b, m, body, o, st)
  {
    var c := Call("/bottles/" + b + "/messages/" + m, "POST", q, body, host);
    MessagePathParses(b, m);
    var p := ParsePath(c.path);
    assert |p.segments| == 4 && p.segments[1] == b && p.segments[3] == m;
    assert Routes(c, o);
  }

  /** Once connected, a GET of a message path with no extension runs the message read on its two IDs. */
  lemma GetIsRead(host: string, b: string, m: string, body: Option<Value>, q: Query, o: Oracle, st: State)
    requires CleanSegment(b) && CleanSegment(m) && o.connectOk
    ensures Exec(Call("/bottles/" + b + "/messages/" + m, "GET", q, body, host), o, st)
         == Outcome(st, MessageOp(host, b, m, None, o, st))
  {
    var c := Call("/bottles/" + b + "/messages/" + m, "GET", q, body, host);
    MessagePathParses(b, m);
    var p := ParsePath(c.path);
    assert |p.segments| == 4 && p.segments[1] == b && p.segments[3] == m && p.extension == None;
    assert Routes(c, o) && !WantsPng(p.extension);
  }

  /**
   A 200 for bottles/<b> in JSON reads back, field by field, as the bottle's
   row: its ID, its (not loosely NULL) name, the number of its messages and
   its protocol versions.
   */
  lemma BottleInfoAnswer(bottle: string, ext: Option<string>, o: Oracle, st: State)
    requires BottleInfoOp(bottle, ext, o, st).status == OK && SelectFormat(ext) == Json
    ensures var id := IntValOfString(bottle);
      var r := BottleInfoOp(bottle, ext, o, st);
      && id in st.bottles && !LooselyNull(st.bottles[id].name) && MessageIds(st.messages, id) != {}
      && r.body.JsonBody? && r.body.tree.Arr?
      && Lookup(r.body.tree.entries, BottleFields)
         == [Some(Int(id)), Some(st.bottles[id].name), Some(Int(|MessageIds(st.messages, id)|)),
             Some(st.bottles[id].major), Some(st.bottles[id].minor)]
  {
    var id := IntValOfString(bottle);
    var info := BottleQuery(st.bottles, st.messages, id);
    BottleTreeReadsBack(bottle, info);
  }

  /** A listing rendered as JSON: one entry per ID, entry `i` read back with msgID `ids[i]`. */
  lemma JsonListingReadsBack(b: Body, host: string, bottle: string, ids: seq<int>, msgs: Messages,
                             delListing: bool, ext: Option<string>, i: nat)
    requires forall j :: 0 <= j < |ids| ==> (IntValOfString(bottle), ids[j]) in msgs
    requires SelectFormat(ext) == Json && b == Render(Listing(host, bottle, ids, msgs, delListing), ext)
    ensures b.JsonBody? && b.tree.Arr? && |b.tree.entries| == |ids|
    ensures i < |ids| && InRange(ids[i]) ==>
      && b.tree.entries[i].val.Arr?
      && ReadRecord(b.tree.entries[i].val.entries).Some?
      && ReadRecord(b.tree.entries[i].val.entries).value.msgID == Int(ids[i])
  {
    if i < |ids| {
      ListingReadsBack(host, bottle, ids, msgs, delListing, i);
    }
  }

  /**
   A 200 listing in JSON has one entry per selected row, in the statement's
   order, and entry `i` reads back with msgID the `i`-th selected ID.
   */
  lemma ListAnswer(host: string, bottle: string, q: Query, ext: Option<string>, o: Oracle, st: State, i: nat)
    requires ListOp(host, bottle, q, ext, o, st).status == OK && SelectFormat(ext) == Json
    requires forall k :: k in st.messages ==> InRange(k.1)
    ensures var r := ListOp(host, bottle, q, ext, o, st);
      var ids := SelectedIds(st.messages, IntValOfString(bottle), q);
      && r.body.JsonBody? && r.body.tree.Arr? && |r.body.tree.entries| == |ids|
      && (i < |ids| ==>
            r.body.tree.entries[i].val.Arr?
            && ReadRecord(r.body.tree.entries[i].val.entries).Some?
            && ReadRecord(r.body.tree.entries[i].val.entries).value.msgID == Int(ids[i]))
  {
    var ids := SelectedIds(st.messages, IntValOfString(bottle), q);
    if i < |ids| {
      assert (IntValOfString(bottle), ids[i]) in st.messages;
    }
    JsonListingReadsBack(ListOp(host, bottle, q, ext, o, st).body, host, bottle, ids, st.messages, q.del.Some?, ext, i);
  }
}
