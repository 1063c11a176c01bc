/**
 `WebService::exec` end to end: one request against the store, giving the
 new store and the response. The environment is explicit: the request
 (path, method, the `limit`, `offset` and `del` query values, the decoded
 JSON body, the server name), the outcome of connecting, preparing,
 executing and writing (an oracle), and the state (bottles, messages, image
 files).
 */
module Service {

  import opened Wrappers
  import opened Decimal
  import opened ResultTree
  import opened Request
  import opened Store
  import Mutations
  import opened Shaping
  import opened Formats
  import Markup
  import Plain

  datatype Query = Query(limit: Option<string>, offset: Option<string>, del: Option<string>)

  /** A request: the path after the base URL, the method, the query, the decoded body, the server name. */
  datatype Call = Call(path: string, verb: string, query: Query, body: Option<Value>, host: string)

  /**
   What the environment decides: whether the database connection and the
   statement preparation succeed, which statements (by position in their
   batch; a single statement is position 0) fail to bind or execute, which
   image writes fail, and whether a stored image decodes as a PNG.
   */
  datatype Oracle = Oracle(connectOk: bool, prepareOk: bool, execFails: set<nat>, writeFails: set<nat>, pngOk: bool)

  datatype State = State(bottles: map<int, Bottle>, messages: Messages, files: Files)

  datatype Body =
    | NoBody
    | JsonBody(tree: Value)
    | HtmlBody(html: Markup.Node)
    | TextBody(text: string)
    | XmlBody(xml: Markup.Node)
    | PngBody(image: string)

  datatype Response = Response(status: nat, allow: Option<string>, location: Option<string>, body: Body)

  datatype Outcome = Outcome(state: State, response: Response)

  const OK: nat := 200
  const CREATED: nat := 201
  const NO_CONTENT: nat := 204
  const BAD_REQUEST: nat := 400
  const NOT_FOUND: nat := 404
  const NOT_ALLOWED: nat := 405
  const UNAVAILABLE: nat := 503

  /** A response carrying only a status line. */
  function Status(code: nat): (r: Response)
    ensures r.status == code && r.body == NoBody && r.allow.None? && r.location.None?
  {
    Response(code, None, None, NoBody)
  }

  // ---------------------------------------------------------------------------
  // Answering with data
  // ---------------------------------------------------------------------------

  /** `generateResponseData`: the output array in the format the extension selects. */
  function Render(output: seq<Entry>, ext: Option<string>): (b: Body)
    ensures SelectFormat(ext) == Json <==> b.JsonBody?
    ensures SelectFormat(ext) == Html <==> b.HtmlBody?
    ensures SelectFormat(ext) == PlainText <==> b.TextBody?
    ensures SelectFormat(ext) == Xml <==> b.XmlBody?
    ensures b.JsonBody? ==> b.tree == Arr(output)
  {
    match SelectFormat(ext)
    case Json => JsonBody(Arr(output))
    case Html => HtmlBody(Markup.ToHtml(output))
    case PlainText => TextBody(Plain.ToPlainText(output))
    case Xml => XmlBody(Markup.ToXml(output))
  }

  /**
   Whatever the format, a client gets the output back: the JSON tree itself,
   or, from HTML and XML, its keys, nesting and leaf texts.
   */
  lemma RenderRecoverable(output: seq<Entry>, ext: Option<string>)
    requires ListsAndRecords(Arr(output))
    ensures var b := Render(output, ext);
      && (b.JsonBody? ==> b.tree == Arr(output))
      && (b.HtmlBody? ==> Markup.FromHtml(b.html) == Some(Erase(Arr(output))))
      && (Markup.XmlReadable(Arr(output)) && b.XmlBody? ==> Markup.FromXml(b.xml) == Some(Erase(Arr(output))))
  {
    Markup.ToHtmlRoundTrip(output);
    if Markup.XmlReadable(Arr(output)) {
      Markup.ToXmlRoundTrip(output);
    }
  }

  /** A successful read: 200 with the rendered output. */
  function Answer(output: seq<Entry>, ext: Option<string>): (r: Response)
    ensures r.status == OK && r.body == Render(output, ext)
  {
    Response(OK, None, None, Render(output, ext))
  }

  // ---------------------------------------------------------------------------
  // The operations
  // ---------------------------------------------------------------------------

  /** `getBottleInfoByID`: no content when the aggregate row has no name. */
  function BottleInfoOp(bottle: string, ext: Option<string>, o: Oracle, st: State): (r: Response)
    ensures !o.prepareOk ==> r.status == UNAVAILABLE
    ensures o.prepareOk && 0 in o.execFails ==> r.status == BAD_REQUEST
    ensures o.prepareOk && 0 !in o.execFails ==>
      var id := IntValOfString(bottle);
      && (r.status == NO_CONTENT <==>
          MessageIds(st.messages, id) == {} || id !in st.bottles || LooselyNull(st.bottles[id].name))
      && (r.status == OK <==> !(r.status == NO_CONTENT))
      && (r.status == OK ==> r.body == Render(BottleTree(bottle, BottleQuery(st.bottles, st.messages, id)), ext))
  {
    if !o.prepareOk then Status(UNAVAILABLE)
    else if 0 in o.execFails then Status(BAD_REQUEST)
    else
      var info := BottleQuery(st.bottles, st.messages, IntValOfString(bottle));
      if LooselyNull(info.name) then Status(NO_CONTENT)
      else Answer(BottleTree(bottle, info), ext)
  }

  /** `offset` through `intval`, 0 when it is not given. */
  function OffsetOf(q: Query): int {
    if q.offset.Some? then IntValOfString(q.offset.value) else 0
  }

  /** `limit` through `intval`; only read when there is no `del`. */
  function LimitOf(q: Query): int {
    if q.limit.Some? then IntValOfString(q.limit.value) else 0
  }

  /** A window the statement accepts: with `del` there is none, otherwise offset and limit are not negative. */
  predicate WindowAccepted(q: Query) {
    q.del.Some? || (OffsetOf(q) >= 0 && LimitOf(q) >= 0)
  }

  /** The rows the listing statement selects, newest first. */
  function SelectedIds(msgs: Messages, bottle: int, q: Query): (ids: seq<int>)
    requires WindowAccepted(q)
    ensures forall i :: 0 <= i < |ids| ==> (bottle, ids[i]) in msgs
  {
    if q.del.Some? then DeletedIds(msgs, bottle, q.del.value)
    else ListedIds(msgs, bottle, OffsetOf(q), LimitOf(q))
  }

  /**
   `getMessageList`. Without `del` the bottle's messages are windowed by
   `offset` (default 0) and `limit`; a negative value makes the statement
   fail. With `del` the flagged and recently deleted messages are listed
   and `limit` is ignored. Neither given is a bad request.
   */
  function ListOp(host: string, bottle: string, q: Query, ext: Option<string>, o: Oracle, st: State): (r: Response)
    ensures q.limit.None? && q.del.None? ==> r.status == BAD_REQUEST
    ensures (q.limit.Some? || q.del.Some?) && !o.prepareOk ==> r.status == UNAVAILABLE
    ensures r.status in {OK, NO_CONTENT, BAD_REQUEST, UNAVAILABLE}
    ensures r.status == OK ==> q.limit.Some? || q.del.Some?
    ensures (q.limit.Some? || q.del.Some?) && o.prepareOk && 0 !in o.execFails ==>
      (r.status == BAD_REQUEST <==> !WindowAccepted(q))
    ensures (q.limit.Some? || q.del.Some?) && o.prepareOk && 0 !in o.execFails && WindowAccepted(q) ==>
      && (r.status == NO_CONTENT <==> SelectedIds(st.messages, IntValOfString(bottle), q) == [])
      && (r.status == OK <==> SelectedIds(st.messages, IntValOfString(bottle), q) != [])
    ensures q.del.Some? && o.prepareOk && 0 !in o.execFails ==>
      (r.status == NO_CONTENT <==> DeletedIds(st.messages, IntValOfString(bottle), q.del.value) == [])
    ensures q.del.None? && q.limit.Some? && o.prepareOk && 0 !in o.execFails && OffsetOf(q) >= 0 && LimitOf(q) >= 0 ==>
      (r.status == NO_CONTENT <==> ListedIds(st.messages, IntValOfString(bottle), OffsetOf(q), LimitOf(q)) == [])
    ensures r.status == OK ==>
      && WindowAccepted(q)
      && r.body == Render(Listing(host, bottle, SelectedIds(st.messages, IntValOfString(bottle), q), st.messages, q.del.Some?), ext)
  {
    if q.limit.None? && q.del.None? then Status(BAD_REQUEST)
    else if !o.prepareOk then Status(UNAVAILABLE)
    else if 0 in o.execFails || !WindowAccepted(q) then Status(BAD_REQUEST)
    else
      var ids := SelectedIds(st.messages, IntValOfString(bottle), q);
      if ids == [] then Status(NO_CONTENT)
      else Answer(Listing(host, bottle, ids, st.messages, q.del.Some?), ext)
  }

  /** `getMessageByID`: the message stored under the two IDs, or no content. */
  function MessageOp(host: string, bottle: string, message: string, ext: Option<string>, o: Oracle, st: State): (r: Response)
    ensures !o.prepareOk ==> r.status == UNAVAILABLE
    ensures o.prepareOk && 0 in o.execFails ==> r.status == BAD_REQUEST
    ensures o.prepareOk && 0 !in o.execFails ==>
      var key := (IntValOfString(bottle), IntValOfString(message));
      && (r.status == NO_CONTENT <==> key !in st.messages)
      && (key in st.messages ==>
            r.status == OK && r.body == Render(Message(host, bottle, message, st.messages[key], false), ext))
  {
    if !o.prepareOk then Status(UNAVAILABLE)
    else if 0 in o.execFails then Status(BAD_REQUEST)
    else
      var key := (IntValOfString(bottle), IntValOfString(message));
      if key !in st.messages then Status(NO_CONTENT)
      else Answer(Message(host, bottle, message, st.messages[key], false), ext)
  }

  /** `outputPngImage`: the stored file at the conventional path, or 404. */
  function ImageOp(bottle: string, message: string, o: Oracle, st: State): (r: Response)
    ensures r.status == OK <==> Mutations.ImagePath(bottle, message) in st.files && o.pngOk
    ensures r.status != OK ==> r.status == NOT_FOUND
    ensures r.status == OK ==> r.body == PngBody(st.files[Mutations.ImagePath(bottle, message)])
  {
    var path := Mutations.ImagePath(bottle, message);
    if path in st.files && o.pngOk then Response(OK, None, None, PngBody(st.files[path]))
    else Status(NOT_FOUND)
  }

  /**
   The check `insertMessage` makes before touching the store: a decoded
   body with every mandatory field set, whose btlID and msgID equal the URL
   IDs.
   */
  predicate SingleValid(body: Option<Value>, bottle: string, message: string) {
    && body.Some?
    && Mutations.HasMandatoryFields(body.value)
    && Mutations.IdMatches(Mutations.FieldOr(body.value.entries, "btlID", Null), bottle)
    && Mutations.IdMatches(Mutations.FieldOr(body.value.entries, "msgID", Null), message)
  }

  function MessageUrl(host: string, bottle: string, message: string): string {
    "http://" + host + "/bottles/" + bottle + "/messages/" + message
  }

  function ListUrl(host: string, bottle: string, count: nat): string {
    "http://" + host + "/bottles/" + bottle + "/messages?limit=" + IntToString(count)
  }

  /** `insertMessage`. */
  function InsertSingleOp(host: string, bottle: string, message: string, body: Option<Value>, o: Oracle, st: State): (r: Outcome)
    ensures !SingleValid(body, bottle, message) ==> r.response.status == BAD_REQUEST && r.state == st
    ensures SingleValid(body, bottle, message) && !o.prepareOk ==> r.response.status == UNAVAILABLE && r.state == st
    ensures r.state.bottles == st.bottles
    ensures r.response.status != CREATED ==> r.state.messages == st.messages
    ensures r.response.status in {CREATED, BAD_REQUEST, UNAVAILABLE}
    ensures r.response.status == CREATED <==>
      SingleValid(body, bottle, message) && o.prepareOk && 0 !in o.execFails
      && Mutations.Read(body.value).key !in st.messages
    ensures r.response.status == CREATED ==>
      && r.response.location == Some(MessageUrl(host, bottle, message))
      && var it := Mutations.Read(body.value);
         r.state.messages == st.messages[it.key := Mutations.RowOf(it, Mutations.HasPicture(it, 0 !in o.writeFails))]
  {
    if !SingleValid(body, bottle, message) then Outcome(st, Status(BAD_REQUEST))
    else if !o.prepareOk then Outcome(st, Status(UNAVAILABLE))
    else
      var s := Mutations.InsertOne(Mutations.Read(body.value), st.messages, st.files, 0 !in o.writeFails, 0 !in o.execFails);
      var st' := st.(messages := s.messages, files := s.files);
      if s.error.Some? then Outcome(st', Status(BAD_REQUEST))
      else Outcome(st', Response(CREATED, None, Some(MessageUrl(host, bottle, message)), NoBody))
  }

  /** `insertMessages`: all items or none, with the item count in the Location. */
  function InsertBatchOp(host: string, bottle: string, items: seq<Entry>, o: Oracle, st: State): (r: Outcome)
    ensures !o.prepareOk ==> r.response.status == UNAVAILABLE && r.state == st
    ensures r.state.bottles == st.bottles
    ensures r.response.status in {CREATED, BAD_REQUEST, UNAVAILABLE}
    ensures r.response.status != CREATED ==> r.state.messages == st.messages
    ensures o.prepareOk ==>
      (r.response.status == CREATED <==>
         Mutations.Succeeds(Mutations.ReadBatch(items, bottle), st.messages, o.execFails, 0))
    ensures r.response.status == CREATED ==> r.response.location == Some(ListUrl(host, bottle, |items|))
  {
    if !o.prepareOk then Outcome(st, Status(UNAVAILABLE))
    else
      var b := Mutations.InsertBatch(items, bottle, st.messages, st.files, o.writeFails, o.execFails);
      Mutations.InsertItemsSucceeds(Mutations.ReadBatch(items, bottle), st.messages, st.files, o.writeFails, o.execFails, 0);
      var st' := st.(messages := b.messages, files := b.files);
      if b.failure.Some? then Outcome(st', Status(BAD_REQUEST))
      else Outcome(st', Response(CREATED, None, Some(ListUrl(host, bottle, |items|)), NoBody))
  }

  /** `markMessagesAsDeleted`: 204 after completing every named flagged message, or 400 and no change. */
  function MarkDeletedOp(ids: seq<Entry>, date: string, o: Oracle, st: State): (r: Outcome)
    ensures !o.prepareOk ==> r.response.status == UNAVAILABLE && r.state == st
    ensures r.state.bottles == st.bottles && r.state.files == st.files
    ensures r.response.status in {NO_CONTENT, BAD_REQUEST, UNAVAILABLE}
    ensures o.prepareOk ==>
      (r.response.status == NO_CONTENT <==> Mutations.Executes(o.execFails, 0, |ids|))
    ensures r.response.status == NO_CONTENT ==>
      r.state.messages == Mutations.Completed(st.messages, Mutations.IdSet(ids), date)
    ensures r.response.status != NO_CONTENT ==> r.state == st
  {
    if !o.prepareOk then Outcome(st, Status(UNAVAILABLE))
    else
      Mutations.MarkDeletedCompletes(st.messages, ids, date, o.execFails);
      match Mutations.MarkDeleted(st.messages, ids, date, o.execFails)
      case None => Outcome(st, Status(BAD_REQUEST))
      case Some(m) => Outcome(st.(messages := m), Status(NO_CONTENT))
  }

  // ---------------------------------------------------------------------------
  // exec
  // ---------------------------------------------------------------------------

  /** The request reaches the dispatch: its path has an accepted shape and the database connection succeeds. */
  predicate Routes(c: Call, o: Oracle) {
    ValidShape(ParsePath(c.path).segments) && o.connectOk
  }

  /**
   `exec`: an unaccepted path is 404 before the database is contacted; a
   failed connection is 503; then the route decides.
   */
  function Exec(c: Call, o: Oracle, st: State): (r: Outcome)
    ensures !ValidShape(ParsePath(c.path).segments) ==> r == Outcome(st, Status(NOT_FOUND))
    ensures ValidShape(ParsePath(c.path).segments) && !o.connectOk ==> r == Outcome(st, Status(UNAVAILABLE))
    ensures r.state.bottles == st.bottles
    ensures r.response.status == NOT_ALLOWED <==>
      ValidShape(ParsePath(c.path).segments) && o.connectOk
      && c.verb !in AllowedMethods(|ParsePath(c.path).segments|)
    ensures r.response.status == NOT_ALLOWED ==>
      r.response.allow == Some(AllowHeader(AllowedMethods(|ParsePath(c.path).segments|)))
      && r.state == st
    ensures var p := ParsePath(c.path);
      Routes(c, o) && |p.segments| == 2 && c.verb == "GET" ==>
        r == Outcome(st, BottleInfoOp(p.segments[1], p.extension, o, st))
    ensures var p := ParsePath(c.path);
      Routes(c, o) && |p.segments| == 3 && c.verb == "GET" ==>
        r == Outcome(st, ListOp(c.host, p.segments[1], c.query, p.extension, o, st))
    ensures var p := ParsePath(c.path);
      Routes(c, o) && |p.segments| == 3 && c.verb == "POST" && !IsNonEmptyArray(c.body) ==>
        r == Outcome(st, Status(BAD_REQUEST))
    ensures var p := ParsePath(c.path);
      Routes(c, o) && |p.segments| == 3 && c.verb == "POST" && IsNonEmptyArray(c.body) && c.query.del.None? ==>
        r == InsertBatchOp(c.host, p.segments[1], c.body.value.entries, o, st)
    ensures var p := ParsePath(c.path);
      Routes(c, o) && |p.segments| == 3 && c.verb == "POST" && IsNonEmptyArray(c.body) && c.query.del.Some? ==>
        r == MarkDeletedOp(c.body.value.entries, c.query.del.value, o, st)
    ensures var p := ParsePath(c.path);
      Routes(c, o) && |p.segments| == 4 && c.verb == "GET" && WantsPng(p.extension) ==>
        r == Outcome(st, ImageOp(p.segments[1], p.segments[3], o, st))
    ensures var p := ParsePath(c.path);
      Routes(c, o) && |p.segments| == 4 && c.verb == "GET" && !WantsPng(p.extension) ==>
        r == Outcome(st, MessageOp(c.host, p.segments[1], p.segments[3], p.extension, o, st))
    ensures var p := ParsePath(c.path);
      Routes(c, o) && |p.segments| == 4 && c.verb == "POST" ==>
        r == InsertSingleOp(c.host, p.segments[1], p.segments[3], c.body, o, st)
  {
    var p := ParsePath(c.path);
    if !ValidShape(p.segments) then Outcome(st, Status(NOT_FOUND))
    else if !o.connectOk then Outcome(st, Status(UNAVAILABLE))
    else
      match Route(p, c.verb, c.query.del, c.body)
      case NotFound => Outcome(st, Status(NOT_FOUND))
      case NotAllowed(allow) => Outcome(st, Response(NOT_ALLOWED, Some(allow), None, NoBody))
      case BadBody => Outcome(st, Status(BAD_REQUEST))
      case Run(op) => Perform(op, c, o, st)
  }

  function Perform(op: Operation, c: Call, o: Oracle, st: State): (r: Outcome)
    ensures r.state.bottles == st.bottles
    ensures r.response.status != NOT_ALLOWED
    ensures op.GetBottleInfo? || op.ListMessages? || op.GetMessage? || op.FetchImage? ==> r.state == st
  {
    var ext := ParsePath(c.path).extension;
    match op
    case GetBottleInfo(b) => Outcome(st, BottleInfoOp(b, ext, o, st))
    case ListMessages(b) => Outcome(st, ListOp(c.host, b, c.query, ext, o, st))
    case GetMessage(b, m) => Outcome(st, MessageOp(c.host, b, m, ext, o, st))
    case FetchImage(b, m) => Outcome(st, ImageOp(b, m, o, st))
    case InsertSingle(b, m) => InsertSingleOp(c.host, b, m, c.body, o, st)
    case InsertBatch(b, items) => InsertBatchOp(c.host, b, items, o, st)
    case MarkDeleted(_, ids, date) => MarkDeletedOp(ids, date, o, st)
  }
}
