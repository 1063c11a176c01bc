/**
 Request parsing and routing (`WebService` constructor and `exec`).

 The request path, already stripped of the configured base URL, is exploded
 on '/'. Only the last raw part is cleaned: it is cut at its first '?' and
 then at its first '.', whatever follows that dot being the extension. Empty
 parts are then dropped. The segments decide the operation together with the
 HTTP verb, the presence of the `del` query parameter and the decoded body.
 */
module Request {

  import opened Wrappers
  import opened Decimal
  import opened ResultTree

  /** PHP's `explode('/', s)`: the pieces between slashes, empty ones included. */
  function Explode(s: string): (parts: seq<string>)
    ensures |parts| >= 1
  {
    if s == [] then [""]
    else
      var rest := Explode(s[1..]);
      if s[0] == '/' then [""] + rest else [[s[0]] + rest[0]] + rest[1..]
  }

  /** Position of the first `c` in `s`, as `strpos` finds it. */
  function IndexOf(s: string, c: char): (r: Option<nat>)
    ensures r.None? <==> c !in s
    ensures r.Some? ==> r.value < |s| && s[r.value] == c && c !in s[..r.value]
  {
    if s == [] then None
    else if s[0] == c then Some(0)
    else match IndexOf(s[1..], c)
      case None => None
      case Some(i) =>
        assert s[..i + 1] == [s[0]] + s[1..][..i];
        Some(i + 1)
  }

  /** The part of `s` before its first `c` (all of `s` when there is none). */
  function CutAt(s: string, c: char): (r: string)
    ensures r <= s && c !in r
    ensures c in s ==> s[|r|] == c
  {
    match IndexOf(s, c)
    case None => s
    case Some(i) => s[..i]
  }

  /** The parts that are not the empty string, in order. */
  function NonEmpty(parts: seq<string>): (r: seq<string>)
    ensures forall i :: 0 <= i < |r| ==> r[i] != ""
    ensures forall x :: x in r <==> x in parts && x != ""
    ensures |r| <= |parts|
  {
    if parts == [] then []
    else if parts[0] == "" then NonEmpty(parts[1..])
    else [parts[0]] + NonEmpty(parts[1..])
  }

  datatype Parsed = Parsed(segments: seq<string>, extension: Option<string>)

  /**
   The cleaning of the last raw part: cut at the first '?', then split at the
   first '.' into the part kept and the extension.
   */
  function SplitLast(last: string): (r: (string, Option<string>))
    ensures '?' !in r.0 && '.' !in r.0
    ensures r.1.Some? ==> '?' !in r.1.value
  {
    var noQuery := CutAt(last, '?');
    var base := CutAt(noQuery, '.');
    if '.' in noQuery then (base, Some(noQuery[|base| + 1..])) else (base, None)
  }

  /** The constructor's URL handling, from the path with the base URL removed. */
  function ParsePath(path: string): (p: Parsed)
    ensures forall i :: 0 <= i < |p.segments| ==> p.segments[i] != ""
  {
    ParseParts(Explode(path))
  }

  /** The raw parts after the explode: the last one cleaned, then the empty ones dropped. */
  function ParseParts(raw: seq<string>): Parsed
    requires |raw| > 0
  {
    var (base, ext) := SplitLast(raw[|raw| - 1]);
    Parsed(NonEmpty(raw[..|raw| - 1] + [base]), ext)
  }

  /** The accepted URL shapes: bottles/<ID>, bottles/<ID>/messages, bottles/<ID>/messages/<ID>. */
  predicate ValidShape(segs: seq<string>) {
    && 2 <= |segs| <= 4
    && segs[0] == "bottles"
    && (|segs| > 2 ==> segs[2] == "messages")
  }

  /** The operations a valid request can select; bottle and message IDs are the raw URL segments. */
  datatype Operation =
    | GetBottleInfo(bottle: string)
    | ListMessages(bottle: string)
    | InsertBatch(bottle: string, items: seq<Entry>)
    | MarkDeleted(bottle: string, ids: seq<Entry>, date: string)
    | FetchImage(bottle: string, message: string)
    | GetMessage(bottle: string, message: string)
    | InsertSingle(bottle: string, message: string)

  datatype Routed =
    | NotFound
    | NotAllowed(allow: string)
    | BadBody
    | Run(op: Operation)

  /** The methods a URL shape accepts: bottles/<ID> only GET, the others GET and POST. */
  function AllowedMethods(segmentCount: nat): seq<string> {
    if segmentCount == 2 then ["GET"] else ["GET", "POST"]
  }

  /** The text of the Allow header for a list of methods. */
  function AllowHeader(methods: seq<string>): string {
    if methods == [] then ""
    else if |methods| == 1 then methods[0]
    else methods[0] + ", " + AllowHeader(methods[1..])
  }

  /** The image branch: a GET of a single message whose extension is png in any case. */
  predicate WantsPng(ext: Option<string>) {
    ext.Some? && ToLower(ext.value) == "png"
  }

  /** The body a POST to bottles/<ID>/messages needs: a decoded, non-empty array. */
  predicate IsNonEmptyArray(body: Option<Value>) {
    body.Some? && body.value.Arr? && body.value.entries != []
  }

  /**
   The dispatch of `exec`. A shape other than the three accepted ones is
   NotFound; otherwise the segment count and the verb choose.
   */
  function Route(p: Parsed, verb: string, del: Option<string>, body: Option<Value>): (r: Routed)
    ensures r.NotFound? <==> !ValidShape(p.segments)
    ensures ValidShape(p.segments) ==>
      (r.NotAllowed? <==> verb !in AllowedMethods(|p.segments|))
    ensures r.NotAllowed? ==> r.allow == AllowHeader(AllowedMethods(|p.segments|))
    ensures r.BadBody? <==>
      ValidShape(p.segments) && |p.segments| == 3 && verb == "POST" && !IsNonEmptyArray(body)
    ensures r.Run? ==> r.op.bottle == p.segments[1]
    ensures r.Run? && r.op.FetchImage? <==>
      ValidShape(p.segments) && |p.segments| == 4 && verb == "GET" && WantsPng(p.extension)
    ensures r.Run? && r.op.InsertBatch? ==>
      body.Some? && body.value.Arr? && r.op.items == body.value.entries
    ensures r.Run? && r.op.MarkDeleted? ==>
      body.Some? && body.value.Arr? && r.op.ids == body.value.entries
    ensures r.Run? && r.op.MarkDeleted? <==>
      ValidShape(p.segments) && |p.segments| == 3 && verb == "POST" && IsNonEmptyArray(body) && del.Some?
    ensures r.Run? && r.op.MarkDeleted? ==> r.op.date == del.value
    ensures r.Run? && r.op.GetBottleInfo? <==> ValidShape(p.segments) && |p.segments| == 2 && verb == "GET"
    ensures r.Run? && r.op.ListMessages? <==> ValidShape(p.segments) && |p.segments| == 3 && verb == "GET"
    ensures r.Run? && r.op.InsertBatch? <==>
      ValidShape(p.segments) && |p.segments| == 3 && verb == "POST" && IsNonEmptyArray(body) && del.None?
    ensures r.Run? && r.op.GetMessage? <==>
      ValidShape(p.segments) && |p.segments| == 4 && verb == "GET" && !WantsPng(p.extension)
    ensures r.Run? && r.op.InsertSingle? <==> ValidShape(p.segments) && |p.segments| == 4 && verb == "POST"
    ensures r.Run? && (r.op.FetchImage? || r.op.GetMessage? || r.op.InsertSingle?) ==>
      |p.segments| == 4 && r.op.message == p.segments[3]
  {
    var segs := p.segments;
    if !ValidShape(segs) then NotFound
    else if |segs| == 2 then
      if verb == "GET" then Run(GetBottleInfo(segs[1])) else NotAllowed("GET")
    else if |segs| == 3 then
      if verb == "GET" then Run(ListMessages(segs[1]))
      else if verb == "POST" then
        if !IsNonEmptyArray(body) then BadBody
        else if del.None? then Run(InsertBatch(segs[1], body.value.entries))
        else Run(MarkDeleted(segs[1], body.value.entries, del.value))
      else NotAllowed("GET, POST")
    else
      if verb == "GET" then
        if WantsPng(p.extension) then Run(FetchImage(segs[1], segs[3]))
        else Run(GetMessage(segs[1], segs[3]))
      else if verb == "POST" then Run(InsertSingle(segs[1], segs[3]))
      else NotAllowed("GET, POST")
  }

  // ---------------------------------------------------------------------------
  // Parsing a path built from clean segments gives those segments back.
  // ---------------------------------------------------------------------------

  /** A segment a client can place in a URL: non-empty, with no '/', '?' or '.'. */
  predicate CleanSegment(s: string) {
    s != "" && '/' !in s && '?' !in s && '.' !in s
  }

  /** "s0/s1/.../sn" followed by `suffix`, glued to the last segment. */
  function JoinSegments(segs: seq<string>, suffix: string): string
    requires |segs| > 0
  {
    if |segs| == 1 then segs[0] + suffix else segs[0] + "/" + JoinSegments(segs[1..], suffix)
  }

  /** The optional ".ext" and "?query" that may follow the last segment. */
  function Suffix(ext: Option<string>, query: Option<string>): string {
    (if ext.Some? then "." + ext.value else "") + (if query.Some? then "?" + query.value else "")
  }

  lemma {:induction false} ExplodeNoSlash(s: string)
    requires '/' !in s
    ensures Explode(s) == [s]
  {
    if s != [] {
      assert '/' !in s[1..];
      ExplodeNoSlash(s[1..]);
      assert [s[0]] + s[1..] == s;
    }
  }

  lemma {:induction false} ExplodeSlash(x: string, y: string)
    ensures Explode(x + "/" + y) == Explode(x) + Explode(y)
  {
    if x == [] {
      assert x + "/" + y == "/" + y;
      assert ("/" + y)[1..] == y;
    } else {
      assert (x + "/" + y)[1..] == x[1..] + "/" + y;
      ExplodeSlash(x[1..], y);
    }
  }

  lemma {:induction false} ExplodeJoin(segs: seq<string>, suffix: string)
    requires |segs| > 0
    requires forall i :: 0 <= i < |segs| ==> '/' !in segs[i]
    requires '/' !in suffix
    ensures Explode(JoinSegments(segs, suffix)) == segs[..|segs| - 1] + [segs[|segs| - 1] + suffix]
  {
    if |segs| == 1 {
      ExplodeNoSlash(segs[0] + suffix);
    } else {
      ExplodeSlash(segs[0], JoinSegments(segs[1..], suffix));
      ExplodeNoSlash(segs[0]);
      ExplodeJoin(segs[1..], suffix);
      assert segs[1..][..|segs| - 2] == segs[1..|segs| - 1];
      assert segs[..|segs| - 1] == [segs[0]] + segs[1..|segs| - 1];
    }
  }

  /** The raw parts of "/s0/.../sn<suffix>": an empty first part, then the segments. */
  lemma ExplodePath(segs: seq<string>, suffix: string)
    requires |segs| > 0
    requires forall i :: 0 <= i < |segs| ==> '/' !in segs[i]
    requires '/' !in suffix
    ensures Explode("/" + JoinSegments(segs, suffix))
         == [""] + segs[..|segs| - 1] + [segs[|segs| - 1] + suffix]
  {
    assert "/" + JoinSegments(segs, suffix) == "" + "/" + JoinSegments(segs, suffix);
    ExplodeSlash("", JoinSegments(segs, suffix));
    ExplodeJoin(segs, suffix);
  }

  lemma {:induction false} NonEmptyOfNonEmpty(parts: seq<string>)
    requires forall i :: 0 <= i < |parts| ==> parts[i] != ""
    ensures NonEmpty(parts) == parts
  {
    if parts != [] {
      NonEmptyOfNonEmpty(parts[1..]);
    }
  }

  /** Dropping empty parts works part by part: an empty part vanishes and a non-empty one stays, in place. */
  lemma {:induction false} NonEmptyAppend(a: seq<string>, b: seq<string>)
    ensures NonEmpty(a + b) == NonEmpty(a) + NonEmpty(b)
    ensures NonEmpty([""]) == []
    ensures forall x :: x != "" ==> NonEmpty([x]) == [x]
  {
    if a == [] {
      assert a + b == b;
    } else {
      assert (a + b)[0] == a[0];
      assert (a + b)[1..] == a[1..] + b;
      NonEmptyAppend(a[1..], b);
    }
    assert NonEmpty([""]) == NonEmpty([""][1..]);
    forall x | x != "" ensures NonEmpty([x]) == [x] {
      assert [x][1..] == [];
    }
  }

  lemma {:induction false} IndexOfFirst(a: string, c: char, b: string)
    requires c !in a
    ensures IndexOf(a + [c] + b, c) == Some(|a|)
  {
    if a != [] {
      assert (a + [c] + b)[1..] == a[1..] + [c] + b;
      IndexOfFirst(a[1..], c, b);
    }
  }

  lemma CutAtFirst(a: string, c: char, b: string)
    requires c !in a
    ensures CutAt(a + [c] + b, c) == a
  {
    IndexOfFirst(a, c, b);
    assert (a + [c] + b)[..|a|] == a;
  }

  /** The last raw part "sn[.ext][?query]" is cut back to "sn" and the extension. */
  lemma SplitLastOfClean(last: string, ext: Option<string>, query: Option<string>)
    requires CleanSegment(last)
    requires ext.Some? ==> '?' !in ext.value
    ensures SplitLast(last + Suffix(ext, query)) == (last, ext)
  {
    var dotted := last + (if ext.Some? then "." + ext.value else "");
    assert '?' !in dotted;
    if query.Some? {
      assert last + Suffix(ext, query) == dotted + ['?'] + query.value;
      CutAtFirst(dotted, '?', query.value);
    } else {
      assert last + Suffix(ext, query) == dotted;
    }
    if ext.Some? {
      assert dotted == last + ['.'] + ext.value;
      CutAtFirst(last, '.', ext.value);
      assert dotted[|last| + 1..] == ext.value;
    } else {
      assert dotted == last;
    }
  }

  lemma ReplaceLast<T>(first: seq<T>, xs: seq<T>, y: T)
    requires |xs| > 0
    ensures var ys := first + xs[..|xs| - 1] + [y];
      ys[..|ys| - 1] + [xs[|xs| - 1]] == first + xs
  {
    var ys := first + xs[..|xs| - 1] + [y];
    assert ys[..|ys| - 1] == first + xs[..|xs| - 1];
    assert xs[..|xs| - 1] + [xs[|xs| - 1]] == xs;
  }

  lemma SuffixHasNoSlash(ext: Option<string>, query: Option<string>)
    requires ext.Some? ==> '/' !in ext.value
    requires query.Some? ==> '/' !in query.value
    ensures '/' !in Suffix(ext, query)
  {
  }

  /**
   A path "/s0/s1/.../sn[.ext][?query]" built from clean segments parses back
   to exactly those segments and that extension.
   */
  lemma ParsePathOfJoin(segs: seq<string>, ext: Option<string>, query: Option<string>)
    requires |segs| > 0
    requires forall i :: 0 <= i < |segs| - 1 ==> segs[i] != "" && '/' !in segs[i]
    requires CleanSegment(segs[|segs| - 1])
    requires ext.Some? ==> '/' !in ext.value && '?' !in ext.value
    requires query.Some? ==> '/' !in query.value
    ensures ParsePath("/" + JoinSegments(segs, Suffix(ext, query))) == Parsed(segs, ext)
  {
    var n := |segs|;
    var suffix := Suffix(ext, query);
    SuffixHasNoSlash(ext, query);
    SegmentsSlashFree(segs);
    ExplodePath(segs, suffix);
    SplitLastOfClean(segs[n - 1], ext, query);
    ParsePartsOfSegments(segs, segs[n - 1] + suffix, ext);
  }

  /** Non-empty slash-free segments ending in a clean one are all non-empty and slash-free. */
  lemma SegmentsSlashFree(segs: seq<string>)
    requires |segs| > 0
    requires forall i :: 0 <= i < |segs| - 1 ==> segs[i] != "" && '/' !in segs[i]
    requires CleanSegment(segs[|segs| - 1])
    ensures forall i :: 0 <= i < |segs| ==> segs[i] != "" && '/' !in segs[i]
  {
  }

  /**
   Raw parts that are a leading empty part, then non-empty segments, then a
   last part that cleans to the last segment, parse to exactly the segments.
   */
  lemma ParsePartsOfSegments(segs: seq<string>, last: string, ext: Option<string>)
    requires |segs| > 0
    requires forall i :: 0 <= i < |segs| ==> segs[i] != ""
    requires SplitLast(last) == (segs[|segs| - 1], ext)
    ensures ParseParts([""] + segs[..|segs| - 1] + [last]) == Parsed(segs, ext)
  {
    ReplaceLast([""], segs, last);
    assert NonEmpty([""] + segs) == NonEmpty(segs) by {
      assert ([""] + segs)[1..] == segs;
    }
    NonEmptyOfNonEmpty(segs);
  }

  /** Four segments joined with no suffix are the segments with a slash between each two. */
  lemma {:induction false} JoinFour(a: string, b: string, c: string, d: string)
    ensures JoinSegments([a, b, c, d], "") == a + "/" + b + "/" + c + "/" + d
  {
    var segs := [a, b, c, d];
    assert segs[1..] == [b, c, d] && segs[1..][1..] == [c, d] && segs[1..][1..][1..] == [d];
    assert JoinSegments([d], "") == d;
    assert JoinSegments([c, d], "") == c + "/" + d;
    assert JoinSegments([b, c, d], "") == b + "/" + (c + "/" + d);
  }

  /** The path of one message, "/bottles/<b>/messages/<m>", parses back into its four segments and no extension. */
  lemma MessagePathParses(b: string, m: string)
    requires CleanSegment(b) && CleanSegment(m)
    ensures ParsePath("/bottles/" + b + "/messages/" + m) == Parsed(["bottles", b, "messages", m], None)
  {
    var segs := ["bottles", b, "messages", m];
    assert CleanSegment("bottles") && CleanSegment("messages");
    assert Suffix(None, None) == "";
    JoinFour("bottles", b, "messages", m);
    assert "/" + JoinSegments(segs, "") == "/bottles/" + b + "/messages/" + m;
    ParsePathOfJoin(segs, None, None);
  }

  /** An empty part in front of the others is dropped. */
  lemma NonEmptySkipsEmpty(front: seq<string>, back: seq<string>)
    ensures NonEmpty(front + ([""] + back)) == NonEmpty(front + back)
  {
    NonEmptyAppend(front, [""] + back);
    NonEmptyAppend([""], back);
    NonEmptyAppend(front, back);
  }

  /** An extra empty part among the raw parts changes nothing. */
  lemma ParsePartsSkipsEmpty(front: seq<string>, back: seq<string>)
    requires |back| > 0
    ensures ParseParts(front + [""] + back) == ParseParts(front + back)
  {
    var raw1 := front + [""] + back;
    var raw2 := front + back;
    var last := back[|back| - 1];
    var middle := back[..|back| - 1];
    var base := SplitLast(last).0;
    assert raw1[|raw1| - 1] == last && raw2[|raw2| - 1] == last;
    assert raw1[..|raw1| - 1] + [base] == front + ([""] + (middle + [base]));
    assert raw2[..|raw2| - 1] + [base] == front + (middle + [base]);
    NonEmptySkipsEmpty(front, middle + [base]);
  }

  /**
   Empty parts are dropped, so a doubled slash changes nothing:
   "/bottles//42" is parsed as "/bottles/42".
   */
  lemma ParsePathIgnoresDoubleSlash(x: string, y: string)
    ensures ParsePath(x + "//" + y) == ParsePath(x + "/" + y)
  {
    var ex := Explode(x);
    var ey := Explode(y);
    assert Explode("/" + y) == [""] + ey by {
      assert "/" + y == "" + "/" + y;
      ExplodeSlash("", y);
    }
    assert Explode(x + "//" + y) == ex + [""] + ey by {
      assert x + "//" + y == x + "/" + ("/" + y);
      ExplodeSlash(x, "/" + y);
    }
    ExplodeSlash(x, y);
    ParsePartsSkipsEmpty(ex, ey);
  }

  /**
   Only the last raw part is cleaned, so a '/' inside the query string splits
   the path: "/bottles/42/messages?del=2020/01/01" has five segments and is
   answered NotFound although its path names the message list.
   */
  lemma SlashInQueryChangesShape()
    ensures ParsePath("/" + JoinSegments(["bottles", "42", "messages?del=2020", "01", "01"], "")).segments
         == ["bottles", "42", "messages?del=2020", "01", "01"]
    ensures Route(ParsePath("/" + JoinSegments(["bottles", "42", "messages?del=2020", "01", "01"], "")),
                  "GET", None, None) == NotFound
  {
    var segs := ["bottles", "42", "messages?del=2020", "01", "01"];
    assert Suffix(None, None) == "";
    ParsePathOfJoin(segs, None, None);
  }
}
