/**
 The message store behind the service, reduced to what the SQL statements of
 `webservice.php` do to it: a map from (bottle ID, message ID) to a row, a
 bottle table, and the image files written next to it. The outcome of
 binding and executing a statement, and of writing a file, is not decided
 here: callers pass it in (an oracle), indexed by the item's position in
 its batch.
 */
module Store {

  import opened ResultTree

  /** (bottle_id, message_id), the natural key of the messages table. */
  type MessageKey = (int, int)

  /**
   One row of the messages table as the service reads it back; SQL NULL is
   `Null`. Coordinates are kept as the opaque values that were stored.
   */
  datatype Row = Row(
    title: Value,
    text: Value,
    hasPicture: int,
    author: Value,
    time: Value,
    toBeDeleted: int,
    deleted: Value,
    longitude: Value,
    latitude: Value,
    crc: Value)

  datatype Bottle = Bottle(name: Value, major: Value, minor: Value)

  type Messages = map<MessageKey, Row>

  /** Image files by path; the content is the payload as received. */
  type Files = map<string, string>

  // ---------------------------------------------------------------------------
  // Reading
  // ---------------------------------------------------------------------------

  /** The message IDs stored for one bottle. */
  function MessageIds(msgs: Messages, bottle: int): (ids: set<int>)
    ensures forall m :: m in ids <==> (bottle, m) in msgs
  {
    set k | k in msgs && k.0 == bottle :: k.1
  }

  lemma Element(s: set<int>) returns (x: int)
    requires s != {}
    ensures x in s
  {
    if forall y :: y !in s {
      assert false;
    }
    x :| x in s;
  }

  lemma {:induction false} HasMaximum(s: set<int>)
    requires s != {}
    ensures exists m :: m in s && forall y :: y in s ==> y <= m
  {
    var x := Element(s);
    if s != {x} {
      var rest := s - {x};
      assert forall y :: y in s ==> y == x || y in rest;
      HasMaximum(rest);
      var m :| m in rest && forall y :: y in rest ==> y <= m;
      if x > m {
        assert forall y :: y in s ==> y <= x;
      } else {
        assert forall y :: y in s ==> y <= m;
      }
    }
  }

  function Maximum(s: set<int>): (m: int)
    requires s != {}
    ensures m in s && forall y :: y in s ==> y <= m
  {
    HasMaximum(s);
    var m :| m in s && forall y :: y in s ==> y <= m;
    m
  }

  predicate StrictlyDescending(xs: seq<int>) {
    forall i, j :: 0 <= i < j < |xs| ==> xs[i] > xs[j]
  }

  lemma DescendingCons(m: int, rest: seq<int>, s: set<int>)
    requires m in s && forall y :: y in s ==> y <= m
    requires forall x :: x in rest <==> x in s - {m}
    requires StrictlyDescending(rest)
    ensures forall x :: x in [m] + rest <==> x in s
    ensures StrictlyDescending([m] + rest)
  {
    forall j | 0 <= j < |rest| ensures rest[j] in s - {m} {
      assert rest[j] in rest;
    }
  }

  /** `Order By message_id Desc`: the elements of `s`, largest first. */
  function Descending(s: set<int>): (r: seq<int>)
    ensures |r| == |s|
    ensures forall x :: x in r <==> x in s
    ensures StrictlyDescending(r)
    decreases |s|
  {
    if s == {} then []
    else
      var m := Maximum(s);
      var rest := Descending(s - {m});
      DescendingCons(m, rest, s);
      [m] + rest
  }

  /** `Limit offset, limit` applied to an ordered result. */
  function Window(xs: seq<int>, offset: nat, limit: nat): (r: seq<int>)
    ensures |r| == (if offset >= |xs| then 0 else if limit < |xs| - offset then limit else |xs| - offset)
    ensures forall i :: 0 <= i < |r| ==> r[i] == xs[offset + i]
  {
    if offset >= |xs| then []
    else if limit < |xs| - offset then xs[offset..offset + limit]
    else xs[offset..]
  }

  /** The IDs of `ids` above `x`: the messages newer than message `x`. */
  function Newer(ids: set<int>, x: int): set<int> {
    set m | m in ids && m > x
  }

  /**
   The message list without a delete date: the bottle's IDs, newest first,
   windowed. The window holds `limit` IDs, or fewer when the bottle runs out,
   and its `i`-th ID has exactly `offset + i` newer messages in the bottle.
   */
  function ListedIds(msgs: Messages, bottle: int, offset: nat, limit: nat): (r: seq<int>)
    ensures StrictlyDescending(r)
    ensures forall i :: 0 <= i < |r| ==> (bottle, r[i]) in msgs
    ensures var n := |MessageIds(msgs, bottle)|;
      |r| == (if offset >= n then 0 else if limit < n - offset then limit else n - offset)
    ensures forall i :: 0 <= i < |r| ==> |Newer(MessageIds(msgs, bottle), r[i])| == offset + i
    ensures |r| <= limit
    ensures offset == 0 && limit >= |MessageIds(msgs, bottle)| ==>
      forall m :: m in r <==> (bottle, m) in msgs
  {
    var all := Descending(MessageIds(msgs, bottle));
    WindowOfDescending(all, offset, limit);
    WindowRanks(all, MessageIds(msgs, bottle), offset, limit);
    Window(all, offset, limit)
  }

  /** The `i`-th ID of a window over the descending enumeration of `s` has `offset + i` larger ones in `s`. */
  lemma WindowRanks(xs: seq<int>, s: set<int>, offset: nat, limit: nat)
    requires StrictlyDescending(xs) && (forall x :: x in xs <==> x in s)
    ensures var r := Window(xs, offset, limit);
      forall i :: 0 <= i < |r| ==> |Newer(s, r[i])| == offset + i
  {
    var r := Window(xs, offset, limit);
    forall i | 0 <= i < |r| ensures |Newer(s, r[i])| == offset + i {
      DescendingRank(xs, s, offset + i);
    }
  }

  /** A strictly descending sequence has as many distinct elements as positions. */
  lemma {:induction false} ElementsCount(ys: seq<int>)
    requires StrictlyDescending(ys)
    ensures |(set y | y in ys)| == |ys|
  {
    if ys != [] {
      assert StrictlyDescending(ys[1..]);
      ElementsCount(ys[1..]);
      assert (set y | y in ys) == {ys[0]} + (set y | y in ys[1..]);
      if ys[0] in ys[1..] {
        TailBelowHead(ys, ys[0]);
        assert false;
      }
    }
  }

  /** In the descending enumeration of a set, the element at position `k` has exactly `k` larger elements. */
  lemma DescendingRank(xs: seq<int>, s: set<int>, k: nat)
    requires StrictlyDescending(xs) && (forall x :: x in xs <==> x in s)
    requires k < |xs|
    ensures |Newer(s, xs[k])| == k
  {
    forall m | m in Newer(s, xs[k]) ensures m in xs[..k] {
      assert m in xs;
      var j :| 0 <= j < |xs| && xs[j] == m;
      if j >= k {
        assert false;
      }
      assert xs[..k][j] == m;
    }
    forall m | m in xs[..k] ensures m in Newer(s, xs[k]) {
      var j :| 0 <= j < k && xs[..k][j] == m;
      assert xs[j] == m && xs[j] in xs;
    }
    assert Newer(s, xs[k]) == (set y | y in xs[..k]);
    ElementsCount(xs[..k]);
  }

  /** A window of a descending sequence is descending, drawn from it, and the whole of it when it starts at 0 and is wide enough. */
  lemma WindowOfDescending(xs: seq<int>, offset: nat, limit: nat)
    requires StrictlyDescending(xs)
    ensures var r := Window(xs, offset, limit);
      && StrictlyDescending(r)
      && (forall i :: 0 <= i < |r| ==> r[i] in xs)
      && (offset == 0 && limit >= |xs| ==> r == xs)
  {
    var r := Window(xs, offset, limit);
    forall i | 0 <= i < |r| ensures r[i] in xs {
      assert r[i] == xs[offset + i];
    }
  }

  /** String order, which is date order for ISO dates ("2020-01-31" < "2020-02-01"). */
  predicate TextAtMost(a: string, b: string) {
    if a == [] then true
    else if b == [] then false
    else if a[0] != b[0] then a[0] < b[0]
    else TextAtMost(a[1..], b[1..])
  }

  /** `to_be_deleted = 1 Or deleted >= ?`: a NULL deletion date compares as false. */
  predicate InDeleteListing(row: Row, since: string) {
    row.toBeDeleted == 1 || (row.deleted.Str? && TextAtMost(since, row.deleted.s))
  }

  lemma TailBelowHead(xs: seq<int>, m: int)
    requires StrictlyDescending(xs) && |xs| > 0 && m in xs[1..]
    ensures m < xs[0]
  {
    var i :| 0 <= i < |xs[1..]| && xs[1..][i] == m;
    assert xs[i + 1] == m;
  }

  function DeleteCandidates(ids: seq<int>, msgs: Messages, bottle: int, since: string): (r: seq<int>)
    requires forall i :: 0 <= i < |ids| ==> (bottle, ids[i]) in msgs
    ensures forall m :: m in r <==> m in ids && InDeleteListing(msgs[(bottle, m)], since)
    ensures StrictlyDescending(ids) ==> StrictlyDescending(r)
    ensures forall m :: m in r ==> exists i :: 0 <= i < |ids| && ids[i] == m
  {
    if ids == [] then []
    else
      var rest := DeleteCandidates(ids[1..], msgs, bottle, since);
      assert forall m :: m in ids[1..] ==> m in ids;
      assert StrictlyDescending(ids) ==> StrictlyDescending(ids[1..]);
      if InDeleteListing(msgs[(bottle, ids[0])], since) then
        assert StrictlyDescending(ids) ==> forall j :: 0 <= j < |rest| ==> rest[j] < ids[0] by {
          if StrictlyDescending(ids) {
            forall j | 0 <= j < |rest| ensures rest[j] < ids[0] {
              TailBelowHead(ids, rest[j]);
            }
          }
        }
        [ids[0]] + rest
      else rest
  }

  /** The message list with a delete date: every flagged or recently deleted message, newest first. */
  function DeletedIds(msgs: Messages, bottle: int, since: string): (r: seq<int>)
    ensures StrictlyDescending(r)
    ensures forall m :: m in r <==> (bottle, m) in msgs && InDeleteListing(msgs[(bottle, m)], since)
  {
    var all := Descending(MessageIds(msgs, bottle));
    DeleteCandidates(all, msgs, bottle, since)
  }

  /**
   `Select name, count(message_id), ... From bottles Inner Join messages ...
   Where id = ?`: an aggregate without grouping always yields one row, whose
   name is NULL when the bottle is unknown or holds no message. The join
 pairs messages with bottle rows, so an unknown bottle counts no message.
   */
  datatype BottleInfo = BottleInfo(name: Value, count: nat, major: Value, minor: Value)

  function BottleQuery(bottles: map<int, Bottle>, msgs: Messages, bottle: int): (r: BottleInfo)
    ensures bottle in bottles ==> r.count == |MessageIds(msgs, bottle)|
    ensures bottle !in bottles ==> r.count == 0
    ensures r.count == 0 || bottle !in bottles ==> r.name == Null
    ensures r.count > 0 && bottle in bottles ==> r.name == bottles[bottle].name
  {
    if bottle !in bottles then BottleInfo(Null, 0, Null, Null)
    else
      var n := |MessageIds(msgs, bottle)|;
      if n == 0 then BottleInfo(Null, n, Null, Null)
      else BottleInfo(bottles[bottle].name, n, bottles[bottle].major, bottles[bottle].minor)
  }
}
