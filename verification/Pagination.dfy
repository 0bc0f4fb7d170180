/** Keyset pagination: one page, and scans that follow the cursor while rows come and go. */
module Pagination {
  import opened Collections
  import CursorCodec

  /** What a table holds of the paginated column; its values are unique, as for a primary key. */
  type Table = set<int>

  predicate Before(ascending: bool, a: int, b: int) {
    if ascending then a < b else b < a
  }

  ghost predicate Sorted(ascending: bool, s: seq<int>) {
    forall i, j :: 0 <= i < j < |s| ==> Before(ascending, s[i], s[j])
  }

  // ---------------------------------------------------------------- ORDER BY

  lemma Inhabited(t: Table) returns (x: int)
    requires t != {}
    ensures x in t
  {
    assert (forall y :: y !in t) ==> t == {};
    x :| x in t;
  }

  lemma {:induction false} FirstExists(ascending: bool, t: Table)
    requires t != {}
    ensures exists x :: IsFirst(ascending, t, x)
  {
    var y := Inhabited(t);
    if t == {y} {
      assert IsFirst(ascending, t, y);
    } else {
      var rest := t - {y};
      assert rest == {} ==> t == {y};
      FirstExists(ascending, rest);
      var x :| IsFirst(ascending, rest, x);
      var first := if Before(ascending, x, y) then x else y;
      forall z <- t
        ensures z == first || Before(ascending, first, z)
      {
        assert z == y || z in rest;
      }
      assert IsFirst(ascending, t, first);
    }
  }

  ghost predicate IsFirst(ascending: bool, t: Table, x: int) {
    x in t && forall z <- t :: z == x || Before(ascending, x, z)
  }

  /** The rows in order. */
  ghost function Ordered(ascending: bool, t: Table): seq<int> {
    if t == {} then []
    else
      FirstExists(ascending, t);
      var x :| IsFirst(ascending, t, x);
      [x] + Ordered(ascending, t - {x})
  }

  lemma {:induction false} OrderedFacts(ascending: bool, t: Table)
    ensures Sorted(ascending, Ordered(ascending, t))
    ensures forall x :: x in Ordered(ascending, t) <==> x in t
    ensures |Ordered(ascending, t)| == |t|
  {
    if t != {} {
      FirstExists(ascending, t);
      var x :| IsFirst(ascending, t, x) && Ordered(ascending, t) == [x] + Ordered(ascending, t - {x});
      OrderedFacts(ascending, t - {x});
      var rest := Ordered(ascending, t - {x});
      assert forall i :: 0 <= i < |rest| ==> rest[i] in rest;
    }
  }

  /** A sorted sequence is determined by its elements. */
  lemma {:induction false} SortedUnique(ascending: bool, s: seq<int>, t: Table)
    requires Sorted(ascending, s) && forall x :: x in s <==> x in t
    ensures s == Ordered(ascending, t)
    decreases |s|
  {
    if s == [] {
      if t != {} {
        var _ := Inhabited(t);
      }
    } else {
      var x := s[0];
      assert s == [x] + s[1..];
      assert IsFirst(ascending, t, x);
      FirstExists(ascending, t);
      var y :| IsFirst(ascending, t, y) && Ordered(ascending, t) == [y] + Ordered(ascending, t - {y});
      assert y == x;
      assert forall z <- s[1..] :: z != x;
      SortedUnique(ascending, s[1..], t - {x});
    }
  }

  // ---------------------------------------------------------------- one page

  datatype Page = Page(items: seq<int>, nextCursor: Option<int>, hasMore: bool)

  /** The rows past the cursor, in the order of the scan; all of them without a cursor. */
  function After(ascending: bool, t: Table, cursor: Option<int>): Table {
    match cursor
    case None => t
    case Some(c) => set x | x in t && Before(ascending, c, x)
  }

  function EffectiveLimit(limit: int, maxLimit: int): (n: nat)
    ensures n >= 1
  {
    var clipped := if limit < maxLimit then limit else maxLimit;
    if clipped < 1 then 1 else clipped
  }

  /** The page of at most `limit` rows: one row more is fetched to see whether any remain. */
  ghost function FetchPage(ascending: bool, t: Table, cursor: Option<int>, limit: nat): Page
    requires limit >= 1
  {
    var rows := Ordered(ascending, After(ascending, t, cursor));
    var items := if |rows| > limit + 1 then rows[..limit + 1] else rows;
    if |items| > limit
    then Page(items[..limit], Some(items[limit - 1]), true)
    else Page(items, None, false)
  }

  /** A page starts right after the cursor and skips nothing: its rows are the first rows after the
      cursor, and without has_more they are all of them. */
  lemma PageFacts(ascending: bool, t: Table, cursor: Option<int>, limit: nat)
    requires limit >= 1
    ensures var page := FetchPage(ascending, t, cursor, limit);
            && Sorted(ascending, page.items)
            && |page.items| <= limit
            && (forall x <- page.items :: x in After(ascending, t, cursor))
            && (page.hasMore <==> |After(ascending, t, cursor)| > limit)
            && (page.hasMore <==> page.nextCursor.Some?)
            && (!page.hasMore ==> forall x :: x in page.items <==> x in After(ascending, t, cursor))
            && (page.hasMore ==>
                  && |page.items| == limit && page.nextCursor.value == page.items[limit - 1]
                  && (forall x <- After(ascending, t, cursor) ::
                        x in page.items || Before(ascending, page.nextCursor.value, x))
                  && (exists x :: x in After(ascending, t, cursor) && Before(ascending, page.nextCursor.value, x)))
  {
    var all := After(ascending, t, cursor);
    var rows := Ordered(ascending, all);
    var page := FetchPage(ascending, t, cursor, limit);
    OrderedFacts(ascending, all);
    if page.hasMore {
      assert page.items == rows[..limit];
      assert rows[limit] in all && Before(ascending, rows[limit - 1], rows[limit]);
      forall x <- all
        ensures x in page.items || Before(ascending, rows[limit - 1], x)
      {
        var i :| 0 <= i < |rows| && rows[i] == x;
        if i < limit { assert page.items[i] == x; }
      }
    }
  }

  // ---------------------------------------------------------------- scans

  /** What one fetch of a scan meets: the table as it is then, and the limit asked for. */
  datatype Request = Request(table: Table, limit: int, maxLimit: int)

  ghost function PageOf(ascending: bool, r: Request, cursor: Option<int>): Page {
    FetchPage(ascending, r.table, cursor, EffectiveLimit(r.limit, r.maxLimit))
  }

  /** In numbers: of the rows past the cursor a page holds the first ones, as many as there are, as were asked for and
      as are allowed, but never fewer than one; it has more if and only if some are left, and then its cursor is
      its last row. */
  lemma PageIsExact(ascending: bool, r: Request, cursor: Option<int>)
    ensures
      var page := PageOf(ascending, r, cursor);
      var rows := set x | x in r.table && (cursor.Some? ==> if ascending then cursor.value < x else x < cursor.value);
      var asked := if r.limit >= 1 && r.maxLimit >= 1 then Smaller(r.limit, r.maxLimit) else 1;
      && |page.items| == Smaller(|rows|, asked)
      && (forall i, j :: 0 <= i < j < |page.items| ==>
            if ascending then page.items[i] < page.items[j] else page.items[i] > page.items[j])
      && (forall x <- page.items :: x in rows)
      && (forall x, y :: x in page.items && y in rows && y !in page.items ==> if ascending then x < y else x > y)
      && (page.hasMore <==> |rows| > |page.items|)
      && page.nextCursor == if page.hasMore then Some(page.items[|page.items| - 1]) else None
  {
    var limit := EffectiveLimit(r.limit, r.maxLimit);
    var page := PageOf(ascending, r, cursor);
    var rows := set x | x in r.table && (cursor.Some? ==> if ascending then cursor.value < x else x < cursor.value);
    assert rows == After(ascending, r.table, cursor);
    PageFacts(ascending, r.table, cursor, limit);
    OrderedFacts(ascending, rows);
    forall x, y | x in page.items && y in rows && y !in page.items
      ensures Before(ascending, x, y)
    {
      assert Before(ascending, page.nextCursor.value, y);
      assert x == page.nextCursor.value || Before(ascending, x, page.nextCursor.value);
    }
  }

  function Smaller(a: int, b: int): int { if a < b then a else b }

  /** The rows a scan collects: each fetch passes on the cursor of the one before, until has_more is
      false or the requests run out. */
  ghost function Scan(ascending: bool, requests: seq<Request>, cursor: Option<int>): seq<int>
    decreases |requests|
  {
    if requests == [] then []
    else
      var page := PageOf(ascending, requests[0], cursor);
      page.items + if page.hasMore then Scan(ascending, requests[1..], page.nextCursor) else []
  }

  /** How many fetches the scan makes. */
  ghost function Fetches(ascending: bool, requests: seq<Request>, cursor: Option<int>): (n: nat)
    ensures n <= |requests|
    decreases |requests|
  {
    if requests == [] then 0
    else
      var page := PageOf(ascending, requests[0], cursor);
      1 + if page.hasMore then Fetches(ascending, requests[1..], page.nextCursor) else 0
  }

  /** Whether the scan reached the end. */
  ghost predicate Ends(ascending: bool, requests: seq<Request>, cursor: Option<int>)
    decreases |requests|
  {
    requests != [] &&
    var page := PageOf(ascending, requests[0], cursor);
    page.hasMore ==> Ends(ascending, requests[1..], page.nextCursor)
  }

  predicate PastCursor(ascending: bool, cursor: Option<int>, x: int) {
    cursor.Some? ==> Before(ascending, cursor.value, x)
  }

  /** However rows are inserted and deleted between the fetches, a scan returns rows in order, hence
      none twice. */
  lemma {:induction false} ScanIsSorted(ascending: bool, requests: seq<Request>, cursor: Option<int>)
    ensures Sorted(ascending, Scan(ascending, requests, cursor))
    ensures forall x <- Scan(ascending, requests, cursor) :: PastCursor(ascending, cursor, x)
    decreases |requests|
  {
    if requests != [] {
      var r := requests[0];
      var page := PageOf(ascending, r, cursor);
      PageFacts(ascending, r.table, cursor, EffectiveLimit(r.limit, r.maxLimit));
      if page.hasMore {
        var rest := Scan(ascending, requests[1..], page.nextCursor);
        ScanIsSorted(ascending, requests[1..], page.nextCursor);
        assert page.items[|page.items| - 1] in page.items;
        assert forall i :: 0 <= i < |rest| ==> rest[i] in rest;
      } else {
        assert Scan(ascending, requests, cursor) == page.items;
      }
    }
  }

  ghost predicate PresentThroughout(requests: seq<Request>, n: nat, x: int)
    requires n <= |requests|
  {
    forall i :: 0 <= i < n ==> x in requests[i].table
  }

  /** A row that is there at every fetch of a scan that ends is returned; and every row returned was
      there at some fetch. */
  lemma {:induction false} ScanIsComplete(ascending: bool, requests: seq<Request>, cursor: Option<int>, x: int)
    ensures Ends(ascending, requests, cursor) && PastCursor(ascending, cursor, x)
            && PresentThroughout(requests, Fetches(ascending, requests, cursor), x)
            ==> x in Scan(ascending, requests, cursor)
    ensures x in Scan(ascending, requests, cursor) ==> exists i :: 0 <= i < |requests| && x in requests[i].table
    decreases |requests|
  {
    if requests != [] {
      var r := requests[0];
      var page := PageOf(ascending, r, cursor);
      PageFacts(ascending, r.table, cursor, EffectiveLimit(r.limit, r.maxLimit));
      if page.hasMore {
        var rest := requests[1..];
        ScanIsComplete(ascending, rest, page.nextCursor, x);
        var n := Fetches(ascending, requests, cursor);
        if PresentThroughout(requests, n, x) {
          assert x in requests[0].table;
          assert forall i :: 0 <= i < n - 1 ==> rest[i] == requests[i + 1];
        }
        if x in Scan(ascending, rest, page.nextCursor) {
          var i :| 0 <= i < |rest| && x in rest[i].table;
          assert rest[i] == requests[i + 1];
        }
      } else if PresentThroughout(requests, 1, x) {
        assert x in requests[0].table;
      }
    }
  }

  /** With nobody changing the table, every scan ends: each fetch that leaves more takes some rows. */
  lemma {:induction false} StillTableEnds(ascending: bool, requests: seq<Request>, t: Table, cursor: Option<int>)
    requires forall r <- requests :: r.table == t
    requires |After(ascending, t, cursor)| < |requests|
    ensures Ends(ascending, requests, cursor)
    decreases |requests|
  {
    var r := requests[0];
    var page := PageOf(ascending, r, cursor);
    PageFacts(ascending, t, cursor, EffectiveLimit(r.limit, r.maxLimit));
    if page.hasMore {
      var last := page.nextCursor.value;
      var before, after := After(ascending, t, cursor), After(ascending, t, page.nextCursor);
      assert last in page.items;
      assert after <= before - {last};
      assert |before| == |after + (before - after)| == |after| + |before - after|;
      assert last in before - after;
      assert forall q <- requests[1..] :: q in requests;
      StillTableEnds(ascending, requests[1..], t, page.nextCursor);
    }
  }

  /** With nobody changing the table, following the cursor long enough collects exactly the full
      ordered result, page after page. */
  lemma {:induction false} StillTable(ascending: bool, requests: seq<Request>, t: Table)
    requires (forall r <- requests :: r.table == t) && |t| < |requests|
    ensures Ends(ascending, requests, None) && Scan(ascending, requests, None) == Ordered(ascending, t)
  {
    var s := Scan(ascending, requests, None);
    StillTableEnds(ascending, requests, t, None);
    ScanIsSorted(ascending, requests, None);
    forall x
      ensures x in s <==> x in t
    {
      ScanIsComplete(ascending, requests, None, x);
      if x in t {
        assert forall i :: 0 <= i < |requests| ==> requests[i] in requests;
        assert PresentThroughout(requests, Fetches(ascending, requests, None), x);
      }
    }
    SortedUnique(ascending, s, t);
  }

  ghost predicate Positive(requests: seq<Request>) {
    forall r <- requests, x <- r.table :: x > 0
  }

  /** A descending scan over positive ids ends within as many fetches as there can be ids below its cursor. */
  lemma {:induction false} DescendingEndsFrom(requests: seq<Request>, cursor: int)
    requires Positive(requests) && requests != [] && cursor - 1 <= |requests|
    ensures Ends(false, requests, Some(cursor))
    decreases |requests|
  {
    var r := requests[0];
    var page := PageOf(false, r, Some(cursor));
    PageFacts(false, r.table, Some(cursor), EffectiveLimit(r.limit, r.maxLimit));
    if page.hasMore {
      var last := page.nextCursor.value;
      assert last in page.items;
      var next :| next in After(false, r.table, Some(cursor)) && Before(false, last, next);
      assert r in requests && next in r.table && 0 < next < last < cursor;
      assert forall q <- requests[1..] :: q in requests;
      DescendingEndsFrom(requests[1..], last);
    }
  }

  /** Whatever is inserted or deleted meanwhile, a descending scan over positive ids ends: the highest
      id at the first fetch bounds the number of fetches. */
  lemma DescendingEnds(requests: seq<Request>, highest: nat)
    requires Positive(requests) && requests != [] && highest <= |requests|
    requires forall x <- requests[0].table :: x <= highest
    ensures Ends(false, requests, None)
  {
    var r := requests[0];
    var page := PageOf(false, r, None);
    PageFacts(false, r.table, None, EffectiveLimit(r.limit, r.maxLimit));
    if page.hasMore {
      var last := page.nextCursor.value;
      assert last in page.items;
      var next :| next in After(false, r.table, None) && Before(false, last, next);
      assert r in requests && next in r.table && last in r.table && 0 < next < last <= highest;
      assert forall q <- requests[1..] :: q in requests;
      DescendingEndsFrom(requests[1..], last);
    }
  }

  /** Tables that keep growing ahead of an ascending scan. */
  function Growing(from: int, n: nat): (requests: seq<Request>)
    ensures |requests| == n
    decreases n
  {
    if n == 0 then [] else [Request({from + 1, from + 2}, 1, 100)] + Growing(from + 1, n - 1)
  }

  /** An ascending scan has no such bound: inserts ahead of it can keep it going for any number of fetches. */
  lemma {:induction false} AscendingMayNotEnd(from: int, n: nat)
    ensures !Ends(true, Growing(from, n), Some(from))
    ensures Fetches(true, Growing(from, n), Some(from)) == n
    decreases n
  {
    if n > 0 {
      var requests := Growing(from, n);
      var t := {from + 1, from + 2};
      assert requests[0] == Request(t, 1, 100) && requests[1..] == Growing(from + 1, n - 1);
      assert After(true, t, Some(from)) == t;
      PageFacts(true, t, Some(from), 1);
      var page := PageOf(true, requests[0], Some(from));
      assert |t| == 2;
      assert page.hasMore && page.items[0] == from + 1;
      AscendingMayNotEnd(from + 1, n - 1);
    }
  }

  // ---------------------------------------------------------------- through encoded cursors

  datatype TextPage = TextPage(items: seq<int>, nextCursor: Option<string>, hasMore: bool)

  /** What a cursor as the client sends it asks for: an empty one everything, an encoded id what comes after
      it; None if it does not decode to an integer. */
  function PositionOf(cursor: Option<string>): Option<Option<int>> {
    if cursor.None? || cursor.value == "" then Some(None)
    else
      match CursorCodec.DecodeCursor(cursor.value)
      case None => None
      case Some(text) =>
        match CursorCodec.ReadInt(text)
        case None => None
        case Some(id) => Some(Some(id))
  }

  /** A scan starts over without a cursor and with an empty one, and with no other. */
  lemma StartsOver(cursor: Option<string>)
    ensures PositionOf(cursor) == Some(None) <==> cursor.None? || |cursor.value| == 0
  {
  }

  function Encoded(cursor: Option<int>): Option<string> {
    match cursor case None => None case Some(id) => Some(CursorCodec.EncodeCursor(id))
  }

  ghost function TextPageOf(ascending: bool, r: Request, cursor: Option<string>): Option<TextPage> {
    match PositionOf(cursor)
    case None => None
    case Some(position) =>
      var page := PageOf(ascending, r, position);
      Some(TextPage(page.items, Encoded(page.nextCursor), page.hasMore))
  }

  /** A scan by a client that only passes back the cursors it was given; None if one is refused. */
  ghost function TextScan(ascending: bool, requests: seq<Request>, cursor: Option<string>): Option<seq<int>>
    decreases |requests|
  {
    if requests == [] then Some([])
    else
      match TextPageOf(ascending, requests[0], cursor)
      case None => None
      case Some(page) =>
        if !page.hasMore then Some(page.items)
        else
          match TextScan(ascending, requests[1..], page.nextCursor)
          case None => None
          case Some(rest) => Some(page.items + rest)
  }

  lemma EncodedPosition(cursor: Option<int>)
    ensures PositionOf(Encoded(cursor)) == Some(cursor)
  {
    if cursor.Some? { CursorCodec.CursorRoundTrip(cursor.value); }
  }

  /** Passing the cursors as text changes nothing: no cursor is refused and the same rows are returned. */
  lemma {:induction false} TextScanIsScan(ascending: bool, requests: seq<Request>, cursor: Option<int>)
    ensures TextScan(ascending, requests, Encoded(cursor)) == Some(Scan(ascending, requests, cursor))
    decreases |requests|
  {
    EncodedPosition(cursor);
    if requests != [] {
      var page := PageOf(ascending, requests[0], cursor);
      if page.hasMore {
        TextScanIsScan(ascending, requests[1..], page.nextCursor);
      } else {
        assert page.items + [] == page.items;
      }
    }
  }
}
