/** Cursor pagination over the sort key (created_at, id) (internal/repository/post_repo.go:62-104 and
    the limit+1 rule of internal/service/feed_service.go): one query shape serves every list. */
module Keyset {
  import opened Model
  import opened Cursor

  const DEFAULT_PAGE := 20
  const MAX_PAGE := 50

  /** Older in the lists' order: earlier, or at the same time with a smaller id. */
  predicate Older(a: PageCursor, b: PageCursor) {
    a.time < b.time || (a.time == b.time && a.id < b.id)
  }

  ghost predicate Descending(s: seq<PageCursor>) {
    forall i, j :: 0 <= i < j < |s| ==> Older(s[j], s[i])
  }

  function Newest(keys: set<PageCursor>): (k: PageCursor)
    requires keys != {}
    ensures k in keys && forall j :: j in keys && j != k ==> Older(j, k)
  {
    NewestExists(keys);
    var k :| k in keys && forall j :: j in keys && j != k ==> Older(j, k);
    k
  }

  lemma {:induction false} NewestExists(keys: set<PageCursor>)
    requires keys != {}
    ensures exists k :: k in keys && forall j :: j in keys && j != k ==> Older(j, k)
  {
    var k := SomeNewest(keys);
    assert k in keys && forall j :: j in keys && j != k ==> Older(j, k);
  }

  lemma {:induction false} SomeNewest(keys: set<PageCursor>) returns (best: PageCursor)
    requires keys != {}
    ensures best in keys && forall j :: j in keys && j != best ==> Older(j, best)
  {
    best :| best in keys;
    var rest := keys - {best};
    if rest == {} {
      assert forall j :: j in keys && j != best ==> j in rest;
    } else {
      var x := best;
      var k := SomeNewest(rest);
      best := if Older(k, x) then x else k;
      forall j | j in keys && j != best ensures Older(j, best) {
        if j != x {
          assert j in rest;
          assert j == k || Older(j, k);
        }
      }
    }
  }

  /** ORDER BY created_at DESC, id DESC. */
  function Desc(keys: set<PageCursor>): seq<PageCursor> {
    if keys == {} then [] else var k := Newest(keys); [k] + Desc(keys - {k})
  }

  lemma {:induction false} DescSorts(keys: set<PageCursor>)
    ensures Descending(Desc(keys)) && |Desc(keys)| == |keys|
    ensures forall k :: k in Desc(keys) <==> k in keys
  {
    if keys != {} {
      var k := Newest(keys);
      DescSorts(keys - {k});
      assert forall i :: 0 <= i < |Desc(keys - {k})| ==> Desc(keys - {k})[i] in keys - {k};
    }
  }

  /** There is only one such order. */
  lemma {:induction false} DescUnique(s: seq<PageCursor>, keys: set<PageCursor>)
    requires Descending(s) && forall k :: k in s <==> k in keys
    ensures s == Desc(keys)
    decreases |s|
  {
    if s != [] {
      assert s[0] in keys;
      var k := Newest(keys);
      assert k in s;
      assert s[0] == k;
      assert forall j :: j in s[1..] ==> j in keys && j != k;
      forall j | j in keys - {k} ensures j in s[1..] {
        var i :| 0 <= i < |s| && s[i] == j;
        assert s[1..][i - 1] == j;
      }
      DescUnique(s[1..], keys - {k});
    } else {
      assert keys == {};
    }
  }

  /** WHERE (created_at, id) < before, or everything on the first page. */
  function Past(keys: set<PageCursor>, before: Option<PageCursor>): set<PageCursor> {
    set k | k in keys && (before.None? || Older(k, before.value))
  }

  function Take<T>(s: seq<T>, n: nat): seq<T> {
    if |s| <= n then s else s[..n]
  }

  /** The list query: filter on the cursor, sort, LIMIT. */
  function Query(keys: set<PageCursor>, before: Option<PageCursor>, limit: nat): seq<PageCursor> {
    Take(Desc(Past(keys, before)), limit)
  }

  function Clamp(limit: int): (n: nat)
    ensures 1 <= n <= MAX_PAGE
    ensures 1 <= limit <= 50 ==> n == limit
    ensures limit <= 0 ==> n == 20
    ensures limit > 50 ==> n == 50
  {
    if limit <= 0 then DEFAULT_PAGE else if limit > MAX_PAGE then MAX_PAGE else limit
  }

  datatype Page = Page(items: seq<PageCursor>, hasMore: bool, next: Option<PageCursor>)

  /** Fetch one row more than asked; the extra row only says that there is a next page. */
  function GetPage(keys: set<PageCursor>, before: Option<PageCursor>, limit: int): Page {
    var n := Clamp(limit);
    var rows := Query(keys, before, n + 1);
    if |rows| > n then Page(rows[..n], true, Some(rows[n - 1])) else Page(rows, false, None)
  }

  // ---------- Walking pages while the table changes ----------

  /** tables[i] is the table when page i is asked for, limits[i] the limit asked for with it. */
  function Walk(tables: seq<set<PageCursor>>, limits: seq<int>, before: Option<PageCursor>): seq<PageCursor>
    requires |limits| == |tables|
    decreases |tables|
  {
    if tables == [] then []
    else
      var p := GetPage(tables[0], before, limits[0]);
      p.items + if p.hasMore then Walk(tables[1..], limits[1..], p.next) else []
  }

  predicate ReachesEnd(tables: seq<set<PageCursor>>, limits: seq<int>, before: Option<PageCursor>)
    requires |limits| == |tables|
    decreases |tables|
  {
    tables != [] &&
    var p := GetPage(tables[0], before, limits[0]);
    p.hasMore ==> ReachesEnd(tables[1..], limits[1..], p.next)
  }

  /** How many pages are asked for: up to and including the first without a next one. */
  function Requests(tables: seq<set<PageCursor>>, limits: seq<int>, before: Option<PageCursor>): (n: nat)
    requires |limits| == |tables|
    ensures n <= |tables|
    decreases |tables|
  {
    if tables == [] then 0
    else
      var p := GetPage(tables[0], before, limits[0]);
      1 + if p.hasMore then Requests(tables[1..], limits[1..], p.next) else 0
  }

  predicate InPast(k: PageCursor, before: Option<PageCursor>) {
    before.None? || Older(k, before.value)
  }

  /** What a page with a next one shows: everything past the cursor down to its last item. */
  ghost predicate Full(keys: set<PageCursor>, before: Option<PageCursor>, n: nat, p: Page) {
    && p.next.Some? && |p.items| == n && InPast(p.next.value, before) && p.next.value in p.items
    && (forall k :: k in p.items ==> k == p.next.value || Older(p.next.value, k))
    && (forall k :: k in keys && InPast(k, before) && !Older(k, p.next.value) ==> k in p.items)
  }

  lemma FullPage(keys: set<PageCursor>, before: Option<PageCursor>, limit: int)
    requires GetPage(keys, before, limit).hasMore
    ensures Full(keys, before, Clamp(limit), GetPage(keys, before, limit))
  {
    var past := Past(keys, before);
    var all := Desc(past);
    DescSorts(past);
    var p, n := GetPage(keys, before, limit), Clamp(limit);
    assert p.items == all[..n] && p.next.value == all[n - 1] == p.items[n - 1];
    assert all[n - 1] in past;
    forall k | k in keys && InPast(k, before) && !Older(k, p.next.value) ensures k in p.items {
      assert k in past;
      var i :| 0 <= i < |all| && all[i] == k;
      assert p.items[i] == k;
    }
  }

  /** One page: a descending run of rows past the cursor, all of them on the last page. */
  lemma PageFacts(keys: set<PageCursor>, before: Option<PageCursor>, limit: int)
    ensures var p := GetPage(keys, before, limit);
            && Descending(p.items)
            && (forall k :: k in p.items ==> k in keys && InPast(k, before))
            && (!p.hasMore ==> forall k :: k in keys && InPast(k, before) ==> k in p.items)
            && (p.hasMore ==> Full(keys, before, Clamp(limit), p))
  {
    var past := Past(keys, before);
    DescSorts(past);
    var p := GetPage(keys, before, limit);
    if p.hasMore {
      FullPage(keys, before, limit);
    } else {
      assert p.items == Desc(past);
      forall k | k in keys && InPast(k, before) ensures k in p.items { assert k in past; }
    }
    forall k | k in p.items ensures k in keys && InPast(k, before) {
      assert k in Desc(past) && k in past;
    }
  }

  lemma Joined(a: seq<PageCursor>, b: seq<PageCursor>, c: PageCursor)
    requires Descending(a) && Descending(b)
    requires forall k :: k in a ==> k == c || Older(c, k)
    requires forall k :: k in b ==> Older(k, c)
    ensures Descending(a + b)
  {
    forall i, j | 0 <= i < |a| && 0 <= j < |b| ensures Older(b[j], a[i]) {
      assert a[i] in a && b[j] in b;
    }
  }

  /** Pages shown while rows are inserted and removed between requests: strictly descending, so no row
      is shown twice, and nothing newer than the starting cursor appears. */
  lemma {:induction false} WalkDescends(tables: seq<set<PageCursor>>, limits: seq<int>, before: Option<PageCursor>)
    requires |limits| == |tables|
    ensures Descending(Walk(tables, limits, before))
    ensures forall k :: k in Walk(tables, limits, before) ==> InPast(k, before)
    decreases |tables|
  {
    if tables != [] {
      PageFacts(tables[0], before, limits[0]);
      var p := GetPage(tables[0], before, limits[0]);
      if p.hasMore {
        WalkDescends(tables[1..], limits[1..], p.next);
        Joined(p.items, Walk(tables[1..], limits[1..], p.next), p.next.value);
      }
    }
  }

  /** A walk that reaches the end shows every row that was in the table at each request. */
  lemma {:induction false} WalkComplete(
      tables: seq<set<PageCursor>>, limits: seq<int>, before: Option<PageCursor>, k: PageCursor)
    requires |limits| == |tables| && ReachesEnd(tables, limits, before)
    requires InPast(k, before) && forall i :: 0 <= i < Requests(tables, limits, before) ==> k in tables[i]
    ensures k in Walk(tables, limits, before)
    decreases |tables|
  {
    PageFacts(tables[0], before, limits[0]);
    var p := GetPage(tables[0], before, limits[0]);
    if p.hasMore && Older(k, p.next.value) {
      assert forall i :: 0 <= i < Requests(tables[1..], limits[1..], p.next) ==> tables[1..][i] == tables[i + 1];
      WalkComplete(tables[1..], limits[1..], p.next, k);
    }
  }

  /** And every row shown was in the table at one of the requests. */
  lemma {:induction false} WalkSound(tables: seq<set<PageCursor>>, limits: seq<int>, before: Option<PageCursor>,
      k: PageCursor)
    requires |limits| == |tables| && k in Walk(tables, limits, before)
    ensures exists i :: 0 <= i < Requests(tables, limits, before) && k in tables[i]
    decreases |tables|
  {
    PageFacts(tables[0], before, limits[0]);
    var p := GetPage(tables[0], before, limits[0]);
    if k !in p.items {
      WalkSound(tables[1..], limits[1..], p.next, k);
      var i :| 0 <= i < Requests(tables[1..], limits[1..], p.next) && k in tables[1..][i];
      assert k in tables[i + 1];
    }
  }

  // ---------- A table that stays the same ----------

  /** Concatenated, the pages are the whole descending list past the cursor, each row once. */
  lemma FixedTableWalk(tables: seq<set<PageCursor>>, limits: seq<int>, before: Option<PageCursor>,
      keys: set<PageCursor>)
    requires |limits| == |tables| && ReachesEnd(tables, limits, before)
    requires forall i :: 0 <= i < Requests(tables, limits, before) ==> tables[i] == keys
    ensures Walk(tables, limits, before) == Desc(Past(keys, before))
  {
    var w := Walk(tables, limits, before);
    WalkDescends(tables, limits, before);
    forall k ensures k in w <==> k in Past(keys, before) {
      if k in w {
        WalkSound(tables, limits, before, k);
      }
      if k in Past(keys, before) {
        WalkComplete(tables, limits, before, k);
      }
    }
    DescUnique(w, Past(keys, before));
  }

  /** A descending list has as many rows as distinct keys. */
  lemma ShownSize(s: seq<PageCursor>)
    requires Descending(s)
    ensures |set k | k in s| == |s|
  {
    var shown := set k | k in s;
    DescUnique(s, shown);
    DescSorts(shown);
  }

  lemma PageShrinks(keys: set<PageCursor>, before: Option<PageCursor>, limit: int)
    requires GetPage(keys, before, limit).hasMore
    ensures var p := GetPage(keys, before, limit);
            |Past(keys, p.next)| == |Past(keys, before)| - Clamp(limit)
  {
    var p := GetPage(keys, before, limit);
    var past, rest, shown := Past(keys, before), Past(keys, p.next), set k | k in p.items;
    PageFacts(keys, before, limit);
    ShownSize(p.items);
    forall k ensures k in past <==> k in shown || k in rest {
    }
    assert past == shown + rest;
    assert shown !! rest;
  }

  lemma LastPageFits(keys: set<PageCursor>, before: Option<PageCursor>, limit: int)
    ensures !GetPage(keys, before, limit).hasMore <==> |Past(keys, before)| <= Clamp(limit)
  {
    DescSorts(Past(keys, before));
  }

  /** The walk over a fixed table ends: with limit n it takes exactly as many pages as n divides the
      number of rows into, and one page for an empty list. */
  lemma {:induction false} PagesNeeded(
      tables: seq<set<PageCursor>>, limits: seq<int>, before: Option<PageCursor>, keys: set<PageCursor>, limit: int)
    requires |limits| == |tables| && tables != []
    requires forall i :: 0 <= i < |tables| ==> tables[i] == keys && limits[i] == limit
    ensures ReachesEnd(tables, limits, before) <==> |Past(keys, before)| <= |tables| * Clamp(limit)
    decreases |tables|
  {
    var n, rest := Clamp(limit), |tables| - 1;
    LastPageFits(keys, before, limit);
    assert |tables| * n == rest * n + n && rest * n >= 0;
    if GetPage(keys, before, limit).hasMore {
      PageShrinks(keys, before, limit);
      if rest > 0 {
        PagesNeeded(tables[1..], limits[1..], GetPage(keys, before, limit).next, keys, limit);
      } else {
        assert !ReachesEnd(tables[1..], limits[1..], GetPage(keys, before, limit).next);
      }
    }
  }

  // ---------- Cursors as clients see them ----------

  /** A page as it is sent: the next cursor is a string, empty when there is no next page. */
  datatype Sent = Sent(items: seq<PageCursor>, next: seq<Byte>, hasMore: bool)

  /** The list endpoints: clamp, decode the cursor if there is one, query limit + 1, encode the last key. */
  function ListPage(keys: set<PageCursor>, cursor: seq<Byte>, limit: int): Result<Sent> {
    if cursor == [] then Ok(SendPage(GetPage(keys, None, limit)))
    else
      match DecodeCursor(cursor)
      case Err(e) => Err(e)
      case Ok(c) => Ok(SendPage(GetPage(keys, Some(c), limit)))
  }

  function SendPage(p: Page): Sent {
    Sent(p.items, if p.next.Some? then EncodeCursor(p.next.value.time, p.next.value.id) else [], p.hasMore)
  }

  /** Sending back the cursor of a page asks for exactly the rows after its last item. */
  lemma NextPageContinues(keys: set<PageCursor>, later: set<PageCursor>, before: Option<PageCursor>, limit: int,
      limit': int)
    requires forall k :: k in keys ==> InInt64(k.time) && InInt64(k.id)
    requires GetPage(keys, before, limit).hasMore
    ensures var p := GetPage(keys, before, limit);
            && SendPage(p).next != []
            && ListPage(later, SendPage(p).next, limit') == Ok(SendPage(GetPage(later, p.next, limit')))
  {
    PageFacts(keys, before, limit);
    var k := GetPage(keys, before, limit).next.value;
    assert k in GetPage(keys, before, limit).items;
    CursorRoundTrip(k.time, k.id);
    assert DecodeCursor(EncodeCursor(k.time, k.id)).Ok?;
    assert DecodeCursor([]).Err?;
  }

  ghost predicate Int64Keys(keys: set<PageCursor>) {
    forall k :: k in keys ==> InInt64(k.time) && InInt64(k.id)
  }

  /** The rows of the table after a position, or all of them. */
  function After(keys: set<PageCursor>, from: Option<PageCursor>): set<PageCursor> {
    set k | k in keys && (from == None || k.time < from.value.time
                          || (k.time == from.value.time && k.id < from.value.id))
  }

  /** Newest first, none twice. */
  ghost predicate NewestFirst(s: seq<PageCursor>) {
    forall i, j :: 0 <= i < j < |s| ==> s[i].time > s[j].time || (s[i].time == s[j].time && s[i].id > s[j].id)
  }

  /** What is sent when `rest` is left to show: the newest of it, as many as asked for, and a next cursor iff
      there are more. */
  ghost predicate Shows(s: Sent, rest: set<PageCursor>, limit: int) {
    var n := if limit <= 0 then 20 else if limit > 50 then 50 else limit;
    && |s.items| == (if |rest| <= n then |rest| else n)
    && (s.hasMore <==> |rest| > n) && (s.next == [] <==> |rest| <= n)
    && NewestFirst(s.items) && (forall k :: k in s.items ==> k in rest)
    && (forall k :: k in rest && k !in s.items ==>
          |s.items| > 0 && var last := s.items[|s.items| - 1];
          k.time < last.time || (k.time == last.time && k.id < last.id))
  }

  lemma PageSize(keys: set<PageCursor>, before: Option<PageCursor>, limit: int)
    ensures var p, n := GetPage(keys, before, limit), Clamp(limit);
            var rest := |Past(keys, before)|;
            && |p.items| == (if rest <= n then rest else n)
            && (p.hasMore <==> rest > n) && (p.hasMore <==> p.next.Some?)
            && (p.hasMore ==> p.next.value == p.items[|p.items| - 1])
  {
    DescSorts(Past(keys, before));
  }

  lemma SentCursor(keys: set<PageCursor>, before: Option<PageCursor>, limit: int)
    requires Int64Keys(keys)
    ensures var p := GetPage(keys, before, limit); SendPage(p).next == [] <==> !p.hasMore
  {
    if GetPage(keys, before, limit).hasMore { NextPageContinues(keys, {}, before, limit, 1); }
  }

  /** Behind a page there is nothing newer than its last item. */
  lemma LeftOut(keys: set<PageCursor>, before: Option<PageCursor>, limit: int, k: PageCursor)
    requires k in Past(keys, before) && k !in GetPage(keys, before, limit).items
    ensures var p := GetPage(keys, before, limit); |p.items| > 0 && Older(k, p.items[|p.items| - 1])
  {
    PageFacts(keys, before, limit);
    PageSize(keys, before, limit);
  }

  lemma InRest(keys: set<PageCursor>, before: Option<PageCursor>, limit: int)
    ensures var items := GetPage(keys, before, limit).items;
            NewestFirst(items) && forall k :: k in items ==> k in Past(keys, before)
  {
    PageFacts(keys, before, limit);
  }

  lemma SentShows(keys: set<PageCursor>, before: Option<PageCursor>, limit: int)
    requires Int64Keys(keys)
    ensures Shows(SendPage(GetPage(keys, before, limit)), After(keys, before), limit)
  {
    var items, rest := GetPage(keys, before, limit).items, After(keys, before);
    assert rest == Past(keys, before);
    PageSize(keys, before, limit);
    SentCursor(keys, before, limit);
    InRest(keys, before, limit);
    forall k | k in rest && k !in items ensures |items| > 0 && Older(k, items[|items| - 1]) {
      LeftOut(keys, before, limit, k);
    }
  }

  /** The list endpoint, in full: without a cursor string it shows the newest rows; with one it shows the
      newest of those after the position it stands for, or refuses it with code 40005. */
  lemma ListAnswers(keys: set<PageCursor>, cursor: seq<Byte>, limit: int)
    requires Int64Keys(keys)
    ensures match ListPage(keys, cursor, limit)
            case Err(e) => cursor != [] && DecodeCursor(cursor) == Err(e) && e == BadRequest(40005)
            case Ok(s) =>
              if cursor == [] then Shows(s, keys, limit)
              else DecodeCursor(cursor).Ok? && Shows(s, After(keys, Some(DecodeCursor(cursor).value)), limit)
  {
    if cursor == [] {
      assert After(keys, None) == keys;
      SentShows(keys, None, limit);
    } else {
      DecodedIsInt64(cursor);
      if DecodeCursor(cursor).Ok? { SentShows(keys, Some(DecodeCursor(cursor).value), limit); }
    }
  }

  /** What a client collects that starts without a cursor and sends back the string of each page it gets,
      tables[i] being the table at its i-th request. */
  function Collect(tables: seq<set<PageCursor>>, limits: seq<int>, cursor: seq<Byte>): seq<PageCursor>
    requires |limits| == |tables|
    decreases |tables|
  {
    if tables == [] then []
    else
      match ListPage(tables[0], cursor, limits[0])
      case Err(_) => []
      case Ok(s) => s.items + if s.next == [] then [] else Collect(tables[1..], limits[1..], s.next)
  }

  /** The position a cursor string stands for. */
  ghost predicate StandsFor(cursor: seq<Byte>, before: Option<PageCursor>) {
    if cursor == [] then before == None else before.Some? && DecodeCursor(cursor) == Ok(before.value)
  }

  /** One request, and where the next one starts. */
  lemma NextRequest(keys: set<PageCursor>, cursor: seq<Byte>, before: Option<PageCursor>, limit: int)
    requires StandsFor(cursor, before) && Int64Keys(keys)
    ensures var p := GetPage(keys, before, limit);
            && ListPage(keys, cursor, limit) == Ok(SendPage(p)) && SendPage(p).items == p.items
            && (SendPage(p).next == [] <==> !p.hasMore) && StandsFor(SendPage(p).next, p.next)
  {
    var p := GetPage(keys, before, limit);
    SentCursor(keys, before, limit);
    if p.hasMore {
      PageFacts(keys, before, limit);
      assert p.next.value in keys;
      CursorRoundTrip(p.next.value.time, p.next.value.id);
    }
  }

  lemma {:induction false} CollectIsWalk(
      tables: seq<set<PageCursor>>, limits: seq<int>, cursor: seq<Byte>, before: Option<PageCursor>)
    requires |limits| == |tables| && StandsFor(cursor, before)
    requires forall i :: 0 <= i < |tables| ==> Int64Keys(tables[i])
    ensures Collect(tables, limits, cursor) == Walk(tables, limits, before)
    decreases |tables|
  {
    if tables != [] {
      var p := GetPage(tables[0], before, limits[0]);
      NextRequest(tables[0], cursor, before, limits[0]);
      var next, more, later := SendPage(p).next, tables[1..], limits[1..];
      assert Collect(tables, limits, cursor) == p.items + if p.hasMore then Collect(more, later, next) else [];
      assert Walk(tables, limits, before) == p.items + if p.hasMore then Walk(more, later, p.next) else [];
      if p.hasMore { CollectIsWalk(more, later, next, p.next); }
    }
  }

  /** From no cursor to the last page, with nothing but the strings sent back, a client collects every row of a
      table that stays the same exactly once, newest first, if it asks often enough. */
  lemma CollectsAll(tables: seq<set<PageCursor>>, limits: seq<int>, keys: set<PageCursor>, limit: int)
    requires |limits| == |tables| && tables != []
    requires forall i :: 0 <= i < |tables| ==> tables[i] == keys && limits[i] == limit
    requires Int64Keys(keys)
    requires |keys| <= |tables| * (if limit <= 0 then 20 else if limit > 50 then 50 else limit)
    ensures var s := Collect(tables, limits, []);
            NewestFirst(s) && forall k :: k in s <==> k in keys
  {
    assert Past(keys, None) == keys;
    PagesNeeded(tables, limits, None, keys, limit);
    CollectIsWalk(tables, limits, [], None);
    FixedTableWalk(tables, limits, None, keys);
    DescSorts(keys);
  }

  // ---------- Narrower lists ----------

  /** Keeping only some keys of a list gives the list of those keys: the following feed is the global
      feed without the other authors. */
  lemma {:induction false} FilterDesc(keys: set<PageCursor>, kept: set<PageCursor>)
    requires kept <= keys
    ensures Keep(Desc(keys), kept) == Desc(kept)
  {
    DescSorts(keys);
    KeepFacts(Desc(keys), kept);
    DescUnique(Keep(Desc(keys), kept), kept);
  }

  function Keep(s: seq<PageCursor>, kept: set<PageCursor>): seq<PageCursor> {
    if s == [] then [] else (if s[0] in kept then [s[0]] else []) + Keep(s[1..], kept)
  }

  lemma {:induction false} KeepFacts(s: seq<PageCursor>, kept: set<PageCursor>)
    requires Descending(s)
    ensures Descending(Keep(s, kept))
    ensures forall k :: k in Keep(s, kept) <==> k in s && k in kept
  {
    if s != [] {
      KeepFacts(s[1..], kept);
      var rest := Keep(s[1..], kept);
      forall k ensures k in Keep(s, kept) <==> k in s && k in kept {
        assert k in s <==> k == s[0] || k in s[1..];
      }
      if s[0] in kept {
        forall j | 0 <= j < |rest| ensures Older(rest[j], s[0]) {
          assert rest[j] in s[1..];
          var i :| 0 <= i < |s[1..]| && s[1..][i] == rest[j];
          assert s[i + 1] == rest[j];
        }
      }
    }
  }
}
