/** The hot list from end to end: the ranking of internal/cache/cache.go:102-137 shown by
    internal/service/feed_service.go:250-273. */
module HotFeed {
  import opened Model
  import opened Cursor
  import opened Keyset
  import opened PostCache
  import opened Feed
  import HotBoard

  /** The post ids of a ranking. */
  function Ids(items: seq<PageCursor>): seq<int> {
    seq(|items|, i requires 0 <= i < |items| => items[i].id)
  }

  /** loadHot: rank sixty buckets, cut to the page size, show what is live.  `failed` are the buckets that
      could not be read. */
  method LoadHot(cache: HotBoard.Cache, list: HotList, src: Source, posts: map<int, Post>,
                 now: nat, limit: nat, viewer: int, failed: set<nat>) returns (items: array<PostView>)
    ensures fresh(items)
    ensures var board := HotBoard.Totals(HotBoard.Answering(cache.buckets, failed), now, 60);
            items[..] == ForViewer(src, viewer, PublicViews(posts, src.users, Ids(HotBoard.TopN(board, limit))))
  {
    var ranking := cache.HotTopN(now, 60, limit, failed);
    var ranked := Ids(ranking);
    items := list.LoadHot(src, posts, ranked, viewer);
  }

  /** ListHot: the cached public list, or the one of the ranking, with the viewer's own likes. */
  method ListHot(cache: HotBoard.Cache, list: HotList, src: Source, posts: map<int, Post>,
                 limit: int, viewer: int, failed: set<nat>, readOk: bool, setOk: bool) returns (items: array<PostView>)
    requires list.NobodysLikes() && list.now >= 0
    modifies list`results
    ensures fresh(items) && list.NobodysLikes()
    ensures var n := Clamp(limit);
            var hit := readOk && n in old(list.results) && list.now < old(list.results)[n].dies;
            var board := HotBoard.Totals(HotBoard.Answering(cache.buckets, failed), list.now, 60);
            var public := if hit then old(list.results)[n].views
                          else PublicViews(posts, src.users, Ids(HotBoard.TopN(board, n)));
            items[..] == ForViewer(src, viewer, public)
  {
    var ranking := cache.HotTopN(list.now, 60, Clamp(limit), failed);
    items := list.List(src, posts, Ids(ranking), viewer, limit, readOk, setOk);
  }

  // ---------- Who is on it, and in which order ----------

  /** Those ranked before k. */
  function Before(keys: set<PageCursor>, k: PageCursor): set<PageCursor> {
    set j | j in keys && Older(k, j)
  }

  /** The i-th of the sorted list has exactly i before it. */
  lemma {:induction false} RankOf(keys: set<PageCursor>, i: nat)
    requires i < |Desc(keys)|
    ensures Desc(keys)[i] in keys && |Before(keys, Desc(keys)[i])| == i
  {
    var first := Newest(keys);
    var rest := keys - {first};
    if i == 0 {
      assert Before(keys, first) == {};
    } else {
      RankOf(rest, i - 1);
      var k := Desc(rest)[i - 1];
      assert Before(keys, k) == Before(rest, k) + {first};
    }
  }

  /** A key makes the cut iff fewer than `limit` are ranked before it. */
  lemma InTop(keys: set<PageCursor>, limit: nat, k: PageCursor)
    ensures k in Take(Desc(keys), limit) <==> k in keys && |Before(keys, k)| < limit
  {
    DescSorts(keys);
    var all, top := Desc(keys), Take(Desc(keys), limit);
    if i :| 0 <= i < |top| && top[i] == k {
      RankOf(keys, i);
    }
    if k in keys && |Before(keys, k)| < limit {
      var i :| 0 <= i < |all| && all[i] == k;
      RankOf(keys, i);
      assert top[i] == k;
    }
  }

  predicate LivePost(posts: map<int, Post>, id: int) {
    id in posts && !posts[id].deleted
  }

  /** Leaves out the ids that are not live. */
  function LiveIds(posts: map<int, Post>, ranked: seq<int>): seq<int> {
    if ranked == [] then []
    else (if LivePost(posts, ranked[0]) then [ranked[0]] else []) + LiveIds(posts, ranked[1..])
  }

  /** The views are those of the live ranked posts, in rank order, with nobody's likes. */
  lemma {:induction false} ShownIds(posts: map<int, Post>, users: map<int, User>, ranked: seq<int>)
    requires forall id :: id in posts ==> posts[id].id == id
    ensures var views, ids := PublicViews(posts, users, ranked), LiveIds(posts, ranked);
            && |views| == |ids|
            && forall i :: 0 <= i < |ids| ==>
                 && views[i].id == ids[i] && LivePost(posts, ids[i])
                 && ShowsPost(views[i], posts[ids[i]], users, false)
  {
    if ranked != [] {
      ShownIds(posts, users, ranked[1..]);
    }
  }

  /** What two live ids of the ranking have before them there, they have before them without the others. */
  lemma {:induction false} LiveOrder(posts: map<int, Post>, ranked: seq<int>, i: nat, j: nat)
    returns (a: nat, b: nat)
    requires i < j < |LiveIds(posts, ranked)|
    ensures a < b < |ranked| && ranked[a] == LiveIds(posts, ranked)[i] && ranked[b] == LiveIds(posts, ranked)[j]
  {
    var rest := ranked[1..];
    if !LivePost(posts, ranked[0]) {
      a, b := LiveOrder(posts, rest, i, j);
      a, b := a + 1, b + 1;
    } else if i > 0 {
      a, b := LiveOrder(posts, rest, i - 1, j - 1);
      a, b := a + 1, b + 1;
    } else {
      LiveMembers(posts, rest, LiveIds(posts, rest)[j - 1]);
      a := 0;
      b :| 0 < b < |ranked| && ranked[b] == rest[b - 1] == LiveIds(posts, rest)[j - 1];
    }
  }

  lemma {:induction false} LiveMembers(posts: map<int, Post>, ranked: seq<int>, id: int)
    ensures id in LiveIds(posts, ranked) <==> id in ranked && LivePost(posts, id)
  {
    if ranked != [] {
      LiveMembers(posts, ranked[1..], id);
      assert ranked == [ranked[0]] + ranked[1..];
    }
  }

  /** A board entry as a ranking key. */
  function KeyFor(board: map<int, int>, id: int): PageCursor
    requires id in board
  {
    PageCursor(board[id], id)
  }

  lemma RankedIds(board: map<int, int>, limit: nat, id: int)
    ensures id in Ids(HotBoard.TopN(board, limit)) <==>
            id in board && |Before(HotBoard.Entries(board), KeyFor(board, id))| < limit
  {
    var top, entries := HotBoard.TopN(board, limit), HotBoard.Entries(board);
    if i :| 0 <= i < |Ids(top)| && Ids(top)[i] == id {
      InTop(entries, limit, top[i]);
      HotBoard.EntriesOf(board, top[i]);
    }
    if id in board && |Before(entries, KeyFor(board, id))| < limit {
      var k := KeyFor(board, id);
      HotBoard.EntriesOf(board, k);
      InTop(entries, limit, k);
      var i :| 0 <= i < |top| && top[i] == k;
      assert Ids(top)[i] == id;
    }
  }

  /** The hot list of a log of increments, every bucket being readable: it shows a post iff it is live, some
      increment of it in the minutes read still counts, and fewer than `limit` posts, deleted ones included,
      have more such heat, or as much and a larger id. */
  lemma HotListShows(log: seq<HotBoard.Increment>, posts: map<int, Post>, users: map<int, User>, now: nat,
      limit: nat, id: int)
    requires forall q :: q in posts ==> posts[q].id == q
    ensures var board := HotBoard.Totals(HotBoard.Buckets(log), now, 60);
            var views := PublicViews(posts, users, Ids(HotBoard.TopN(board, limit)));
            (exists i :: 0 <= i < |views| && views[i].id == id) <==>
              && LivePost(posts, id)
              && HotBoard.HasOpen(log, log, now, MinuteOf(now) - 59, MinuteOf(now), id)
              && id in board && |Before(HotBoard.Entries(board), KeyFor(board, id))| < limit
  {
    var board := HotBoard.Totals(HotBoard.Buckets(log), now, 60);
    var ranked := Ids(HotBoard.TopN(board, limit));
    HotBoard.OnBoard(log, now, 60, id);
    RankedIds(board, limit, id);
    ShownIds(posts, users, ranked);
    LiveMembers(posts, ranked, id);
  }

  /** The order of the ranking. */
  lemma RankedOrder(log: seq<HotBoard.Increment>, now: nat, limit: nat, i: nat, j: nat)
    requires i < j < |HotBoard.TopN(HotBoard.Totals(HotBoard.Buckets(log), now, 60), limit)|
    ensures var top := HotBoard.TopN(HotBoard.Totals(HotBoard.Buckets(log), now, 60), limit);
            var heat := (id: int) => HotBoard.OpenHeat(log, log, now, MinuteOf(now) - 59, MinuteOf(now), id);
            heat(top[i].id) > heat(top[j].id) || (heat(top[i].id) == heat(top[j].id) && top[i].id > top[j].id)
  {
    var board := HotBoard.Totals(HotBoard.Buckets(log), now, 60);
    var top, entries := HotBoard.TopN(board, limit), HotBoard.Entries(board);
    DescSorts(entries);
    assert top[i] == Desc(entries)[i] && top[j] == Desc(entries)[j];
    assert top[i] in Desc(entries) && top[j] in Desc(entries);
    HotBoard.EntriesOf(board, top[i]);
    HotBoard.EntriesOf(board, top[j]);
    HotBoard.BoardScore(log, now, 60, top[i].id);
    HotBoard.BoardScore(log, now, 60, top[j].id);
  }

  /** The order of the list: of two posts shown, the one shown first has more counted heat, or as much and the
      larger id. */
  lemma HotListOrder(log: seq<HotBoard.Increment>, posts: map<int, Post>, users: map<int, User>, now: nat,
      limit: nat, i: nat, j: nat)
    requires forall q :: q in posts ==> posts[q].id == q
    requires var top := HotBoard.TopN(HotBoard.Totals(HotBoard.Buckets(log), now, 60), limit);
             i < j < |PublicViews(posts, users, Ids(top))|
    ensures var top := HotBoard.TopN(HotBoard.Totals(HotBoard.Buckets(log), now, 60), limit);
            var views := PublicViews(posts, users, Ids(top));
            var heat := (id: int) => HotBoard.OpenHeat(log, log, now, MinuteOf(now) - 59, MinuteOf(now), id);
            || heat(views[i].id) > heat(views[j].id)
            || (heat(views[i].id) == heat(views[j].id) && views[i].id > views[j].id)
  {
    var ranked := Ids(HotBoard.TopN(HotBoard.Totals(HotBoard.Buckets(log), now, 60), limit));
    ShownIds(posts, users, ranked);
    var a, b := LiveOrder(posts, ranked, i, j);
    RankedOrder(log, now, limit, a, b);
  }
}
