/** The list endpoints: the five keyset lists as queries, and the batched assembly of their rows into
    views (internal/service/feed_service.go, post_service.go:278-333, profile_service.go:91-121,
    internal/repository/interaction_repo.go:152-169). */
module Feed {
  import opened Model
  import opened Cursor
  import opened Keyset
  import opened PostCache

  // ---------- The five lists ----------

  /** Tables keep milliseconds, cursors nanoseconds. */
  function Nanos(ms: int): int {
    ms * 1_000_000
  }

  function KeyOf(p: Post): PageCursor {
    PageCursor(Nanos(p.createdAt), p.id)
  }

  function FeedKeys(posts: map<int, Post>): set<PageCursor> {
    set id | id in posts && !posts[id].deleted :: KeyOf(posts[id])
  }

  function FollowingKeys(posts: map<int, Post>, authors: set<int>): set<PageCursor> {
    set id | id in posts && !posts[id].deleted && posts[id].userID in authors :: KeyOf(posts[id])
  }

  function OwnKeys(posts: map<int, Post>, uid: int): set<PageCursor> {
    set id | id in posts && !posts[id].deleted && posts[id].userID == uid :: KeyOf(posts[id])
  }

  function CommentKeys(comments: map<int, CommentRow>, postID: int): set<PageCursor> {
    set id | id in comments && comments[id].postID == postID :: PageCursor(Nanos(comments[id].createdAt), id)
  }

  /** Rows are (follower, followee) with their creation time; the key's id is the other user's. */
  function FollowingUserKeys(follows: map<(int, int), int>, uid: int): set<PageCursor> {
    set f | f in follows && f.0 == uid :: PageCursor(Nanos(follows[f]), f.1)
  }

  function FollowerKeys(follows: map<(int, int), int>, uid: int): set<PageCursor> {
    set f | f in follows && f.1 == uid :: PageCursor(Nanos(follows[f]), f.0)
  }

  /** The following feed, page by page, is the global feed with the other authors' posts left out. */
  lemma FollowingFeedIsFilteredFeed(
      posts: map<int, Post>, authors: set<int>, before: Option<PageCursor>,
      tables: seq<set<PageCursor>>, limits: seq<int>)
    requires |limits| == |tables| && ReachesEnd(tables, limits, before)
    requires forall i :: 0 <= i < Requests(tables, limits, before) ==> tables[i] == FollowingKeys(posts, authors)
    ensures Walk(tables, limits, before) ==
            Keep(Desc(Past(FeedKeys(posts), before)), FollowingKeys(posts, authors))
  {
    var kept := FollowingKeys(posts, authors);
    FixedTableWalk(tables, limits, before, kept);
    FilterDesc(Past(FeedKeys(posts), before), Past(kept, before));
    DescSorts(Past(FeedKeys(posts), before));
    KeepSame(Desc(Past(FeedKeys(posts), before)), Past(kept, before), kept);
  }

  lemma {:induction false} KeepSame(s: seq<PageCursor>, a: set<PageCursor>, b: set<PageCursor>)
    requires forall k :: k in s ==> (k in a <==> k in b)
    ensures Keep(s, a) == Keep(s, b)
  {
    if s != [] {
      KeepSame(s[1..], a, b);
    }
  }

  /** A profile is the following feed of one author. */
  lemma OwnIsFollowingOne(posts: map<int, Post>, uid: int)
    ensures OwnKeys(posts, uid) == FollowingKeys(posts, {uid})
  {
  }

  /** Each list has one key per matching row, so a walk that lists every key once lists every row once. */
  lemma OneKeyPerRow(posts: map<int, Post>, follows: map<(int, int), int>, uid: int)
    requires forall id :: id in posts ==> posts[id].id == id
    ensures forall k :: k in FeedKeys(posts) <==> 
              k.id in posts && !posts[k.id].deleted && k.time == posts[k.id].createdAt * 1_000_000
    ensures forall k :: k in FollowingUserKeys(follows, uid) <==>
              (uid, k.id) in follows && k.time == follows[(uid, k.id)] * 1_000_000
    ensures forall k :: k in FollowerKeys(follows, uid) <==>
              (k.id, uid) in follows && k.time == follows[(k.id, uid)] * 1_000_000
  {
  }

  lemma OneKeyPerAuthoredRow(posts: map<int, Post>, authors: set<int>, comments: map<int, CommentRow>, postID: int)
    requires forall id :: id in posts ==> posts[id].id == id
    ensures forall k :: k in FollowingKeys(posts, authors) <==>
              k.id in posts && !posts[k.id].deleted && posts[k.id].userID in authors
              && k.time == posts[k.id].createdAt * 1_000_000
    ensures forall k :: k in CommentKeys(comments, postID) <==>
              k.id in comments && comments[k.id].postID == postID
              && k.time == comments[k.id].createdAt * 1_000_000
  {
  }

  // ---------- One row, looked up by itself ----------

  /** The tables a view is built from; `likesAnswer` says whether the likes query succeeds. */
  datatype Source = Source(users: map<int, User>, likes: set<LikeRow>, likesAnswer: bool)

  function LikedBy(src: Source, viewer: int, id: int): bool {
    viewer > 0 && src.likesAnswer && LikeRow(id, viewer) in src.likes
  }

  /** The view of one post, with its own author and liked lookups. */
  function ViewFor(src: Source, viewer: int, p: Post): PostView {
    NewPostView(p, Lookup(src.users, p.userID), LikedBy(src, viewer, p.id))
  }

  function ViewsFor(src: Source, viewer: int, ps: seq<Post>): seq<PostView> {
    seq(|ps|, i requires 0 <= i < |ps| => ViewFor(src, viewer, ps[i]))
  }

  datatype PageOf<V> = PageOf(items: seq<V>, next: seq<Byte>, hasMore: bool)

  type FeedPage = PageOf<PostView>

  /** A page as it would come out of looking every row up separately: `view` shows one row, `key` is its
      place in the list. */
  function PageFor<R, V>(rows: seq<R>, limit: nat, view: R -> V, key: R -> PageCursor): PageOf<V>
    requires limit > 0
  {
    var n := if |rows| > limit then limit else |rows|;
    PageOf(seq(n, i requires 0 <= i < n => view(rows[i])),
           if |rows| > limit then EncodeCursor(key(rows[limit - 1]).time, key(rows[limit - 1]).id) else [],
           |rows| > limit)
  }

  /** The page of posts, one lookup after the other. */
  function PostPage(src: Source, viewer: int, ps: seq<Post>, limit: nat): FeedPage
    requires limit > 0
  {
    PageFor(ps, limit, p => ViewFor(src, viewer, p), KeyOf)
  }

  datatype CommentView = CommentView(id: int, postID: int, author: AuthorView, content: string, createdAt: int)

  function CommentViewFor(users: map<int, User>, c: CommentRow): CommentView {
    CommentView(c.id, c.postID, NewAuthorView(c.userID, Lookup(users, c.userID)), c.content, c.createdAt)
  }

  /** The view shows this comment, field by field. */
  ghost predicate ShowsComment(v: CommentView, c: CommentRow, users: map<int, User>) {
    && v.id == c.id && v.postID == c.postID && v.content == c.content && v.createdAt == c.createdAt
    && ShowsAuthor(v.author, c.userID, users)
  }

  function CommentPage(users: map<int, User>, cs: seq<CommentRow>, limit: nat): PageOf<CommentView>
    requires limit > 0
  {
    PageFor(cs, limit, c => CommentViewFor(users, c), (c: CommentRow) => PageCursor(Nanos(c.createdAt), c.id))
  }

  datatype FollowRow = FollowRow(follower: int, followee: int, createdAt: int)

  /** Unlike an author, a missing user shows as empty strings. */
  datatype FollowUserView = FollowUserView(id: int, nickname: string, avatarURL: string, followedAt: int)

  function Other(f: FollowRow, following: bool): int {
    if following then f.followee else f.follower
  }

  function FollowViewFor(users: map<int, User>, f: FollowRow, following: bool): FollowUserView {
    var other := Other(f, following);
    match Lookup(users, other)
    case Some(u) => FollowUserView(other, u.nickname, u.avatarURL, f.createdAt)
    case None => FollowUserView(other, "", "", f.createdAt)
  }

  /** The view shows the other end of this follow, with empty texts if that user is gone. */
  ghost predicate ShowsFollow(v: FollowUserView, f: FollowRow, users: map<int, User>, following: bool) {
    && v.id == (if following then f.followee else f.follower) && v.followedAt == f.createdAt
    && v.nickname == (if v.id in users then users[v.id].nickname else "")
    && v.avatarURL == (if v.id in users then users[v.id].avatarURL else "")
  }

  function SocialPage(users: map<int, User>, fs: seq<FollowRow>, limit: nat, following: bool): PageOf<FollowUserView>
    requires limit > 0
  {
    PageFor(fs, limit, f => FollowViewFor(users, f, following),
            (f: FollowRow) => PageCursor(Nanos(f.createdAt), Other(f, following)))
  }

  // ---------- Batched lookups ----------

  /** users.GetByIDs: one IN query. */
  function GetByIDs(users: map<int, User>, ids: seq<int>): map<int, User> {
    map id | id in ids && id in users :: users[id]
  }

  /** LikedPostIDs: one IN query, its rows turned into a map. */
  method LikedPostIDs(src: Source, uid: int, ids: seq<int>) returns (r: Result<map<int, bool>>)
    ensures r.Ok? <==> uid <= 0 || ids == [] || src.likesAnswer
    ensures r.Ok? ==> forall id :: (id in r.value && r.value[id]) <==>
              uid > 0 && id in ids && LikeRow(id, uid) in src.likes
  {
    if uid <= 0 || ids == [] {
      return Ok(map[]);
    }
    if !src.likesAnswer {
      return Err(Storage);
    }
    var rows := set l | l in src.likes && l.userID == uid && l.postID in ids;
    var out: map<int, bool> := map[];
    var left := rows;
    while left != {}
      invariant left <= rows
      invariant forall id :: (id in out && out[id]) <==> LikeRow(id, uid) in rows - left
      decreases |left|
    {
      var l :| l in left;
      assert l == LikeRow(l.postID, uid);
      out := out[l.postID := true];
      left := left - {l};
    }
    r := Ok(out);
  }

  /** The distinct users of a page, in order of first appearance. */
  method Distinct(uids: seq<int>) returns (ids: seq<int>)
    ensures forall id :: id in ids <==> id in uids
    ensures forall i, j :: 0 <= i < j < |ids| ==> ids[i] != ids[j]
  {
    var seen: set<int> := {};
    ids := [];
    var i := 0;
    while i < |uids|
      invariant 0 <= i <= |uids|
      invariant forall id :: id in seen <==> id in uids[..i]
      invariant forall id :: id in seen <==> id in ids
      invariant forall a, b :: 0 <= a < b < |ids| ==> ids[a] != ids[b]
    {
      if uids[i] !in seen {
        seen := seen + {uids[i]};
        ids := ids + [uids[i]];
      }
      assert uids[..i + 1] == uids[..i] + [uids[i]];
      i := i + 1;
    }
    assert uids[..|uids|] == uids;
  }

  /** The users behind a page, in one query. */
  method UsersOf(users: map<int, User>, uids: seq<int>) returns (found: map<int, User>)
    ensures forall uid :: uid in uids ==> Lookup(found, uid) == Lookup(users, uid)
  {
    var ids := Distinct(uids);
    found := GetByIDs(users, ids);
  }

  /** Views with the viewer's liked flags, or as they were if the likes query fails or nobody is logged in. */
  function WithLiked(src: Source, viewer: int, views: seq<PostView>): (r: seq<PostView>)
    ensures |r| == |views|
  {
    seq(|views|, i requires 0 <= i < |views| =>
      if viewer > 0 && src.likesAnswer then views[i].(liked := LikedBy(src, viewer, views[i].id)) else views[i])
  }

  /** fillLiked: writes the flags into the slice it is given. */
  method FillLiked(src: Source, viewer: int, items: array<PostView>)
    modifies items
    ensures forall i :: 0 <= i < items.Length ==>
              var v := old(items[i]);
              items[i] == if viewer > 0 && src.likesAnswer then v.(liked := LikeRow(v.id, viewer) in src.likes) else v
    ensures items[..] == WithLiked(src, viewer, old(items[..]))
  {
    if viewer <= 0 || items.Length == 0 {
      return;
    }
    var ids := [];
    for n := 0 to items.Length
      invariant |ids| == n
      invariant forall i :: 0 <= i < n ==> ids[i] == items[i].id
    {
      ids := ids + [items[n].id];
    }
    var r := LikedPostIDs(src, viewer, ids);
    if r.Ok? {
      for i := 0 to items.Length
        invariant forall j :: 0 <= j < i ==> items[j] == old(items[j]).(liked := LikedBy(src, viewer, old(items[j]).id))
        invariant forall j :: i <= j < items.Length ==> items[j] == old(items[j])
      {
        assert ids[i] == old(items[i]).id;
        items[i] := items[i].(liked := items[i].id in r.value && r.value[items[i].id]);
      }
    }
  }

  /** A slice holding these views. */
  method SliceOf(views: seq<PostView>) returns (items: array<PostView>)
    ensures fresh(items) && items[..] == views
  {
    items := new PostView[|views|](i requires 0 <= i < |views| => views[i]);
  }

  /** The assembly shared by Search and buildPage: batch the authors, build the views, batch the likes. */
  method Assemble(src: Source, viewer: int, ps: seq<Post>) returns (items: seq<PostView>)
    ensures items == ViewsFor(src, viewer, ps)
    ensures |items| == |ps|
    ensures forall i :: 0 <= i < |ps| ==> ShowsPost(items[i], ps[i], src.users,
                viewer > 0 && src.likesAnswer && LikeRow(ps[i].id, viewer) in src.likes)
  {
    var authorIDs := seq(|ps|, i requires 0 <= i < |ps| => ps[i].userID);
    var authors := UsersOf(src.users, authorIDs);
    var views := [];
    for i := 0 to |ps|
      invariant |views| == i
      invariant forall j :: 0 <= j < i ==> views[j] == NewPostView(ps[j], Lookup(src.users, ps[j].userID), false)
    {
      assert authorIDs[i] == ps[i].userID;
      views := views + [NewPostView(ps[i], Lookup(authors, ps[i].userID), false)];
    }
    var slice := SliceOf(views);
    FillLiked(src, viewer, slice);
    items := slice[..];
  }

  /** FeedService.buildPage. */
  method BuildPage(src: Source, viewer: int, ps: seq<Post>, limit: nat) returns (page: FeedPage)
    requires limit > 0
    ensures page == PostPage(src, viewer, ps, limit)
    ensures page.hasMore <==> |ps| > limit
    ensures |page.items| == if |ps| > limit then limit else |ps|
    ensures forall i :: 0 <= i < |page.items| ==> ShowsPost(page.items[i], ps[i], src.users,
                viewer > 0 && src.likesAnswer && LikeRow(ps[i].id, viewer) in src.likes)
    ensures page.next == if |ps| <= limit then []
                         else EncodeCursor(ps[limit - 1].createdAt * 1_000_000, ps[limit - 1].id)
  {
    var hasMore := |ps| > limit;
    var shown := if hasMore then ps[..limit] else ps;
    var items := Assemble(src, viewer, shown);
    page := PageOf(items, [], hasMore);
    if hasMore && |shown| > 0 {
      var last := shown[|shown| - 1];
      page := page.(next := EncodeCursor(Nanos(last.createdAt), last.id));
    }
    assert page.items == PostPage(src, viewer, ps, limit).items;
  }

  /** The views of one author's posts, with the viewer's likes; no author query is needed. */
  method OwnViews(src: Source, viewer: int, u: User, ps: seq<Post>) returns (items: seq<PostView>)
    requires forall i :: 0 <= i < |ps| ==> ps[i].userID == u.id
    ensures |items| == |ps|
    ensures u.id in src.users && src.users[u.id] == u ==> items == ViewsFor(src, viewer, ps)
  {
    var author := AuthorView(u.id, u.nickname, u.avatarURL);
    var views := [];
    for i := 0 to |ps|
      invariant |views| == i
      invariant forall j :: 0 <= j < i ==> views[j] == NewPostView(ps[j], Some(u), false)
    {
      views := views + [NewPostView(ps[i], Some(u), false).(author := author)];
    }
    var slice := SliceOf(views);
    FillLiked(src, viewer, slice);
    items := slice[..];
    assert u.id in src.users && src.users[u.id] == u ==>
        forall j :: 0 <= j < |ps| ==> items[j] == ViewFor(src, viewer, ps[j]);
  }

  /** ProfileService.buildOwnPostsPage. */
  method BuildOwnPostsPage(src: Source, viewer: int, u: User, ps: seq<Post>, limit: nat) returns (page: FeedPage)
    requires limit > 0
    requires forall i :: 0 <= i < |ps| ==> ps[i].userID == u.id
    ensures u.id in src.users && src.users[u.id] == u ==> page == PostPage(src, viewer, ps, limit)
    ensures page.hasMore <==> |ps| > limit
    ensures |page.items| == if |ps| > limit then limit else |ps|
    ensures u.id in src.users && src.users[u.id] == u ==>
              forall i :: 0 <= i < |page.items| ==> ShowsPost(page.items[i], ps[i], src.users,
                viewer > 0 && src.likesAnswer && LikeRow(ps[i].id, viewer) in src.likes)
  {
    var hasMore := |ps| > limit;
    var shown := if hasMore then ps[..limit] else ps;
    var items := OwnViews(src, viewer, u, shown);
    page := PageOf(items, [], hasMore);
    if hasMore && |shown| > 0 {
      var last := shown[|shown| - 1];
      page := page.(next := EncodeCursor(Nanos(last.createdAt), last.id));
    }
    assert u.id in src.users && src.users[u.id] == u ==> page.items == PostPage(src, viewer, ps, limit).items;
  }

  /** The views of comments, their authors looked up together. */
  method CommentViews(users: map<int, User>, cs: seq<CommentRow>) returns (items: seq<CommentView>)
    ensures |items| == |cs| && forall i :: 0 <= i < |cs| ==> items[i] == CommentViewFor(users, cs[i])
    ensures forall i :: 0 <= i < |cs| ==> ShowsComment(items[i], cs[i], users)
  {
    var authorIDs := seq(|cs|, i requires 0 <= i < |cs| => cs[i].userID);
    var authors := UsersOf(users, authorIDs);
    items := [];
    for i := 0 to |cs|
      invariant |items| == i
      invariant forall j :: 0 <= j < i ==> items[j] == CommentViewFor(users, cs[j])
    {
      assert authorIDs[i] == cs[i].userID;
      items := items + [CommentViewFor(authors, cs[i])];
      SameAuthor(users, authors, cs[i]);
    }
  }

  lemma SameAuthor(users: map<int, User>, found: map<int, User>, c: CommentRow)
    requires Lookup(found, c.userID) == Lookup(users, c.userID)
    ensures CommentViewFor(found, c) == CommentViewFor(users, c)
  {
  }

  /** The assembly in InteractionService.ListComments. */
  method BuildCommentPage(users: map<int, User>, cs: seq<CommentRow>, limit: nat) returns (page: PageOf<CommentView>)
    requires limit > 0
    ensures page == CommentPage(users, cs, limit)
    ensures page.hasMore <==> |cs| > limit
    ensures |page.items| == if |cs| > limit then limit else |cs|
    ensures forall i :: 0 <= i < |page.items| ==> ShowsComment(page.items[i], cs[i], users)
    ensures page.next == if |cs| <= limit then []
                         else EncodeCursor(cs[limit - 1].createdAt * 1_000_000, cs[limit - 1].id)
  {
    var hasMore := |cs| > limit;
    var shown := if hasMore then cs[..limit] else cs;
    var items := CommentViews(users, shown);
    page := PageOf(items, [], hasMore);
    if hasMore && |shown| > 0 {
      var last := shown[|shown| - 1];
      page := page.(next := EncodeCursor(Nanos(last.createdAt), last.id));
    }
    assert page.items == CommentPage(users, cs, limit).items;
  }

  /** The people behind follow rows, looked up together. */
  method SocialViews(users: map<int, User>, fs: seq<FollowRow>, following: bool) returns (items: seq<FollowUserView>)
    ensures |items| == |fs| && forall i :: 0 <= i < |fs| ==> items[i] == FollowViewFor(users, fs[i], following)
  {
    var others := seq(|fs|, i requires 0 <= i < |fs| => if following then fs[i].followee else fs[i].follower);
    var found := UsersOf(users, others);
    items := [];
    for i := 0 to |fs|
      invariant |items| == i
      invariant forall j :: 0 <= j < i ==> items[j] == FollowViewFor(users, fs[j], following)
    {
      var other := if following then fs[i].followee else fs[i].follower;
      assert others[i] == other;
      var v := FollowUserView(other, "", "", fs[i].createdAt);
      if other in found {
        v := v.(nickname := found[other].nickname, avatarURL := found[other].avatarURL);
      }
      assert Lookup(found, other) == Lookup(users, other);
      items := items + [v];
    }
  }

  /** The assembly in SocialService.list; the cursor carries the other user's id. */
  method BuildSocialPage(users: map<int, User>, fs: seq<FollowRow>, limit: nat, following: bool)
    returns (page: PageOf<FollowUserView>)
    requires limit > 0
    ensures page == SocialPage(users, fs, limit, following)
    ensures page.hasMore <==> |fs| > limit
    ensures |page.items| == if |fs| > limit then limit else |fs|
    ensures forall i :: 0 <= i < |page.items| ==> ShowsFollow(page.items[i], fs[i], users, following)
    ensures |fs| <= limit ==> page.next == []
    ensures |fs| > limit ==>
              var last := fs[limit - 1];
              page.next == EncodeCursor(last.createdAt * 1_000_000, if following then last.followee else last.follower)
  {
    var hasMore := |fs| > limit;
    var shown := if hasMore then fs[..limit] else fs;
    var items := SocialViews(users, shown, following);
    page := PageOf(items, [], hasMore);
    if hasMore && |shown| > 0 {
      var last := shown[|shown| - 1];
      page := page.(next := EncodeCursor(Nanos(last.createdAt), if following then last.followee else last.follower));
    }
    assert page.items == SocialPage(users, fs, limit, following).items;
    SocialPageShows(users, fs, limit, following);
  }

  lemma SocialPageShows(users: map<int, User>, fs: seq<FollowRow>, limit: nat, following: bool)
    requires limit > 0
    ensures var page := SocialPage(users, fs, limit, following);
            && (page.hasMore <==> |fs| > limit)
            && |page.items| == (if |fs| > limit then limit else |fs|)
            && (forall i :: 0 <= i < |page.items| ==> ShowsFollow(page.items[i], fs[i], users, following))
            && (|fs| <= limit ==> page.next == [])
            && (|fs| > limit ==>
                  var last := fs[limit - 1];
                  var id := if following then last.followee else last.follower;
                  page.next == EncodeCursor(last.createdAt * 1_000_000, id))
  {
  }

  // ---------- A whole list endpoint ----------

  /** These rows, in this order, are what the list query answers. */
  ghost predicate Answers<R(!new)>(rows: seq<R>, key: R -> PageCursor, query: seq<PageCursor>) {
    |rows| == |query| && forall i :: 0 <= i < |rows| ==> key(rows[i]) == query[i]
  }

  /** What a list endpoint sends for the rows of one page is the views of those rows, with the cursor and
      the flag Keyset gives for that page. */
  lemma EndpointMatchesPage<R(!new), V>(
      keys: set<PageCursor>, before: Option<PageCursor>, limit: int, rows: seq<R>, view: R -> V, key: R -> PageCursor)
    requires Answers(rows, key, Query(keys, before, Clamp(limit) + 1))
    ensures var sent, page := SendPage(GetPage(keys, before, limit)), PageFor(rows, Clamp(limit), view, key);
            && page.next == sent.next && page.hasMore == sent.hasMore
            && |page.items| == |sent.items| <= |rows|
            && forall i :: 0 <= i < |sent.items| ==> key(rows[i]) == sent.items[i] && page.items[i] == view(rows[i])
  {
  }

  const MAX_FOLLOWING := 5000

  /** ListFollowingFeed: no one followed is an empty page, too many is refused, and both are decided
      before the cursor is looked at. */
  function FollowingPage(posts: map<int, Post>, authors: set<int>, cursor: seq<Byte>, limit: int): Result<Sent> {
    if |authors| == 0 then Ok(Sent([], [], false))
    else if |authors| > MAX_FOLLOWING then Err(BadRequest(40040))
    else ListPage(FollowingKeys(posts, authors), cursor, limit)
  }

  /** The following feed, in full: refused beyond five thousand authors, empty without any, and otherwise the
      newest of their posts after the cursor's position. */
  lemma FollowingAnswers(posts: map<int, Post>, authors: set<int>, cursor: seq<Byte>, limit: int)
    requires Int64Keys(FollowingKeys(posts, authors))
    ensures match FollowingPage(posts, authors, cursor, limit)
            case Err(e) =>
              authors != {} && if |authors| > 5000 then e == BadRequest(40040)
                               else cursor != [] && DecodeCursor(cursor) == Err(e) && e == BadRequest(40005)
            case Ok(s) =>
              && |authors| <= 5000
              && if authors == {} then s == Sent([], [], false)
                 else if cursor == [] then Shows(s, FollowingKeys(posts, authors), limit)
                 else && DecodeCursor(cursor).Ok?
                      && Shows(s, After(FollowingKeys(posts, authors), Some(DecodeCursor(cursor).value)), limit)
  {
    ListAnswers(FollowingKeys(posts, authors), cursor, limit);
  }

  /** It answers as the plain list of the followed authors' posts does, exactly when at most 5000 are
      followed and it is not the one case where a bad cursor goes unnoticed. */
  lemma FollowingPageIsList(posts: map<int, Post>, authors: set<int>, cursor: seq<Byte>, limit: int)
    ensures FollowingPage(posts, authors, cursor, limit) == ListPage(FollowingKeys(posts, authors), cursor, limit) <==>
            |authors| <= 5000 && !(authors == {} && cursor != [] && DecodeCursor(cursor).Err?)
  {
  }

  // ---------- The hot list ----------

  /** The public hot list: the live posts among the ranked ids, in rank order, nobody's likes in it. */
  function PublicViews(posts: map<int, Post>, users: map<int, User>, ranked: seq<int>): seq<PostView> {
    if ranked == [] then []
    else
      var id := ranked[0];
      (if id in posts && !posts[id].deleted
       then [NewPostView(posts[id], Lookup(users, posts[id].userID), false)] else [])
      + PublicViews(posts, users, ranked[1..])
  }

  function ForViewer(src: Source, viewer: int, views: seq<PostView>): seq<PostView> {
    seq(|views|, i requires 0 <= i < |views| => views[i].(liked := LikedBy(src, viewer, views[i].id)))
  }

  lemma {:induction false} PublicViewsAppend(posts: map<int, Post>, users: map<int, User>, a: seq<int>, id: int)
    ensures PublicViews(posts, users, a + [id]) == PublicViews(posts, users, a) + PublicViews(posts, users, [id])
  {
    if a == [] {
      assert a + [id] == [id];
    } else {
      assert (a + [id])[1..] == a[1..] + [id];
      PublicViewsAppend(posts, users, a[1..], id);
    }
  }

  lemma {:induction false} PublicViewsUnliked(posts: map<int, Post>, users: map<int, User>, ranked: seq<int>)
    ensures forall i :: 0 <= i < |PublicViews(posts, users, ranked)| ==> !PublicViews(posts, users, ranked)[i].liked
  {
    if ranked != [] {
      PublicViewsUnliked(posts, users, ranked[1..]);
    }
  }

  /** Filling the flags of a list without any gives every viewer his own, even if the query fails. */
  lemma FlagsOnUnliked(src: Source, viewer: int, views: seq<PostView>)
    requires forall i :: 0 <= i < |views| ==> !views[i].liked
    ensures WithLiked(src, viewer, views) == ForViewer(src, viewer, views)
  {
  }

  datatype HotEntry = HotEntry(views: seq<PostView>, dies: int)

  class HotList {
    var now: int
    var results: map<int, HotEntry>   // one cached result per limit, kept one minute

    /** No stored list carries anybody's liked flags. */
    predicate NobodysLikes()
      reads this
    {
      forall n :: n in results ==> forall i :: 0 <= i < |results[n].views| ==> !results[n].views[i].liked
    }

    constructor ()
      ensures results == map[]
    {
      now, results := 0, map[];
    }

    /** loadHot, given HotTopN's ids. */
    method LoadHot(src: Source, posts: map<int, Post>, ranked: seq<int>, viewer: int) returns (items: array<PostView>)
      ensures fresh(items) && items[..] == ForViewer(src, viewer, PublicViews(posts, src.users, ranked))
      ensures forall i :: 0 <= i < items.Length ==>
                (items[i].liked <==> viewer > 0 && src.likesAnswer && LikeRow(items[i].id, viewer) in src.likes)
    {
      var views := [];
      for i := 0 to |ranked|
        invariant views == PublicViews(posts, src.users, ranked[..i])
      {
        PublicViewsAppend(posts, src.users, ranked[..i], ranked[i]);
        assert ranked[..i + 1] == ranked[..i] + [ranked[i]];
        var id := ranked[i];
        if id in posts && !posts[id].deleted {
          views := views + [NewPostView(posts[id], Lookup(src.users, posts[id].userID), false)];
        }
      }
      assert ranked[..|ranked|] == ranked;
      items := SliceOf(views);
      FillLiked(src, viewer, items);
      PublicViewsUnliked(posts, src.users, ranked);
      FlagsOnUnliked(src, viewer, PublicViews(posts, src.users, ranked));
    }

    /** ListHot: answer from the cache with the viewer's own likes, or load, store a copy without the likes,
        and answer with the slice that still has them. */
    method List(src: Source, posts: map<int, Post>, ranked: seq<int>, viewer: int, limit: int,
                readOk: bool, setOk: bool)
      returns (items: array<PostView>)
      requires NobodysLikes()
      modifies this`results
      ensures fresh(items)
      ensures var n := Clamp(limit);
              var hit := readOk && n in old(results) && now < old(results)[n].dies;
              var public := if hit then old(results)[n].views else PublicViews(posts, src.users, ranked);
              && items[..] == ForViewer(src, viewer, public)
              && results == if hit || !setOk then old(results) else old(results)[n := HotEntry(public, now + 60_000)]
      ensures forall i :: 0 <= i < items.Length ==>
                (items[i].liked <==> viewer > 0 && src.likesAnswer && LikeRow(items[i].id, viewer) in src.likes)
      ensures NobodysLikes()
    {
      var n := Clamp(limit);
      if readOk && n in results && now < results[n].dies {
        items := SliceOf(results[n].views);
        FillLiked(src, viewer, items);
        FlagsOnUnliked(src, viewer, results[n].views);
        return;
      }
      items := LoadHot(src, posts, ranked, viewer);
      var public := new PostView[items.Length](i requires 0 <= i < items.Length reads items => items[i]);
      for i := 0 to public.Length
        invariant forall j :: 0 <= j < i ==> public[j] == items[j].(liked := false)
        invariant forall j :: i <= j < public.Length ==> public[j] == items[j]
        invariant items[..] == ForViewer(src, viewer, PublicViews(posts, src.users, ranked)) && results == old(results)
      {
        public[i] := public[i].(liked := false);
      }
      PublicViewsUnliked(posts, src.users, ranked);
      var stored := public[..];
      assert stored == PublicViews(posts, src.users, ranked);
      if setOk {
        results := results[n := HotEntry(stored, now + 60_000)];
      }
    }
  }
}
