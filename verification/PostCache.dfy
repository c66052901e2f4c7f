/** Post detail reads: cache-aside with empty entries, the bloom gate, and the writers that delete the
    key (internal/service/post_service.go, interaction_service.go, internal/worker/worker.go).  Calls do
    not overlap here; CacheRace interleaves them. */
module PostCache {
  import opened Model
  import Bloom

  datatype User = User(id: int, nickname: string, avatarURL: string)

  datatype AuthorView = AuthorView(id: int, nickname: string, avatarURL: string)

  datatype PostView = PostView(
    id: int, userID: int, author: AuthorView, content: string,
    likeCount: int, commentCount: int, liked: bool, createdAt: int)

  const GONE_USER := "已注销用户"

  function NewAuthorView(uid: int, u: Option<User>): AuthorView {
    match u
    case Some(u) => AuthorView(u.id, u.nickname, u.avatarURL)
    case None => AuthorView(uid, GONE_USER, "")
  }

  function NewPostView(p: Post, u: Option<User>, liked: bool): PostView {
    PostView(p.id, p.userID, NewAuthorView(p.userID, u), p.content, p.likeCount, p.commentCount, liked, p.createdAt)
  }

  /** The author as shown: the row, or a placeholder if there is none. */
  ghost predicate ShowsAuthor(a: AuthorView, uid: int, users: map<int, User>) {
    if uid in users then a == AuthorView(users[uid].id, users[uid].nickname, users[uid].avatarURL)
    else a == AuthorView(uid, "已注销用户", "")
  }

  /** The view shows this row, field by field. */
  ghost predicate ShowsPost(v: PostView, p: Post, users: map<int, User>, liked: bool) {
    && v.id == p.id && v.userID == p.userID && v.content == p.content && v.createdAt == p.createdAt
    && v.likeCount == p.likeCount && v.commentCount == p.commentCount && v.liked == liked
    && ShowsAuthor(v.author, p.userID, users)
  }

  /** A cached envelope: value None is "found = false".  `setAt` is a history field. */
  datatype Entry<+V> = Entry(value: Option<V>, setAt: int, dies: int)

  /** `cached` and `filtered` say whether the service has a cache and a bloom filter at all.  `added`,
      `m` and `k` are the filter.  `missed` is a history variable: for each post, when a write to its
      row last failed to delete the cached entry, if no later Del succeeded. */
  datatype World = World(
    now: int, posts: map<int, Post>, likes: set<LikeRow>, users: map<int, User>, nextPost: int,
    cached: bool, postCache: map<int, Entry<Post>>, userCache: map<int, Entry<User>>,
    filtered: bool, added: seq<seq<Byte>>, m: nat, k: nat,
    missed: map<int, int>)

  // ---------- Reads ----------

  predicate Live(w: World, id: int) {
    id in w.posts && !w.posts[id].deleted
  }

  function Lookup(users: map<int, User>, uid: int): Option<User> {
    if uid in users then Some(users[uid]) else None
  }

  function Liked(w: World, viewer: int, id: int): bool {
    viewer > 0 && LikeRow(id, viewer) in w.likes
  }

  /** What the service is meant to answer: the live row with its author, read from the tables. */
  function Direct(w: World, viewer: int, id: int): Result<PostView> {
    if Live(w, id) then Ok(NewPostView(w.posts[id], Lookup(w.users, w.posts[id].userID), Liked(w, viewer, id)))
    else Err(NotFound)
  }

  /** The last n bytes of u, most significant first. */
  function BigEndian(u: nat, n: nat): seq<Byte> {
    if n == 0 then [] else BigEndian(u / 256, n - 1) + [u % 256]
  }

  /** The eight bytes of uint64(id). */
  function IdBytes(id: int): seq<Byte> {
    BigEndian(id % TWO64, 8)
  }

  function FromBigEndian(bs: seq<Byte>): nat {
    if bs == [] then 0 else 256 * FromBigEndian(bs[..|bs| - 1]) + bs[|bs| - 1]
  }

  function Pow256(n: nat): (r: nat)
    ensures r > 0
  {
    if n == 0 then 1 else 256 * Pow256(n - 1)
  }

  lemma {:induction false} BytesRoundTrip(u: nat, n: nat)
    requires u < Pow256(n)
    ensures |BigEndian(u, n)| == n && FromBigEndian(BigEndian(u, n)) == u
  {
    if n != 0 {
      BytesRoundTrip(u / 256, n - 1);
      assert BigEndian(u, n)[..n - 1] == BigEndian(u / 256, n - 1);
    }
  }

  lemma EightBytes()
    ensures Pow256(8) == TWO64
  {
  }

  lemma SameRemainder(a: int, b: int)
    requires InInt64(a) && InInt64(b) && a % TWO64 == b % TWO64
    ensures a == b
  {
  }

  /** They are its eight base-256 digits, most significant first. */
  lemma IdBytesValue(id: int)
    ensures var b := IdBytes(id);
            && |b| == 8
            && b[0] as int * 0x100_0000_0000_0000 + b[1] as int * 0x1_0000_0000_0000 + b[2] as int * 0x100_0000_0000
               + b[3] as int * 0x1_0000_0000 + b[4] as int * 0x100_0000 + b[5] as int * 0x1_0000
               + b[6] as int * 0x100 + b[7] as int == id % TWO64
  {
    EightBytes();
    BytesRoundTrip(id % TWO64, 8);
    var b := IdBytes(id);
    assert b[..7][..6] == b[..6] && b[..6][..5] == b[..5] && b[..5][..4] == b[..4];
    assert b[..4][..3] == b[..3] && b[..3][..2] == b[..2] && b[..2][..1] == b[..1] && b[..1][..0] == [];
    assert FromBigEndian(b[..1]) == b[0];
    assert FromBigEndian(b[..3]) == 256 * FromBigEndian(b[..2]) + b[2];
    assert FromBigEndian(b[..5]) == 256 * FromBigEndian(b[..4]) + b[4];
    assert FromBigEndian(b[..7]) == 256 * FromBigEndian(b[..6]) + b[6];
  }

  /** Different posts have different filter keys, negative ids included. */
  lemma IdBytesDistinct(a: int, b: int)
    requires InInt64(a) && InInt64(b) && IdBytes(a) == IdBytes(b)
    ensures a == b
  {
    EightBytes();
    BytesRoundTrip(a % TWO64, 8);
    BytesRoundTrip(b % TWO64, 8);
    SameRemainder(a, b);
  }

  predicate RuledOut(w: World, id: int) {
    w.filtered && w.m > 0 && !Bloom.Passes(w.added, IdBytes(id), w.m, w.k)
  }

  /** Which cache commands succeed during one Get. */
  datatype Faults = Faults(readPost: bool, setPost: bool, readUser: bool, setUser: bool)

  function Envelope<V>(value: Option<V>, now: int): Entry<V> {
    Entry(value, now, now + if value.Some? then POST_TTL else NIL_TTL)
  }

  function SetPost(w: World, id: int, value: Option<Post>, ok: bool): World {
    if w.cached && ok then w.(postCache := w.postCache[id := Envelope(value, w.now)]) else w
  }

  function SetUser(w: World, uid: int, value: Option<User>, ok: bool): World {
    if w.cached && ok then w.(userCache := w.userCache[uid := Envelope(value, w.now)]) else w
  }

  predicate PostHit(w: World, id: int, ok: bool) {
    w.cached && ok && id in w.postCache && w.now < w.postCache[id].dies
  }

  predicate UserHit(w: World, uid: int, ok: bool) {
    w.cached && ok && uid in w.userCache && w.now < w.userCache[uid].dies
  }

  /** getUserCached: a cached absence is an error, a fresh one is not. */
  function GetUser(w: World, uid: int, f: Faults): (Result<Option<User>>, World) {
    if UserHit(w, uid, f.readUser) then
      (if w.userCache[uid].value.None? then Err(NotFound) else Ok(w.userCache[uid].value), w)
    else (Ok(Lookup(w.users, uid)), SetUser(w, uid, Lookup(w.users, uid), f.setUser))
  }

  function Assemble(w: World, p: Post, viewer: int, f: Faults): (Result<PostView>, World) {
    var (u, w') := GetUser(w, p.userID, f);
    match u
    case Err(e) => (Err(e), w')
    case Ok(u) => (Ok(NewPostView(p, u, Liked(w, viewer, p.id))), w')
  }

  /** PostService.Get. */
  function Get(w: World, viewer: int, id: int, f: Faults): (Result<PostView>, World) {
    if PostHit(w, id, f.readPost) then
      match w.postCache[id].value
      case None => (Err(NotFound), w)
      case Some(p) => Assemble(w, p, viewer, f)
    else if RuledOut(w, id) then (Err(NotFound), SetPost(w, id, None, f.setPost))
    else if Live(w, id) then Assemble(SetPost(w, id, Some(w.posts[id]), f.setPost), w.posts[id], viewer, f)
    else (Err(NotFound), SetPost(w, id, None, f.setPost))
  }

  // ---------- Writes ----------

  /** Deletes the post's entry; a Del that fails after the row changed is remembered. */
  function Invalidate(w: World, id: int, changed: bool, ok: bool): World {
    if !w.cached then w
    else if ok then w.(postCache := w.postCache - {id}, missed := w.missed - {id})
    else if changed then w.(missed := w.missed[id := w.now])
    else w
  }

  function Create(w: World, uid: int, content: string): World {
    var id := w.nextPost;
    w.(posts := w.posts[id := Post(id, uid, content, 0, 0, w.now, false)], nextPost := id + 1,
       added := if w.filtered then w.added + [IdBytes(id)] else w.added)
  }

  function Delete(w: World, uid: int, id: int, del: bool): (Result<()>, World) {
    if !Live(w, id) then (Err(NotFound), w)
    else if w.posts[id].userID != uid then (Err(Forbidden), w)
    else (Ok(()), Invalidate(w.(posts := w.posts[id := w.posts[id].(deleted := true)]), id, true, del))
  }

  /** Like and Unlike leave the post row alone and still delete the entry. */
  function Interact(w: World, uid: int, id: int, liked: bool, del: bool): World {
    if !Live(w, id) then w
    else
      var row := LikeRow(id, uid);
      Invalidate(w.(likes := if liked then w.likes + {row} else w.likes - {row}), id, false, del)
  }

  /** Commenting leaves the post row alone and deletes the entry of a live post. */
  function CommentOn(w: World, id: int, del: bool): World {
    if Live(w, id) then Invalidate(w, id, false, del) else w
  }

  /** Deleting a comment deletes the entry of its post, live or not. */
  function Uncomment(w: World, id: int, del: bool): World {
    Invalidate(w, id, false, del)
  }

  /** Counter.Apply on a first delivery (delta is 0 on a repeat); a soft-deleted row is updated too. */
  function ApplyCount(w: World, id: int, likes: int, comments: int, del: bool): World {
    if id !in w.posts then Invalidate(w, id, false, del)
    else Invalidate(w.(posts := w.posts[id := Moved(w.posts[id], likes, comments)]), id, true, del)
  }

  function Moved(p: Post, likes: int, comments: int): Post {
    p.(likeCount := p.likeCount + likes, commentCount := p.commentCount + comments)
  }

  /** The keys start-up loads into a new filter: the live posts among ids lo, lo + 1, ..., hi - 1. */
  function LiveKeys(posts: map<int, Post>, lo: int, hi: int): seq<seq<Byte>>
    decreases hi - lo
  {
    if lo >= hi then []
    else LiveKeys(posts, lo, hi - 1) + if hi - 1 in posts && !posts[hi - 1].deleted then [IdBytes(hi - 1)] else []
  }

  /** The server starts again with a new filter; the cache lives on elsewhere. */
  function Restart(w: World): World {
    w.(added := LiveKeys(w.posts, 1, w.nextPost))
  }

  function Register(w: World, u: User): World {
    if u.id in w.users then w else w.(users := w.users[u.id := u])
  }

  datatype Op =
    | Tick(ms: nat)
    | DoRegister(user: User)
    | DoCreate(uid: int, content: string)
    | DoDelete(uid: int, id: int, del: bool)
    | DoInteract(uid: int, id: int, liked: bool, del: bool)
    | DoComment(id: int, del: bool)
    | DoDeleteComment(id: int, del: bool)
    | DoApply(id: int, likes: int, comments: int, del: bool)
    | DoGet(viewer: int, id: int, f: Faults)
    | DoRestart

  /** One call, or the passage of time.  The author of a new post is an authenticated user. */
  function Do(w: World, op: Op): World {
    match op
    case Tick(ms) => w.(now := w.now + ms)
    case DoRegister(u) => Register(w, u)
    case DoCreate(uid, content) => if uid in w.users then Create(w, uid, content) else w
    case DoDelete(uid, id, del) => Delete(w, uid, id, del).1
    case DoInteract(uid, id, liked, del) => Interact(w, uid, id, liked, del)
    case DoComment(id, del) => CommentOn(w, id, del)
    case DoDeleteComment(id, del) => Uncomment(w, id, del)
    case DoApply(id, likes, comments, del) => ApplyCount(w, id, likes, comments, del)
    case DoGet(viewer, id, f) => Get(w, viewer, id, f).1
    case DoRestart => Restart(w)
  }

  function History(w: World, ops: seq<Op>): World {
    if ops == [] then w else Do(History(w, ops[..|ops| - 1]), ops[|ops| - 1])
  }

  // ---------- Coherence ----------

  /** A cached post is the live row, or was set before a write whose Del failed. */
  ghost predicate GoodPostEntry(w: World, id: int, e: Entry<Post>) {
    && e.setAt <= w.now
    && e.dies == e.setAt + (if e.value.Some? then POST_TTL else NIL_TTL)
    && match e.value
       case Some(p) =>
         && p.id == id && p.userID in w.users
         && ((Live(w, id) && w.posts[id] == p) || (id in w.missed && e.setAt <= w.missed[id]))
       case None => Live(w, id) ==> e.setAt <= w.posts[id].createdAt
  }

  ghost predicate Tables(w: World) {
    && w.nextPost >= 1
    && (forall uid :: uid in w.users ==> w.users[uid].id == uid)
    && (forall id :: id in w.posts ==>
          w.posts[id].id == id && w.posts[id].userID in w.users && w.posts[id].createdAt <= w.now
              && 1 <= id < w.nextPost)
    && (forall id :: Live(w, id) ==> !RuledOut(w, id))
    && (forall id :: id in w.missed ==> w.missed[id] <= w.now)
  }

  ghost predicate Coherent(w: World) {
    && Tables(w)
    && (!w.cached ==> w.postCache == map[] && w.userCache == map[])
    && (forall id :: id in w.postCache ==> GoodPostEntry(w, id, w.postCache[id]))
    && (forall uid :: uid in w.userCache ==> uid in w.users && w.userCache[uid].value == Some(w.users[uid]))
  }

  function Start(cached: bool, filtered: bool, m: nat, k: nat): World {
    World(0, map[], {}, map[], 1, cached, map[], map[], filtered, [], m, k, map[])
  }

  lemma CreateCoherent(w: World, uid: int, content: string)
    requires Coherent(w) && uid in w.users
    ensures Coherent(Create(w, uid, content))
  {
    var w' := Create(w, uid, content);
    if w.filtered && w.m > 0 {
      Bloom.StaysForever(w.added, [IdBytes(w.nextPost)], w.m, w.k);
      Bloom.NoFalseNegative(w'.added, |w.added|, w.m, w.k);
    }
    forall id | Live(w', id) ensures !RuledOut(w', id) {
      if id != w.nextPost { assert Live(w, id); }
    }
    forall id | id in w'.postCache ensures GoodPostEntry(w', id, w'.postCache[id]) {
      assert GoodPostEntry(w, id, w.postCache[id]);
    }
  }

  /** A row rewritten in place (counts moved or soft-deleted) and its entry deleted, or the miss noted. */
  lemma RewriteCoherent(w: World, id: int, p: Post, del: bool)
    requires Coherent(w) && id in w.posts
    requires var q := w.posts[id];
             p.id == q.id && p.userID == q.userID && p.createdAt == q.createdAt && (q.deleted ==> p.deleted)
    ensures Coherent(Invalidate(w.(posts := w.posts[id := p]), id, true, del))
  {
    var w' := Invalidate(w.(posts := w.posts[id := p]), id, true, del);
    forall q | Live(w', q) ensures !RuledOut(w', q) { assert Live(w, q); }
    forall q | q in w'.postCache ensures GoodPostEntry(w', q, w'.postCache[q]) {
      assert GoodPostEntry(w, q, w.postCache[q]);
      if q != id { assert Live(w', q) == Live(w, q); }
    }
  }

  lemma InteractCoherent(w: World, uid: int, id: int, liked: bool, del: bool)
    requires Coherent(w)
    ensures Coherent(Interact(w, uid, id, liked, del))
  {
    var w' := Interact(w, uid, id, liked, del);
    forall q | Live(w', q) ensures !RuledOut(w', q) { assert Live(w, q); }
    forall q | q in w'.postCache ensures GoodPostEntry(w', q, w'.postCache[q]) {
      assert GoodPostEntry(w, q, w.postCache[q]);
    }
  }

  /** A Del with no change behind it. */
  lemma InvalidateCoherent(w: World, id: int, del: bool)
    requires Coherent(w)
    ensures Coherent(Invalidate(w, id, false, del))
  {
    var w' := Invalidate(w, id, false, del);
    forall q | Live(w', q) ensures !RuledOut(w', q) { assert Live(w, q); }
    forall q | q in w'.postCache ensures GoodPostEntry(w', q, w'.postCache[q]) {
      assert GoodPostEntry(w, q, w.postCache[q]);
    }
  }

  lemma ApplyCoherent(w: World, id: int, likes: int, comments: int, del: bool)
    requires Coherent(w)
    ensures Coherent(ApplyCount(w, id, likes, comments, del))
  {
    if id in w.posts {
      RewriteCoherent(w, id, Moved(w.posts[id], likes, comments), del);
    } else {
      InvalidateCoherent(w, id, del);
    }
  }

  lemma SetPostCoherent(w: World, id: int, ok: bool)
    requires Coherent(w)
    ensures Coherent(SetPost(w, id, if Live(w, id) then Some(w.posts[id]) else None, ok))
  {
    var w' := SetPost(w, id, if Live(w, id) then Some(w.posts[id]) else None, ok);
    forall q | Live(w', q) ensures !RuledOut(w', q) { assert Live(w, q); }
    forall q | q in w'.postCache ensures GoodPostEntry(w', q, w'.postCache[q]) {
      assert q in w.postCache ==> GoodPostEntry(w, q, w.postCache[q]);
    }
  }

  lemma GetUserCoherent(w: World, uid: int, f: Faults)
    requires Coherent(w) && uid in w.users
    ensures GetUser(w, uid, f).0 == Ok(Some(w.users[uid]))
    ensures Coherent(GetUser(w, uid, f).1)
  {
    var w' := GetUser(w, uid, f).1;
    forall q | Live(w', q) ensures !RuledOut(w', q) { assert Live(w, q); }
    forall q | q in w'.postCache ensures GoodPostEntry(w', q, w'.postCache[q]) {
      assert GoodPostEntry(w, q, w.postCache[q]);
    }
  }

  lemma GetCoherent(w: World, viewer: int, id: int, f: Faults)
    requires Coherent(w)
    ensures Coherent(Get(w, viewer, id, f).1)
  {
    SetPostCoherent(w, id, f.setPost);
    if PostHit(w, id, f.readPost) {
      assert GoodPostEntry(w, id, w.postCache[id]);
      if w.postCache[id].value.Some? { GetUserCoherent(w, w.postCache[id].value.value.userID, f); }
    } else if Live(w, id) {
      assert !RuledOut(w, id);
      GetUserCoherent(SetPost(w, id, Some(w.posts[id]), f.setPost), w.posts[id].userID, f);
    }
  }

  /** Time passing and new users leave every entry good. */
  lemma FrameCoherent(w: World, w': World)
    requires Coherent(w) && w.now <= w'.now && w.users.Keys <= w'.users.Keys
    requires forall uid :: uid in w.users ==> w'.users[uid] == w.users[uid]
    requires forall uid :: uid in w'.users ==> w'.users[uid].id == uid
    requires w' == w.(now := w'.now, users := w'.users)
    ensures Coherent(w')
  {
    forall q | Live(w', q) ensures !RuledOut(w', q) { assert Live(w, q); }
    forall q | q in w'.postCache ensures GoodPostEntry(w', q, w'.postCache[q]) {
      assert GoodPostEntry(w, q, w.postCache[q]);
    }
  }

  lemma {:induction false} LiveKeyLoaded(posts: map<int, Post>, lo: int, hi: int, id: int) returns (i: nat)
    requires lo <= id < hi && id in posts && !posts[id].deleted
    ensures i < |LiveKeys(posts, lo, hi)| && LiveKeys(posts, lo, hi)[i] == IdBytes(id)
    decreases hi - lo
  {
    if id == hi - 1 {
      i := |LiveKeys(posts, lo, hi - 1)|;
    } else {
      i := LiveKeyLoaded(posts, lo, hi - 1, id);
    }
  }

  lemma {:induction false} KeysLoaded(posts: map<int, Post>, lo: int, hi: int, key: seq<Byte>)
    ensures key in LiveKeys(posts, lo, hi) <==>
            exists id :: lo <= id < hi && id in posts && !posts[id].deleted && key == IdBytes(id)
    decreases hi - lo
  {
    if lo < hi { KeysLoaded(posts, lo, hi - 1, key); }
  }

  /** Start-up loads every live post, so the new filter lets all of them through. */
  lemma RestartCoherent(w: World)
    requires Coherent(w)
    ensures Coherent(Restart(w))
  {
    var w' := Restart(w);
    forall id | Live(w', id) && w'.m > 0 ensures !RuledOut(w', id) {
      var i := LiveKeyLoaded(w.posts, 1, w.nextPost, id);
      Bloom.NoFalseNegative(w'.added, i, w.m, w.k);
    }
    forall q | q in w'.postCache ensures GoodPostEntry(w', q, w'.postCache[q]) {
      assert GoodPostEntry(w, q, w.postCache[q]);
    }
  }

  lemma DoCoherent(w: World, op: Op)
    requires Coherent(w)
    ensures Coherent(Do(w, op))
  {
    match op
    case Tick(ms) => FrameCoherent(w, Do(w, op));
    case DoRegister(u) => FrameCoherent(w, Do(w, op));
    case DoCreate(uid, content) => if uid in w.users { CreateCoherent(w, uid, content); }
    case DoDelete(uid, id, del) => if Live(w, id) { RewriteCoherent(w, id, w.posts[id].(deleted := true), del); }
    case DoInteract(uid, id, liked, del) => InteractCoherent(w, uid, id, liked, del);
    case DoComment(id, del) => InvalidateCoherent(w, id, del);
    case DoDeleteComment(id, del) => InvalidateCoherent(w, id, del);
    case DoApply(id, likes, comments, del) => ApplyCoherent(w, id, likes, comments, del);
    case DoGet(viewer, id, f) => GetCoherent(w, viewer, id, f);
    case DoRestart => RestartCoherent(w);
  }

  /** After any history of calls, with any failures of reads, Sets and Dels, the cache is coherent. */
  lemma {:induction false} HistoryCoherent(cached: bool, filtered: bool, m: nat, k: nat, ops: seq<Op>)
    ensures Coherent(History(Start(cached, filtered, m, k), ops))
  {
    if ops != [] {
      HistoryCoherent(cached, filtered, m, k, ops[..|ops| - 1]);
      DoCoherent(History(Start(cached, filtered, m, k), ops[..|ops| - 1]), ops[|ops| - 1]);
    }
  }

  // ---------- Transparency ----------

  /** The live empty entry of a post that was looked up before it was created. */
  predicate EmptyHit(w: World, id: int, f: Faults) {
    PostHit(w, id, f.readPost) && w.postCache[id].value.None?
  }

  lemma AssembleIsDirect(w: World, p: Post, viewer: int, f: Faults)
    requires Coherent(w) && p.userID in w.users
    ensures Assemble(w, p, viewer, f).0 == Ok(NewPostView(p, Lookup(w.users, p.userID), Liked(w, viewer, p.id)))
  {
  }

  /** A state some history of calls leads to, with or without a cache and a filter. */
  ghost predicate Reached(w: World) {
    exists cached, filtered, m: nat, k: nat, ops :: w == History(Start(cached, filtered, m, k), ops)
  }

  lemma ReachedCoherent(w: World)
    requires Reached(w)
    ensures Coherent(w)
  {
    var cached, filtered, m: nat, k: nat, ops :| w == History(Start(cached, filtered, m, k), ops);
    HistoryCoherent(cached, filtered, m, k, ops);
  }

  lemma AnswersDirectly(w: World, viewer: int, id: int, f: Faults)
    requires Coherent(w) && id !in w.missed
    ensures Get(w, viewer, id, f).0 == Direct(w, viewer, id) <==> !(EmptyHit(w, id, f) && Live(w, id))
    ensures EmptyHit(w, id, f) ==> Get(w, viewer, id, f).0 == Err(NotFound)
  {
    if PostHit(w, id, f.readPost) {
      assert GoodPostEntry(w, id, w.postCache[id]);
      if w.postCache[id].value.Some? { AssembleIsDirect(w, w.postCache[id].value.value, viewer, f); }
    } else if Live(w, id) {
      assert !RuledOut(w, id);
      SetPostCoherent(w, id, f.setPost);
      AssembleIsDirect(SetPost(w, id, Some(w.posts[id]), f.setPost), w.posts[id], viewer, f);
    }
  }

  /** After any history, if no Del after a write to this row has failed, Get answers exactly as a direct read
      of the tables, except that it answers not-found while an empty entry outlives the post's creation. */
  lemma Transparent(w: World, viewer: int, id: int, f: Faults)
    requires Reached(w) && id !in w.missed
    ensures Get(w, viewer, id, f).0 == Direct(w, viewer, id) <==> !(EmptyHit(w, id, f) && Live(w, id))
    ensures EmptyHit(w, id, f) ==> Get(w, viewer, id, f).0 == Err(NotFound)
  {
    ReachedCoherent(w);
    AnswersDirectly(w, viewer, id, f);
  }

  /** The exception lasts less than thirty seconds from the creation of the post. */
  lemma EmptyEntryIsShort(w: World, id: int, f: Faults)
    requires Reached(w) && EmptyHit(w, id, f) && Live(w, id)
    ensures w.now < w.posts[id].createdAt + 30_000
  {
    ReachedCoherent(w);
  }

  /** Self-healing: a wrong answer that is not such an exception happens less than ten minutes after a
      write to the row whose Del failed. */
  lemma HealsInTenMinutes(w: World, viewer: int, id: int, f: Faults)
    requires Reached(w) && Get(w, viewer, id, f).0 != Direct(w, viewer, id) && !(EmptyHit(w, id, f) && Live(w, id))
    ensures id in w.missed && w.now < w.missed[id] + 600_000
  {
    ReachedCoherent(w);
  }

  /** And so ten minutes without a call heal everything, whatever failed before. */
  lemma QuietHeals(w: World, ms: nat, viewer: int, id: int, f: Faults)
    requires Reached(w) && ms >= 600_000
    ensures var w' := Do(w, Tick(ms));
            && w'.posts == w.posts && w'.likes == w.likes && w'.users == w.users
            && Get(w', viewer, id, f).0 == Direct(w, viewer, id)
  {
    var w' := Do(w, Tick(ms));
    ReachedCoherent(w);
    ReachedStep(w, Tick(ms));
    if id in w.postCache { assert GoodPostEntry(w, id, w.postCache[id]); }
    assert Direct(w', viewer, id) == Direct(w, viewer, id);
    if Get(w', viewer, id, f).0 != Direct(w', viewer, id) && !EmptyHit(w', id, f) {
      HealsInTenMinutes(w', viewer, id, f);
      ReachedCoherent(w');
    }
  }

  /** A successful deletion is seen by everyone at once when its Del works; a refused one changes nothing. */
  lemma DeletedIsGone(w: World, uid: int, id: int, viewer: int, f: Faults)
    ensures var (r, w') := Delete(w, uid, id, true);
            && (r.Ok? <==> Live(w, id) && w.posts[id].userID == uid)
            && w' == Do(w, DoDelete(uid, id, true))
            && (r.Ok? ==> Get(w', viewer, id, f).0 == Err(NotFound))
            && (r.Err? ==> w' == w && (r.error == Forbidden <==> Live(w, id)))
  {
  }

  /** A new post is served in full as soon as it is created, unless its id was looked up too early. */
  lemma CreatedIsServed(w: World, uid: int, content: string, viewer: int, f: Faults)
    requires Reached(w) && uid in w.users
    ensures var w', id := Do(w, DoCreate(uid, content)), w.nextPost;
            !EmptyHit(w', id, f) && id !in w.missed ==>
              Get(w', viewer, id, f).0 ==
              var author := AuthorView(uid, w.users[uid].nickname, w.users[uid].avatarURL);
              Ok(PostView(id, uid, author, content, 0, 0, viewer > 0 && LikeRow(id, viewer) in w.likes, w.now))
  {
    ReachedCoherent(w);
    CreateCoherent(w, uid, content);
    if w.nextPost !in w.missed {
      AnswersDirectly(Create(w, uid, content), viewer, w.nextPost, f);
    }
  }

  // ---------- What an answer shows ----------

  /** Field by field: an answer is the live row with its author's row and the viewer's own like. */
  lemma AnswerShowsRow(w: World, viewer: int, id: int, f: Faults)
    requires Reached(w) && id !in w.missed
    ensures match Get(w, viewer, id, f).0
            case Err(e) => e == NotFound && (EmptyHit(w, id, f) || id !in w.posts || w.posts[id].deleted)
            case Ok(v) =>
              && id in w.posts && !w.posts[id].deleted && w.posts[id].userID in w.users
              && v.id == id && v.content == w.posts[id].content && v.createdAt == w.posts[id].createdAt
              && v.likeCount == w.posts[id].likeCount && v.commentCount == w.posts[id].commentCount
              && v.userID == v.author.id == w.posts[id].userID
              && v.author.nickname == w.users[v.userID].nickname && v.author.avatarURL == w.users[v.userID].avatarURL
              && (v.liked <==> viewer > 0 && LikeRow(id, viewer) in w.likes)
  {
    ReachedCoherent(w);
    AnswersDirectly(w, viewer, id, f);
  }

  lemma {:induction false} ReachedStep(w: World, op: Op)
    requires Reached(w)
    ensures Reached(Do(w, op))
  {
    var cached, filtered, m: nat, k: nat, ops :| w == History(Start(cached, filtered, m, k), ops);
    assert (ops + [op])[..|ops|] == ops;
    assert Do(w, op) == History(Start(cached, filtered, m, k), ops + [op]);
  }

  /** Counting is visible at once: after the counts of a live post moved and its entry was deleted, every answer
      shows the moved counts. */
  lemma CountsAreSeen(w: World, id: int, likes: int, comments: int, viewer: int, f: Faults)
    requires Reached(w) && w.cached && id in w.posts && !w.posts[id].deleted
    ensures var r := Get(Do(w, DoApply(id, likes, comments, true)), viewer, id, f).0;
            && r.Ok? && r.value.content == w.posts[id].content
            && r.value.likeCount == w.posts[id].likeCount + likes
            && r.value.commentCount == w.posts[id].commentCount + comments
  {
    var w' := Do(w, DoApply(id, likes, comments, true));
    ReachedStep(w, DoApply(id, likes, comments, true));
    AnswerShowsRow(w', viewer, id, f);
  }

  /** So is liking, by that user alone: his flag follows his last like or unlike, everybody else's answer is as
      it was before, and the counts wait for their event. */
  lemma LikeIsSeen(w: World, uid: int, id: int, liked: bool, del: bool, viewer: int, f: Faults)
    requires Reached(w) && id in w.posts && !w.posts[id].deleted && id !in w.missed && uid > 0
    ensures var w' := Do(w, DoInteract(uid, id, liked, del));
            var before, after := Direct(w, viewer, id), Get(w', viewer, id, f).0;
            !EmptyHit(w', id, f) ==>
              && before.Ok? && after.Ok?
              && after.value == if viewer == uid then before.value.(liked := liked) else before.value
  {
    var w' := Do(w, DoInteract(uid, id, liked, del));
    ReachedStep(w, DoInteract(uid, id, liked, del));
    Transparent(w', viewer, id, f);
    assert Live(w', id) && w'.posts == w.posts && w'.users == w.users;
  }

  /** Commenting on a live post and deleting a comment, of a live post or not, drop its entry and nothing else. */
  lemma CommentsDropEntry(w: World, id: int)
    requires w.cached
    ensures var w' := Do(w, DoDeleteComment(id, true));
            && w'.postCache == w.postCache - {id}
            && w' == w.(postCache := w'.postCache, missed := w'.missed)
            && Do(w, DoComment(id, true)) == if id in w.posts && !w.posts[id].deleted then w' else w
  {
  }

  /** A start gives the filter the keys of exactly the live posts, and touches nothing else. */
  lemma RestartLoads(w: World)
    ensures var w' := Do(w, DoRestart);
            && w' == w.(added := w'.added)
            && forall key :: key in w'.added <==>
                 exists id :: 1 <= id < w.nextPost && id in w.posts && !w.posts[id].deleted && key == IdBytes(id)
  {
    forall key ensures key in LiveKeys(w.posts, 1, w.nextPost) <==>
        exists id :: 1 <= id < w.nextPost && id in w.posts && !w.posts[id].deleted && key == IdBytes(id) {
      KeysLoaded(w.posts, 1, w.nextPost, key);
    }
  }

  // ---------- What the cache and the filter save ----------

  /** An answer that comes from a live entry, or from a filter none of whose keys covers some position of this
      one, does not depend on the posts table. */
  lemma TableUnread(w: World, viewer: int, id: int, f: Faults, posts: map<int, Post>, p: nat)
    requires (w.cached && f.readPost && id in w.postCache && w.now < w.postCache[id].dies)
             || (w.filtered && w.m > 0 && p in Bloom.Positions(IdBytes(id), w.m, w.k)
                 && forall i :: 0 <= i < |w.added| ==> p !in Bloom.Positions(w.added[i], w.m, w.k))
    ensures var (r, w') := Get(w, viewer, id, f);
            Get(w.(posts := posts), viewer, id, f) == (r, w'.(posts := posts))
    ensures !(id in w.postCache && w.now < w.postCache[id].dies) ==> Get(w, viewer, id, f).0 == Err(NotFound)
  {
    if w.filtered && w.m > 0 { Bloom.Coverage(w.added, IdBytes(id), w.m, w.k); }
  }

  /** Looking the author up touches no post entry. */
  lemma AssembleLeaves(w: World, p: Post, viewer: int, f: Faults)
    ensures var w' := Assemble(w, p, viewer, f).1; w' == w.(userCache := w'.userCache)
  {
  }

  /** An answer that did not come from a live entry leaves one, if the Set succeeds: the live row for ten
      minutes, or its absence for thirty seconds. */
  lemma MissFillsCache(w: World, viewer: int, id: int, f: Faults)
    requires Reached(w) && w.cached && f.setPost
    requires !(f.readPost && id in w.postCache && w.now < w.postCache[id].dies)
    ensures var w' := Get(w, viewer, id, f).1;
            && id in w'.postCache && w'.postCache[id].setAt == w.now
            && (if id in w.posts && !w.posts[id].deleted
                then w'.postCache[id].value == Some(w.posts[id]) && w'.postCache[id].dies == w.now + 600_000
                else w'.postCache[id].value == None && w'.postCache[id].dies == w.now + 30_000)
            && w' == w.(postCache := w'.postCache, userCache := w'.userCache)
            && forall q :: q != id && q in w.postCache ==> q in w'.postCache && w'.postCache[q] == w.postCache[q]
  {
    if Live(w, id) {
      assert !RuledOut(w, id) by { ReachedCoherent(w); }
      AssembleLeaves(SetPost(w, id, Some(w.posts[id]), true), w.posts[id], viewer, f);
    }
  }

  predicate AuthorMissing(w: World, id: int) {
    && w.cached && Live(w, id) && !RuledOut(w, id) && w.posts[id].id == id && w.posts[id].userID !in w.users
    && id !in w.postCache && w.posts[id].userID !in w.userCache
  }

  lemma AuthorsExist(w: World, id: int)
    requires AuthorMissing(w, id)
    ensures !Reached(w)
  {
    if Reached(w) { ReachedCoherent(w); }
  }

  /** What the first reader leaves behind. */
  lemma FirstReader(w: World, viewer: int, id: int, f: Faults)
    requires AuthorMissing(w, id)
    ensures var p := w.posts[id];
            Get(w, viewer, id, f) == (Ok(NewPostView(p, None, Liked(w, viewer, id))),
                                      SetUser(SetPost(w, id, Some(p), f.setPost), p.userID, None, f.setUser))
  {
  }

  lemma SecondReader(w: World, viewer: int, id: int, f: Faults, g: Faults)
    requires AuthorMissing(w, id)
    ensures var p := w.posts[id];
            var w' := SetUser(SetPost(w, id, Some(p), f.setPost), p.userID, None, f.setUser);
            Get(w', viewer, id, g).0 ==
            if f.setUser && g.readUser then Err(NotFound) else Ok(NewPostView(p, None, Liked(w, viewer, id)))
  {
  }

  /** What the invariant that authors exist is for; no history reaches a live post without its author.  There
      the first reader would get the post with a placeholder, and the next one would be told that it does
      not exist exactly when the author's absence was cached by the first and can be read by the second. */
  lemma MissingAuthorAnswersTwice(w: World, viewer: int, id: int, f: Faults, g: Faults)
    requires AuthorMissing(w, id)
    ensures !Reached(w)
    ensures var (first, w') := Get(w, viewer, id, f);
            && first == Ok(NewPostView(w.posts[id], None, Liked(w, viewer, id)))
            && first.value.author == AuthorView(w.posts[id].userID, "已注销用户", "")
            && Get(w', viewer, id, g).0 == if f.setUser && g.readUser then Err(NotFound) else first
  {
    AuthorsExist(w, id);
    FirstReader(w, viewer, id, f);
    SecondReader(w, viewer, id, f, g);
  }

  /** The exception is real: look up id 1, create it within thirty seconds, look it up again. */
  lemma LookupBeforeCreation(u: User, content: string)
    ensures var f := Faults(true, true, true, true);
            var w := History(Start(true, false, 0, 0), [DoRegister(u), DoGet(0, 1, f), DoCreate(u.id, content)]);
            Live(w, 1) && Get(w, 0, 1, f).0 == Err(NotFound)
  {
    var f := Faults(true, true, true, true);
    var ops := [DoRegister(u), DoGet(0, 1, f), DoCreate(u.id, content)];
    var w0 := Start(true, false, 0, 0);
    assert ops[..2] == [DoRegister(u), DoGet(0, 1, f)] && ops[..2][..1] == [DoRegister(u)] && ops[..2][..1][..0] == [];
    var w1 := Do(w0, ops[0]);
    var w2 := Do(w1, ops[1]);
    assert History(w0, ops[..2][..1]) == w1;
    assert History(w0, ops[..2]) == w2;
    assert w2.postCache[1] == Envelope(None, 0);
  }
}
