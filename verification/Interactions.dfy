/** The like, comment and outbox tables, and the transactions that write a business row and its
    count event together (internal/repository/interaction_repo.go, outbox_repo.go) and that consume
    an event once (internal/worker/worker.go, Counter.Apply). */
module Interactions {
  import opened Model

  /** Table contents.  `outbox` is in commit order.  A row is named by its position in it, which stands for
      its unique id everywhere but in ORDER BY; `marked` names the rows whose processed_at is set,
      `processed` those in processed_events. */
  datatype Db = Db(
    posts: map<int, Post>, likes: set<LikeRow>, comments: map<int, CommentRow>,
    outbox: seq<OutboxRow>, marked: set<nat>, processed: set<nat>,
    nextPost: int, nextComment: int)

  function EmptyDb(): Db {
    Db(map[], {}, map[], [], {}, {}, 1, 1)
  }

  // ---------- Transactions ----------

  /** `serial` is the id the insert was given. */
  function Enqueue(db: Db, serial: nat, key: EventType, e: CountEvent): Db {
    db.(outbox := db.outbox + [OutboxRow(serial, key, e)])
  }

  function LikeTx(db: Db, uid: int, postID: int, serial: nat): Db {
    if LikeRow(postID, uid) in db.likes then db
    else Enqueue(db.(likes := db.likes + {LikeRow(postID, uid)}), serial, LikeCreated, CountEvent(postID, LikeCount, 1))
  }

  function UnlikeTx(db: Db, uid: int, postID: int, serial: nat): Db {
    if LikeRow(postID, uid) !in db.likes then db
    else Enqueue(db.(likes := db.likes - {LikeRow(postID, uid)}), serial, LikeRemoved,
        CountEvent(postID, LikeCount, -1))
  }

  function CommentTx(db: Db, uid: int, postID: int, content: string, now: int, serial: nat): Db {
    var id := db.nextComment;
    Enqueue(db.(comments := db.comments[id := CommentRow(id, postID, uid, content, now)], nextComment := id + 1),
            serial, CommentCreated, CountEvent(postID, CommentCount, 1))
  }

  /** The row is read again inside the transaction; a missing row aborts it. */
  function DeleteCommentTx(db: Db, id: int, serial: nat): Result<Db> {
    if id !in db.comments then Err(NotFound)
    else Ok(Enqueue(db.(comments := db.comments - {id}),
                    serial, CommentDeleted, CountEvent(db.comments[id].postID, CommentCount, -1)))
  }

  /** The rest of that transaction when its read was a snapshot: no check that the DELETE removed a row. */
  function FinishDeleteTx(db: Db, id: int, postID: int, serial: nat): Db {
    Enqueue(db.(comments := db.comments - {id}), serial, CommentDeleted, CountEvent(postID, CommentCount, -1))
  }

  function CreatePostTx(db: Db, uid: int, content: string, now: int): Db {
    var id := db.nextPost;
    db.(posts := db.posts[id := Post(id, uid, content, 0, 0, now, false)], nextPost := id + 1)
  }

  /** Sets deleted_at; the row stays. */
  function SoftDeleteTx(db: Db, id: int): Db {
    if id in db.posts then db.(posts := db.posts[id := db.posts[id].(deleted := true)]) else db
  }

  /** UPDATE posts SET field = field + delta WHERE id = postID; no matching row is no error. */
  function AddToCount(posts: map<int, Post>, e: CountEvent): map<int, Post> {
    if e.postID !in posts then posts
    else
      posts[e.postID := BumpPost(posts[e.postID], e)]
  }

  function BumpPost(p: Post, e: CountEvent): Post {
    match e.field
    case LikeCount => p.(likeCount := p.likeCount + e.delta)
    case CommentCount => p.(commentCount := p.commentCount + e.delta)
    case Other(_) => p
  }

  /** Counter.Apply's transaction: insert into processed_events; only a new id moves a count. */
  function ApplyTx(db: Db, id: nat, e: CountEvent): Result<Db> {
    if !AllowedField(e.field) then Err(BadRequest(0))
    else if id in db.processed then Ok(db)
    else Ok(db.(processed := db.processed + {id}, posts := AddToCount(db.posts, e)))
  }

  function SerialOf(rows: seq<OutboxRow>, i: nat): nat {
    if i < |rows| then rows[i].serial else 0
  }

  function InsertBySerial(rows: seq<OutboxRow>, i: nat, ids: seq<nat>): seq<nat> {
    if ids == [] || SerialOf(rows, i) < SerialOf(rows, ids[0]) then [i] + ids
    else [ids[0]] + InsertBySerial(rows, i, ids[1..])
  }

  /** The unmarked ones among the first n rows, by serial. */
  function PendingAmong(rows: seq<OutboxRow>, marked: set<nat>, n: nat): seq<nat> {
    if n == 0 then []
    else
      var before := PendingAmong(rows, marked, n - 1);
      if n - 1 in marked then before else InsertBySerial(rows, n - 1, before)
  }

  function Pending(db: Db): seq<nat> {
    PendingAmong(db.outbox, db.marked, |db.outbox|)
  }

  /** SELECT ... WHERE processed_at IS NULL ORDER BY id ASC LIMIT limit */
  function FetchPending(db: Db, limit: nat): seq<nat> {
    var all := Pending(db);
    if |all| <= limit then all else all[..limit]
  }

  function IdSet(ids: seq<nat>): set<nat> {
    set i | i in ids
  }

  function MarkProcessed(db: Db, ids: seq<nat>): Db {
    db.(marked := db.marked + IdSet(ids))
  }

  // ---------- What a fetch returns ----------

  ghost predicate NoRepeats(ids: seq<nat>) {
    forall i, j :: 0 <= i < j < |ids| ==> ids[i] != ids[j]
  }

  ghost predicate BySerial(rows: seq<OutboxRow>, ids: seq<nat>) {
    forall i, j :: 0 <= i < j < |ids| ==> SerialOf(rows, ids[i]) <= SerialOf(rows, ids[j])
  }

  lemma {:induction false} InsertMembers(rows: seq<OutboxRow>, i: nat, ids: seq<nat>, j: nat)
    ensures j in InsertBySerial(rows, i, ids) <==> j == i || j in ids
  {
    if ids != [] && SerialOf(rows, i) >= SerialOf(rows, ids[0]) {
      InsertMembers(rows, i, ids[1..], j);
      assert ids == [ids[0]] + ids[1..];
    }
  }

  lemma {:induction false} InsertSorts(rows: seq<OutboxRow>, i: nat, ids: seq<nat>)
    requires NoRepeats(ids) && BySerial(rows, ids) && i !in ids
    ensures NoRepeats(InsertBySerial(rows, i, ids)) && BySerial(rows, InsertBySerial(rows, i, ids))
  {
    if ids != [] && SerialOf(rows, i) >= SerialOf(rows, ids[0]) {
      InsertSorts(rows, i, ids[1..]);
      var rest := InsertBySerial(rows, i, ids[1..]);
      forall k | 0 <= k < |rest| ensures rest[k] != ids[0] && SerialOf(rows, ids[0]) <= SerialOf(rows, rest[k]) {
        InsertMembers(rows, i, ids[1..], rest[k]);
      }
    }
  }

  lemma {:induction false} PendingMembers(rows: seq<OutboxRow>, marked: set<nat>, n: nat, i: nat)
    ensures i in PendingAmong(rows, marked, n) <==> i < n && i !in marked
  {
    if n > 0 {
      PendingMembers(rows, marked, n - 1, i);
      if n - 1 !in marked { InsertMembers(rows, n - 1, PendingAmong(rows, marked, n - 1), i); }
    }
  }

  lemma {:induction false} PendingSorted(rows: seq<OutboxRow>, marked: set<nat>, n: nat)
    ensures NoRepeats(PendingAmong(rows, marked, n)) && BySerial(rows, PendingAmong(rows, marked, n))
  {
    if n > 0 {
      var before := PendingAmong(rows, marked, n - 1);
      PendingSorted(rows, marked, n - 1);
      if n - 1 in marked {
        assert PendingAmong(rows, marked, n) == before;
      } else {
        PendingMembers(rows, marked, n - 1, n - 1);
        InsertSorts(rows, n - 1, before);
        assert PendingAmong(rows, marked, n) == InsertBySerial(rows, n - 1, before);
      }
    }
  }

  /** A fetch returns distinct pending rows, at most `limit`, all of them if there are no more, and none
      whose serial is above that of a pending row left behind. */
  lemma FetchFacts(db: Db, limit: nat)
    ensures var ids := FetchPending(db, limit);
            && NoRepeats(ids) && BySerial(db.outbox, ids) && |ids| <= limit
            && (forall i :: i in ids ==> i < |db.outbox| && i !in db.marked)
            && (forall i: nat :: i < |db.outbox| && i !in db.marked && i !in ids ==>
                  |ids| == limit && forall j :: j in ids ==> SerialOf(db.outbox, j) <= SerialOf(db.outbox, i))
  {
    PendingSorted(db.outbox, db.marked, |db.outbox|);
    var ids := FetchPending(db, limit);
    forall i | i in ids ensures i < |db.outbox| && i !in db.marked {
      PendingMembers(db.outbox, db.marked, |db.outbox|, i);
    }
    forall i: nat | i < |db.outbox| && i !in db.marked && i !in ids
      ensures |ids| == limit && forall j :: j in ids ==> SerialOf(db.outbox, j) <= SerialOf(db.outbox, i)
    {
      LeftBehind(db, limit, i);
    }
  }

  lemma LeftBehind(db: Db, limit: nat, i: nat)
    requires i < |db.outbox| && i !in db.marked && i !in FetchPending(db, limit)
    ensures var ids := FetchPending(db, limit);
            |ids| == limit && forall j :: j in ids ==> SerialOf(db.outbox, j) <= SerialOf(db.outbox, i)
  {
    var all, ids := Pending(db), FetchPending(db, limit);
    PendingSorted(db.outbox, db.marked, |db.outbox|);
    PendingMembers(db.outbox, db.marked, |db.outbox|, i);
    var k :| 0 <= k < |all| && all[k] == i;
    assert |all| > limit && ids == all[..limit];
    assert forall x :: 0 <= x < |ids| ==> ids[x] == all[x] && ids[x] in ids;
    assert k >= limit;
    forall j | j in ids ensures SerialOf(db.outbox, j) <= SerialOf(db.outbox, i) {
      var x :| 0 <= x < |ids| && ids[x] == j;
    }
  }

  /** From position m on, rows committed in the order of their ids. */
  ghost predicate OrderedFrom(rows: seq<OutboxRow>, m: nat) {
    forall i, j :: m <= i < j < |rows| ==> rows[i].serial <= rows[j].serial
  }

  ghost predicate CommitOrder(rows: seq<OutboxRow>) {
    OrderedFrom(rows, 0)
  }

  lemma {:induction false} InsertLast(rows: seq<OutboxRow>, i: nat, ids: seq<nat>)
    requires forall j :: j in ids ==> SerialOf(rows, j) <= SerialOf(rows, i)
    ensures InsertBySerial(rows, i, ids) == ids + [i]
  {
    if ids != [] { InsertLast(rows, i, ids[1..]); }
  }

  lemma {:induction false} PendingIsSuffix(rows: seq<OutboxRow>, marked: set<nat>, m: nat, n: nat)
    requires (forall i: nat :: i in marked <==> i < m) && m <= n <= |rows|
    requires forall i, j :: m <= i < j < n ==> rows[i].serial <= rows[j].serial
    ensures PendingAmong(rows, marked, n) == Range(m, n)
    decreases n
  {
    if n == m {
      NonePending(rows, marked, n);
    } else {
      PendingIsSuffix(rows, marked, m, n - 1);
      InsertLast(rows, n - 1, Range(m, n - 1));
      assert Range(m, n) == Range(m, n - 1) + [n - 1];
    }
  }

  lemma {:induction false} NonePending(rows: seq<OutboxRow>, marked: set<nat>, n: nat)
    requires forall i: nat :: i < n ==> i in marked
    ensures PendingAmong(rows, marked, n) == []
  {
    if n > 0 { NonePending(rows, marked, n - 1); }
  }

  /** With the first m rows marked, the pending rows come in commit order iff the others committed in the
      order of their ids. */
  lemma PendingInCommitOrder(db: Db, m: nat)
    requires db.marked == Below(m)
    ensures Pending(db) == Range(m, |db.outbox|) <==> OrderedFrom(db.outbox, m)
  {
    var n := |db.outbox|;
    if Pending(db) == Range(m, n) {
      PendingSorted(db.outbox, db.marked, n);
      forall i, j | m <= i < j < n ensures db.outbox[i].serial <= db.outbox[j].serial {
        assert Range(m, n)[i - m] == i && Range(m, n)[j - m] == j;
      }
    }
    if m > n {
      NonePending(db.outbox, db.marked, n);
    } else if OrderedFrom(db.outbox, m) {
      PendingIsSuffix(db.outbox, db.marked, m, n);
    }
  }

  /** No row from m to m + n - 1 has a larger id than a row committed after it. */
  ghost predicate FirstOrdered(rows: seq<OutboxRow>, m: nat, n: nat) {
    forall i, j :: m <= i < m + n && i < j < |rows| ==> rows[i].serial <= rows[j].serial
  }

  lemma {:induction false} InsertBehind(rows: seq<OutboxRow>, i: nat, ids: seq<nat>, n: nat)
    requires n <= |ids| && forall k :: 0 <= k < n ==> SerialOf(rows, ids[k]) <= SerialOf(rows, i)
    ensures |InsertBySerial(rows, i, ids)| == |ids| + 1 && InsertBySerial(rows, i, ids)[..n] == ids[..n]
  {
    if ids != [] && SerialOf(rows, i) >= SerialOf(rows, ids[0]) {
      InsertBehind(rows, i, ids[1..], if n == 0 then 0 else n - 1);
      if n > 0 { assert ids[..n] == [ids[0]] + ids[1..][..n - 1]; }
    }
  }

  /** One more row, behind the first n. */
  lemma BehindFirst(rows: seq<OutboxRow>, m: nat, n: nat, last: nat, before: seq<nat>)
    requires FirstOrdered(rows, m, n) && m + n <= last < |rows|
    requires n <= |before| && before[..n] == Range(m, m + n)
    ensures var ids := InsertBySerial(rows, last, before); |ids| == |before| + 1 && ids[..n] == Range(m, m + n)
  {
    forall k | 0 <= k < n ensures SerialOf(rows, before[k]) <= SerialOf(rows, last) {
      assert before[k] == before[..n][k];
    }
    InsertBehind(rows, last, before, n);
  }

  /** Then the first n rows from m on come first among the pending ones, in commit order. */
  lemma {:induction false} PendingStarts(rows: seq<OutboxRow>, marked: set<nat>, m: nat, n: nat, upTo: nat)
    requires forall i: nat :: i in marked <==> i < m
    requires FirstOrdered(rows, m, n) && m + n <= upTo <= |rows|
    ensures var ids := PendingAmong(rows, marked, upTo); |ids| == upTo - m && ids[..n] == Range(m, m + n)
    decreases upTo
  {
    if upTo == m + n {
      PendingIsSuffix(rows, marked, m, upTo);
      assert Range(m, upTo)[..n] == Range(m, upTo);
    } else {
      PendingStarts(rows, marked, m, n, upTo - 1);
      BehindFirst(rows, m, n, upTo - 1, PendingAmong(rows, marked, upTo - 1));
    }
  }

  lemma FetchedFirst(db: Db, m: nat, n: nat, limit: nat, i: nat, j: nat)
    requires db.marked == Below(m) && FetchPending(db, limit) == Range(m, m + n)
    requires m <= i < m + n && i < j < |db.outbox|
    ensures db.outbox[i].serial <= db.outbox[j].serial
  {
    var ids := FetchPending(db, limit);
    FetchFacts(db, limit);
    assert ids[i - m] == i;
    if j < m + n {
      assert ids[j - m] == j;
    } else {
      assert forall k :: 0 <= k < n ==> ids[k] == m + k != j;
      assert j !in ids && i in ids;
    }
  }

  /** With the first m rows marked, a fetch returns the next ones in commit order iff none of those has a
      larger id than a row committed after it. */
  lemma FetchInCommitOrder(db: Db, m: nat, limit: nat)
    requires db.marked == Below(m) && m <= |db.outbox|
    ensures var n := if |db.outbox| - m <= limit then |db.outbox| - m else limit;
            FetchPending(db, limit) == Range(m, m + n) <==> FirstOrdered(db.outbox, m, n)
  {
    var n := if |db.outbox| - m <= limit then |db.outbox| - m else limit;
    if FirstOrdered(db.outbox, m, n) {
      PendingStarts(db.outbox, db.marked, m, n, |db.outbox|);
    }
    if FetchPending(db, limit) == Range(m, m + n) {
      forall i, j | m <= i < m + n && i < j < |db.outbox| ensures db.outbox[i].serial <= db.outbox[j].serial {
        FetchedFirst(db, m, n, limit, i, j);
      }
    }
  }

  // ---------- Ledger: what the outbox says the counts should be ----------

  function Effect(row: OutboxRow, p: int, f: Field): int {
    if row.event.postID == p && row.event.field == f then row.event.delta else 0
  }

  /** Sum of the deltas of every outbox row for (p, f). */
  function Total(rows: seq<OutboxRow>, p: int, f: Field): int {
    if rows == [] then 0 else Total(rows[..|rows| - 1], p, f) + Effect(rows[|rows| - 1], p, f)
  }

  /** The same sum over the rows whose id is in `ids`. */
  function Net(rows: seq<OutboxRow>, ids: set<nat>, p: int, f: Field): int {
    if rows == [] then 0
    else Net(rows[..|rows| - 1], ids, p, f) + if |rows| - 1 in ids then Effect(rows[|rows| - 1], p, f) else 0
  }

  /** The same sum over the rows whose id is not in `ids`. */
  function Outstanding(rows: seq<OutboxRow>, ids: set<nat>, p: int, f: Field): int {
    if rows == [] then 0
    else Outstanding(rows[..|rows| - 1], ids, p, f) + if |rows| - 1 in ids then 0 else Effect(rows[|rows| - 1], p, f)
  }

  function LikesOf(db: Db, p: int): set<LikeRow> {
    set l | l in db.likes && l.postID == p
  }

  function CommentsOf(db: Db, p: int): set<int> {
    set c | c in db.comments && db.comments[c].postID == p
  }

  /** How many like or comment rows post p has. */
  function Rows(db: Db, p: int, f: Field): nat {
    match f
    case LikeCount => |LikesOf(db, p)|
    case CommentCount => |CommentsOf(db, p)|
    case Other(_) => 0
  }

  /** The stored count column. */
  function Count(db: Db, p: int, f: Field): int
    requires p in db.posts
  {
    match f
    case LikeCount => db.posts[p].likeCount
    case CommentCount => db.posts[p].commentCount
    case Other(_) => 0
  }

  /** An event row says what its routing key says: which column, and one up or one down. */
  predicate Proper(row: OutboxRow) {
    match row.key
    case LikeCreated => row.event.field == LikeCount && row.event.delta == 1
    case LikeRemoved => row.event.field == LikeCount && row.event.delta == -1
    case CommentCreated => row.event.field == CommentCount && row.event.delta == 1
    case CommentDeleted => row.event.field == CommentCount && row.event.delta == -1
  }

  /** Table well-formedness: every reference names an existing post, ids are fresh, event rows are proper,
      and only existing events were processed. */
  ghost predicate WellFormed(db: Db) {
    && (forall i :: 0 <= i < |db.outbox| ==>
          Proper(db.outbox[i]) && db.outbox[i].event.postID in db.posts)
    && (forall l :: l in db.likes ==> l.postID in db.posts)
    && (forall c :: c in db.comments ==> db.comments[c].postID in db.posts && c < db.nextComment)
    && (forall p :: p in db.posts ==> p < db.nextPost)
    && (forall i :: i in db.processed ==> i < |db.outbox|)
    && (forall i :: i in db.marked ==> i < |db.outbox|)
  }

  /** The ledger invariant: rows agree with the whole outbox, counts with its processed part. */
  ghost predicate Balanced(db: Db) {
    WellFormed(db) && forall p, f :: LedgerAt(db, p, f)
  }

  predicate LedgerAt(db: Db, p: int, f: Field) {
    p in db.posts && AllowedField(f) ==>
      Rows(db, p, f) == Total(db.outbox, p, f) && Count(db, p, f) == Net(db.outbox, db.processed, p, f)
  }

  /** Each event is either processed or outstanding. */
  lemma {:induction false} SplitTotal(rows: seq<OutboxRow>, ids: set<nat>, p: int, f: Field)
    ensures Total(rows, p, f) == Net(rows, ids, p, f) + Outstanding(rows, ids, p, f)
  {
    if rows != [] {
      SplitTotal(rows[..|rows| - 1], ids, p, f);
    }
  }

  /** Conservation: count column plus unprocessed deltas is the number of rows. */
  lemma Conservation(db: Db, p: int, f: Field)
    requires Balanced(db) && p in db.posts && AllowedField(f)
    ensures Count(db, p, f) + Outstanding(db.outbox, db.processed, p, f) == Rows(db, p, f)
  {
    assert LedgerAt(db, p, f);
    SplitTotal(db.outbox, db.processed, p, f);
  }

  lemma {:induction false} NetBeyond(rows: seq<OutboxRow>, ids: set<nat>, i: nat, p: int, f: Field)
    requires i >= |rows|
    ensures Net(rows, ids + {i}, p, f) == Net(rows, ids, p, f)
  {
    if rows != [] {
      NetBeyond(rows[..|rows| - 1], ids, i, p, f);
    }
  }

  lemma {:induction false} NetInsert(rows: seq<OutboxRow>, ids: set<nat>, i: nat, p: int, f: Field)
    requires i < |rows| && i !in ids
    ensures Net(rows, ids + {i}, p, f) == Net(rows, ids, p, f) + Effect(rows[i], p, f)
  {
    if i == |rows| - 1 {
      NetBeyond(rows[..|rows| - 1], ids, i, p, f);
    } else {
      NetInsert(rows[..|rows| - 1], ids, i, p, f);
    }
  }

  /** When the processed ids are a prefix, the counts are those of a shorter outbox. */
  lemma {:induction false} NetOfPrefix(rows: seq<OutboxRow>, k: nat, p: int, f: Field)
    requires k <= |rows|
    ensures Net(rows, Below(k), p, f) == Total(rows[..k], p, f)
    decreases |rows|
  {
    if rows == [] {
    } else if k == |rows| {
      NetOfPrefix(rows[..k - 1], k - 1, p, f);
      NetBeyond(rows[..k - 1], Below(k - 1), k - 1, p, f);
      assert Below(k) == Below(k - 1) + {k - 1};
      assert rows[..k][..k - 1] == rows[..k - 1] == rows[..k - 1][..k - 1];
    } else {
      NetOfPrefix(rows[..|rows| - 1], k, p, f);
      assert rows[..|rows| - 1][..k] == rows[..k];
    }
  }

  /** No event names a post that does not exist yet. */
  lemma {:induction false} NoEventsForNewPost(rows: seq<OutboxRow>, ids: set<nat>, p: int, f: Field)
    requires forall i :: 0 <= i < |rows| ==> rows[i].event.postID != p
    ensures Total(rows, p, f) == 0 && Net(rows, ids, p, f) == 0
  {
    if rows != [] {
      NoEventsForNewPost(rows[..|rows| - 1], ids, p, f);
    }
  }

  /** Nor does any like or comment. */
  lemma NoRowsForNewPost(db: Db, p: int)
    requires WellFormed(db) && p !in db.posts
    ensures LikesOf(db, p) == {} && CommentsOf(db, p) == {}
  {
    forall c | c in db.comments ensures c !in CommentsOf(db, p) {
      assert db.comments[c].postID in db.posts;
    }
  }

  // ---------- Every transaction keeps the ledger ----------

  lemma EnqueueBalances(db: Db, db': Db, row: OutboxRow)
    requires Balanced(db) && WellFormed(db')
    requires db'.posts == db.posts && db'.processed == db.processed && db'.outbox == db.outbox + [row]
    requires forall p, f :: p in db.posts && AllowedField(f) ==> Rows(db', p, f) == Rows(db, p, f) + Effect(row, p, f)
    ensures Balanced(db')
  {
    assert db'.outbox[..|db.outbox|] == db.outbox;
    forall p, f ensures LedgerAt(db', p, f) {
      assert LedgerAt(db, p, f);
    }
  }

  lemma LikeBalances(db: Db, uid: int, postID: int, serial: nat)
    requires Balanced(db) && postID in db.posts
    ensures Balanced(LikeTx(db, uid, postID, serial))
  {
    var db' := LikeTx(db, uid, postID, serial);
    var l := LikeRow(postID, uid);
    if l !in db.likes {
      forall p, f | p in db.posts && AllowedField(f)
        ensures Rows(db', p, f) == Rows(db, p, f) + Effect(db'.outbox[|db.outbox|], p, f)
      {
        assert CommentsOf(db', p) == CommentsOf(db, p);
        if p == postID {
          assert LikesOf(db', p) == LikesOf(db, p) + {l};
        } else {
          assert LikesOf(db', p) == LikesOf(db, p);
        }
      }
      EnqueueBalances(db, db', db'.outbox[|db.outbox|]);
    }
  }

  lemma UnlikeBalances(db: Db, uid: int, postID: int, serial: nat)
    requires Balanced(db) && postID in db.posts
    ensures Balanced(UnlikeTx(db, uid, postID, serial))
  {
    var db' := UnlikeTx(db, uid, postID, serial);
    var l := LikeRow(postID, uid);
    if l in db.likes {
      forall p, f | p in db.posts && AllowedField(f)
        ensures Rows(db', p, f) == Rows(db, p, f) + Effect(db'.outbox[|db.outbox|], p, f)
      {
        assert CommentsOf(db', p) == CommentsOf(db, p);
        if p == postID {
          assert LikesOf(db, p) == LikesOf(db', p) + {l};
        } else {
          assert LikesOf(db', p) == LikesOf(db, p);
        }
      }
      EnqueueBalances(db, db', db'.outbox[|db.outbox|]);
    }
  }

  lemma CommentAdded(db: Db, db': Db, id: int, c: CommentRow, p: int)
    requires id !in db.comments && db'.comments == db.comments[id := c]
    ensures |CommentsOf(db', p)| == |CommentsOf(db, p)| + if p == c.postID then 1 else 0
  {
    assert CommentsOf(db', p) == CommentsOf(db, p) + if p == c.postID then {id} else {};
  }

  lemma CommentBalances(db: Db, uid: int, postID: int, content: string, now: int, serial: nat)
    requires Balanced(db) && postID in db.posts
    ensures Balanced(CommentTx(db, uid, postID, content, now, serial))
  {
    var db' := CommentTx(db, uid, postID, content, now, serial);
    forall p, f | p in db.posts && AllowedField(f)
      ensures Rows(db', p, f) == Rows(db, p, f) + Effect(db'.outbox[|db.outbox|], p, f)
    {
      assert LikesOf(db', p) == LikesOf(db, p);
      CommentAdded(db, db', db.nextComment, db'.comments[db.nextComment], p);
    }
    EnqueueBalances(db, db', db'.outbox[|db.outbox|]);
  }

  lemma DeleteCommentBalances(db: Db, id: int, serial: nat)
    requires Balanced(db) && DeleteCommentTx(db, id, serial).Ok?
    ensures Balanced(DeleteCommentTx(db, id, serial).value)
  {
    var db' := DeleteCommentTx(db, id, serial).value;
    var postID := db.comments[id].postID;
    forall p, f | p in db.posts && AllowedField(f)
      ensures Rows(db', p, f) == Rows(db, p, f) + Effect(db'.outbox[|db.outbox|], p, f)
    {
      assert LikesOf(db', p) == LikesOf(db, p);
      assert db.comments == db'.comments[id := db.comments[id]];
      CommentAdded(db', db, id, db.comments[id], p);
    }
    EnqueueBalances(db, db', db'.outbox[|db.outbox|]);
  }

  /** What the missing check costs if two deletions of one comment overlap: the rest of the transaction keeps
      the ledger iff the comment it read, of the post it read, is still there. */
  lemma SnapshotDelete(db: Db, id: int, postID: int, serial: nat)
    requires Balanced(db) && postID in db.posts
    ensures Balanced(FinishDeleteTx(db, id, postID, serial)) <==> id in db.comments && db.comments[id].postID == postID
  {
    var db' := FinishDeleteTx(db, id, postID, serial);
    if id in db.comments && db.comments[id].postID == postID {
      DeleteCommentBalances(db, id, serial);
      assert db' == DeleteCommentTx(db, id, serial).value;
    } else {
      assert LedgerAt(db, postID, CommentCount) && CommentsOf(db', postID) == CommentsOf(db, postID);
      assert Rows(db', postID, CommentCount) == Total(db.outbox, postID, CommentCount);
      assert Total(db'.outbox, postID, CommentCount) == Total(db.outbox, postID, CommentCount) - 1 by {
        assert db'.outbox[..|db.outbox|] == db.outbox;
      }
      assert !LedgerAt(db', postID, CommentCount);
    }
  }

  lemma CreatePostBalances(db: Db, uid: int, content: string, now: int)
    requires Balanced(db)
    ensures Balanced(CreatePostTx(db, uid, content, now))
  {
    var db' := CreatePostTx(db, uid, content, now);
    forall p, f ensures LedgerAt(db', p, f) {
      assert LedgerAt(db, p, f);
      assert LikesOf(db', p) == LikesOf(db, p) && CommentsOf(db', p) == CommentsOf(db, p);
      if p == db.nextPost {
        NoEventsForNewPost(db.outbox, db.processed, p, f);
        NoRowsForNewPost(db, p);
      }
    }
  }

  /** Tables that differ in nothing the ledger speaks of. */
  lemma SameLedger(db: Db, db': Db)
    requires Balanced(db) && WellFormed(db') && db'.posts.Keys == db.posts.Keys
    requires db'.likes == db.likes && db'.comments == db.comments
    requires db'.outbox == db.outbox && db'.processed == db.processed
    requires forall p :: p in db.posts ==>
               db'.posts[p].likeCount == db.posts[p].likeCount && db'.posts[p].commentCount == db.posts[p].commentCount
    ensures Balanced(db')
  {
    forall p, f ensures LedgerAt(db', p, f) {
      assert LedgerAt(db, p, f);
      assert LikesOf(db', p) == LikesOf(db, p) && CommentsOf(db', p) == CommentsOf(db, p);
    }
  }

  /** A change of posts alone that moves no count keeps the ledger. */
  lemma SoftDeleteBalances(db: Db, id: int)
    requires Balanced(db)
    ensures Balanced(SoftDeleteTx(db, id))
  {
    SameLedger(db, SoftDeleteTx(db, id));
  }

  lemma MarkBalances(db: Db, ids: seq<nat>)
    requires Balanced(db) && forall i :: i in ids ==> i < |db.outbox|
    ensures Balanced(MarkProcessed(db, ids))
  {
    SameLedger(db, MarkProcessed(db, ids));
  }

  lemma ApplyBalances(db: Db, id: nat)
    requires Balanced(db) && id < |db.outbox|
    ensures ApplyTx(db, id, db.outbox[id].event).Ok?
    ensures Balanced(ApplyTx(db, id, db.outbox[id].event).value)
  {
    var e := db.outbox[id].event;
    var db' := ApplyTx(db, id, e).value;
    assert Proper(db.outbox[id]);
    if id !in db.processed {
      forall p, f ensures LedgerAt(db', p, f) {
        ApplyOnce(db, id, p, f);
      }
    }
  }

  lemma ApplyOnce(db: Db, id: nat, p: int, f: Field)
    requires Balanced(db) && id < |db.outbox| && id !in db.processed && ApplyTx(db, id, db.outbox[id].event).Ok?
    ensures LedgerAt(ApplyTx(db, id, db.outbox[id].event).value, p, f)
  {
    var e := db.outbox[id].event;
    var db' := ApplyTx(db, id, e).value;
    assert LedgerAt(db, p, f);
    if p in db.posts && AllowedField(f) {
      assert LikesOf(db', p) == LikesOf(db, p) && CommentsOf(db', p) == CommentsOf(db, p);
      NetInsert(db.outbox, db.processed, id, p, f);
      assert db'.posts[p] == if p == e.postID then BumpPost(db.posts[p], e) else db.posts[p];
    }
  }

  /** The other half of exactly-once: applying an event again changes nothing. */
  lemma ApplyTwice(db: Db, id: nat, e: CountEvent)
    requires ApplyTx(db, id, e).Ok?
    ensures ApplyTx(ApplyTx(db, id, e).value, id, e) == ApplyTx(db, id, e)
  {
  }
}
