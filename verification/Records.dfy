/** What the tables hold, told from the calls alone: after any run, whatever relay, broker and consumer did,
    a like row exists iff the user's last effective call on the post was a like, and so on
    (internal/repository/interaction_repo.go:60-130, internal/repository/post_repo.go:40-60). */
module Records {
  import opened Model
  import opened Interactions
  import opened Pipeline
  import Consumer
  import Drain

  /** The clients' calls among the steps of a run. */
  function Calls(trace: seq<Action>): seq<Tx> {
    if trace == [] then []
    else
      var a := trace[|trace| - 1];
      Calls(trace[..|trace| - 1]) + if a.Client? then [a.tx] else []
  }

  // ---------- The calls read as facts ----------

  function Posted(calls: seq<Tx>): nat {
    if calls == [] then 0 else Posted(calls[..|calls| - 1]) + if calls[|calls| - 1].CreatePost? then 1 else 0
  }

  /** Ids count from one, so the post exists iff that many were created. */
  predicate Exists(calls: seq<Tx>, p: int) {
    1 <= p <= Posted(calls)
  }

  predicate IsLike(tx: Tx, u: int, p: int) {
    tx.Like? && tx.uid == u && tx.postID == p
  }

  predicate IsUnlike(tx: Tx, u: int, p: int) {
    tx.Unlike? && tx.uid == u && tx.postID == p
  }

  /** Some like of an existing post has not been taken back. */
  ghost predicate Likes(calls: seq<Tx>, u: int, p: int) {
    exists i :: 0 <= i < |calls| && LikesSince(calls, i, u, p)
  }

  ghost predicate LikesSince(calls: seq<Tx>, i: nat, u: int, p: int)
    requires i < |calls|
  {
    IsLike(calls[i], u, p) && Exists(calls[..i], p) && forall j :: i < j < |calls| ==> !IsUnlike(calls[j], u, p)
  }

  /** Call i created the post. */
  predicate Creates(calls: seq<Tx>, i: nat, p: int)
    requires i < |calls|
  {
    calls[i].CreatePost? && Posted(calls[..i]) + 1 == p
  }

  /** Call i comments on a post that exists. */
  predicate Comments(calls: seq<Tx>, i: nat)
    requires i < |calls|
  {
    calls[i].Comment? && Exists(calls[..i], calls[i].postID)
  }

  function Commented(calls: seq<Tx>): nat {
    if calls == [] then 0
    else Commented(calls[..|calls| - 1]) + if Comments(calls, |calls| - 1) then 1 else 0
  }

  predicate IsRemoval(tx: Tx, c: int) {
    tx.DeleteComment? && tx.id == c
  }

  /** Call i wrote comment c, and none after it removed it. */
  ghost predicate Stands(calls: seq<Tx>, i: nat, c: int)
    requires i < |calls|
  {
    && Comments(calls, i) && Commented(calls[..i]) + 1 == c
    && forall j :: i < j < |calls| ==> !IsRemoval(calls[j], c)
  }

  ghost predicate Deleted(calls: seq<Tx>, p: int) {
    exists j :: 0 <= j < |calls| && calls[j] == SoftDelete(p) && Exists(calls[..j], p)
  }

  // ---------- The tables say the same ----------

  ghost predicate LikesTold(db: Db, calls: seq<Tx>) {
    forall u, p :: LikeRow(p, u) in db.likes <==> Likes(calls, u, p)
  }

  ghost predicate CommentsTold(db: Db, calls: seq<Tx>) {
    && db.nextComment == Commented(calls) + 1
    && (forall i, c :: 0 <= i < |calls| && Stands(calls, i, c) ==>
          c in db.comments && var t := calls[i]; db.comments[c] == CommentRow(c, t.postID, t.uid, t.content, t.now))
    && (forall c :: c in db.comments ==>
          1 <= c <= Commented(calls) && exists i :: 0 <= i < |calls| && Stands(calls, i, c))
  }

  ghost predicate PostsTold(db: Db, calls: seq<Tx>) {
    && db.nextPost == Posted(calls) + 1
    && (forall p :: p in db.posts <==> Exists(calls, p))
    && (forall p :: p in db.posts ==> db.posts[p].id == p && (db.posts[p].deleted <==> Deleted(calls, p)))
    && (forall i, p :: 0 <= i < |calls| && Creates(calls, i, p) ==>
          && p in db.posts && db.posts[p].userID == calls[i].author
          && db.posts[p].content == calls[i].text && db.posts[p].createdAt == calls[i].at)
  }

  lemma Snoc(calls: seq<Tx>, tx: Tx)
    ensures var calls' := calls + [tx];
            && (forall i :: 0 <= i <= |calls| ==> calls'[..i] == calls[..i])
            && calls[..|calls|] == calls && (forall i :: 0 <= i < |calls| ==> calls'[i] == calls[i])
            && Posted(calls') == Posted(calls) + (if tx.CreatePost? then 1 else 0)
            && (Comments(calls', |calls|) <==> tx.Comment? && Exists(calls, tx.postID))
            && Commented(calls') == Commented(calls) + if Comments(calls', |calls|) then 1 else 0
  {
    assert (calls + [tx])[..|calls|] == calls;
  }

  lemma LikesSnoc(calls: seq<Tx>, tx: Tx, u: int, p: int)
    ensures Likes(calls + [tx], u, p) <==>
            (IsLike(tx, u, p) && Exists(calls, p)) || (Likes(calls, u, p) && !IsUnlike(tx, u, p))
  {
    var calls' := calls + [tx];
    Snoc(calls, tx);
    if i :| 0 <= i < |calls'| && LikesSince(calls', i, u, p) {
      if i < |calls| {
        assert calls'[|calls|] == tx && LikesSince(calls, i, u, p);
      }
    }
    if IsLike(tx, u, p) && Exists(calls, p) {
      assert LikesSince(calls', |calls|, u, p);
    } else if Likes(calls, u, p) && !IsUnlike(tx, u, p) {
      var i :| 0 <= i < |calls| && LikesSince(calls, i, u, p);
      assert LikesSince(calls', i, u, p);
    }
  }

  lemma {:induction false} LikesExist(calls: seq<Tx>, u: int, p: int)
    requires Likes(calls, u, p)
    ensures Exists(calls, p)
  {
    var i :| 0 <= i < |calls| && LikesSince(calls, i, u, p);
    PostedGrows(calls, i);
  }

  lemma {:induction false} PostedGrows(calls: seq<Tx>, i: nat)
    requires i <= |calls|
    ensures Posted(calls[..i]) <= Posted(calls) && Commented(calls[..i]) <= Commented(calls)
  {
    if i < |calls| {
      PostedGrows(calls[..|calls| - 1], i);
      assert calls[..|calls| - 1][..i] == calls[..i];
    } else {
      assert calls[..i] == calls;
    }
  }

  lemma LikesStep(db: Db, calls: seq<Tx>, tx: Tx)
    requires LikesTold(db, calls) && PostsTold(db, calls)
    ensures LikesTold(ClientStep(db, tx), calls + [tx])
  {
    var db' := ClientStep(db, tx);
    forall u, p ensures LikeRow(p, u) in db'.likes <==> Likes(calls + [tx], u, p) {
      LikesSnoc(calls, tx, u, p);
      if Likes(calls, u, p) { LikesExist(calls, u, p); }
    }
  }

  lemma DeletedSnoc(calls: seq<Tx>, tx: Tx, p: int)
    ensures Deleted(calls + [tx], p) <==> Deleted(calls, p) || (tx == SoftDelete(p) && Exists(calls, p))
  {
    var calls' := calls + [tx];
    Snoc(calls, tx);
    if Deleted(calls, p) {
      var j :| 0 <= j < |calls| && calls[j] == SoftDelete(p) && Exists(calls[..j], p);
      assert calls'[j] == SoftDelete(p);
    }
    if tx == SoftDelete(p) && Exists(calls, p) {
      assert calls'[|calls|] == SoftDelete(p);
    }
  }

  lemma DeletedExists(calls: seq<Tx>, p: int)
    requires Deleted(calls, p)
    ensures Exists(calls, p)
  {
    var j :| 0 <= j < |calls| && calls[j] == SoftDelete(p) && Exists(calls[..j], p);
    PostedGrows(calls, j);
  }

  lemma PostsStep(db: Db, calls: seq<Tx>, tx: Tx)
    requires PostsTold(db, calls)
    ensures PostsTold(ClientStep(db, tx), calls + [tx])
  {
    var db', calls' := ClientStep(db, tx), calls + [tx];
    Snoc(calls, tx);
    forall p | p in db'.posts ensures db'.posts[p].deleted <==> Deleted(calls', p) {
      DeletedSnoc(calls, tx, p);
      if Deleted(calls, p) { DeletedExists(calls, p); }
    }
    forall i, p | 0 <= i < |calls'| && Creates(calls', i, p)
      ensures p in db'.posts && db'.posts[p].userID == calls'[i].author
      ensures db'.posts[p].content == calls'[i].text && db'.posts[p].createdAt == calls'[i].at
    {
      if i < |calls| { CreatedBefore(db, calls, i, p); }
    }
  }

  lemma CreatedBefore(db: Db, calls: seq<Tx>, i: nat, p: int)
    requires PostsTold(db, calls) && i < |calls| && Creates(calls, i, p)
    ensures p in db.posts && p < db.nextPost && db.posts[p].userID == calls[i].author
    ensures db.posts[p].content == calls[i].text && db.posts[p].createdAt == calls[i].at
  {
  }

  lemma StandsSnoc(calls: seq<Tx>, tx: Tx, i: nat, c: int)
    requires i <= |calls|
    ensures Stands(calls + [tx], i, c) <==>
            if i < |calls| then Stands(calls, i, c) && !IsRemoval(tx, c)
            else tx.Comment? && Exists(calls, tx.postID) && c == Commented(calls) + 1
  {
    var calls' := calls + [tx];
    Snoc(calls, tx);
    if i < |calls| {
      assert calls'[|calls|] == tx;
      assert forall j :: i < j < |calls| ==> calls'[j] == calls[j];
    }
  }

  lemma CommentsStep(db: Db, calls: seq<Tx>, tx: Tx)
    requires CommentsTold(db, calls) && PostsTold(db, calls)
    ensures CommentsTold(ClientStep(db, tx), calls + [tx])
  {
    var db', calls' := ClientStep(db, tx), calls + [tx];
    Snoc(calls, tx);
    forall i, c | 0 <= i < |calls'| && Stands(calls', i, c)
      ensures c in db'.comments
      ensures var t := calls'[i]; db'.comments[c] == CommentRow(c, t.postID, t.uid, t.content, t.now)
    {
      StandsSnoc(calls, tx, i, c);
    }
    forall c | c in db'.comments
      ensures 1 <= c <= Commented(calls') && exists i :: 0 <= i < |calls'| && Stands(calls', i, c)
    {
      if c in db.comments && !IsRemoval(tx, c) {
        var i :| 0 <= i < |calls| && Stands(calls, i, c);
        StandsSnoc(calls, tx, i, c);
      } else {
        StandsSnoc(calls, tx, |calls|, c);
      }
    }
  }

  /** Nothing but counts and the dedup table differs. */
  ghost predicate MovesCounts(db: Db, db': Db) {
    && db' == db.(posts := db'.posts, processed := db'.processed) && db'.posts.Keys == db.posts.Keys
    && forall p :: p in db.posts ==>
         db'.posts[p] == db.posts[p].(likeCount := db'.posts[p].likeCount, commentCount := db'.posts[p].commentCount)
  }

  lemma ApplyMoves(db: Db, id: nat, e: CountEvent)
    ensures ApplyTx(db, id, e).Ok? ==> MovesCounts(db, ApplyTx(db, id, e).value)
  {
  }

  /** A step that is no client's changes nothing the calls tell. */
  lemma OtherStep(s: Sys, a: Action)
    requires !a.Client?
    ensures var db, db' := s.db, Step(s, a).db; db' == db.(marked := db'.marked) || MovesCounts(db, db')
  {
    if a.Consume? && CanConsume(s) { ApplyMoves(s.db, s.inbox[0].id, s.inbox[0].body); }
  }

  lemma OtherKeeps(db: Db, db': Db, calls: seq<Tx>)
    requires LikesTold(db, calls) && CommentsTold(db, calls) && PostsTold(db, calls)
    requires db' == db.(marked := db'.marked) || MovesCounts(db, db')
    ensures LikesTold(db', calls) && CommentsTold(db', calls) && PostsTold(db', calls)
  {
  }

  /** After every run the tables hold exactly what the calls tell: likes, comments with their contents, and
      posts with theirs, deleted or not. */
  lemma {:induction false} TablesTold(trace: seq<Action>)
    ensures var db, calls := Run(Init(), trace).db, Calls(trace);
            LikesTold(db, calls) && CommentsTold(db, calls) && PostsTold(db, calls)
  {
    if trace != [] {
      var front, a := trace[..|trace| - 1], trace[|trace| - 1];
      var s := Run(Init(), front);
      TablesTold(front);
      if a.Client? {
        LikesStep(s.db, Calls(front), a.tx);
        CommentsStep(s.db, Calls(front), a.tx);
        PostsStep(s.db, Calls(front), a.tx);
      } else {
        OtherStep(s, a);
        OtherKeeps(s.db, Step(s, a).db, Calls(front));
        assert Calls(trace) == Calls(front);
      }
    }
  }

  // ---------- Which calls are recorded as events ----------

  /** Clients alone write events: a like that is new, an unlike that takes one back, a comment on an existing
      post, and the removal of a comment that stands, each in its own column and direction. */
  lemma CallEmits(trace: seq<Action>, tx: Tx)
    ensures var calls, rows := Calls(trace), Run(Init(), trace).db.outbox;
            var rows' := Step(Run(Init(), trace), Client(tx)).db.outbox;
            match tx
            case Like(u, p, serial) =>
              rows' == rows + if Exists(calls, p) && !Likes(calls, u, p)
                              then [OutboxRow(serial, LikeCreated, CountEvent(p, LikeCount, 1))] else []
            case Unlike(u, p, serial) =>
              rows' == rows + if Likes(calls, u, p)
                              then [OutboxRow(serial, LikeRemoved, CountEvent(p, LikeCount, -1))] else []
            case Comment(u, p, _, _, serial) =>
              rows' == rows + if Exists(calls, p)
                              then [OutboxRow(serial, CommentCreated, CountEvent(p, CommentCount, 1))] else []
            case DeleteComment(c, serial) =>
              && ((forall i :: 0 <= i < |calls| ==> !Stands(calls, i, c)) ==> rows' == rows)
              && (forall i :: 0 <= i < |calls| && Stands(calls, i, c) ==>
                    rows' == rows + [OutboxRow(serial, CommentDeleted, CountEvent(calls[i].postID, CommentCount, -1))])
            case _ => rows' == rows
  {
    TablesTold(trace);
    if tx.Unlike? && Likes(Calls(trace), tx.uid, tx.postID) { LikesExist(Calls(trace), tx.uid, tx.postID); }
  }

  // ---------- What a drained pipeline shows ----------

  lemma {:induction false} AsManyRows(p: int, users: set<int>)
    ensures |set u | u in users :: LikeRow(p, u)| == |users|
  {
    if users != {} {
      SomeMember(users);
      var u :| u in users;
      AsManyRows(p, users - {u});
      var all, rest := set x | x in users :: LikeRow(p, x), set x | x in users - {u} :: LikeRow(p, x);
      assert all == rest + {LikeRow(p, u)};
    }
  }

  lemma LikersAreRows(db: Db, calls: seq<Tx>, p: int, likers: set<int>)
    requires LikesTold(db, calls) && forall u :: u in likers <==> Likes(calls, u, p)
    ensures |LikesOf(db, p)| == |likers|
  {
    forall l ensures l in LikesOf(db, p) <==> l in set u | u in likers :: LikeRow(p, u) {
      if l in db.likes && l.postID == p { assert Likes(calls, l.userID, p); }
    }
    assert LikesOf(db, p) == set u | u in likers :: LikeRow(p, u);
    AsManyRows(p, likers);
  }

  lemma {:induction false} SameCalls(before: seq<Action>, after: seq<Action>)
    requires forall i :: 0 <= i < |after| ==> !after[i].Client?
    ensures Calls(before + after) == Calls(before)
  {
    if after == [] {
      assert before + after == before;
    } else {
      var front := after[..|after| - 1];
      assert (before + after)[..|before + after| - 1] == before + front;
      SameCalls(before, front);
    }
  }

  lemma {:induction false} FailureFreeSteps(s: Sys, trace: seq<Action>)
    requires Drain.FailureFree(s, trace)
    ensures forall i :: 0 <= i < |trace| ==> !trace[i].Client? && (trace[i].Consume? ==> trace[i].fate.Committed?)
    decreases |trace|
  {
    if trace != [] {
      FailureFreeSteps(Step(s, trace[0]), trace[1..]);
      assert trace == [trace[0]] + trace[1..];
    }
  }

  lemma OneRun(before: seq<Action>, a: Action, after: seq<Action>)
    ensures Run(Init(), before + ([a] + after)) == Run(Step(Run(Init(), before), a), after)
  {
    var s := Run(Init(), before);
    RunConcat(Init(), before, [a] + after);
    RunConcat(s, [a], after);
    assert [a][..0] == [] && Run(s, [a]) == Step(s, a);
  }

  ghost predicate NoneFails(trace: seq<Action>) {
    forall i :: 0 <= i < |trace| && trace[i].Consume? ==> trace[i].fate.Committed?
  }

  lemma NoneFailsJoined(before: seq<Action>, after: seq<Action>)
    requires NoneFails(before) && NoneFails(after)
    ensures NoneFails(before + after)
  {
  }

  /** The run up to a restart and the failure-free schedule after it, as one run. */
  lemma Drained(before: seq<Action>, after: seq<Action>)
    requires Drain.FailureFree(Step(Run(Init(), before), Restart), after) && NoneFails(before)
    ensures var trace := before + ([Restart] + after);
            && Run(Init(), trace) == Run(Step(Run(Init(), before), Restart), after)
            && Calls(trace) == Calls(before) && Run(Init(), trace).dlq == []
  {
    OneRun(before, Restart, after);
    FailureFreeSteps(Step(Run(Init(), before), Restart), after);
    SameCalls(before, [Restart] + after);
    assert NoneFails([Restart]) && NoneFails(after);
    NoneFailsJoined([Restart], after);
    NoneFailsJoined(before, [Restart] + after);
    Consumer.OnlyFailuresDie(before + ([Restart] + after));
  }

  /** End to end: after any run without a misattributed reply or a failed handling, whatever else went wrong,
      a restart and any failure-free schedule run to its end leave the like count of every post equal to the
      number of users whose like of it stands, and its comment count to the number of its standing comments. */
  lemma CountsAreExact(before: seq<Action>, after: seq<Action>, p: int, likers: set<int>, comments: set<int>)
    requires !Run(Init(), before).stale
    requires NoneFails(before) && Drain.FailureFree(Step(Run(Init(), before), Restart), after)
    requires forall a :: !Drain.Progress(Run(Step(Run(Init(), before), Restart), after), a)
    requires Exists(Calls(before), p)
    requires forall u :: u in likers <==> Likes(Calls(before), u, p)
    requires forall c :: c in comments <==>
               exists i :: 0 <= i < |Calls(before)| && Stands(Calls(before), i, c) && Calls(before)[i].postID == p
    ensures var posts := Run(Step(Run(Init(), before), Restart), after).db.posts;
            p in posts && posts[p].likeCount == |likers| && posts[p].commentCount == |comments|
  {
    var s := Run(Init(), before);
    var trace := before + ([Restart] + after);
    Drained(before, after);
    TablesTold(trace);
    var e := Run(Init(), trace);
    assert Reachable(s);
    Drain.EventuallyExact(s, after, p, LikeCount);
    Drain.EventuallyExact(s, after, p, CommentCount);
    LikersAreRows(e.db, Calls(trace), p, likers);
    CommentsAreRows(e.db, Calls(trace), p, comments);
  }

  lemma CommentsAreRows(db: Db, calls: seq<Tx>, p: int, comments: set<int>)
    requires CommentsTold(db, calls)
    requires forall c :: c in comments <==>
               exists i :: 0 <= i < |calls| && Stands(calls, i, c) && calls[i].postID == p
    ensures CommentsOf(db, p) == comments
  {
    forall c ensures c in CommentsOf(db, p) <==> c in comments {
      if c in db.comments {
        var i :| 0 <= i < |calls| && Stands(calls, i, c);
      }
    }
  }
}
