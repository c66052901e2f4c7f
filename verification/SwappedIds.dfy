/** A run that shows why the snapshot property asks for rows to commit in the order of their ids
    (internal/repository/outbox_repo.go:31-37). */
module SwappedIds {
  import opened Model
  import opened Interactions
  import opened Pipeline
  import opened StaleConfirmation
  import opened Snapshot
  import opened GivingUp

  /** Two posts, each liked once.  The first like was given the larger id. */
  const LIKES: seq<Action> :=
    [Client(CreatePost(1, "", 0)), Client(CreatePost(1, "", 0)), Client(Like(2, 1, 2)), Client(Like(2, 2, 1))]

  /** The tables after the likes. */
  ghost predicate Swapped(db: Db) {
    && db.posts == map[1 := Post(1, 1, "", 0, 0, 0, false), 2 := Post(2, 1, "", 0, 0, 0, false)]
    && db.outbox == [OutboxRow(2, LikeCreated, CountEvent(1, LikeCount, 1)),
        OutboxRow(1, LikeCreated, CountEvent(2, LikeCount, 1))]
    && db.marked == {} && db.processed == {}
  }

  lemma TwoLiked()
    ensures var s := Run(Init(), LIKES); Swapped(s.db) && s == Init().(db := s.db)
  {
    var s1 := Step(Init(), LIKES[0]);
    var s2 := Step(s1, LIKES[1]);
    var s3 := Step(s2, LIKES[2]);
    assert s2.db.posts == map[1 := Post(1, 1, "", 0, 0, 0, false), 2 := Post(2, 1, "", 0, 0, 0, false)];
    assert s3.db.outbox == [OutboxRow(2, LikeCreated, CountEvent(1, LikeCount, 1))];
    assert LikeRow(2, 2) !in s3.db.likes;
    RunFour(Init(), LIKES, s1, s2, s3);
  }

  lemma SecondFirst(db: Db)
    requires Swapped(db)
    ensures FetchPending(db, BATCH) == [1, 0]
  {
    assert PendingAmong(db.outbox, db.marked, 1) == [0];
    assert InsertBySerial(db.outbox, 1, [0]) == [1] + [0];
    assert Pending(db) == [1, 0];
  }

  const APPLY_ONE: seq<Action> := LIKES + ([RelayFetch, RelaySend(true)] + DELIVER)

  /** The second like is applied and the first is not. */
  lemma SecondApplied()
    ensures var e := Run(Init(), APPLY_ONE);
            && e.db.outbox == Run(Init(), LIKES).db.outbox
            && Overtaken(e.db) && !e.stale && !e.nacked
            && 1 in e.db.posts && 2 in e.db.posts && Count(e.db, 1, LikeCount) == 0 && Count(e.db, 2, LikeCount) == 1
  {
    var s := Run(Init(), LIKES);
    TwoLiked();
    SecondFirst(s.db);
    var m := MessageOf(s.db, 1);
    var s2 := SendStep(FetchStep(s), true);
    assert [1, 0][0] != |s.db.marked|;
    assert s2 == s.(shuffled := true, relay := Looping([1, 0], [], true),
        ch := Channel(true, [m], [Publishing(0, m)], [], 0));
    RunTwo(s, RelayFetch, RelaySend(true));
    OneGoesThrough(s2, m);
    RunConcat(s, [RelayFetch, RelaySend(true)], DELIVER);
    RunConcat(Init(), LIKES, [RelayFetch, RelaySend(true)] + DELIVER);
    var e := Run(s2, DELIVER);
    assert 1 in e.db.processed && 0 !in e.db.processed;
  }

  lemma {:induction false} OutboxBefore(trace: seq<Action>, j: nat)
    requires j <= |trace|
    ensures Run(Init(), trace[..j]).db.outbox <= Run(Init(), trace).db.outbox
  {
    if j == |trace| {
      assert trace[..j] == trace;
    } else {
      var before := trace[..|trace| - 1];
      OutboxBefore(before, j);
      OutboxGrows(Run(Init(), before), trace[|trace| - 1]);
      assert before[..j] == trace[..j];
    }
  }

  /** The totals of the three prefixes of the outbox. */
  lemma TotalsOf(rows: seq<OutboxRow>, all: seq<OutboxRow>)
    requires rows <= all
    requires all == [OutboxRow(2, LikeCreated, CountEvent(1, LikeCount, 1)),
              OutboxRow(1, LikeCreated, CountEvent(2, LikeCount, 1))]
    ensures Total(rows, 1, LikeCount) == (if |rows| > 0 then 1 else 0)
              && Total(rows, 2, LikeCount) == if |rows| > 1 then 1 else 0
  {
    if |rows| == 1 {
      assert rows[..0] == [];
    } else if |rows| == 2 {
      assert rows[..1][..0] == [] && rows[..1] == [all[0]];
    }
  }

  /** Nothing is misattributed or given up, and yet the counts, 0 for post 1 and 1 for post 2, are the numbers
      of likes at no moment of the run. */
  lemma IdOrderNeeded(j: nat)
    requires j <= |APPLY_ONE|
    ensures var e, then_ := Run(Init(), APPLY_ONE), Run(Init(), APPLY_ONE[..j]).db;
            && !e.stale && !e.nacked && 1 in e.db.posts && 2 in e.db.posts
            && !(Count(e.db, 1, LikeCount) == Rows(then_, 1, LikeCount)
                && Count(e.db, 2, LikeCount) == Rows(then_, 2, LikeCount))
  {
    SecondApplied();
    TwoLiked();
    var s := Run(Init(), APPLY_ONE[..j]);
    InitInv();
    RunKeeps(Init(), APPLY_ONE[..j]);
    OutboxBefore(APPLY_ONE, j);
    TotalsOf(s.db.outbox, Run(Init(), APPLY_ONE).db.outbox);
    RowsAreTotal(s.db, 1, LikeCount);
    RowsAreTotal(s.db, 2, LikeCount);
  }
}
