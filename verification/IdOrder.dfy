/** When ids that commit out of order lead to events applied out of order: from a pipeline at rest, exactly
    when the rows not yet marked did not commit in the order of their ids
    (internal/repository/outbox_repo.go:31-37). */
module IdOrder {
  import opened Model
  import opened Interactions
  import opened Pipeline
  import opened Delivery
  import opened StaleConfirmation
  import opened Snapshot
  import opened Drain
  import opened TimeoutLoss
  import opened GivingUp

  /** Nothing in flight on an open channel without timeouts, and the marked events are the applied ones. */
  ghost predicate AtRest(s: Sys) {
    && Inv(s) && s.ch.open && s.ch.timeouts == 0 && s.relay == Idle && s.queue == [] && s.ch.wire == [] && s.inbox == []
    && s.db.marked == s.db.processed == Below(|s.db.marked|)
  }

  /** Only relay, broker, consumer and failures: no client commits. */
  predicate NoCommits(trace: seq<Action>) {
    forall i :: 0 <= i < |trace| ==> !trace[i].Client?
  }

  // ---------- One event goes all the way through, and the round ends ----------

  const TAKE: seq<Action> := [RelayFetch, RelaySend(true), BrokerAccept, RelayConfirm]
  const REST: seq<Action> := [RelaySend(false), RelayMark(true), Deliver, Consume(Committed)]

  lemma RestIsIdle(s: Sys)
    requires AtRest(s)
    ensures s.ch.confirms == [] && s.unacked == 0 && s.verdict == None
  {
  }

  /** Fetched and sent. */
  lemma Sent(s: Sys, ids: seq<nat>, m: Message)
    requires AtRest(s) && ids == FetchPending(s.db, BATCH) && ids != [] && ids[0] < |s.db.outbox|
              && m == MessageOf(s.db, ids[0])
    ensures var s1 := FetchStep(s);
            SendStep(s1, true) == s.(relay := Looping(ids, [], true), shuffled := s1.shuffled,
                                     ch := s.ch.(sent := s.ch.sent + [m], wire := [Publishing(|s.ch.sent|, m)]))
  {
    assert FetchStep(s).relay == Looping(ids, [], false);
  }

  lemma Accepted(s: Sys, m: Message)
    requires s.ch.open && s.queue == [] && s.ch.confirms == [] && |s.ch.wire| == 1 && s.ch.wire[0].msg == m
    ensures AcceptStep(s) == s.(ch := s.ch.(wire := [], confirms := [Confirmation(s.ch.wire[0].tag, true)]),
              queue := [m])
  {
    AllKeysBound(m.key);
  }

  /** Fetched, published and confirmed. */
  lemma Taken(s: Sys, ids: seq<nat>) returns (ch: Channel, shuffled: bool)
    requires AtRest(s) && ids == FetchPending(s.db, BATCH) && ids != [] && ids[0] < |s.db.outbox|
    ensures ch.open && ch.timeouts == 0 && ch.wire == [] && ch.confirms == []
    ensures Run(s, TAKE) == s.(relay := Looping(ids[1..], [ids[0]], false), ch := ch, shuffled := shuffled,
                               queue := [MessageOf(s.db, ids[0])])
  {
    RestIsIdle(s);
    var m := MessageOf(s.db, ids[0]);
    var s1 := FetchStep(s);
    shuffled := s1.shuffled;
    var s2 := SendStep(s1, true);
    Sent(s, ids, m);
    var s3 := AcceptStep(s2);
    Accepted(s2, m);
    ch := s3.ch.(confirms := []);
    ReadOwnReply(s3, ids, m);
    RunFour(s, TAKE, s1, s2, s3);
  }

  lemma ReadOwnReply(s: Sys, ids: seq<nat>, m: Message)
    requires ids != [] && s.relay == Looping(ids, [], true) && s.ch.sent != []
    requires s.ch.confirms == [Confirmation(|s.ch.sent| - 1, true)] && s.ch.sent[|s.ch.sent| - 1] == m && m.id == ids[0]
    ensures ConfirmStep(s) == s.(relay := Looping(ids[1..], [ids[0]], false), ch := s.ch.(confirms := []))
  {
    assert [] + [ids[0]] == [ids[0]];
  }

  /** The round ends here and is marked. */
  lemma EndedHere(s: Sys, i: nat, rest: seq<nat>)
    requires s.relay == Looping(rest, [i], false) && (rest != [] ==> rest[0] < |s.db.outbox|)
    ensures MarkStep(SendStep(s, false), true) == s.(relay := Idle, db := MarkProcessed(s.db, [i]))
  {
    var s1 := SendStep(s, false);
    assert s1 == s.(relay := s1.relay) && Done(s1.relay) == [i] && CanMark(s1);
    MarkAfterStop(s1);
  }

  lemma DeliveredHere(s: Sys, m: Message)
    requires s.ch.open && s.ch.confirms == [] && s.queue == [m] && s.inbox == [] && s.unacked == 0
    ensures DeliverStep(s) == s.(inbox := [m], unacked := 1)
  {
  }

  lemma AppliedHere(s: Sys, m: Message)
    requires s.inbox == [m] && s.verdict == None && ApplyTx(s.db, m.id, m.body).Ok?
    ensures ConsumeStep(s, Committed) == s.(verdict := Some(true), db := ApplyTx(s.db, m.id, m.body).value)
  {
  }

  /** And the event delivered and applied. */
  lemma Marked(s: Sys, i: nat, rest: seq<nat>, m: Message)
    requires s.relay == Looping(rest, [i], false) && (rest != [] ==> rest[0] < |s.db.outbox|)
    requires s.ch.open && s.ch.confirms == [] && s.queue == [m] && s.inbox == [] && s.unacked == 0 && s.verdict == None
    requires m.id == i && ApplyTx(MarkProcessed(s.db, [i]), i, m.body).Ok?
    ensures Run(s, REST) == s.(relay := Idle, inbox := [m], unacked := 1, verdict := Some(true),
                               db := ApplyTx(MarkProcessed(s.db, [i]), i, m.body).value)
  {
    var s1 := SendStep(s, false);
    var s2 := MarkStep(s1, true);
    EndedHere(s, i, rest);
    DeliveredHere(s2, m);
    var s3 := DeliverStep(s2);
    AppliedHere(s3, m);
    RunFour(s, REST, s1, s2, s3);
  }

  const THROUGH: seq<Action> := TAKE + (REST + [Settle])

  lemma CalmThrough()
    ensures AllCalm(THROUGH) && NoCommits(THROUGH)
  {
  }

  /** The tables after that. */
  function Through(db: Db, i: nat): Db
    requires i < |db.outbox|
  {
    var r := ApplyTx(MarkProcessed(db, [i]), i, db.outbox[i].event);
    if r.Ok? then r.value else db
  }

  lemma SettledHere(s: Sys, m: Message)
    requires s.ch.open && s.queue == [m] && s.inbox == [m] && s.unacked == 1 && s.verdict == Some(true)
    ensures SettleStep(s) == s.(inbox := [], queue := [], unacked := 0, verdict := None)
  {
  }

  lemma Finished(s: Sys, i: nat, rest: seq<nat>, m: Message)
    requires s.relay == Looping(rest, [i], false) && (rest != [] ==> rest[0] < |s.db.outbox|)
    requires s.ch.open && s.ch.confirms == [] && s.queue == [m] && s.inbox == [] && s.unacked == 0 && s.verdict == None
    requires m.id == i && ApplyTx(MarkProcessed(s.db, [i]), i, m.body).Ok?
    ensures Run(s, REST + [Settle]) ==
            s.(relay := Idle, queue := [], db := ApplyTx(MarkProcessed(s.db, [i]), i, m.body).value)
  {
    Marked(s, i, rest, m);
    var s2 := Run(s, REST);
    SettledHere(s2, m);
    RunOne(s2, Settle);
    RunConcat(s, REST, [Settle]);
  }

  lemma RunThrough(s: Sys, i: nat) returns (e: Sys)
    requires AtRest(s) && FetchPending(s.db, BATCH) != [] && i == FetchPending(s.db, BATCH)[0]
    requires i < |s.db.outbox| && i !in s.db.marked
    ensures e == Run(s, THROUGH) == s.(db := Through(s.db, i), ch := e.ch, shuffled := e.shuffled)
    ensures e.ch.open && e.ch.timeouts == 0 && e.ch.wire == []
  {
    var ids := FetchPending(s.db, BATCH);
    RestIsIdle(s);
    MarkedApplies(s.db, i);
    NextInRange(s.db);
    var ch, shuffled := Taken(s, ids);
    Finished(Run(s, TAKE), i, ids[1..], MessageOf(s.db, i));
    RunConcat(s, TAKE, REST + [Settle]);
    e := Run(s, THROUGH);
  }

  /** So the pending event with the smallest id is marked and applied, and nothing else is in flight. */
  lemma GoesThrough(s: Sys) returns (e: Sys, i: nat)
    requires AtRest(s) && !AllMarked(s.db)
    ensures e == Run(s, THROUGH) && Inv(e) && e.db.outbox == s.db.outbox && e.stale == s.stale && e.nacked == s.nacked
    ensures i < |s.db.outbox| && i !in s.db.marked
    ensures forall j: nat :: j < |s.db.outbox| && j !in s.db.marked ==> s.db.outbox[i].serial <= s.db.outbox[j].serial
    ensures e.db.marked == s.db.marked + {i} == e.db.processed
    ensures e.ch.open && e.ch.timeouts == 0 && e.relay == Idle && e.queue == [] && e.ch.wire == [] && e.inbox == []
  {
    i := SmallestFirst(s.db);
    e := RunThrough(s, i);
    MarkedApplies(s.db, i);
    RunKeeps(s, THROUGH);
  }

  lemma SmallestFirst(db: Db) returns (i: nat)
    requires !AllMarked(db)
    ensures FetchPending(db, BATCH) != [] && i == FetchPending(db, BATCH)[0]
    ensures i < |db.outbox| && i !in db.marked
    ensures forall j: nat :: j < |db.outbox| && j !in db.marked ==> db.outbox[i].serial <= db.outbox[j].serial
  {
    var ids := FetchPending(db, BATCH);
    FetchesNothing(db);
    FetchFacts(db, BATCH);
    i := ids[0];
    assert i in ids;
    forall j: nat | j < |db.outbox| && j !in db.marked ensures db.outbox[i].serial <= db.outbox[j].serial {
      if j in ids {
        var k :| 0 <= k < |ids| && ids[k] == j;
      } else {
        assert SerialOf(db.outbox, i) <= SerialOf(db.outbox, j);
      }
    }
  }

  lemma NextInRange(db: Db)
    ensures var ids := FetchPending(db, BATCH); |ids| > 1 ==> ids[1..][0] < |db.outbox|
  {
    FetchFacts(db, BATCH);
    var ids := FetchPending(db, BATCH);
    assert |ids| > 1 ==> ids[1..][0] == ids[1] && ids[1] in ids;
  }

  lemma MarkedApplies(db: Db, i: nat)
    requires Balanced(db) && i < |db.outbox| && i !in db.processed
    ensures var r := ApplyTx(MarkProcessed(db, [i]), i, db.outbox[i].event);
            && r.Ok? && r.value.marked == db.marked + {i} && r.value.processed == db.processed + {i}
            && r.value.outbox == db.outbox
  {
    assert Proper(db.outbox[i]);
    assert IdSet([i]) == {i};
  }

  // ---------- The exact condition ----------

  lemma RestInOrder(s: Sys)
    requires AtRest(s)
    ensures InOrder(s)
  {
    RestIsIdle(s);
    IdleInOrder(s, |s.db.marked|);
  }

  lemma MoreBelow(m: nat)
    ensures Below(m) + {m} == Below(m + 1) && |Below(m)| == m
  {
    BelowSize(m);
  }

  /** Rows from m on are out of order, but row m is not to blame. */
  lemma LaterDisorder(rows: seq<OutboxRow>, m: nat)
    requires !OrderedFrom(rows, m) && forall j :: m <= j < |rows| ==> rows[m].serial <= rows[j].serial
    ensures !OrderedFrom(rows, m + 1)
  {
  }

  /** If the rows not yet marked did not commit in the order of their ids, running on without any commit,
      timeout, misattributed reply or event given up applies an event before an earlier one. */
  lemma {:induction false} DisorderOvertakes(s: Sys) returns (trace: seq<Action>)
    requires AtRest(s) && !OrderedFrom(s.db.outbox, |s.db.marked|)
    ensures AllCalm(trace) && NoCommits(trace)
    ensures var e := Run(s, trace); Overtaken(e.db) && e.stale == s.stale && e.nacked == s.nacked
    decreases |s.db.outbox| - |s.db.marked|
  {
    var e, ordered := OneThrough(s);
    CalmThrough();
    if ordered {
      var rest := DisorderOvertakes(e);
      RunConcat(s, THROUGH, rest);
      trace := THROUGH + rest;
    } else {
      trace := THROUGH;
    }
  }

  /** Either the next event in commit order was taken, and the disorder lies ahead, or another one was. */
  lemma OneThrough(s: Sys) returns (e: Sys, ordered: bool)
    requires AtRest(s) && !OrderedFrom(s.db.outbox, |s.db.marked|)
    ensures e == Run(s, THROUGH) && e.stale == s.stale && e.nacked == s.nacked
    ensures ordered ==> AtRest(e) && !OrderedFrom(e.db.outbox, |e.db.marked|)
                        && |e.db.outbox| - |e.db.marked| < |s.db.outbox| - |s.db.marked|
                            && |e.db.marked| <= |e.db.outbox|
    ensures !ordered ==> Overtaken(e.db)
  {
    var m, i := |s.db.marked|, 0;
    NotAllMarked(s.db);
    e, i := GoesThrough(s);
    ordered := i == m;
    MoreBelow(m);
    if ordered {
      MoreBelow(m + 1);
      LaterDisorder(s.db.outbox, m);
    } else {
      assert m !in e.db.processed && i in e.db.processed && m < i;
    }
  }

  lemma NotAllMarked(db: Db)
    requires db.marked == Below(|db.marked|) && !OrderedFrom(db.outbox, |db.marked|)
    ensures |db.marked| < |db.outbox| && !AllMarked(db)
  {
    assert |db.marked| !in db.marked;
  }

  lemma {:induction false} NoCommitsSameRows(s: Sys, trace: seq<Action>)
    requires NoCommits(trace)
    ensures Run(s, trace).db.outbox == s.db.outbox
  {
    if trace != [] {
      NoCommitsSameRows(s, trace[..|trace| - 1]);
      SameRows(Run(s, trace[..|trace| - 1]), trace[|trace| - 1]);
    }
  }

  /** From a pipeline at rest, with the past forgotten: without further commits, misattributed replies and
      events given up, some continuation applies an event before an earlier one iff the rows not yet marked
      did not commit in the order of their ids. */
  lemma DisorderIff(s: Sys)
    requires AtRest(s) && Orderly(s)
    ensures (exists trace :: var e := Run(s, trace); NoCommits(trace) && !e.stale && !e.nacked && Overtaken(e.db))
            <==> !OrderedFrom(s.db.outbox, |s.db.marked|)
  {
    if OrderedFrom(s.db.outbox, |s.db.marked|) {
      forall trace | NoCommits(trace) && !Run(s, trace).stale && !Run(s, trace).nacked
        ensures !Overtaken(Run(s, trace).db)
      {
        RestInOrder(s);
        NoCommitsSameRows(s, trace);
        IdsKeepOrder(s, trace);
      }
    } else {
      var trace := DisorderOvertakes(s);
      var e := Run(s, trace);
      assert NoCommits(trace) && !e.stale && !e.nacked && Overtaken(e.db);
    }
  }
}
