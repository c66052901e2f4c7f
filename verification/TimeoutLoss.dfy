/** When a loss is possible: on an open channel, exactly when some Publish on it has timed out
    (internal/mq/mq.go:116-127).  Nothing further has to go wrong before a Publish is about to take
    another event's reply for its own. */
module TimeoutLoss {
  import opened Model
  import opened Interactions
  import opened Pipeline
  import opened Delivery
  import opened StaleConfirmation
  import opened Drain

  /** No further timeout, disconnection or restart. */
  predicate Calm(a: Action) {
    !a.RelayTimeout? && !a.ChannelClose? && !a.Restart?
  }

  predicate AllCalm(trace: seq<Action>) {
    forall i :: 0 <= i < |trace| ==> Calm(trace[i])
  }

  // ---------- Without a timeout nothing can go wrong ----------

  lemma CalmStep(s: Sys, a: Action)
    requires Fifo(s) && s.ch.open && s.ch.timeouts == 0 && Calm(a)
    ensures var s' := Step(s, a); s'.ch.open && s'.ch.timeouts == 0 && s'.stale == s.stale
  {
    if a.RelayConfirm? { OwnReply(s); }
  }

  lemma {:induction false} CalmRun(s: Sys, trace: seq<Action>)
    requires Inv(s) && s.ch.open && s.ch.timeouts == 0 && AllCalm(trace)
    ensures var e := Run(s, trace); e.ch.open && e.ch.timeouts == 0 && e.stale == s.stale
  {
    if trace != [] {
      CalmRun(s, trace[..|trace| - 1]);
      RunKeeps(s, trace[..|trace| - 1]);
      CalmStep(Run(s, trace[..|trace| - 1]), trace[|trace| - 1]);
    }
  }

  lemma ReachableOn(s: Sys, trace: seq<Action>)
    requires Reachable(s)
    ensures Reachable(Run(s, trace))
  {
    var before :| s == Run(Init(), before);
    RunConcat(Init(), before, trace);
  }

  // ---------- After a timeout it can ----------

  function Rejections(cs: seq<Confirmation>): nat {
    if cs == [] then 0 else (if cs[0].ack then 0 else 1) + Rejections(cs[1..])
  }

  lemma {:induction false} RejectionsAppend(cs: seq<Confirmation>, c: Confirmation)
    ensures Rejections(cs + [c]) == Rejections(cs) + if c.ack then 0 else 1
  {
    if cs == [] {
      assert [c][1..] == [] && cs + [c] == [c];
    } else {
      RejectionsAppend(cs[1..], c);
      assert (cs + [c])[1..] == cs[1..] + [c];
    }
  }

  lemma ProgressAddsNoRejection(s: Sys, a: Action)
    requires s.ch.open && Progress(s, a)
    ensures Rejections(Step(s, a).ch.confirms) <= Rejections(s.ch.confirms) && Calm(a)
  {
    if a.BrokerAccept? { RejectionsAppend(s.ch.confirms, Confirmation(s.ch.wire[0].tag, true)); }
  }

  lemma {:induction false} DrainAddsNoRejection(s: Sys, trace: seq<Action>)
    requires Inv(s) && s.ch.open && FailureFree(s, trace)
    ensures Rejections(RunForward(s, trace).ch.confirms) <= Rejections(s.ch.confirms) && AllCalm(trace)
    decreases |trace|
  {
    if trace != [] {
      ProgressDecreases(s, trace[0]);
      ProgressAddsNoRejection(s, trace[0]);
      DrainAddsNoRejection(Step(s, trace[0]), trace[1..]);
    }
  }

  /** With everything else marked, a new event is fetched alone. */
  lemma FetchOnlyNew(db: Db, n: nat)
    requires |db.outbox| == n + 1 && db.marked == Below(n)
    ensures FetchPending(db, BATCH) == [n] && Continues(db, [n])
  {
    var ids := FetchPending(db, BATCH);
    FetchFacts(db, BATCH);
    IdSetSize(ids);
    assert n in ids;
    assert IdSet(ids) == {n};
    BelowSize(n);
  }

  lemma MarksAreAll(db: Db)
    requires WellFormed(db) && AllMarked(db)
    ensures db.marked == Below(|db.outbox|)
  {
  }

  /** The next auto-increment id. */
  function NextSerial(rows: seq<OutboxRow>): (n: nat)
    ensures forall i :: 0 <= i < |rows| ==> rows[i].serial < n
  {
    if rows == [] then 1
    else
      var n, last := NextSerial(rows[..|rows| - 1]), rows[|rows| - 1];
      if last.serial < n then n else last.serial + 1
  }

  /** A new post, a like of it, and the like's event is out while the old replies still lie unread. */
  function NewEvent(s: Sys): seq<Action> {
    [Client(CreatePost(1, "", 0)), Client(Like(1, s.db.nextPost, NextSerial(s.db.outbox))), RelayFetch, RelaySend(true)]
  }

  function NewDb(db: Db): Db {
    ClientStep(ClientStep(db, CreatePost(1, "", 0)), Like(1, db.nextPost, NextSerial(db.outbox)))
  }

  lemma NewLike(db: Db)
    requires Balanced(db)
    ensures var db' := NewDb(db);
            && |db'.outbox| == |db.outbox| + 1 && db'.outbox[..|db.outbox|] == db.outbox
            && db'.outbox[|db.outbox|].serial == NextSerial(db.outbox)
            && db'.marked == db.marked && db'.processed == db.processed
  {
    assert db.nextPost !in db.posts;
    assert LikeRow(db.nextPost, 1) !in db.likes;
  }

  lemma NewEventFetched(s: Sys)
    requires Inv(s) && Published(s)
    ensures FetchStep(s.(db := NewDb(s.db))) == s.(db := NewDb(s.db), relay := Looping([|s.db.outbox|], [], false))
  {
    NewLike(s.db);
    MarksAreAll(s.db);
    FetchOnlyNew(NewDb(s.db), |s.db.outbox|);
  }

  lemma FetchedIsSent(s: Sys, n: nat)
    requires s.ch.open && s.relay == Looping([n], [], false) && n < |s.db.outbox| && s.ch.wire == []
    ensures SendStep(s, true) ==
            s.(relay := Looping([n], [], true),
               ch := s.ch.(sent := s.ch.sent + [MessageOf(s.db, n)],
                   wire := [Publishing(|s.ch.sent|, MessageOf(s.db, n))]))
  {
  }

  lemma RunNewEvent(s: Sys)
    ensures Run(s, NewEvent(s)) == SendStep(FetchStep(s.(db := NewDb(s.db))), true)
  {
    var s1 := s.(db := ClientStep(s.db, CreatePost(1, "", 0)));
    var s2 := s.(db := NewDb(s.db));
    assert Step(s1, NewEvent(s)[1]) == s2;
    RunFour(s, NewEvent(s), s1, s2, FetchStep(s2));
  }

  lemma NewEventSent(s: Sys)
    requires Inv(s) && s.ch.open && Published(s)
    ensures var db, n := NewDb(s.db), |s.db.outbox|;
            && |db.outbox| == n + 1
            && Run(s, NewEvent(s)) ==
               s.(db := db, relay := Looping([n], [], true),
                  ch := s.ch.(sent := s.ch.sent + [MessageOf(db, n)],
                      wire := [Publishing(|s.ch.sent|, MessageOf(db, n))]))
  {
    var n, db := |s.db.outbox|, NewDb(s.db);
    NewLike(s.db);
    RunNewEvent(s);
    NewEventFetched(s);
    FetchedIsSent(s.(db := db, relay := Looping([n], [], false)), n);
  }

  lemma NotYetLanded(s: Sys, n: nat)
    requires Inv(s) && n >= |s.db.outbox|
    ensures !Landed(s, n)
  {
    assert forall i :: 0 <= i < |s.queue| ==> Genuine(s.db, s.queue[i]);
    assert forall i :: 0 <= i < |s.dlq| ==> Genuine(s.db, s.dlq[i]);
  }

  /** Publishing everything takes calm steps that add no rejection to the unread replies. */
  lemma AllPublished(s: Sys) returns (trace: seq<Action>, end: Sys)
    requires Inv(s) && s.ch.open
    ensures AllCalm(trace) && end == Run(s, trace) && Inv(end) && end.ch.open && Published(end)
    ensures |end.ch.confirms| == end.ch.timeouts == s.ch.timeouts
    ensures Rejections(end.ch.confirms) <= Rejections(s.ch.confirms)
  {
    trace := DrainExists(s);
    ForwardIsRun(s, trace);
    DrainAddsNoRejection(s, trace);
    end := ScheduleDrains(s, trace);
    LeftoverReplies(end);
  }

  lemma NewEventWaits(s: Sys)
    requires Inv(s) && s.ch.open && Published(s)
    ensures AllCalm(NewEvent(s))
    ensures var e := Run(s, NewEvent(s));
            && e.ch.open && e.ch.timeouts == s.ch.timeouts && e.ch.confirms == s.ch.confirms
            && Waiting(e) && !Landed(e, e.relay.batch[0])
  {
    var n := |s.db.outbox|;
    NewLike(s.db);
    NewEventSent(s);
    NotYetLanded(s, n);
    var e := Run(s, NewEvent(s));
    assert e.db.processed == s.db.processed && e.queue == s.queue && e.dlq == s.dlq && e.relay.batch == [n];
  }

  /** Then one new event is sent, and an old reply is next to be read. */
  lemma NewEventOut(s: Sys) returns (trace: seq<Action>)
    requires Inv(s) && s.ch.open && s.ch.timeouts > 0
    ensures AllCalm(trace)
    ensures var e := Run(s, trace);
            && Inv(e) && e.ch.open && e.ch.timeouts == s.ch.timeouts
            && Waiting(e) && !Landed(e, e.relay.batch[0])
            && e.ch.confirms != [] && Rejections(e.ch.confirms) <= Rejections(s.ch.confirms)
  {
    var first, end := AllPublished(s);
    NewEventWaits(end);
    RunConcat(s, first, NewEvent(end));
    trace := first + NewEvent(end);
    RunKeeps(end, NewEvent(end));
  }

  /** From every open channel with a timeout behind it, calm steps alone lead to a Publish about to take a
      positive reply for an event that has not landed. */
  lemma {:induction false} WrongReplyReachable(s: Sys) returns (trace: seq<Action>)
    requires Inv(s) && s.ch.open && s.ch.timeouts > 0
    ensures AllCalm(trace) && WrongReply(Run(s, trace))
    decreases Rejections(s.ch.confirms), 1
  {
    trace := NewEventOut(s);
    var e := Run(s, trace);
    if !e.ch.confirms[0].ack {
      var more := NextReply(e);
      RunConcat(s, trace, more);
      trace := trace + more;
    }
  }

  /** The reply is a rejection: read it and start again with one rejection less. */
  lemma {:induction false} NextReply(e: Sys) returns (trace: seq<Action>)
    requires Inv(e) && e.ch.open && e.ch.timeouts > 0 && Waiting(e) && e.ch.confirms != [] && !e.ch.confirms[0].ack
    ensures AllCalm(trace) && WrongReply(Run(e, trace))
    decreases Rejections(e.ch.confirms), 0
  {
    StepKeeps(e, RelayConfirm);
    var rest := WrongReplyReachable(ConfirmStep(e));
    RunCons(e, RelayConfirm, rest);
    trace := [RelayConfirm] + rest;
  }

  /** So the loss of StaleConfirmation threatens exactly the channels on which a Publish has timed out. */
  lemma LossIffTimedOut(s: Sys)
    requires Reachable(s) && !s.stale && s.ch.open
    ensures (exists trace :: AllCalm(trace) && WrongReply(Run(s, trace))) <==> s.ch.timeouts > 0
  {
    ReachableInv(s);
    if s.ch.timeouts > 0 {
      var trace := WrongReplyReachable(s);
      assert AllCalm(trace) && WrongReply(Run(s, trace));
    } else {
      forall trace | AllCalm(trace) ensures !WrongReply(Run(s, trace)) {
        CalmRun(s, trace);
        ReachableOn(s, trace);
        if WrongReply(Run(s, trace)) { OwnReplyLands(Run(s, trace)); }
      }
    }
  }
}
