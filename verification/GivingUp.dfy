/** What happens to the order of application when the consumer gives up on an event it has not applied
    (internal/worker/worker.go:125-133).  The exact condition, on what is left in the inbox, the queue, the
    wire and the relay, under which later events can overtake the one given up. */
module GivingUp {
  import opened Model
  import opened Interactions
  import opened Pipeline
  import opened Delivery
  import opened StaleConfirmation
  import opened Snapshot
  import opened Drain
  import opened TimeoutLoss

  /** Some event was applied although an earlier one was not. */
  ghost predicate Overtaken(db: Db) {
    exists i: nat, j: nat :: i < j && j in db.processed && i !in db.processed
  }

  /** Events 0..k-1 are applied and nothing is half handled. */
  ghost predicate Between(s: Sys) {
    Inv(s) && s.db.processed == Below(|s.db.processed|) && s.verdict.None?
  }

  // ---------- What is left must repeat known events or continue with the next ----------

  predicate SettleReaches(s: Sys) {
    s.ch.open && s.unacked > 0 && s.queue != []
  }

  /** Whatever is still on its way, or may be counted as published without being read from a reply. */
  ghost predicate TrafficCovered(s: Sys)
    requires s.queue != []
  {
    var k := |s.db.processed|;
    var known := Walk(k, s.queue[1..]);
    && NoSkip(k, s.queue[1..])
    && (forall i :: 0 <= i < |s.ch.wire| ==> s.ch.wire[i].msg.id <= known)
    && |s.db.marked| + |Done(s.relay)| <= known
  }

  ghost predicate RepliesCovered(s: Sys)
    requires s.queue != []
  {
    var known := Walk(|s.db.processed|, s.queue[1..]);
    forall i :: 0 <= i < |s.ch.confirms| && s.ch.confirms[i].ack ==> Replied(s, i).id < known
  }

  /** The condition.  If the Nack does not reach the broker, the queue still has the event and only what the
      consumer already holds matters.  If it does, the event leaves the queue, and everything published
      must be covered by what stays: the rest of the queue, then the wire, the relay's marks and the
      replies it has not read. */
  ghost predicate OrderSurvives(s: Sys)
    requires GivesUp(s)
  {
    if SettleReaches(s) then TrafficCovered(s) && RepliesCovered(s)
    else NoSkip(|s.db.processed|, s.inbox[1..])
  }

  lemma SurvivesInOrder(s: Sys)
    requires Wiring(s) && InOrder(s) && GivesUp(s)
    ensures InOrder(SettleStep(s)) <==> OrderSurvives(s)
  {
    var s' := SettleStep(s);
    assert s'.inbox == s.inbox[1..] && s'.db == s.db && s'.relay == s.relay && s'.ch == s.ch;
    assert forall i :: 0 <= i < |s.ch.confirms| ==> Replied(s', i) == Replied(s, i);
    if SettleReaches(s) {
      assert s'.inbox == s'.queue[..s'.unacked];
      if NoSkip(|s.db.processed|, s'.queue) { NoSkipPrefix(|s.db.processed|, s'.queue, s'.unacked); }
    }
  }

  // ---------- A skip in what is left overtakes ----------

  const HANDLE: seq<Action> := [Consume(Committed), Settle]

  lemma ApplyInOrder(db: Db, id: nat, e: CountEvent)
    requires db.processed == Below(|db.processed|) && id <= |db.processed| && ApplyTx(db, id, e).Ok?
    ensures var db' := ApplyTx(db, id, e).value;
            && |db'.processed| == Max(|db.processed|, id + 1) && db'.processed == Below(|db'.processed|)
            && db'.outbox == db.outbox && id in db'.processed
  {
    var n := Max(|db.processed|, id + 1);
    assert db.processed + {id} == Below(n);
    BelowSize(n);
  }

  /** A delivery that is no skip is applied. */
  lemma HeadConsumed(s: Sys) returns (db: Db)
    requires Between(s) && s.inbox != [] && s.inbox[0].id <= |s.db.processed|
    ensures ConsumeStep(s, Committed) == s.(db := db, verdict := Some(true))
    ensures db.outbox == s.db.outbox && |db.processed| == Max(|s.db.processed|, s.inbox[0].id + 1)
    ensures db.processed == Below(|db.processed|) && s.inbox[0].id in db.processed
  {
    var m := s.inbox[0];
    ApplyBalances(s.db, m.id);
    ApplyInOrder(s.db, m.id, m.body);
    db := ApplyTx(s.db, m.id, m.body).value;
  }

  /** And acknowledged. */
  lemma HeadSettled(s: Sys)
    requires ConsumerView(s) && s.inbox != [] && s.verdict == Some(true)
    ensures SettleStep(s) == s.(inbox := s.inbox[1..], verdict := None,
                                queue := if s.ch.open then s.queue[1..] else s.queue,
                                unacked := if s.ch.open then s.unacked - 1 else s.unacked)
  {
  }

  lemma HeadHandled(s: Sys) returns (s': Sys)
    requires Between(s) && s.inbox != [] && s.inbox[0].id <= |s.db.processed| && Orderly(s)
    ensures s' == Run(s, HANDLE) && Between(s') && Orderly(s') && s'.ch == s.ch && s'.dlq == s.dlq
    ensures |s'.db.processed| == Max(|s.db.processed|, s.inbox[0].id + 1)
    ensures s'.inbox == s.inbox[1..] && s'.queue == if s.ch.open then s.queue[1..] else s.queue
  {
    var db := HeadConsumed(s);
    HeadStays(s, db);
    var s1 := s.(db := db, verdict := Some(true));
    HeadSettled(s1);
    s' := SettleStep(s1);
    RunTwo(s, Consume(Committed), Settle);
    RunKeeps(s, HANDLE);
  }

  lemma HeadStays(s: Sys, db: Db)
    requires ConsumerView(s) && s.inbox != [] && s.inbox[0].id in db.processed
    ensures ConsumerView(s.(db := db, verdict := Some(true)))
  {
  }

  lemma HeadDelivered(s: Sys) returns (s': Sys)
    requires Between(s) && s.ch.open && !Blocked(s) && s.inbox == [] && s.queue != [] && Orderly(s)
    ensures s' == Run(s, [Deliver]) && Between(s') && Orderly(s') && s'.ch == s.ch && s'.dlq == s.dlq
    ensures s'.db == s.db && s'.queue == s.queue && s'.inbox != []
  {
    s' := DeliverStep(s);
    RunOne(s, Deliver);
    StepKeeps(s, Deliver);
  }

  lemma Restarted(s: Sys) returns (s': Sys)
    requires Between(s) && Orderly(s)
    ensures s' == Run(s, [Restart]) && Between(s') && Orderly(s') && s'.ch == NewChannel() && s'.dlq == s.dlq
    ensures s'.db == s.db && s'.queue == s.queue && s'.relay == Idle && s'.inbox == []
  {
    s' := RestartStep(s);
    RunOne(s, Restart);
    RestartWiring(s);
  }

  lemma HeadOvertakes(s: Sys) returns (s': Sys)
    requires Between(s) && s.inbox != [] && s.inbox[0].id > |s.db.processed| && Orderly(s)
    ensures s' == Run(s, [Consume(Committed)]) && Overtaken(s'.db) && Orderly(s') && s'.dlq == s.dlq
  {
    var k, id := |s.db.processed|, s.inbox[0].id;
    ApplyBalances(s.db, id);
    assert k !in s.db.processed;
    s' := ConsumeStep(s, Committed);
    RunOne(s, Consume(Committed));
    assert id in s'.db.processed && k !in s'.db.processed;
  }

  /** Where a skip overtakes. */
  ghost predicate Shows(s: Sys, trace: seq<Action>) {
    var e := Run(s, trace); Overtaken(e.db) && Orderly(e) && e.dlq == s.dlq
  }

  lemma ShowsLater(s: Sys, t: seq<Action>, s': Sys, rest: seq<Action>)
    requires s' == Run(s, t) && s'.dlq == s.dlq && Shows(s', rest)
    ensures Shows(s, t + rest)
  {
    RunConcat(s, t, rest);
  }

  /** Whatever the consumer holds behind an event it gave up on: if it skips, handling it without any
      further failure applies an event before its predecessor, and no dead letter shows it. */
  lemma {:induction false} InboxOvertakes(s: Sys) returns (trace: seq<Action>)
    requires Between(s) && !NoSkip(|s.db.processed|, s.inbox) && Orderly(s)
    ensures Shows(s, trace)
    decreases |s.inbox|
  {
    if s.inbox[0].id > |s.db.processed| {
      var e := HeadOvertakes(s);
      trace := [Consume(Committed)];
    } else {
      var s' := HeadHandled(s);
      var rest := InboxOvertakes(s');
      ShowsLater(s, HANDLE, s', rest);
      trace := HANDLE + rest;
    }
  }

  lemma HeadOfQueue(s: Sys)
    requires ConsumerView(s) && s.ch.open && s.inbox != []
    ensures s.queue != [] && s.inbox[0] == s.queue[0]
  {
  }

  /** The same for a skip in the queue, once the consumer holds its head and nothing blocks deliveries. */
  lemma {:induction false} HeldQueueOvertakes(s: Sys) returns (trace: seq<Action>)
    requires Between(s) && s.ch == NewChannel() && s.inbox != [] && !NoSkip(|s.db.processed|, s.queue) && Orderly(s)
    ensures Shows(s, trace)
    decreases |s.queue|, 0
  {
    HeadOfQueue(s);
    if s.inbox[0].id > |s.db.processed| {
      var e := HeadOvertakes(s);
      trace := [Consume(Committed)];
    } else {
      var s' := HeadHandled(s);
      assert !NoSkip(|s'.db.processed|, s'.queue);
      var rest := FreshQueueOvertakes(s');
      ShowsLater(s, HANDLE, s', rest);
      trace := HANDLE + rest;
    }
  }

  lemma {:induction false} FreshQueueOvertakes(s: Sys) returns (trace: seq<Action>)
    requires Between(s) && s.ch == NewChannel() && !NoSkip(|s.db.processed|, s.queue) && Orderly(s)
    ensures Shows(s, trace)
    decreases |s.queue|, 1
  {
    if s.inbox != [] {
      trace := HeldQueueOvertakes(s);
    } else {
      var s' := HeadDelivered(s);
      var rest := HeldQueueOvertakes(s');
      ShowsLater(s, [Deliver], s', rest);
      trace := [Deliver] + rest;
    }
  }

  /** In any state, after a restart. */
  lemma QueueOvertakes(s: Sys) returns (trace: seq<Action>)
    requires Between(s) && !NoSkip(|s.db.processed|, s.queue) && Orderly(s)
    ensures Shows(s, trace)
  {
    var s' := Restarted(s);
    var rest := FreshQueueOvertakes(s');
    ShowsLater(s, [Restart], s', rest);
    trace := [Restart] + rest;
  }

  lemma {:induction false} SkipAppended(k: nat, ms: seq<Message>, m: Message)
    requires m.id > Walk(k, ms)
    ensures !NoSkip(k, ms + [m])
    decreases |ms|
  {
    if ms != [] {
      SkipAppended(Max(k, ms[0].id + 1), ms[1..], m);
      assert (ms + [m])[1..] == ms[1..] + [m];
    }
  }

  lemma WireAccepted(s: Sys) returns (s': Sys)
    requires Between(s) && s.ch.open && s.ch.wire != [] && Orderly(s)
    requires s.ch.wire[0].msg.id > Walk(|s.db.processed|, s.queue)
    ensures s' == Run(s, [BrokerAccept]) && Between(s') && Orderly(s') && s'.ch.open && s'.dlq == s.dlq
    ensures !NoSkip(|s'.db.processed|, s'.queue)
  {
    var m := s.ch.wire[0].msg;
    s' := AcceptStep(s);
    RunOne(s, BrokerAccept);
    AllKeysBound(m.key);
    SkipAppended(|s.db.processed|, s.queue, m);
    StepKeeps(s, BrokerAccept);
  }

  lemma WireRejected(s: Sys) returns (s': Sys)
    requires Between(s) && s.ch.open && s.ch.wire != [] && Orderly(s)
    ensures s' == Run(s, [BrokerReject]) && Between(s') && Orderly(s') && s'.ch.open && s'.dlq == s.dlq
    ensures s'.ch.wire == s.ch.wire[1..] && s'.queue == s.queue && s'.db == s.db
  {
    s' := RejectStep(s);
    RunOne(s, BrokerReject);
    StepKeeps(s, BrokerReject);
  }

  /** And for a publishing the broker has not handled, if it rejects those before it. */
  lemma {:induction false} WireOvertakes(s: Sys, i: nat) returns (trace: seq<Action>)
    requires Between(s) && s.ch.open && Orderly(s)
    requires i < |s.ch.wire| && s.ch.wire[i].msg.id > Walk(|s.db.processed|, s.queue)
    ensures Shows(s, trace)
    decreases i
  {
    var s', rest;
    if i == 0 {
      s' := WireAccepted(s);
      rest := QueueOvertakes(s');
      trace := [BrokerAccept] + rest;
      ShowsLater(s, [BrokerAccept], s', rest);
    } else {
      s' := WireRejected(s);
      rest := WireOvertakes(s', i - 1);
      trace := [BrokerReject] + rest;
      ShowsLater(s, [BrokerReject], s', rest);
    }
  }

  // ---------- An event counted as published, but with no copy left, is overtaken too ----------

  /** End the round and mark what it has confirmed, wherever it is. */
  const STOP: seq<Action> := [RelaySend(false), RelayTimeout, RelayClosed, RelayMark(true)]

  lemma RoundStopped(s: Sys)
    requires RoundSound(s)
    ensures var s' := ClosedStep(TimeoutStep(SendStep(s, false)));
            && s' == s.(relay := s'.relay, ch := s'.ch) && Done(s'.relay) == Done(s.relay)
            && (s'.relay == Idle || CanMark(s'))
  {
    if s.relay.Looping? { CloseLoop(s); }
  }

  lemma RunStop(s: Sys)
    ensures Run(s, STOP) == MarkStep(ClosedStep(TimeoutStep(SendStep(s, false))), true)
  {
    var s1 := SendStep(s, false);
    var s2 := TimeoutStep(s1);
    RunFour(s, STOP, s1, s2, ClosedStep(s2));
  }

  lemma MarkAfterStop(s: Sys)
    requires s.relay == Idle || CanMark(s)
    ensures MarkStep(s, true) == s.(db := MarkProcessed(s.db, Done(s.relay)), relay := Idle)
  {
    assert IdSet([]) == {} && s.db.marked + {} == s.db.marked;
  }

  lemma StoppedMarks(s: Sys) returns (s': Sys)
    requires RoundSound(s) && RoundInOrder(s)
    ensures s' == Run(s, STOP) == s.(db := MarkProcessed(s.db, Done(s.relay)), relay := Idle, ch := s'.ch)
    ensures s'.db.marked == Below(|s.db.marked| + |Done(s.relay)|)
  {
    var s3 := ClosedStep(TimeoutStep(SendStep(s, false)));
    RunStop(s);
    RoundStopped(s);
    MarkAfterStop(s3);
    DoneIsMarked(s);
    s' := MarkStep(s3, true);
  }

  lemma DoneIsMarked(s: Sys)
    requires RoundInOrder(s)
    ensures MarkProcessed(s.db, Done(s.relay)).marked == Below(|s.db.marked| + |Done(s.relay)|)
  {
    if s.relay.Looping? { RoundParts(s); }
    MarkExtendsPrefix(s.db, |s.db.marked|, Done(s.relay));
  }

  lemma RoundMarked(s: Sys) returns (s': Sys)
    requires Between(s) && RoundInOrder(s) && Orderly(s)
    ensures s' == Run(s, STOP) && Between(s') && Orderly(s')
    ensures s'.db.processed == s.db.processed && s'.queue == s.queue
    ensures s'.db.marked == Below(|s.db.marked| + |Done(s.relay)|) && |s'.db.marked| == |s.db.marked| + |Done(s.relay)|
    ensures RoundInOrder(s') && s'.db.outbox == s.db.outbox
  {
    s' := StoppedMarks(s);
    RunKeeps(s, STOP);
    IdleInOrder(s', |s.db.marked| + |Done(s.relay)|);
  }

  lemma IdleInOrder(s: Sys, n: nat)
    requires WellFormed(s.db) && s.relay == Idle && s.db.marked == Below(n)
    ensures RoundInOrder(s) && |s.db.marked| == n
  {
    BelowSize(n);
    if n > 0 { assert n - 1 in s.db.marked; }
  }

  lemma {:induction false} KnownAbove(k: nat, ms: seq<Message>)
    ensures k <= Walk(k, ms) && forall i :: 0 <= i < |ms| ==> ms[i].id < Walk(k, ms)
    decreases |ms|
  {
    if ms != [] {
      KnownAbove(Max(k, ms[0].id + 1), ms[1..]);
      assert forall i :: 1 <= i < |ms| ==> ms[i] == ms[1..][i - 1];
    }
  }

  /** After a restart the event is out of reach. */
  lemma RestartLoses(s: Sys, id: nat) returns (s': Sys)
    requires Between(s) && Orderly(s) && RoundInOrder(s) && id in s.db.marked && id == Walk(|s.db.processed|, s.queue)
    ensures s' == Run(s, [Restart]) && Between(s') && Orderly(s') && RoundInOrder(s') && OutOfReach(s', id)
    ensures s'.ch == NewChannel() && s'.db == s.db
  {
    s' := Restarted(s);
    KnownAbove(|s.db.processed|, s.queue);
  }

  lemma ProgressGivesUpNothing(s: Sys, a: Action)
    requires Inv(s) && Progress(s, a) && s.verdict != Some(false)
    ensures var s' := Step(s, a); s'.verdict != Some(false) && s'.nacked == s.nacked
  {
    if a.Consume? { ApplyBalances(s.db, s.inbox[0].id); }
  }

  lemma DrainStep(s: Sys, a: Action)
    requires Inv(s) && s.ch.open && s.ch.timeouts == 0 && s.verdict != Some(false) && Progress(s, a)
    requires RoundInOrder(s) && OrderedFrom(s.db.outbox, |s.db.marked|) && Orderly(s)
    ensures var s' := Step(s, a);
            && Orderly(s') && Inv(s') && s'.ch.open && s'.ch.timeouts == 0 && s'.verdict != Some(false)
            && RoundInOrder(s') && OrderedFrom(s'.db.outbox, |s'.db.marked|)
  {
    ProgressDecreases(s, a);
    ProgressIsCalm(s, a);
    ProgressIsAttributed(s, a);
    ProgressGivesUpNothing(s, a);
    OrderedStep(s, a);
    RoundStays(s, a);
    MarksGrow(s, a);
  }

  lemma {:induction false} DrainIsOrderly(s: Sys, trace: seq<Action>)
    requires Inv(s) && s.ch.open && s.ch.timeouts == 0 && s.verdict != Some(false) && FailureFree(s, trace)
    requires RoundInOrder(s) && OrderedFrom(s.db.outbox, |s.db.marked|) && Orderly(s)
    ensures Orderly(RunForward(s, trace))
    decreases |trace|
  {
    if trace != [] {
      DrainStep(s, trace[0]);
      DrainIsOrderly(Step(s, trace[0]), trace[1..]);
    }
  }

  lemma DrainedOrderly(s: Sys) returns (trace: seq<Action>, s': Sys)
    requires Between(s) && Orderly(s) && s.ch.open && s.ch.timeouts == 0
    requires RoundInOrder(s) && OrderedFrom(s.db.outbox, |s.db.marked|)
    ensures s' == Run(s, trace) && Inv(s') && Orderly(s') && Quiet(s') && s'.ch.open && s'.ch.timeouts == 0
  {
    trace := DrainExists(s);
    ForwardIsRun(s, trace);
    s' := ScheduleDrains(s, trace);
    DrainIsOrderly(s, trace);
  }

  const DELIVER: seq<Action> := [BrokerAccept, Deliver, Consume(Committed)]

  /** A single publishing goes all the way through. */
  lemma OneGoesThrough(s: Sys, m: Message)
    requires s.ch.open && s.ch.confirms == [] && s.queue == [] && s.inbox == [] && s.unacked == 0 && s.verdict == None
    requires |s.ch.wire| == 1 && s.ch.wire[0].msg == m && ApplyTx(s.db, m.id, m.body).Ok?
    ensures var e := Run(s, DELIVER);
            && e.db == ApplyTx(s.db, m.id, m.body).value && m.id in e.db.processed
            && e.db.outbox == s.db.outbox && e.stale == s.stale && e.nacked == s.nacked && e.shuffled == s.shuffled
  {
    AllKeysBound(m.key);
    var s1 := AcceptStep(s);
    assert s1.queue == [m];
    var s2 := DeliverStep(s1);
    assert s2.inbox == [m];
    assert s2 == s1.(inbox := [m], unacked := 1);
    RunDeliver(s, s1, s2);
  }

  lemma RunDeliver(s: Sys, s1: Sys, s2: Sys)
    requires s1 == AcceptStep(s) && s2 == DeliverStep(s1)
    ensures Run(s, DELIVER) == ConsumeStep(s2, Committed)
  {
    RunCons(s, BrokerAccept, [Deliver, Consume(Committed)]);
    RunTwo(s1, Deliver, Consume(Committed));
    assert DELIVER == [BrokerAccept] + [Deliver, Consume(Committed)];
  }

  /** So does a new event of a quiet pipeline. */
  lemma NewEventApplied(s: Sys) returns (trace: seq<Action>)
    requires Inv(s) && Orderly(s) && Quiet(s) && s.ch.open && s.ch.timeouts == 0
    ensures var e := Run(s, trace); Orderly(e) && |s.db.outbox| in e.db.processed
  {
    var n, s1 := |s.db.outbox|, Run(s, NewEvent(s));
    LeftoverReplies(s);
    NewLike(s.db);
    NewEventSent(s);
    RunKeeps(s, NewEvent(s));
    ApplyBalances(s1.db, n);
    OneGoesThrough(s1, MessageOf(s1.db, n));
    RunConcat(s, NewEvent(s), DELIVER);
    trace := NewEvent(s) + DELIVER;
  }

  /** Something was published, or may still be counted as published, that the queue does not cover. */
  lemma MarkOvertakes(s: Sys) returns (trace: seq<Action>)
    requires Between(s) && RoundInOrder(s) && Orderly(s) && OrderedFrom(s.db.outbox, |s.db.marked|)
    requires NoSkip(|s.db.processed|, s.queue) && |s.db.marked| + |Done(s.relay)| > Walk(|s.db.processed|, s.queue)
    ensures var e := Run(s, trace); Overtaken(e.db) && Orderly(e)
  {
    var id := Walk(|s.db.processed|, s.queue);
    var s1 := RoundMarked(s);
    OrderedBefore(s.db.outbox, s.db.outbox, |s.db.marked|, |s1.db.marked|);
    var s2 := RestartLoses(s1, id);
    var drain, s3 := DrainedOrderly(s2);
    var last := NewEventApplied(s3);
    RunConcat(s, STOP, [Restart]);
    RunConcat(s, STOP + [Restart], drain);
    RunConcat(s, STOP + [Restart] + drain, last);
    trace := STOP + [Restart] + drain + last;
    OutOfReachForever(s2, drain, id);
    OutOfReachForever(s3, last, id);
    AppliedLater(s3, Run(s3, last), id);
  }

  lemma AppliedLater(s: Sys, e: Sys, id: nat)
    requires Inv(s) && OutOfReach(s, id) && OutOfReach(e, id) && |s.db.outbox| in e.db.processed
    ensures Overtaken(e.db)
  {
    assert id < |s.db.outbox|;
  }

  /** The reply being waited for, when nothing has timed out. */
  lemma ReplyOvertakes(s: Sys, i: nat) returns (trace: seq<Action>)
    requires Between(s) && InOrderButReplies(s) && Orderly(s) && s.ch.timeouts == 0
    requires OrderedFrom(s.db.outbox, |s.db.marked|)
    requires i < |s.ch.confirms| && s.ch.confirms[i].ack && Replied(s, i).id >= Walk(|s.db.processed|, s.queue)
    ensures var e := Run(s, trace); Overtaken(e.db) && Orderly(e)
  {
    var s1 := ReplyRead(s, i);
    var rest := MarkOvertakes(s1);
    RunConcat(s, [RelayConfirm], rest);
    trace := [RelayConfirm] + rest;
  }

  ghost predicate InOrderButReplies(s: Sys) {
    RoundInOrder(s) && NoSkip(|s.db.processed|, s.queue)
  }

  lemma ReplyRead(s: Sys, i: nat) returns (s': Sys)
    requires Between(s) && InOrderButReplies(s) && Orderly(s) && s.ch.timeouts == 0
    requires OrderedFrom(s.db.outbox, |s.db.marked|)
    requires i < |s.ch.confirms| && s.ch.confirms[i].ack && Replied(s, i).id >= Walk(|s.db.processed|, s.queue)
    ensures s' == Run(s, [RelayConfirm]) && Between(s') && Orderly(s') && InOrderButReplies(s')
    ensures |s'.db.marked| + |Done(s'.relay)| > Walk(|s'.db.processed|, s'.queue) && s'.db == s.db
  {
    RunOne(s, RelayConfirm);
    StepKeeps(s, RelayConfirm);
    OwnReply(s);
    RoundParts(s);
    s' := ConfirmStep(s);
    assert i == 0 && Replied(s, 0).id == s.relay.batch[0];
    assert (s.relay.done + [s.relay.batch[0]]) + s.relay.batch[1..] == s.relay.done + s.relay.batch;
  }

  // ---------- The exact condition ----------

  /** The state after giving up, counting further failures from here. */
  function GivenUp(s: Sys): Sys {
    SettleStep(s).(nacked := false)
  }

  lemma AfterGivingUp(s: Sys)
    requires Inv(s) && InOrder(s) && Orderly(s) && GivesUp(s)
    ensures var t := GivenUp(s);
            && Between(t) && RoundInOrder(t) && Orderly(t)
            && t.db == s.db && t.relay == s.relay && t.ch == s.ch && t.inbox == s.inbox[1..]
            && t.queue == if SettleReaches(s) then s.queue[1..] else s.queue
  {
    SettledState(s);
    InvAfterGivingUp(s);
    SameRound(s, GivenUp(s));
  }

  lemma InvAfterGivingUp(s: Sys)
    requires Inv(s)
    ensures Inv(GivenUp(s))
  {
    SettleWiring(s);
    assert SettleStep(s).db == s.db;
    FlagsAreHistory(SettleStep(s), GivenUp(s));
  }

  lemma SettledState(s: Sys)
    requires GivesUp(s)
    ensures var t := GivenUp(s);
            && t.db == s.db && t.relay == s.relay && t.ch == s.ch && t.inbox == s.inbox[1..] && t.verdict == None
            && t.stale == s.stale && !t.nacked
            && t.queue == if SettleReaches(s) then s.queue[1..] else s.queue
  {
  }

  /** The invariant does not read the history flags. */
  lemma FlagsAreHistory(s: Sys, s': Sys)
    requires Inv(s) && s' == s.(nacked := s'.nacked)
    ensures Inv(s')
  {
  }

  /** If the condition holds, nothing overtakes: in every continuation without a misattributed reply or a
      further event given up, the applied events stay a prefix. */
  lemma OrderKept(s: Sys, trace: seq<Action>)
    requires Inv(s) && InOrder(s) && Orderly(s) && GivesUp(s) && OrderSurvives(s)
    requires Orderly(Run(GivenUp(s), trace))
    ensures !Overtaken(Run(GivenUp(s), trace).db)
  {
    AfterGivingUp(s);
    SurvivesInOrder(s);
    SameOrder(SettleStep(s), GivenUp(s));
    RunStaysInOrder(GivenUp(s), trace);
  }

  lemma SameOrder(s: Sys, s': Sys)
    requires InOrder(s) && s' == s.(nacked := s'.nacked)
    ensures InOrder(s')
  {
    assert forall i :: 0 <= i < |s.ch.confirms| ==> Replied(s', i) == Replied(s, i);
  }

  /** If it fails, some such continuation overtakes, provided that the rows still to be marked committed in
      the order of their ids, and that no Publish on the channel has timed out in case the unread replies
      alone make it fail. */
  lemma OrderBroken(s: Sys) returns (trace: seq<Action>)
    requires Inv(s) && InOrder(s) && Orderly(s) && GivesUp(s) && !OrderSurvives(s)
    requires OrderedFrom(s.db.outbox, |s.db.marked|)
    requires SettleReaches(s) && TrafficCovered(s) ==> s.ch.timeouts == 0
    ensures var e := Run(GivenUp(s), trace); Overtaken(e.db) && Orderly(e)
  {
    var t := GivenUp(s);
    AfterGivingUp(s);
    if !SettleReaches(s) {
      trace := InboxOvertakes(t);
    } else if !NoSkip(|t.db.processed|, t.queue) {
      trace := QueueOvertakes(t);
    } else if i :| 0 <= i < |t.ch.wire| && t.ch.wire[i].msg.id > Walk(|t.db.processed|, t.queue) {
      trace := WireOvertakes(t, i);
    } else if |t.db.marked| + |Done(t.relay)| > Walk(|t.db.processed|, t.queue) {
      trace := MarkOvertakes(t);
    } else {
      assert forall i :: 0 <= i < |s.ch.confirms| ==> Replied(t, i) == Replied(s, i);
      var i :| 0 <= i < |s.ch.confirms| && s.ch.confirms[i].ack && Replied(s, i).id >= Walk(|t.db.processed|, t.queue);
      trace := ReplyOvertakes(t, i);
    }
  }

  /** In every orderly run, when the consumer gives up on an event: later events can overtake it, without
      any further misattributed reply or event given up, iff the condition fails. */
  lemma OvertakenIff(s: Sys)
    requires Reachable(s) && Orderly(s) && GivesUp(s) && OrderedFrom(s.db.outbox, |s.db.marked|)
    requires SettleReaches(s) && TrafficCovered(s) && !RepliesCovered(s) ==> s.ch.timeouts == 0
    ensures (exists trace :: var e := Run(GivenUp(s), trace); Orderly(e) && Overtaken(e.db)) <==> !OrderSurvives(s)
  {
    var before :| s == Run(Init(), before);
    RunInOrder(before);
    if OrderSurvives(s) {
      forall trace | Orderly(Run(GivenUp(s), trace)) ensures !Overtaken(Run(GivenUp(s), trace).db) {
        OrderKept(s, trace);
      }
    } else {
      assert SettleReaches(s) && TrafficCovered(s) ==> s.ch.timeouts == 0;
      var trace := OrderBroken(s);
      assert Overtaken(Run(GivenUp(s), trace).db) && Orderly(Run(GivenUp(s), trace));
    }
  }
}
