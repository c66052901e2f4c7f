/** Liveness of the pipeline as a measure: once nothing fails and no client writes, every step that
    does something shortens the work left, and work left means some such step is possible. */
module Drain {
  import opened Model
  import opened Interactions
  import opened Pipeline
  import opened Delivery

  /** A failure-free action that is enabled. */
  predicate Progress(s: Sys, a: Action) {
    match a
    case RelayFetch => s.relay.Idle? && FetchPending(s.db, BATCH) != []
    case RelaySend(ok) => ok && CanSend(s)
    case RelayConfirm => Waiting(s) && s.ch.confirms != []
    case RelayMark(ok) => ok && CanMark(s)
    case BrokerAccept => s.ch.wire != []
    case Deliver => CanDeliver(s)
    case Consume(fate) => fate.Committed? && CanConsume(s)
    case Settle => s.inbox != [] && s.verdict.Some?
    case _ => false
  }

  ghost predicate AllMarked(db: Db) {
    forall i: nat :: i < |db.outbox| ==> i in db.marked
  }

  /** Nothing left to publish or to apply from the inbox; replies to publishings that timed out may lie unread. */
  ghost predicate Published(s: Sys) {
    AllMarked(s.db) && s.ch.wire == [] && s.inbox == [] && s.relay == Idle
  }

  /** Nothing left to deliver either. */
  ghost predicate Quiet(s: Sys) {
    Published(s) && s.queue == []
  }

  /** Something is left to deliver, but unread replies block the connection. */
  ghost predicate Stalled(s: Sys) {
    Published(s) && s.queue != [] && s.ch.open && Blocked(s)
  }

  // ---------- The measure ----------

  /** A rejection sends at most a whole batch back to the start. */
  function ReplyWeight(c: Confirmation): nat {
    if c.ack then 1 else 2 * BATCH + 8
  }

  function RepliesWeight(cs: seq<Confirmation>): nat {
    if cs == [] then 0 else RepliesWeight(cs[..|cs| - 1]) + ReplyWeight(cs[|cs| - 1])
  }

  function RelayWeight(unmarked: int, r: Relay): int {
    match r
    case Idle => 9 * unmarked
    case Closing(done) => 9 * (unmarked - |done|) + 1
    case Looping(batch, done, waiting) =>
      9 * (unmarked - |batch| - |done|) + 7 * |batch| + 1 - if waiting then 6 else 0
  }

  function ConsumerWeight(s: Sys): int {
    3 * |s.queue| - s.unacked - if s.verdict.Some? then 1 else 0
  }

  function Measure(s: Sys): int {
    RelayWeight(|s.db.outbox| - |s.db.marked|, s.relay)
      + 5 * |s.ch.wire| + RepliesWeight(s.ch.confirms) + ConsumerWeight(s)
  }

  lemma {:induction false} RepliesPop(cs: seq<Confirmation>)
    requires cs != []
    ensures RepliesWeight(cs) == ReplyWeight(cs[0]) + RepliesWeight(cs[1..])
  {
    if |cs| > 1 {
      RepliesPop(cs[..|cs| - 1]);
      assert cs[1..][..|cs| - 2] == cs[..|cs| - 1][1..];
    }
  }

  lemma {:induction false} IdSetSize(ids: seq<nat>)
    requires NoRepeats(ids)
    ensures |IdSet(ids)| == |ids|
  {
    if ids != [] {
      var front, last := ids[..|ids| - 1], ids[|ids| - 1];
      IdSetSize(front);
      assert last !in IdSet(front);
      assert IdSet(ids) == IdSet(front) + {last};
    }
  }

  /** Distinct unmarked events add up with the marked ones, and fit in the outbox. */
  lemma RoundFits(db: Db, ids: seq<nat>)
    requires WellFormed(db) && RoundIds(db, ids)
    ensures |db.marked + IdSet(ids)| == |db.marked| + |ids| <= |db.outbox|
  {
    IdSetSize(ids);
    assert db.marked !! IdSet(ids);
    var all := Below(|db.outbox|);
    BelowSize(|db.outbox|);
    assert db.marked + IdSet(ids) <= all;
    assert all == (db.marked + IdSet(ids)) + (all - (db.marked + IdSet(ids)));
  }

  function RoundOf(r: Relay): seq<nat> {
    match r
    case Idle => []
    case Closing(done) => done
    case Looping(batch, done, _) => done + batch
  }

  lemma MeasureIsNatural(s: Sys)
    requires Inv(s) && s.ch.open
    ensures Measure(s) >= 0
  {
    RoundFits(s.db, RoundOf(s.relay));
    assert s.verdict.Some? ==> s.unacked >= 1;
  }

  lemma MarkDecreases(s: Sys)
    requires Inv(s) && CanMark(s)
    ensures Measure(MarkStep(s, true)) < Measure(s)
  {
    if s.relay.done != [] {
      if s.relay.Looping? { CloseLoop(s); }
      RoundFits(s.db, s.relay.done);
    }
  }

  lemma FetchDecreases(s: Sys)
    requires s.relay.Idle? && FetchPending(s.db, BATCH) != []
    ensures Measure(FetchStep(s)) < Measure(s)
  {
  }

  lemma ConfirmDecreases(s: Sys)
    requires RoundSound(s) && Waiting(s) && s.ch.confirms != []
    ensures Measure(ConfirmStep(s)) < Measure(s)
  {
    RepliesPop(s.ch.confirms);
  }

  lemma SendDecreases(s: Sys)
    requires CanSend(s) && s.ch.open
    ensures Measure(SendStep(s, true)) < Measure(s)
  {
  }

  lemma AcceptDecreases(s: Sys)
    requires s.ch.open && s.ch.wire != []
    ensures Measure(AcceptStep(s)) < Measure(s)
  {
    var c := Confirmation(s.ch.wire[0].tag, true);
    assert (s.ch.confirms + [c])[..|s.ch.confirms|] == s.ch.confirms;
  }

  lemma ConsumeDecreases(s: Sys)
    requires Inv(s) && s.ch.open && CanConsume(s)
    ensures Measure(ConsumeStep(s, Committed)) < Measure(s)
  {
    var id := s.inbox[0].id;
    ApplyBalances(s.db, id);
    var s' := ConsumeStep(s, Committed);
    assert s'.verdict == Some(true) && s'.db.outbox == s.db.outbox && s'.db.marked == s.db.marked;
  }

  lemma SettleDecreases(s: Sys)
    requires ConsumerView(s) && s.ch.open && s.inbox != [] && s.verdict.Some?
    ensures Measure(SettleStep(s)) < Measure(s)
  {
  }

  lemma DeliverDecreases(s: Sys)
    requires CanDeliver(s)
    ensures Measure(DeliverStep(s)) < Measure(s)
  {
  }

  lemma MeasureDecreases(s: Sys, a: Action)
    requires Inv(s) && s.ch.open && Progress(s, a)
    ensures Measure(Step(s, a)) < Measure(s)
  {
    match a
    case RelayFetch => FetchDecreases(s);
    case RelaySend(_) => SendDecreases(s);
    case RelayConfirm => ConfirmDecreases(s);
    case RelayMark(_) => MarkDecreases(s);
    case BrokerAccept => AcceptDecreases(s);
    case Deliver => DeliverDecreases(s);
    case Consume(_) => ConsumeDecreases(s);
    case Settle => SettleDecreases(s);
    case _ =>
  }

  /** A failure-free step leaves the channel open, adds no timeout and no event, and misattributes a reply
      only if some Publish on this channel has timed out before. */
  lemma ProgressIsCalm(s: Sys, a: Action)
    requires s.ch.open && Progress(s, a)
    ensures var s' := Step(s, a);
            && s'.ch.open && s'.ch.timeouts == s.ch.timeouts
            && s'.db.outbox == s.db.outbox && s'.db.posts.Keys == s.db.posts.Keys
  {
  }

  lemma OwnReply(s: Sys)
    requires Fifo(s) && s.ch.timeouts == 0
    ensures ConfirmStep(s).stale == s.stale
  {
  }

  lemma ProgressIsAttributed(s: Sys, a: Action)
    requires Fifo(s) && s.ch.timeouts == 0 && Progress(s, a)
    ensures Step(s, a).stale == s.stale
  {
    OwnReply(s);
  }

  /** Every failure-free step that does something reduces the measure, so no such schedule is endless. */
  lemma ProgressDecreases(s: Sys, a: Action)
    requires Inv(s) && s.ch.open && Progress(s, a)
    ensures 0 <= Measure(Step(s, a)) < Measure(s)
    ensures Inv(Step(s, a)) && Step(s, a).ch.open
  {
    StepKeeps(s, a);
    ProgressIsCalm(s, a);
    MeasureIsNatural(Step(s, a));
    MeasureDecreases(s, a);
  }

  /** The next failure-free step, or None when there is none. */
  function Next(s: Sys): Option<Action> {
    if s.inbox != [] then Some(if s.verdict.Some? then Settle else Consume(Committed))
    else if CanDeliver(s) then Some(Deliver)
    else if s.ch.wire != [] then Some(BrokerAccept)
    else if Waiting(s) && s.ch.confirms != [] then Some(RelayConfirm)
    else if CanSend(s) then Some(RelaySend(true))
    else if CanMark(s) then Some(RelayMark(true))
    else if s.relay.Idle? && FetchPending(s.db, BATCH) != [] then Some(RelayFetch)
    else None
  }

  lemma FetchesNothing(db: Db)
    ensures FetchPending(db, BATCH) == [] <==> AllMarked(db)
  {
    FetchFacts(db, BATCH);
    var ids := FetchPending(db, BATCH);
    if ids != [] {
      assert ids[0] in ids;
    } else {
      forall i: nat | i < |db.outbox| ensures i in db.marked {
      }
    }
  }

  /** As long as the channel is open there is a failure-free step to take unless the pipeline is quiet or
      stalled. */
  lemma NextIsProgress(s: Sys)
    requires Inv(s) && s.ch.open
    ensures Next(s).Some? ==> Progress(s, Next(s).value)
    ensures Next(s).None? <==> Quiet(s) || Stalled(s)
  {
    FetchesNothing(s.db);
    if s.relay.Looping? { CloseLoop(s); }
  }

  /** Every timed-out publishing has left one unread reply, so it takes two to stall. */
  lemma LeftoverReplies(s: Sys)
    requires Inv(s) && s.ch.open && Published(s)
    ensures |s.ch.confirms| == s.ch.timeouts
    ensures Stalled(s) <==> s.queue != [] && s.ch.timeouts >= 2
  {
  }

  /** Stalled, perhaps with the relay in a round over nothing. */
  ghost predicate Held(s: Sys) {
    && AllMarked(s.db) && s.ch.wire == [] && s.inbox == [] && s.ch.open && Blocked(s)
    && (s.relay == Idle || s.relay == Looping([], [], false) || s.relay == Closing([]))
  }

  lemma HeldOneStep(s: Sys, a: Action)
    requires Held(s) && !a.Client? && !a.ChannelClose? && !a.Restart?
    ensures var s' := Step(s, a); Held(s') && s'.queue == s.queue && s'.db == s.db
  {
    FetchesNothing(s.db);
  }

  /** A schedule of enabled failure-free steps from s. */
  ghost predicate FailureFree(s: Sys, trace: seq<Action>)
    decreases |trace|
  {
    trace == [] || (Progress(s, trace[0]) && FailureFree(Step(s, trace[0]), trace[1..]))
  }

  /** Any failure-free schedule, in any order, is no longer than the measure, and if it cannot be extended
      it has drained the pipeline, unless two Publishes on the channel timed out and the rest is stalled. */
  lemma {:induction false} ScheduleDrains(s: Sys, trace: seq<Action>) returns (end: Sys)
    requires Inv(s) && s.ch.open && FailureFree(s, trace)
    ensures end == RunForward(s, trace) && Inv(end) && end.ch.open && end.ch.timeouts == s.ch.timeouts
    ensures end.db.outbox == s.db.outbox
    ensures |trace| <= Measure(s)
    ensures (forall a :: !Progress(end, a)) ==> Quiet(end) || Stalled(end)
    ensures s.ch.timeouts <= 1 && (forall a :: !Progress(end, a)) ==> Quiet(end)
    decreases |trace|
  {
    if trace == [] {
      end := s;
      MeasureIsNatural(s);
      NextIsProgress(s);
      if Published(s) { LeftoverReplies(s); }
    } else {
      ProgressDecreases(s, trace[0]);
      ProgressIsCalm(s, trace[0]);
      end := ScheduleDrains(Step(s, trace[0]), trace[1..]);
    }
  }

  function RunForward(s: Sys, trace: seq<Action>): Sys
    decreases |trace|
  {
    if trace == [] then s else RunForward(Step(s, trace[0]), trace[1..])
  }

  lemma {:induction false} ForwardIsRun(s: Sys, trace: seq<Action>)
    ensures RunForward(s, trace) == Run(s, trace)
    decreases |trace|
  {
    if trace != [] {
      ForwardIsRun(Step(s, trace[0]), trace[1..]);
      RunConcat(s, [trace[0]], trace[1..]);
      assert [trace[0]][..0] == [] && Run(s, []) == s;
      assert trace == [trace[0]] + trace[1..];
    }
  }

  /** And such a schedule exists. */
  lemma {:induction false} DrainExists(s: Sys) returns (trace: seq<Action>)
    requires Inv(s) && s.ch.open
    ensures FailureFree(s, trace)
    ensures var e := RunForward(s, trace); Quiet(e) || Stalled(e)
    ensures s.ch.timeouts <= 1 ==> Quiet(RunForward(s, trace))
    decreases Measure(s)
  {
    NextIsProgress(s);
    MeasureIsNatural(s);
    if Next(s).None? {
      trace := [];
      LeftoverReplies(s);
    } else {
      var a := Next(s).value;
      ProgressDecreases(s, a);
      ProgressIsCalm(s, a);
      var rest := DrainExists(Step(s, a));
      trace := [a] + rest;
    }
  }

  /** A stalled pipeline delivers nothing, whatever relay, broker and consumer do, until a client writes, the
      connection drops or the worker restarts. */
  lemma {:induction false} StallStays(s: Sys, trace: seq<Action>)
    requires Held(s)
    requires forall i :: 0 <= i < |trace| ==> !trace[i].Client? && !trace[i].ChannelClose? && !trace[i].Restart?
    ensures var e := Run(s, trace); Held(e) && e.queue == s.queue && e.db == s.db
  {
    if trace != [] {
      StallStays(s, trace[..|trace| - 1]);
      HeldOneStep(Run(s, trace[..|trace| - 1]), trace[|trace| - 1]);
    }
  }

  // ---------- What a drained pipeline has counted ----------

  /** Events that were dead-lettered and never applied. */
  function Dead(s: Sys): set<nat> {
    set i | 0 <= i < |s.dlq| && s.dlq[i].id !in s.db.processed :: s.dlq[i].id
  }

  lemma {:induction false} Complement(rows: seq<OutboxRow>, ids: set<nat>, others: set<nat>, p: int, f: Field)
    requires forall i: nat :: i < |rows| ==> (i in others <==> i !in ids)
    ensures Outstanding(rows, ids, p, f) == Net(rows, others, p, f)
  {
    if rows != [] {
      Complement(rows[..|rows| - 1], ids, others, p, f);
    }
  }

  /** In a quiet state where nothing was lost, the unapplied events are exactly the dead-lettered ones, and
      a count falls short of its rows by exactly their deltas. */
  lemma QuietShortfall(s: Sys, p: int, f: Field)
    requires Inv(s) && Kept(s) && Quiet(s) && p in s.db.posts && AllowedField(f)
    ensures forall i: nat :: i < |s.db.outbox| ==> (i in Dead(s) <==> i !in s.db.processed)
    ensures Count(s.db, p, f) + Net(s.db.outbox, Dead(s), p, f) == Rows(s.db, p, f)
  {
    forall i: nat | i < |s.db.outbox| ensures i in Dead(s) <==> i !in s.db.processed {
      assert Landed(s, i);
    }
    Complement(s.db.outbox, s.db.processed, Dead(s), p, f);
    Conservation(s.db, p, f);
  }

  lemma FreshRestart(s: Sys)
    requires Reachable(s) && !s.stale
    ensures var s' := RestartStep(s); Inv(s') && Kept(s') && s'.ch.open && s'.ch.timeouts == 0 && !s'.stale
  {
    var trace :| s == Run(Init(), trace);
    RunKept(trace);
    RestartWiring(s);
    KeptStays(s, Restart);
  }

  /** On a channel without timeouts a failure-free schedule loses nothing. */
  lemma {:induction false} FailureFreeKeeps(s: Sys, trace: seq<Action>)
    requires Inv(s) && Kept(s) && s.ch.open && s.ch.timeouts == 0 && !s.stale && FailureFree(s, trace)
    ensures var e := RunForward(s, trace); Inv(e) && Kept(e) && !e.stale
    decreases |trace|
  {
    if trace != [] {
      StepKeeps(s, trace[0]);
      ProgressIsCalm(s, trace[0]);
      ProgressIsAttributed(s, trace[0]);
      KeptStays(s, trace[0]);
      FailureFreeKeeps(Step(s, trace[0]), trace[1..]);
    }
  }

  /** Eventual exactness: from any state reached without a misattributed reply, restarting the worker and
      running any failure-free schedule until nothing more can be done leaves every count short of its
      rows by exactly the deltas of the dead-lettered unapplied events, and so equal to them iff these
      cancel out; with an empty dead-letter queue they are equal. */
  lemma EventuallyExact(s: Sys, trace: seq<Action>, p: int, f: Field)
    requires Reachable(s) && !s.stale
    requires FailureFree(RestartStep(s), trace)
    requires forall a :: !Progress(Run(RestartStep(s), trace), a)
    requires p in Run(RestartStep(s), trace).db.posts && AllowedField(f)
    ensures var e := Run(RestartStep(s), trace);
            && Count(e.db, p, f) + Net(e.db.outbox, Dead(e), p, f) == Rows(e.db, p, f)
            && (Count(e.db, p, f) == Rows(e.db, p, f) <==> Net(e.db.outbox, Dead(e), p, f) == 0)
            && (e.dlq == [] ==> Count(e.db, p, f) == Rows(e.db, p, f))
  {
    ForwardIsRun(RestartStep(s), trace);
    FreshRestart(s);
    var e := ScheduleDrains(RestartStep(s), trace);
    FailureFreeKeeps(RestartStep(s), trace);
    QuietShortfall(e, p, f);
    if e.dlq == [] {
      assert Dead(e) == {};
      NetOfNothing(e.db.outbox, p, f);
    }
  }

  lemma {:induction false} NetOfNothing(rows: seq<OutboxRow>, p: int, f: Field)
    ensures Net(rows, {}, p, f) == 0
  {
    if rows != [] {
      NetOfNothing(rows[..|rows| - 1], p, f);
    }
  }
}
