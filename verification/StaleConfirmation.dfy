/** Publish takes the next confirmation without comparing delivery tags (internal/mq/mq.go:116-127).
    After a timeout on a channel this marks an event on another message's confirmation; here is
    exactly what that costs. */
module StaleConfirmation {
  import opened Model
  import opened Interactions
  import opened Pipeline
  import opened Delivery

  /** Marked and not processed, with no copy on its way to the consumer. */
  ghost predicate OutOfReach(s: Sys, id: nat) {
    && id in s.db.marked
    && id !in s.db.processed
    && !HasId(s.queue, id) && !HasId(s.inbox, id)
    && forall i :: 0 <= i < |s.ch.wire| ==> s.ch.wire[i].msg.id != id
  }

  /** And it is not among the dead letters either. */
  ghost predicate Gone(s: Sys, id: nat) {
    OutOfReach(s, id) && !HasId(s.dlq, id)
  }

  /** A step that brings no copy nearer to the consumer. */
  lemma OutOfReachFrame(s: Sys, s': Sys, id: nat)
    requires OutOfReach(s, id) && s.db.marked <= s'.db.marked && s'.db.processed == s.db.processed
    requires s'.queue == s.queue && s'.dlq == s.dlq && (s'.inbox == s.inbox || s'.inbox == [])
    requires s'.ch.wire == s.ch.wire || s'.ch.wire == [] || (s.ch.wire != [] && s'.ch.wire == s.ch.wire[1..])
    ensures OutOfReach(s', id) && (HasId(s'.dlq, id) <==> HasId(s.dlq, id))
  {
  }

  lemma OutOfReachDelivered(s: Sys, id: nat)
    requires OutOfReach(s, id)
    ensures OutOfReach(DeliverStep(s), id)
  {
    if CanDeliver(s) { HasIdAppend(s.inbox, s.queue[s.unacked], id); }
  }

  lemma OutOfReachConsumed(s: Sys, fate: Fate, id: nat)
    requires OutOfReach(s, id)
    ensures OutOfReach(ConsumeStep(s, fate), id)
  {
    if s.inbox != [] { HasIdTail(s.inbox, id); }
  }

  lemma OutOfReachSettled(s: Sys, id: nat)
    requires OutOfReach(s, id)
    ensures OutOfReach(SettleStep(s), id) && (HasId(SettleStep(s).dlq, id) <==> HasId(s.dlq, id))
  {
    if s.inbox != [] { HasIdTail(s.inbox, id); }
    if s.queue != [] {
      HasIdTail(s.queue, id);
      HasIdAppend(s.dlq, s.queue[0], id);
    }
  }

  lemma OutOfReachSent(s: Sys, ok: bool, id: nat)
    requires Wiring(s) && OutOfReach(s, id)
    ensures OutOfReach(SendStep(s, ok), id)
  {
    if CanSend(s) { CloseLoop(s); }
  }

  lemma OutOfReachAccepted(s: Sys, id: nat)
    requires OutOfReach(s, id)
    ensures OutOfReach(AcceptStep(s), id)
  {
    if s.ch.open && s.ch.wire != [] { HasIdAppend(s.queue, s.ch.wire[0].msg, id); }
  }

  lemma LoopMovesNoCopy(s: Sys, a: Action)
    requires a.RelayFetch? || a.RelayConfirm? || a.RelayTimeout? || a.RelayClosed? || a.RelayMark?
    ensures var s' := Step(s, a);
            && s.db.marked <= s'.db.marked && s'.db.processed == s.db.processed
            && s'.queue == s.queue && s'.dlq == s.dlq && s'.inbox == s.inbox && s'.ch.wire == s.ch.wire
  {
  }

  lemma LossMovesNoCopy(s: Sys, a: Action)
    requires a.BrokerReject? || a.ChannelClose? || a.Restart?
    ensures var s' := Step(s, a);
            && s'.db == s.db && s'.queue == s.queue && s'.dlq == s.dlq && (s'.inbox == s.inbox || s'.inbox == [])
            && (s'.ch.wire == s.ch.wire || s'.ch.wire == [] || (s.ch.wire != [] && s'.ch.wire == s.ch.wire[1..]))
  {
  }

  lemma OutOfReachElse(s: Sys, a: Action, id: nat)
    requires OutOfReach(s, id) && (ByRelay(a) || a.BrokerReject? || a.ChannelClose? || a.Restart?) && !a.RelaySend?
    ensures OutOfReach(Step(s, a), id) && (HasId(Step(s, a).dlq, id) <==> HasId(s.dlq, id))
  {
    if ByRelay(a) { LoopMovesNoCopy(s, a); } else { LossMovesNoCopy(s, a); }
    OutOfReachFrame(s, Step(s, a), id);
  }

  lemma OutOfReachWritten(s: Sys, tx: Tx, id: nat)
    requires OutOfReach(s, id)
    ensures OutOfReach(Step(s, Client(tx)), id)
  {
    ClientAppends(s.db, tx);
  }

  lemma LettersKept(s: Sys, a: Action)
    requires !a.Settle?
    ensures Step(s, a).dlq == s.dlq
  {
  }

  lemma OutOfReachStays(s: Sys, a: Action, id: nat)
    requires Wiring(s) && OutOfReach(s, id)
    ensures OutOfReach(Step(s, a), id) && (HasId(Step(s, a).dlq, id) <==> HasId(s.dlq, id))
  {
    if !a.Settle? { LettersKept(s, a); }
    match a
    case Client(tx) => OutOfReachWritten(s, tx, id);
    case RelaySend(ok) => OutOfReachSent(s, ok, id);
    case BrokerAccept => OutOfReachAccepted(s, id);
    case Deliver => OutOfReachDelivered(s, id);
    case Consume(fate) => OutOfReachConsumed(s, fate, id);
    case Settle => OutOfReachSettled(s, id);
    case _ => OutOfReachElse(s, a, id);
  }

  /** A marked event with no copy in transit, dead-lettered or not, is applied in no continuation: no retry,
      redelivery or restart brings it back. */
  lemma {:induction false} OutOfReachForever(s: Sys, trace: seq<Action>, id: nat)
    requires Inv(s) && OutOfReach(s, id)
    ensures OutOfReach(Run(s, trace), id) && (HasId(Run(s, trace).dlq, id) <==> HasId(s.dlq, id))
  {
    if trace != [] {
      OutOfReachForever(s, trace[..|trace| - 1], id);
      RunKeeps(s, trace[..|trace| - 1]);
      OutOfReachStays(Run(s, trace[..|trace| - 1]), trace[|trace| - 1], id);
    }
  }

  /** A lost event is lost in every continuation, without a trace among the dead letters. */
  lemma GoneForever(s: Sys, trace: seq<Action>, id: nat)
    requires Inv(s) && Gone(s, id)
    ensures Gone(Run(s, trace), id)
  {
    OutOfReachForever(s, trace, id);
  }

  /** A positive reply is about to be read while the event being published has not landed. */
  ghost predicate WrongReply(s: Sys) {
    Waiting(s) && s.ch.confirms != [] && s.ch.confirms[0].ack && !Landed(s, s.relay.batch[0])
  }

  /** The steps that turn such a state into a loss: read the reply, stop the loop, mark, disconnect. */
  const LOSS: seq<Action> := [RelayConfirm, RelaySend(false), RelayMark(true), ChannelClose]

  lemma {:induction false} RunCons(s: Sys, a: Action, t: seq<Action>)
    ensures Run(s, [a] + t) == Run(Step(s, a), t)
  {
    RunConcat(s, [a], t);
    assert [a][..0] == [];
    assert Run(s, []) == s;
  }

  lemma RunTwo(s: Sys, a: Action, b: Action)
    ensures Run(s, [a, b]) == Step(Step(s, a), b)
  {
    RunCons(s, a, [b]);
    RunCons(Step(s, a), b, []);
    assert [a, b] == [a] + [b] && [b] == [b] + [];
  }

  lemma RunOne(s: Sys, a: Action)
    ensures Run(s, [a]) == Step(s, a)
  {
    RunCons(s, a, []);
    assert [a] == [a] + [];
  }

  /** Four steps, the states between them named. */
  lemma RunFour(s: Sys, t: seq<Action>, s1: Sys, s2: Sys, s3: Sys)
    requires |t| == 4 && Step(s, t[0]) == s1 && Step(s1, t[1]) == s2 && Step(s2, t[2]) == s3
    ensures Run(s, t) == Step(s3, t[3])
  {
    RunTwo(s, t[0], t[1]);
    RunTwo(s2, t[2], t[3]);
    RunConcat(s, [t[0], t[1]], [t[2], t[3]]);
    assert t == [t[0], t[1]] + [t[2], t[3]];
  }

  lemma LossIsFourSteps(s: Sys)
    ensures Run(s, LOSS) == CloseStep(MarkStep(SendStep(ConfirmStep(s), false), true))
  {
    var s1 := ConfirmStep(s);
    var s2 := SendStep(s1, false);
    RunFour(s, LOSS, s1, s2, MarkStep(s2, true));
  }

  /** After the reply is read the event counts as published, and the loop can be stopped and marked. */
  lemma WrongReplyMarks(s: Sys)
    requires Wiring(s) && WrongReply(s)
    ensures var s3 := MarkStep(SendStep(ConfirmStep(s), false), true);
            && s.relay.batch[0] in s3.db.marked && s3.db.processed == s.db.processed
            && s3.queue == s.queue && s3.inbox == s.inbox && s3.dlq == s.dlq
  {
    var s1 := ConfirmStep(s);
    ConfirmWiring(s);
    assert s1.relay.done[|s.relay.done|] == s.relay.batch[0];
    if s1.relay.batch != [] {
      assert (s1.relay.done + s1.relay.batch)[|s1.relay.done|] == s1.relay.batch[0];
      assert CanSend(s1);
    }
    assert s.relay.batch[0] in IdSet(s1.relay.done);
  }

  lemma InboxIsQueued(s: Sys, id: nat)
    requires ConsumerView(s) && s.ch.open && HasId(s.inbox, id)
    ensures HasId(s.queue, id)
  {
  }

  /** From every such state those four steps lose the event for good. */
  lemma WrongReplyLoses(s: Sys)
    requires Inv(s) && WrongReply(s)
    ensures Gone(Run(s, LOSS), s.relay.batch[0])
  {
    var id := s.relay.batch[0];
    LossIsFourSteps(s);
    WrongReplyMarks(s);
    if HasId(s.inbox, id) { InboxIsQueued(s, id); }
    var end := Run(s, LOSS);
    assert end.ch.wire == [] && end.queue == s.queue && end.inbox == s.inbox && end.dlq == s.dlq;
  }

  /** In a run without stale confirmations so far, a Publish that consumes a positive reply has landed
      its event if no earlier Publish on the channel timed out. */
  lemma OwnReplyLands(s: Sys)
    requires Reachable(s) && !s.stale
    requires Waiting(s) && s.ch.confirms != [] && s.ch.confirms[0].ack && s.ch.timeouts == 0
    ensures Landed(s, s.relay.batch[0])
  {
    var trace :| s == Run(Init(), trace);
    RunKept(trace);
    ConfirmationAttribution(s);
  }

  /** The run that goes wrong: a timed-out publish leaves its reply behind, the retry of event 0 reads
      it, and event 1 reads event 0's. */
  const BEFORE: seq<Action> := [
    Client(CreatePost(1, "p", 0)), Client(Like(2, 1, 1)), Client(Like(3, 1, 2)),
    RelayFetch, RelaySend(true), RelayTimeout, RelayMark(true), BrokerAccept,
    RelayFetch, RelaySend(true), RelayConfirm, BrokerAccept, RelaySend(true)]

  /** Two likes committed, nothing published yet. */
  ghost predicate TwoEvents(s: Sys) {
    && |s.db.outbox| == 2 && CommitOrder(s.db.outbox) && s.db.marked == {} && s.db.processed == {}
    && s == Init().(db := s.db)
  }

  lemma TwoLikes()
    ensures TwoEvents(Run(Init(), BEFORE[..3]))
  {
    RunCons(Init(), BEFORE[0], BEFORE[1..3]);
    var s1 := Step(Init(), BEFORE[0]);
    RunCons(s1, BEFORE[1], BEFORE[2..3]);
    var s2 := Step(s1, BEFORE[1]);
    RunCons(s2, BEFORE[2], []);
    assert BEFORE[..3] == [BEFORE[0]] + BEFORE[1..3] && BEFORE[1..3] == [BEFORE[1]] + BEFORE[2..3];
    assert BEFORE[2..3] == [BEFORE[2]] + [];
    assert 1 in s1.db.posts && LikeRow(1, 2) !in s1.db.likes;
    assert 1 in s2.db.posts && LikeRow(1, 3) !in s2.db.likes;
  }

  lemma FirstRoundSteps(s: Sys)
    ensures Run(s, BEFORE[3..8]) == AcceptStep(MarkStep(TimeoutStep(SendStep(FetchStep(s), true)), true))
  {
    var s1 := FetchStep(s);
    var s2 := SendStep(s1, true);
    var s3 := TimeoutStep(s2);
    RunCons(s, BEFORE[3], BEFORE[4..8]);
    RunFour(s1, BEFORE[4..8], s2, s3, MarkStep(s3, true));
    assert BEFORE[3..8] == [BEFORE[3]] + BEFORE[4..8];
  }

  /** The first round publishes event 0, gives up waiting, and the broker accepts it afterwards. */
  lemma TimedOutRound(s: Sys)
    requires TwoEvents(s)
    ensures var m := MessageOf(s.db, 0);
            Run(s, BEFORE[3..8]) ==
            s.(ch := Channel(true, [m], [], [Confirmation(0, true)], 1), queue := [m])
  {
    FirstRoundSteps(s);
    FetchAll(s.db);
    var m := MessageOf(s.db, 0);
    var s2 := SendStep(FetchStep(s), true);
    assert s2 == s.(ch := Channel(true, [m], [Publishing(0, m)], [], 0), relay := Looping([0, 1], [], true));
    var s4 := MarkStep(TimeoutStep(s2), true);
    assert s4 == s.(ch := Channel(true, [m], [Publishing(0, m)], [], 1));
    AllKeysBound(m.key);
  }

  lemma FetchAll(db: Db)
    requires |db.outbox| == 2 && CommitOrder(db.outbox) && db.marked == {}
    ensures FetchPending(db, BATCH) == [0, 1]
  {
    assert db.marked == Below(0);
    PendingInCommitOrder(db, 0);
    assert Pending(db) == [0, 1];
  }

  lemma SecondRoundSteps(s: Sys)
    ensures Run(s, BEFORE[8..]) == SendStep(AcceptStep(ConfirmStep(SendStep(FetchStep(s), true))), true)
  {
    var s1 := FetchStep(s);
    var s2 := SendStep(s1, true);
    var s3 := ConfirmStep(s2);
    RunCons(s, BEFORE[8], BEFORE[9..]);
    RunFour(s1, BEFORE[9..], s2, s3, AcceptStep(s3));
    assert BEFORE[8..] == [BEFORE[8]] + BEFORE[9..];
  }

  /** The second round: event 0 reads its own first reply, event 1 is left to read event 0's second. */
  lemma SecondRound(s: Sys, db: Db)
    requires |db.outbox| == 2 && CommitOrder(db.outbox) && db.marked == {} && db.processed == {}
    requires s == Init().(db := db, ch := Channel(true, [MessageOf(db, 0)], [], [Confirmation(0, true)], 1),
                          queue := [MessageOf(db, 0)])
    ensures var e := Run(s, BEFORE[8..]); WrongReply(e) && e.relay.batch[0] == 1 && e.ch.timeouts == 1
  {
    SecondRoundSteps(s);
    FetchAll(db);
    var m := MessageOf(db, 0);
    AllKeysBound(m.key);
    var s3 := ConfirmStep(SendStep(FetchStep(s), true));
    assert s3.relay == Looping([1], [0], false) && s3.ch == Channel(true, [m, m], [Publishing(1, m)], [], 1);
    var s4 := AcceptStep(s3);
    assert s4.ch.confirms == [Confirmation(1, true)] && s4.queue == [m, m] && s4.relay == s3.relay;
    var s5 := SendStep(s4, true);
    assert s5.relay == Looping([1], [0], true) && s5.queue == [m, m] && s5.db == db;
  }

  /** Such a state is reachable, so losing an event is possible once a publish has timed out. */
  lemma LossIsReachable()
    ensures Reachable(Run(Init(), BEFORE)) && WrongReply(Run(Init(), BEFORE))
    ensures Gone(Run(Init(), BEFORE + LOSS), 1)
  {
    var s1 := Run(Init(), BEFORE[..3]);
    TwoLikes();
    TimedOutRound(s1);
    SecondRound(Run(s1, BEFORE[3..8]), s1.db);
    RunConcat(Init(), BEFORE[..3], BEFORE[3..8] + BEFORE[8..]);
    RunConcat(s1, BEFORE[3..8], BEFORE[8..]);
    assert BEFORE == BEFORE[..3] + (BEFORE[3..8] + BEFORE[8..]);
    InitInv();
    RunKeeps(Init(), BEFORE);
    WrongReplyLoses(Run(Init(), BEFORE));
    RunConcat(Init(), BEFORE, LOSS);
  }
}
