/** Counts lag, but they never lie: while no reply is misattributed, no unapplied event is given up and each
    fetch returns the rows that come next in commit order, the consumed events are a prefix of the outbox,
    so the stored counts are the exact row counts of one past moment, the same for every post and both
    columns. */
module Snapshot {
  import opened Model
  import opened Interactions
  import opened Pipeline
  import opened Delivery

  function Max(a: nat, b: nat): nat {
    if a < b then b else a
  }

  /** Reading ms after events 0..k-1, each message is a repeat or the next new event. */
  predicate NoSkip(k: nat, ms: seq<Message>)
    decreases |ms|
  {
    ms == [] || (ms[0].id <= k && NoSkip(Max(k, ms[0].id + 1), ms[1..]))
  }

  /** How many events are known after also reading ms. */
  function Walk(k: nat, ms: seq<Message>): nat
    decreases |ms|
  {
    if ms == [] then k else Walk(Max(k, ms[0].id + 1), ms[1..])
  }

  lemma {:induction false} WalkGrows(k: nat, k': nat, ms: seq<Message>)
    requires k <= k'
    ensures k <= Walk(k, ms) <= Walk(k', ms)
    ensures NoSkip(k, ms) ==> NoSkip(k', ms)
    decreases |ms|
  {
    if ms != [] {
      WalkGrows(Max(k, ms[0].id + 1), Max(k', ms[0].id + 1), ms[1..]);
    }
  }

  lemma {:induction false} WalkAppend(k: nat, ms: seq<Message>, m: Message)
    requires NoSkip(k, ms) && m.id <= Walk(k, ms)
    ensures NoSkip(k, ms + [m]) && Walk(k, ms + [m]) == Max(Walk(k, ms), m.id + 1)
    decreases |ms|
  {
    if ms == [] {
      assert [m] + [] == [m] && [m][1..] == [];
    } else {
      WalkAppend(Max(k, ms[0].id + 1), ms[1..], m);
      assert (ms + [m])[1..] == ms[1..] + [m];
    }
  }

  lemma {:induction false} NoSkipPrefix(k: nat, ms: seq<Message>, n: nat)
    requires NoSkip(k, ms) && n <= |ms|
    ensures NoSkip(k, ms[..n])
    decreases |ms|
  {
    if n > 0 {
      NoSkipPrefix(Max(k, ms[0].id + 1), ms[1..], n - 1);
      assert ms[..n][1..] == ms[1..][..n - 1];
    }
  }

  /** With a prefix marked, a fetch continues it iff none of the rows it has room for has a larger id than a
      row committed after it; rows marked before do not matter. */
  lemma FetchIsSuffix(db: Db)
    requires db.marked == Below(|db.marked|) && |db.marked| <= |db.outbox|
    ensures var m := |db.marked|;
            var n := if |db.outbox| - m <= 100 then |db.outbox| - m else 100;
            && |FetchPending(db, BATCH)| == n
            && (Continues(db, FetchPending(db, BATCH)) <==> FirstOrdered(db.outbox, m, n))
  {
    var m := |db.marked|;
    var n := if |db.outbox| - m <= BATCH then |db.outbox| - m else BATCH;
    FetchSize(db);
    FetchInCommitOrder(db, m, BATCH);
    assert Continues(db, FetchPending(db, BATCH)) <==> FetchPending(db, BATCH) == Range(m, m + n);
  }

  lemma {:induction false} InsertSize(rows: seq<OutboxRow>, i: nat, ids: seq<nat>)
    ensures |InsertBySerial(rows, i, ids)| == |ids| + 1
  {
    if ids != [] && SerialOf(rows, i) >= SerialOf(rows, ids[0]) { InsertSize(rows, i, ids[1..]); }
  }

  lemma {:induction false} PendingSize(rows: seq<OutboxRow>, marked: set<nat>, m: nat, n: nat)
    requires (forall i: nat :: i in marked <==> i < m)
    ensures |PendingAmong(rows, marked, n)| == if n >= m then n - m else 0
  {
    if n > 0 {
      PendingSize(rows, marked, m, n - 1);
      InsertSize(rows, n - 1, PendingAmong(rows, marked, n - 1));
    }
  }

  lemma FetchSize(db: Db)
    requires db.marked == Below(|db.marked|) && |db.marked| <= |db.outbox|
    ensures var left := |db.outbox| - |db.marked|; |FetchPending(db, BATCH)| == if left <= BATCH then left else BATCH
  {
    PendingSize(db.outbox, db.marked, |db.marked|, |db.outbox|);
  }

  lemma ExtendBelow(m: nat, ids: seq<nat>)
    requires forall i :: 0 <= i < |ids| ==> ids[i] == m + i
    ensures Below(m) + IdSet(ids) == Below(m + |ids|)
  {
    forall i: nat ensures i in Below(m) + IdSet(ids) <==> i in Below(m + |ids|) {
      if m <= i < m + |ids| { assert ids[i - m] == i; }
    }
  }

  lemma MarkExtendsPrefix(db: Db, m: nat, ids: seq<nat>)
    requires db.marked == Below(m)
    requires forall i :: 0 <= i < |ids| ==> ids[i] == m + i
    ensures MarkProcessed(db, ids).marked == Below(m + |ids|)
    ensures |db.marked| == m && |MarkProcessed(db, ids).marked| == m + |ids|
  {
    var n := m + |ids|;
    assert MarkProcessed(db, ids).marked == Below(n) by { ExtendBelow(m, ids); }
    assert |Below(m)| == m by { BelowSize(m); }
    assert |Below(n)| == n by { BelowSize(n); }
  }

  /** The marked events are a prefix of the outbox and the round in progress continues it. */
  ghost predicate RoundInOrder(s: Sys) {
    && s.db.marked == Below(|s.db.marked|) && |s.db.marked| <= |s.db.outbox|
    && match s.relay
       case Idle => true
       case Closing(done) => Continues(s.db, done)
       case Looping(batch, done, _) => Continues(s.db, done + batch)
  }

  /** The event being published, and what is left of the round if the loop ends here. */
  lemma RoundParts(s: Sys)
    requires RoundInOrder(s) && s.relay.Looping?
    ensures Continues(s.db, s.relay.done)
    ensures s.relay.batch != [] ==> s.relay.batch[0] == |s.db.marked| + |s.relay.done|
  {
    var ids := s.relay.done + s.relay.batch;
    assert forall i :: 0 <= i < |s.relay.done| ==> ids[i] == s.relay.done[i];
    assert s.relay.batch != [] ==> ids[|s.relay.done|] == s.relay.batch[0];
  }

  /** Events 0..k-1 are applied; the queue, the consumer and the wire only repeat known events or continue
      with the next, and whatever was or may yet be counted as published is known. */
  ghost predicate TrafficInOrder(s: Sys) {
    var k := |s.db.processed|;
    var known := Walk(k, s.queue);
    && s.db.processed == Below(k)
    && NoSkip(k, s.queue) && NoSkip(k, s.inbox)
    && (forall i :: 0 <= i < |s.ch.wire| ==> s.ch.wire[i].msg.id <= known)
    && |s.db.marked| + |Done(s.relay)| <= known
    && (forall i :: 0 <= i < |s.ch.confirms| && s.ch.confirms[i].ack ==> Replied(s, i).id < known)
  }

  ghost predicate InOrder(s: Sys) {
    RoundInOrder(s) && TrafficInOrder(s)
  }

  /** Order is about traffic: a step that moves no message, and counts no more events as published, keeps it. */
  lemma SameTraffic(s: Sys, s': Sys)
    requires TrafficInOrder(s)
    requires s'.db.processed == s.db.processed
    requires s'.ch.sent == s.ch.sent && s'.ch.wire == s.ch.wire && s'.ch.confirms == s.ch.confirms
    requires s'.queue == s.queue && s'.inbox == s.inbox
    requires |s'.db.marked| + |Done(s'.relay)| <= |s.db.marked| + |Done(s.relay)|
    ensures TrafficInOrder(s')
  {
  }

  /** Broker, consumer and clients leave the relay's round alone. */
  lemma SameRound(s: Sys, s': Sys)
    requires RoundInOrder(s) && s'.db.marked == s.db.marked && |s.db.outbox| <= |s'.db.outbox|
    requires s'.relay == s.relay || s'.relay == Idle
    ensures RoundInOrder(s')
  {
  }

  lemma SendInOrder(s: Sys, ok: bool)
    requires Wiring(s) && RoundInOrder(s) && TrafficInOrder(s)
    ensures TrafficInOrder(SendStep(s, ok))
  {
    if CanSend(s) {
      RoundParts(s);
      var s' := SendStep(s, ok);
      assert s.ch.sent <= s'.ch.sent;
      forall i | 0 <= i < |s'.ch.confirms| && s'.ch.confirms[i].ack
        ensures Replied(s', i).id < Walk(|s.db.processed|, s.queue)
      {
        assert Replied(s', i) == Replied(s, i);
      }
    }
  }

  /** A positive reply to the event itself says that it is known. */
  lemma ConfirmInOrder(s: Sys)
    requires Wiring(s) && RoundInOrder(s) && TrafficInOrder(s) && !ConfirmStep(s).stale
    ensures TrafficInOrder(ConfirmStep(s))
  {
    if Waiting(s) && s.ch.confirms != [] {
      RoundParts(s);
      var s' := ConfirmStep(s);
      assert s.ch.confirms[0].ack ==> Replied(s, 0).id == s.relay.batch[0];
      assert forall i :: 0 <= i < |s'.ch.confirms| ==> Replied(s', i) == Replied(s, i + 1);
    }
  }

  /** A mark lengthens the marked prefix by the round's confirmed events. */
  lemma MarkedRound(s: Sys, ok: bool)
    requires RoundInOrder(s) && RoundSound(s) && CanMark(s)
    ensures RoundInOrder(MarkStep(s, ok))
    ensures |MarkStep(s, ok).db.marked| <= |s.db.marked| + |s.relay.done|
  {
    if ok && s.relay.done != [] {
      if s.relay.Looping? {
        RoundParts(s);
        CloseLoop(s);
      }
      var done := s.relay.done;
      MarkExtendsPrefix(s.db, |s.db.marked|, done);
      assert done[|done| - 1] < |s.db.outbox|;
    }
  }

  lemma ConfirmedRound(s: Sys)
    requires RoundInOrder(s)
    ensures RoundInOrder(ConfirmStep(s))
  {
    if Waiting(s) && s.ch.confirms != [] {
      RoundParts(s);
      assert (s.relay.done + [s.relay.batch[0]]) + s.relay.batch[1..] == s.relay.done + s.relay.batch;
    }
  }

  lemma EndedRound(s: Sys, ok: bool)
    requires RoundInOrder(s)
    ensures RoundInOrder(SendStep(s, ok)) && RoundInOrder(TimeoutStep(s)) && RoundInOrder(ClosedStep(s))
  {
    if s.relay.Looping? { RoundParts(s); }
  }

  lemma FetchedRound(s: Sys)
    requires RoundInOrder(s) && !FetchStep(s).shuffled
    ensures RoundInOrder(FetchStep(s))
  {
    assert [] + FetchPending(s.db, BATCH) == FetchPending(s.db, BATCH);
  }

  lemma AcceptInOrder(s: Sys)
    requires Wiring(s) && TrafficInOrder(s)
    ensures TrafficInOrder(AcceptStep(s))
  {
    if s.ch.open && s.ch.wire != [] {
      var m := s.ch.wire[0].msg;
      AllKeysBound(m.key);
      WalkAppend(|s.db.processed|, s.queue, m);
      BrokerReplies(s, AcceptStep(s), true);
    }
  }

  lemma RejectInOrder(s: Sys)
    requires Wiring(s) && TrafficInOrder(s)
    ensures TrafficInOrder(RejectStep(s))
  {
  }

  lemma BrokerReplies(s: Sys, s': Sys, ack: bool)
    requires Fifo(s) && s.ch.wire != [] && s'.ch.sent == s.ch.sent
    requires s'.ch.confirms == s.ch.confirms + [Confirmation(s.ch.wire[0].tag, ack)]
    ensures Replied(s', |s.ch.confirms|) == s.ch.wire[0].msg
    ensures forall i :: 0 <= i < |s.ch.confirms| ==> Replied(s', i) == Replied(s, i)
  {
  }

  /** Applying event k after events 0..k-1. */
  lemma NextApplied(s: Sys, s': Sys)
    requires TrafficInOrder(s)
    requires s'.db.processed == s.db.processed + {|s.db.processed|} && s'.db.marked == s.db.marked
    requires s'.ch == s.ch && s'.relay == s.relay && s'.queue == s.queue && s'.inbox == s.inbox
    ensures TrafficInOrder(s')
  {
    var k := |s.db.processed|;
    assert s'.db.processed == Below(k + 1);
    assert |s'.db.processed| == k + 1 by { BelowSize(k + 1); }
    WalkGrows(k, k + 1, s.queue);
    WalkGrows(k, k + 1, s.inbox);
    assert forall i :: 0 <= i < |s.ch.confirms| ==> Replied(s', i) == Replied(s, i);
  }

  lemma ConsumeInOrder(s: Sys, fate: Fate)
    requires Wiring(s) && TrafficInOrder(s)
    ensures TrafficInOrder(ConsumeStep(s, fate))
  {
    if CanConsume(s) {
      var k, id, s' := |s.db.processed|, s.inbox[0].id, ConsumeStep(s, fate);
      var r := ApplyTx(s.db, id, s.inbox[0].body);
      assert id <= k;
      if r.Err? || fate.RolledBack? || id in s.db.processed {
        assert s'.db == s.db;
      } else {
        assert id == k;
        NextApplied(s, s');
      }
    }
  }

  lemma SettleInOrder(s: Sys)
    requires Wiring(s) && TrafficInOrder(s) && !GivesUp(s)
    ensures TrafficInOrder(SettleStep(s))
  {
    var s' := SettleStep(s);
    if s.inbox != [] && s.verdict.Some? {
      var ok := s.verdict.value;
      assert s.verdict == if ok then Some(true) else Some(false);
      assert s.inbox[0].id in s.db.processed;
      if s.ch.open && s.unacked != 0 && s.queue != [] {
        assert s.inbox[0] == s.queue[0];
      }
      assert forall i :: 0 <= i < |s.ch.confirms| ==> Replied(s', i) == Replied(s, i);
    }
  }

  lemma DeliverInOrder(s: Sys)
    requires Wiring(s) && TrafficInOrder(s)
    ensures TrafficInOrder(DeliverStep(s))
  {
    if CanDeliver(s) {
      NoSkipPrefix(|s.db.processed|, s.queue, s.unacked + 1);
      assert s.queue[..s.unacked + 1] == s.inbox + [s.queue[s.unacked]];
      assert forall i :: 0 <= i < |s.ch.confirms| ==> Replied(DeliverStep(s), i) == Replied(s, i);
    }
  }

  lemma ResetInOrder(s: Sys)
    requires TrafficInOrder(s)
    ensures TrafficInOrder(CloseStep(s)) && TrafficInOrder(RestartStep(s))
  {
  }

  // ---------- Every step keeps the order ----------

  /** The relay's round stays in order as long as fetches are. */
  lemma RoundStays(s: Sys, a: Action)
    requires RoundSound(s) && RoundInOrder(s) && !Step(s, a).shuffled
    ensures RoundInOrder(Step(s, a))
  {
    match a
    case Client(tx) =>
      ClientAppends(s.db, tx);
      SameRound(s, Step(s, a));
    case RelayFetch => FetchedRound(s);
    case RelaySend(ok) => EndedRound(s, ok);
    case RelayConfirm => ConfirmedRound(s);
    case RelayTimeout => EndedRound(s, true);
    case RelayClosed => EndedRound(s, true);
    case RelayMark(ok) => if CanMark(s) { MarkedRound(s, ok); }
    case _ => OthersRound(s, a);
  }

  predicate NotRelay(a: Action) {
    a.BrokerAccept? || a.BrokerReject? || a.Deliver? || a.Consume? || a.Settle? || a.ChannelClose? || a.Restart?
  }

  lemma OthersRound(s: Sys, a: Action)
    requires RoundInOrder(s) && NotRelay(a)
    ensures RoundInOrder(Step(s, a))
  {
    SameRound(s, Step(s, a));
  }

  lemma RelayTraffic(s: Sys, a: Action)
    requires Wiring(s) && RoundInOrder(s) && TrafficInOrder(s) && !Step(s, a).stale
    requires a.RelayFetch? || a.RelaySend? || a.RelayConfirm? || a.RelayTimeout? || a.RelayClosed? || a.RelayMark?
    ensures TrafficInOrder(Step(s, a))
  {
    match a {
      case RelaySend(ok) => SendInOrder(s, ok);
      case RelayConfirm => ConfirmInOrder(s);
      case RelayMark(ok) => MarkTraffic(s, ok);
      case RelayFetch => FetchTraffic(s);
      case _ => WaitTraffic(s);
    }
  }

  lemma MarkTraffic(s: Sys, ok: bool)
    requires Wiring(s) && RoundInOrder(s) && TrafficInOrder(s)
    ensures TrafficInOrder(MarkStep(s, ok))
  {
    if CanMark(s) { MarkedRound(s, ok); }
    SameTraffic(s, MarkStep(s, ok));
  }

  lemma FetchTraffic(s: Sys)
    requires TrafficInOrder(s)
    ensures TrafficInOrder(FetchStep(s))
  {
    SameTraffic(s, FetchStep(s));
  }

  lemma WaitTraffic(s: Sys)
    requires TrafficInOrder(s)
    ensures TrafficInOrder(TimeoutStep(s)) && TrafficInOrder(ClosedStep(s))
  {
    SameTraffic(s, TimeoutStep(s));
    SameTraffic(s, ClosedStep(s));
  }

  lemma BrokerTraffic(s: Sys, a: Action)
    requires Wiring(s) && TrafficInOrder(s) && (a.BrokerAccept? || a.BrokerReject?)
    ensures TrafficInOrder(Step(s, a))
  {
    if a.BrokerAccept? { AcceptInOrder(s); } else { RejectInOrder(s); }
  }

  lemma ConsumerTraffic(s: Sys, a: Action)
    requires Wiring(s) && TrafficInOrder(s) && (a.Deliver? || a.Consume? || a.Settle?) && !(a.Settle? && GivesUp(s))
    ensures TrafficInOrder(Step(s, a))
  {
    if a.Deliver? { DeliverInOrder(s); } else if a.Consume? { ConsumeInOrder(s, a.fate); } else { SettleInOrder(s); }
  }

  lemma ResetTraffic(s: Sys, a: Action)
    requires TrafficInOrder(s) && (a.ChannelClose? || a.Restart?)
    ensures TrafficInOrder(Step(s, a))
  {
    ResetInOrder(s);
    assert Step(s, a) == if a.ChannelClose? then CloseStep(s) else RestartStep(s);
  }

  lemma ClientTraffic(s: Sys, tx: Tx)
    requires TrafficInOrder(s)
    ensures TrafficInOrder(Step(s, Client(tx)))
  {
    ClientAppends(s.db, tx);
    SameTraffic(s, Step(s, Client(tx)));
  }

  lemma TrafficStays(s: Sys, a: Action)
    requires Wiring(s) && RoundInOrder(s) && TrafficInOrder(s) && !Step(s, a).stale && !(a.Settle? && GivesUp(s))
    ensures TrafficInOrder(Step(s, a))
  {
    if a.Client? {
      ClientTraffic(s, a.tx);
    } else if a.BrokerAccept? || a.BrokerReject? {
      BrokerTraffic(s, a);
    } else if a.Deliver? || a.Consume? || a.Settle? {
      ConsumerTraffic(s, a);
    } else if a.ChannelClose? || a.Restart? {
      ResetTraffic(s, a);
    } else {
      RelayTraffic(s, a);
    }
  }

  lemma InOrderStays(s: Sys, a: Action)
    requires Wiring(s) && InOrder(s)
    requires !Step(s, a).stale && !Step(s, a).shuffled && !(a.Settle? && GivesUp(s))
    ensures InOrder(Step(s, a))
  {
    RoundStays(s, a);
    TrafficStays(s, a);
  }

  lemma OutboxGrows(s: Sys, a: Action)
    ensures s.db.outbox <= Step(s, a).db.outbox && |Step(s, a).db.outbox| <= |s.db.outbox| + 1
  {
    if a.Client? { ClientAppends(s.db, a.tx); } else { SameRows(s, a); }
  }

  /** So far no reply was misattributed, no unapplied event given up, and no fetch out of commit order. */
  predicate Orderly(s: Sys) {
    !s.stale && !s.nacked && !s.shuffled
  }

  lemma OrderlyBefore(s: Sys, a: Action)
    requires Orderly(Step(s, a))
    ensures Orderly(s) && !(a.Settle? && GivesUp(s))
  {
    StaleStays(s, a);
  }

  lemma {:induction false} RunStaysInOrder(s: Sys, trace: seq<Action>)
    requires Inv(s) && InOrder(s) && Orderly(Run(s, trace))
    ensures Inv(Run(s, trace)) && InOrder(Run(s, trace)) && Orderly(s)
  {
    if trace != [] {
      var before, a := Run(s, trace[..|trace| - 1]), trace[|trace| - 1];
      OrderlyBefore(before, a);
      RunStaysInOrder(s, trace[..|trace| - 1]);
      StepKeeps(before, a);
      InOrderStays(before, a);
    }
  }

  lemma RunInOrder(trace: seq<Action>)
    requires Orderly(Run(Init(), trace))
    ensures Inv(Run(Init(), trace)) && InOrder(Run(Init(), trace))
  {
    InitInv();
    InitInOrder();
    RunStaysInOrder(Init(), trace);
  }

  lemma InitInOrder()
    ensures InOrder(Init())
  {
    assert Init().db.processed == Below(0) && Init().db.marked == Below(0);
  }

  // ---------- Ids in commit order are enough ----------

  lemma OrderedStep(s: Sys, a: Action)
    requires RoundInOrder(s) && OrderedFrom(s.db.outbox, |s.db.marked|)
    ensures Step(s, a).shuffled == s.shuffled
  {
    if a.RelayFetch? { OrderedFetch(s); } else { OnlyFetchShuffles(s, a); }
  }

  lemma OrderedFetch(s: Sys)
    requires RoundInOrder(s) && OrderedFrom(s.db.outbox, |s.db.marked|)
    ensures FetchStep(s).shuffled == s.shuffled
  {
    FetchIsSuffix(s.db);
  }

  lemma OnlyFetchShuffles(s: Sys, a: Action)
    requires !a.RelayFetch?
    ensures Step(s, a).shuffled == s.shuffled
  {
  }

  lemma MarksGrow(s: Sys, a: Action)
    requires RoundInOrder(s)
    ensures |s.db.marked| <= |Step(s, a).db.marked|
  {
    match a
    case Client(tx) => ClientAppends(s.db, tx);
    case RelayMark(ok) =>
      if CanMark(s) && ok && s.relay.done != [] {
        if s.relay.Looping? { RoundParts(s); }
        MarkExtendsPrefix(s.db, |s.db.marked|, s.relay.done);
      }
    case _ =>
  }

  lemma OrderedBefore(rows: seq<OutboxRow>, rows': seq<OutboxRow>, m: nat, m': nat)
    requires rows <= rows' && OrderedFrom(rows', m) && m <= m'
    ensures OrderedFrom(rows, m')
  {
    assert forall i :: 0 <= i < |rows| ==> rows[i] == rows'[i];
  }

  lemma IdsKeepOneStep(s: Sys, a: Action, m: nat)
    requires Inv(s) && InOrder(s) && Orderly(s) && !Step(s, a).stale && !Step(s, a).nacked
    requires m <= |s.db.marked| && OrderedFrom(s.db.outbox, m)
    ensures var s' := Step(s, a); Inv(s') && InOrder(s') && Orderly(s') && m <= |s'.db.marked|
  {
    OrderedBefore(s.db.outbox, s.db.outbox, m, |s.db.marked|);
    OrderedStep(s, a);
    OrderlyBefore(s, a);
    StepKeeps(s, a);
    MarksGrow(s, a);
    InOrderStays(s, a);
  }

  /** From an ordered state, if the rows not yet marked, and those that follow them, commit in the order of
      their ids, no fetch is ever out of order. */
  lemma {:induction false} IdsKeepOrder(s: Sys, trace: seq<Action>)
    requires Inv(s) && InOrder(s) && Orderly(s) && !Run(s, trace).stale && !Run(s, trace).nacked
    requires OrderedFrom(Run(s, trace).db.outbox, |s.db.marked|)
    ensures var e := Run(s, trace); Inv(e) && InOrder(e) && Orderly(e) && |s.db.marked| <= |e.db.marked|
  {
    if trace != [] {
      var before, a := Run(s, trace[..|trace| - 1]), trace[|trace| - 1];
      StaleStays(before, a);
      OutboxGrows(before, a);
      OrderedBefore(before.db.outbox, Step(before, a).db.outbox, |s.db.marked|, |s.db.marked|);
      IdsKeepOrder(s, trace[..|trace| - 1]);
      IdsKeepOneStep(before, a, |s.db.marked|);
    }
  }

  /** In particular a run whose rows all commit in the order of their ids is orderly if no reply is
      misattributed and no unapplied event given up. */
  lemma CommitOrderIsOrderly(trace: seq<Action>)
    requires var e := Run(Init(), trace); !e.stale && !e.nacked && CommitOrder(e.db.outbox)
    ensures Orderly(Run(Init(), trace))
  {
    InitInv();
    InitInOrder();
    IdsKeepOrder(Init(), trace);
  }

  /** The processed ids are a prefix of the outbox ids. */
  lemma ProcessedIsPrefix(s: Sys)
    requires Reachable(s) && Orderly(s)
    ensures exists k: nat :: k <= |s.db.outbox| && s.db.processed == Below(k)
  {
    var trace :| s == Run(Init(), trace);
    RunInOrder(trace);
    PrefixFits(s.db, |s.db.processed|);
  }

  lemma PrefixFits(db: Db, k: nat)
    requires WellFormed(db) && db.processed == Below(k)
    ensures k <= |db.outbox|
  {
  }

  // ---------- The past moment ----------

  /** Every outbox length up to the present one was the length at some earlier point of the run. */
  lemma {:induction false} MomentOfLength(trace: seq<Action>, k: nat) returns (j: nat)
    requires k <= |Run(Init(), trace).db.outbox|
    ensures j <= |trace|
    ensures Run(Init(), trace[..j]).db.outbox == Run(Init(), trace).db.outbox[..k]
  {
    if k == |Run(Init(), trace).db.outbox| {
      j := |trace|;
      assert trace[..j] == trace;
    } else {
      var before := trace[..|trace| - 1];
      OutboxGrows(Run(Init(), before), trace[|trace| - 1]);
      j := MomentOfLength(before, k);
      assert before[..j] == trace[..j];
    }
  }

  lemma RowsAreTotal(db: Db, p: int, f: Field)
    requires Balanced(db) && AllowedField(f)
    ensures Rows(db, p, f) == Total(db.outbox, p, f)
  {
    assert LedgerAt(db, p, f);
    if p !in db.posts {
      NoEventsForNewPost(db.outbox, {}, p, f);
      NoRowsForNewPost(db, p);
    }
  }

  /** At any point of such a run there is one earlier point j at which the like and comment rows of
      every post numbered exactly what the count columns say now.  So no count is ever negative. */
  lemma SnapshotCounts(trace: seq<Action>) returns (j: nat)
    requires Orderly(Run(Init(), trace))
    ensures j <= |trace|
    ensures var now, then_ := Run(Init(), trace).db, Run(Init(), trace[..j]).db;
            forall p, f :: p in now.posts && AllowedField(f) ==> Count(now, p, f) == Rows(then_, p, f)
  {
    RunInOrder(trace);
    var now := Run(Init(), trace).db;
    var k := |now.processed|;
    PrefixFits(now, k);
    j := MomentOfLength(trace, k);
    var before := Run(Init(), trace[..j]).db;
    InitInv();
    RunKeeps(Init(), trace[..j]);
    forall p, f | p in now.posts && AllowedField(f) ensures Count(now, p, f) == Rows(before, p, f) {
      assert LedgerAt(now, p, f);
      RowsAreTotal(before, p, f);
      NetOfPrefix(now.outbox, k, p, f);
    }
  }
}
