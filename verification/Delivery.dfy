/** Nothing is lost: as long as no Publish has taken the positive reply to another event for its own, every
    event the relay has marked is with the broker or the consumer. */
module Delivery {
  import opened Model
  import opened Interactions
  import opened Pipeline

  ghost predicate HasId(ms: seq<Message>, id: nat) {
    exists i :: 0 <= i < |ms| && ms[i].id == id
  }

  /** The broker or the consumer has the event: applied, queued, or dead-lettered. */
  ghost predicate Landed(s: Sys, id: nat) {
    id in s.db.processed || HasId(s.queue, id) || HasId(s.dlq, id)
  }

  function Done(r: Relay): seq<nat> {
    if r.Idle? then [] else r.done
  }

  // ---------- No event is lost ----------

  ghost predicate Kept(s: Sys) {
    && (forall id :: id in s.db.marked ==> Landed(s, id))
    && (forall i :: 0 <= i < |Done(s.relay)| ==> Landed(s, Done(s.relay)[i]))
    && (forall i :: 0 <= i < |s.ch.confirms| && s.ch.confirms[i].ack ==> Landed(s, Replied(s, i).id))
  }

  /** The message confirmation i answers. */
  function Replied(s: Sys, i: nat): Message
    requires i < |s.ch.confirms|
  {
    if s.ch.confirms[i].tag < |s.ch.sent| then s.ch.sent[s.ch.confirms[i].tag]
    else Message(0, LikeCreated, CountEvent(0, LikeCount, 0))
  }

  lemma HasIdAppend(ms: seq<Message>, m: Message, id: nat)
    ensures HasId(ms + [m], id) <==> HasId(ms, id) || m.id == id
  {
    if HasId(ms, id) {
      var i :| 0 <= i < |ms| && ms[i].id == id;
      assert (ms + [m])[i].id == id;
    }
    assert (ms + [m])[|ms|] == m;
  }

  lemma HasIdTail(ms: seq<Message>, id: nat)
    requires ms != []
    ensures HasId(ms, id) <==> HasId(ms[1..], id) || ms[0].id == id
  {
  }

  lemma LandedSettles(s: Sys, id: nat)
    requires ConsumerView(s) && Landed(s, id)
    ensures Landed(SettleStep(s), id)
  {
    if s.inbox != [] && s.verdict.Some? && s.ch.open && s.unacked != 0 && s.queue != [] {
      HasIdTail(s.queue, id);
      HasIdAppend(s.dlq, s.queue[0], id);
      assert s.inbox[0] == s.queue[0];
    }
  }

  /** Once the broker has an event, no step loses it. */
  lemma LandedStays(s: Sys, a: Action, id: nat)
    requires Wiring(s) && Landed(s, id)
    ensures Landed(Step(s, a), id)
  {
    match a
    case Client(tx) => ClientAppends(s.db, tx);
    case BrokerAccept => if s.ch.open && s.ch.wire != [] { HasIdAppend(s.queue, s.ch.wire[0].msg, id); }
    case Settle => LandedSettles(s, id);
    case Consume(fate) => ConsumeKeepsTraffic(s, fate);
    case _ => KeepsTraffic(s, a);
  }

  lemma ConsumeKeepsTraffic(s: Sys, fate: Fate)
    ensures var s' := ConsumeStep(s, fate); s'.queue == s.queue && s'.dlq == s.dlq && s.db.processed <= s'.db.processed
  {
  }

  lemma KeepsTraffic(s: Sys, a: Action)
    requires !a.Client? && !a.BrokerAccept? && !a.Settle? && !a.Consume?
    ensures var s' := Step(s, a); s'.queue == s.queue && s'.dlq == s.dlq && s'.db.processed == s.db.processed
  {
  }

  /** SetupTopology binds every event type, so no publishing is unroutable. */
  lemma AllKeysBound(key: EventType)
    ensures key in BOUND
  {
  }

  lemma AcceptLands(s: Sys)
    requires Wiring(s) && s.ch.open && s.ch.wire != []
    ensures Landed(AcceptStep(s), s.ch.wire[0].msg.id)
  {
    var m := s.ch.wire[0].msg;
    AllKeysBound(m.key);
    HasIdAppend(s.queue, m, m.id);
  }

  lemma StaleStays(s: Sys, a: Action)
    ensures s.stale ==> Step(s, a).stale
    ensures s.nacked ==> Step(s, a).nacked
    ensures s.shuffled ==> Step(s, a).shuffled
  {
  }

  lemma MarkedBefore(s: Sys, a: Action)
    requires !a.RelayMark?
    ensures Step(s, a).db.marked == s.db.marked
  {
    if a.Client? { ClientAppends(s.db, a.tx); }
  }

  lemma KeptMarked(s: Sys, a: Action, id: nat)
    requires Wiring(s) && Kept(s) && id in Step(s, a).db.marked
    ensures Landed(Step(s, a), id)
  {
    if !a.RelayMark? { MarkedBefore(s, a); }
    if id !in s.db.marked {
      var done := Done(s.relay);
      var i :| 0 <= i < |done| && done[i] == id;
      assert Landed(s, done[i]);
    }
    LandedStays(s, a, id);
  }

  lemma SameReplies(s: Sys, a: Action)
    requires !a.RelaySend? && !a.RelayConfirm? && !a.BrokerAccept? && !a.BrokerReject?
    requires !a.ChannelClose? && !a.Restart?
    ensures Step(s, a).ch.sent == s.ch.sent && Step(s, a).ch.confirms == s.ch.confirms
  {
  }

  lemma BrokerReply(s: Sys, a: Action, i: nat)
    requires Fifo(s) && (a.BrokerAccept? || a.BrokerReject?) && i < |Step(s, a).ch.confirms|
    ensures i < |s.ch.confirms| ==> Step(s, a).ch.confirms[i] == s.ch.confirms[i]
    ensures i >= |s.ch.confirms| ==>
              && i == |s.ch.confirms| && s.ch.open && s.ch.wire != []
              && Step(s, a).ch.confirms[i] == Confirmation(s.ch.wire[0].tag, a.BrokerAccept?)
    ensures Step(s, a).ch.sent == s.ch.sent
  {
  }

  /** Only the relay reads a confirmation and only the broker adds one; both leave the rest alone. */
  lemma ReplyOrigin(s: Sys, a: Action, i: nat) returns (j: nat)
    requires Fifo(s) && i < |Step(s, a).ch.confirms|
    ensures j < |s.ch.confirms| ==>
              Step(s, a).ch.confirms[i] == s.ch.confirms[j] && Replied(Step(s, a), i) == Replied(s, j)
    ensures j >= |s.ch.confirms| ==>
              && s.ch.open && s.ch.wire != [] && (a.BrokerAccept? || a.BrokerReject?)
              && Replied(Step(s, a), i) == s.ch.wire[0].msg
    ensures j >= |s.ch.confirms| && a.BrokerReject? ==> !Step(s, a).ch.confirms[i].ack
  {
    j := i;
    if a.RelayConfirm? {
      j := if Waiting(s) && s.ch.confirms != [] then i + 1 else i;
    } else if a.RelaySend? {
      assert s.ch.sent <= SendStep(s, a.ok).ch.sent;
    } else if a.BrokerAccept? || a.BrokerReject? {
      BrokerReply(s, a, i);
    } else if !a.ChannelClose? && !a.Restart? {
      SameReplies(s, a);
    }
  }

  lemma KeptReplies(s: Sys, a: Action, i: nat)
    requires Wiring(s) && Kept(s) && i < |Step(s, a).ch.confirms| && Step(s, a).ch.confirms[i].ack
    ensures Landed(Step(s, a), Replied(Step(s, a), i).id)
  {
    var j := ReplyOrigin(s, a, i);
    if j < |s.ch.confirms| {
      LandedStays(s, a, Replied(s, j).id);
    } else {
      AcceptLands(s);
    }
  }

  /** A round's confirmed events are those it had, and after a positive reply the one just published. */
  lemma DoneOrigin(s: Sys, a: Action, i: nat)
    requires i < |Done(Step(s, a).relay)|
    ensures var id := Done(Step(s, a).relay)[i];
            || (i < |Done(s.relay)| && id == Done(s.relay)[i])
            || (a.RelayConfirm? && Waiting(s) && s.ch.confirms != [] && s.ch.confirms[0].ack && id == s.relay.batch[0])
  {
  }

  lemma KeptDone(s: Sys, a: Action, i: nat)
    requires Wiring(s) && Kept(s) && !Step(s, a).stale && i < |Done(Step(s, a).relay)|
    ensures Landed(Step(s, a), Done(Step(s, a).relay)[i])
  {
    var id := Done(Step(s, a).relay)[i];
    DoneOrigin(s, a, i);
    if i < |Done(s.relay)| && id == Done(s.relay)[i] {
      LandedStays(s, a, id);
    } else {
      assert id == Replied(s, 0).id;
      LandedStays(s, a, Replied(s, 0).id);
    }
  }

  lemma KeptStays(s: Sys, a: Action)
    requires Wiring(s) && Kept(s) && !Step(s, a).stale
    ensures Kept(Step(s, a))
  {
    var s' := Step(s, a);
    forall id | id in s'.db.marked ensures Landed(s', id) { KeptMarked(s, a, id); }
    forall i | 0 <= i < |Done(s'.relay)| ensures Landed(s', Done(s'.relay)[i]) { KeptDone(s, a, i); }
    forall i | 0 <= i < |s'.ch.confirms| && s'.ch.confirms[i].ack ensures Landed(s', Replied(s', i).id) {
      KeptReplies(s, a, i);
    }
  }

  lemma {:induction false} RunKept(trace: seq<Action>)
    requires !Run(Init(), trace).stale
    ensures Inv(Run(Init(), trace)) && Kept(Run(Init(), trace))
  {
    if trace == [] {
      InitInv();
    } else {
      var s := Run(Init(), trace[..|trace| - 1]);
      StaleStays(s, trace[|trace| - 1]);
      RunKept(trace[..|trace| - 1]);
      StepKeeps(s, trace[|trace| - 1]);
      KeptStays(s, trace[|trace| - 1]);
    }
  }

  /** No loss: as long as no Publish took another event's positive reply for its own, every committed event
      is unmarked, queued, processed or dead-lettered, through crashes, rejections and redeliveries. */
  lemma NoLoss(s: Sys, id: nat)
    requires Reachable(s) && !s.stale && id < |s.db.outbox|
    ensures id !in s.db.marked || Landed(s, id)
  {
    var trace :| s == Run(Init(), trace);
    RunKept(trace);
  }
}
