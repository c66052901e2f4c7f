/** What the consumer does, told from its outside: how much it is sent, and which messages it leaves to the
    dead-letter queue (internal/worker/worker.go:116-147). */
module Consumer {
  import opened Model
  import opened Interactions
  import opened Pipeline

  /** A delivery is made exactly on an open channel that at most one unread reply occupies, when a message is
      ready and fewer than ten are out; it is the first that is ready. */
  lemma DeliversIff(s: Sys)
    ensures var s' := Step(s, Deliver);
            if s.ch.open && |s.ch.confirms| <= 1 && s.unacked < |s.queue| && s.unacked < 10
            then s'.inbox == s.inbox + [s.queue[s.unacked]] && s'.unacked == s.unacked + 1 && s'.queue == s.queue
            else s' == s
  {
  }

  ghost predicate FewHeld(s: Sys) {
    s.unacked <= 10 && |s.inbox| <= 10
  }

  lemma FewHeldStays(s: Sys, a: Action)
    requires ConsumerView(s) && FewHeld(s)
    ensures FewHeld(Step(s, a))
  {
  }

  /** In no run does the consumer hold more than ten messages. */
  lemma {:induction false} AtMostTen(trace: seq<Action>)
    ensures |Run(Init(), trace).inbox| <= 10 && Run(Init(), trace).unacked <= 10
  {
    if trace != [] {
      var front := trace[..|trace| - 1];
      AtMostTen(front);
      InitInv();
      RunKeeps(Init(), front);
      FewHeldStays(Run(Init(), front), trace[|trace| - 1]);
    }
  }

  // ---------- Dead letters ----------

  /** In the trace, some handling of the message failed: rolled back, or committed with the answer lost. */
  ghost predicate FailedOn(trace: seq<Action>, m: Message) {
    exists j :: 0 <= j < |trace| && FailedAt(trace, j, m)
  }

  predicate FailedAt(trace: seq<Action>, j: nat, m: Message)
    requires j < |trace|
  {
    var before := Run(Init(), trace[..j]);
    trace[j].Consume? && !trace[j].fate.Committed? && before.inbox != [] && before.inbox[0] == m
  }

  ghost predicate Explained(s: Sys, trace: seq<Action>) {
    && (forall i :: 0 <= i < |s.dlq| ==> FailedOn(trace, s.dlq[i]))
    && (s.verdict == Some(false) ==> s.inbox != [] && FailedOn(trace, s.inbox[0]))
  }

  lemma StillFailed(trace: seq<Action>, a: Action, m: Message)
    requires FailedOn(trace, m)
    ensures FailedOn(trace + [a], m)
  {
    var j :| 0 <= j < |trace| && FailedAt(trace, j, m);
    assert (trace + [a])[..j] == trace[..j] && FailedAt(trace + [a], j, m);
  }

  /** Messages are genuine, so their column is allowed, and only the database can make handling them fail. */
  lemma VerdictIsFate(s: Sys, fate: Fate)
    requires Inv(s) && CanConsume(s)
    ensures Step(s, Consume(fate)).verdict == Some(fate.Committed?)
  {
    assert Genuine(s.db, s.inbox[0]) && Proper(s.db.outbox[s.inbox[0].id]);
  }

  lemma NewlyDead(s: Sys)
    requires ConsumerView(s)
    ensures var s' := Step(s, Settle);
            s'.dlq == s.dlq || (s.verdict == Some(false) && s'.dlq == s.dlq + [s.inbox[0]])
  {
  }

  /** Other steps leave the dead letters and the handling in progress alone, or forget the latter. */
  lemma NoVerdict(s: Sys, a: Action)
    requires !a.Consume? && !a.Settle?
    ensures var s' := Step(s, a);
            && s'.dlq == s.dlq
            && (s'.verdict == None || (s'.verdict == s.verdict && s.inbox <= s'.inbox))
  {
  }

  lemma StillExplained(s: Sys, trace: seq<Action>, a: Action)
    requires Explained(s, trace)
    ensures Explained(s, trace + [a])
  {
    forall i | 0 <= i < |s.dlq| ensures FailedOn(trace + [a], s.dlq[i]) { StillFailed(trace, a, s.dlq[i]); }
    if s.verdict == Some(false) { StillFailed(trace, a, s.inbox[0]); }
  }

  lemma ConsumeExplained(s: Sys, trace: seq<Action>, fate: Fate)
    requires Inv(s) && s == Run(Init(), trace) && Explained(s, trace) && CanConsume(s)
    ensures Explained(Step(s, Consume(fate)), trace + [Consume(fate)])
  {
    var a := Consume(fate);
    StillExplained(s, trace, a);
    VerdictIsFate(s, fate);
    if !fate.Committed? {
      assert (trace + [a])[..|trace|] == trace;
      assert FailedAt(trace + [a], |trace|, s.inbox[0]);
    }
    NoNewDead(s, fate);
  }

  lemma NoNewDead(s: Sys, fate: Fate)
    ensures var s' := Step(s, Consume(fate));
            s'.dlq == s.dlq && s'.inbox == s.inbox && (!CanConsume(s) ==> s' == s)
  {
  }

  lemma ExplainedFrame(s: Sys, s': Sys, trace: seq<Action>)
    requires Explained(s, trace) && s'.dlq == s.dlq
    requires s'.verdict == None || (s'.verdict == s.verdict && s.inbox <= s'.inbox)
    ensures Explained(s', trace)
  {
  }

  lemma SettleExplained(s: Sys, trace: seq<Action>)
    requires ConsumerView(s) && Explained(s, trace)
    ensures Explained(Step(s, Settle), trace)
  {
    NewlyDead(s);
    SettledVerdict(s);
  }

  lemma SettledVerdict(s: Sys)
    ensures Step(s, Settle).verdict == None || Step(s, Settle) == s
  {
  }

  lemma ExplainedStep(s: Sys, trace: seq<Action>, a: Action)
    requires Inv(s) && s == Run(Init(), trace) && Explained(s, trace)
    ensures Explained(Step(s, a), trace + [a])
  {
    if a.Consume? && CanConsume(s) {
      ConsumeExplained(s, trace, a.fate);
    } else {
      StillExplained(s, trace, a);
      if a.Settle? {
        SettleExplained(s, trace + [a]);
      } else {
        if a.Consume? { NoNewDead(s, a.fate); } else { NoVerdict(s, a); }
        ExplainedFrame(s, Step(s, a), trace + [a]);
      }
    }
  }

  /** In every run, every dead letter is a message some handling of which failed; so without such failures the
      dead-letter queue stays empty. */
  lemma {:induction false} OnlyFailuresDie(trace: seq<Action>)
    ensures forall i :: 0 <= i < |Run(Init(), trace).dlq| ==> FailedOn(trace, Run(Init(), trace).dlq[i])
    ensures (forall i :: 0 <= i < |trace| && trace[i].Consume? ==> trace[i].fate.Committed?) ==>
              Run(Init(), trace).dlq == []
    ensures Explained(Run(Init(), trace), trace)
  {
    var s := Run(Init(), trace);
    if trace != [] {
      var front := trace[..|trace| - 1];
      OnlyFailuresDie(front);
      InitInv();
      RunKeeps(Init(), front);
      ExplainedStep(Run(Init(), front), front, trace[|trace| - 1]);
      assert front + [trace[|trace| - 1]] == trace;
    }
    if s.dlq != [] { assert FailedOn(trace, s.dlq[0]); }
  }

  /** In every run every message published, queued, held or dead-lettered is a committed event, with its id, its
      type as the routing key, and its content. */
  lemma MessagesAreRows(s: Sys, m: Message)
    requires Reachable(s) && (m in s.ch.sent || m in s.queue || m in s.inbox || m in s.dlq)
    ensures m.id < |s.db.outbox| && m.key == s.db.outbox[m.id].key && m.body == s.db.outbox[m.id].event
  {
    ReachableInv(s);
    assert Genuine(s.db, m);
  }
}
