/** A run that shows why the snapshot property asks that no unapplied event was given up, not merely that the
    dead-letter queue is empty: a Nack on a channel that has closed dead-letters nothing, yet the consumer
    moves on (internal/worker/worker.go:125-133).  GivingUp has the general condition. */
module SilentNack {
  import opened Model
  import opened Interactions
  import opened Pipeline
  import opened Delivery
  import opened StaleConfirmation

  /** The consumer holds the next event and the one after it, and has settled neither. */
  ghost predicate HoldsNextTwo(s: Sys) {
    var k := |s.db.processed|;
    && s.db.processed == Below(k) && s.verdict.None?
    && |s.inbox| == 2 && s.inbox[0].id == k && s.inbox[1].id == k + 1
  }

  /** The connection drops, the first transaction fails, its Nack goes nowhere, the second succeeds. */
  const SKIP: seq<Action> := [ChannelClose, Consume(RolledBack), Settle, Consume(Committed)]

  /** The failed delivery leaves the inbox without a trace, except that the consumer gave up on it. */
  lemma FailsSilently(s: Sys)
    requires HoldsNextTwo(s)
    ensures SettleStep(ConsumeStep(CloseStep(s), RolledBack)) == CloseStep(s).(inbox := [s.inbox[1]], nacked := true)
  {
  }

  /** The next delivery then succeeds. */
  lemma NextIsApplied(s: Sys)
    requires HoldsNextTwo(s) && AllowedField(s.inbox[1].body.field)
    ensures var e := ConsumeStep(CloseStep(s).(inbox := [s.inbox[1]], nacked := true), Committed);
            && e.db.processed == s.db.processed + {|s.db.processed| + 1} && e.db.outbox == s.db.outbox
            && e.dlq == s.dlq && e.stale == s.stale
  {
  }

  lemma SkipRun(s: Sys)
    ensures Run(s, SKIP) == ConsumeStep(SettleStep(ConsumeStep(CloseStep(s), RolledBack)), Committed)
  {
    assert SKIP[0] == ChannelClose && SKIP[1] == Consume(RolledBack) && SKIP[2] == Settle
        && SKIP[3] == Consume(Committed);
    var s1 := CloseStep(s);
    var s2 := ConsumeStep(s1, RolledBack);
    RunFour(s, SKIP, s1, s2, SettleStep(s2));
  }

  /** From every such state these steps apply an event before its predecessor, and nothing shows in the
      dead-letter queue. */
  lemma SilentNackSkips(s: Sys)
    requires Inv(s) && HoldsNextTwo(s)
    ensures var e := Run(s, SKIP);
            && |s.db.processed| !in e.db.processed && |s.db.processed| + 1 in e.db.processed
            && e.dlq == s.dlq && e.stale == s.stale && e.db.outbox == s.db.outbox
  {
    SkipRun(s);
    FailsSilently(s);
    assert Genuine(s.db, s.inbox[1]);
    NextIsApplied(s);
  }

  /** Both events published, the first one confirmed, both delivered. */
  const PUBLISH: seq<Action> :=
    [RelayFetch, RelaySend(true), BrokerAccept, RelayConfirm, RelaySend(true), BrokerAccept, Deliver, Deliver]

  /** A publishing is sent and accepted behind what is queued. */
  lemma SentAndAccepted(s: Sys, i: nat, m: Message)
    requires s.ch.open && s.ch.wire == [] && s.ch.confirms == []
    requires s.relay.Looping? && !s.relay.waiting && s.relay.batch != [] && s.relay.batch[0] == i
    requires i < |s.db.outbox| && m == MessageOf(s.db, i)
    ensures AcceptStep(SendStep(s, true)) ==
            s.(ch := s.ch.(sent := s.ch.sent + [m], confirms := [Confirmation(|s.ch.sent|, true)]),
               relay := s.relay.(waiting := true), queue := s.queue + [m])
  {
    AllKeysBound(m.key);
    var s1 := SendStep(s, true);
    assert s1.ch.wire == [Publishing(|s.ch.sent|, m)];
  }

  lemma OwnReplyRead(s: Sys, m: Message)
    requires s.relay == Looping([0, 1], [], true) && m.id == 0
    requires s.ch == Channel(true, [m], [], [Confirmation(0, true)], 0)
    ensures ConfirmStep(s) == s.(ch := Channel(true, [m], [], [], 0), relay := Looping([1], [0], false))
  {
    assert [0, 1][1..] == [1] && [] + [0] == [0];
  }

  lemma FirstPublished(s: Sys)
    requires TwoEvents(s)
    ensures Run(s, PUBLISH[..4]) ==
            s.(ch := Channel(true, [MessageOf(s.db, 0)], [], [], 0), relay := Looping([1], [0], false),
               queue := [MessageOf(s.db, 0)])
  {
    FetchAll(s.db);
    var m := MessageOf(s.db, 0);
    var s1 := FetchStep(s);
    assert s1 == s.(relay := Looping([0, 1], [], false));
    SentAndAccepted(s1, 0, m);
    var s2 := SendStep(s1, true);
    var s3 := AcceptStep(s2);
    OwnReplyRead(s3, m);
    RunFour(s, PUBLISH[..4], s1, s2, s3);
    assert PUBLISH[..4] == [RelayFetch, RelaySend(true), BrokerAccept, RelayConfirm];
  }

  lemma TwoDelivered(s: Sys, m: Message, n: Message)
    requires s.ch.open && !Blocked(s) && s.queue == [m, n] && s.unacked == 0 && s.inbox == []
    ensures DeliverStep(DeliverStep(s)) == s.(inbox := [m, n], unacked := 2)
  {
    assert DeliverStep(s) == s.(inbox := [m], unacked := 1);
  }

  lemma BothDelivered(s: Sys)
    requires TwoEvents(s)
    ensures var e := Run(s, PUBLISH); HoldsNextTwo(e) && e.dlq == [] && !e.stale && e.db == s.db
  {
    FirstPublished(s);
    var s4 := Run(s, PUBLISH[..4]);
    RunConcat(s, PUBLISH[..4], PUBLISH[4..]);
    assert PUBLISH == PUBLISH[..4] + PUBLISH[4..] && PUBLISH[4..] == [RelaySend(true), BrokerAccept, Deliver, Deliver];
    var m, n := MessageOf(s.db, 0), MessageOf(s.db, 1);
    SentAndAccepted(s4, 1, n);
    var s6 := AcceptStep(SendStep(s4, true));
    TwoDelivered(s6, m, n);
    RunFour(s4, PUBLISH[4..], SendStep(s4, true), s6, DeliverStep(s6));
  }

  /** So a run with an empty dead-letter queue and no misattributed reply can apply event 1 before event 0. */
  lemma EmptyDlqIsNotEnough()
    ensures var e := Run(Init(), BEFORE[..3] + (PUBLISH + SKIP));
            e.dlq == [] && !e.stale && CommitOrder(e.db.outbox) && 0 !in e.db.processed && 1 in e.db.processed
  {
    var s1 := Run(Init(), BEFORE[..3]);
    var s2 := Run(s1, PUBLISH);
    TwoLikes();
    BothDelivered(s1);
    InitInv();
    RunKeeps(Init(), BEFORE[..3]);
    RunKeeps(s1, PUBLISH);
    SilentNackSkips(s2);
    Composed(Init(), BEFORE[..3], PUBLISH, SKIP);
  }

  lemma Composed(s: Sys, t: seq<Action>, u: seq<Action>, v: seq<Action>)
    ensures Run(s, t + (u + v)) == Run(Run(Run(s, t), u), v)
  {
    RunConcat(s, t, u + v);
    RunConcat(Run(s, t), u, v);
  }
}
