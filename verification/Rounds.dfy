/** What one relay round does, told from its outside: which events it sends, in which order, and which of
    them it marks (internal/worker/worker.go:92-114). */
module Rounds {
  import opened Model
  import opened Interactions
  import opened Pipeline
  import opened Delivery
  import opened Worker

  /** While a Publish waits, others act as in any run. */
  lemma {:induction false} OthersRun(s: Sys, script: seq<Action>)
    requires forall i :: 0 <= i < |script| ==> Outside(script[i])
    ensures Meanwhile(s, script) == Run(s, script)
  {
    if script != [] {
      var front := script[..|script| - 1];
      assert forall i :: 0 <= i < |front| ==> front[i] == script[i];
      OthersRun(s, front);
    }
  }

  lemma OutsiderSends(s: Sys, a: Action)
    requires Outside(a)
    ensures Step(s, a).ch.sent == s.ch.sent && Step(s, a).db.marked == s.db.marked
  {
    if a.Client? { ClientAppends(s.db, a.tx); }
  }

  /** Others neither send nor mark. */
  lemma {:induction false} OthersSend(s: Sys, script: seq<Action>)
    ensures Meanwhile(s, script).ch.sent == s.ch.sent && Meanwhile(s, script).db.marked == s.db.marked
  {
    if script != [] {
      OthersSend(s, script[..|script| - 1]);
      if Outside(script[|script| - 1]) {
        OutsiderSends(Meanwhile(s, script[..|script| - 1]), script[|script| - 1]);
      }
    }
  }

  predicate AboutToSend(s: Sys) {
    s.relay.Looping? && !s.relay.waiting && s.relay.batch != [] && s.relay.batch[0] < |s.db.outbox|
  }

  /** The state in which a Publish waits for a reply. */
  function Sent(s: Sys): Sys
    requires AboutToSend(s)
  {
    var m := MessageOf(s.db, s.relay.batch[0]);
    s.(ch := s.ch.(sent := s.ch.sent + [m], wire := s.ch.wire + [Publishing(|s.ch.sent|, m)]),
       relay := s.relay.(waiting := true))
  }

  /** One Publish succeeds iff its message went out and the first reply to arrive in time is positive; either
      way it has sent its message at most once. */
  lemma PublishOutcome(s: Sys, turn: Turn)
    requires AboutToSend(s)
    ensures var s', id, out := PublishCall(s, turn), s.relay.batch[0], turn.sent && s.ch.open;
            var replies := Meanwhile(Sent(s), turn.meanwhile).ch.confirms;
            && s'.ch.sent == s.ch.sent + (if out then [MessageOf(s.db, id)] else [])
            && s'.relay == (if out && !turn.gaveUp && replies != [] && replies[0].ack
                            then Looping(s.relay.batch[1..], s.relay.done + [id], false) else Closing(s.relay.done))
            && s'.db.marked == s.db.marked && s.db.outbox <= s'.db.outbox
  {
    if turn.sent && s.ch.open {
      MeanwhileKeepsRelay(Sent(s), turn.meanwhile);
      OthersSend(Sent(s), turn.meanwhile);
    }
  }

  function Messages(db: Db, ids: seq<nat>): seq<Message>
    requires forall i :: 0 <= i < |ids| ==> ids[i] < |db.outbox|
  {
    seq(|ids|, i requires 0 <= i < |ids| => MessageOf(db, ids[i]))
  }

  ghost predicate Known(db: Db, ids: seq<nat>) {
    forall i :: 0 <= i < |ids| ==> ids[i] < |db.outbox|
  }

  lemma SameMessages(db: Db, db': Db, ids: seq<nat>)
    requires Known(db, ids) && db.outbox <= db'.outbox
    ensures Known(db', ids) && Messages(db', ids) == Messages(db, ids)
  {
  }

  /** From s the loop has run to s': k events were confirmed, in order; a failure ended it, after sending at most
      one more. */
  ghost predicate Looped(s: Sys, s': Sys, k: nat)
    requires s.relay.Looping? && Known(s.db, s.relay.batch)
  {
    var batch, done := s.relay.batch, s.relay.done;
    && k <= |batch| && s'.db.marked == s.db.marked && s.db.outbox <= s'.db.outbox
    && s'.relay == (if k == |batch| then Looping([], done + batch, false) else Closing(done + batch[..k]))
    && (s'.ch.sent == s.ch.sent + Messages(s.db, batch[..k])
        || (k < |batch| && s'.ch.sent == s.ch.sent + Messages(s.db, batch[..k + 1])))
  }

  /** What the rest of the loop sent, seen from before its first Publish. */
  lemma LoopJoins(s: Sys, next: Sys, j: nat)
    requires AboutToSend(s) && Known(s.db, s.relay.batch) && s.db.outbox <= next.db.outbox
    requires next.relay == Looping(s.relay.batch[1..], s.relay.done + [s.relay.batch[0]], false)
    requires next.ch.sent == s.ch.sent + [MessageOf(s.db, s.relay.batch[0])] && j < |s.relay.batch|
    ensures var batch, tail := s.relay.batch, s.relay.batch[1..];
            && Known(next.db, tail)
            && next.relay.done + tail[..j] == s.relay.done + batch[..j + 1]
            && next.relay.done + tail == s.relay.done + batch
            && next.ch.sent + Messages(next.db, tail[..j]) == s.ch.sent + Messages(s.db, batch[..j + 1])
            && (j < |tail| ==>
                  next.ch.sent + Messages(next.db, tail[..j + 1]) == s.ch.sent + Messages(s.db, batch[..j + 2]))
  {
    var batch, tail := s.relay.batch, s.relay.batch[1..];
    assert batch[..j + 1] == [batch[0]] + tail[..j];
    assert Messages(s.db, batch[..j + 1]) == [MessageOf(s.db, batch[0])] + Messages(next.db, tail[..j]);
    if j < |tail| {
      assert batch[..j + 2] == [batch[0]] + tail[..j + 1];
      assert Messages(s.db, batch[..j + 2]) == [MessageOf(s.db, batch[0])] + Messages(next.db, tail[..j + 1]);
    }
  }

  lemma LoopFails(s: Sys, turn: Turn)
    requires AboutToSend(s) && Known(s.db, s.relay.batch) && !PublishCall(s, turn).relay.Looping?
    ensures Looped(s, PublishCall(s, turn), 0)
  {
    PublishOutcome(s, turn);
    var batch := s.relay.batch;
    assert Messages(s.db, batch[..0]) == [] && Messages(s.db, batch[..1]) == [MessageOf(s.db, batch[0])];
  }

  lemma LoopGoesOn(s: Sys, turn: Turn, s': Sys, j: nat)
    requires AboutToSend(s) && Known(s.db, s.relay.batch)
    requires var next := PublishCall(s, turn);
             next.relay.Looping? && Known(next.db, next.relay.batch) && Looped(next, s', j)
    ensures Looped(s, s', j + 1)
  {
    PublishOutcome(s, turn);
    LoopJoins(s, PublishCall(s, turn), j);
  }

  lemma {:induction false} LoopSends(s: Sys, turns: seq<Turn>, n: nat) returns (k: nat)
    requires s.relay.Looping? && !s.relay.waiting && n == |s.relay.batch| && Known(s.db, s.relay.batch)
    ensures Looped(s, PublishLoop(s, turns, n), k)
    decreases n
  {
    k := 0;
    if n == 0 {
      assert s.relay.done + s.relay.batch == s.relay.done && Messages(s.db, []) == [];
    } else {
      var turn := if turns == [] then SILENT else turns[0];
      var rest := if turns == [] then [] else turns[1..];
      var next := PublishCall(s, turn);
      assert PublishLoop(s, turns, n) == PublishLoop(next, rest, n - 1);
      if next.relay.Looping? {
        LoopNext(s, turn);
        var j := LoopSends(next, rest, n - 1);
        LoopGoesOn(s, turn, PublishLoop(next, rest, n - 1), j);
        k := j + 1;
      } else {
        LoopFails(s, turn);
      }
    }
  }

  lemma LoopNext(s: Sys, turn: Turn)
    requires AboutToSend(s) && Known(s.db, s.relay.batch) && PublishCall(s, turn).relay.Looping?
    ensures var next := PublishCall(s, turn);
            !next.relay.waiting && |next.relay.batch| == |s.relay.batch| - 1 && Known(next.db, next.relay.batch)
  {
    PublishOutcome(s, turn);
  }

  /** What the mark at the end of a round leaves. */
  lemma MarkLeaves(s: Sys, ok: bool)
    requires CanMark(s)
    ensures var s' := MarkStep(s, ok);
            && s'.relay == Idle && s'.ch == s.ch && s'.queue == s.queue && s'.db.outbox == s.db.outbox
            && s'.db.marked == s.db.marked + if ok then set i | i in s.relay.done else {}
  {
  }

  lemma Fetches(s: Sys)
    requires s.relay.Idle?
    ensures var s' := FetchStep(s);
            && s' == s.(relay := Looping(FetchPending(s.db, 100), [], false), shuffled := s'.shuffled)
            && Known(s.db, s'.relay.batch)
  {
    var ids := FetchPending(s.db, 100);
    FetchFacts(s.db, 100);
    assert forall i :: 0 <= i < |ids| ==> ids[i] in ids;
  }

  /** A whole round, whatever happens meanwhile: of the up to hundred events fetched it has sent and got
      confirmed the first k in order, sent at most one more, and marked those k, or none if marking failed. */
  lemma RoundMarks(s: Sys, turns: seq<Turn>, markOk: bool) returns (k: nat)
    requires s.relay.Idle?
    ensures var s', ids := Round(s, turns, markOk), FetchPending(s.db, 100);
            && Known(s.db, ids) && k <= |ids| && s'.relay == Idle
            && s'.db.marked == s.db.marked + (if markOk then set i | i in ids[..k] else {})
            && (s'.ch.sent == s.ch.sent + Messages(s.db, ids[..k])
                || (k < |ids| && s'.ch.sent == s.ch.sent + Messages(s.db, ids[..k + 1])))
  {
    var fetched := FetchStep(s);
    Fetches(s);
    k := LoopSends(fetched, turns, |fetched.relay.batch|);
    RoundEnds(fetched, PublishLoop(fetched, turns, |fetched.relay.batch|), k, markOk);
  }

  lemma RoundEnds(s: Sys, looped: Sys, k: nat, ok: bool)
    requires s.relay.Looping? && s.relay.done == [] && Known(s.db, s.relay.batch) && Looped(s, looped, k)
    ensures var s', ids := MarkStep(looped, ok), s.relay.batch;
            && k <= |ids| && s'.relay == Idle && s'.ch == looped.ch
            && s'.db.marked == s.db.marked + if ok then set i | i in ids[..k] else {}
  {
    var ids := s.relay.batch;
    assert looped.relay.done == ids[..k] by {
      assert [] + ids == ids && [] + ids[..k] == ids[..k] && (k == |ids| ==> ids[..k] == ids);
    }
    MarkLeaves(looped, ok);
  }

  const ACCEPTED := Turn(true, [BrokerAccept], false)

  lemma CleanCall(s: Sys)
    requires AboutToSend(s) && s.ch.open && s.ch.wire == [] && s.ch.confirms == []
    ensures var s', m := PublishCall(s, ACCEPTED), MessageOf(s.db, s.relay.batch[0]);
            && s'.relay == Looping(s.relay.batch[1..], s.relay.done + [m.id], false)
            && s'.ch.open && s'.ch.wire == [] && s'.ch.confirms == []
            && s'.queue == s.queue + [m] && s'.db == s.db
  {
    assert [BrokerAccept][..0] == [] && Meanwhile(Sent(s), []) == Sent(s);
    assert Meanwhile(Sent(s), [BrokerAccept]) == AcceptStep(Sent(s));
    AllKeysBound(s.db.outbox[s.relay.batch[0]].key);
    var c := AcceptStep(Sent(s)).ch.confirms;
    assert c == [Confirmation(|s.ch.sent|, true)];
  }

  lemma CleanJoins(db: Db, ids: seq<nat>, done: seq<nat>, queue: seq<Message>)
    requires Known(db, ids) && ids != []
    ensures (done + [ids[0]]) + ids[1..] == done + ids
    ensures Known(db, ids[1..])
    ensures (queue + [MessageOf(db, ids[0])]) + Messages(db, ids[1..]) == queue + Messages(db, ids)
  {
  }

  /** The loop under a broker that accepts. */
  lemma {:induction false} CleanLoop(s: Sys, turns: seq<Turn>, n: nat)
    requires s.relay.Looping? && !s.relay.waiting && n == |s.relay.batch| && Known(s.db, s.relay.batch)
    requires s.ch.open && s.ch.wire == [] && s.ch.confirms == []
    requires |turns| == n && forall i :: 0 <= i < n ==> turns[i] == ACCEPTED
    ensures var s' := PublishLoop(s, turns, n);
            && s'.relay == Looping([], s.relay.done + s.relay.batch, false)
            && s'.queue == s.queue + Messages(s.db, s.relay.batch) && s'.db == s.db
    decreases n
  {
    if n == 0 {
      assert s.relay.done + s.relay.batch == s.relay.done && Messages(s.db, s.relay.batch) == [];
    } else {
      CleanCall(s);
      CleanLoop(PublishCall(s, ACCEPTED), turns[1..], n - 1);
      CleanJoins(s.db, s.relay.batch, s.relay.done, s.queue);
    }
  }

  /** With a broker that accepts each message in time, a round sends all the events it fetched to the queue,
      in that order, and marks every one. */
  lemma CleanRound(s: Sys, turns: seq<Turn>)
    requires s.relay.Idle? && s.ch.open && s.ch.wire == [] && s.ch.confirms == []
    requires |turns| == |FetchPending(s.db, 100)| && forall i :: 0 <= i < |turns| ==> turns[i] == ACCEPTED
    ensures var s', ids := Round(s, turns, true), FetchPending(s.db, 100);
            && Known(s.db, ids) && s'.relay == Idle
            && s'.db.marked == s.db.marked + set i | i in ids
            && s'.queue == s.queue + Messages(s.db, ids)
  {
    var fetched := FetchStep(s);
    var ids := fetched.relay.batch;
    Fetches(s);
    CleanLoop(fetched, turns, |ids|);
    assert [] + ids == ids;
    MarkLeaves(PublishLoop(fetched, turns, |ids|), true);
  }
}
