/** The worker and the repositories as code: tables and channel state updated in place, each method
    proved against the step system, so that everything shown of its runs holds of these programs. */
module Worker {
  import opened Model
  import opened Interactions
  import opened Pipeline

  // ---------- MySQL tables: interaction_repo.go, outbox_repo.go, Counter.Apply ----------

  /** `serial` is always the auto-increment id the database hands to the event row. */
  class Store {
    var posts: map<int, Post>
    var likes: set<LikeRow>
    var comments: map<int, CommentRow>
    var outbox: seq<OutboxRow>
    var marked: set<nat>
    var processed: set<nat>
    var nextPost: int
    var nextComment: int

    constructor ()
      ensures View() == EmptyDb()
    {
      posts, likes, comments := map[], {}, map[];
      outbox, marked, processed := [], {}, {};
      nextPost, nextComment := 1, 1;
    }

    function View(): Db
      reads this
    {
      Db(posts, likes, comments, outbox, marked, processed, nextPost, nextComment)
    }

    method EnqueueCountEvent(serial: nat, key: EventType, e: CountEvent) returns (ok: bool)
      modifies this`outbox
      ensures ok <==> e.field == LikeCount || e.field == CommentCount
      ensures outbox == if ok then old(outbox) + [OutboxRow(serial, key, e)] else old(outbox)
      ensures View() == if ok then Enqueue(old(View()), serial, key, e) else old(View())
    {
      if !AllowedField(e.field) {
        return false;
      }
      outbox := outbox + [OutboxRow(serial, key, e)];
      ok := true;
    }

    /** After it the user likes the post; only a like that is new is recorded as an event. */
    method Like(uid: int, postID: int, serial: nat)
      modifies this`likes, this`outbox
      ensures likes == old(likes) + {LikeRow(postID, uid)}
      ensures outbox == old(outbox) + if LikeRow(postID, uid) in old(likes) then []
                                      else [OutboxRow(serial, LikeCreated, CountEvent(postID, LikeCount, 1))]
      ensures View() == LikeTx(old(View()), uid, postID, serial)
    {
      var row := LikeRow(postID, uid);
      if row in likes {   // INSERT IGNORE affected no row
        return;
      }
      likes := likes + {row};
      var ok := EnqueueCountEvent(serial, LikeCreated, CountEvent(postID, LikeCount, 1));
    }

    method Unlike(uid: int, postID: int, serial: nat)
      modifies this`likes, this`outbox
      ensures likes == old(likes) - {LikeRow(postID, uid)}
      ensures outbox == old(outbox) + if LikeRow(postID, uid) !in old(likes) then []
                                      else [OutboxRow(serial, LikeRemoved, CountEvent(postID, LikeCount, -1))]
      ensures View() == UnlikeTx(old(View()), uid, postID, serial)
    {
      var row := LikeRow(postID, uid);
      if row !in likes {
        return;
      }
      likes := likes - {row};
      var ok := EnqueueCountEvent(serial, LikeRemoved, CountEvent(postID, LikeCount, -1));
    }

    method CreateComment(uid: int, postID: int, content: string, now: int, serial: nat) returns (id: int)
      modifies this`comments, this`nextComment, this`outbox
      ensures id == old(nextComment) && nextComment == id + 1
      ensures comments == old(comments)[id := CommentRow(id, postID, uid, content, now)]
      ensures outbox == old(outbox) + [OutboxRow(serial, CommentCreated, CountEvent(postID, CommentCount, 1))]
      ensures View() == CommentTx(old(View()), uid, postID, content, now, serial)
    {
      id := nextComment;
      comments := comments[id := CommentRow(id, postID, uid, content, now)];
      nextComment := id + 1;
      var ok := EnqueueCountEvent(serial, CommentCreated, CountEvent(postID, CommentCount, 1));
    }

    method DeleteComment(id: int, serial: nat) returns (r: Result<()>)
      modifies this`comments, this`outbox
      ensures r == if id in old(comments) then Ok(()) else Err(NotFound)
      ensures comments == old(comments) - {id}
      ensures outbox == old(outbox) + if id !in old(comments) then [] else
                [OutboxRow(serial, CommentDeleted, CountEvent(old(comments)[id].postID, CommentCount, -1))]
      ensures r.Ok? <==> DeleteCommentTx(old(View()), id, serial).Ok?
      ensures View() == if r.Ok? then DeleteCommentTx(old(View()), id, serial).value else old(View())
    {
      if id !in comments {
        return Err(NotFound);
      }
      var postID := comments[id].postID;
      comments := comments - {id};
      var ok := EnqueueCountEvent(serial, CommentDeleted, CountEvent(postID, CommentCount, -1));
      r := Ok(());
    }

    /** One Apply transaction.  `fate` is the database's answer: a failed transaction changes nothing,
        and a commit whose reply is lost looks like a failure. */
    method Apply(id: nat, e: CountEvent, fate: Fate) returns (ok: bool)
      modifies this`posts, this`processed
      ensures var done := (e.field == LikeCount || e.field == CommentCount) && !fate.RolledBack?;
              var first := done && id !in old(processed);
              && (ok <==> done && fate.Committed?)
              && processed == (if done then old(processed) + {id} else old(processed))
              && posts.Keys == old(posts).Keys
              && forall p :: p in posts ==>
                   var moved := if first && p == e.postID then e.delta else 0;
                   posts[p] == old(posts)[p].(
                     likeCount := old(posts)[p].likeCount + if e.field == LikeCount then moved else 0,
                     commentCount := old(posts)[p].commentCount + if e.field == CommentCount then moved else 0)
      ensures var r := ApplyTx(old(View()), id, e);
              && View() == (if r.Ok? && !fate.RolledBack? then r.value else old(View()))
              && (ok <==> r.Ok? && fate.Committed?)
    {
      if !AllowedField(e.field) || fate.RolledBack? {
        return false;
      }
      if id !in processed {
        processed := processed + {id};
        posts := AddToCount(posts, e);
      }
      ok := fate.Committed?;
    }

    /** Takes on other table contents. */
    method Load(db: Db)
      modifies this
      ensures View() == db
    {
      posts, likes, comments := db.posts, db.likes, db.comments;
      outbox, marked, processed := db.outbox, db.marked, db.processed;
      nextPost, nextComment := db.nextPost, db.nextComment;
    }

    method MarkProcessedIds(ids: seq<nat>)
      modifies this`marked
      ensures forall i :: i in marked <==> i in old(marked) || i in ids
      ensures View() == MarkProcessed(old(View()), ids)
    {
      marked := marked + IdSet(ids);
    }
  }

  // ---------- What the rest of the world does while a publish waits ----------

  /** One publish as the environment shapes it: whether the write succeeds, what other parties do
      while Publish waits, and whether the two seconds pass first. */
  datatype Turn = Turn(sent: bool, meanwhile: seq<Action>, gaveUp: bool)

  /** Clients, broker, consumer and network; not the relay itself. */
  predicate Outside(a: Action) {
    a.Client? || a.BrokerAccept? || a.BrokerReject? || a.Deliver? || a.Consume? || a.Settle? || a.ChannelClose?
  }

  /** Others act in the given order; anything in the script that is the relay's own step is skipped. */
  function Meanwhile(s: Sys, script: seq<Action>): Sys {
    if script == [] then s
    else
      var before := Meanwhile(s, script[..|script| - 1]);
      var a := script[|script| - 1];
      if Outside(a) then Step(before, a) else before
  }

  /** One Publish call by the relay, on the event at the head of its batch. */
  function PublishCall(s: Sys, turn: Turn): Sys {
    var s1 := SendStep(s, turn.sent);
    if !Waiting(s1) then s1
    else
      var s2 := Meanwhile(s1, turn.meanwhile);
      if s2.ch.confirms != [] && !turn.gaveUp then ConfirmStep(s2)
      else if !s2.ch.open then ClosedStep(s2)
      else TimeoutStep(s2)
  }

  const SILENT := Turn(false, [], true)

  /** The publish loop of relayOnce: until the batch is empty or a publish fails. */
  function PublishLoop(s: Sys, turns: seq<Turn>, n: nat): Sys
    decreases n
  {
    if n == 0 || !s.relay.Looping? || s.relay.batch == [] then s
    else PublishLoop(PublishCall(s, if turns == [] then SILENT else turns[0]),
                     if turns == [] then [] else turns[1..], n - 1)
  }

  function BatchSize(s: Sys): nat {
    if s.relay.Looping? then |s.relay.batch| else 0
  }

  /** One relayOnce round. */
  function Round(s: Sys, turns: seq<Turn>, markOk: bool): Sys {
    var s1 := FetchStep(s);
    MarkStep(PublishLoop(s1, turns, BatchSize(s1)), markOk)
  }

  lemma {:induction false} MeanwhileKeepsRelay(s: Sys, script: seq<Action>)
    ensures Meanwhile(s, script).relay == s.relay
    ensures s.db.outbox <= Meanwhile(s, script).db.outbox
  {
    if script != [] {
      MeanwhileKeepsRelay(s, script[..|script| - 1]);
      var before := Meanwhile(s, script[..|script| - 1]);
      var a := script[|script| - 1];
      if Outside(a) {
        StepAppendsOutbox(before, a);
      }
    }
  }

  lemma StepAppendsOutbox(s: Sys, a: Action)
    ensures s.db.outbox <= Step(s, a).db.outbox
  {
    if a.Client? { ClientAppends(s.db, a.tx); } else { SameRows(s, a); }
  }

  // ---------- Every round is a run of the step system ----------

  ghost predicate IsRun(s: Sys, s': Sys) {
    exists trace :: s' == Run(s, trace)
  }

  lemma RunsCompose(s: Sys, s': Sys, s'': Sys)
    requires IsRun(s, s') && IsRun(s', s'')
    ensures IsRun(s, s'')
  {
    var t :| s' == Run(s, t);
    var u :| s'' == Run(s', u);
    RunConcat(s, t, u);
  }

  lemma OneStep(s: Sys, a: Action)
    ensures IsRun(s, Step(s, a))
  {
    assert [a][..0] == [];
    assert Run(s, []) == s;
    assert Step(s, a) == Run(s, [a]);
  }

  lemma {:induction false} MeanwhileIsRun(s: Sys, script: seq<Action>)
    ensures IsRun(s, Meanwhile(s, script))
  {
    if script == [] {
      assert s == Run(s, []);
    } else {
      var before := Meanwhile(s, script[..|script| - 1]);
      MeanwhileIsRun(s, script[..|script| - 1]);
      if Outside(script[|script| - 1]) {
        OneStep(before, script[|script| - 1]);
        RunsCompose(s, before, Meanwhile(s, script));
      }
    }
  }

  lemma PublishCallIsRun(s: Sys, turn: Turn)
    ensures IsRun(s, PublishCall(s, turn))
  {
    var s1 := SendStep(s, turn.sent);
    OneStep(s, RelaySend(turn.sent));
    if Waiting(s1) {
      var s2 := Meanwhile(s1, turn.meanwhile);
      MeanwhileIsRun(s1, turn.meanwhile);
      RunsCompose(s, s1, s2);
      OneStep(s2, RelayConfirm);
      OneStep(s2, RelayClosed);
      OneStep(s2, RelayTimeout);
      RunsCompose(s, s2, PublishCall(s, turn));
    }
  }

  lemma {:induction false} LoopIsRun(s: Sys, turns: seq<Turn>, n: nat)
    ensures IsRun(s, PublishLoop(s, turns, n))
    decreases n
  {
    if n == 0 || !s.relay.Looping? || s.relay.batch == [] {
      assert s == Run(s, []);
    } else {
      var turn := if turns == [] then SILENT else turns[0];
      PublishCallIsRun(s, turn);
      LoopIsRun(PublishCall(s, turn), if turns == [] then [] else turns[1..], n - 1);
      RunsCompose(s, PublishCall(s, turn), PublishLoop(s, turns, n));
    }
  }

  /** So every property of all runs holds across relayOnce, whatever happens while it waits. */
  lemma RoundIsRun(s: Sys, turns: seq<Turn>, markOk: bool)
    ensures IsRun(s, Round(s, turns, markOk))
    ensures Inv(s) ==> Inv(Round(s, turns, markOk))
  {
    var s1 := FetchStep(s);
    var s2 := PublishLoop(s1, turns, BatchSize(s1));
    OneStep(s, RelayFetch);
    LoopIsRun(s1, turns, BatchSize(s1));
    RunsCompose(s, s1, s2);
    OneStep(s2, RelayMark(markOk));
    RunsCompose(s, s2, Round(s, turns, markOk));
    if Inv(s) {
      var trace :| Round(s, turns, markOk) == Run(s, trace);
      RunKeeps(s, trace);
    }
  }

  // ---------- The worker process ----------

  class Process {
    const store: Store
    // the publisher's channel and the broker behind it
    var open: bool
    var sent: seq<Message>
    var wire: seq<Publishing>
    var confirms: seq<Confirmation>
    var timeouts: nat
    var queue: seq<Message>
    var unacked: nat
    var dlq: seq<Message>
    // the consumer
    var inbox: seq<Message>
    var verdict: Option<bool>
    // history
    var stale: bool
    var nacked: bool
    var shuffled: bool

    constructor (store: Store)
      ensures this.store == store && State(Idle) == Init().(db := store.View())
    {
      this.store := store;
      open, sent, wire, confirms, timeouts := true, [], [], [], 0;
      queue, unacked, dlq, inbox, verdict := [], 0, [], [], None;
      stale, nacked, shuffled := false, false, false;
    }

    function State(relay: Relay): Sys
      reads this, store
    {
      Sys(store.View(), Channel(open, sent, wire, confirms, timeouts), relay,
          queue, unacked, inbox, verdict, dlq, stale, nacked, shuffled)
    }

    /** Takes on a whole state: how another party's step shows here. */
    method Become(s: Sys, ghost relay: Relay)
      modifies this, store
      ensures State(relay) == s.(relay := relay)
    {
      store.Load(s.db);
      open, sent, wire, confirms, timeouts := s.ch.open, s.ch.sent, s.ch.wire, s.ch.confirms, s.ch.timeouts;
      queue, unacked, dlq, inbox, verdict := s.queue, s.unacked, s.dlq, s.inbox, s.verdict;
      stale, nacked, shuffled := s.stale, s.nacked, s.shuffled;
    }

    /** Others act while the relay waits. */
    method Others(script: seq<Action>, ghost relay: Relay)
      modifies this, store
      ensures State(relay) == Meanwhile(old(State(relay)), script)
    {
      ghost var start := State(relay);
      var i := 0;
      while i < |script|
        invariant 0 <= i <= |script|
        invariant State(relay) == Meanwhile(start, script[..i])
      {
        assert script[..i + 1][..i] == script[..i];
        if Outside(script[i]) {
          OutsideIgnoresRelay(State(relay), script[i]);
          Become(Step(State(Idle), script[i]), relay);
        }
        i := i + 1;
      }
      assert script[..|script|] == script;
    }

    /** mq.Publisher.Publish: send, then take whatever confirmation comes first, or give up. */
    method Publish(m: Message, turn: Turn, ghost batch: seq<nat>, ghost done: seq<nat>) returns (ok: bool)
      requires batch != [] && batch[0] == m.id && m.id < |store.outbox| && m == MessageOf(store.View(), m.id)
      modifies this, store
      ensures State(if ok then Looping(batch[1..], done + [m.id], false) else Closing(done))
           == PublishCall(old(State(Looping(batch, done, false))), turn)
      ensures old(store.outbox) <= store.outbox
    {
      ghost var waiting := Looping(batch, done, true);
      if !turn.sent || !open {
        return false;
      }
      wire := wire + [Publishing(|sent|, m)];
      sent := sent + [m];
      MeanwhileKeepsRelay(State(waiting), turn.meanwhile);
      Others(turn.meanwhile, waiting);
      ok := Await(m.id, turn.gaveUp, batch, done);
    }

    /** Publish's select: a confirmation, a closed channel, or the two seconds. */
    method Await(id: nat, gaveUp: bool, ghost batch: seq<nat>, ghost done: seq<nat>) returns (ok: bool)
      requires batch != [] && batch[0] == id
      modifies this
      ensures var s := old(State(Looping(batch, done, true)));
              State(if ok then Looping(batch[1..], done + [batch[0]], false) else Closing(done)) ==
              if s.ch.confirms != [] && !gaveUp then ConfirmStep(s) else if !s.ch.open then ClosedStep(s)
                  else TimeoutStep(s)
    {
      if confirms != [] && !gaveUp {
        var c := confirms[0];
        confirms := confirms[1..];
        stale := stale || (c.ack && (c.tag >= |sent| || sent[c.tag].id != id));
        return c.ack;
      } else if !open {
        return false;
      } else {
        timeouts := timeouts + 1;
        return false;
      }
    }

    /** relayOnce's publish loop over the fetched rows; returns the ids that were confirmed. */
    method PublishAll(ids: seq<nat>, turns: seq<Turn>) returns (done: seq<nat>, failed: bool)
      requires forall id :: id in ids ==> id < |store.outbox|
      modifies this, store
      ensures State(if failed then Closing(done) else Looping([], done, false))
           == PublishLoop(old(State(Looping(ids, [], false))), turns, |ids|)
    {
      ghost var goal := PublishLoop(State(Looping(ids, [], false)), turns, |ids|);
      var rows := store.outbox;
      done := [];
      failed := false;
      var i := 0;
      assert ids[0..] == ids && turns[0..] == turns;
      while i < |ids| && !failed
        invariant 0 <= i <= |ids|
        invariant rows <= store.outbox
        invariant !failed ==> PublishLoop(State(Looping(ids[i..], done, false)), TurnsFrom(turns, i), |ids| - i) == goal
        invariant failed ==> State(Closing(done)) == goal
        decreases |ids| - i, !failed
      {
        var id := ids[i];
        assert id in ids && ids[i..][1..] == ids[i + 1..];
        ghost var before := State(Looping(ids[i..], done, false));
        LoopUnfolds(before, turns, i, |ids| - i);
        var ok := Publish(Message(id, rows[id].key, rows[id].event), TurnAt(turns, i), ids[i..], done);
        ghost var after := State(if ok then Looping(ids[i + 1..], done + [id], false) else Closing(done));
        assert after == PublishCall(before, TurnAt(turns, i));
        if ok {
          done := done + [id];
          i := i + 1;
        } else {
          failed := true;
        }
      }
      if !failed {
        assert ids[i..] == [];
      }
    }

    /** worker.relayOnce: fetch, publish until something fails, mark what was confirmed. */
    method RelayOnce(turns: seq<Turn>, markOk: bool)
      modifies this, store
      ensures State(Idle) == Round(old(State(Idle)), turns, markOk)
    {
      ghost var fetched := FetchStep(State(Idle));
      var ids := FetchPending(store.View(), BATCH);
      FetchedIds(store.View());
      shuffled := shuffled || !Continues(store.View(), ids);
      assert State(Looping(ids, [], false)) == fetched;
      var done, failed := PublishAll(ids, turns);
      ghost var published := State(if failed then Closing(done) else Looping([], done, false));
      if done != [] && markOk {
        store.MarkProcessedIds(done);
      }
      assert State(Idle) == MarkStep(published, markOk);
    }

    /** worker.RunConsumer's body for one delivery: handle it, then Ack or Nack without requeue. */
    method ConsumeOne(fate: Fate, ghost relay: Relay)
      requires verdict.None?
      modifies this, store
      ensures inbox == (if old(inbox) == [] then [] else old(inbox)[1..]) && verdict == None
      ensures old(inbox) != [] ==>
                var d := old(inbox)[0];
                var good := d.body.field == LikeCount || d.body.field == CommentCount;
                var reaches := open && old(unacked) != 0 && old(queue) != [];
                && store.processed == old(store.processed) + (if good && !fate.RolledBack? then {d.id} else {})
                && queue == (if reaches then old(queue)[1..] else old(queue))
                && unacked == (if reaches then old(unacked) - 1 else old(unacked))
                && dlq == old(dlq) + (if reaches && !(good && fate.Committed?) then [old(queue)[0]] else [])
                && (nacked <==> old(nacked) || (!(good && fate.Committed?) && d.id !in store.processed))
      ensures State(relay) == SettleStep(ConsumeStep(old(State(relay)), fate))
    {
      if inbox == [] {
        return;
      }
      ghost var s := State(relay);
      var d := inbox[0];
      var ok := store.Apply(d.id, d.body, fate);
      assert ConsumeStep(s, fate) == s.(db := store.View(), verdict := Some(ok));
      SettledFields(s.(db := store.View()), ok);
      Reply(ok, relay);
    }

    /** d.Ack or d.Nack(requeue = false). */
    method Reply(ok: bool, ghost relay: Relay)
      requires inbox != [] && verdict.None?
      modifies this
      ensures State(relay) == SettleStep(old(State(relay)).(verdict := Some(ok)))
    {
      SettledFields(State(relay), ok);
      var reaches := open && unacked != 0 && queue != [];
      if reaches && !ok {
        dlq := dlq + [queue[0]];
      }
      if reaches {
        queue, unacked := queue[1..], unacked - 1;
      }
      inbox, nacked := inbox[1..], nacked || (!ok && inbox[0].id !in store.processed);
    }
  }

  lemma SettledFields(s: Sys, ok: bool)
    requires s.inbox != []
    ensures var reaches := s.ch.open && s.unacked != 0 && s.queue != [];
            SettleStep(s.(verdict := Some(ok))) ==
            s.(inbox := s.inbox[1..], verdict := None,
               nacked := s.nacked || (!ok && s.inbox[0].id !in s.db.processed),
               queue := if reaches then s.queue[1..] else s.queue,
               unacked := if reaches then s.unacked - 1 else s.unacked,
               dlq := if reaches && !ok then s.dlq + [s.queue[0]] else s.dlq)
  {
    assert (s.(verdict := Some(ok))).verdict == Some(ok);
  }

  function TurnsFrom(turns: seq<Turn>, i: nat): seq<Turn> {
    if i <= |turns| then turns[i..] else []
  }

  function TurnAt(turns: seq<Turn>, i: nat): Turn {
    if i < |turns| then turns[i] else SILENT
  }

  /** One pass of the publish loop: a success leaves the loop to run on, a failure ends it. */
  lemma LoopUnfolds(s: Sys, turns: seq<Turn>, i: nat, n: nat)
    requires n > 0 && s.relay.Looping? && s.relay.batch != []
    ensures var s' := PublishCall(s, TurnAt(turns, i));
            PublishLoop(s, TurnsFrom(turns, i), n) ==
            if s'.relay.Looping? then PublishLoop(s', TurnsFrom(turns, i + 1), n - 1) else s'
  {
  }

  lemma BrokerIgnoresRelay(s: Sys)
    ensures var i := s.(relay := Idle);
            && AcceptStep(i) == AcceptStep(s).(relay := Idle) && RejectStep(i) == RejectStep(s).(relay := Idle)
            && CloseStep(i) == CloseStep(s).(relay := Idle)
  {
  }

  lemma ConsumeIgnoresRelay(s: Sys, fate: Fate)
    ensures ConsumeStep(s.(relay := Idle), fate) == ConsumeStep(s, fate).(relay := Idle)
  {
  }

  lemma DeliverIgnoresRelay(s: Sys)
    ensures DeliverStep(s.(relay := Idle)) == DeliverStep(s).(relay := Idle)
  {
  }

  lemma SettleIgnoresRelay(s: Sys)
    ensures SettleStep(s.(relay := Idle)) == SettleStep(s).(relay := Idle)
  {
  }

  lemma OutsideKeepsRelay(s: Sys, a: Action)
    requires Outside(a)
    ensures Step(s, a).relay == s.relay
  {
  }

  /** The relay's position is private: no other party's step reads or changes it. */
  lemma OutsideIgnoresRelay(s: Sys, a: Action)
    requires Outside(a)
    ensures Step(s.(relay := Idle), a) == Step(s, a).(relay := Idle)
    ensures Step(s, a).relay == s.relay
  {
    OutsideKeepsRelay(s, a);
    match a
    case Consume(fate) => ConsumeIgnoresRelay(s, fate);
    case Deliver => DeliverIgnoresRelay(s);
    case Settle => SettleIgnoresRelay(s);
    case Client(_) =>
    case _ => BrokerIgnoresRelay(s);
  }

  lemma FetchedIds(db: Db)
    ensures forall id :: id in FetchPending(db, BATCH) ==> id < |db.outbox|
    ensures |FetchPending(db, BATCH)| <= BATCH
  {
    FetchFacts(db, BATCH);
  }
}
