/** The outbox pipeline as a step system: client transactions, the relay's rounds, the publisher's
    confirm channel, the broker, the consumer, and every place where one of them can fail
    (internal/worker/worker.go, internal/mq/mq.go). */
module Pipeline {
  import opened Model
  import opened Interactions

  const BATCH := 100      // relayOnce fetches at most this many rows
  const PREFETCH := 10    // RunConsumer's Qos
  const LISTENER := 1     // NewPublisher's NotifyPublish channel

  /** Routing keys bound to the interaction queue by SetupTopology. */
  const BOUND: set<EventType> := {LikeCreated, LikeRemoved, CommentCreated, CommentDeleted}

  /** MessageId, routing key and body. */
  datatype Message = Message(id: nat, key: EventType, body: CountEvent)

  datatype Publishing = Publishing(tag: nat, msg: Message)

  datatype Confirmation = Confirmation(tag: nat, ack: bool)

  /** The publisher's channel.  `wire` holds publishings the broker has not handled, `confirms` the
      replies not yet received.  `sent` (every message published on this channel, so a tag is an
      index into it) and `timeouts` are history variables no step reads. */
  datatype Channel = Channel(
    open: bool, sent: seq<Message>, wire: seq<Publishing>, confirms: seq<Confirmation>, timeouts: nat)

  /** Where relayOnce is: outside a round, in its publish loop, or past the loop.  `batch` starts
      with the event being published; `waiting` means its publishing is out. */
  datatype Relay =
    | Idle
    | Looping(batch: seq<nat>, done: seq<nat>, waiting: bool)
    | Closing(done: seq<nat>)

  /** `queue` is the broker's queue in delivery order; its first `unacked` messages are out for
      delivery.  `inbox` is what the consumer still has to handle, `verdict` the result of handling
      its head.  Three history variables no step reads: `stale`, some Publish has taken the positive reply
      to another event for its own; `nacked`, the consumer has given up on an event not yet applied;
      `shuffled`, some fetch has not returned the rows that come next in commit order. */
  datatype Sys = Sys(
    db: Db, ch: Channel, relay: Relay,
    queue: seq<Message>, unacked: nat, inbox: seq<Message>, verdict: Option<bool>,
    dlq: seq<Message>, stale: bool, nacked: bool, shuffled: bool)

  datatype Tx =
    | CreatePost(author: int, text: string, at: int)
    | SoftDelete(id: int)
    | Like(uid: int, postID: int, serial: nat)
    | Unlike(uid: int, postID: int, serial: nat)
    | Comment(uid: int, postID: int, content: string, now: int, serial: nat)
    | DeleteComment(id: int, serial: nat)

  /** What became of one Apply transaction, as the database and the caller see it. */
  datatype Fate = Committed | RolledBack | CommittedUnseen

  datatype Action =
    | Client(tx: Tx)
    | RelayFetch
    | RelaySend(ok: bool)
    | RelayConfirm
    | RelayTimeout
    | RelayClosed
    | RelayMark(ok: bool)
    | BrokerAccept
    | BrokerReject
    | Deliver
    | Consume(fate: Fate)
    | Settle
    | ChannelClose
    | Restart

  function NewChannel(): Channel {
    Channel(true, [], [], [], 0)
  }

  function Init(): Sys {
    Sys(EmptyDb(), NewChannel(), Idle, [], 0, [], None, [], false, false, false)
  }

  function MessageOf(db: Db, id: nat): Message
    requires id < |db.outbox|
  {
    Message(id, db.outbox[id].key, db.outbox[id].event)
  }

  // ---------- Steps: an action that is not enabled changes nothing ----------

  /** The service checks that the post exists before the transaction; rows are never removed, so the
      row is still there when the transaction runs, even if it was soft-deleted in between. */
  function ClientStep(db: Db, tx: Tx): Db {
    match tx
    case CreatePost(uid, text, at) => CreatePostTx(db, uid, text, at)
    case SoftDelete(id) => SoftDeleteTx(db, id)
    case Like(uid, p, serial) => if p in db.posts then LikeTx(db, uid, p, serial) else db
    case Unlike(uid, p, serial) => if p in db.posts then UnlikeTx(db, uid, p, serial) else db
    case Comment(uid, p, content, now, serial) =>
      if p in db.posts then CommentTx(db, uid, p, content, now, serial) else db
    case DeleteComment(id, serial) => var r := DeleteCommentTx(db, id, serial); if r.Ok? then r.value else db
  }

  /** The ids follow the marked rows in commit order, where the first |marked| rows are marked. */
  predicate Continues(db: Db, ids: seq<nat>) {
    forall i :: 0 <= i < |ids| ==> ids[i] == |db.marked| + i
  }

  function FetchStep(s: Sys): Sys {
    if s.relay.Idle? then
      var ids := FetchPending(s.db, BATCH);
      s.(relay := Looping(ids, [], false), shuffled := s.shuffled || !Continues(s.db, ids))
    else s
  }

  predicate CanSend(s: Sys) {
    s.relay.Looping? && !s.relay.waiting && s.relay.batch != [] && s.relay.batch[0] < |s.db.outbox|
  }

  /** PublishWithContext; an error ends the loop. */
  function SendStep(s: Sys, ok: bool): Sys {
    if !CanSend(s) then s
    else if ok && s.ch.open then
      var m := MessageOf(s.db, s.relay.batch[0]);
      s.(ch := s.ch.(sent := s.ch.sent + [m], wire := s.ch.wire + [Publishing(|s.ch.sent|, m)]),
         relay := s.relay.(waiting := true))
    else s.(relay := Closing(s.relay.done))
  }

  predicate Waiting(s: Sys) {
    s.relay.Looping? && s.relay.waiting && s.relay.batch != []
  }

  /** A positive reply taken for event `id` although it answers another event. */
  predicate Misattributed(ch: Channel, c: Confirmation, id: nat) {
    c.ack && (c.tag >= |ch.sent| || ch.sent[c.tag].id != id)
  }

  /** Publish takes the next confirmation, whatever its tag. */
  function ConfirmStep(s: Sys): Sys {
    if !Waiting(s) || s.ch.confirms == [] then s
    else
      var c := s.ch.confirms[0];
      s.(ch := s.ch.(confirms := s.ch.confirms[1..]),
         stale := s.stale || Misattributed(s.ch, c, s.relay.batch[0]),
         relay := if c.ack then Looping(s.relay.batch[1..], s.relay.done + [s.relay.batch[0]], false)
                  else Closing(s.relay.done))
  }

  function TimeoutStep(s: Sys): Sys {
    if Waiting(s) && s.ch.open
    then s.(ch := s.ch.(timeouts := s.ch.timeouts + 1), relay := Closing(s.relay.done)) else s
  }

  function ClosedStep(s: Sys): Sys {
    if Waiting(s) && !s.ch.open then s.(relay := Closing(s.relay.done)) else s
  }

  predicate CanMark(s: Sys) {
    s.relay.Closing? || (s.relay.Looping? && s.relay.batch == [] && !s.relay.waiting)
  }

  function MarkStep(s: Sys, ok: bool): Sys {
    if CanMark(s)
    then s.(relay := Idle, db := if ok && s.relay.done != [] then MarkProcessed(s.db, s.relay.done) else s.db)
    else s
  }

  /** The broker routes by key, then confirms; an unroutable message is confirmed and dropped. */
  function AcceptStep(s: Sys): Sys {
    if !s.ch.open || s.ch.wire == [] then s
    else
      var p := s.ch.wire[0];
      s.(ch := s.ch.(wire := s.ch.wire[1..], confirms := s.ch.confirms + [Confirmation(p.tag, true)]),
         queue := if p.msg.key in BOUND then s.queue + [p.msg] else s.queue)
  }

  function RejectStep(s: Sys): Sys {
    if !s.ch.open || s.ch.wire == [] then s
    else s.(ch := s.ch.(wire := s.ch.wire[1..], confirms := s.ch.confirms + [Confirmation(s.ch.wire[0].tag, false)]))
  }

  /** The confirmation listener holds one reply.  A second unread one blocks whoever reads the connection, and
      no delivery gets through until a Publish has taken the first. */
  predicate Blocked(s: Sys) {
    |s.ch.confirms| > LISTENER
  }

  predicate CanDeliver(s: Sys) {
    s.ch.open && !Blocked(s) && s.unacked < |s.queue| && s.unacked < PREFETCH
  }

  function DeliverStep(s: Sys): Sys {
    if CanDeliver(s) then s.(inbox := s.inbox + [s.queue[s.unacked]], unacked := s.unacked + 1) else s
  }

  predicate CanConsume(s: Sys) {
    s.inbox != [] && s.verdict.None?
  }

  /** handleDelivery on the head of the inbox. */
  function ConsumeStep(s: Sys, fate: Fate): Sys {
    if !CanConsume(s) then s
    else
      var r := ApplyTx(s.db, s.inbox[0].id, s.inbox[0].body);
      if r.Err? || fate.RolledBack? then s.(verdict := Some(false))
      else s.(db := r.value, verdict := Some(fate.Committed?))
  }

  /** The consumer is about to give up on an event it has not applied. */
  predicate GivesUp(s: Sys) {
    s.inbox != [] && s.verdict == Some(false) && s.inbox[0].id !in s.db.processed
  }

  /** Ack removes the message; Nack without requeue dead-letters it; on a closed channel neither
      reaches the broker. */
  function SettleStep(s: Sys): Sys {
    if s.inbox == [] || s.verdict.None? then s
    else
      var s' := s.(inbox := s.inbox[1..], verdict := None, nacked := s.nacked || GivesUp(s));
      if !s.ch.open || s.unacked == 0 || s.queue == [] then s'
      else s'.(queue := s.queue[1..], unacked := s.unacked - 1,
               dlq := if s.verdict.value then s.dlq else s.dlq + [s.queue[0]])
  }

  /** The connection drops: unhandled publishings and unread confirmations are gone, unacked
      deliveries go back to the head of the queue, the consumer keeps what it already received. */
  function CloseStep(s: Sys): Sys {
    s.(ch := s.ch.(open := false, wire := [], confirms := []), unacked := 0)
  }

  /** The worker process dies and starts again on a fresh connection. */
  function RestartStep(s: Sys): Sys {
    s.(ch := NewChannel(), relay := Idle, unacked := 0, inbox := [], verdict := None)
  }

  function Step(s: Sys, a: Action): Sys {
    match a
    case Client(tx) => s.(db := ClientStep(s.db, tx))
    case RelayFetch => FetchStep(s)
    case RelaySend(ok) => SendStep(s, ok)
    case RelayConfirm => ConfirmStep(s)
    case RelayTimeout => TimeoutStep(s)
    case RelayClosed => ClosedStep(s)
    case RelayMark(ok) => MarkStep(s, ok)
    case BrokerAccept => AcceptStep(s)
    case BrokerReject => RejectStep(s)
    case Deliver => DeliverStep(s)
    case Consume(fate) => ConsumeStep(s, fate)
    case Settle => SettleStep(s)
    case ChannelClose => CloseStep(s)
    case Restart => RestartStep(s)
  }

  function Run(s: Sys, trace: seq<Action>): Sys {
    if trace == [] then s else Step(Run(s, trace[..|trace| - 1]), trace[|trace| - 1])
  }

  lemma {:induction false} RunConcat(s: Sys, t: seq<Action>, u: seq<Action>)
    ensures Run(s, t + u) == Run(Run(s, t), u)
  {
    if u == [] {
      assert t + u == t;
    } else {
      RunConcat(s, t, u[..|u| - 1]);
      assert (t + u)[..|t + u| - 1] == t + u[..|u| - 1];
    }
  }

  // ---------- What every step keeps, whatever fails ----------

  /** The message is a faithful copy of the outbox row it names. */
  predicate Genuine(db: Db, m: Message) {
    m.id < |db.outbox| && m == MessageOf(db, m.id)
  }

  ghost predicate AllGenuine(db: Db, ms: seq<Message>) {
    forall i :: 0 <= i < |ms| ==> Genuine(db, ms[i])
  }

  /** How many publishings the broker has not handled or whose reply was not read. */
  function Unanswered(s: Sys): nat {
    |s.ch.confirms| + |s.ch.wire|
  }

  /** Confirmations and unhandled publishings carry consecutive tags ending at the last one sent. */
  ghost predicate Fifo(s: Sys) {
    && Unanswered(s) <= |s.ch.sent|
    && (forall i :: 0 <= i < |s.ch.confirms| ==> s.ch.confirms[i].tag == |s.ch.sent| - Unanswered(s) + i)
    && (forall i :: 0 <= i < |s.ch.wire| ==> s.ch.wire[i].tag == |s.ch.sent| - |s.ch.wire| + i)
    && (forall i :: 0 <= i < |s.ch.wire| ==> s.ch.wire[i].msg == s.ch.sent[s.ch.wire[i].tag])
    && (s.ch.open ==> Unanswered(s) == s.ch.timeouts + if Waiting(s) then 1 else 0)
    && (!s.ch.open ==> Unanswered(s) == 0)
    && (s.ch.open && Waiting(s) ==> s.ch.sent[|s.ch.sent| - 1].id == s.relay.batch[0])
  }

  /** The round in progress is over distinct unmarked events. */
  ghost predicate RoundSound(s: Sys) {
    match s.relay
    case Idle => true
    case Closing(done) => RoundIds(s.db, done)
    case Looping(batch, done, waiting) =>
      RoundIds(s.db, done + batch) && |batch| + |done| <= BATCH && (waiting ==> batch != [])
  }

  ghost predicate RoundIds(db: Db, ids: seq<nat>) {
    NoRepeats(ids) && forall i :: 0 <= i < |ids| ==> ids[i] < |db.outbox| && ids[i] !in db.marked
  }

  /** While the channel is open the consumer holds exactly the unacked head of the queue. */
  ghost predicate ConsumerView(s: Sys) {
    && s.unacked <= |s.queue|
    && (s.ch.open ==> s.inbox == s.queue[..s.unacked])
    && (!s.ch.open ==> s.unacked == 0)
    && (s.verdict.Some? ==> s.inbox != [])
    && (s.verdict == Some(true) ==> s.inbox[0].id in s.db.processed)
  }

  ghost predicate Inv(s: Sys) {
    Balanced(s.db) && Wiring(s)
  }

  ghost predicate Wiring(s: Sys) {
    && AllGenuine(s.db, s.ch.sent) && AllGenuine(s.db, s.queue) && AllGenuine(s.db, s.inbox) && AllGenuine(s.db, s.dlq)
    && Fifo(s)
    && RoundSound(s)
    && ConsumerView(s)
  }

  /** Transactions append to the outbox and leave marks and dedup alone, so copies stay genuine. */
  lemma ClientAppends(db: Db, tx: Tx)
    ensures var db' := ClientStep(db, tx);
            && db.outbox <= db'.outbox && |db'.outbox| <= |db.outbox| + 1
            && db'.marked == db.marked && db'.processed == db.processed
  {
  }

  /** Only clients write events. */
  lemma SameRows(s: Sys, a: Action)
    requires !a.Client?
    ensures Step(s, a).db.outbox == s.db.outbox
  {
  }

  lemma ClientBalances(db: Db, tx: Tx)
    requires Balanced(db)
    ensures Balanced(ClientStep(db, tx))
  {
    match tx
    case CreatePost(uid, text, at) => CreatePostBalances(db, uid, text, at);
    case SoftDelete(id) => SoftDeleteBalances(db, id);
    case Like(uid, p, serial) => if p in db.posts { LikeBalances(db, uid, p, serial); }
    case Unlike(uid, p, serial) => if p in db.posts { UnlikeBalances(db, uid, p, serial); }
    case Comment(uid, p, content, now, serial) =>
      if p in db.posts { CommentBalances(db, uid, p, content, now, serial); }
    case DeleteComment(id, serial) => if id in db.comments { DeleteCommentBalances(db, id, serial); }
  }

  lemma InitInv()
    ensures Inv(Init())
  {
  }

  /** A longer outbox with the same marks. */
  lemma OutboxFrame(s: Sys, db: Db)
    requires Wiring(s) && s.db.outbox <= db.outbox && db.marked == s.db.marked && db.processed == s.db.processed
    ensures Wiring(s.(db := db))
  {
  }

  lemma ClientKeeps(s: Sys, tx: Tx)
    requires Inv(s)
    ensures Inv(Step(s, Client(tx)))
  {
    ClientBalances(s.db, tx);
    ClientAppends(s.db, tx);
    OutboxFrame(s, ClientStep(s.db, tx));
  }

  lemma FetchedRound(db: Db)
    ensures var ids := FetchPending(db, BATCH); RoundIds(db, [] + ids) && |ids| <= BATCH
  {
    FetchFacts(db, BATCH);
    var ids := FetchPending(db, BATCH);
    assert [] + ids == ids;
    assert forall i :: 0 <= i < |ids| ==> ids[i] in ids;
  }

  lemma FetchWiring(s: Sys)
    requires Wiring(s)
    ensures Wiring(FetchStep(s))
  {
    FetchedRound(s.db);
    assert RoundSound(FetchStep(s));
    assert Fifo(FetchStep(s)) && ConsumerView(FetchStep(s));
  }

  lemma SendWiring(s: Sys, ok: bool)
    requires Wiring(s)
    ensures Wiring(SendStep(s, ok))
  {
    if CanSend(s) {
      CloseLoop(s);
    }
  }

  lemma CloseLoop(s: Sys)
    requires RoundSound(s) && s.relay.Looping?
    ensures RoundIds(s.db, s.relay.done)
    ensures s.relay.batch != [] ==> s.relay.batch[0] < |s.db.outbox| && s.relay.batch[0] !in s.db.marked
  {
    var ids := s.relay.done + s.relay.batch;
    assert forall i :: 0 <= i < |s.relay.done| ==> ids[i] == s.relay.done[i];
    assert s.relay.batch != [] ==> ids[|s.relay.done|] == s.relay.batch[0];
  }

  lemma ConfirmWiring(s: Sys)
    requires Wiring(s)
    ensures Wiring(ConfirmStep(s))
  {
    if Waiting(s) && s.ch.confirms != [] {
      CloseLoop(s);
      assert (s.relay.done + [s.relay.batch[0]]) + s.relay.batch[1..] == s.relay.done + s.relay.batch;
    }
  }

  lemma TimeoutWiring(s: Sys)
    requires Wiring(s)
    ensures Wiring(TimeoutStep(s))
    ensures Wiring(ClosedStep(s))
  {
    if Waiting(s) { CloseLoop(s); }
  }

  lemma MarkWiring(s: Sys, ok: bool)
    requires Wiring(s) && CanMark(s)
    ensures Wiring(MarkStep(s, ok))
  {
    var s' := MarkStep(s, ok);
    assert s'.db.outbox == s.db.outbox && s'.db.processed == s.db.processed;
    assert Fifo(s') && ConsumerView(s');
  }

  lemma MarkKeeps(s: Sys, ok: bool)
    requires Inv(s)
    ensures Inv(MarkStep(s, ok))
  {
    if CanMark(s) {
      MarkWiring(s, ok);
      if ok && s.relay.done != [] {
        if s.relay.Looping? { CloseLoop(s); }
        MarkBalances(s.db, s.relay.done);
      }
    }
  }

  lemma AcceptFifo(s: Sys)
    requires Fifo(s)
    ensures Fifo(AcceptStep(s))
  {
  }

  lemma RejectFifo(s: Sys)
    requires Fifo(s)
    ensures Fifo(RejectStep(s))
  {
  }

  lemma BrokerWiring(s: Sys)
    requires Wiring(s)
    ensures Wiring(AcceptStep(s)) && Wiring(RejectStep(s))
  {
    AcceptFifo(s);
    RejectFifo(s);
    var s' := AcceptStep(s);
    assert s.ch.open && s.ch.wire != [] ==> Genuine(s.db, s.ch.wire[0].msg);
    assert AllGenuine(s.db, s'.queue);
    assert s.queue <= s'.queue;
    assert ConsumerView(s');
  }

  lemma DeliverWiring(s: Sys)
    requires Wiring(s)
    ensures Wiring(DeliverStep(s))
  {
    var s' := DeliverStep(s);
    PublisherFrame(s, s');
    if CanDeliver(s) {
      assert s.queue[..s.unacked + 1] == s.inbox + [s.queue[s.unacked]];
    }
  }

  lemma ConsumeWiring(s: Sys, db: Db, ok: bool)
    requires Wiring(s) && s.inbox != []
    requires db.outbox == s.db.outbox && db.marked == s.db.marked && s.db.processed <= db.processed
    requires ok ==> s.inbox[0].id in db.processed
    ensures Wiring(s.(db := db, verdict := Some(ok)))
  {
  }

  lemma ConsumeKeeps(s: Sys, fate: Fate)
    requires Inv(s)
    ensures Inv(ConsumeStep(s, fate))
  {
    if CanConsume(s) {
      assert Genuine(s.db, s.inbox[0]);
      var id := s.inbox[0].id;
      var r := ApplyTx(s.db, id, s.inbox[0].body);
      ApplyBalances(s.db, id);
      ConsumeWiring(s, s.db, false);
      ConsumeWiring(s, r.value, fate.Committed?);
    }
  }

  lemma SettleView(s: Sys)
    requires ConsumerView(s)
    ensures ConsumerView(SettleStep(s))
  {
  }

  /** A step that touches neither the channel, the relay, the marks nor the outbox. */
  lemma PublisherFrame(s: Sys, s': Sys)
    requires Fifo(s) && RoundSound(s) && s'.ch == s.ch && s'.relay == s.relay
    requires s'.db.marked == s.db.marked && s'.db.outbox == s.db.outbox
    ensures Fifo(s') && RoundSound(s')
  {
  }

  lemma SettleWiring(s: Sys)
    requires Wiring(s)
    ensures Wiring(SettleStep(s))
  {
    var s' := SettleStep(s);
    SettleView(s);
    PublisherFrame(s, s');
    assert AllGenuine(s.db, s'.queue) && AllGenuine(s.db, s'.inbox) && AllGenuine(s.db, s'.dlq);
  }

  lemma RestartWiring(s: Sys)
    requires Wiring(s)
    ensures Wiring(CloseStep(s)) && Wiring(RestartStep(s))
  {
  }

  predicate ByRelay(a: Action) {
    a.RelayFetch? || a.RelaySend? || a.RelayConfirm? || a.RelayTimeout? || a.RelayClosed? || a.RelayMark?
  }

  lemma RelayKeeps(s: Sys, a: Action)
    requires Inv(s) && ByRelay(a)
    ensures Inv(Step(s, a))
  {
    match a {
      case RelayFetch => FetchWiring(s);
      case RelaySend(ok) => SendWiring(s, ok);
      case RelayConfirm => ConfirmWiring(s);
      case RelayMark(ok) => MarkKeeps(s, ok);
      case _ => TimeoutWiring(s);
    }
  }

  lemma OthersKeep(s: Sys, a: Action)
    requires Inv(s) && !ByRelay(a) && !a.Client?
    ensures Inv(Step(s, a))
  {
    match a {
      case BrokerAccept => BrokerWiring(s);
      case BrokerReject => BrokerWiring(s);
      case Deliver => DeliverWiring(s);
      case Consume(fate) => ConsumeKeeps(s, fate);
      case Settle => SettleWiring(s);
      case _ => RestartWiring(s);
    }
  }

  lemma StepKeeps(s: Sys, a: Action)
    requires Inv(s)
    ensures Inv(Step(s, a))
  {
    if a.Client? {
      ClientKeeps(s, a.tx);
    } else if ByRelay(a) {
      RelayKeeps(s, a);
    } else {
      OthersKeep(s, a);
    }
  }

  /** A state some run from the empty system ends in. */
  ghost predicate Reachable(s: Sys) {
    exists trace :: s == Run(Init(), trace)
  }

  lemma {:induction false} RunKeeps(s: Sys, trace: seq<Action>)
    requires Inv(s)
    ensures Inv(Run(s, trace))
  {
    if trace != [] {
      RunKeeps(s, trace[..|trace| - 1]);
      StepKeeps(Run(s, trace[..|trace| - 1]), trace[|trace| - 1]);
    }
  }

  /** The invariant holds in every run. */
  lemma ReachableInv(s: Sys)
    requires Reachable(s)
    ensures Inv(s)
  {
    var trace :| s == Run(Init(), trace);
    InitInv();
    RunKeeps(Init(), trace);
  }

  /** Conservation in every run: duplicated, crashed or dead-lettered, a count column plus the deltas
      of the events not yet in processed_events is the number of rows. */
  lemma ConservationInEveryRun(s: Sys, p: int, f: Field)
    requires Reachable(s) && p in s.db.posts && AllowedField(f)
    ensures Count(s.db, p, f) + Outstanding(s.db.outbox, s.db.processed, p, f) == Rows(s.db, p, f)
  {
    ReachableInv(s);
    Conservation(s.db, p, f);
  }

  /** Confirmation attribution: after d timeouts on a channel, the confirmation a Publish consumes is
      for the message published d places before its own, so it is its own exactly when d = 0. */
  lemma ConfirmationAttribution(s: Sys)
    requires Reachable(s) && Waiting(s) && s.ch.confirms != []
    ensures var own := |s.ch.sent| - 1;
            && s.ch.confirms[0].tag == own - s.ch.timeouts
            && s.ch.sent[own].id == s.relay.batch[0]
            && (s.ch.confirms[0].tag == own <==> s.ch.timeouts == 0)
  {
    ReachableInv(s);
    assert Fifo(s);
  }
}
