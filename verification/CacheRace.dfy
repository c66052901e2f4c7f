/** One post's cache key under interleaving: fills read the row and write the cache later, writers
    commit and delete the key later, and any cache command may fail (internal/service/post_service.go,
    internal/service/interaction_service.go:40-46, internal/worker/worker.go:52-71). */
module CacheRace {
  import opened Model

  /** What became of a committed write's Del.  Creation has none. */
  datatype Fate = NoDel | Pending | Failed | Deleted(at: nat)

  /** A fill in flight: the value it read and how many commits it saw. */
  datatype Fill = Fill(value: Option<Post>, seen: nat)

  /** `setAt` is wall-clock time; `stamp` orders the Set among the other events. */
  datatype Entry = Entry(value: Option<Post>, seen: nat, setAt: nat, dies: nat, stamp: nat)

  /** rows[v] is the live row after v commits (None: absent or soft-deleted); writes[v] is the commit
      that made rows[v + 1].  `known` says whether the bloom filter has the id. */
  datatype Key = Key(
    now: nat, clock: nat, rows: seq<Option<Post>>, writes: seq<Fate>, known: bool,
    cache: Option<Entry>, fills: map<nat, Fill>)

  datatype Event =
    | Tick(ms: nat)
    | Create(post: Post)
    | BloomAdd
    | Commit(row: Option<Post>)
    | Del(w: nat, ok: bool)
    | ReadRow(fill: nat)
    | RuleOut(fill: nat)
    | Set(fill: nat, ok: bool)

  function Init(): Key {
    Key(0, 0, [None], [], false, None, map[])
  }

  function Happen(k: Key, e: Event): Key {
    match e
    case Tick(ms) => k.(now := k.now + ms)
    case Create(p) =>
      if k.writes != [] then k else k.(rows := k.rows + [Some(p)], writes := [NoDel])
    case BloomAdd => if k.writes == [] then k else k.(known := true)
    case Commit(row) =>
      if k.writes == [] then k else k.(rows := k.rows + [row], writes := k.writes + [Pending])
    case Del(w, ok) =>
      if w >= |k.writes| || !k.writes[w].Pending? then k
      else if ok then k.(cache := None, writes := k.writes[w := Deleted(k.clock)])
      else k.(writes := k.writes[w := Failed])
    case ReadRow(f) => if k.rows == [] then k else k.(fills := k.fills[f := Fill(k.rows[|k.rows| - 1], |k.writes|)])
    case RuleOut(f) => if k.known then k else k.(fills := k.fills[f := Fill(None, 0)])
    case Set(f, ok) =>
      if f !in k.fills then k
      else
        var v := k.fills[f];
        var ttl := if v.value.Some? then POST_TTL else NIL_TTL;
        k.(fills := k.fills - {f},
           cache := if ok then Some(Entry(v.value, v.seen, k.now, k.now + ttl, k.clock)) else k.cache)
  }

  /** Events carry increasing stamps. */
  function Step(k: Key, e: Event): Key {
    var k' := Happen(k, e);
    k'.(clock := k.clock + 1)
  }

  function Run(events: seq<Event>): Key {
    if events == [] then Init() else Step(Run(events[..|events| - 1]), events[|events| - 1])
  }

  /** The row a direct read would give now. */
  function Current(k: Key): Option<Post> {
    if k.rows == [] then None else k.rows[|k.rows| - 1]
  }

  predicate LiveEntry(k: Key) {
    k.cache.Some? && k.now < k.cache.value.dies
  }

  /** Write w has not removed this entry: its Del has not run, failed, ran before the Set, or there is none. */
  predicate Unresolved(k: Key, w: nat, e: Entry)
    requires w < |k.writes|
  {
    match k.writes[w]
    case Deleted(at) => at < e.stamp
    case _ => true
  }

  ghost predicate Traced(k: Key, value: Option<Post>, seen: nat) {
    seen < |k.rows| && value == k.rows[seen]
  }

  ghost predicate GoodEntry(k: Key, e: Entry) {
    && Traced(k, e.value, e.seen)
    && e.setAt <= k.now && e.stamp < k.clock
    && e.dies == e.setAt + (if e.value.Some? then POST_TTL else NIL_TTL)
    && forall w :: e.seen <= w < |k.writes| ==> Unresolved(k, w, e)
  }

  ghost predicate Inv(k: Key) {
    && |k.rows| == |k.writes| + 1 && k.rows[0] == None
    && (forall w :: 0 <= w < |k.writes| ==> (k.writes[w].NoDel? <==> w == 0))
    && (forall w :: 0 <= w < |k.writes| && k.writes[w].Deleted? ==> k.writes[w].at < k.clock)
    && (forall f :: f in k.fills ==> Traced(k, k.fills[f].value, k.fills[f].seen))
    && (k.cache.Some? ==> GoodEntry(k, k.cache.value))
    && (k.known ==> k.writes != [])
  }

  /** An entry stays good while its writes' fates and the rows it has seen do. */
  lemma EntryKept(k: Key, k': Key)
    requires k.cache.Some? && k'.cache == k.cache && GoodEntry(k, k.cache.value)
    requires k.rows <= k'.rows && k.now <= k'.now && k.clock <= k'.clock && |k.writes| <= |k'.writes|
    requires forall w :: 0 <= w < |k.writes| ==> k'.writes[w] == k.writes[w] || k'.writes[w].Failed?
    requires forall w :: |k.writes| <= w < |k'.writes| ==> !k'.writes[w].Deleted?
    ensures GoodEntry(k', k.cache.value)
  {
    var e := k.cache.value;
    forall w | e.seen <= w < |k'.writes| ensures Unresolved(k', w, e) {
      assert w < |k.writes| ==> Unresolved(k, w, e);
    }
  }

  lemma FillsKept(k: Key, k': Key)
    requires Inv(k) && k'.fills == k.fills && k.rows <= k'.rows
    ensures forall f :: f in k'.fills ==> Traced(k', k'.fills[f].value, k'.fills[f].seen)
  {
  }

  lemma SetKeeps(k: Key, f: nat, ok: bool)
    requires Inv(k)
    ensures Inv(Step(k, Set(f, ok)))
  {
    var k' := Step(k, Set(f, ok));
    if f in k.fills && ok {
      assert Traced(k, k.fills[f].value, k.fills[f].seen);
      assert GoodEntry(k', k'.cache.value);
    } else if k.cache.Some? {
      EntryKept(k, k');
    }
    assert forall g :: g in k'.fills ==> g in k.fills && k'.fills[g] == k.fills[g];
  }

  lemma FillKeeps(k: Key, e: Event)
    requires Inv(k) && (e.ReadRow? || e.RuleOut?)
    ensures Inv(Step(k, e))
  {
    var k' := Step(k, e);
    if k.cache.Some? { EntryKept(k, k'); }
    forall f | f in k'.fills ensures Traced(k', k'.fills[f].value, k'.fills[f].seen) {
      assert f in k.fills ==> Traced(k, k.fills[f].value, k.fills[f].seen);
    }
  }

  lemma CommitKeeps(k: Key, e: Event)
    requires Inv(k) && (e.Create? || e.Commit?)
    ensures Inv(Step(k, e))
  {
    var k' := Step(k, e);
    FillsKept(k, k');
    if k.cache.Some? { EntryKept(k, k'); }
    assert k.writes <= k'.writes && |k'.writes| <= |k.writes| + 1;
  }

  lemma DelKeeps(k: Key, w: nat, ok: bool)
    requires Inv(k)
    ensures Inv(Step(k, Del(w, ok)))
  {
    var k' := Step(k, Del(w, ok));
    FillsKept(k, k');
    if k.cache.Some? && k'.cache == k.cache { EntryKept(k, k'); }
    assert |k'.writes| == |k.writes| && forall i :: 0 <= i < |k.writes| && i != w ==> k'.writes[i] == k.writes[i];
  }

  lemma StepKeeps(k: Key, e: Event)
    requires Inv(k)
    ensures Inv(Step(k, e))
  {
    var k' := Step(k, e);
    match e
    case Set(f, ok) => SetKeeps(k, f, ok);
    case ReadRow(_) => FillKeeps(k, e);
    case RuleOut(_) => FillKeeps(k, e);
    case Del(w, ok) => DelKeeps(k, w, ok);
    case Create(_) => CommitKeeps(k, e);
    case Commit(_) => CommitKeeps(k, e);
    case _ =>
      FillsKept(k, k');
      if k.cache.Some? { EntryKept(k, k'); }
  }

  lemma {:induction false} RunKeeps(events: seq<Event>)
    ensures Inv(Run(events))
  {
    if events != [] {
      RunKeeps(events[..|events| - 1]);
      StepKeeps(Run(events[..|events| - 1]), events[|events| - 1]);
    }
  }

  ghost predicate Reachable(k: Key) {
    exists events :: k == Run(events)
  }

  /** What a cached entry is, in every interleaving: the row as it was after some number of commits, with not
      one of the writes since then resolved, kept for ten minutes or thirty seconds from its Set. */
  lemma StalenessCharacterised(k: Key)
    requires Reachable(k) && k.cache.Some?
    ensures var e := k.cache.value;
            && e.seen <= |k.writes| == |k.rows| - 1 && e.value == k.rows[e.seen]
            && (forall w :: e.seen <= w < |k.writes| ==> Unresolved(k, w, e))
            && e.setAt <= k.now && e.dies == e.setAt + if e.value.Some? then 600_000 else 30_000
  {
    var events :| k == Run(events);
    RunKeeps(events);
  }

  /** A live positive entry that differs from the row missed some commit whose Del failed, has not run,
      or ran before the entry was set; and it dies within ten minutes of being set. */
  lemma StaleOnlyBy(k: Key)
    requires Reachable(k) && LiveEntry(k) && k.cache.value.value.Some? && k.cache.value.value != Current(k)
    ensures var e := k.cache.value;
            && (exists w :: e.seen <= w < |k.writes| &&
                  (k.writes[w] == Failed || k.writes[w] == Pending
                   || (k.writes[w].Deleted? && k.writes[w].at < e.stamp)))
            && k.now < e.setAt + 600_000
  {
    var events :| k == Run(events);
    RunKeeps(events);
    var e := k.cache.value;
    assert e.seen != 0;
    assert e.seen < |k.writes|;
    assert Unresolved(k, e.seen, e);
  }

  /** A live empty entry for an existing post missed its creation (or a later commit), and dies within
      thirty seconds of being set. */
  lemma EmptyOnlyBy(k: Key)
    requires Reachable(k) && LiveEntry(k) && k.cache.value.value.None? && Current(k).Some?
    ensures k.cache.value.seen < |k.writes| && k.now < k.cache.value.setAt + 30_000
  {
    var events :| k == Run(events);
    RunKeeps(events);
  }

  lemma Snoc(t: seq<Event>, e: Event)
    ensures Run(t + [e]) == Step(Run(t), e)
  {
  }

  predicate StaleNow(k: Key) {
    LiveEntry(k) && k.cache.value.value.Some? && k.cache.value.value != Current(k)
  }

  /** From every state with a fill in flight, a commit that changes the row makes the entry stale in each of
      three ways: the Del has not run yet, it failed, or it ran before the Set. */
  lemma StaleFromAnyFill(k: Key, f: nat, row: Option<Post>)
    requires f in k.fills && k.fills[f].value.Some? && row != k.fills[f].value && k.writes != []
    ensures var set_ := Step(Step(k, Set(f, true)), Commit(row));
            StaleNow(set_) && StaleNow(Step(set_, Del(|k.writes|, false)))
    ensures StaleNow(Step(Step(Step(k, Commit(row)), Del(|k.writes|, true)), Set(f, true)))
  {
  }

  /** No entry outlives ten minutes, nor an empty one thirty seconds; time changes nothing else. */
  lemma EntriesDie(k: Key, ms: nat)
    requires Reachable(k)
    ensures var k' := Step(k, Tick(ms));
            && (ms >= 600_000 ==> !LiveEntry(k'))
            && (ms >= 30_000 && k.cache.Some? && k.cache.value.value.None? ==> !LiveEntry(k'))
            && k'.cache == k.cache && k'.rows == k.rows && k'.fills == k.fills
  {
    var events :| k == Run(events);
    RunKeeps(events);
  }

  /** A fill that is not interrupted serves the row as it is, for ten minutes or thirty seconds; one whose Set
      fails leaves the cache as it was. */
  lemma ReadThenSet(k: Key, f: nat, ms: nat)
    requires Reachable(k)
    ensures var k' := Step(Step(k, ReadRow(f)), Set(f, true));
            var later := Step(k', Tick(ms));
            && k'.cache.Some? && k'.cache.value.value == Current(k) == Current(later)
            && (LiveEntry(later) <==> ms < if Current(k).Some? then 600_000 else 30_000)
            && Step(Step(k, ReadRow(f)), Set(f, false)).cache == k.cache
  {
    var events :| k == Run(events);
    RunKeeps(events);
  }

  /** A commit is what a direct read then gives, a Del that works empties the key whatever was in it, and the
      filter knows the id only once the post exists. */
  lemma CommitThenDel(k: Key, row: Option<Post>, w: nat)
    requires Reachable(k)
    ensures k.writes != [] ==> Current(Step(k, Commit(row))) == row
    ensures k.writes == [] ==> forall p :: Current(Step(k, Create(p))) == Some(p)
    ensures w < |k.writes| && k.writes[w].Pending? ==> Step(k, Del(w, true)).cache == None
    ensures k.known ==> k.writes != []
  {
    var events :| k == Run(events);
    RunKeeps(events);
  }

  predicate HiddenNow(k: Key) {
    LiveEntry(k) && k.cache.value.value.None? && Current(k).Some?
  }

  /** An empty entry can come to hide an existing post in two ways: its id was looked up before it was created
      and the Set came after, or after it was created and before the filter was told; once the filter knows
      the id it rules it out no more. */
  lemma HiddenFromRace(k: Key, f: nat, p: Post)
    ensures Current(k) == None && k.writes == [] && k.rows != [] ==>
              HiddenNow(Step(Step(Step(k, ReadRow(f)), Create(p)), Set(f, true)))
    ensures Current(k).Some? ==>
              if k.known then Step(k, RuleOut(f)).fills == k.fills
              else HiddenNow(Step(Step(k, RuleOut(f)), Set(f, true)))
    ensures k.writes != [] ==> Step(k, BloomAdd).known
  {
  }

  const P := Post(1, 7, "p", 0, 0, 0, false)
  const Q := Post(1, 7, "p", 1, 0, 0, false)

  const READ: seq<Event> := [Create(P), ReadRow(0)]

  lemma AfterRead()
    ensures Run(READ) == Key(0, 2, [None, Some(P)], [NoDel], false, None, map[0 := Fill(Some(P), 1)])
  {
    Snoc([], Create(P));
    Snoc([Create(P)], ReadRow(0));
    assert [] + [Create(P)] == [Create(P)] && [Create(P)] + [ReadRow(0)] == READ;
  }

  /** And such states are reached, so each of the three causes happens. */
  lemma AllCausesHappen()
    ensures StaleNow(Run(READ + [Set(0, true)] + [Commit(Some(Q))]))
    ensures StaleNow(Run(READ + [Set(0, true)] + [Commit(Some(Q))] + [Del(1, false)]))
    ensures StaleNow(Run(READ + [Commit(Some(Q))] + [Del(1, true)] + [Set(0, true)]))
  {
    AfterRead();
    var t := READ + [Set(0, true)];
    Snoc(READ, Set(0, true));
    Snoc(t, Commit(Some(Q)));
    Snoc(t + [Commit(Some(Q))], Del(1, false));
    var u := READ + [Commit(Some(Q))];
    Snoc(READ, Commit(Some(Q)));
    Snoc(u, Del(1, true));
    Snoc(u + [Del(1, true)], Set(0, true));
  }
}
