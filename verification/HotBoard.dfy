/** The hot board (internal/cache/cache.go:89-137): heat in one sorted set per clock minute, each kept
    eleven minutes after its last increment if the EXPIRE behind it succeeds, summed and ranked.  Times are
    integer milliseconds and heat is a positive integer, the weights being 1 and 2
    (internal/service/interaction_service.go:19-20). */
module HotBoard {
  import opened Model
  import opened Cursor
  import opened Keyset

  const KEEP := 660_000      // eleven minutes

  type Weight = x: int | x > 0 witness 1

  /** An executed ZINCRBY.  `expireOk`: it was answered and the EXPIRE after it succeeded. */
  datatype Increment = Increment(at: nat, postID: int, heat: Weight, expireOk: bool)

  /** A minute's bucket: scores by post, and when the key expires, if ever. */
  datatype Bucket = Bucket(scores: map<int, int>, dies: Option<int>)

  function Score(scores: map<int, int>, id: int): int {
    if id in scores then scores[id] else 0
  }

  predicate Alive(b: Bucket, at: int) {
    b.dies.None? || at < b.dies.value
  }

  /** The bucket a command at time `at` sees: an expired key is gone. */
  function Seen(buckets: map<nat, Bucket>, minute: nat, at: int): map<int, int> {
    if minute in buckets && Alive(buckets[minute], at) then buckets[minute].scores else map[]
  }

  /** When the key is to expire, as a command at time `at` sees it; a new key never. */
  function SeenExpiry(buckets: map<nat, Bucket>, minute: nat, at: int): Option<int> {
    if minute in buckets && Alive(buckets[minute], at) then buckets[minute].dies else None
  }

  /** ZINCRBY on the current minute's bucket, then EXPIRE, which may fail. */
  function Add(buckets: map<nat, Bucket>, e: Increment): map<nat, Bucket> {
    var minute := MinuteOf(e.at);
    var seen := Seen(buckets, minute, e.at);
    buckets[minute := Bucket(seen[e.postID := Score(seen, e.postID) + e.heat],
                             if e.expireOk then Some(e.at + KEEP) else SeenExpiry(buckets, minute, e.at))]
  }

  function Buckets(log: seq<Increment>): map<nat, Bucket> {
    if log == [] then map[] else Add(Buckets(log[..|log| - 1]), log[|log| - 1])
  }

  ghost predicate Timed(log: seq<Increment>) {
    forall i, j :: 0 <= i < j < |log| ==> log[i].at <= log[j].at
  }

  // ---------- What a bucket holds ----------

  /** Heat given to a post in one minute. */
  function HeatIn(log: seq<Increment>, minute: nat, id: int): int {
    if log == [] then 0
    else
      var e := log[|log| - 1];
      HeatIn(log[..|log| - 1], minute, id) + if MinuteOf(e.at) == minute && e.postID == id then e.heat else 0
  }

  predicate Touched(log: seq<Increment>, minute: nat) {
    exists i :: 0 <= i < |log| && MinuteOf(log[i].at) == minute
  }

  /** The last increment of the minute whose EXPIRE succeeded. */
  function LastExpire(log: seq<Increment>, minute: nat): Option<nat> {
    if log == [] then None
    else
      var e := log[|log| - 1];
      if MinuteOf(e.at) == minute && e.expireOk then Some(e.at) else LastExpire(log[..|log| - 1], minute)
  }

  function Expiry(log: seq<Increment>, minute: nat): Option<int> {
    match LastExpire(log, minute)
    case None => None
    case Some(t) => Some(t + KEEP)
  }

  /** The post received heat in that minute. */
  predicate Gave(log: seq<Increment>, minute: nat, id: int) {
    exists i :: 0 <= i < |log| && MinuteOf(log[i].at) == minute && log[i].postID == id
  }

  ghost predicate Exact(buckets: map<nat, Bucket>, log: seq<Increment>) {
    && (forall m: nat :: m in buckets <==> Touched(log, m))
    && (forall m :: m in buckets ==> buckets[m].dies == Expiry(log, m))
    && (forall m, id :: m in buckets ==> Score(buckets[m].scores, id) == HeatIn(log, m, id))
    && (forall m, id :: m in buckets ==> (id in buckets[m].scores <==> Gave(log, m, id)))
  }

  lemma {:induction false} LastExpireInMinute(log: seq<Increment>, minute: nat)
    requires LastExpire(log, minute).Some?
    ensures var t := LastExpire(log, minute).value;
            && MinuteOf(t) == minute
            && (Timed(log) ==> forall i :: 0 <= i < |log| && MinuteOf(log[i].at) == minute && log[i].expireOk ==>
                log[i].at <= t)
  {
    var front, e := log[..|log| - 1], log[|log| - 1];
    if MinuteOf(e.at) != minute || !e.expireOk {
      LastExpireInMinute(front, minute);
      assert forall i :: 0 <= i < |front| ==> front[i] == log[i];
    }
  }

  lemma {:induction false} SomeExpire(log: seq<Increment>, i: nat)
    requires i < |log| && log[i].expireOk
    ensures LastExpire(log, MinuteOf(log[i].at)).Some?
  {
    if i < |log| - 1 { SomeExpire(log[..|log| - 1], i); }
  }

  /** A bucket never expires inside its own minute, so it sums every increment it was given. */
  lemma {:induction false} BucketsExact(log: seq<Increment>)
    ensures Exact(Buckets(log), log)
  {
    if log != [] {
      var front, e := log[..|log| - 1], log[|log| - 1];
      BucketsExact(front);
      AddExact(Buckets(front), front, e);
      assert front + [e] == log;
    }
  }

  lemma TouchedAppend(log: seq<Increment>, e: Increment, m: nat)
    ensures Touched(log + [e], m) <==> Touched(log, m) || m == MinuteOf(e.at)
    ensures LastExpire(log + [e], m) == if m == MinuteOf(e.at) && e.expireOk then Some(e.at) else LastExpire(log, m)
    ensures forall id :: HeatIn(log + [e], m, id) ==
              HeatIn(log, m, id) + if m == MinuteOf(e.at) && id == e.postID then e.heat else 0
  {
    var log' := log + [e];
    assert log'[..|log|] == log && log'[|log|] == e;
    if i :| 0 <= i < |log| && MinuteOf(log[i].at) == m {
      assert log'[i] == log[i];
    }
    if i :| 0 <= i < |log'| && MinuteOf(log'[i].at) == m {
      assert i < |log| ==> log[i] == log'[i];
    }
  }

  /** What ZINCRBY finds: the minute's whole heat so far, never an expired bucket. */
  lemma SeenNow(buckets: map<nat, Bucket>, log: seq<Increment>, e: Increment, id: int)
    requires Exact(buckets, log)
    ensures var seen := Seen(buckets, MinuteOf(e.at), e.at);
            && Score(seen, id) == HeatIn(log, MinuteOf(e.at), id)
            && (id in seen <==> Gave(log, MinuteOf(e.at), id))
    ensures SeenExpiry(buckets, MinuteOf(e.at), e.at) == Expiry(log, MinuteOf(e.at))
  {
    var minute := MinuteOf(e.at);
    if Touched(log, minute) {
      if LastExpire(log, minute).Some? { LastExpireInMinute(log, minute); }
    } else {
      NoExpire(log, minute);
      NoHeat(log, minute, id);
      assert !Gave(log, minute, id);
    }
  }

  lemma AddExact(buckets: map<nat, Bucket>, log: seq<Increment>, e: Increment)
    requires Exact(buckets, log)
    ensures Exact(Add(buckets, e), log + [e])
  {
    var log', after := log + [e], Add(buckets, e);
    forall m: nat ensures m in after <==> Touched(log', m) {
      TouchedAppend(log, e, m);
    }
    forall m | m in after ensures after[m].dies == Expiry(log', m) {
      TouchedAppend(log, e, m);
      if m == MinuteOf(e.at) { SeenNow(buckets, log, e, e.postID); }
    }
    forall m, id | m in after
      ensures Score(after[m].scores, id) == HeatIn(log', m, id) && (id in after[m].scores <==> Gave(log', m, id))
    {
      TouchedAppend(log, e, m);
      GaveAppend(log, e, m, id);
      if m == MinuteOf(e.at) { SeenNow(buckets, log, e, id); }
    }
  }

  lemma GaveAppend(log: seq<Increment>, e: Increment, m: nat, id: int)
    ensures Gave(log + [e], m, id) <==> Gave(log, m, id) || (m == MinuteOf(e.at) && id == e.postID)
  {
    var log' := log + [e];
    if i :| 0 <= i < |log| && MinuteOf(log[i].at) == m && log[i].postID == id {
      assert log'[i] == log[i];
    }
    if m == MinuteOf(e.at) && id == e.postID {
      assert log'[|log|] == e;
    }
  }

  lemma {:induction false} NoHeat(log: seq<Increment>, minute: nat, id: int)
    requires !Touched(log, minute)
    ensures HeatIn(log, minute, id) == 0
  {
    if log != [] {
      var front := log[..|log| - 1];
      assert MinuteOf(log[|log| - 1].at) != minute;
      assert forall i :: 0 <= i < |front| ==> MinuteOf(front[i].at) == MinuteOf(log[i].at);
      NoHeat(front, minute, id);
    }
  }

  lemma {:induction false} NoExpire(log: seq<Increment>, minute: nat)
    requires !Touched(log, minute)
    ensures LastExpire(log, minute) == None
  {
    if log != [] {
      var front := log[..|log| - 1];
      assert MinuteOf(log[|log| - 1].at) != minute;
      assert forall i :: 0 <= i < |front| ==> MinuteOf(front[i].at) == MinuteOf(log[i].at);
      NoExpire(front, minute);
    }
  }

  // ---------- The window HotTopN really has ----------

  /** The heat of a post summed over `window` buckets, the current minute's first. */
  function Summed(buckets: map<nat, Bucket>, now: nat, window: nat, id: int): int {
    if window == 0 then 0
    else
      var i := window - 1;
      Summed(buckets, now, i, id)
        + if i <= MinuteOf(now) then Score(Seen(buckets, MinuteOf(now) - i, now), id) else 0
  }

  /** The minute's bucket is still there at `now`: its last successful EXPIRE is less than eleven minutes
      ago, or there was none. */
  predicate Open(log: seq<Increment>, minute: nat, now: nat) {
    match LastExpire(log, minute)
    case None => true
    case Some(t) => now < t + KEEP
  }

  predicate Counted(log: seq<Increment>, i: nat, now: nat)
    requires i < |log|
  {
    Open(log, MinuteOf(log[i].at), now)
  }

  /** Everything from the last ten minutes counts, and from the last eleven if its EXPIRE succeeded; nothing
      twelve minutes old or older does, unless every EXPIRE of its minute failed, and then it always does. */
  lemma CountedWindow(log: seq<Increment>, i: nat, now: nat)
    requires Timed(log) && i < |log|
    ensures now < log[i].at + 600_000 ==> Counted(log, i, now)
    ensures now < log[i].at + 660_000 && log[i].expireOk ==> Counted(log, i, now)
    ensures now >= log[i].at + 720_000 ==>
              (Counted(log, i, now) <==> LastExpire(log, MinuteOf(log[i].at)) == None)
  {
    var minute := MinuteOf(log[i].at);
    if LastExpire(log, minute).Some? { LastExpireInMinute(log, minute); }
    if log[i].expireOk { SomeExpire(log, i); }
  }

  /** Heat of the post's increments in `part` whose minute lies in [lo, hi] and whose bucket is still there. */
  function OpenHeat(part: seq<Increment>, log: seq<Increment>, now: nat, lo: int, hi: int, id: int): int {
    if part == [] then 0
    else
      var e := part[|part| - 1];
      OpenHeat(part[..|part| - 1], log, now, lo, hi, id)
        + if e.postID == id && lo <= MinuteOf(e.at) <= hi && Open(log, MinuteOf(e.at), now) then e.heat else 0
  }

  lemma {:induction false} OneMinute(part: seq<Increment>, log: seq<Increment>, now: nat, m: nat, id: int)
    ensures OpenHeat(part, log, now, m, m, id) == if Open(log, m, now) then HeatIn(part, m, id) else 0
  {
    if part != [] {
      OneMinute(part[..|part| - 1], log, now, m, id);
    }
  }

  lemma {:induction false} SplitMinutes(part: seq<Increment>, log: seq<Increment>, now: nat, lo: int, hi: int, id: int)
    requires lo <= hi
    ensures OpenHeat(part, log, now, lo, hi, id) ==
            OpenHeat(part, log, now, lo, lo, id) + OpenHeat(part, log, now, lo + 1, hi, id)
  {
    if part != [] {
      SplitMinutes(part[..|part| - 1], log, now, lo, hi, id);
    }
  }

  lemma {:induction false} NoMinutes(part: seq<Increment>, log: seq<Increment>, now: nat, lo: int, hi: int, id: int)
    requires lo > hi || hi < 0
    ensures OpenHeat(part, log, now, lo, hi, id) == 0
  {
    if part != [] {
      NoMinutes(part[..|part| - 1], log, now, lo, hi, id);
    }
  }

  /** The board's score of a post is the heat of its counted increments of the minutes read. */
  lemma {:induction false} BoardScore(log: seq<Increment>, now: nat, window: nat, id: int)
    ensures Summed(Buckets(log), now, window, id) ==
            OpenHeat(log, log, now, MinuteOf(now) - window + 1, MinuteOf(now), id)
  {
    BucketsExact(log);
    if window == 0 {
      NoMinutes(log, log, now, MinuteOf(now) + 1, MinuteOf(now), id);
    } else {
      BoardScore(log, now, window - 1, id);
      var m := MinuteOf(now) - (window - 1);
      SplitMinutes(log, log, now, m, MinuteOf(now), id);
      if m >= 0 {
        OneMinute(log, log, now, m, id);
        if !Touched(log, m) { NoHeat(log, m, id); }
      } else {
        NoMinutes(log, log, now, m, m, id);
      }
    }
  }

  /** Some minute in [lo, hi] was incremented and none of its EXPIREs succeeded. */
  predicate Undying(log: seq<Increment>, lo: int, hi: int) {
    exists i :: 0 <= i < |log| && lo <= MinuteOf(log[i].at) <= hi && LastExpire(log, MinuteOf(log[i].at)) == None
  }

  /** Of the minutes twelve or more ago, only those that never expire are still there. */
  lemma OldIsUndying(log: seq<Increment>, now: nat, i: nat)
    requires i < |log| && MinuteOf(log[i].at) <= MinuteOf(now) - 12
    ensures Counted(log, i, now) <==> LastExpire(log, MinuteOf(log[i].at)) == None
  {
    var minute := MinuteOf(log[i].at);
    if LastExpire(log, minute).Some? { LastExpireInMinute(log, minute); }
  }

  /** Some increment of the post in [lo, hi] still counts. */
  predicate HasOpen(part: seq<Increment>, log: seq<Increment>, now: nat, lo: int, hi: int, id: int) {
    exists i :: 0 <= i < |part| && part[i].postID == id && lo <= MinuteOf(part[i].at) <= hi
        && Open(log, MinuteOf(part[i].at), now)
  }

  lemma {:induction false} OpenHeatPositive(part: seq<Increment>, log: seq<Increment>, now: nat, lo: int, hi: int,
      id: int)
    ensures OpenHeat(part, log, now, lo, hi, id) >= 0
    ensures OpenHeat(part, log, now, lo, hi, id) > 0 <==> HasOpen(part, log, now, lo, hi, id)
  {
    if part != [] {
      var front, e := part[..|part| - 1], part[|part| - 1];
      OpenHeatPositive(front, log, now, lo, hi, id);
      assert forall i :: 0 <= i < |front| ==> front[i] == part[i];
      if HasOpen(front, log, now, lo, hi, id) {
        var i :| 0 <= i < |front| && front[i].postID == id && lo <= MinuteOf(front[i].at) <= hi
                 && Open(log, MinuteOf(front[i].at), now);
        assert part[i] == front[i];
      }
    }
  }

  lemma {:induction false} SplitAt(part: seq<Increment>, log: seq<Increment>, now: nat, lo: int, mid: int, hi: int,
      id: int)
    requires lo <= mid + 1 && mid <= hi
    ensures OpenHeat(part, log, now, lo, hi, id) ==
            OpenHeat(part, log, now, lo, mid, id) + OpenHeat(part, log, now, mid + 1, hi, id)
  {
    if part != [] {
      SplitAt(part[..|part| - 1], log, now, lo, mid, hi, id);
    }
  }

  /** From `lo`, before the first minute, on: the board's score is the heat of all counted increments iff no
      increment older than the buckets read still counts; one that does lies in a minute that never expires. */
  lemma BoardIsCountedHeat(log: seq<Increment>, now: nat, window: nat, id: int, lo: int)
    requires window >= 12 && lo <= 0 && lo <= MinuteOf(now) - window + 1
    ensures var older := MinuteOf(now) - window;
            && (Summed(Buckets(log), now, window, id) == OpenHeat(log, log, now, lo, MinuteOf(now), id) <==>
                  !HasOpen(log, log, now, lo, older, id))
            && (HasOpen(log, log, now, lo, older, id) ==> Undying(log, lo, older))
  {
    var older := MinuteOf(now) - window;
    BoardScore(log, now, window, id);
    SplitAt(log, log, now, lo, older, MinuteOf(now), id);
    OpenHeatPositive(log, log, now, lo, older, id);
    if HasOpen(log, log, now, lo, older, id) {
      var i :| 0 <= i < |log| && log[i].postID == id && lo <= MinuteOf(log[i].at) <= older
          && Open(log, MinuteOf(log[i].at), now);
      OldIsUndying(log, now, i);
    }
  }

  /** Reading more than twelve buckets adds exactly the heat of older minutes that never expire, so sixty
      buckets give what twelve give iff the post has no such heat in the last hour. */
  lemma SixtyIsTwelve(log: seq<Increment>, now: nat, window: nat, id: int)
    requires window >= 12
    ensures var lo, hi := MinuteOf(now) - window + 1, MinuteOf(now) - 12;
            && Summed(Buckets(log), now, window, id) ==
                Summed(Buckets(log), now, 12, id) + OpenHeat(log, log, now, lo, hi, id)
            && (Summed(Buckets(log), now, window, id) == Summed(Buckets(log), now, 12, id) <==>
                !HasOpen(log, log, now, lo, hi, id))
            && (HasOpen(log, log, now, lo, hi, id) ==> Undying(log, lo, hi))
  {
    var lo, hi := MinuteOf(now) - window + 1, MinuteOf(now) - 12;
    BoardScore(log, now, window, id);
    BoardScore(log, now, 12, id);
    SplitAt(log, log, now, lo, hi, MinuteOf(now), id);
    OpenHeatPositive(log, log, now, lo, hi, id);
    if HasOpen(log, log, now, lo, hi, id) {
      var i :| 0 <= i < |log| && log[i].postID == id && lo <= MinuteOf(log[i].at) <= hi
          && Open(log, MinuteOf(log[i].at), now);
      OldIsUndying(log, now, i);
    }
  }

  // ---------- The ranking ----------

  /** Posts with an entry in some bucket read. */
  function Present(buckets: map<nat, Bucket>, now: nat, window: nat): set<int> {
    if window == 0 then {}
    else
      var i := window - 1;
      Present(buckets, now, i) + if i <= MinuteOf(now) then Seen(buckets, MinuteOf(now) - i, now).Keys else {}
  }

  /** The i-th bucket read has an entry for the post. */
  predicate InBucket(buckets: map<nat, Bucket>, now: nat, i: nat, id: int) {
    i <= MinuteOf(now) && id in Seen(buckets, MinuteOf(now) - i, now)
  }

  lemma {:induction false} PresentIn(buckets: map<nat, Bucket>, now: nat, window: nat, id: int)
    ensures id in Present(buckets, now, window) <==>
            exists i: nat :: i < window && InBucket(buckets, now, i, id)
  {
    if window > 0 {
      PresentIn(buckets, now, window - 1, id);
      assert id in Present(buckets, now, window) <==>
             id in Present(buckets, now, window - 1) || InBucket(buckets, now, window - 1, id);
    }
  }

  /** A post is on the board exactly when some increment of it in the minutes read counts. */
  lemma OnBoard(log: seq<Increment>, now: nat, window: nat, id: int)
    ensures id in Totals(Buckets(log), now, window) <==>
            HasOpen(log, log, now, MinuteOf(now) - window + 1, MinuteOf(now), id)
  {
    var bs, lo := Buckets(log), MinuteOf(now) - window + 1;
    PresentIn(bs, now, window, id);
    if j: nat :| j < window && InBucket(bs, now, j, id) {
      PresentIsCounted(log, now, j, id);
    }
    if i :| 0 <= i < |log| && log[i].postID == id && lo <= MinuteOf(log[i].at) <= MinuteOf(now)
            && Open(log, MinuteOf(log[i].at), now) {
      CountedIsPresent(log, now, i);
      assert MinuteOf(now) - MinuteOf(log[i].at) < window;
    }
  }

  lemma PresentIsCounted(log: seq<Increment>, now: nat, j: nat, id: int)
    requires InBucket(Buckets(log), now, j, id)
    ensures HasOpen(log, log, now, MinuteOf(now) - j, MinuteOf(now) - j, id)
  {
    BucketsExact(log);
    var m: nat := MinuteOf(now) - j;
    assert Gave(log, m, id);
    var i :| 0 <= i < |log| && MinuteOf(log[i].at) == m && log[i].postID == id;
    assert Open(log, MinuteOf(log[i].at), now);
  }

  lemma CountedIsPresent(log: seq<Increment>, now: nat, i: nat)
    requires i < |log| && Counted(log, i, now) && MinuteOf(log[i].at) <= MinuteOf(now)
    ensures InBucket(Buckets(log), now, MinuteOf(now) - MinuteOf(log[i].at), log[i].postID)
  {
    BucketsExact(log);
    var m := MinuteOf(log[i].at);
    assert Gave(log, m, log[i].postID) && Touched(log, m);
  }

  /** The sixty-bucket board ListHot asks for is the twelve-bucket board iff every minute of the last hour
      that is twelve or more minutes ago had an EXPIRE that succeeded. */
  lemma SixtyIsTwelveIff(log: seq<Increment>, now: nat)
    ensures Totals(Buckets(log), now, 60) == Totals(Buckets(log), now, 12) <==>
            !Undying(log, MinuteOf(now) - 59, MinuteOf(now) - 12)
  {
    var a, b := Totals(Buckets(log), now, 60), Totals(Buckets(log), now, 12);
    var lo, hi := MinuteOf(now) - 59, MinuteOf(now) - 12;
    if i :| 0 <= i < |log| && lo <= MinuteOf(log[i].at) <= hi && LastExpire(log, MinuteOf(log[i].at)) == None {
      var id := log[i].postID;
      assert HasOpen(log, log, now, lo, hi, id) && HasOpen(log, log, now, lo, MinuteOf(now), id);
      OnBoard(log, now, 60, id);
      SixtyIsTwelve(log, now, 60, id);
      assert id in a && (id in b ==> a[id] != b[id]);
    } else {
      forall id ensures id in a <==> id in b {
        OnBoard(log, now, 60, id);
        OnBoard(log, now, 12, id);
        SixtyIsTwelve(log, now, 60, id);
        OpenOnlyLate(log, now, lo, hi, id);
      }
      forall id | id in a ensures a[id] == b[id] {
        SixtyIsTwelve(log, now, 60, id);
      }
    }
  }

  lemma OpenOnlyLate(log: seq<Increment>, now: nat, lo: int, hi: int, id: int)
    requires lo <= hi < MinuteOf(now) && !HasOpen(log, log, now, lo, hi, id)
    ensures HasOpen(log, log, now, lo, MinuteOf(now), id) <==> HasOpen(log, log, now, hi + 1, MinuteOf(now), id)
  {
    SplitAt(log, log, now, lo, hi, MinuteOf(now), id);
    OpenHeatPositive(log, log, now, lo, hi, id);
    OpenHeatPositive(log, log, now, lo, MinuteOf(now), id);
    OpenHeatPositive(log, log, now, hi + 1, MinuteOf(now), id);
  }

  /** Scores and post ids, to be ranked as the lists rank times and ids: by score, then id, descending. */
  function Entries(acc: map<int, int>): set<PageCursor> {
    set id | id in acc :: PageCursor(acc[id], id)
  }

  /** The unique ranking of a score table, cut to the limit. */
  function TopN(acc: map<int, int>, limit: nat): seq<PageCursor> {
    Take(Desc(Entries(acc)), limit)
  }

  function Totals(buckets: map<nat, Bucket>, now: nat, window: nat): map<int, int> {
    map id | id in Present(buckets, now, window) :: Summed(buckets, now, window, id)
  }

  function Insert(x: PageCursor, s: seq<PageCursor>): seq<PageCursor> {
    if s == [] || Older(s[0], x) then [x] + s else [s[0]] + Insert(x, s[1..])
  }

  lemma {:induction false} InsertKeepsOrder(x: PageCursor, s: seq<PageCursor>)
    requires Descending(s) && x !in s
    ensures Descending(Insert(x, s))
    ensures forall y :: y in Insert(x, s) <==> y == x || y in s
  {
    if s != [] && !Older(s[0], x) {
      InsertKeepsOrder(x, s[1..]);
      var rest := Insert(x, s[1..]);
      forall j | 0 <= j < |rest| ensures Older(rest[j], s[0]) {
        assert rest[j] in rest;
        if rest[j] != x {
          var i :| 0 <= i < |s[1..]| && s[1..][i] == rest[j];
          assert s[i + 1] == rest[j];
        }
      }
      forall y ensures y in Insert(x, s) <==> y == x || y in s {
        assert y in s <==> y == s[0] || y in s[1..];
      }
    } else if s != [] {
      forall j | 0 <= j < |s| ensures Older(s[j], x) {
        assert j > 0 ==> Older(s[j], s[0]);
      }
    }
  }

  /** acc[id] += heat */
  function WithHeat(acc: map<int, int>, id: int, heat: int): (r: map<int, int>)
    ensures r.Keys == acc.Keys + {id}
    ensures forall q :: Score(r, q) == Score(acc, q) + if q == id then heat else 0
  {
    acc[id := Score(acc, id) + heat]
  }

  /** The member has been read while `left` is still to come. */
  predicate Read(members: map<int, int>, left: set<(int, int)>, id: int) {
    id in members && (id, members[id]) !in left
  }

  function ReadHeat(members: map<int, int>, left: set<(int, int)>, id: int): int {
    if Read(members, left, id) then members[id] else 0
  }

  lemma ReadOne(members: map<int, int>, left: set<(int, int)>, m: (int, int))
    requires left <= members.Items && m in left
    ensures forall id :: Read(members, left - {m}, id) <==> Read(members, left, id) || id == m.0
    ensures forall id :: ReadHeat(members, left - {m}, id) == ReadHeat(members, left, id) + if id == m.0 then m.1 else 0
  {
  }

  lemma EntriesOf(acc: map<int, int>, y: PageCursor)
    ensures y in Entries(acc) <==> y.id in acc && y.time == acc[y.id]
  {
  }

  /** The buckets whose reads succeed; HotTopN goes on without the others. */
  function Answering(buckets: map<nat, Bucket>, failed: set<nat>): map<nat, Bucket> {
    buckets - failed
  }

  /** A bucket that cannot be read loses its own heat and nobody else's: the scores with it and the scores of it
      alone add up. */
  lemma {:induction false} FailedSplit(buckets: map<nat, Bucket>, failed: set<nat>, now: nat, window: nat, id: int)
    ensures Summed(buckets, now, window, id) ==
            Summed(Answering(buckets, failed), now, window, id)
              + Summed(Answering(buckets, buckets.Keys - failed), now, window, id)
  {
    if window > 0 { FailedSplit(buckets, failed, now, window - 1, id); }
  }

  class Cache {
    var buckets: map<nat, Bucket>

    constructor ()
      ensures buckets == map[]
    {
      buckets := map[];
    }

    /** ZIncrBy on the current minute's bucket; `executed` says whether the increment took place. */
    method ZIncrBy(e: Increment, executed: bool) returns (ok: bool)
      modifies this
      ensures buckets == if executed then Add(old(buckets), e) else old(buckets)
      ensures executed ==>
                var minute := e.at / 60_000;
                && minute in buckets && e.postID in buckets[minute].scores
                && (e.expireOk ==> buckets[minute].dies == Some(e.at + 660_000))
                && forall m :: m != minute && m in old(buckets) ==> m in buckets && buckets[m] == old(buckets)[m]
      ensures ok <==> executed && e.expireOk
    {
      if !executed {
        return false;
      }
      var minute := MinuteOf(e.at);
      var scores, dies := Seen(buckets, minute, e.at), SeenExpiry(buckets, minute, e.at);
      scores := scores[e.postID := Score(scores, e.postID) + e.heat];
      if e.expireOk {
        dies := Some(e.at + KEEP);
      }
      buckets := buckets[minute := Bucket(scores, dies)];
      ok := e.expireOk;
    }

    /** acc[id] += score for every member of one bucket, in whatever order they come. */
    method AddBucket(acc: map<int, int>, members: map<int, int>) returns (sum: map<int, int>)
      ensures sum.Keys == acc.Keys + members.Keys
      ensures forall id :: Score(sum, id) == Score(acc, id) + Score(members, id)
    {
      sum := acc;
      var left := members.Items;
      while left != {}
        invariant left <= members.Items
        invariant forall id :: id in sum <==> id in acc || Read(members, left, id)
        invariant forall id :: Score(sum, id) == Score(acc, id) + ReadHeat(members, left, id)
        decreases |left|
      {
        var m :| m in left;
        ReadOne(members, left, m);
        sum := WithHeat(sum, m.0, m.1);
        left := left - {m};
      }
      assert forall id :: id in sum.Keys <==> id in acc.Keys + members.Keys;
    }

    /** HotTopN: sum the buckets that can be read, list the totals in map order, sort, cut. */
    method HotTopN(now: nat, window: nat, limit: nat, failed: set<nat>) returns (items: seq<PageCursor>)
      ensures items == TopN(Totals(Answering(buckets, failed), now, window), limit)
      ensures failed == {} ==> items == TopN(Totals(buckets, now, window), limit)
    {
      ghost var readable := Answering(buckets, failed);
      assert failed == {} ==> readable == buckets;
      var acc: map<int, int> := map[];
      var i := 0;
      while i < window
        invariant 0 <= i <= window
        invariant acc.Keys == Present(readable, now, i)
        invariant forall id :: Score(acc, id) == Summed(readable, now, i, id)
      {
        if i <= MinuteOf(now) && MinuteOf(now) - i !in failed {
          acc := AddBucket(acc, Seen(buckets, MinuteOf(now) - i, now));
        }
        i := i + 1;
      }
      assert acc == Totals(readable, now, window) by {
        assert forall id :: id in acc ==> acc[id] == Score(acc, id);
      }
      items := Ranked(acc);
      if |items| > limit {
        items := items[..limit];
      }
    }

    /** The items of the map, sorted; the order in which the map yields them does not matter. */
    method Ranked(acc: map<int, int>) returns (items: seq<PageCursor>)
      ensures items == Desc(Entries(acc))
    {
      items := [];
      var left := acc.Items;
      while left != {}
        invariant left <= acc.Items
        invariant Descending(items)
        invariant forall y :: y in items <==> y.id in acc && y.time == acc[y.id] && (y.id, y.time) !in left
        decreases |left|
      {
        var e :| e in left;
        var x := PageCursor(e.1, e.0);
        InsertKeepsOrder(x, items);
        items := Insert(x, items);
        left := left - {e};
      }
      forall y ensures y in items <==> y in Entries(acc) {
        EntriesOf(acc, y);
      }
      DescUnique(items, Entries(acc));
    }
  }
}
