/** The two rate limiters (internal/middleware/ratelimit.go): compact, expiring Redis state against a
    plain count over the whole log of requests.  Times are integer milliseconds. */
module RateLimit {
  import opened Model

  /** How one request's Redis commands went: answered, executed without the answer arriving, or not
      executed.  The middleware lets the request through in the last two cases. */
  datatype Link = Answered | Unanswered | Down

  datatype Request = Request(at: int, member: int, link: Link)

  /** The clock does not go back. */
  ghost predicate Timed(log: seq<Request>) {
    forall i, j :: 0 <= i < j < |log| ==> log[i].at <= log[j].at
  }

  predicate Executed(r: Request) {
    !r.link.Down?
  }

  /** Requests executed by Redis in the closed interval [lo, hi]. */
  function Recorded(log: seq<Request>, lo: int, hi: int): set<nat> {
    set i | 0 <= i < |log| && Executed(log[i]) && lo <= log[i].at <= hi
  }

  lemma SubsetSize<T>(a: set<T>, b: set<T>)
    requires a <= b
    ensures |a| <= |b|
  {
    assert b == a + (b - a);
  }

  // ---------- Per user: a sliding window kept in a sorted set ----------

  /** The key's members with their scores, and when the key expires. */
  datatype ZSet = ZSet(scores: map<int, int>, dies: int)

  const SLACK := 60_000   // the key outlives the window by a minute

  /** A read at time `at` finds an expired key gone. */
  function Alive(z: ZSet, at: int): map<int, int> {
    if at < z.dies then z.scores else map[]
  }

  function Prune(scores: map<int, int>, from: int): map<int, int> {
    map m | m in scores && scores[m] >= from :: scores[m]
  }

  /** One transaction: remove scores below at - window, add this member, set the expiry. */
  function Pipeline(z: ZSet, r: Request, window: int): ZSet {
    ZSet(Prune(Alive(z, r.at), r.at - window)[r.member := r.at], r.at + window + SLACK)
  }

  function Slide(z: ZSet, r: Request, window: int): ZSet {
    if Executed(r) then Pipeline(z, r, window) else z
  }

  function WindowAfter(log: seq<Request>, window: int): ZSet {
    if log == [] then ZSet(map[], 0)
    else Slide(WindowAfter(log[..|log| - 1], window), log[|log| - 1], window)
  }

  /** Request i is rejected when its answer arrives and the set has more than `limit` members. */
  predicate SlidingAdmits(log: seq<Request>, i: nat, limit: int, window: int)
    requires i < |log|
  {
    !log[i].link.Answered? || |WindowAfter(log[..i + 1], window).scores| <= limit
  }

  ghost predicate DistinctMembers(log: seq<Request>) {
    forall i, j :: 0 <= i < j < |log| ==> log[i].member != log[j].member
  }

  /** T is the time of the last execution; the set holds what was recorded since T - window. */
  ghost predicate Holds(z: ZSet, log: seq<Request>, window: int) {
    var T := z.dies - window - SLACK;
    && (forall i :: 0 <= i < |log| && Executed(log[i]) ==> log[i].at <= T)
    && (forall i :: 0 <= i < |log| && Executed(log[i]) && log[i].at >= T - window ==>
          log[i].member in z.scores && z.scores[log[i].member] == log[i].at)
    && (forall m :: m in z.scores ==>
          exists i :: 0 <= i < |log| && Executed(log[i]) && log[i].member == m
              && log[i].at == z.scores[m] >= T - window)
    && ((exists i :: 0 <= i < |log| && Executed(log[i])) ==> T <= log[|log| - 1].at)
  }

  lemma SlideHolds(z: ZSet, log: seq<Request>, r: Request, window: int)
    requires window >= 0 && Timed(log + [r]) && DistinctMembers(log + [r]) && Holds(z, log, window) && Executed(r)
    ensures Holds(Pipeline(z, r, window), log + [r], window)
  {
    var z', log' := Pipeline(z, r, window), log + [r];
    assert log'[|log|] == r;
    assert forall i :: 0 <= i < |log| ==> log'[i] == log[i];
    forall i | 0 <= i < |log'| && Executed(log'[i]) ensures log'[i].at <= r.at {
      if i < |log| { assert log'[i].at <= log'[|log|].at; }
    }
    forall i | 0 <= i < |log'| && Executed(log'[i]) && log'[i].at >= r.at - window
      ensures log'[i].member in z'.scores && z'.scores[log'[i].member] == log'[i].at
    {
      if i < |log| {
        assert log'[i].member != log'[|log|].member;
        assert log[i].at <= r.at;
        HeldBefore(z, log, r, window, i);
      }
    }
    forall m | m in z'.scores
      ensures exists i :: 0 <= i < |log'| && Executed(log'[i]) && log'[i].member == m
                          && log'[i].at == z'.scores[m] >= r.at - window
    {
      if m == r.member {
        assert log'[|log|].member == m;
      } else {
        assert m in z.scores;
        var i :| 0 <= i < |log| && Executed(log[i]) && log[i].member == m && log[i].at == z.scores[m];
        assert log'[i].member == m;
      }
    }
  }

  /** A request still inside the window is still in the set: neither pruned nor lost to expiry. */
  lemma HeldBefore(z: ZSet, log: seq<Request>, r: Request, window: int, i: nat)
    requires window >= 0 && Holds(z, log, window) && i < |log| && Executed(log[i])
    requires r.at - window <= log[i].at && log[|log| - 1].at <= r.at
    ensures log[i].member in Prune(Alive(z, r.at), r.at - window)
    ensures Prune(Alive(z, r.at), r.at - window)[log[i].member] == log[i].at
  {
  }

  lemma {:induction false} WindowHolds(log: seq<Request>, window: int)
    requires window >= 0 && Timed(log) && DistinctMembers(log)
    ensures Holds(WindowAfter(log, window), log, window)
  {
    if log != [] {
      var front, r := log[..|log| - 1], log[|log| - 1];
      assert forall i :: 0 <= i < |front| ==> front[i] == log[i];
      WindowHolds(front, window);
      var z := WindowAfter(front, window);
      if Executed(r) {
        assert front + [r] == log;
        SlideHolds(z, front, r, window);
      } else {
        NotExecuted(z, front, log, window);
      }
    }
  }

  lemma NotExecuted(z: ZSet, front: seq<Request>, log: seq<Request>, window: int)
    requires |log| == |front| + 1 && log[..|front|] == front && !Executed(log[|front|])
    requires Timed(log) && Holds(z, front, window)
    ensures Holds(z, log, window)
  {
  }

  function Members(log: seq<Request>, ids: set<nat>): set<int>
    requires forall i :: i in ids ==> i < |log|
  {
    set i | i in ids :: log[i].member
  }

  lemma {:induction false} MembersSize(log: seq<Request>, ids: set<nat>)
    requires DistinctMembers(log) && forall i :: i in ids ==> i < |log|
    ensures |Members(log, ids)| == |ids|
  {
    if ids != {} {
      var i :| i in ids;
      MembersSize(log, ids - {i});
      forall j | j in ids - {i} ensures log[j].member != log[i].member {
        assert if i < j then log[i].member != log[j].member else log[j].member != log[i].member;
      }
      assert Members(log, ids) == Members(log, ids - {i}) + {log[i].member};
    }
  }

  lemma HeldMembers(z: ZSet, log: seq<Request>, window: int, now: int)
    requires Holds(z, log, window) && z.dies == now + window + SLACK
    ensures z.scores.Keys == Members(log, Recorded(log, now - window, now))
  {
    var ids := Recorded(log, now - window, now);
    forall m | m in z.scores ensures m in Members(log, ids) {
      var i :| 0 <= i < |log| && Executed(log[i]) && log[i].member == m && log[i].at == z.scores[m] >= now - window;
      assert i in ids;
    }
  }

  lemma LastDies(log: seq<Request>, window: int)
    requires log != [] && Executed(log[|log| - 1])
    ensures WindowAfter(log, window).dies == log[|log| - 1].at + window + SLACK
  {
  }

  lemma CountHeld(z: ZSet, log: seq<Request>, window: int, now: int)
    requires Holds(z, log, window) && z.dies == now + window + SLACK && DistinctMembers(log)
    ensures |z.scores| == |Recorded(log, now - window, now)|
  {
    HeldMembers(z, log, window, now);
    MembersSize(log, Recorded(log, now - window, now));
    assert |z.scores| == |z.scores.Keys|;
  }

  /** The compact set is the simple count: after an executed request its size is the number of requests
      recorded in the closed window ending now, the rejected ones included. */
  lemma WindowCounts(log: seq<Request>, window: int)
    requires window >= 0 && Timed(log) && DistinctMembers(log) && log != [] && Executed(log[|log| - 1])
    ensures var now := log[|log| - 1].at;
            |WindowAfter(log, window).scores| == |Recorded(log, now - window, now)|
  {
    var now := log[|log| - 1].at;
    var z := WindowAfter(log, window);
    assert Holds(z, log, window) by { WindowHolds(log, window); }
    assert z.dies == now + window + SLACK by { LastDies(log, window); }
    CountHeld(z, log, window, now);
  }

  /** Expiry is never observable: every transaction leaves what it would if keys never expired. */
  lemma ExpiryInvisible(log: seq<Request>, r: Request, window: int)
    requires window >= 0 && Timed(log + [r]) && DistinctMembers(log + [r])
    ensures var z := WindowAfter(log, window);
            Pipeline(z, r, window) == ZSet(Prune(z.scores, r.at - window)[r.member := r.at], r.at + window + SLACK)
  {
    assert forall i :: 0 <= i < |log| ==> (log + [r])[i] == log[i];
    WindowHolds(log, window);
    var z := WindowAfter(log, window);
    if r.at >= z.dies {
      forall m | m in z.scores ensures z.scores[m] < r.at - window {
        var i :| 0 <= i < |log| && Executed(log[i]) && log[i].member == m && log[i].at == z.scores[m];
      }
      assert Prune(z.scores, r.at - window) == map[];
    }
  }

  /** What a transaction leaves of a key: nothing of an expired one, else the members not older than the window. */
  lemma TransactionLeaves(z: ZSet, r: Request, window: int, m: int)
    ensures var z' := Pipeline(z, r, window);
            && (m in z'.scores <==> m == r.member || (r.at < z.dies && m in z.scores && z.scores[m] >= r.at - window))
            && (m in z'.scores ==> z'.scores[m] == if m == r.member then r.at else z.scores[m])
            && z'.dies == r.at + window + 60_000
  {
  }

  lemma TimedPrefix(log: seq<Request>, n: nat)
    requires n <= |log|
    ensures Timed(log) ==> Timed(log[..n])
    ensures DistinctMembers(log) ==> DistinctMembers(log[..n])
  {
  }

  /** Admission, exactly: an answered request passes iff at most `limit` requests, itself and rejected
      ones included, were recorded in the window that ends with it. */
  lemma SlidingAdmission(log: seq<Request>, i: nat, limit: int, window: int)
    requires window >= 0 && Timed(log) && DistinctMembers(log) && i < |log| && log[i].link.Answered?
    ensures SlidingAdmits(log, i, limit, window) <==>
            |Recorded(log[..i + 1], log[i].at - window, log[i].at)| <= limit
  {
    TimedPrefix(log, i + 1);
    WindowCounts(log[..i + 1], window);
  }

  function SlidingAdmitted(log: seq<Request>, lo: int, limit: int, window: int): set<nat> {
    set i | 0 <= i < |log| && log[i].link.Answered? && lo <= log[i].at <= lo + window
        && SlidingAdmits(log, i, limit, window)
  }

  /** The largest index in a set. */
  lemma {:induction false} Largest(s: set<nat>, n: nat) returns (m: nat)
    requires s != {} && forall i :: i in s ==> i < n
    ensures m in s && forall i :: i in s ==> i <= m
  {
    var x :| x in s;
    if n - 1 in s {
      m := n - 1;
    } else {
      m := Largest(s, n - 1);
    }
  }

  /** No interval of window length admits more than `limit` answered requests. */
  lemma SlidingBound(log: seq<Request>, lo: int, limit: nat, window: int)
    requires window >= 0 && Timed(log) && DistinctMembers(log)
    ensures |SlidingAdmitted(log, lo, limit, window)| <= limit
  {
    var passed := SlidingAdmitted(log, lo, limit, window);
    if passed != {} {
      var last := Largest(passed, |log|);
      SlidingAdmission(log, last, limit, window);
      forall i | i in passed ensures i in Recorded(log[..last + 1], log[last].at - window, log[last].at) {
        assert i < last ==> log[i].at <= log[last].at;
      }
      SubsetSize(passed, Recorded(log[..last + 1], log[last].at - window, log[last].at));
    }
  }

  const THREE: seq<Request> := [Request(0, 1, Answered), Request(900, 2, Answered), Request(1500, 3, Answered)]

  lemma ThirdIsRejected()
    ensures !SlidingAdmits(THREE, 2, 1, 1000)
  {
    SlidingAdmission(THREE, 2, 1, 1000);
    assert Recorded(THREE[..3], 500, 1500) == {1, 2};
  }

  /** The comment in the source says a rejected request is not written; it is.  With limit 1 and a window
      of one second, requests at 0, 0.9 and 1.5 s: the second is rejected, and because it was written the
      third is too, though no request was admitted in the second before it. */
  lemma RejectedRequestsCount()
    ensures SlidingAdmits(THREE, 0, 1, 1000) && !SlidingAdmits(THREE, 1, 1, 1000) && !SlidingAdmits(THREE, 2, 1, 1000)
  {
    ThirdIsRejected();
    SlidingAdmission(THREE, 0, 1, 1000);
    assert Recorded(THREE[..1], -1000, 0) == {0};
    SlidingAdmission(THREE, 1, 1, 1000);
    assert Recorded(THREE[..2], -100, 900) == {0, 1};
  }

  // ---------- The limiter the comment describes ----------

  /** The verdict on an executed request, as SlidingAdmission counts it. */
  predicate Allows(log: seq<Request>, i: nat, limit: int, window: int)
    requires i < |log|
  {
    |Recorded(log[..i + 1], log[i].at - window, log[i].at)| <= limit
  }

  function Since(log: seq<Request>, ids: set<nat>, lo: int): set<nat>
    requires forall i :: i in ids ==> i < |log|
  {
    set i | i in ids && log[i].at >= lo
  }

  /** What is recorded of the first n requests if a request over the limit is not. */
  function Kept(log: seq<Request>, n: nat, limit: int, window: int): (ids: set<nat>)
    requires n <= |log|
    ensures forall i :: i in ids ==> i < n
  {
    if n == 0 then {}
    else
      var kept := Kept(log, n - 1, limit, window);
      var r := log[n - 1];
      if Executed(r) && |Since(log, kept, r.at - window)| < limit then kept + {n - 1} else kept
  }

  /** Its verdict: fewer than `limit` requests recorded in the window before this one. */
  predicate KeptAllows(log: seq<Request>, i: nat, limit: int, window: int)
    requires i < |log|
  {
    |Since(log, Kept(log, i, limit, window), log[i].at - window)| < limit
  }

  /** The requests among the first n that the code allows. */
  function Passed(log: seq<Request>, n: nat, limit: int, window: int): set<nat>
    requires n <= |log|
  {
    set i | 0 <= i < n && Executed(log[i]) && Allows(log, i, limit, window)
  }

  ghost predicate Alike(log: seq<Request>, n: nat, limit: int, window: int)
    requires n <= |log|
  {
    forall i :: 0 <= i < n && Executed(log[i]) ==>
        (Allows(log, i, limit, window) <==> KeptAllows(log, i, limit, window))
  }

  lemma KeptStep(log: seq<Request>, i: nat, limit: int, window: int) returns (new_: set<nat>)
    requires i < |log|
    ensures Kept(log, i + 1, limit, window) == Kept(log, i, limit, window) + new_
    ensures new_ == if Executed(log[i]) && KeptAllows(log, i, limit, window) then {i} else {}
  {
    new_ := if Executed(log[i]) && KeptAllows(log, i, limit, window) then {i} else {};
  }

  lemma PassedStep(log: seq<Request>, i: nat, limit: int, window: int) returns (new_: set<nat>)
    requires i < |log|
    ensures Passed(log, i + 1, limit, window) == Passed(log, i, limit, window) + new_
    ensures new_ == if Executed(log[i]) && Allows(log, i, limit, window) then {i} else {}
  {
    new_ := if Executed(log[i]) && Allows(log, i, limit, window) then {i} else {};
  }

  lemma {:induction false} KeptIsPassed(log: seq<Request>, n: nat, limit: int, window: int)
    requires n <= |log| && Alike(log, n, limit, window)
    ensures Kept(log, n, limit, window) == Passed(log, n, limit, window)
  {
    if n > 0 {
      var i := n - 1;
      AlikeStep(log, i, limit, window);
      var kept := KeptStep(log, i, limit, window);
      var passed := PassedStep(log, i, limit, window);
      assert kept == passed;
      KeptIsPassed(log, i, limit, window);
    }
  }

  lemma AllowedLeavesRoom(log: seq<Request>, i: nat, limit: int, window: int)
    requires window >= 0 && Timed(log) && i < |log| && Executed(log[i]) && Allows(log, i, limit, window)
    ensures |Since(log, Passed(log, i, limit, window), log[i].at - window)| < limit
  {
    var before := Since(log, Passed(log, i, limit, window), log[i].at - window);
    var all := Recorded(log[..i + 1], log[i].at - window, log[i].at);
    forall j | j in before + {i} ensures j in all {
      assert log[..i + 1][j] == log[j] && (j < i ==> log[j].at <= log[i].at);
    }
    SubsetSize(before + {i}, all);
    assert |before + {i}| == |before| + 1;
  }

  /** The code rejects the request although it has allowed fewer than `limit` in its window. */
  predicate Swayed(log: seq<Request>, i: nat, limit: int, window: int)
    requires i < |log|
  {
    && Executed(log[i]) && !Allows(log, i, limit, window)
    && |Since(log, Passed(log, i, limit, window), log[i].at - window)| < limit
  }

  lemma FirstDifference(log: seq<Request>, i: nat, limit: int, window: int)
    requires window >= 0 && Timed(log) && i < |log| && Alike(log, i, limit, window) && Executed(log[i])
    ensures Swayed(log, i, limit, window) <==> !(Allows(log, i, limit, window) <==> KeptAllows(log, i, limit, window))
  {
    KeptIsPassed(log, i, limit, window);
    if Allows(log, i, limit, window) { AllowedLeavesRoom(log, i, limit, window); }
  }

  predicate NoneSwayed(log: seq<Request>, n: nat, limit: int, window: int)
    requires n <= |log|
  {
    forall i :: 0 <= i < n ==> !Swayed(log, i, limit, window)
  }

  lemma SwayedStep(log: seq<Request>, i: nat, limit: int, window: int)
    requires i < |log|
    ensures NoneSwayed(log, i + 1, limit, window) <==>
            NoneSwayed(log, i, limit, window) && !Swayed(log, i, limit, window)
  {
  }

  /** Both limiters give every request the same verdict iff recording the rejected ones never makes the
      difference: iff each request the code rejects has at least `limit` requests it allowed in its window. */
  lemma {:induction false} RecordingRejectionsMatters(log: seq<Request>, n: nat, limit: int, window: int)
    requires window >= 0 && Timed(log) && n <= |log|
    ensures Alike(log, n, limit, window) <==> NoneSwayed(log, n, limit, window)
  {
    if n > 0 {
      var i := n - 1;
      AlikeStep(log, i, limit, window);
      SwayedStep(log, i, limit, window);
      RecordingRejectionsMatters(log, i, limit, window);
      OneMore(log, i, limit, window);
    }
  }

  lemma OneMore(log: seq<Request>, i: nat, limit: int, window: int)
    requires window >= 0 && Timed(log) && i < |log|
    ensures Alike(log, i, limit, window) ==>
              (!Swayed(log, i, limit, window) <==>
                 (Executed(log[i]) ==> (Allows(log, i, limit, window) <==> KeptAllows(log, i, limit, window))))
  {
    if Alike(log, i, limit, window) && Executed(log[i]) { FirstDifference(log, i, limit, window); }
  }

  lemma AlikeStep(log: seq<Request>, i: nat, limit: int, window: int)
    requires i < |log|
    ensures Alike(log, i + 1, limit, window) <==>
            Alike(log, i, limit, window)
            && (Executed(log[i]) ==> (Allows(log, i, limit, window) <==> KeptAllows(log, i, limit, window)))
  {
  }

  // ---------- Per IP: a counter for each clock minute ----------

  const KEEP := 90_000

  datatype Hit = Hit(at: nat, link: Link, expireOk: bool)

  /** A counter and, once EXPIRE has succeeded, when it disappears. */
  datatype Counter = Counter(n: nat, forever: bool, dies: int)

  function CounterAt(cs: map<nat, Counter>, minute: nat, at: nat): Counter {
    if minute in cs && (cs[minute].forever || at < cs[minute].dies) then cs[minute] else Counter(0, true, 0)
  }

  /** INCR, and EXPIRE when the count is one and its answer arrived. */
  function Bump(cs: map<nat, Counter>, h: Hit): map<nat, Counter> {
    if h.link.Down? then cs
    else
      var c := CounterAt(cs, MinuteOf(h.at), h.at);
      var n := c.n + 1;
      cs[MinuteOf(h.at) :=
        if n == 1 && h.link.Answered? && h.expireOk then Counter(n, false, h.at + KEEP) else c.(n := n)]
  }

  function CountersAfter(log: seq<Hit>): map<nat, Counter> {
    if log == [] then map[] else Bump(CountersAfter(log[..|log| - 1]), log[|log| - 1])
  }

  predicate FixedAdmits(log: seq<Hit>, i: nat, limit: int)
    requires i < |log|
  {
    !log[i].link.Answered? || CountersAfter(log[..i + 1])[MinuteOf(log[i].at)].n <= limit
  }

  function HitsIn(log: seq<Hit>, minute: nat): set<nat> {
    set i | 0 <= i < |log| && !log[i].link.Down? && MinuteOf(log[i].at) == minute
  }

  /** A counter numbers the hits of its minute and cannot expire before that minute is over. */
  ghost predicate Counting(cs: map<nat, Counter>, log: seq<Hit>) {
    && (forall m :: m in cs ==> cs[m].n == |HitsIn(log, m)| && (cs[m].forever || cs[m].dies >= (m + 1) * MINUTE))
    && (forall m: nat :: m !in cs ==> HitsIn(log, m) == {})
  }

  lemma HitsAppend(log: seq<Hit>, h: Hit, m: nat)
    ensures HitsIn(log + [h], m) == HitsIn(log, m) + (if m == MinuteOf(h.at) && !h.link.Down? then {|log|} else {})
    ensures |log| !in HitsIn(log, m)
  {
  }

  lemma BumpCounts(cs: map<nat, Counter>, log: seq<Hit>, h: Hit)
    requires Counting(cs, log)
    ensures Counting(Bump(cs, h), log + [h])
  {
    var cs', minute := Bump(cs, h), MinuteOf(h.at);
    assert minute * MINUTE <= h.at < (minute + 1) * MINUTE;
    assert CounterAt(cs, minute, h.at).n == |HitsIn(log, minute)|;
    forall m | m in cs'
      ensures cs'[m].n == |HitsIn(log + [h], m)| && (cs'[m].forever || cs'[m].dies >= (m + 1) * MINUTE)
    {
      HitsAppend(log, h, m);
    }
    forall m: nat | m !in cs' ensures HitsIn(log + [h], m) == {} {
      HitsAppend(log, h, m);
    }
  }

  lemma {:induction false} CountersCount(log: seq<Hit>)
    ensures Counting(CountersAfter(log), log)
  {
    if log != [] {
      CountersCount(log[..|log| - 1]);
      BumpCounts(CountersAfter(log[..|log| - 1]), log[..|log| - 1], log[|log| - 1]);
      assert log[..|log| - 1] + [log[|log| - 1]] == log;
    }
  }

  /** The stored counter is the number of hits of this IP in the current clock minute. */
  lemma FixedAdmission(log: seq<Hit>, i: nat, limit: int)
    requires i < |log| && log[i].link.Answered?
    ensures FixedAdmits(log, i, limit) <==> |HitsIn(log[..i + 1], MinuteOf(log[i].at))| <= limit
  {
    CountersCount(log[..i + 1]);
    assert i in HitsIn(log[..i + 1], MinuteOf(log[i].at));
  }

  function FixedAdmitted(log: seq<Hit>, minute: nat, limit: int): set<nat> {
    set i | 0 <= i < |log| && log[i].link.Answered? && MinuteOf(log[i].at) == minute && FixedAdmits(log, i, limit)
  }

  /** At most `limit` answered requests pass in one clock minute. */
  lemma MinuteBound(log: seq<Hit>, minute: nat, limit: nat)
    ensures |FixedAdmitted(log, minute, limit)| <= limit
  {
    var passed := FixedAdmitted(log, minute, limit);
    if passed != {} {
      var last := Largest(passed, |log|);
      FixedAdmission(log, last, limit);
      assert forall i :: i in passed ==> i in HitsIn(log[..last + 1], minute);
      SubsetSize(passed, HitsIn(log[..last + 1], minute));
    }
  }

  function SpanAdmitted(log: seq<Hit>, lo: nat, limit: int): set<nat> {
    set i | 0 <= i < |log| && log[i].link.Answered? && lo <= log[i].at <= lo + 60_000 && FixedAdmits(log, i, limit)
  }

  /** And at most twice that in any sixty seconds, which touch two clock minutes at most. */
  lemma SpanBound(log: seq<Hit>, lo: nat, limit: nat)
    ensures |SpanAdmitted(log, lo, limit)| <= 2 * limit
  {
    var span := SpanAdmitted(log, lo, limit);
    var first, second := FixedAdmitted(log, MinuteOf(lo), limit), FixedAdmitted(log, MinuteOf(lo) + 1, limit);
    MinuteBound(log, MinuteOf(lo), limit);
    MinuteBound(log, MinuteOf(lo) + 1, limit);
    forall i | i in span ensures i in first + second {
      assert MinuteOf(lo) <= MinuteOf(log[i].at) <= MinuteOf(lo) + 1;
    }
    SubsetSize(span, first + second);
    assert |first + second| <= |first| + |second|;
  }
}
