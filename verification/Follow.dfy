/** Follow relations and the counters kept with them (internal/repository/follow_repo.go:32-69,
    internal/service/social_service.go:52-88). */
module Follow {
  import opened Model

  datatype Counts = Counts(following: int, followers: int)

  /** `follows` holds (follower, followee) rows.  `entries` are the counters inside cached user entries; the
      history variable `missed` holds the users whose counters changed since their entry was set without
      a Del of it succeeding. */
  datatype Social = Social(follows: set<(int, int)>, users: map<int, Counts>, entries: map<int, Counts>,
    missed: set<int>)

  function AddFollowing(users: map<int, Counts>, uid: int, d: int): map<int, Counts> {
    if uid in users then users[uid := users[uid].(following := users[uid].following + d)] else users
  }

  function AddFollower(users: map<int, Counts>, uid: int, d: int): map<int, Counts> {
    if uid in users then users[uid := users[uid].(followers := users[uid].followers + d)] else users
  }

  /** INSERT IGNORE, and only a new row moves the two counters. */
  function FollowTx(s: Social, a: int, b: int): Social {
    if (a, b) in s.follows then s
    else s.(follows := s.follows + {(a, b)}, users := AddFollower(AddFollowing(s.users, a, 1), b, 1))
  }

  function UnfollowTx(s: Social, a: int, b: int): Social {
    if (a, b) !in s.follows then s
    else s.(follows := s.follows - {(a, b)}, users := AddFollower(AddFollowing(s.users, a, -1), b, -1))
  }

  /** What afterSocial does: one Del of both users' entries. */
  function DropEntries(s: Social, a: int, b: int, changed: bool, del: bool): Social {
    if del then s.(entries := s.entries - {a, b}, missed := s.missed - {a, b})
    else if changed then s.(missed := s.missed + {a, b})
    else s
  }

  function FollowCall(s: Social, a: int, b: int, del: bool): Social {
    DropEntries(FollowTx(s, a, b), a, b, (a, b) !in s.follows, del)
  }

  function UnfollowCall(s: Social, a: int, b: int, del: bool): Social {
    DropEntries(UnfollowTx(s, a, b), a, b, (a, b) in s.follows, del)
  }

  /** A read through the cache that finds no entry and sets one. */
  function Fill(s: Social, u: int): Social {
    if u in s.entries || u !in s.users then s
    else s.(entries := s.entries[u := s.users[u]], missed := s.missed - {u})
  }

  datatype Op =
    | Register(uid: int)
    | Follow(uid: int, target: int, del: bool)
    | Unfollow(uid: int, target: int, del: bool)
    | Read(uid: int)
    | Expire(uid: int)

  /** What checkTarget answers. */
  function Permitted(s: Social, uid: int, target: int): Result<()> {
    if uid == target then Err(BadRequest(40030))
    else if target !in s.users then Err(NotFound)
    else Ok(())
  }

  /** One request by a registered user. */
  function Do(s: Social, op: Op): Social {
    match op
    case Register(u) => if u in s.users then s else s.(users := s.users[u := Counts(0, 0)])
    case Follow(u, t, del) => if u in s.users && Permitted(s, u, t).Ok? then FollowCall(s, u, t, del) else s
    case Unfollow(u, t, del) => if u in s.users && Permitted(s, u, t).Ok? then UnfollowCall(s, u, t, del) else s
    case Read(u) => Fill(s, u)
    case Expire(u) => s.(entries := s.entries - {u})
  }

  function Run(ops: seq<Op>): Social {
    if ops == [] then Social({}, map[], map[], {}) else Do(Run(ops[..|ops| - 1]), ops[|ops| - 1])
  }

  function Out(follows: set<(int, int)>, u: int): set<(int, int)> {
    set f | f in follows && f.0 == u
  }

  function In(follows: set<(int, int)>, u: int): set<(int, int)> {
    set f | f in follows && f.1 == u
  }

  /** Counters are degrees; rows connect distinct registered users. */
  ghost predicate Counted(s: Social) {
    && (forall f :: f in s.follows ==> f.0 in s.users && f.1 in s.users && f.0 != f.1)
    && (forall u :: u in s.users ==>
          s.users[u].following == |Out(s.follows, u)| && s.users[u].followers == |In(s.follows, u)|)
  }

  /** One more row raises its follower's out-degree and its followee's in-degree, and no other. */
  lemma DegreesWith(follows: set<(int, int)>, row: (int, int), u: int)
    requires row !in follows
    ensures |Out(follows + {row}, u)| == |Out(follows, u)| + if u == row.0 then 1 else 0
    ensures |In(follows + {row}, u)| == |In(follows, u)| + if u == row.1 then 1 else 0
  {
    if u == row.0 {
      assert Out(follows + {row}, u) == Out(follows, u) + {row};
    } else {
      assert Out(follows + {row}, u) == Out(follows, u);
    }
    if u == row.1 {
      assert In(follows + {row}, u) == In(follows, u) + {row};
    } else {
      assert In(follows + {row}, u) == In(follows, u);
    }
  }

  lemma FollowCounts(s: Social, a: int, b: int)
    requires Counted(s) && a in s.users && b in s.users && a != b
    ensures Counted(FollowTx(s, a, b))
  {
    var s' := FollowTx(s, a, b);
    if (a, b) !in s.follows {
      forall u | u in s'.users
        ensures s'.users[u].following == |Out(s'.follows, u)| && s'.users[u].followers == |In(s'.follows, u)|
      {
        DegreesWith(s.follows, (a, b), u);
      }
    }
  }

  lemma UnfollowCounts(s: Social, a: int, b: int)
    requires Counted(s)
    ensures Counted(UnfollowTx(s, a, b))
  {
    var s' := UnfollowTx(s, a, b);
    if (a, b) in s.follows {
      forall u | u in s'.users
        ensures s'.users[u].following == |Out(s'.follows, u)| && s'.users[u].followers == |In(s'.follows, u)|
      {
        assert s'.follows + {(a, b)} == s.follows;
        DegreesWith(s'.follows, (a, b), u);
      }
    }
  }

  lemma DoCounts(s: Social, op: Op)
    requires Counted(s)
    ensures Counted(Do(s, op))
  {
    match op
    case Register(u) =>
      if u !in s.users {
        assert Out(s.follows, u) == {} && In(s.follows, u) == {};
      }
    case Follow(u, t, _) => if u in s.users && Permitted(s, u, t).Ok? { FollowCounts(s, u, t); }
    case Unfollow(u, t, _) => if u in s.users { UnfollowCounts(s, u, t); }
    case _ =>
  }

  /** In every run, under repeated follows and unfollows, the counters are the degrees. */
  lemma {:induction false} CountersAreDegrees(ops: seq<Op>)
    ensures Counted(Run(ops))
  {
    if ops != [] {
      CountersAreDegrees(ops[..|ops| - 1]);
      DoCounts(Run(ops[..|ops| - 1]), ops[|ops| - 1]);
    }
  }

  // ---------- The relation, told from the calls ----------

  /** Registered by some call. */
  ghost predicate Registered(ops: seq<Op>, u: int) {
    exists i :: 0 <= i < |ops| && ops[i] == Register(u)
  }

  predicate IsFollow(op: Op, u: int, t: int) {
    op.Follow? && op.uid == u && op.target == t
  }

  predicate IsUnfollow(op: Op, u: int, t: int) {
    op.Unfollow? && op.uid == u && op.target == t
  }

  /** Some follow of another registered user by a registered one has not been taken back. */
  ghost predicate Follows(ops: seq<Op>, u: int, t: int) {
    u != t && exists i :: 0 <= i < |ops| && FollowsSince(ops, i, u, t)
  }

  ghost predicate FollowsSince(ops: seq<Op>, i: nat, u: int, t: int)
    requires i < |ops|
  {
    && IsFollow(ops[i], u, t) && Registered(ops[..i], u) && Registered(ops[..i], t)
    && forall j :: i < j < |ops| ==> !IsUnfollow(ops[j], u, t)
  }

  lemma RegisteredSnoc(ops: seq<Op>, u: int)
    requires ops != []
    ensures var front := ops[..|ops| - 1];
            Registered(ops, u) <==> Registered(front, u) || ops[|ops| - 1] == Register(u)
  {
    var front := ops[..|ops| - 1];
    if Registered(front, u) {
      var i :| 0 <= i < |front| && front[i] == Register(u);
      assert ops[i] == Register(u);
    }
  }

  lemma {:induction false} RegisteredUsers(ops: seq<Op>, u: int)
    ensures u in Run(ops).users <==> Registered(ops, u)
  {
    if ops != [] {
      RegisteredUsers(ops[..|ops| - 1], u);
      RegisteredSnoc(ops, u);
    }
  }

  lemma FollowsSnoc(ops: seq<Op>, u: int, t: int)
    requires ops != []
    ensures var front, op := ops[..|ops| - 1], ops[|ops| - 1];
            Follows(ops, u, t) <==>
              || (u != t && IsFollow(op, u, t) && Registered(front, u) && Registered(front, t))
              || (Follows(front, u, t) && !IsUnfollow(op, u, t))
  {
    var front, last := ops[..|ops| - 1], |ops| - 1;
    assert forall i :: 0 <= i <= |front| ==> ops[..i] == front[..i];
    assert front[..last] == front;
    if u != t && IsFollow(ops[last], u, t) && Registered(front, u) && Registered(front, t) {
      assert FollowsSince(ops, last, u, t);
    } else if Follows(front, u, t) && !IsUnfollow(ops[last], u, t) {
      var i :| 0 <= i < |front| && FollowsSince(front, i, u, t);
      assert FollowsSince(ops, i, u, t);
    }
    if Follows(ops, u, t) {
      var i :| 0 <= i < |ops| && FollowsSince(ops, i, u, t);
      if i < last { assert FollowsSince(front, i, u, t); }
    }
  }

  /** What one call does to the relation. */
  lemma DoFollows(s: Social, op: Op, u: int, t: int)
    ensures (u, t) in Do(s, op).follows <==>
              || (u != t && IsFollow(op, u, t) && u in s.users && t in s.users)
              || ((u, t) in s.follows && !(IsUnfollow(op, u, t) && u != t && u in s.users && t in s.users))
  {
  }

  /** In every run someone follows a user iff both were registered when he last asked to, and he has not asked to
      stop since; nobody follows himself. */
  lemma {:induction false} FollowsIffAsked(ops: seq<Op>, u: int, t: int)
    ensures (u, t) in Run(ops).follows <==> Follows(ops, u, t)
  {
    if ops != [] {
      var front := ops[..|ops| - 1];
      FollowsIffAsked(front, u, t);
      FollowsSnoc(ops, u, t);
      RegisteredUsers(front, u);
      RegisteredUsers(front, t);
      CountersAreDegrees(front);
      DoFollows(Run(front), ops[|ops| - 1], u, t);
    }
  }

  /** So a user's counters number those he follows, and those who follow him, by what was asked. */
  lemma CountersAreAsked(ops: seq<Op>, u: int, followed: set<int>, followers: set<int>)
    requires Registered(ops, u)
    requires forall t :: t in followed <==> Follows(ops, u, t)
    requires forall t :: t in followers <==> Follows(ops, t, u)
    ensures u in Run(ops).users
    ensures Run(ops).users[u].following == |followed| && Run(ops).users[u].followers == |followers|
  {
    var s := Run(ops);
    CountersAreDegrees(ops);
    RegisteredUsers(ops, u);
    forall f ensures f in Out(s.follows, u) <==> f in set t | t in followed :: (u, t) {
      FollowsIffAsked(ops, f.0, f.1);
    }
    forall f ensures f in In(s.follows, u) <==> f in set t | t in followers :: (t, u) {
      FollowsIffAsked(ops, f.0, f.1);
    }
    assert Out(s.follows, u) == set t | t in followed :: (u, t);
    assert In(s.follows, u) == set t | t in followers :: (t, u);
    Pairs(u, followed);
    Pairs(u, followers);
  }

  lemma {:induction false} Pairs(u: int, others: set<int>)
    ensures |set t | t in others :: (u, t)| == |others|
    ensures |set t | t in others :: (t, u)| == |others|
  {
    if others != {} {
      SomeMember(others);
      var o :| o in others;
      Pairs(u, others - {o});
      assert (set t | t in others :: (u, t)) == (set t | t in others - {o} :: (u, t)) + {(u, o)};
      assert (set t | t in others :: (t, u)) == (set t | t in others - {o} :: (t, u)) + {(o, u)};
    }
  }

  // ---------- Cached counters ----------

  ghost predicate EntriesAgree(s: Social) {
    forall u :: u in s.entries && u !in s.missed ==> u in s.users && s.entries[u] == s.users[u]
  }

  /** A follow or unfollow moves the counters of its two users and nobody else's. */
  lemma OthersUnmoved(s: Social, a: int, b: int, u: int)
    requires u != a && u != b && u in s.users
    ensures u in FollowTx(s, a, b).users && FollowTx(s, a, b).users[u] == s.users[u]
    ensures u in UnfollowTx(s, a, b).users && UnfollowTx(s, a, b).users[u] == s.users[u]
  {
  }

  lemma DoAgrees(s: Social, op: Op)
    requires EntriesAgree(s)
    ensures EntriesAgree(Do(s, op))
  {
    if op.Follow? || op.Unfollow? {
      forall u | u in s.entries && u !in s.missed && u != op.uid && u != op.target
        ensures u in Do(s, op).users && Do(s, op).users[u] == s.users[u]
      {
        OthersUnmoved(s, op.uid, op.target, u);
      }
    }
  }

  /** In every run a cached entry has the current counters, unless a Del after a change of them failed. */
  lemma {:induction false} CachedCounters(ops: seq<Op>)
    ensures EntriesAgree(Run(ops))
  {
    if ops != [] {
      CachedCounters(ops[..|ops| - 1]);
      DoAgrees(Run(ops[..|ops| - 1]), ops[|ops| - 1]);
    }
  }

  /** A read after a follow or unfollow whose Del worked finds no old entry, and leaves one that shows the
      counters as they are now. */
  lemma NextReadIsCurrent(ops: seq<Op>, op: Op)
    requires var s := Run(ops);
             (op.Follow? || op.Unfollow?) && op.del && op.uid != op.target && op.uid in s.users && op.target in s.users
    ensures var s := Do(Run(ops), op);
            && op.uid !in s.entries && op.target !in s.entries && op.uid !in Do(Run(ops), Expire(op.uid)).entries
            && var s' := Do(Do(s, Read(op.uid)), Read(op.target));
               && op.uid in s'.entries && op.target in s'.entries
               && s'.entries[op.uid] == s.users[op.uid] && s'.entries[op.target] == s.users[op.target]
  {
  }

  // ---------- Totals ----------

  ghost function SumOver(keys: set<int>, users: map<int, Counts>, followers: bool): int
    requires keys <= users.Keys
  {
    if keys == {} then 0
    else
      SomeMember(keys);
      var u :| u in keys;
      (if followers then users[u].followers else users[u].following) + SumOver(keys - {u}, users, followers)
  }

  /** The rows whose follower (or followee) is among the given users. */
  function RowsOf(follows: set<(int, int)>, keys: set<int>, followers: bool): set<(int, int)> {
    set f | f in follows && (if followers then f.1 else f.0) in keys
  }

  lemma RowsSplit(follows: set<(int, int)>, keys: set<int>, u: int, followers: bool)
    requires u in keys
    ensures |RowsOf(follows, keys, followers)| ==
            |RowsOf(follows, keys - {u}, followers)| + if followers then |In(follows, u)| else |Out(follows, u)|
  {
    var mine, rest := if followers then In(follows, u) else Out(follows, u), RowsOf(follows, keys - {u}, followers);
    assert RowsOf(follows, keys, followers) == rest + mine;
    assert rest !! mine;
  }

  lemma {:induction false} SumIsRows(s: Social, keys: set<int>, followers: bool)
    requires Counted(s) && keys <= s.users.Keys
    ensures SumOver(keys, s.users, followers) == |RowsOf(s.follows, keys, followers)|
  {
    if keys == {} {
      assert RowsOf(s.follows, keys, followers) == {};
    } else {
      SomeMember(keys);
      var u :| u in keys && SumOver(keys, s.users, followers) ==
                 (if followers then s.users[u].followers else s.users[u].following)
                 + SumOver(keys - {u}, s.users, followers);
      assert u in s.users;
      SumIsRows(s, keys - {u}, followers);
      RowsSplit(s.follows, keys, u, followers);
    }
  }

  /** Both totals are the number of follow rows, in every run. */
  lemma TotalsAgree(ops: seq<Op>)
    ensures var s := Run(ops);
            && SumOver(s.users.Keys, s.users, false) == |s.follows|
            && SumOver(s.users.Keys, s.users, true) == |s.follows|
  {
    var s := Run(ops);
    CountersAreDegrees(ops);
    SumIsRows(s, s.users.Keys, false);
    SumIsRows(s, s.users.Keys, true);
    assert RowsOf(s.follows, s.users.Keys, false) == s.follows;
    assert RowsOf(s.follows, s.users.Keys, true) == s.follows;
  }

  // ---------- The tables updated in place ----------

  class SocialRepo {
    var follows: set<(int, int)>
    var users: map<int, Counts>
    var entries: map<int, Counts>
    ghost var missed: set<int>

    constructor ()
      ensures View() == Social({}, map[], map[], {})
    {
      follows, users, entries, missed := {}, map[], map[], {};
    }

    ghost function View(): Social
      reads this
    {
      Social(follows, users, entries, missed)
    }

    method FollowUser(follower: int, followee: int)
      modifies this`follows, this`users
      ensures follows == old(follows) + {(follower, followee)}
      ensures users.Keys == old(users).Keys
      ensures forall u :: u in users ==>
                var new_ := if (follower, followee) in old(follows) then 0 else 1;
                && users[u].following == old(users)[u].following + (if u == follower then new_ else 0)
                && users[u].followers == old(users)[u].followers + (if u == followee then new_ else 0)
      ensures View() == FollowTx(old(View()), follower, followee)
    {
      if (follower, followee) in follows {
        return;
      }
      follows := follows + {(follower, followee)};
      users := AddFollowing(users, follower, 1);
      users := AddFollower(users, followee, 1);
    }

    method UnfollowUser(follower: int, followee: int)
      modifies this`follows, this`users
      ensures follows == old(follows) - {(follower, followee)}
      ensures users.Keys == old(users).Keys
      ensures forall u :: u in users ==>
                var gone := if (follower, followee) in old(follows) then 1 else 0;
                && users[u].following == old(users)[u].following - (if u == follower then gone else 0)
                && users[u].followers == old(users)[u].followers - (if u == followee then gone else 0)
      ensures View() == UnfollowTx(old(View()), follower, followee)
    {
      if (follower, followee) !in follows {
        return;
      }
      follows := follows - {(follower, followee)};
      users := AddFollowing(users, follower, -1);
      users := AddFollower(users, followee, -1);
    }

    method AfterSocial(a: int, b: int, ghost changed: bool, del: bool)
      modifies this`entries, this`missed
      ensures entries == if del then old(entries) - {a, b} else old(entries)
      ensures missed == if del then old(missed) - {a, b} else if changed then old(missed) + {a, b} else old(missed)
      ensures View() == DropEntries(old(View()), a, b, changed, del)
    {
      if del {
        entries, missed := entries - {a, b}, missed - {a, b};
      } else {
        missed := if changed then missed + {a, b} else missed;
      }
    }

    method CheckTarget(uid: int, target: int) returns (r: Result<()>)
      ensures r == if uid == target then Err(BadRequest(40030)) else if target !in users then Err(NotFound) else Ok(())
      ensures r == Permitted(View(), uid, target)
    {
      if uid == target {
        return Err(BadRequest(40030));
      }
      if target !in users {
        return Err(NotFound);
      }
      r := Ok(());
    }

    /** SocialService.Follow for a registered caller. */
    method Follow(uid: int, target: int, del: bool) returns (r: Result<()>)
      requires uid in users
      modifies this
      ensures r == if uid == target then Err(BadRequest(40030))
                   else if target !in old(users) then Err(NotFound) else Ok(())
      ensures follows == old(follows) + if r.Ok? then {(uid, target)} else {}
      ensures entries == if r.Ok? && del then old(entries) - {uid, target} else old(entries)
      ensures View() == Do(old(View()), Op.Follow(uid, target, del))
      ensures r == Permitted(old(View()), uid, target)
    {
      r := CheckTarget(uid, target);
      if r.Ok? {
        ghost var changed := (uid, target) !in follows;
        FollowUser(uid, target);
        AfterSocial(uid, target, changed, del);
      }
    }

    method Unfollow(uid: int, target: int, del: bool) returns (r: Result<()>)
      requires uid in users
      modifies this
      ensures r == if uid == target then Err(BadRequest(40030))
                   else if target !in old(users) then Err(NotFound) else Ok(())
      ensures follows == old(follows) - if r.Ok? then {(uid, target)} else {}
      ensures entries == if r.Ok? && del then old(entries) - {uid, target} else old(entries)
      ensures View() == Do(old(View()), Op.Unfollow(uid, target, del))
      ensures r == Permitted(old(View()), uid, target)
    {
      r := CheckTarget(uid, target);
      if r.Ok? {
        ghost var changed := (uid, target) in follows;
        UnfollowUser(uid, target);
        AfterSocial(uid, target, changed, del);
      }
    }
  }
}
