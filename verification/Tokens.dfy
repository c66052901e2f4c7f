/** Refresh-token rotation against the whitelist (internal/service/auth_service.go:57-166,
    internal/jwtutil/jwtutil.go:51-105).  Times are milliseconds; signatures and hashes are opaque, so
    a token is its unique jti with its claims. */
module Tokens {
  import opened Model

  /** `chain` is a history field: the login the token descends from. */
  datatype Token = Token(id: nat, uid: int, exp: int, chain: nat)

  datatype Listed = Listed(uid: int, dies: int)

  /** `cached` says whether there is a cache to keep the whitelist in.  `issued` are the tokens ever
      signed.  History variables: `accepted`, `loggedOut`, and `survived`, the tokens whose removal
      from the whitelist has failed at least once. */
  datatype Auth = Auth(
    now: int, ttl: nat, cached: bool, issued: map<nat, Token>, white: map<nat, Listed>, next: nat,
    accepted: seq<nat>, loggedOut: set<nat>, survived: set<nat>)

  /** exp is written in whole seconds. */
  function ExpiryFor(now: int, ttl: nat): int {
    (now + ttl) - (now + ttl) % 1000
  }

  function Issue(s: Auth, uid: int, chain: nat): Auth {
    s.(issued := s.issued[s.next := Token(s.next, uid, ExpiryFor(s.now, s.ttl), chain)], next := s.next + 1)
  }

  function RegisterToken(s: Auth, id: nat, uid: int, ok: bool): Auth {
    if s.cached && ok then s.(white := s.white[id := Listed(uid, s.now + s.ttl)]) else s
  }

  function Revoke(s: Auth, id: nat, ok: bool): Auth {
    if !s.cached then s
    else if ok then s.(white := s.white - {id})
    else if id < s.next then s.(survived := s.survived + {id})
    else s
  }

  function Login(s: Auth, uid: int, setOk: bool): Auth {
    RegisterToken(Issue(s, uid, s.next), s.next, uid, setOk)
  }

  /** Signature, type and exp. */
  predicate Parses(s: Auth, t: Token) {
    t.id in s.issued && s.issued[t.id] == t && s.now < t.exp
  }

  /** The whitelist has the token under the same user; a failed read counts as absent.  Without a cache
      everything is let through. */
  predicate Whitelisted(s: Auth, t: Token, readOk: bool) {
    !s.cached || (readOk && t.id in s.white && s.now < s.white[t.id].dies && s.white[t.id].uid == t.uid)
  }

  /** A refresh presented now would be accepted. */
  predicate Acceptable(s: Auth, t: Token) {
    Parses(s, t) && Whitelisted(s, t, true)
  }

  /** What Refresh does once its checks have passed: issue, revoke the old, register the new. */
  function Rotate(s: Auth, t: Token, setOk: bool, delOk: bool): Auth {
    var s1 := Issue(s, t.uid, t.chain);
    var s2 := Revoke(s1, t.id, delOk);
    RegisterToken(s2, s.next, t.uid, setOk).(accepted := s.accepted + [t.id])
  }

  datatype Faults = Faults(read: bool, set_: bool, del: bool)

  function Refresh(s: Auth, t: Token, f: Faults): (Result<Token>, Auth) {
    if !Parses(s, t) then (Err(Unauthorized), s)
    else if !Whitelisted(s, t, f.read) then (Err(BadRequest(40102)), s)
    else (Ok(Token(s.next, t.uid, ExpiryFor(s.now, s.ttl), t.chain)), Rotate(s, t, f.set_, f.del))
  }

  function Logout(s: Auth, id: nat, delOk: bool): Auth {
    var s' := Revoke(s, id, delOk);
    if id < s.next then s'.(loggedOut := s.loggedOut + {id}) else s'
  }

  datatype Op =
    | Tick(ms: nat)
    | DoLogin(uid: int, setOk: bool)
    | DoRefresh(t: Token, f: Faults)
    | DoLogout(id: nat, delOk: bool)

  /** One call, alone. */
  function Do(s: Auth, op: Op): Auth {
    match op
    case Tick(ms) => s.(now := s.now + ms)
    case DoLogin(uid, setOk) => Login(s, uid, setOk)
    case DoRefresh(t, f) => Refresh(s, t, f).1
    case DoLogout(id, delOk) => Logout(s, id, delOk)
  }

  function Start(ttl: nat, cached: bool): Auth {
    Auth(0, ttl, cached, map[], map[], 0, [], {}, {})
  }

  function Run(s: Auth, ops: seq<Op>): Auth {
    if ops == [] then s else Do(Run(s, ops[..|ops| - 1]), ops[|ops| - 1])
  }

  /** Only a token whose removal failed can be accepted twice. */
  ghost predicate OnceEach(ids: seq<nat>, survived: set<nat>) {
    forall i, j :: 0 <= i < j < |ids| && ids[i] == ids[j] ==> ids[i] in survived
  }

  ghost predicate Issued(s: Auth) {
    && (forall id: nat :: id in s.issued <==> id < s.next)
    && (forall id :: id in s.issued ==> s.issued[id].id == id && s.issued[id].chain < s.next)
    && (forall id :: id in s.white ==> id in s.issued)
    && (forall id :: id in s.accepted ==> id < s.next)
    && (forall id :: id in s.loggedOut ==> id < s.next)
  }

  /** Two different listed tokens of one login chain. */
  predicate Siblings(s: Auth, i: nat, j: nat) {
    i in s.white && j in s.white && i in s.issued && j in s.issued && i != j && s.issued[i].chain == s.issued[j].chain
  }

  /** Some removal of a token of this chain has failed. */
  ghost predicate Tainted(s: Auth, chain: nat) {
    exists id :: id in s.survived && id in s.issued && s.issued[id].chain == chain
  }

  lemma TaintedStays(s: Auth, s': Auth, chain: nat)
    requires Tainted(s, chain) && s.survived <= s'.survived
    requires forall id :: id in s.issued ==> id in s'.issued && s'.issued[id] == s.issued[id]
    ensures Tainted(s', chain)
  {
  }

  /** Where no removal failed, a listed token is unused, and the only one of its chain. */
  ghost predicate Inv(s: Auth) {
    && Issued(s)
    && (s.cached ==>
          && OnceEach(s.accepted, s.survived)
          && (forall id :: id in s.white && id !in s.survived ==> id !in s.accepted && id !in s.loggedOut)
          && (forall i, j :: Siblings(s, i, j) ==> Tainted(s, s.issued[i].chain)))
  }

  lemma LoginKeeps(s: Auth, uid: int, setOk: bool)
    requires Inv(s)
    ensures Inv(Login(s, uid, setOk))
  {
    var s' := Login(s, uid, setOk);
    assert Issued(s') && s.next !in s.accepted && s.next !in s.loggedOut;
    assert s'.white.Keys <= s.white.Keys + {s.next};
    forall i, j | Siblings(s', i, j) && s.cached ensures Tainted(s', s'.issued[i].chain) {
      assert Siblings(s, i, j);
      TaintedStays(s, s', s.issued[i].chain);
    }
  }

  /** After a rotation the new token has an older sibling only if the chain was or is now tainted. */
  lemma SiblingsTainted(s: Auth, t: Token, f: Faults, i: nat, j: nat)
    requires Inv(s) && s.cached && Parses(s, t) && Whitelisted(s, t, f.read)
    requires Siblings(Rotate(s, t, f.set_, f.del), i, j)
    ensures var s' := Rotate(s, t, f.set_, f.del); Tainted(s', s'.issued[i].chain)
  {
    var s' := Rotate(s, t, f.set_, f.del);
    if i != s.next && j != s.next {
      assert Siblings(s, i, j);
      TaintedStays(s, s', s.issued[i].chain);
    } else {
      var old_ := if i == s.next then j else i;
      assert s'.issued[old_] == s.issued[old_] && s.issued[old_].chain == t.chain;
      if old_ == t.id {
        assert t.id in s'.survived && s'.issued[t.id].chain == t.chain;
      } else {
        assert Siblings(s, t.id, old_);
        TaintedStays(s, s', t.chain);
      }
    }
  }

  lemma RotateAccepts(s: Auth, t: Token, f: Faults)
    requires Inv(s) && s.cached && Parses(s, t) && Whitelisted(s, t, f.read)
    ensures OnceEach(s.accepted + [t.id], s.survived)
  {
  }

  lemma RotateIssues(s: Auth, t: Token, f: Faults)
    requires Inv(s) && Parses(s, t)
    ensures Issued(Rotate(s, t, f.set_, f.del))
  {
  }

  lemma RotateKeeps(s: Auth, t: Token, f: Faults)
    requires Inv(s) && Parses(s, t) && Whitelisted(s, t, f.read)
    ensures Inv(Rotate(s, t, f.set_, f.del))
  {
    var s' := Rotate(s, t, f.set_, f.del);
    RotateIssues(s, t, f);
    if s.cached {
      RotateAccepts(s, t, f);
      assert s'.white.Keys <= s.white.Keys + {s.next};
      forall i, j | Siblings(s', i, j) ensures Tainted(s', s'.issued[i].chain) {
        SiblingsTainted(s, t, f, i, j);
      }
    }
  }

  lemma FewerListed(s: Auth, s': Auth)
    requires Inv(s) && s'.white.Keys <= s.white.Keys && s'.issued == s.issued && s.survived <= s'.survived
    ensures s.cached ==> forall i, j :: Siblings(s', i, j) ==> Tainted(s', s'.issued[i].chain)
  {
    forall i, j | Siblings(s', i, j) && s.cached ensures Tainted(s', s'.issued[i].chain) {
      assert Siblings(s, i, j);
      TaintedStays(s, s', s.issued[i].chain);
    }
  }

  lemma DoKeeps(s: Auth, op: Op)
    requires Inv(s)
    ensures Inv(Do(s, op))
    ensures Later(s, Do(s, op))
  {
    match op
    case Tick(ms) => FewerListed(s, Do(s, op));
    case DoLogin(uid, setOk) => LoginKeeps(s, uid, setOk);
    case DoRefresh(t, f) => if Parses(s, t) && Whitelisted(s, t, f.read) { RotateKeeps(s, t, f); }
    case DoLogout(id, delOk) => LogoutKeeps(s, id, delOk);
  }

  lemma LogoutKeeps(s: Auth, id: nat, delOk: bool)
    requires Inv(s)
    ensures Inv(Logout(s, id, delOk))
  {
    var s' := Logout(s, id, delOk);
    assert s'.white.Keys <= s.white.Keys;
    FewerListed(s, s');
  }

  /** What time and further calls leave as it was. */
  ghost predicate Later(s: Auth, e: Auth) {
    && e.now >= s.now && e.cached == s.cached && e.ttl == s.ttl && e.next >= s.next
    && s.loggedOut <= e.loggedOut && s.accepted <= e.accepted && s.survived <= e.survived
    && (forall id :: id in s.issued ==> id in e.issued && e.issued[id] == s.issued[id])
  }

  lemma {:induction false} RunKeeps(s: Auth, ops: seq<Op>)
    requires Inv(s)
    ensures Inv(Run(s, ops)) && Later(s, Run(s, ops))
  {
    if ops != [] {
      RunKeeps(s, ops[..|ops| - 1]);
      DoKeeps(Run(s, ops[..|ops| - 1]), ops[|ops| - 1]);
    }
  }

  /** In every run with a cache, a refresh token is accepted at most once unless removing that very token
      from the whitelist failed at some point. */
  lemma AcceptedAtMostOnce(ttl: nat, ops: seq<Op>, i: nat, j: nat)
    requires var ids := Run(Start(ttl, true), ops).accepted; i < j < |ids| && ids[i] == ids[j]
    ensures var e := Run(Start(ttl, true), ops); e.accepted[i] in e.survived
  {
    RunKeeps(Start(ttl, true), ops);
  }

  /** A token that was accepted or logged out is never acceptable again unless its removal failed; one
      that has expired never is. */
  lemma NeverAgain(ttl: nat, before: seq<Op>, after: seq<Op>, t: Token)
    requires var s := Run(Start(ttl, true), before); t.id in s.accepted || t.id in s.loggedOut || s.now >= t.exp
    ensures var e := Run(Run(Start(ttl, true), before), after);
            Acceptable(e, t) ==> t.id in e.survived && e.now < t.exp
  {
    RunKeeps(Start(ttl, true), before);
    RunKeeps(Run(Start(ttl, true), before), after);
  }

  /** A login chain has at most one acceptable token at any time, unless some removal of one of its tokens
      has failed. */
  lemma OnePerChain(ttl: nat, ops: seq<Op>, t: Token, u: Token)
    requires var s := Run(Start(ttl, true), ops);
             Acceptable(s, t) && Acceptable(s, u) && t != u && t.chain == u.chain
    ensures Tainted(Run(Start(ttl, true), ops), t.chain)
  {
    RunKeeps(Start(ttl, true), ops);
    assert Siblings(Run(Start(ttl, true), ops), t.id, u.id);
  }

  /** Without a cache there is no rotation: every token ever issued is acceptable until it expires, used
      and logged out or not. */
  lemma {:induction false} DegradedModeReplays(ttl: nat, before: seq<Op>, after: seq<Op>, id: nat)
    requires id in Run(Start(ttl, false), before).issued
    ensures var t := Run(Start(ttl, false), before).issued[id];
            var e := Run(Run(Start(ttl, false), before), after);
            Acceptable(e, t) <==> e.now < t.exp
  {
    RunKeeps(Start(ttl, false), before);
    RunKeeps(Run(Start(ttl, false), before), after);
  }

  /** The token a refresh returns is the acceptable one of its chain, if it was registered and lives on. */
  lemma RotationHandsOver(s: Auth, t: Token, f: Faults)
    requires Inv(s) && s.cached && f.del && Refresh(s, t, f).0.Ok?
    ensures var (r, s') := Refresh(s, t, f);
            && !Acceptable(s', t) && r.value.chain == t.chain && r.value.uid == t.uid
            && (Acceptable(s', r.value) <==> f.set_ && s.now < ExpiryFor(s.now, s.ttl))
  {
  }

  /** Calls must not overlap: if two refreshes of one token both pass their checks before either goes
      on, its chain ends up with two acceptable tokens, whenever tokens live at all. */
  lemma OverlapForks(s: Auth, t: Token)
    requires Inv(s) && Acceptable(s, t) && s.now < ExpiryFor(s.now, s.ttl)
    ensures var e := Rotate(Rotate(s, t, true, true), t, true, true);
            var a, b := e.issued[s.next], e.issued[s.next + 1];
            Acceptable(e, a) && Acceptable(e, b) && a != b && a.chain == b.chain && e.survived == s.survived
  {
  }

  /** A refresh or logout leaves the token acceptable exactly when its removal fails (or there is no cache). */
  lemma RevocationMatters(s: Auth, t: Token, f: Faults)
    requires Inv(s) && Acceptable(s, t) && f.read
    ensures Acceptable(Refresh(s, t, f).1, t) <==> !s.cached || !f.del
    ensures Acceptable(Logout(s, t.id, f.del), t) <==> !s.cached || !f.del
  {
  }

  function Ticks(ops: seq<Op>): nat {
    if ops == [] then 0
    else
      var op := ops[|ops| - 1];
      Ticks(ops[..|ops| - 1]) + if op.Tick? then op.ms else 0
  }

  /** The clock shows the time that has passed. */
  lemma {:induction false} Elapsed(s: Auth, ops: seq<Op>)
    ensures Run(s, ops).now == s.now + Ticks(ops)
  {
    if ops != [] { Elapsed(s, ops[..|ops| - 1]); }
  }

  // ---------- How long a token can be used ----------

  /** The call takes the token out of the whitelist: a logout, or a refresh that is accepted, whose Del works. */
  predicate Removes(s: Auth, op: Op, id: nat) {
    match op
    case DoLogout(i, delOk) => i == id && delOk
    case DoRefresh(t, f) => t.id == id && f.del && Refresh(s, t, f).0.Ok?
    case _ => false
  }

  ghost predicate Removed(s: Auth, ops: seq<Op>, id: nat) {
    exists i :: 0 <= i < |ops| && Removes(Run(s, ops[..i]), ops[i], id)
  }

  lemma RemovedSnoc(s: Auth, ops: seq<Op>, id: nat)
    requires ops != []
    ensures var front := ops[..|ops| - 1];
            Removed(s, ops, id) <==> Removed(s, front, id) || Removes(Run(s, front), ops[|ops| - 1], id)
  {
    var front := ops[..|ops| - 1];
    assert forall i :: 0 <= i < |front| ==> ops[..i] == front[..i] && ops[i] == front[i];
  }

  lemma OneCall(s: Auth, op: Op, id: nat)
    requires Inv(s) && s.cached && id in s.issued
    ensures var s' := Do(s, op);
            && (id in s'.white <==> id in s.white && !Removes(s, op, id))
            && (id in s'.white ==> s'.white[id] == s.white[id])
  {
  }

  /** A listed token stays listed, as it was, until a call removes it; none is listed again. */
  lemma {:induction false} ListedUntilRemoved(s: Auth, ops: seq<Op>, id: nat)
    requires Inv(s) && s.cached && id in s.issued
    ensures var e := Run(s, ops);
            && (id in e.white <==> id in s.white && !Removed(s, ops, id))
            && (id in e.white ==> e.white[id] == s.white[id])
  {
    if ops != [] {
      var front := ops[..|ops| - 1];
      ListedUntilRemoved(s, front, id);
      RunKeeps(s, front);
      RemovedSnoc(s, ops, id);
      OneCall(Run(s, front), ops[|ops| - 1], id);
    }
  }

  /** The answer to a refresh of this token: whether it has expired comes before whether it is still good. */
  ghost predicate Answers(r: Result<Token>, e: Auth, t: Token, good: bool) {
    r == if e.now >= t.exp then Err(Unauthorized)
         else if good then Ok(Token(e.next, t.uid, (e.now + e.ttl) - (e.now + e.ttl) % 1000, t.chain))
         else Err(BadRequest(40102))
  }

  /** What a refresh answers about a token that was issued in state s, with or without being registered. */
  lemma IssuedThenRefreshed(s: Auth, t: Token, after: seq<Op>, f: Faults)
    requires Inv(s) && s.cached && t.id in s.issued && s.issued[t.id] == t
    requires t.id in s.white ==> s.white[t.id].uid == t.uid && t.exp <= s.white[t.id].dies
    ensures var e := Run(s, after);
            && Answers(Refresh(e, t, f).0, e, t, t.id in s.white && f.read && !Removed(s, after, t.id))
            && e.ttl == s.ttl
  {
    RunKeeps(s, after);
    ListedUntilRemoved(s, after, t.id);
  }

  lemma LoginIssues(s: Auth, uid: int, setOk: bool)
    requires Inv(s) && s.cached
    ensures var s', exp := Do(s, DoLogin(uid, setOk)), (s.now + s.ttl) - (s.now + s.ttl) % 1000;
            && Inv(s') && s'.cached && s'.ttl == s.ttl && s'.now == s.now && s.next !in s.issued
            && s.next in s'.issued && s'.issued[s.next] == Token(s.next, uid, exp, s.next)
            && (s.next in s'.white <==> setOk)
            && (setOk ==> s'.white[s.next] == Listed(uid, s.now + s.ttl)) && exp <= s.now + s.ttl
  {
    LoginKeeps(s, uid, setOk);
  }

  lemma RefreshIssues(s: Auth, u: Token, g: Faults)
    requires Inv(s) && s.cached && Refresh(s, u, g).0.Ok?
    ensures var s', exp := Do(s, DoRefresh(u, g)), (s.now + s.ttl) - (s.now + s.ttl) % 1000;
            && Inv(s') && s'.cached && s'.ttl == s.ttl && s'.now == s.now
            && Refresh(s, u, g).0 == Ok(Token(s.next, u.uid, exp, u.chain))
            && s.next in s'.issued && s'.issued[s.next] == Token(s.next, u.uid, exp, u.chain)
            && (s.next in s'.white <==> g.set_)
            && (g.set_ ==> s'.white[s.next] == Listed(u.uid, s.now + s.ttl)) && exp <= s.now + s.ttl
  {
    RotateKeeps(s, u, g);
  }

  ghost predicate Reached(s: Auth) {
    exists ttl: nat, cached, ops :: s == Run(Start(ttl, cached), ops)
  }

  lemma ReachedInv(s: Auth)
    requires Reached(s)
    ensures Inv(s)
  {
    var ttl: nat, cached, ops :| s == Run(Start(ttl, cached), ops);
    RunKeeps(Start(ttl, cached), ops);
  }

  /** From login on, with a cache: in every run the token handed out can be refreshed exactly until its exp, the
      whole second before ttl is over, unless registering it failed or a logout or an earlier refresh has
      taken it from the whitelist since; an expired token is told apart from one no longer listed. */
  lemma LoginThenRefresh(s: Auth, uid: int, setOk: bool, after: seq<Op>, f: Faults) returns (t: Token)
    requires Reached(s) && s.cached
    ensures t == Token(s.next, uid, (s.now + s.ttl) - (s.now + s.ttl) % 1000, s.next) && t.id !in s.issued
    ensures var s' := Do(s, DoLogin(uid, setOk));
            && t.id in s'.issued && s'.issued[t.id] == t
            && var e := Run(s', after);
               && e.ttl == s.ttl && e.now == s.now + Ticks(after)
               && Answers(Refresh(e, t, f).0, e, t, setOk && f.read && !Removed(s', after, t.id))
  {
    Elapsed(Do(s, DoLogin(uid, setOk)), after);
    ReachedInv(s);
    LoginIssues(s, uid, setOk);
    t := Do(s, DoLogin(uid, setOk)).issued[s.next];
    IssuedThenRefreshed(Do(s, DoLogin(uid, setOk)), t, after, f);
  }

  /** The same for the token a refresh hands out. */
  lemma RefreshThenRefresh(s: Auth, u: Token, g: Faults, after: seq<Op>, f: Faults) returns (t: Token)
    requires Reached(s) && s.cached && Refresh(s, u, g).0.Ok?
    ensures t == Token(s.next, u.uid, (s.now + s.ttl) - (s.now + s.ttl) % 1000, u.chain)
    ensures Refresh(s, u, g).0 == Ok(t)
    ensures var s' := Do(s, DoRefresh(u, g));
            var e := Run(s', after);
            && e.ttl == s.ttl && e.now == s.now + Ticks(after)
            && Answers(Refresh(e, t, f).0, e, t, g.set_ && f.read && !Removed(s', after, t.id))
  {
    Elapsed(Do(s, DoRefresh(u, g)), after);
    ReachedInv(s);
    RefreshIssues(s, u, g);
    t := Do(s, DoRefresh(u, g)).issued[s.next];
    IssuedThenRefreshed(Do(s, DoRefresh(u, g)), t, after, f);
  }

  class AuthService {
    var now: int
    const ttl: nat
    const cached: bool
    var issued: map<nat, Token>
    var white: map<nat, Listed>
    var next: nat
    ghost var accepted: seq<nat>
    ghost var loggedOut: set<nat>
    ghost var survived: set<nat>

    constructor (ttl: nat, cached: bool)
      ensures View() == Start(ttl, cached)
    {
      this.ttl, this.cached := ttl, cached;
      now, issued, white, next := 0, map[], map[], 0;
      accepted, loggedOut, survived := [], {}, {};
    }

    ghost function View(): Auth
      reads this
    {
      Auth(now, ttl, cached, issued, white, next, accepted, loggedOut, survived)
    }

    method IssuePair(uid: int, chain: nat) returns (t: Token)
      modifies this`issued, this`next
      ensures View() == Issue(old(View()), uid, chain)
      ensures t == Token(old(next), uid, ExpiryFor(now, ttl), chain)
    {
      t := Token(next, uid, ExpiryFor(now, ttl), chain);
      issued := issued[next := t];
      next := next + 1;
    }

    method RegisterRefresh(id: nat, uid: int, ok: bool)
      modifies this`white
      ensures View() == RegisterToken(old(View()), id, uid, ok)
    {
      if cached && ok {
        white := white[id := Listed(uid, now + ttl)];
      }
    }

    method RevokeRefresh(id: nat, ok: bool)
      modifies this`white, this`survived
      ensures View() == Revoke(old(View()), id, ok)
    {
      if !cached {
        return;
      }
      if ok {
        white := white - {id};
      } else if id < next {
        survived := survived + {id};
      }
    }

    /** Login, after the password check. */
    method LoginAs(uid: int, setOk: bool) returns (t: Token)
      modifies this`issued, this`next, this`white
      ensures t.id == t.chain == old(next) && next == old(next) + 1 && issued == old(issued)[t.id := t]
      ensures t.uid == uid && t.exp == (now + ttl) - (now + ttl) % 1000
      ensures white == if cached && setOk then old(white)[t.id := Listed(uid, now + ttl)] else old(white)
      ensures View() == Login(old(View()), uid, setOk)
      ensures t == Token(old(next), uid, ExpiryFor(now, ttl), old(next))
    {
      t := IssuePair(uid, next);
      RegisterRefresh(t.id, uid, setOk);
    }

    method RefreshWith(t: Token, f: Faults) returns (r: Result<Token>)
      modifies this`issued, this`next, this`white, this`accepted, this`survived
      ensures var listed := f.read && t.id in old(white)
                            && now < old(white)[t.id].dies && old(white)[t.id].uid == t.uid;
              var parses := t.id in old(issued) && old(issued)[t.id] == t && now < t.exp;
              match r
              case Err(e) =>
                && issued == old(issued) && next == old(next) && white == old(white)
                && accepted == old(accepted) && survived == old(survived)
                && e == (if parses then BadRequest(40102) else Unauthorized)
                && (e == BadRequest(40102) ==> cached && !listed)
              case Ok(u) =>
                && parses && (cached ==> listed)
                && u == Token(old(next), t.uid, (now + ttl) - (now + ttl) % 1000, t.chain)
                && issued == old(issued)[u.id := u] && next == old(next) + 1
                && accepted == old(accepted) + [t.id]
                && survived == old(survived) + (if cached && !f.del && t.id < next then {t.id} else {})
                && var left := if cached && f.del then old(white) - {t.id} else old(white);
                   white == if cached && f.set_ then left[u.id := Listed(t.uid, now + ttl)] else left
      ensures (r, View()) == Refresh(old(View()), t, f)
    {
      if t.id !in issued || issued[t.id] != t || now >= t.exp {
        return Err(Unauthorized);
      }
      if cached && (!f.read || t.id !in white || now >= white[t.id].dies || white[t.id].uid != t.uid) {
        return Err(BadRequest(40102));
      }
      var rotated := IssuePair(t.uid, t.chain);
      RevokeRefresh(t.id, f.del);
      RegisterRefresh(rotated.id, t.uid, f.set_);
      accepted := accepted + [t.id];
      r := Ok(rotated);
    }

    method LogoutWith(id: nat, delOk: bool)
      modifies this`white, this`loggedOut, this`survived
      ensures white == if cached && delOk then old(white) - {id} else old(white)
      ensures loggedOut == old(loggedOut) + if id < next then {id} else {}
      ensures survived == old(survived) + if cached && !delOk && id < next then {id} else {}
      ensures View() == Logout(old(View()), id, delOk)
    {
      RevokeRefresh(id, delOk);
      if id < next {
        loggedOut := loggedOut + {id};
      }
    }
  }
}
