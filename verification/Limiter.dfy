/** The limiter middleware as code over Redis keys (internal/middleware/ratelimit.go:24-81). */
module Limiter {
  import opened Model
  import opened RateLimit

  class Redis {
    var zsets: map<int, ZSet>                        // rl:user:<uid>
    var counters: map<int, map<nat, Counter>>        // rl:ip:<ip>:<minute>

    constructor ()
      ensures zsets == map[] && counters == map[]
    {
      zsets, counters := map[], map[];
    }

    function UserKey(uid: int): ZSet
      reads this
    {
      if uid in zsets then zsets[uid] else ZSet(map[], 0)
    }

    function IpKeys(ip: int): map<nat, Counter>
      reads this
    {
      if ip in counters then counters[ip] else map[]
    }

    /** RateLimitUser: without a user or without Redis the request passes; otherwise clean the window,
        record the request, count, and refresh the expiry in one transaction. */
    method RateLimitUser(uid: Option<int>, r: Request, limit: int, window: int) returns (pass: bool)
      modifies this`zsets
      ensures uid.None? ==> pass && zsets == old(zsets)
      ensures uid.Some? ==>
                && UserKey(uid.value) == Slide(old(UserKey(uid.value)), r, window)
                && (!r.link.Down? ==>
                      var was, now_ := old(UserKey(uid.value)), UserKey(uid.value);
                      && now_.dies == r.at + window + 60_000
                      && (forall m :: m in now_.scores <==>
                            m == r.member || (r.at < was.dies && m in was.scores && was.scores[m] >= r.at - window))
                      && forall m :: m in now_.scores ==>
                           now_.scores[m] == if m == r.member then r.at else was.scores[m])
                && (r.link.Down? ==> UserKey(uid.value) == old(UserKey(uid.value)))
                && (pass <==> !r.link.Answered? || |UserKey(uid.value).scores| <= limit)
      ensures forall other :: uid != Some(other) ==> UserKey(other) == old(UserKey(other))
    {
      if uid.None? || r.link.Down? {
        return true;
      }
      var key := UserKey(uid.value);
      var scores := Prune(Alive(key, r.at), r.at - window);
      scores := scores[r.member := r.at];
      var card := |scores|;
      zsets := zsets[uid.value := ZSet(scores, r.at + window + SLACK)];
      pass := !r.link.Answered? || card <= limit;
    }

    /** RateLimitIP: INCR the minute's counter; the first hit of a minute sets the expiry. */
    method RateLimitIP(ip: int, h: Hit, limit: int) returns (pass: bool)
      modifies this`counters
      ensures IpKeys(ip) == Bump(old(IpKeys(ip)), h)
      ensures h.link.Down? ==> IpKeys(ip) == old(IpKeys(ip))
      ensures !h.link.Down? ==>
                var was, minute := old(IpKeys(ip)), h.at / 60_000;
                && minute in IpKeys(ip)
                && IpKeys(ip)[minute].n == 1 + if minute in was && (was[minute].forever || h.at < was[minute].dies)
                                               then was[minute].n else 0
      ensures h.link.Answered? && h.expireOk && IpKeys(ip)[h.at / 60_000].n == 1 ==>
                IpKeys(ip)[h.at / 60_000] == Counter(1, false, h.at + 90_000)
      ensures !h.link.Down? && IpKeys(ip)[h.at / 60_000].n > 1 ==>
                var before := CounterAt(old(IpKeys(ip)), h.at / 60_000, h.at);
                IpKeys(ip)[h.at / 60_000] == before.(n := before.n + 1)
      ensures pass <==> !h.link.Answered? || IpKeys(ip)[MinuteOf(h.at)].n <= limit
      ensures forall other :: other != ip ==> IpKeys(other) == old(IpKeys(other))
    {
      if h.link.Down? {
        return true;
      }
      var keys, minute := IpKeys(ip), MinuteOf(h.at);
      var c := CounterAt(keys, minute, h.at);
      c := c.(n := c.n + 1);
      if h.link.Unanswered? {
        counters := counters[ip := keys[minute := c]];
        return true;
      }
      if c.n == 1 && h.expireOk {
        c := Counter(c.n, false, h.at + KEEP);
      }
      counters := counters[ip := keys[minute := c]];
      pass := c.n <= limit;
    }
  }
}
