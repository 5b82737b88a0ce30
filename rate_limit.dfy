/**
 * The fixed-window rate limiter (src/middleware/rate-limit.js). One store,
 * shared by every limiter of the process, maps a window (the limiter's
 * name and the index of the window of time) to a bucket of per-client
 * counters. Opening a window prunes the windows of the same name that
 * started more than three windows ago.
 */
module RateLimit {
  import opened Common

  type Time = int

  /** The `${name}:${index}` key of a window. */
  datatype WindowKey = WindowKey(name: string, index: int)

  /** A client's counter in one window and the time the window ends. */
  datatype Rec = Rec(count: nat, reset: Time)

  type Stores = map<WindowKey, map<string, Rec>>

  /** What check returns, the three x-ratelimit headers as numbers. */
  datatype RateResult = RateResult(ok: bool, remaining: nat, reset: Time,
                                   limitHeader: int, remainingHeader: nat, resetHeader: int)

  /** The first comma-separated entry of a header. */
  function FirstEntry(s: string): (r: string)
    ensures |r| <= |s| && r == s[..|r|]
    ensures !Contains(r, ',')
    ensures |r| < |s| ==> s[|r|] == ','
  {
    match IndexOf(s, ',')
    case None => s
    case Some(k) => s[..k]
  }

  /**
   * getClientIp: the first x-forwarded-for entry, trimmed, else
   * cf-connecting-ip, else x-real-ip, else 'unknown'. A missing header is
   * the empty string.
   */
  function ClientIp(xff: string, cf: string, xr: string): (ip: string)
    ensures !Blank(FirstEntry(xff)) ==> ip == Trim(FirstEntry(xff))
    ensures Blank(FirstEntry(xff)) && cf != "" ==> ip == cf
    ensures Blank(FirstEntry(xff)) && cf == "" && xr != "" ==> ip == xr
    ensures Blank(FirstEntry(xff)) && cf == "" && xr == "" ==> ip == "unknown"
  {
    BlankIffTrimsToEmpty(FirstEntry(xff));
    var first := if xff != "" then Trim(FirstEntry(xff)) else "";
    if first != "" then first
    else if cf != "" then cf
    else if xr != "" then xr
    else "unknown"
  }

  /** Math.floor(now / windowMs): the window the instant falls in. */
  function WindowIndex(now: Time, windowMs: int): (idx: int)
    requires windowMs > 0
    ensures idx * windowMs <= now < (idx + 1) * windowMs
  {
    now / windowMs
  }

  /** Math.ceil(ms / 1000). */
  function CeilSeconds(ms: int): (s: int)
    ensures 1000 * (s - 1) < ms <= 1000 * s
  {
    -((-ms) / 1000)
  }

  /** A window of this limiter that started more than three windows before now. */
  predicate Stale(k: WindowKey, name: string, windowMs: int, now: Time)
  {
    k.name == name && now - k.index * windowMs > windowMs * 3
  }

  /** The store with the stale windows of this limiter removed. */
  function Pruned(s: Stores, name: string, windowMs: int, now: Time): (r: Stores)
    ensures forall k :: k in r <==> k in s && !Stale(k, name, windowMs, now)
    ensures forall k :: k in r ==> r[k] == s[k]
  {
    map k | k in s && !Stale(k, name, windowMs, now) :: s[k]
  }

  /** A client's count in a window; none yet is 0. */
  function Count(s: Stores, key: WindowKey, ip: string): nat
  {
    if key in s && ip in s[key] then s[key][ip].count else 0
  }

  /** The store after one check: the window opened (and the old ones pruned) if new, the counter raised. */
  function Next(s: Stores, name: string, windowMs: int, ip: string, now: Time): Stores
    requires windowMs > 0
  {
    var key := WindowKey(name, WindowIndex(now, windowMs));
    var live := if key in s then s else Pruned(s[key := map[]], name, windowMs, now);
    var bucket := if key in live then live[key] else map[];
    var rec := if ip in bucket then bucket[ip] else Rec(0, (key.index + 1) * windowMs);
    live[key := bucket[ip := rec.(count := rec.count + 1)]]
  }

  /** Each check raises the client's counter in the current window by exactly one. */
  lemma NextCounts(s: Stores, name: string, windowMs: int, ip: string, now: Time)
    requires windowMs > 0
    ensures Count(Next(s, name, windowMs, ip, now), WindowKey(name, WindowIndex(now, windowMs)), ip) ==
      Count(s, WindowKey(name, WindowIndex(now, windowMs)), ip) + 1
  {
    var key := WindowKey(name, WindowIndex(now, windowMs));
    assert !Stale(key, name, windowMs, now);
  }

  /** Windows of other limiters are never touched, and those of this limiter only by pruning. */
  lemma NextKeepsOthers(s: Stores, name: string, windowMs: int, ip: string, now: Time, k: WindowKey)
    requires windowMs > 0
    requires k in s && k != WindowKey(name, WindowIndex(now, windowMs))
    ensures k.name != name ==> k in Next(s, name, windowMs, ip, now) && Next(s, name, windowMs, ip, now)[k] == s[k]
    ensures k in Next(s, name, windowMs, ip, now) ==> Next(s, name, windowMs, ip, now)[k] == s[k]
    ensures k !in Next(s, name, windowMs, ip, now) <==>
      WindowKey(name, WindowIndex(now, windowMs)) !in s && Stale(k, name, windowMs, now)
  {
  }

  /** The store after n checks by the same client within one window. */
  function Repeat(s: Stores, name: string, windowMs: int, ip: string, now: Time, n: nat): Stores
    requires windowMs > 0
  {
    if n == 0 then s else Next(Repeat(s, name, windowMs, ip, now, n - 1), name, windowMs, ip, now)
  }

  /**
   * n checks in one window leave the client's count n above where it was:
   * starting from a fresh window, the k-th request sees count k, so exactly
   * max of them pass.
   */
  lemma {:induction false} RepeatCounts(s: Stores, name: string, windowMs: int, ip: string, now: Time, n: nat)
    requires windowMs > 0
    ensures Count(Repeat(s, name, windowMs, ip, now, n), WindowKey(name, WindowIndex(now, windowMs)), ip) ==
      Count(s, WindowKey(name, WindowIndex(now, windowMs)), ip) + n
  {
    if n > 0 {
      RepeatCounts(s, name, windowMs, ip, now, n - 1);
      NextCounts(Repeat(s, name, windowMs, ip, now, n - 1), name, windowMs, ip, now);
    }
  }

  /** Every counter of a limiter's windows resets at the end of its window. */
  predicate ResetsAtWindowEnd(s: Stores, name: string, windowMs: int)
  {
    forall k, ip :: k in s && k.name == name && ip in s[k] ==> s[k][ip].reset == (k.index + 1) * windowMs
  }

  lemma NextKeepsResets(s: Stores, name: string, windowMs: int, ip: string, now: Time)
    requires windowMs > 0
    requires ResetsAtWindowEnd(s, name, windowMs)
    ensures ResetsAtWindowEnd(Next(s, name, windowMs, ip, now), name, windowMs)
  {
  }

  class Limiter {
    /** The module-level `stores` Map. */
    var stores: Stores

    constructor()
      ensures stores == map[]
    {
      stores := map[];
    }

    /** check(request) of rateLimit({ windowMs, max, name }) for the client ip at time now. */
    method Check(name: string, windowMs: int, max: int, ip: string, now: Time) returns (res: RateResult)
      requires windowMs > 0
      modifies this
      ensures stores == Next(old(stores), name, windowMs, ip, now)
      ensures var key := WindowKey(name, WindowIndex(now, windowMs));
        key in stores && ip in stores[key] &&
        stores[key][ip].count == Count(old(stores), key, ip) + 1 &&
        (res.ok <==> stores[key][ip].count <= max) &&
        res.remaining == (if max - stores[key][ip].count > 0 then max - stores[key][ip].count else 0) &&
        res.reset == stores[key][ip].reset &&
        (key in old(stores) && ip in old(stores)[key] ==> res.reset == old(stores)[key][ip].reset) &&
        (ResetsAtWindowEnd(old(stores), name, windowMs) ==> res.reset == (key.index + 1) * windowMs)
      ensures res.limitHeader == max && res.remainingHeader == res.remaining && res.resetHeader == CeilSeconds(res.reset)
    {
      var key := WindowKey(name, WindowIndex(now, windowMs));
      var s := stores;
      if key !in s {
        s := s[key := map[]];
        ghost var start := s;
        var todo := s.Keys;
        while todo != {}
          invariant todo <= start.Keys
          invariant forall k :: k in s <==> k in start && (k in todo || !Stale(k, name, windowMs, now))
          invariant forall k :: k in s ==> s[k] == start[k]
          decreases todo
        {
          var k :| k in todo;
          if k.name == name && now - k.index * windowMs > windowMs * 3 {
            s := s - {k};
          }
          todo := todo - {k};
        }
        assert s == Pruned(start, name, windowMs, now);
      }
      assert !Stale(key, name, windowMs, now);
      var bucket := s[key];
      var rec := if ip in bucket then bucket[ip] else Rec(0, (key.index + 1) * windowMs);
      rec := rec.(count := rec.count + 1);
      stores := s[key := bucket[ip := rec]];
      var remaining := if max - rec.count > 0 then max - rec.count else 0;
      res := RateResult(rec.count <= max, remaining, rec.reset, max, remaining, CeilSeconds(rec.reset));
    }
  }
}
