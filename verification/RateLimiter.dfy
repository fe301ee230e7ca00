/**
 The gateway's per-client token bucket with its forgetting cleanup pass. Tokens and times are
 reals; the clock never runs backwards.
 */
module RateLimiter {
  import opened Basics

  datatype Bucket = Bucket(tokens: real, lastSeen: real)

  type Buckets = map<string, Bucket>

  datatype Config = Config(rps: real, burst: real, stale: real)

  ghost predicate Sensible(cfg: Config)
  {
    cfg.rps >= 0.0 && cfg.stale >= 0.0
  }

  /** A full bucket lets at least one call through. */
  ghost predicate Usable(cfg: Config)
  {
    Sensible(cfg) && cfg.burst >= 1.0
  }

  // ----- one call, one cleanup -----

  /** Tokens that accrue over a time span. */
  function Gain(cfg: Config, span: real): real
  {
    span * cfg.rps
  }

  lemma GainAdds(cfg: Config, x: real, y: real)
    ensures Gain(cfg, x + y) == Gain(cfg, x) + Gain(cfg, y)
  {
  }

  lemma GainNothing(cfg: Config)
    ensures Gain(cfg, 0.0) == 0.0
  {
  }

  lemma GainNonNegative(cfg: Config, x: real)
    requires x >= 0.0 && cfg.rps >= 0.0
    ensures Gain(cfg, x) >= 0.0
  {
  }

  /** Any non-negative amount accrues after some time, unless nothing ever does. */
  lemma GainReaches(cfg: Config, amount: real) returns (span: real)
    requires cfg.rps > 0.0 && amount >= 0.0
    ensures span >= 0.0 && Gain(cfg, span) == amount && (amount > 0.0 ==> span > 0.0)
  {
    span := amount / cfg.rps;
    if span <= 0.0 {
      assert span * cfg.rps == amount;
      GainNonNegative(cfg, -span);
    }
  }

  /** Tokens of a bucket at time `now`, capped at the burst size. */
  function Refilled(cfg: Config, b: Bucket, now: real): real
  {
    var t := b.tokens + Gain(cfg, now - b.lastSeen);
    if t > cfg.burst then cfg.burst else t
  }

  /** A call of a client: its new bucket and the answer. An unknown client starts full. */
  function Take(cfg: Config, b: Option<Bucket>, now: real): (Bucket, bool)
  {
    if b.None? then (Bucket(cfg.burst - 1.0, now), true)
    else
      var t := Refilled(cfg, b.value, now);
      if t >= 1.0 then (Bucket(t - 1.0, now), true) else (Bucket(t, now), false)
  }

  function Find(m: Buckets, ip: string): Option<Bucket>
  {
    if ip in m then Some(m[ip]) else None
  }

  predicate IsStale(cfg: Config, b: Bucket, now: real)
  {
    b.lastSeen < now - cfg.stale
  }

  function Swept(cfg: Config, m: Buckets, now: real): Buckets
  {
    map ip | ip in m && !IsStale(cfg, m[ip], now) :: m[ip]
  }

  /** A bucket survives cleanup exactly if it was used within the stale span. */
  lemma KeptIff(cfg: Config, m: Buckets, now: real, ip: string)
    ensures ip in Swept(cfg, m, now) <==> ip in m && now - m[ip].lastSeen <= cfg.stale
    ensures ip in Swept(cfg, m, now) ==> Swept(cfg, m, now)[ip] == m[ip]
  {
  }

  class Limiter {
    const cfg: Config
    var buckets: Buckets

    constructor (rps: real, burst: real, stale: real)
      ensures cfg == Config(rps, burst, stale) && buckets == map[]
    {
      cfg := Config(rps, burst, stale);
      buckets := map[];
    }

    method Allow(ip: string, now: real) returns (ok: bool)
      modifies this
      ensures buckets == old(buckets)[ip := Take(cfg, Find(old(buckets), ip), now).0]
      ensures ok == Take(cfg, Find(old(buckets), ip), now).1
    {
      if ip !in buckets {
        buckets := buckets[ip := Bucket(cfg.burst - 1.0, now)];
        return true;
      }
      hide Gain;
      var tokens := buckets[ip].tokens + Gain(cfg, now - buckets[ip].lastSeen);
      if tokens > cfg.burst {
        tokens := cfg.burst;
      }
      if tokens >= 1.0 {
        buckets := buckets[ip := Bucket(tokens - 1.0, now)];
        return true;
      }
      buckets := buckets[ip := Bucket(tokens, now)];
      return false;
    }

    /** One cleanup pass: visits the entries in arbitrary order, deleting the stale ones. */
    method Cleanup(now: real)
      modifies this
      ensures buckets == Swept(cfg, old(buckets), now)
    {
      var pending := buckets.Keys;
      ghost var all := buckets;
      while pending != {}
        invariant pending <= all.Keys
        invariant buckets == map ip | ip in all && (ip in pending || !IsStale(cfg, all[ip], now)) :: all[ip]
      {
        var ip :| ip in pending;
        pending := pending - {ip};
        if IsStale(cfg, buckets[ip], now) {
          buckets := buckets - {ip};
        }
      }
    }
  }

  // ----- runs -----

  datatype Event = Call(ip: string, at: real) | Sweep(at: real)

  /** One event; `forget` says whether cleanup passes have an effect. */
  function Step(cfg: Config, m: Buckets, e: Event, forget: bool): Buckets
  {
    match e
    case Call(ip, now) => m[ip := Take(cfg, Find(m, ip), now).0]
    case Sweep(now) => if forget then Swept(cfg, m, now) else m
  }

  function After(cfg: Config, m: Buckets, es: seq<Event>, forget: bool): Buckets
    decreases |es|
  {
    if es == [] then m else After(cfg, Step(cfg, m, es[0], forget), es[1..], forget)
  }

  /** The answers given to the calls of a run, in order. */
  function Answers(cfg: Config, m: Buckets, es: seq<Event>, forget: bool): seq<bool>
    decreases |es|
  {
    if es == [] then []
    else
      (if es[0].Call? then [Take(cfg, Find(m, es[0].ip), es[0].at).1] else []) +
      Answers(cfg, Step(cfg, m, es[0], forget), es[1..], forget)
  }

  ghost predicate Ordered(es: seq<Event>)
  {
    forall i, j :: 0 <= i < j < |es| ==> es[i].at <= es[j].at
  }

  ghost predicate From(es: seq<Event>, t: real)
  {
    forall i :: 0 <= i < |es| ==> t <= es[i].at
  }

  // ----- cleanup is unobservable when an idle bucket has refilled by then -----

  /** `n` remembers everything; `m` has forgotten only buckets that have been idle long enough. */
  ghost predicate Simulates(cfg: Config, m: Buckets, n: Buckets, t: real)
  {
    && (forall ip :: ip in m ==> ip in n && m[ip] == n[ip])
    && (forall ip :: ip in n ==> 0.0 <= n[ip].tokens && n[ip].lastSeen <= t)
    && (forall ip :: ip in n && ip !in m ==> IsStale(cfg, n[ip], t))
  }

  lemma IdleIsFull(cfg: Config, b: Bucket, now: real)
    requires Usable(cfg) && Gain(cfg, cfg.stale) >= cfg.burst
    requires b.tokens >= 0.0 && IsStale(cfg, b, now)
    ensures Refilled(cfg, b, now) == cfg.burst
  {
    hide Gain;
    var extra := now - b.lastSeen - cfg.stale;
    GainAdds(cfg, cfg.stale, extra);
    GainNonNegative(cfg, extra);
  }

  lemma TokensStayNonNegative(cfg: Config, b: Option<Bucket>, now: real)
    requires Usable(cfg)
    requires b.Some? ==> b.value.tokens >= 0.0 && b.value.lastSeen <= now
    ensures 0.0 <= Take(cfg, b, now).0.tokens && Take(cfg, b, now).0.lastSeen == now
  {
    hide Gain;
    if b.Some? {
      GainNonNegative(cfg, now - b.value.lastSeen);
    }
  }

  lemma StepSimulates(cfg: Config, m: Buckets, n: Buckets, t: real, e: Event)
    requires Usable(cfg) && Gain(cfg, cfg.stale) >= cfg.burst
    requires Simulates(cfg, m, n, t) && t <= e.at
    ensures Simulates(cfg, Step(cfg, m, e, true), Step(cfg, n, e, false), e.at)
    ensures e.Call? ==> Take(cfg, Find(m, e.ip), e.at).1 == Take(cfg, Find(n, e.ip), e.at).1
  {
    if e.Call? {
      TokensStayNonNegative(cfg, Find(n, e.ip), e.at);
      if e.ip in n && e.ip !in m {
        IdleIsFull(cfg, n[e.ip], e.at);
      }
    }
  }

  lemma {:induction false} RunsAgree(cfg: Config, m: Buckets, n: Buckets, t: real, es: seq<Event>)
    requires Usable(cfg) && Gain(cfg, cfg.stale) >= cfg.burst
    requires Simulates(cfg, m, n, t) && Ordered(es) && From(es, t)
    ensures Answers(cfg, m, es, true) == Answers(cfg, n, es, false)
    decreases |es|
  {
    if es != [] {
      StepSimulates(cfg, m, n, t, es[0]);
      RunsAgree(cfg, Step(cfg, m, es[0], true), Step(cfg, n, es[0], false), es[0].at, es[1..]);
    }
  }

  // ----- the rate bound -----

  /** How many calls of `ip` are allowed in a run from `m`. */
  function Allowed(cfg: Config, m: Buckets, es: seq<Event>, ip: string, forget: bool): nat
    decreases |es|
  {
    if es == [] then 0
    else
      (if es[0].Call? && es[0].ip == ip && Take(cfg, Find(m, ip), es[0].at).1 then 1 else 0) +
      Allowed(cfg, Step(cfg, m, es[0], forget), es[1..], ip, forget)
  }

  /** Tokens the client could spend at time `t`. */
  ghost function Level(cfg: Config, m: Buckets, ip: string, t: real): real
  {
    if ip in m then Refilled(cfg, m[ip], t) else cfg.burst
  }

  ghost predicate Normal(cfg: Config, m: Buckets, t: real)
  {
    forall ip :: ip in m ==> 0.0 <= m[ip].tokens && m[ip].lastSeen <= t
  }

  lemma IsNormal(cfg: Config, m: Buckets, ip: string, t: real)
    requires Normal(cfg, m, t) && ip in m
    ensures 0.0 <= m[ip].tokens && m[ip].lastSeen <= t
  {
  }

  lemma StepNormal(cfg: Config, m: Buckets, e: Event, forget: bool, t: real)
    requires Usable(cfg) && Normal(cfg, m, t) && t <= e.at
    ensures Normal(cfg, Step(cfg, m, e, forget), e.at)
  {
    if e.Call? {
      TokensStayNonNegative(cfg, Find(m, e.ip), e.at);
    }
  }

  lemma LevelGrowsSlowly(cfg: Config, m: Buckets, ip: string, t: real, u: real)
    requires Usable(cfg) && t <= u
    ensures Level(cfg, m, ip, u) <= Level(cfg, m, ip, t) + Gain(cfg, u - t)
  {
    hide Gain;
    GainNonNegative(cfg, u - t);
    if ip in m {
      GainAdds(cfg, t - m[ip].lastSeen, u - t);
    }
  }

  lemma LevelIsNonNegative(cfg: Config, m: Buckets, ip: string, t: real)
    requires Usable(cfg) && Normal(cfg, m, t)
    ensures Level(cfg, m, ip, t) >= 0.0
  {
    hide Gain;
    if ip in m {
      GainNonNegative(cfg, t - m[ip].lastSeen);
    }
  }

  lemma RefilledNow(cfg: Config, b: Bucket)
    ensures b.tokens <= cfg.burst ==> Refilled(cfg, b, b.lastSeen) == b.tokens
  {
    GainNothing(cfg);
  }

  /** An event costs exactly one token of the client whose call it allows, and nothing else,
      unless it forgets a bucket of that client which is not full. */
  lemma LevelAfterStep(cfg: Config, m: Buckets, e: Event, ip: string, forget: bool)
    ensures Level(cfg, Step(cfg, m, e, forget), ip, e.at) ==
            Level(cfg, m, ip, e.at) - (if e.Call? && e.ip == ip && Take(cfg, Find(m, ip), e.at).1 then 1.0 else 0.0)
            <==> !(forget && e.Sweep? && ip in m && IsStale(cfg, m[ip], e.at) && Refilled(cfg, m[ip], e.at) < cfg.burst)
  {
    if e.Call? && e.ip == ip {
      var b := Take(cfg, Find(m, ip), e.at).0;
      RefilledNow(cfg, b);
    }
  }

  lemma {:induction false} SpendWithinLevel(cfg: Config, m: Buckets, es: seq<Event>, ip: string, forget: bool, t: real, end: real)
    requires Usable(cfg) && Normal(cfg, m, t) && t <= end
    requires forget ==> Gain(cfg, cfg.stale) >= cfg.burst
    requires Ordered(es) && From(es, t) && forall i :: 0 <= i < |es| ==> es[i].at <= end
    ensures Allowed(cfg, m, es, ip, forget) as real <= Level(cfg, m, ip, t) + Gain(cfg, end - t)
    decreases |es|
  {
    hide Level, Refilled, Step, Take, Normal, Gain;
    if es == [] {
      LevelIsNonNegative(cfg, m, ip, t);
      GainNonNegative(cfg, end - t);
    } else {
      var e := es[0];
      StepNormal(cfg, m, e, forget, t);
      SpendWithinLevel(cfg, Step(cfg, m, e, forget), es[1..], ip, forget, e.at, end);
      LevelAfterStep(cfg, m, e, ip, forget);
      if forget && e.Sweep? && ip in m && IsStale(cfg, m[ip], e.at) {
        IsNormal(cfg, m, ip, t);
        IdleIsFull(cfg, m[ip], e.at);
      }
      LevelGrowsSlowly(cfg, m, ip, t, e.at);
      GainAdds(cfg, end - e.at, e.at - t);
    }
  }

  lemma {:induction false} AfterNormal(cfg: Config, m: Buckets, es: seq<Event>, forget: bool, t: real, u: real)
    requires Usable(cfg) && Normal(cfg, m, t) && Ordered(es) && From(es, t) && t <= u
    requires forall i :: 0 <= i < |es| ==> es[i].at <= u
    ensures Normal(cfg, After(cfg, m, es, forget), u)
    decreases |es|
  {
    if es != [] {
      StepNormal(cfg, m, es[0], forget, t);
      AfterNormal(cfg, Step(cfg, m, es[0], forget), es[1..], forget, es[0].at, u);
    }
  }

  /** `window` follows `before` and lies between `start` and `end`. */
  ghost predicate IsWindow(before: seq<Event>, window: seq<Event>, start: real, end: real)
  {
    && Ordered(before + window) && start <= end
    && (forall i :: 0 <= i < |before| ==> before[i].at <= start)
    && (forall i :: 0 <= i < |window| ==> start <= window[i].at <= end)
  }

  ghost predicate WithinRate(cfg: Config, before: seq<Event>, window: seq<Event>, ip: string, forget: bool, start: real, end: real)
  {
    Allowed(cfg, After(cfg, map[], before, forget), window, ip, forget) as real <= cfg.burst + Gain(cfg, end - start)
  }

  /** In every run and every time span, one client is allowed at most burst + rps * span calls,
      whatever came before; with cleanup running, provided idle buckets refill before they are
      forgotten. */
  lemma RateBound(cfg: Config, before: seq<Event>, window: seq<Event>, ip: string, forget: bool, start: real, end: real)
    requires Usable(cfg) && (forget ==> Gain(cfg, cfg.stale) >= cfg.burst)
    requires IsWindow(before, window, start, end)
    ensures WithinRate(cfg, before, window, ip, forget, start, end)
  {
    assert Ordered(before) by {
      forall i, j | 0 <= i < j < |before| ensures before[i].at <= before[j].at {
        assert (before + window)[i].at <= (before + window)[j].at;
      }
    }
    assert Ordered(window) by {
      forall i, j | 0 <= i < j < |window| ensures window[i].at <= window[j].at {
        assert (before + window)[|before| + i].at <= (before + window)[|before| + j].at;
      }
    }
    var first := if before == [] then start else before[0].at;
    AfterNormal(cfg, map[], before, forget, first, start);
    var m := After(cfg, map[], before, forget);
    SpendWithinLevel(cfg, m, window, ip, forget, start, end);
  }

  // ----- cleanup is observable otherwise -----

  lemma {:induction false} AfterAppend(cfg: Config, m: Buckets, a: seq<Event>, b: seq<Event>, forget: bool)
    ensures After(cfg, m, a + b, forget) == After(cfg, After(cfg, m, a, forget), b, forget)
    ensures Answers(cfg, m, a + b, forget) == Answers(cfg, m, a, forget) + Answers(cfg, After(cfg, m, a, forget), b, forget)
    decreases |a|
  {
    hide Take, Step;
    if a == [] {
      assert a + b == b;
    } else {
      assert (a + b)[1..] == a[1..] + b;
      AfterAppend(cfg, Step(cfg, m, a[0], forget), a[1..], b, forget);
    }
  }

  lemma {:induction false} AllowedAppend(cfg: Config, m: Buckets, a: seq<Event>, b: seq<Event>, ip: string, forget: bool)
    ensures Allowed(cfg, m, a + b, ip, forget) == Allowed(cfg, m, a, ip, forget) + Allowed(cfg, After(cfg, m, a, forget), b, ip, forget)
    decreases |a|
  {
    hide Take, Step;
    if a == [] {
      assert a + b == b;
    } else {
      assert (a + b)[1..] == a[1..] + b;
      AllowedAppend(cfg, Step(cfg, m, a[0], forget), a[1..], b, ip, forget);
    }
  }

  /** Answers differ when the same last call is answered differently. */
  lemma LastDiffers(cfg: Config, p: seq<Event>, ip: string, t: real)
    requires Take(cfg, Find(After(cfg, map[], p, true), ip), t).1 != Take(cfg, Find(After(cfg, map[], p, false), ip), t).1
    ensures Answers(cfg, map[], p + [Call(ip, t)], true) != Answers(cfg, map[], p + [Call(ip, t)], false)
  {
    var q := [Call(ip, t)];
    AfterAppend(cfg, map[], p, q, true);
    AfterAppend(cfg, map[], p, q, false);
    var a, b := Answers(cfg, map[], p + q, true), Answers(cfg, map[], p + q, false);
    OneAnswer(cfg, After(cfg, map[], p, true), ip, t, true);
    OneAnswer(cfg, After(cfg, map[], p, false), ip, t, false);
    assert a[|a| - 1] != b[|b| - 1];
  }

  lemma OneAnswer(cfg: Config, m: Buckets, ip: string, t: real, forget: bool)
    ensures Answers(cfg, m, [Call(ip, t)], forget) == [Take(cfg, Find(m, ip), t).1]
  {
    assert [Call(ip, t)][1..] == [];
  }

  function Calls(ip: string, t: real, k: nat): (es: seq<Event>)
    ensures |es| == k && forall i :: 0 <= i < k ==> es[i] == Call(ip, t)
  {
    seq(k, _ => Call(ip, t))
  }

  /** Calls at one instant drain a bucket one token each. */
  lemma {:induction false} Drain(cfg: Config, m: Buckets, ip: string, t: real, k: nat, forget: bool)
    requires ip in m && m[ip].lastSeen == t && k as real <= m[ip].tokens <= cfg.burst
    ensures After(cfg, m, Calls(ip, t, k), forget) == m[ip := Bucket(m[ip].tokens - k as real, t)]
    ensures Allowed(cfg, m, Calls(ip, t, k), ip, forget) == k
    decreases k
  {
    hide Gain, Refilled;
    if k == 0 {
      assert m[ip := m[ip]] == m;
    } else {
      RefilledNow(cfg, m[ip]);
      FirstCall(cfg, m, ip, t, k, forget);
      assert (k - 1) as real == k as real - 1.0;
      Drain(cfg, m[ip := Bucket(m[ip].tokens - 1.0, t)], ip, t, k - 1, forget);
    }
  }

  lemma FirstCall(cfg: Config, m: Buckets, ip: string, t: real, k: nat, forget: bool)
    requires k >= 1 && Take(cfg, Find(m, ip), t).1
    ensures var m' := m[ip := Take(cfg, Find(m, ip), t).0];
            && After(cfg, m, Calls(ip, t, k), forget) == After(cfg, m', Calls(ip, t, k - 1), forget)
            && Allowed(cfg, m, Calls(ip, t, k), ip, forget) == 1 + Allowed(cfg, m', Calls(ip, t, k - 1), ip, forget)
  {
    hide Take;
    assert Calls(ip, t, k)[1..] == Calls(ip, t, k - 1);
  }

  lemma TakeFromLevel(cfg: Config, m: Buckets, ip: string, t: real)
    requires Level(cfg, m, ip, t) >= 1.0
    ensures Level(cfg, m, ip, t) <= cfg.burst
    ensures Take(cfg, Find(m, ip), t) == (Bucket(Level(cfg, m, ip, t) - 1.0, t), true)
  {
  }

  /** The same from a bucket last seen earlier, or from no bucket at all. */
  lemma DrainFrom(cfg: Config, m: Buckets, ip: string, t: real, k: nat, forget: bool)
    requires k >= 1 && k as real <= Level(cfg, m, ip, t) && cfg.burst >= 1.0
    ensures After(cfg, m, Calls(ip, t, k), forget) == m[ip := Bucket(Level(cfg, m, ip, t) - k as real, t)]
    ensures Allowed(cfg, m, Calls(ip, t, k), ip, forget) == k
  {
    hide Level, Take, Calls;
    TakeFromLevel(cfg, m, ip, t);
    FirstCall(cfg, m, ip, t, k, forget);
    assert (k - 1) as real == k as real - 1.0;
    Drain(cfg, m[ip := Bucket(Level(cfg, m, ip, t) - 1.0, t)], ip, t, k - 1, forget);
  }

  const CLIENT := "client"

  /** `p` drains the client's bucket to `tokens` at time `t`, wasting none: what it was allowed is
      the burst and the accrual, less what is left. */
  ghost predicate Drains(cfg: Config, p: seq<Event>, tokens: real, t: real)
  {
    && UpTo(p, t) && From(p, 0.0) && t >= 0.0
    && forall forget ::
         && After(cfg, map[], p, forget) == map[CLIENT := Bucket(tokens, t)]
         && Allowed(cfg, map[], p, CLIENT, forget) as real == cfg.burst + Gain(cfg, t) - tokens
  }

  /** When idle buckets are forgotten before they can be full again, some bucket can be drained
      so far that this matters. */
  lemma DrainedTrace(cfg: Config) returns (p: seq<Event>, tokens: real, t: real)
    requires Usable(cfg) && Gain(cfg, cfg.stale) < cfg.burst
    ensures Drains(cfg, p, tokens, t)
    ensures 0.0 <= tokens < 1.0 && tokens + Gain(cfg, cfg.stale) < cfg.burst
  {
    hide Gain, Drains;
    p, tokens := DrainAtOnce(cfg);
    t := 0.0;
    if tokens + Gain(cfg, cfg.stale) >= cfg.burst {
      NoGain(cfg);
      p, t := DrainLast(cfg, p, tokens);
      tokens := 0.0;
    }
  }

  lemma DrainAtOnce(cfg: Config) returns (p: seq<Event>, tokens: real)
    requires Usable(cfg)
    ensures Drains(cfg, p, tokens, 0.0) && 0.0 <= tokens < 1.0
  {
    hide Gain;
    var n := cfg.burst.Floor;
    tokens := cfg.burst - n as real;
    p := Calls(CLIENT, 0.0, n);
    GainNothing(cfg);
    forall forget
      ensures After(cfg, map[], p, forget) == map[CLIENT := Bucket(tokens, 0.0)]
      ensures Allowed(cfg, map[], p, CLIENT, forget) == n
    {
      DrainFrom(cfg, map[], CLIENT, 0.0, n, forget);
    }
  }

  lemma DrainLast(cfg: Config, p: seq<Event>, tokens: real) returns (q: seq<Event>, t: real)
    requires Usable(cfg) && cfg.rps > 0.0 && Drains(cfg, p, tokens, 0.0) && 0.0 <= tokens < 1.0
    ensures Drains(cfg, q, 0.0, t)
  {
    hide Gain;
    t := GainReaches(cfg, 1.0 - tokens);
    GainNothing(cfg);
    var b := Bucket(tokens, 0.0);
    assert t - 0.0 == t;
    assert Refilled(cfg, b, t) == 1.0;
    q := p + [Call(CLIENT, t)];
    ExtendOrdered(p, 0.0, [Call(CLIENT, t)], t);
    forall forget
      ensures After(cfg, map[], q, forget) == map[CLIENT := Bucket(0.0, t)]
      ensures Allowed(cfg, map[], q, CLIENT, forget) == Allowed(cfg, map[], p, CLIENT, forget) + 1
    {
      AfterAppend(cfg, map[], p, [Call(CLIENT, t)], forget);
      AllowedAppend(cfg, map[], p, [Call(CLIENT, t)], CLIENT, forget);
      OneCall(cfg, map[CLIENT := b], CLIENT, t, forget);
    }
  }

  lemma NoGain(cfg: Config)
    ensures cfg.rps == 0.0 ==> forall span :: Gain(cfg, span) == 0.0
  {
  }

  lemma OneCall(cfg: Config, m: Buckets, ip: string, t: real, forget: bool)
    ensures After(cfg, m, [Call(ip, t)], forget) == m[ip := Take(cfg, Find(m, ip), t).0]
    ensures Allowed(cfg, m, [Call(ip, t)], ip, forget) == if Take(cfg, Find(m, ip), t).1 then 1 else 0
  {
    hide Take;
    assert [Call(ip, t)][1..] == [];
  }

  /** A cleanup time at which the bucket is already stale but not yet full again. */
  lemma SweepTime(cfg: Config, tokens: real, t: real) returns (u: real)
    requires Usable(cfg) && 0.0 <= tokens < 1.0 && tokens + Gain(cfg, cfg.stale) < cfg.burst
    ensures t <= u && IsStale(cfg, Bucket(tokens, t), u)
    ensures 0.0 <= Refilled(cfg, Bucket(tokens, t), u) < cfg.burst
    ensures cfg.rps == 0.0 ==> Refilled(cfg, Bucket(tokens, t), u) < 1.0
  {
    hide Gain;
    NoGain(cfg);
    var wait := 1.0;
    if cfg.rps > 0.0 {
      wait := GainReaches(cfg, (cfg.burst - tokens - Gain(cfg, cfg.stale)) / 2.0);
    }
    u := t + cfg.stale + wait;
    assert u - t == cfg.stale + wait;
    GainAdds(cfg, cfg.stale, wait);
    GainNonNegative(cfg, u - t);
  }

  /** A time at which a bucket with `y` tokens answers yes and one with `x < y` answers no,
      once both have been drained by the whole part of `x`. */
  lemma DifferAt(cfg: Config, x: real, y: real, u: real) returns (v: real)
    requires Usable(cfg) && x < y <= cfg.burst && x < 1.0 && (y < 1.0 ==> cfg.rps > 0.0)
    ensures u <= v
    ensures Take(cfg, Some(Bucket(y, u)), v).1 && !Take(cfg, Some(Bucket(x, u)), v).1
  {
    hide Gain;
    if y >= 1.0 {
      v := u;
      RefilledNow(cfg, Bucket(x, u));
      RefilledNow(cfg, Bucket(y, u));
    } else {
      var wait := GainReaches(cfg, 1.0 - y);
      v := u + wait;
      assert v - u == wait;
    }
  }

  ghost predicate UpTo(es: seq<Event>, t: real)
  {
    Ordered(es) && forall i :: 0 <= i < |es| ==> es[i].at <= t
  }

  lemma ExtendOrdered(a: seq<Event>, t: real, b: seq<Event>, u: real)
    requires UpTo(a, t) && t <= u && forall i :: 0 <= i < |b| ==> b[i].at == u
    ensures UpTo(a + b, u)
  {
  }

  /** A run in which forgetting changes an answer. */
  lemma ForgettingShows(cfg: Config) returns (es: seq<Event>)
    requires Usable(cfg) && Gain(cfg, cfg.stale) < cfg.burst
    ensures Ordered(es) && Answers(cfg, map[], es, true) != Answers(cfg, map[], es, false)
  {
    var p, tokens, t := DrainedTrace(cfg);
    var u := SweepTime(cfg, tokens, t);
    var b := Bucket(tokens, t);
    var x := Refilled(cfg, b, u);
    var k := x.Floor;
    var q := p + [Sweep(u)];
    var r := q + Calls(CLIENT, u, k);
    ExtendOrdered(p, t, [Sweep(u)], u);
    ExtendOrdered(q, u, Calls(CLIENT, u, k), u);
    var forgot, kept := After(cfg, map[], r, true), After(cfg, map[], r, false);
    SweptOrKept(cfg, p, b, u);
    AfterAppend(cfg, map[], q, Calls(CLIENT, u, k), true);
    AfterAppend(cfg, map[], q, Calls(CLIENT, u, k), false);
    var v;
    if k == 0 {
      v := u;
      assert forgot == map[] && kept == map[CLIENT := b];
    } else {
      DrainFrom(cfg, map[], CLIENT, u, k, true);
      DrainFrom(cfg, map[CLIENT := b], CLIENT, u, k, false);
      v := DifferAt(cfg, x - k as real, cfg.burst - k as real, u);
    }
    LastDiffers(cfg, r, CLIENT, v);
    ExtendOrdered(r, u, [Call(CLIENT, v)], v);
    es := r + [Call(CLIENT, v)];
  }

  lemma SweptOrKept(cfg: Config, p: seq<Event>, b: Bucket, u: real)
    requires forall forget :: After(cfg, map[], p, forget) == map[CLIENT := b]
    requires IsStale(cfg, b, u)
    ensures After(cfg, map[], p + [Sweep(u)], true) == map[]
    ensures After(cfg, map[], p + [Sweep(u)], false) == map[CLIENT := b]
    ensures Allowed(cfg, map[], p + [Sweep(u)], CLIENT, true) == Allowed(cfg, map[], p, CLIENT, true)
  {
    var q := [Sweep(u)];
    AfterAppend(cfg, map[], p, q, true);
    AfterAppend(cfg, map[], p, q, false);
    AllowedAppend(cfg, map[], p, q, CLIENT, true);
    assert q[1..] == [];
    assert Swept(cfg, map[CLIENT := b], u) == map[];
  }

  /** With a burst below one, a client is let through once, and again whenever it is forgotten. */
  lemma NeverFull(cfg: Config) returns (es: seq<Event>)
    requires Sensible(cfg) && cfg.burst < 1.0
    ensures Ordered(es) && Answers(cfg, map[], es, true) != Answers(cfg, map[], es, false)
  {
    hide Gain;
    var p, b, u := [Call(CLIENT, 0.0)], Bucket(cfg.burst - 1.0, 0.0), cfg.stale + 1.0;
    forall forget ensures After(cfg, map[], p, forget) == map[CLIENT := b] {
      OneCall(cfg, map[], CLIENT, 0.0, forget);
    }
    SweptOrKept(cfg, p, b, u);
    var q := p + [Sweep(u)];
    LastDiffers(cfg, q, CLIENT, u);
    es := q + [Call(CLIENT, u)];
  }

  /** Cleanup is unobservable, on every run, exactly when a full bucket lets a call through and an
      idle bucket refills completely before it may be forgotten. */
  lemma CleanupUnobservableIff(cfg: Config)
    requires Sensible(cfg)
    ensures (forall es: seq<Event> :: Ordered(es) ==> Answers(cfg, map[], es, true) == Answers(cfg, map[], es, false))
            <==> cfg.burst >= 1.0 && Gain(cfg, cfg.stale) >= cfg.burst
  {
    hide Gain;
    if cfg.burst < 1.0 {
      var es := NeverFull(cfg);
    } else if Gain(cfg, cfg.stale) < cfg.burst {
      var es := ForgettingShows(cfg);
    } else {
      forall es: seq<Event> | Ordered(es) ensures Answers(cfg, map[], es, true) == Answers(cfg, map[], es, false) {
        RunsAgree(cfg, map[], map[], if es == [] then 0.0 else es[0].at, es);
      }
    }
  }

  // ----- when the rate bound holds -----

  ghost predicate BoundedRate(cfg: Config, forget: bool)
  {
    forall before, window, ip, start, end ::
      IsWindow(before, window, start, end) ==> WithinRate(cfg, before, window, ip, forget, start, end)
  }

  lemma ExceedsFromStart(cfg: Config, window: seq<Event>, forget: bool, end: real)
    requires UpTo(window, end) && From(window, 0.0) && end >= 0.0
    requires Allowed(cfg, map[], window, CLIENT, forget) as real > cfg.burst + Gain(cfg, end)
    ensures !BoundedRate(cfg, forget)
  {
    hide Gain;
    var none: seq<Event> := [];
    assert none + window == window && end - 0.0 == end;
    assert After(cfg, map[], none, forget) == map[];
    assert IsWindow(none, window, 0.0, end);
    assert !WithinRate(cfg, none, window, CLIENT, forget, 0.0, end);
  }

  /** A drained bucket that is forgotten too early lets the client spend its burst again. */
  lemma SpentTwice(cfg: Config)
    requires Usable(cfg) && Gain(cfg, cfg.stale) < cfg.burst
    ensures !BoundedRate(cfg, true)
  {
    hide Gain, BoundedRate, Refilled;
    var p, tokens, t := DrainedTrace(cfg);
    var u := SweepTime(cfg, tokens, t);
    var n := cfg.burst.Floor;
    var q := p + [Sweep(u)];
    var r := q + Calls(CLIENT, u, n);
    ExtendOrdered(p, t, [Sweep(u)], u);
    ExtendOrdered(q, u, Calls(CLIENT, u, n), u);
    SweptOrKept(cfg, p, Bucket(tokens, t), u);
    DrainFrom(cfg, map[], CLIENT, u, n, true);
    AfterAppend(cfg, map[], q, Calls(CLIENT, u, n), true);
    AllowedAppend(cfg, map[], q, Calls(CLIENT, u, n), CLIENT, true);
    BelowBurst(cfg, tokens, t, u);
    assert Gain(cfg, u) == Gain(cfg, t) + Gain(cfg, u - t) by {
      GainAdds(cfg, t, u - t);
      assert t + (u - t) == u;
    }
    if cfg.rps == 0.0 {
      NoGain(cfg);
      ExceedsFromStart(cfg, r, true, u);
    } else {
      OneMoreCall(cfg, r, cfg.burst - n as real, u);
    }
  }

  lemma BelowBurst(cfg: Config, tokens: real, t: real, u: real)
    requires Refilled(cfg, Bucket(tokens, t), u) < cfg.burst
    ensures tokens + Gain(cfg, u - t) < cfg.burst
  {
  }

  /** Waiting for the next whole token makes up for the fraction of the burst. */
  lemma OneMoreCall(cfg: Config, r: seq<Event>, rest: real, u: real)
    requires Usable(cfg) && cfg.rps > 0.0 && 0.0 <= rest < 1.0 && UpTo(r, u) && From(r, 0.0) && u >= 0.0
    requires After(cfg, map[], r, true) == map[CLIENT := Bucket(rest, u)]
    requires Allowed(cfg, map[], r, CLIENT, true) as real > cfg.burst + Gain(cfg, u) - rest
    ensures !BoundedRate(cfg, true)
  {
    hide Gain, BoundedRate;
    var wait := GainReaches(cfg, 1.0 - rest);
    var v := u + wait;
    GainAdds(cfg, u, wait);
    assert v - u == wait;
    assert Refilled(cfg, Bucket(rest, u), v) == 1.0;
    ExtendOrdered(r, u, [Call(CLIENT, v)], v);
    AllowedAppend(cfg, map[], r, [Call(CLIENT, v)], CLIENT, true);
    OneCall(cfg, map[CLIENT := Bucket(rest, u)], CLIENT, v, true);
    ExceedsFromStart(cfg, r + [Call(CLIENT, v)], true, v);
  }

  /** In every window of every run one client is allowed at most burst + rps * span calls, exactly
      when the burst lets one call through and cleanup, if it runs, forgets full buckets only. */
  lemma RateBoundIff(cfg: Config, forget: bool)
    requires Sensible(cfg)
    ensures BoundedRate(cfg, forget) <==> cfg.burst >= 1.0 && (forget ==> Gain(cfg, cfg.stale) >= cfg.burst)
  {
    hide Gain, IsWindow, WithinRate;
    if cfg.burst < 1.0 {
      FirstCallExceeds(cfg, forget);
    } else if forget && Gain(cfg, cfg.stale) < cfg.burst {
      SpentTwice(cfg);
    } else {
      forall before, window, ip, start, end | IsWindow(before, window, start, end)
        ensures WithinRate(cfg, before, window, ip, forget, start, end)
      {
        RateBound(cfg, before, window, ip, forget, start, end);
      }
    }
  }

  lemma FirstCallExceeds(cfg: Config, forget: bool)
    requires cfg.burst < 1.0
    ensures !BoundedRate(cfg, forget)
  {
    hide Gain, BoundedRate;
    GainNothing(cfg);
    OneCall(cfg, map[], CLIENT, 0.0, forget);
    ExceedsFromStart(cfg, [Call(CLIENT, 0.0)], forget, 0.0);
  }

  // ----- nobody who keeps to the rate is refused -----

  /** A call is let through exactly when its client has a token to spend, or is not known. */
  lemma AllowedIffToken(cfg: Config, m: Buckets, ip: string, now: real)
    ensures Take(cfg, Find(m, ip), now).1 <==> ip !in m || Level(cfg, m, ip, now) >= 1.0
  {
  }

  /** The calls of `ip` are far enough apart for a whole token to accrue between any two, the last
      of those before the run having been at `t`. */
  ghost predicate Paced(cfg: Config, es: seq<Event>, ip: string, t: real)
    decreases |es|
  {
    es == [] ||
    if es[0].Call? && es[0].ip == ip then Gain(cfg, es[0].at - t) >= 1.0 && Paced(cfg, es[1..], ip, es[0].at)
    else Paced(cfg, es[1..], ip, t)
  }

  /** The client's bucket, if it has one, was last touched at `t` and is not overdrawn. */
  ghost predicate Settled(m: Buckets, ip: string, t: real)
  {
    ip in m ==> m[ip].lastSeen == t && m[ip].tokens >= 0.0
  }

  /** Calls of the client in a run. */
  function CallsOf(es: seq<Event>, ip: string): nat
  {
    if es == [] then 0 else (if es[0].Call? && es[0].ip == ip then 1 else 0) + CallsOf(es[1..], ip)
  }

  lemma PacedCall(cfg: Config, m: Buckets, ip: string, t: real, now: real)
    requires Usable(cfg) && Settled(m, ip, t) && Gain(cfg, now - t) >= 1.0
    ensures Take(cfg, Find(m, ip), now).1
    ensures Settled(m[ip := Take(cfg, Find(m, ip), now).0], ip, now)
  {
    hide Gain;
  }

  /** A client that keeps to the rate is never refused, whatever others do and however often
      buckets are forgotten. */
  lemma {:induction false} PacedIsNeverRefused(cfg: Config, m: Buckets, es: seq<Event>, ip: string, forget: bool, t: real)
    requires Usable(cfg) && Settled(m, ip, t) && Paced(cfg, es, ip, t)
    ensures Allowed(cfg, m, es, ip, forget) == CallsOf(es, ip)
    decreases |es|
  {
    hide Take, Gain;
    if es != [] {
      var e, next := es[0], Step(cfg, m, es[0], forget);
      if e.Call? && e.ip == ip {
        PacedCall(cfg, m, ip, t, e.at);
        PacedIsNeverRefused(cfg, next, es[1..], ip, forget, e.at);
      } else {
        PacedIsNeverRefused(cfg, next, es[1..], ip, forget, t);
      }
    }
  }
}
