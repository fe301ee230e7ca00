/**
 The provider circuit breaker. The reference reads the outcomes recorded since the breaker
 last changed state; times are integers.
 */
module Breaker {

  datatype State = Closed | Open | HalfOpen

  datatype Config = Config(failThreshold: int, recoverThreshold: int, openDuration: int)

  function FailThreshold(cfg: Config): (n: int)
    ensures n > 0
  {
    if cfg.failThreshold > 0 then cfg.failThreshold else 3
  }

  function RecoverThreshold(cfg: Config): (n: int)
    ensures n > 0
  {
    if cfg.recoverThreshold > 0 then cfg.recoverThreshold else 2
  }

  /** In nanoseconds; thirty seconds by default. */
  function OpenDuration(cfg: Config): (d: int)
    ensures d > 0
  {
    if cfg.openDuration > 0 then cfg.openDuration else 30_000_000_000
  }

  datatype Status = Status(state: State, failCount: int, successCount: int, openedAt: int, successes: nat, failures: nat)

  const INITIAL := Status(Closed, 0, 0, 0, 0, 0)

  // ----- the breaker -----

  function MaybeHalfOpen(cfg: Config, s: Status, now: int): Status
  {
    if s.state == Open && now - s.openedAt >= OpenDuration(cfg) then s.(state := HalfOpen, successCount := 0) else s
  }

  function Recorded(cfg: Config, s: Status, success: bool, now: int): Status
  {
    if success then
      var t := s.(successes := s.successes + 1);
      match s.state
      case Closed => t.(failCount := 0)
      case HalfOpen =>
        if s.successCount + 1 >= RecoverThreshold(cfg) then t.(state := Closed, failCount := 0, successCount := 0)
        else t.(successCount := s.successCount + 1)
      case Open => t
    else
      var t := s.(failures := s.failures + 1);
      match s.state
      case Closed =>
        if s.failCount + 1 >= FailThreshold(cfg) then t.(state := Open, openedAt := now, failCount := 0)
        else t.(failCount := s.failCount + 1)
      case HalfOpen => t.(state := Open, openedAt := now, successCount := 0)
      case Open => t
  }

  class CircuitBreaker {
    const cfg: Config
    var state: State
    var failCount: int
    var successCount: int
    var openedAt: int
    var probeSuccesses: nat
    var probeFailures: nat

    ghost function View(): Status
      reads this
    {
      Status(state, failCount, successCount, openedAt, probeSuccesses, probeFailures)
    }

    constructor (cfg: Config)
      ensures this.cfg == cfg && View() == INITIAL
    {
      this.cfg := cfg;
      state := Closed;
      failCount, successCount, openedAt := 0, 0, 0;
      probeSuccesses, probeFailures := 0, 0;
    }

    method Allow(now: int) returns (ok: bool)
      modifies this
      ensures View() == MaybeHalfOpen(cfg, old(View()), now)
      ensures ok == (state != Open)
    {
      if state == Open && now - openedAt >= OpenDuration(cfg) {
        state := HalfOpen;
        successCount := 0;
      }
      ok := state != Open;
    }

    method Record(success: bool, now: int)
      modifies this
      ensures View() == Recorded(cfg, old(View()), success, now)
    {
      if success {
        probeSuccesses := probeSuccesses + 1;
        if state == Closed {
          failCount := 0;
        } else if state == HalfOpen {
          successCount := successCount + 1;
          if successCount >= RecoverThreshold(cfg) {
            state := Closed;
            failCount := 0;
            successCount := 0;
          }
        }
      } else {
        probeFailures := probeFailures + 1;
        if state == Closed {
          failCount := failCount + 1;
          if failCount >= FailThreshold(cfg) {
            openedAt := now;
            state := Open;
            failCount := 0;
          }
        } else if state == HalfOpen {
          openedAt := now;
          state := Open;
          successCount := 0;
        }
      }
    }
  }

  // ----- traces -----

  datatype Event = Probe(success: bool, at: int) | Ask(at: int)

  function Step(cfg: Config, s: Status, e: Event): Status
  {
    match e
    case Probe(ok, at) => Recorded(cfg, s, ok, at)
    case Ask(at) => MaybeHalfOpen(cfg, s, at)
  }

  function After(cfg: Config, es: seq<Event>): Status
  {
    if es == [] then INITIAL else Step(cfg, After(cfg, es[..|es| - 1]), es[|es| - 1])
  }

  /** Outcomes recorded since the breaker entered its present state. */
  function SinceChange(cfg: Config, es: seq<Event>): seq<bool>
  {
    if es == [] then []
    else
      var init, e := es[..|es| - 1], es[|es| - 1];
      if After(cfg, es).state != After(cfg, init).state then []
      else SinceChange(cfg, init) + if e.Probe? then [e.success] else []
  }

  function TrailingFailures(outcomes: seq<bool>): nat
  {
    if outcomes == [] || outcomes[|outcomes| - 1] then 0 else 1 + TrailingFailures(outcomes[..|outcomes| - 1])
  }

  /** The last `n` outcomes exist and are all failures. */
  ghost predicate LastAllFailures(outcomes: seq<bool>, n: int)
  {
    0 <= n <= |outcomes| && forall i :: |outcomes| - n <= i < |outcomes| ==> !outcomes[i]
  }

  lemma {:induction false} TrailingMeansLast(outcomes: seq<bool>, n: int)
    requires n >= 0
    ensures LastAllFailures(outcomes, n) <==> TrailingFailures(outcomes) >= n
  {
    if outcomes != [] && n > 0 {
      var k := |outcomes| - 1;
      if !outcomes[k] {
        TrailingMeansLast(outcomes[..k], n - 1);
      }
    }
  }

  ghost predicate Straight(outcomes: seq<bool>)
  {
    forall i :: 0 <= i < |outcomes| ==> outcomes[i]
  }

  lemma Snoc(cfg: Config, es: seq<Event>, e: Event)
    ensures After(cfg, es + [e]) == Step(cfg, After(cfg, es), e)
    ensures SinceChange(cfg, es + [e]) ==
      if After(cfg, es + [e]).state != After(cfg, es).state then []
      else SinceChange(cfg, es) + if e.Probe? then [e.success] else []
  {
    assert (es + [e])[..|es|] == es;
  }

  lemma TrailingSnoc(outcomes: seq<bool>, ok: bool)
    ensures TrailingFailures(outcomes + [ok]) == if ok then 0 else TrailingFailures(outcomes) + 1
  {
    assert (outcomes + [ok])[..|outcomes|] == outcomes;
  }

  /** What the counters mean. */
  ghost predicate Meaning(cfg: Config, s: Status, since: seq<bool>)
  {
    && (s.state == Closed ==> s.failCount == TrailingFailures(since) < FailThreshold(cfg))
    && (s.state == HalfOpen ==> Straight(since) && s.successCount == |since| < RecoverThreshold(cfg))
    && (s.state != Closed ==> s.failCount == 0)
  }

  lemma {:induction false} CountersMean(cfg: Config, es: seq<Event>)
    ensures Meaning(cfg, After(cfg, es), SinceChange(cfg, es))
  {
    if es != [] {
      var init, e := es[..|es| - 1], es[|es| - 1];
      CountersMean(cfg, init);
      assert es == init + [e];
      Snoc(cfg, init, e);
      MeaningStep(cfg, After(cfg, init), SinceChange(cfg, init), e);
    }
  }

  lemma MeaningStep(cfg: Config, s: Status, since: seq<bool>, e: Event)
    requires Meaning(cfg, s, since)
    ensures var t := Step(cfg, s, e);
            Meaning(cfg, t, if t.state != s.state then [] else since + if e.Probe? then [e.success] else [])
  {
    if e.Probe? {
      TrailingSnoc(since, e.success);
    } else {
      assert since + [] == since;
    }
  }

  /** Every change of state, and exactly when it happens, on every trace. */
  lemma ChangesExactly(cfg: Config, es: seq<Event>, e: Event)
    ensures var s, t, outcomes := After(cfg, es), After(cfg, es + [e]), SinceChange(cfg, es);
            // closed opens exactly when the last failThreshold outcomes since closing are failures
            && (s.state == Closed ==> t.state in {Closed, Open})
            && (s.state == Closed ==>
                  (t.state == Open <==> e.Probe? && LastAllFailures(outcomes + [e.success], FailThreshold(cfg))))
            // half-open closes exactly after recoverThreshold straight successes, and reopens on any failure
            && (s.state == HalfOpen ==> Straight(outcomes))
            && (s.state == HalfOpen ==>
                  (t.state == Closed <==> e.Probe? && e.success && |outcomes| + 1 >= RecoverThreshold(cfg)))
            && (s.state == HalfOpen ==> (t.state == Open <==> e.Probe? && !e.success))
            // open becomes half-open exactly when asked after the open period
            && (s.state == Open ==> t.state in {Open, HalfOpen})
            && (s.state == Open ==> (t.state == HalfOpen <==> e.Ask? && e.at - s.openedAt >= OpenDuration(cfg)))
            // the open period starts with the failure that opened the circuit
            && (t.state == Open && s.state != Open ==> e == Probe(false, t.openedAt))
            && (t.state == Open && s.state == Open ==> t.openedAt == s.openedAt)
  {
    Snoc(cfg, es, e);
    CountersMean(cfg, es);
    if e.Probe? {
      var outcomes := SinceChange(cfg, es);
      TrailingSnoc(outcomes, e.success);
      TrailingMeansLast(outcomes + [e.success], FailThreshold(cfg));
    }
  }

  /** Answer to a request at time `at`. */
  function Answer(cfg: Config, es: seq<Event>, at: int): bool
  {
    MaybeHalfOpen(cfg, After(cfg, es), at).state != Open
  }

  /** Requests are refused for the whole open period, whatever is recorded meanwhile, and
      allowed again from its end. */
  lemma {:induction false} RefusedWhileOpen(cfg: Config, es: seq<Event>, more: seq<Event>, at: int)
    requires After(cfg, es).state == Open
    requires forall i :: 0 <= i < |more| ==> more[i].at < After(cfg, es).openedAt + OpenDuration(cfg)
    ensures var s := After(cfg, es + more);
            s.state == Open && s.openedAt == After(cfg, es).openedAt
    ensures Answer(cfg, es + more, at) <==> at >= After(cfg, es).openedAt + OpenDuration(cfg)
  {
    if more == [] {
      assert es + more == es;
    } else {
      var n := |more| - 1;
      RefusedWhileOpen(cfg, es, more[..n], at);
      assert es + more == (es + more[..n]) + [more[n]];
      Snoc(cfg, es + more[..n], more[n]);
    }
  }

  /** Number of recorded successes, or of failures. */
  function Outcomes(es: seq<Event>, success: bool): nat
  {
    if es == [] then 0
    else Outcomes(es[..|es| - 1], success) + if es[|es| - 1].Probe? && es[|es| - 1].success == success then 1 else 0
  }

  /** The cumulative counters count the successes and the failures recorded. */
  lemma {:induction false} CountersCount(cfg: Config, es: seq<Event>)
    ensures After(cfg, es).successes == Outcomes(es, true) && After(cfg, es).failures == Outcomes(es, false)
  {
    if es != [] {
      CountersCount(cfg, es[..|es| - 1]);
    }
  }

  /** Settings that are not positive mean three failures, two successes and thirty seconds. */
  lemma Defaults(cfg: Config)
    ensures FailThreshold(cfg) == cfg.failThreshold || (cfg.failThreshold <= 0 && FailThreshold(cfg) == 3)
    ensures RecoverThreshold(cfg) == cfg.recoverThreshold || (cfg.recoverThreshold <= 0 && RecoverThreshold(cfg) == 2)
    ensures OpenDuration(cfg) == cfg.openDuration || (cfg.openDuration <= 0 && OpenDuration(cfg) == 30_000_000_000)
  {
  }
}
