/**
 The restart supervisor of one service: restart policy, crash-loop window and exponential
 backoff. One attempt is one pass of the loop. Cancellation may be seen while the process
 starts or runs, or during a crash-loop pause; seen while sleeping or between passes, it is the
 end of the list of attempts.
 */
module RestartLoop {
  import opened ServiceState

  datatype Policy = No | OnFailure | Always

  /** Durations in one unit; `window` and `pause` belong to the crash-loop breaker. A `notify`
      service reports its own readiness. */
  datatype Config = Config(policy: Policy, notify: bool, backoffInit: int, backoffMax: int, limit: int, window: int, pause: int)

  /** How a pass goes: `ready` says whether a cancelled one had become ready, `cut` whether a
      pause after this exit would be cancelled. */
  datatype Attempt = SpawnError | Cancelled(ready: bool) | Exit(code: int, at: int, cut: bool)

  datatype Action = Pause(d: int) | Sleep(d: int)

  predicate Restarts(cfg: Config, a: Attempt)
  {
    match a
    case SpawnError => cfg.policy != No
    case Cancelled(_) => false
    case Exit(code, _, _) => cfg.policy == Always || (cfg.policy == OnFailure && code != 0)
  }

  /** Policy by policy: never; after a failed start or a non-zero exit; after anything. */
  lemma PolicyMeans(cfg: Config, code: int, at: int, cut: bool)
    ensures cfg.policy == No ==> !Restarts(cfg, SpawnError) && !Restarts(cfg, Exit(code, at, cut))
    ensures cfg.policy == OnFailure ==> Restarts(cfg, SpawnError) && (Restarts(cfg, Exit(code, at, cut)) <==> code != 0)
    ensures cfg.policy == Always ==> Restarts(cfg, SpawnError) && Restarts(cfg, Exit(code, at, cut))
    ensures forall ready :: !Restarts(cfg, Cancelled(ready))
  {
  }

  // ----- reference -----

  /** The times that lie in the window ending at `now`. */
  function InWindow(cfg: Config, ts: seq<int>, now: int): seq<int>
  {
    if ts == [] then []
    else InWindow(cfg, ts[..|ts| - 1], now) + if ts[|ts| - 1] < now - cfg.window then [] else [ts[|ts| - 1]]
  }

  /** Filtering goes element by element, and keeps what is at most a window old. */
  lemma {:induction false} InWindowConcat(cfg: Config, a: seq<int>, b: seq<int>, now: int)
    ensures InWindow(cfg, a + b, now) == InWindow(cfg, a, now) + InWindow(cfg, b, now)
  {
    hide InWindow;
    if b == [] {
      assert a + b == a;
      NoneInWindow(cfg, now);
    } else {
      var n := |b| - 1;
      InWindowConcat(cfg, a, b[..n], now);
      assert a + b == (a + b[..n]) + [b[n]] && b == b[..n] + [b[n]];
      WindowSnoc(cfg, a + b[..n], b[n], now);
      WindowSnoc(cfg, b[..n], b[n], now);
    }
  }

  lemma NoneInWindow(cfg: Config, now: int)
    ensures InWindow(cfg, [], now) == []
  {
  }

  lemma InWindowOfOne(cfg: Config, x: int, now: int)
    ensures InWindow(cfg, [x], now) == if now - x <= cfg.window then [x] else []
  {
    WindowSnoc(cfg, [], x, now);
  }

  /** All exits since the last pause, none forgotten. */
  function ExitsSincePause(cfg: Config, runs: seq<Attempt>): seq<int>
  {
    if runs == [] then []
    else
      var a, before := runs[|runs| - 1], ExitsSincePause(cfg, runs[..|runs| - 1]);
      if !a.Exit? then before
      else if |InWindow(cfg, before + [a.at], a.at)| >= cfg.limit then []
      else before + [a.at]
  }

  /** The last attempt makes the exits within the window reach the limit. */
  predicate Pauses(cfg: Config, runs: seq<Attempt>)
    requires runs != []
  {
    var a := runs[|runs| - 1];
    a.Exit? && |InWindow(cfg, ExitsSincePause(cfg, runs[..|runs| - 1]) + [a.at], a.at)| >= cfg.limit
  }

  /** The loop goes on after the last attempt. */
  predicate Loops(cfg: Config, runs: seq<Attempt>)
    requires runs != []
  {
    Restarts(cfg, runs[|runs| - 1]) && !CutShort(cfg, runs)
  }

  /** The last attempt leads to a pause during which the loop is cancelled. */
  predicate CutShort(cfg: Config, runs: seq<Attempt>)
    requires runs != []
  {
    var a := runs[|runs| - 1];
    a.Exit? && a.cut && Restarts(cfg, a) && Pauses(cfg, runs)
  }

  /** Number of sleeps since the start or the last pause. */
  function SleepsSinceReset(cfg: Config, runs: seq<Attempt>): nat
  {
    if runs == [] then 0
    else if Pauses(cfg, runs) then 1
    else SleepsSinceReset(cfg, runs[..|runs| - 1]) + 1
  }

  function Doubled(x: int, k: nat): int
  {
    if k == 0 then x else 2 * Doubled(x, k - 1)
  }

  function Min(a: int, b: int): int
  {
    if a < b then a else b
  }

  /** The k-th sleep since a reset: the initial backoff, then doubling up to the maximum. */
  function Backoff(cfg: Config, k: nat): int
  {
    if k == 0 then cfg.backoffInit
    else if cfg.backoffInit > 0 then Min(Doubled(cfg.backoffInit, k), cfg.backoffMax)
    else Min(cfg.backoffInit, cfg.backoffMax)
  }

  function Actions(cfg: Config, runs: seq<Attempt>): seq<Action>
  {
    if runs == [] then []
    else
      Actions(cfg, runs[..|runs| - 1]) +
      (if Pauses(cfg, runs) then [Pause(cfg.pause), Sleep(Backoff(cfg, 0))]
       else [Sleep(Backoff(cfg, SleepsSinceReset(cfg, runs[..|runs| - 1])))])
  }

  /** Number of attempts after which the crash-loop breaker pauses. */
  function Pausing(cfg: Config, runs: seq<Attempt>): nat
  {
    if runs == [] then 0 else Pausing(cfg, runs[..|runs| - 1]) + if Pauses(cfg, runs) then 1 else 0
  }

  function CountOf(log: seq<Action>, sleeps: bool): nat
  {
    if log == [] then 0 else CountOf(log[..|log| - 1], sleeps) + if log[|log| - 1].Sleep? == sleeps then 1 else 0
  }

  lemma CountMore(log: seq<Action>, a: Action)
    ensures CountOf(log + [a], true) == CountOf(log, true) + if a.Sleep? then 1 else 0
    ensures CountOf(log + [a], false) == CountOf(log, false) + if a.Sleep? then 0 else 1
  {
    assert (log + [a])[..|log|] == log;
  }

  /** Every restart is preceded by one sleep of some backoff, and every crash loop by one pause of
      the configured length. */
  lemma {:induction false} ActionsMean(cfg: Config, runs: seq<Attempt>)
    ensures CountOf(Actions(cfg, runs), true) == |runs| && CountOf(Actions(cfg, runs), false) == Pausing(cfg, runs)
    ensures forall i :: 0 <= i < |Actions(cfg, runs)| ==> IsAction(cfg, Actions(cfg, runs)[i])
  {
    hide Pauses, Backoff, SleepsSinceReset, CountOf;
    if runs == [] {
      NoActions();
    } else {
      var n := |runs| - 1;
      ActionsMean(cfg, runs[..n]);
      var log := Actions(cfg, runs[..n]);
      var sleep := Sleep(Backoff(cfg, if Pauses(cfg, runs) then 0 else SleepsSinceReset(cfg, runs[..n])));
      CountMore(log, sleep);
      CountMore(log, Pause(cfg.pause));
      CountMore(log + [Pause(cfg.pause)], sleep);
      assert log + [Pause(cfg.pause), sleep] == log + [Pause(cfg.pause)] + [sleep];
    }
  }

  /** Number of sleeps since the last pause. */
  function TrailingSleeps(log: seq<Action>): nat
  {
    if log == [] || log[|log| - 1].Pause? then 0 else TrailingSleeps(log[..|log| - 1]) + 1
  }

  ghost predicate Follows(cfg: Config, log: seq<Action>, i: nat)
    requires i < |log|
  {
    log[i].Sleep? ==> log[i].d == Backoff(cfg, TrailingSleeps(log[..i]))
  }

  /** How long each sleep is: the backoff belonging to the number of sleeps since the last pause, so
      the initial one right after a pause. */
  lemma {:induction false} SleepsFollowBackoff(cfg: Config, runs: seq<Attempt>)
    ensures TrailingSleeps(Actions(cfg, runs)) == SleepsSinceReset(cfg, runs)
    ensures forall i :: 0 <= i < |Actions(cfg, runs)| ==> Follows(cfg, Actions(cfg, runs), i)
  {
    hide Pauses, Backoff, Follows, TrailingSleeps;
    if runs == [] {
      NoSleeps();
    } else {
      var n := |runs| - 1;
      var log, k := Actions(cfg, runs[..n]), if Pauses(cfg, runs) then 0 else SleepsSinceReset(cfg, runs[..n]);
      SleepsFollowBackoff(cfg, runs[..n]);
      if Pauses(cfg, runs) {
        FollowsMore(cfg, log, Pause(cfg.pause));
        log := log + [Pause(cfg.pause)];
      }
      FollowsMore(cfg, log, Sleep(Backoff(cfg, k)));
      assert Actions(cfg, runs) == log + [Sleep(Backoff(cfg, k))];
    }
  }

  lemma NoSleeps()
    ensures TrailingSleeps([]) == 0
  {
  }

  lemma FollowsMore(cfg: Config, log: seq<Action>, a: Action)
    requires forall i :: 0 <= i < |log| ==> Follows(cfg, log, i)
    requires a.Sleep? ==> a.d == Backoff(cfg, TrailingSleeps(log))
    ensures forall i :: 0 <= i < |log + [a]| ==> Follows(cfg, log + [a], i)
    ensures TrailingSleeps(log + [a]) == if a.Pause? then 0 else TrailingSleeps(log) + 1
  {
    hide Backoff;
    var next := log + [a];
    assert next[..|log|] == log;
    forall i | 0 <= i < |next| ensures Follows(cfg, next, i) {
      if i < |log| {
        assert Follows(cfg, log, i) && next[..i] == log[..i];
      }
    }
  }

  lemma {:induction false} WindowIsSmaller(cfg: Config, ts: seq<int>, now: int)
    ensures |InWindow(cfg, ts, now)| <= |ts|
  {
    if ts != [] {
      WindowIsSmaller(cfg, ts[..|ts| - 1], now);
    }
  }

  lemma {:induction false} ExitsAfterPause(cfg: Config, runs: seq<Attempt>, more: seq<Attempt>)
    requires runs != [] && Pauses(cfg, runs)
    ensures |ExitsSincePause(cfg, runs + more)| <= |more|
  {
    hide InWindow;
    if more == [] {
      assert runs + more == runs;
    } else {
      var n := |more| - 1;
      ExitsAfterPause(cfg, runs, more[..n]);
      assert (runs + more)[..|runs| + n] == runs + more[..n];
    }
  }

  /** A pause forgets the exits before it: the next one takes as many further attempts as the limit
      says. */
  lemma PausesAreApart(cfg: Config, runs: seq<Attempt>, more: seq<Attempt>)
    requires runs != [] && Pauses(cfg, runs) && more != [] && Pauses(cfg, runs + more)
    ensures |more| >= cfg.limit
  {
    hide ExitsSincePause, InWindow;
    var n := |more| - 1;
    ExitsAfterPause(cfg, runs, more[..n]);
    assert (runs + more)[..|runs| + n] == runs + more[..n];
    WindowIsSmaller(cfg, ExitsSincePause(cfg, runs + more[..n]) + [more[n].at], more[n].at);
  }

  lemma NoActions()
    ensures CountOf([], true) == 0 && CountOf([], false) == 0
  {
  }

  ghost predicate IsAction(cfg: Config, a: Action)
  {
    if a.Pause? then a.d == cfg.pause else exists k: nat :: a.d == Backoff(cfg, k)
  }

  /** The clock does not run backwards between exits. */
  ghost predicate Ordered(runs: seq<Attempt>)
  {
    forall i, j :: 0 <= i < j < |runs| && runs[i].Exit? && runs[j].Exit? ==> runs[i].at <= runs[j].at
  }

  ghost predicate Ascending(ts: seq<int>)
  {
    forall i, j :: 0 <= i < j < |ts| ==> ts[i] <= ts[j]
  }

  /** The states reported during the last attempt. */
  function Reports(cfg: Config, runs: seq<Attempt>, clock: int): seq<Request>
    requires runs != []
  {
    var a := runs[|runs| - 1];
    var up := [Request(Ready, clock, ReadyReason(cfg)), Request(Running, clock, "ready -> running")];
    [Request(Starting, clock, "starting process")] +
    match a
    case SpawnError => [Request(Failed, clock, "spawn error")]
    case Cancelled(ready) => if ready || !cfg.notify then up else []
    case Exit(_, _, _) =>
      up +
      if !Restarts(cfg, a) then [Request(Failed, clock, "exit")]
      else if Pauses(cfg, runs) then [Request(Failed, clock, "crash-loop")]
      else []
  }

  function ReadyReason(cfg: Config): string
  {
    if cfg.notify then "notify: READY=1" else "launched"
  }

  function AllReports(cfg: Config, runs: seq<Attempt>, clock: int): seq<Request>
  {
    if runs == [] then [] else AllReports(cfg, runs[..|runs| - 1], clock) + Reports(cfg, runs, clock)
  }

  /** States from which an attempt can be started. */
  predicate Startable(s: State)
  {
    s in {Inactive, Running, Failed}
  }

  /** The state left by the last attempt: a service between crash and restart still shows as
      running, unless it is paused, and a cancelled one shows the state it had reached. */
  function LeftIn(cfg: Config, runs: seq<Attempt>): (s: State)
    requires runs != []
    ensures Loops(cfg, runs) ==> Startable(s)
  {
    var a := runs[|runs| - 1];
    match a
    case SpawnError => Failed
    case Cancelled(ready) => if ready || !cfg.notify then Running else Starting
    case Exit(_, _, _) => if !Restarts(cfg, a) || Pauses(cfg, runs) then Failed else Running
  }

  // ----- the loop -----

  /** Runs until the policy says not to restart or the loop is cancelled; `n` counts the
      restarts. */
  method Run(cfg: Config, attempts: seq<Attempt>, status: ServiceStatus, clock: int) returns (log: seq<Action>, n: nat)
    requires status.Valid() && Ordered(attempts)
    modifies status
    ensures status.Valid()
    ensures n <= |attempts| && (forall i :: 0 < i <= n ==> Loops(cfg, attempts[..i]))
    ensures n < |attempts| ==> !Loops(cfg, attempts[..n + 1])
    ensures log == Actions(cfg, attempts[..n]) + if n < |attempts| && CutShort(cfg, attempts[..n + 1]) then [Pause(cfg.pause)] else []
    // every attempt made is reported, and from a startable state no report is refused
    ensures var tried := attempts[..if n < |attempts| then n + 1 else n];
            && status.requests == old(status.requests) + AllReports(cfg, tried, clock)
            && (Startable(old(status.state)) ==> status.state == if tried == [] then old(status.state) else LeftIn(cfg, tried))
            && (Startable(old(status.state)) ==> |status.transitions| == |old(status.transitions)| + |AllReports(cfg, tried, clock)|)
  {
    hide Actions, SleepsSinceReset, Pauses, Backoff, Tracks, Restarts, AllReports, Reports, LeftIn, Startable, Ordered, After, IsPath, NextBackoff, Loops, CutShort;
    var backoff, crashTimes := cfg.backoffInit, [];
    log, n := [], 0;
    Start(cfg, clock);
    while n < |attempts|
      invariant 0 <= n <= |attempts| && status.Valid()
      invariant forall i :: 0 < i <= n ==> Loops(cfg, attempts[..i])
      invariant log == Actions(cfg, attempts[..n])
      invariant backoff == Backoff(cfg, SleepsSinceReset(cfg, attempts[..n]))
      invariant Tracks(cfg, attempts[..n], crashTimes)
      invariant status.requests == old(status.requests) + AllReports(cfg, attempts[..n], clock)
      invariant Startable(old(status.state)) ==> Startable(status.state) && status.state == if n == 0 then old(status.state) else LeftIn(cfg, attempts[..n])
      invariant Startable(old(status.state)) ==> |status.transitions| == |old(status.transitions)| + |AllReports(cfg, attempts[..n], clock)|
    {
      ghost var before := attempts[..n];
      assert attempts[..n + 1] == before + [attempts[n]];
      OrderedPrefix(attempts, n + 1);
      MoreReports(cfg, before, attempts[n], clock);
      var again, paused;
      again, paused, crashTimes := Supervise(cfg, attempts[n], status, clock, crashTimes, before);
      if paused {
        log := log + [Pause(cfg.pause)];
        backoff := cfg.backoffInit;
      }
      if !again {
        return;
      }
      OneMore(cfg, before, attempts[n]);
      log := log + [Sleep(backoff)];
      BackoffStep(cfg, if paused then 0 else SleepsSinceReset(cfg, before));
      backoff := NextBackoff(cfg, backoff);
      n := n + 1;
    }
  }

  lemma MoreReports(cfg: Config, before: seq<Attempt>, a: Attempt, clock: int)
    ensures AllReports(cfg, before + [a], clock) == AllReports(cfg, before, clock) + Reports(cfg, before + [a], clock)
  {
    hide Reports;
    assert (before + [a])[..|before|] == before;
  }

  /** One attempt: report the states, decide on a restart, and watch for a crash loop. */
  method Supervise(cfg: Config, a: Attempt, status: ServiceStatus, clock: int, crashTimes0: seq<int>, ghost before: seq<Attempt>)
    returns (again: bool, paused: bool, crashTimes: seq<int>)
    requires status.Valid() && Tracks(cfg, before, crashTimes0) && Ordered(before + [a])
    modifies status
    ensures status.Valid() && again == Loops(cfg, before + [a])
    ensures again ==> paused == Pauses(cfg, before + [a]) && Tracks(cfg, before + [a], crashTimes)
    ensures !again ==> paused == CutShort(cfg, before + [a])
    ensures status.requests == old(status.requests) + Reports(cfg, before + [a], clock)
    ensures Startable(old(status.state)) ==> status.state == LeftIn(cfg, before + [a])
    ensures Startable(old(status.state)) ==> |status.transitions| == |old(status.transitions)| + |Reports(cfg, before + [a], clock)|
  {
    hide InWindow, ExitsSincePause, Tracks, Pauses, Ordered, Ascending, After, IsPath;
    crashTimes, paused := crashTimes0, false;
    assert (before + [a])[..|before|] == before;
    Report(status, Starting, clock, "starting process");
    if a.SpawnError? {
      Report(status, Failed, clock, "spawn error");
      SpawnTracks(cfg, before, crashTimes, a);
      again := cfg.policy != No;
      return;
    }
    if a.Cancelled? && cfg.notify && !a.ready {
      again := false;
      return;
    }
    Report(status, Ready, clock, ReadyReason(cfg));
    Report(status, Running, clock, "ready -> running");
    if a.Cancelled? {
      again := false;
      return;
    }
    again := Restarts(cfg, a);
    if !again {
      Report(status, Failed, clock, "exit");
      return;
    }
    again, paused, crashTimes := WatchCrashes(cfg, a, status, clock, crashTimes, before);
  }

  /** Crash-loop detection after an exit that is to be restarted. */
  method WatchCrashes(cfg: Config, a: Attempt, status: ServiceStatus, clock: int, crashTimes0: seq<int>, ghost before: seq<Attempt>)
    returns (again: bool, paused: bool, crashTimes: seq<int>)
    requires status.Valid() && Tracks(cfg, before, crashTimes0) && Ordered(before + [a]) && a.Exit?
    modifies status
    ensures status.Valid() && paused == Pauses(cfg, before + [a]) && again == !(paused && a.cut)
    ensures again ==> Tracks(cfg, before + [a], crashTimes)
    ensures status.requests == old(status.requests) + if paused then [Request(Failed, clock, "crash-loop")] else []
    ensures status.state == if paused && Allowed(old(status.state), Failed) then Failed else old(status.state)
    ensures |status.transitions| == |old(status.transitions)| + if paused && Allowed(old(status.state), Failed) then 1 else 0
  {
    hide InWindow, ExitsSincePause, Tracks, Pauses, Ordered, Ascending, After, IsPath;
    TracksExit(cfg, before, crashTimes0, a);
    crashTimes := TrimWindow(cfg, crashTimes0 + [a.at], a.at);
    ExitTracks(cfg, before, crashTimes, a);
    paused := |crashTimes| >= cfg.limit;
    if paused {
      Report(status, Failed, clock, "crash-loop");
      if a.cut {
        return false, paused, crashTimes;
      }
      crashTimes := [];
    }
    again := true;
  }

  lemma SpawnTracks(cfg: Config, before: seq<Attempt>, crashTimes: seq<int>, a: Attempt)
    requires Tracks(cfg, before, crashTimes) && !a.Exit?
    ensures Tracks(cfg, before + [a], crashTimes) && !Pauses(cfg, before + [a])
  {
    assert (before + [a])[..|before|] == before;
  }

  lemma ExitTracks(cfg: Config, before: seq<Attempt>, crashTimes: seq<int>, a: Attempt)
    requires a.Exit? && crashTimes == InWindow(cfg, ExitsSincePause(cfg, before) + [a.at], a.at)
    ensures Pauses(cfg, before + [a]) <==> |crashTimes| >= cfg.limit
    ensures Tracks(cfg, before + [a], if |crashTimes| >= cfg.limit then [] else crashTimes)
  {
    assert (before + [a])[..|before|] == before;
  }

  /** A transition whose refusal is ignored. */
  method Report(status: ServiceStatus, to: State, clock: int, reason: string)
    requires status.Valid()
    modifies status
    ensures status.Valid()
    ensures status.requests == old(status.requests) + [Request(to, clock, reason)]
    ensures status.state == if Allowed(old(status.state), to) then to else old(status.state)
    ensures |status.transitions| == |old(status.transitions)| + if Allowed(old(status.state), to) then 1 else 0
  {
    var ok := status.Move(to, clock, reason);
  }

  /** Doubles, or starts over from zero, and caps. */
  function NextBackoff(cfg: Config, backoff: int): int
  {
    var b := if backoff > 0 then backoff * 2 else cfg.backoffInit;
    if b > cfg.backoffMax then cfg.backoffMax else b
  }

  lemma Start(cfg: Config, clock: int)
    ensures AllReports(cfg, [], clock) == []
    ensures Actions(cfg, []) == [] && SleepsSinceReset(cfg, []) == 0 && Tracks(cfg, [], []) && Backoff(cfg, 0) == cfg.backoffInit
  {
  }

  lemma OrderedPrefix(attempts: seq<Attempt>, n: nat)
    requires Ordered(attempts) && n <= |attempts|
    ensures Ordered(attempts[..n])
  {
  }

  lemma OneMore(cfg: Config, before: seq<Attempt>, a: Attempt)
    ensures var now := before + [a];
            && Actions(cfg, now) == Actions(cfg, before) + (if Pauses(cfg, now) then [Pause(cfg.pause)] else []) +
                 [Sleep(if Pauses(cfg, now) then cfg.backoffInit else Backoff(cfg, SleepsSinceReset(cfg, before)))]
            && SleepsSinceReset(cfg, now) == 1 + if Pauses(cfg, now) then 0 else SleepsSinceReset(cfg, before)
  {
    hide Pauses;
    assert (before + [a])[..|before|] == before;
  }

  /** Drops the leading times that have left the window. */
  method TrimWindow(cfg: Config, ts: seq<int>, now: int) returns (r: seq<int>)
    requires Ascending(ts)
    ensures r == InWindow(cfg, ts, now)
  {
    var trim := 0;
    while trim < |ts| && ts[trim] < now - cfg.window
      invariant trim <= |ts| && forall i :: 0 <= i < trim ==> ts[i] < now - cfg.window
    {
      trim := trim + 1;
    }
    r := ts[trim..];
    TrimIsFilter(cfg, ts, now, trim);
  }

  lemma {:induction false} TrimIsFilter(cfg: Config, ts: seq<int>, now: int, trim: nat)
    requires trim <= |ts| && (forall i :: 0 <= i < trim ==> ts[i] < now - cfg.window)
    requires forall i :: trim <= i < |ts| ==> ts[i] >= now - cfg.window
    ensures InWindow(cfg, ts, now) == ts[trim..]
  {
    if ts != [] {
      var n := |ts| - 1;
      if trim == |ts| {
        TrimIsFilter(cfg, ts[..n], now, n);
      } else {
        TrimIsFilter(cfg, ts[..n], now, trim);
        assert ts[trim..] == ts[..n][trim..] + [ts[n]];
      }
    }
  }

  /** The trimmed list is the window filter, as of the last exit, of all exits since the last
      pause. */
  ghost predicate Tracks(cfg: Config, runs: seq<Attempt>, crashTimes: seq<int>)
  {
    var all := ExitsSincePause(cfg, runs);
    crashTimes == if all == [] then [] else InWindow(cfg, all, all[|all| - 1])
  }

  lemma {:induction false} ExitsBelow(cfg: Config, runs: seq<Attempt>, t: int)
    requires forall i :: 0 <= i < |runs| && runs[i].Exit? ==> runs[i].at <= t
    ensures forall i :: 0 <= i < |ExitsSincePause(cfg, runs)| ==> ExitsSincePause(cfg, runs)[i] <= t
  {
    if runs != [] {
      ExitsBelow(cfg, runs[..|runs| - 1], t);
    }
  }

  lemma {:induction false} ExitsAscend(cfg: Config, runs: seq<Attempt>)
    requires Ordered(runs)
    ensures Ascending(ExitsSincePause(cfg, runs))
  {
    if runs != [] {
      var n := |runs| - 1;
      ExitsAscend(cfg, runs[..n]);
      if runs[n].Exit? {
        ExitsBelow(cfg, runs[..n], runs[n].at);
      }
    }
  }

  lemma {:induction false} WindowAscends(cfg: Config, ts: seq<int>, now: int, t: int)
    requires Ascending(ts) && forall i :: 0 <= i < |ts| ==> ts[i] <= t
    ensures Ascending(InWindow(cfg, ts, now)) && forall i :: 0 <= i < |InWindow(cfg, ts, now)| ==> InWindow(cfg, ts, now)[i] <= t
  {
    if ts != [] {
      WindowAscends(cfg, ts[..|ts| - 1], now, ts[|ts| - 1]);
    }
  }

  /** What has left an earlier window has left every later one. */
  lemma {:induction false} Refilter(cfg: Config, ts: seq<int>, t: int, now: int)
    requires t <= now
    ensures InWindow(cfg, InWindow(cfg, ts, t), now) == InWindow(cfg, ts, now)
  {
    if ts != [] {
      var n := |ts| - 1;
      Refilter(cfg, ts[..n], t, now);
      if ts[n] < t - cfg.window {
        assert InWindow(cfg, ts, t) == InWindow(cfg, ts[..n], t);
        assert InWindow(cfg, ts, now) == InWindow(cfg, ts[..n], now);
      } else {
        WindowSnoc(cfg, InWindow(cfg, ts[..n], t), ts[n], now);
      }
    }
  }

  lemma WindowSnoc(cfg: Config, ts: seq<int>, x: int, now: int)
    ensures InWindow(cfg, ts + [x], now) == InWindow(cfg, ts, now) + if x < now - cfg.window then [] else [x]
  {
    assert (ts + [x])[..|ts|] == ts;
  }

  /** Trimming the tracked list after one more exit gives the filter of all exits. */
  lemma TracksExit(cfg: Config, before: seq<Attempt>, crashTimes: seq<int>, a: Attempt)
    requires Tracks(cfg, before, crashTimes) && a.Exit? && Ordered(before + [a])
    ensures Ascending(crashTimes + [a.at])
    ensures InWindow(cfg, crashTimes + [a.at], a.at) == InWindow(cfg, ExitsSincePause(cfg, before) + [a.at], a.at)
  {
    var all := ExitsSincePause(cfg, before);
    forall i | 0 <= i < |before| && before[i].Exit? ensures before[i].at <= a.at {
      assert (before + [a])[i].at <= (before + [a])[|before|].at;
    }
    ExitsBelow(cfg, before, a.at);
    assert Ordered(before) by {
      forall i, j | 0 <= i < j < |before| && before[i].Exit? && before[j].Exit? ensures before[i].at <= before[j].at {
        assert (before + [a])[i].at <= (before + [a])[j].at;
      }
    }
    ExitsAscend(cfg, before);
    if all != [] {
      var t := all[|all| - 1];
      WindowAscends(cfg, all, t, a.at);
      Refilter(cfg, all, t, a.at);
    }
    WindowSnoc(cfg, crashTimes, a.at, a.at);
    WindowSnoc(cfg, all, a.at, a.at);
  }

  /** The loop's update computes the next backoff. */
  lemma BackoffStep(cfg: Config, k: nat)
    ensures Backoff(cfg, k + 1) == NextBackoff(cfg, Backoff(cfg, k))
  {
    if cfg.backoffInit > 0 {
      DoubledGrows(cfg.backoffInit, k);
    }
  }

  lemma {:induction false} DoubledGrows(x: int, k: nat)
    requires x > 0
    ensures Doubled(x, k) >= x
  {
    if k > 0 {
      DoubledGrows(x, k - 1);
    }
  }

  /** The sleeps follow min(init * 2^k, max) throughout exactly when the initial backoff does not
      exceed the maximum; a larger initial backoff is slept once in full. */
  lemma BackoffCappedIff(cfg: Config)
    requires cfg.backoffInit >= 0
    ensures (forall k: nat :: Backoff(cfg, k) == Min(Doubled(cfg.backoffInit, k), cfg.backoffMax)) <==> cfg.backoffInit <= cfg.backoffMax
  {
    if cfg.backoffInit > cfg.backoffMax {
      assert Backoff(cfg, 0) != Min(Doubled(cfg.backoffInit, 0), cfg.backoffMax);
    }
    if cfg.backoffInit == 0 {
      forall k: nat ensures Doubled(0, k) == 0 {
        DoubledZero(k);
      }
    }
  }

  lemma {:induction false} DoubledZero(k: nat)
    ensures Doubled(0, k) == 0
  {
    if k > 0 {
      DoubledZero(k - 1);
    }
  }
}
