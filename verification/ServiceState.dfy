/**
 The service state machine and its recorded transitions.
 */
module ServiceState {

  datatype State = Inactive | Starting | Ready | Running | Stopping | Failed

  datatype Transition = Transition(from: State, to: State, at: int, reason: string)

  datatype Request = Request(to: State, at: int, reason: string)

  predicate Allowed(from: State, to: State)
  {
    match from
    case Inactive => to == Starting
    case Starting => to in {Ready, Failed, Stopping}
    case Ready => to in {Running, Stopping, Failed}
    case Running => to in {Stopping, Failed, Starting}
    case Stopping => to in {Inactive, Failed}
    case Failed => to == Starting
  }

  /** The table by destination: from where each state can be reached. */
  lemma AllowedByTarget(s: State)
    ensures Allowed(s, Starting) <==> s in {Inactive, Running, Failed}
    ensures Allowed(s, Ready) <==> s == Starting
    ensures Allowed(s, Running) <==> s == Ready
    ensures Allowed(s, Stopping) <==> s in {Starting, Ready, Running}
    ensures Allowed(s, Failed) <==> s in {Starting, Ready, Running, Stopping}
    ensures Allowed(s, Inactive) <==> s == Stopping
  {
  }

  /** The state before the i-th recorded move; for the whole length, the current one. */
  function StateBefore(log: seq<Transition>, i: nat): State
    requires i <= |log|
  {
    if i == 0 then Inactive else log[i - 1].to
  }

  /** `log` is an unbroken path of allowed moves from Inactive to `state`. */
  ghost predicate IsPath(log: seq<Transition>, state: State)
  {
    && (forall i :: 0 <= i < |log| ==> log[i].from == StateBefore(log, i) && Allowed(log[i].from, log[i].to))
    && state == StateBefore(log, |log|)
  }

  lemma PathGrows(log: seq<Transition>, state: State, t: Transition)
    requires IsPath(log, state) && t.from == state && Allowed(t.from, t.to)
    ensures IsPath(log + [t], t.to)
  {
    var all := log + [t];
    forall i | 0 <= i < |all| ensures all[i].from == StateBefore(all, i) && Allowed(all[i].from, all[i].to) {
      if i < |log| {
        assert all[i] == log[i] && StateBefore(all, i) == StateBefore(log, i);
      }
    }
  }

  lemma PathPrefix(log: seq<Transition>, state: State, n: nat)
    requires IsPath(log, state) && n <= |log|
    ensures IsPath(log[..n], StateBefore(log, n))
  {
    var p := log[..n];
    forall i | 0 <= i < n ensures p[i].from == StateBefore(p, i) && Allowed(p[i].from, p[i].to) {
      assert p[i] == log[i] && StateBefore(p, i) == StateBefore(log, i);
    }
  }

  /** State and log after a sequence of requests, in whatever order the callers got the lock:
      a refused request changes nothing. */
  function After(reqs: seq<Request>): (State, seq<Transition>)
  {
    if reqs == [] then (Inactive, [])
    else
      var (s, log) := After(reqs[..|reqs| - 1]);
      var r := reqs[|reqs| - 1];
      if Allowed(s, r.to) then (r.to, log + [Transition(s, r.to, r.at, r.reason)]) else (s, log)
  }

  class ServiceStatus {
    var state: State
    var since: int
    var transitions: seq<Transition>
    // every request made so far, accepted or not
    ghost var requests: seq<Request>

    ghost predicate Valid()
      reads this
    {
      After(requests) == (state, transitions) && IsPath(transitions, state)
    }

    constructor (now: int)
      ensures Valid() && state == Inactive && transitions == [] && requests == []
    {
      state := Inactive;
      since := now;
      transitions := [];
      requests := [];
    }

    method Move(to: State, now: int, reason: string) returns (ok: bool)
      requires Valid()
      modifies this
      ensures Valid() && requests == old(requests) + [Request(to, now, reason)]
      ensures ok == Allowed(old(state), to)
      ensures state == if ok then to else old(state)
      ensures since == if ok then now else old(since)
      ensures transitions == if ok then old(transitions) + [Transition(old(state), to, now, reason)] else old(transitions)
    {
      ghost var before := requests;
      requests := requests + [Request(to, now, reason)];
      assert requests[..|before|] == before;
      ok := Allowed(state, to);
      if ok {
        PathGrows(transitions, state, Transition(state, to, now, reason));
        transitions := transitions + [Transition(state, to, now, reason)];
        state := to;
        since := now;
      }
    }
  }

  /** Under every interleaving of requests the log is a valid path to the current state. */
  lemma {:induction false} LogIsPath(reqs: seq<Request>)
    ensures IsPath(After(reqs).1, After(reqs).0)
  {
    if reqs != [] {
      var init, r := reqs[..|reqs| - 1], reqs[|reqs| - 1];
      LogIsPath(init);
      var (s, log) := After(init);
      if Allowed(s, r.to) {
        PathGrows(log, s, Transition(s, r.to, r.at, r.reason));
      }
    }
  }

  ghost predicate Visits(log: seq<Transition>, s: State)
  {
    exists i :: 0 <= i < |log| && log[i].to == s
  }

  /** A running service has been started and was ready; an inactive one that ever left the
      inactive state was stopped on purpose. */
  lemma {:induction false} HowItGotThere(log: seq<Transition>, state: State)
    requires IsPath(log, state)
    ensures state != Inactive ==> Visits(log, Starting)
    ensures state == Running ==> Visits(log, Ready)
    ensures state == Inactive && log != [] ==> log[|log| - 1].from == Stopping
  {
    if log != [] {
      var n := |log| - 1;
      PathPrefix(log, state, n);
      HowItGotThere(log[..n], log[n].from);
      assert log[n].to == state && Allowed(log[n].from, state);
      if log[n].from != Inactive {
        VisitsMore(log, n, Starting);
      }
      if state == Running {
        assert log[n].from == Ready == StateBefore(log, n);
        assert log[n - 1].to == Ready;
      }
    }
  }

  lemma VisitsMore(log: seq<Transition>, n: nat, s: State)
    requires n <= |log| && Visits(log[..n], s)
    ensures Visits(log, s)
  {
    var i :| 0 <= i < n && log[..n][i].to == s;
    assert log[i].to == s;
  }

  /** The exit of a socket-activated unit asks to become inactive, whatever state it is in by
      then. The request is recorded exactly when the unit was being stopped; a unit that exits by
      itself goes on being reported in the state it was in. */
  lemma SocketExitIff(reqs: seq<Request>, at: int)
    ensures var before, after := After(reqs), After(reqs + [Request(Inactive, at, "exited")]);
            && (after.1 != before.1 <==> before.0 == Stopping)
            && (after.0 == Inactive <==> before.0 in {Inactive, Stopping})
            && (before.0 != Stopping ==> after == before)
            && (before.0 == Stopping ==> after == (Inactive, before.1 + [Transition(Stopping, Inactive, at, "exited")]))
  {
    assert (reqs + [Request(Inactive, at, "exited")])[..|reqs|] == reqs;
  }

  /** A socket-activated unit that has been started and exits by itself stays "running". */
  lemma SocketExitWhileRunning(at: int)
    ensures var reqs := [Request(Starting, at, "socket activation"), Request(Ready, at, "socket-activated"),
                         Request(Running, at, "ready -> running"), Request(Inactive, at, "exited")];
            After(reqs).0 == Running && |After(reqs).1| == 3
  {
    var up := [Request(Starting, at, "socket activation"), Request(Ready, at, "socket-activated"), Request(Running, at, "ready -> running")];
    assert After(up[..0]) == (Inactive, []);
    assert up[..1][..0] == up[..0] && up[..2][..1] == up[..1] && up[..3][..2] == up[..2] && up[..3] == up;
    assert After(up[..1]).0 == Starting && |After(up[..1]).1| == 1;
    assert After(up[..2]).0 == Ready && |After(up[..2]).1| == 2;
    assert After(up[..3]).0 == Running && |After(up[..3]).1| == 3;
    SocketExitIff(up, at);
    assert up + [Request(Inactive, at, "exited")] ==
           [Request(Starting, at, "socket activation"), Request(Ready, at, "socket-activated"),
            Request(Running, at, "ready -> running"), Request(Inactive, at, "exited")];
  }
}
