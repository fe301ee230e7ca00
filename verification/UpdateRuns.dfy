/**
 Safety of the A/B update protocol over whole runs: any sequence of updates, aborts, boot-time
 recoveries, rollbacks and removals of the record, each cut short by a power failure after any
 of its disk steps.
 */
module UpdateRuns {
  import opened Basics
  import opened Update

  datatype Event = Apply(req: Request) | Abort | Recovery | Rollback | ClearRecord

  /** `x` may be on disk when event `e`, started on disk `d`, ends or is cut short. */
  ghost predicate Next(crypto: Crypto, d: Disk, e: Event, x: Disk)
  {
    x == d ||
    match e
    case Apply(req) => !Refused(d) && ApplyPoint(crypto, d, req, x)
    case Abort => StepsTo(d, x)
    case Recovery => Interrupted(d) && StepsTo(d, x)
    case Rollback => x == RolledBackDisk(d)
    case ClearRecord => x == d.(txFile := NoRecord)
  }

  ghost predicate IsRun(crypto: Crypto, ds: seq<Disk>, es: seq<Event>)
  {
    |ds| == |es| + 1 && forall i :: 0 <= i < |es| ==> Next(crypto, ds[i], es[i], ds[i + 1])
  }

  /** A device before its first update. */
  ghost predicate Clean(d: Disk)
  {
    d.txFile.NoRecord? && !d.slotFile.Invalid?
  }

  /** The image of a slot is the one it had at the start, or a complete image that passed every
      check its request asked for. */
  ghost predicate Trusted(crypto: Crypto, base: Disk, es: seq<Event>, s: Slot, i: Option<Image>)
  {
    i == base.Boot(s) || exists e :: e in es && e.Apply? && Passes(crypto, e.req) && i == Some(e.req.image)
  }

  ghost predicate RecordWellFormed(d: Disk)
  {
    d.txFile.NoRecord? ||
    (d.txFile.Record? &&
      var tx := d.txFile.tx;
      && tx.state != Unrecognised
      && (tx.health.Some? ==> tx.health == Some(Other(tx.target)))
      && (tx.state == Committed ==> tx.health.Some?))
  }

  ghost predicate Safe(crypto: Crypto, base: Disk, es: seq<Event>, d: Disk)
  {
    && !d.slotFile.Invalid?
    && (forall s :: Trusted(crypto, base, es, s, d.Boot(s)))
    && RecordWellFormed(d)
  }

  lemma OtherOther(s: Slot)
    ensures Other(Other(s)) == s
  {
  }

  lemma NextIsSafe(crypto: Crypto, base: Disk, es: seq<Event>, d: Disk, e: Event, x: Disk)
    requires Safe(crypto, base, es, d) && e in es && Next(crypto, d, e, x)
    ensures Safe(crypto, base, es, x)
  {
    OtherOther(d.Active());
    forall s ensures Trusted(crypto, base, es, s, x.Boot(s)) {
      assert Trusted(crypto, base, es, s, d.Boot(s));
    }
  }

  /** In every reachable state the active slot can be read and names a slot holding a trusted
      image (as does the other slot), and every committed record carries a health snapshot
      naming the slot opposite its target. */
  lemma {:induction false} RunsAreSafe(crypto: Crypto, ds: seq<Disk>, es: seq<Event>, i: nat)
    requires IsRun(crypto, ds, es) && Clean(ds[0]) && i < |ds|
    ensures Safe(crypto, ds[0], es, ds[i])
  {
    if i > 0 {
      RunsAreSafe(crypto, ds, es, i - 1);
      NextIsSafe(crypto, ds[0], es, ds[i - 1], es[i - 1], ds[i]);
    }
  }

  // ----- the device's own runs -----

  /** One event on a device, which of its file operations fail, and after how many of its writes
      the power fails, if it does. */
  datatype Input = Input(event: Event, faults: Faults, power: Option<nat>)

  function Events(inputs: seq<Input>): (es: seq<Event>)
    ensures |es| == |inputs| && forall i :: 0 <= i < |es| ==> es[i] == inputs[i].event
  {
    seq(|inputs|, i requires 0 <= i < |inputs| => inputs[i].event)
  }

  /** One event, left to run to its end. */
  method Perform(dev: Device, crypto: Crypto, e: Event, f: Faults) returns (steps: seq<Disk>)
    requires dev.Valid()
    modifies dev
    ensures dev.Valid() && dev.trace == old(dev.trace) + steps
    ensures forall x :: x in steps ==> Next(crypto, old(dev.disk), e, x)
    ensures dev.disk == if steps == [] then old(dev.disk) else steps[|steps| - 1]
  {
    hide ApplyPoint, AbortPoint;
    match e {
      case Apply(req) =>
        var r;
        r, steps := dev.Apply(crypto, req, f);
      case Abort =>
        var ok;
        ok, steps := dev.Abort(f.abortRemove, f.abortSave);
      case Recovery =>
        var r;
        r, steps := dev.CheckRecovery(f.abortRemove, f.abortSave);
      case Rollback =>
        var r;
        r, steps := dev.RollbackLastUpdate(f.flip);
      case ClearRecord =>
        dev.Write(dev.disk.(txFile := NoRecord));
        steps := [dev.disk];
    }
  }

  /** Drives a device through any list of events with any faults, cutting each off after any of
      its writes: the disks between the events form a run, and everything that was ever on disk
      is safe. */
  method Drive(dev: Device, crypto: Crypto, inputs: seq<Input>) returns (ghost ds: seq<Disk>)
    requires dev.Valid()
    modifies dev
    ensures dev.Valid() && IsRun(crypto, ds, Events(inputs)) && ds[0] == old(dev.disk) && ds[|inputs|] == dev.disk
    ensures |old(dev.trace)| <= |dev.trace|
    ensures Clean(old(dev.disk)) ==>
      forall x :: x in dev.trace[|old(dev.trace)|..] ==> Safe(crypto, old(dev.disk), Events(inputs), x)
  {
    hide Next, Clean, Safe;
    ghost var es, base, past := Events(inputs), dev.disk, |dev.trace|;
    CleanIsSafe(crypto, base, es);
    ds := [dev.disk];
    for n := 0 to |inputs|
      invariant dev.Valid() && |ds| == n + 1 && ds[0] == base && ds[n] == dev.disk
      invariant forall i :: 0 <= i < n ==> Next(crypto, ds[i], es[i], ds[i + 1])
      invariant past <= |dev.trace|
      invariant Clean(base) ==> Safe(crypto, base, es, dev.disk)
      invariant Clean(base) ==> forall x :: x in dev.trace[past..] ==> Safe(crypto, base, es, x)
    {
      var e, d := inputs[n].event, dev.disk;
      var steps := Perform(dev, crypto, e, inputs[n].faults);
      AllNextAreSafe(crypto, base, es, d, n, [d] + steps);
      if inputs[n].power.Some? && inputs[n].power.value < |steps| {
        dev.Write(([d] + steps)[inputs[n].power.value]);
      }
      ds := ds + [dev.disk];
    }
  }

  lemma CleanIsSafe(crypto: Crypto, base: Disk, es: seq<Event>)
    ensures Clean(base) ==> Safe(crypto, base, es, base)
  {
  }

  lemma AllNextAreSafe(crypto: Crypto, base: Disk, es: seq<Event>, d: Disk, n: nat, xs: seq<Disk>)
    requires n < |es| && forall i :: 0 < i < |xs| ==> Next(crypto, d, es[n], xs[i])
    requires |xs| > 0 && xs[0] == d
    ensures forall i :: 0 <= i < |xs| ==> Next(crypto, d, es[n], xs[i])
    ensures Safe(crypto, base, es, d) ==> forall x :: x in xs ==> Safe(crypto, base, es, x)
  {
    assert Next(crypto, d, es[n], d);
    hide Next, Safe;
    if Safe(crypto, base, es, d) {
      forall x | x in xs ensures Safe(crypto, base, es, x) {
        NextIsSafe(crypto, base, es, d, es[n], x);
      }
    }
  }

  // ----- one transaction, as long as its record is kept -----

  /** State of a device that started at `base`, seen from the slot it booted from then. */
  ghost predicate Kept(crypto: Crypto, base: Disk, es: seq<Event>, d: Disk)
  {
    var a := base.Active();
    && !d.slotFile.Invalid?
    && d.Boot(a) == base.Boot(a)
    && (d.Active() != a ==>
          exists e :: e in es && e.Apply? && Passes(crypto, e.req) && d.Boot(Other(a)) == Some(e.req.image))
    && (d.txFile.NoRecord? ==> d.Active() == a)
    && (d.txFile.Record? ==> d.txFile.tx.target == Other(a) && RecordWellFormed(d))
    && !d.txFile.Unreadable?
  }

  lemma NextKeeps(crypto: Crypto, base: Disk, es: seq<Event>, d: Disk, e: Event, x: Disk)
    requires Kept(crypto, base, es, d) && e in es && !e.ClearRecord? && Next(crypto, d, e, x)
    ensures Kept(crypto, base, es, x)
  {
    OtherOther(base.Active());
  }

  /** Without removal of the record, the image in the pre-update slot is never altered, and the
      device boots either that slot or a checked new image. */
  lemma {:induction false} PreUpdateSlotIsKept(crypto: Crypto, ds: seq<Disk>, es: seq<Event>, i: nat)
    requires IsRun(crypto, ds, es) && Clean(ds[0]) && i < |ds|
    requires forall e :: e in es ==> !e.ClearRecord?
    ensures Kept(crypto, ds[0], es, ds[i])
  {
    if i > 0 {
      PreUpdateSlotIsKept(crypto, ds, es, i - 1);
      NextKeeps(crypto, ds[0], es, ds[i - 1], es[i - 1], ds[i]);
    }
  }

  /** Rolling back any reachable committed update returns to exactly the pre-update slot and
      its untouched image. */
  lemma RollbackRestores(crypto: Crypto, ds: seq<Disk>, es: seq<Event>, i: nat)
    requires IsRun(crypto, ds, es) && Clean(ds[0]) && i < |ds|
    requires forall e :: e in es ==> !e.ClearRecord?
    requires ds[i].txFile.Record? && ds[i].txFile.tx.state == Committed
    ensures var x := RolledBackDisk(ds[i]);
            CanRollBack(ds[i]) && x.Active() == ds[0].Active() && x.Boot(x.Active()) == ds[0].Boot(ds[0].Active())
  {
    PreUpdateSlotIsKept(crypto, ds, es, i);
    OtherOther(ds[0].Active());
  }

  /** Once a record exists it is only ever rewritten. So every later update is refused, even
      after an abort, although the refusal asks for one. */
  lemma {:induction false} OneUpdatePerRecord(crypto: Crypto, ds: seq<Disk>, es: seq<Event>, i: nat, j: nat)
    requires IsRun(crypto, ds, es) && i <= j < |ds|
    requires !ds[i].txFile.NoRecord?
    requires forall e :: e in es ==> !e.ClearRecord?
    ensures !ds[j].txFile.NoRecord? && Refused(ds[j])
    decreases j
  {
    if i < j {
      OneUpdatePerRecord(crypto, ds, es, i, j - 1);
      assert Next(crypto, ds[j - 1], es[j - 1], ds[j]) && es[j - 1] in es;
    }
  }

  // ----- recovery -----

  /** Recovery ends in a terminal record, repeats without effect, and never touches the slot
      file or the boot images. */
  lemma RecoveryIsIdempotent(d: Disk)
    ensures Recover(Recover(d)) == Recover(d) && !Interrupted(Recover(d))
    ensures Recover(d).slotFile == d.slotFile && Recover(d).bootA == d.bootA && Recover(d).bootB == d.bootB
    ensures Interrupted(d) ==> Recover(d).txFile.tx.state == Aborted && d.txFile.tx.id !in Recover(d).staging
  {
  }

  /** Recovery assumes that an interrupted update never changed the active slot. Power loss
      between the slot flip and the save of the committed record (point 6 of the nine) breaks
      exactly this: the record ends up aborted while the device boots the new image. */
  lemma FlipWindow(d: Disk, req: Request, cut: nat, k: nat)
    requires !Refused(d) && k < 9
    ensures |ApplySteps(d, req, cut)| == 9
    ensures var y := Recover(ApplySteps(d, req, cut)[k]);
            && y.txFile.Record?
            && (y.txFile.tx.state == Committed <==> k >= 7)
            && (y.txFile.tx.state == Aborted <==> k < 7)
            && (y.Active() != d.Active() <==> k >= 6)
            && (y.txFile.tx.state == Aborted && y.Active() != d.Active() <==> k == 6)
  {
    var s := ApplySteps(d, req, cut);
    var tx := s[0].txFile.tx;
    assert s[6].slotFile == Names(Other(d.Active()));
    assert s[5].slotFile == s[4].slotFile == s[3].slotFile == s[2].slotFile == s[1].slotFile == d.slotFile;
  }

  /** The condition recovery could have tested: the assumption holds for an interrupted update
      exactly when the active slot is not the record's target. */
  lemma RecoveryAssumptionIff(crypto: Crypto, ds: seq<Disk>, es: seq<Event>, i: nat)
    requires IsRun(crypto, ds, es) && Clean(ds[0]) && i < |ds|
    requires forall e :: e in es ==> !e.ClearRecord?
    requires Interrupted(ds[i])
    ensures Recover(ds[i]).Active() == ds[0].Active() <==> ds[i].Active() != ds[i].txFile.tx.target
  {
    PreUpdateSlotIsKept(crypto, ds, es, i);
  }

  /** Aborting a committed update rewrites its record: the new slot stays active and the update
      can no longer be rolled back. */
  lemma AbortForgetsCommit(d: Disk)
    requires CanRollBack(d)
    ensures var x := AbortedDisk(d, d.txFile.tx, true, true);
            Next(Crypto(_ => "", (_, _) => true), d, Abort, x) && x.slotFile == d.slotFile && !CanRollBack(x) && RolledBackDisk(x) == x
  {
  }
}
