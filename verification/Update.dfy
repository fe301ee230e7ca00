/**
 Transactional A/B root filesystem updates.

 A device is its disk: the transaction record, the active-slot file, the two boot images and
 the staging area. Every rename is one atomic step, and power may fail after any step, so
 each operation is specified by all the disk states it passes through (the crash points),
 not only by the one it ends in.
 */
module Update {
  import opened Basics

  type Image = seq<byte>

  datatype Slot = A | B

  function Other(s: Slot): (r: Slot)
    ensures r != s
  {
    if s == A then B else A
  }

  /** `Unrecognised` stands for any state text the code does not know. */
  datatype TxState = Staging | Verifying | Committed | Aborted | Unrecognised

  datatype Transaction = Transaction(id: nat, state: TxState, target: Slot, expectedSha: string, health: Option<Slot>)

  datatype TxFile = NoRecord | Unreadable | Record(tx: Transaction)

  /** A missing active-slot file means slot a; other contents than a or b are an error. */
  datatype SlotFile = Missing | Invalid | Names(slot: Slot)

  datatype Disk = Disk(txFile: TxFile, slotFile: SlotFile, bootA: Option<Image>, bootB: Option<Image>, staging: map<nat, Image>)
  {
    function Boot(s: Slot): Option<Image>
    {
      if s == A then bootA else bootB
    }

    function SetBoot(s: Slot, i: Image): Disk
    {
      if s == A then this.(bootA := Some(i)) else this.(bootB := Some(i))
    }

    /** The slot the device boots from, when the slot file can be read. */
    function Active(): Slot
    {
      if slotFile.Names? then slotFile.slot else A
    }
  }

  /** A device without a slot file boots slot a; otherwise the slot the file names. Writing a slot
      changes that slot's image and nothing else. */
  lemma SlotsMean(d: Disk, s: Slot, i: Image)
    ensures d.slotFile == Missing ==> d.Active() == A
    ensures d.slotFile == Names(s) ==> d.Active() == s
    ensures d.SetBoot(s, i).Boot(s) == Some(i) && d.SetBoot(s, i).Boot(Other(s)) == d.Boot(Other(s))
    ensures d.Boot(A) == d.bootA && d.Boot(B) == d.bootB
  {
  }

  // ----- requests -----

  /** SHA-256 (as hex text) and Ed25519 verification under the configured key, both abstract. */
  datatype Crypto = Crypto(sha: Image -> string, verify: (string, seq<byte>) -> bool)

  datatype Request = Request(id: nat, image: Image, expectedSha: string, keyed: bool, signature: Option<seq<byte>>)

  function Lower(c: char): char
  {
    if 'A' <= c <= 'Z' then 'a' + (c - 'A') else c
  }

  predicate EqualFold(a: string, b: string)
  {
    |a| == |b| && forall i :: 0 <= i < |a| ==> Lower(a[i]) == Lower(b[i])
  }

  /** Characters that differ in the case of a letter only. */
  predicate SameLetter(a: char, b: char)
  {
    ('A' <= a <= 'Z' && b as int == a as int + 32) || ('A' <= b <= 'Z' && a as int == b as int + 32)
  }

  /** Digests are compared without regard to case, and to nothing else. */
  lemma EqualFoldIff(a: string, b: string)
    ensures EqualFold(a, b) <==> |a| == |b| && forall i :: 0 <= i < |a| ==> a[i] == b[i] || SameLetter(a[i], b[i])
  {
    if |a| == |b| {
      forall i | 0 <= i < |a| ensures Lower(a[i]) == Lower(b[i]) <==> a[i] == b[i] || SameLetter(a[i], b[i]) {
        LowerIff(a[i], b[i]);
      }
    }
  }

  lemma LowerIff(a: char, b: char)
    ensures Lower(a) == Lower(b) <==> a == b || SameLetter(a, b)
  {
  }

  predicate ShaOk(crypto: Crypto, req: Request)
  {
    req.expectedSha != "" ==> EqualFold(crypto.sha(req.image), req.expectedSha)
  }

  predicate SignatureOk(crypto: Crypto, req: Request)
  {
    req.keyed && req.signature.Some? ==> crypto.verify(crypto.sha(req.image), req.signature.value)
  }

  /** Every check the request asks for. */
  predicate Passes(crypto: Crypto, req: Request)
  {
    ShaOk(crypto, req) && SignatureOk(crypto, req)
  }

  /** Which of the fallible file operations succeed, and how much of the image is written when
      the reader or the power fails while staging. */
  datatype Faults = Faults(mkdir: bool, saveBegin: bool, stage: bool, cut: nat, saveVerifying: bool, saveHealth: bool,
                           replace: bool, flip: bool, saveCommitted: bool, cleanup: bool, abortRemove: bool, abortSave: bool)

  const NoFaults := Faults(true, true, true, 0, true, true, true, true, true, true, true, true)

  datatype ApplyResult =
    | Applied(tx: Transaction) | TxExists | NoActiveSlot | MkdirFailed | SaveFailed | StageFailed
    | BadSha | BadSignature | ReplaceFailed | FlipFailed

  /** The verification steps in order: digest first, then signature over the digest text. */
  function Check(crypto: Crypto, req: Request, sha: string): (r: Option<ApplyResult>)
    ensures sha == crypto.sha(req.image) ==>
      && (r.None? <==> Passes(crypto, req))
      && (r == Some(BadSha) <==> !ShaOk(crypto, req))
      && (r == Some(BadSignature) <==> ShaOk(crypto, req) && !SignatureOk(crypto, req))
    ensures r.Some? ==> r.value.BadSha? || r.value.BadSignature?
  {
    if req.expectedSha != "" && !EqualFold(sha, req.expectedSha) then Some(BadSha)
    else if req.keyed && req.signature.Some? && !crypto.verify(sha, req.signature.value) then Some(BadSignature)
    else None
  }

  /** The answer to an update request: the first thing that goes wrong, or the committed record. */
  function Answer(crypto: Crypto, d: Disk, req: Request, f: Faults): ApplyResult
  {
    if !d.txFile.NoRecord? then TxExists
    else if d.slotFile.Invalid? then NoActiveSlot
    else if !f.mkdir then MkdirFailed
    else if !f.saveBegin then SaveFailed
    else if !f.stage then StageFailed
    else if !ShaOk(crypto, req) then BadSha
    else if !SignatureOk(crypto, req) then BadSignature
    else CommitAnswer(f, Transaction(req.id, Verifying, Other(d.Active()), req.expectedSha, Some(d.Active())))
  }

  function CommitAnswer(f: Faults, tx: Transaction): ApplyResult
  {
    if !f.replace then ReplaceFailed else if !f.flip then FlipFailed else Applied(tx.(state := Committed))
  }

  /** The update failed before it touched a slot. */
  predicate Failed(r: ApplyResult)
  {
    r.StageFailed? || r.BadSha? || r.BadSignature? || r.ReplaceFailed?
  }

  /** A failed update is aborted: its record says so and its staged image is gone, as far as the
      record can be saved and files can be removed. */
  predicate Cleaned(x: Disk, tx: Transaction, f: Faults)
  {
    && (f.abortSave ==> x.txFile == Record(tx.(state := Aborted)))
    && (f.abortRemove ==> tx.id !in x.staging)
  }

  // ----- crash points -----

  /** What may be on disk at any point of applying `req` to a device whose disk was `d`. */
  ghost predicate ApplyPoint(crypto: Crypto, d: Disk, req: Request, x: Disk)
  {
    var a, t := d.Active(), Other(d.Active());
    && x.Boot(a) == d.Boot(a)
    && (x.Boot(t) != d.Boot(t) ==> Passes(crypto, req) && x.Boot(t) == Some(req.image))
    && (x.slotFile != d.slotFile ==> Passes(crypto, req) && x.slotFile == Names(t) && x.Boot(t) == Some(req.image))
    && (x.txFile == d.txFile ==> x.slotFile == d.slotFile && x.Boot(t) == d.Boot(t))
    && (x.txFile != d.txFile ==> x.txFile.Record? && ApplyRecord(d, req, x, x.txFile.tx))
    && (x.staging != d.staging ==> x.txFile != d.txFile)
  }

  ghost predicate ApplyRecord(d: Disk, req: Request, x: Disk, tx: Transaction)
  {
    && tx.id == req.id && tx.target == Other(d.Active()) && tx.expectedSha == req.expectedSha
    && tx.state != Unrecognised
    && (tx.health.Some? ==> tx.health == Some(d.Active()))
    && (tx.state == Committed ==> tx.health.Some? && x.slotFile == Names(tx.target))
    && (tx.state == Aborted ==> x.slotFile == d.slotFile)
  }

  /** An update has recorded itself but not yet touched slot file or boot images. */
  ghost predicate BeforeCommit(d: Disk, req: Request, x: Disk)
  {
    && d.txFile.NoRecord? && x.txFile.Record? && ApplyRecord(d, req, x, x.txFile.tx)
    && x.slotFile == d.slotFile && x.bootA == d.bootA && x.bootB == d.bootB
  }

  /** The in-memory record of an update of `d`. */
  ghost predicate Belongs(d: Disk, req: Request, tx: Transaction)
  {
    && tx.id == req.id && tx.target == Other(d.Active()) && tx.expectedSha == req.expectedSha
    && tx.state in {Staging, Verifying} && (tx.health.Some? ==> tx.health == Some(d.Active()))
  }

  lemma SaveBeforeCommit(d: Disk, req: Request, x: Disk, tx: Transaction)
    requires BeforeCommit(d, req, x) && Belongs(d, req, tx)
    ensures BeforeCommit(d, req, x.(txFile := Record(tx)))
  {
  }

  lemma AbortBeforeCommit(d: Disk, req: Request, x: Disk, tx: Transaction)
    requires BeforeCommit(d, req, x) && Belongs(d, req, tx)
    ensures forall removed, saved :: BeforeCommit(d, req, AbortedDisk(x, tx, removed, saved))
  {
  }

  lemma BeforeCommitIsSafe(crypto: Crypto, d: Disk, req: Request, x: Disk)
    requires BeforeCommit(d, req, x)
    ensures ApplyPoint(crypto, d, req, x)
  {
  }

  ghost predicate Refused(d: Disk)
  {
    !d.txFile.NoRecord? || d.slotFile.Invalid?
  }

  /** The disk states of an update in which nothing fails. */
  function ApplySteps(d: Disk, req: Request, cut: nat): seq<Disk>
  {
    var t := Other(d.Active());
    var tx := Transaction(req.id, Staging, t, req.expectedSha, None);
    var d1 := d.(txFile := Record(tx));
    [d1] + StageSteps(d1, req, cut, tx, d.Active())
  }

  function StageSteps(d: Disk, req: Request, cut: nat, tx: Transaction, active: Slot): seq<Disk>
  {
    var d2 := d.(staging := d.staging[req.id := Prefix(req.image, cut)]);
    var d3 := d.(staging := d.staging[req.id := req.image]);
    var d4 := d3.(txFile := Record(tx.(state := Verifying)));
    var d5 := d3.(txFile := Record(tx.(state := Verifying, health := Some(active))));
    [d2, d3] + [d4, d5] + CommitSteps(d5, req, tx.(state := Verifying, health := Some(active)))
  }

  function CommitSteps(d: Disk, req: Request, tx: Transaction): seq<Disk>
  {
    var replaced := d.SetBoot(tx.target, req.image).(staging := d.staging - {req.id});
    var flipped := replaced.(slotFile := Names(tx.target));
    var committed := flipped.(txFile := Record(tx.(state := Committed)));
    [replaced, flipped, committed, committed]
  }

  function Prefix(i: Image, n: nat): Image
  {
    if n <= |i| then i[..n] else i
  }

  /** From a verified, staged image on, every step of the commit is a safe crash point. */
  lemma CommitIsSafe(crypto: Crypto, d: Disk, req: Request, x: Disk, tx: Transaction)
    requires BeforeCommit(d, req, x) && Interrupted(x) && Passes(crypto, req) && !Refused(d)
    requires Belongs(d, req, tx) && tx.health == Some(d.Active())
    ensures forall y :: y in CommitSteps(x, req, tx) ==> ApplyPoint(crypto, d, req, y)
  {
  }

  /** abortTx: remove the staged files, then save the record as aborted; either may fail, and
      neither failure is noticed. */
  function AbortedDisk(d: Disk, tx: Transaction, removed: bool, saved: bool): Disk
  {
    var e := if removed then d.(staging := d.staging - {tx.id}) else d;
    if saved then e.(txFile := Record(tx.(state := Aborted))) else e
  }

  /** What may be on disk at any point of aborting the record `tx`: the slot file and the boot
      images are those of `d`. */
  ghost predicate AbortPoint(d: Disk, tx: Transaction, x: Disk)
  {
    exists removed, saved :: x == AbortedDisk(d, tx, removed, saved)
  }

  predicate Interrupted(d: Disk)
  {
    d.txFile.Record? && d.txFile.tx.state in {Staging, Verifying}
  }

  /** Boot-time recovery of a disk, when files can be removed and saved. */
  function Recover(d: Disk): Disk
  {
    if Interrupted(d) then AbortedDisk(d, d.txFile.tx, true, true) else d
  }

  predicate CanRollBack(d: Disk)
  {
    d.txFile.Record? && d.txFile.tx.state == Committed && d.txFile.tx.health.Some?
  }

  function RolledBackDisk(d: Disk): Disk
  {
    if CanRollBack(d) then d.(slotFile := Names(d.txFile.tx.health.value)) else d
  }

  ghost predicate StepsTo(d: Disk, x: Disk)
  {
    x == d || (d.txFile.Record? && AbortPoint(d, d.txFile.tx, x))
  }

  datatype RecoveryResult = NothingToDo | RecoveryError | Recovered(id: nat, state: TxState)

  datatype RollbackResult = RolledBack(slot: Slot) | NothingToRollBack | RollbackError

  // ----- the device -----

  class Device {
    var disk: Disk
    // every disk state so far, the current one last
    ghost var trace: seq<Disk>

    ghost predicate Valid()
      reads this
    {
      trace != [] && trace[|trace| - 1] == disk
    }

    constructor (d: Disk)
      ensures Valid() && disk == d && trace == [d]
    {
      disk := d;
      trace := [d];
    }

    /** One atomic change of the disk. */
    method Write(d: Disk)
      requires Valid()
      modifies this
      ensures Valid() && disk == d && trace == old(trace) + [d]
    {
      disk := d;
      trace := trace + [d];
    }

    /** Saving the record: a failed save leaves the old record. */
    method SaveTx(tx: Transaction, ok: bool) returns (steps: seq<Disk>)
      requires Valid()
      modifies this
      ensures Valid() && trace == old(trace) + steps
      ensures disk == if ok then old(disk).(txFile := Record(tx)) else old(disk)
      ensures steps == if ok then [disk] else []
    {
      steps := [];
      if ok {
        Write(disk.(txFile := Record(tx)));
        steps := [disk];
      }
    }

    method AbortTx(tx: Transaction, removed: bool, saved: bool) returns (steps: seq<Disk>)
      requires Valid()
      modifies this
      ensures Valid() && trace == old(trace) + steps && disk == AbortedDisk(old(disk), tx, removed, saved)
      ensures steps == (if removed then [AbortedDisk(old(disk), tx, true, false)] else []) + (if saved then [disk] else [])
    {
      steps := [];
      if removed {
        Write(disk.(staging := disk.staging - {tx.id}));
        steps := [disk];
      }
      var more := SaveTx(tx.(state := Aborted), saved);
      steps := steps + more;
    }

    /** Saving and aborting before the commit leave the slot file and the boot images alone. */
    method SaveOwn(req: Request, tx: Transaction, ok: bool, ghost d: Disk) returns (steps: seq<Disk>)
      requires Valid() && BeforeCommit(d, req, disk) && Belongs(d, req, tx)
      modifies this
      ensures Valid() && trace == old(trace) + steps
      ensures BeforeCommit(d, req, disk) && forall x :: x in steps ==> BeforeCommit(d, req, x)
      ensures disk == if ok then old(disk).(txFile := Record(tx)) else old(disk)
      ensures steps == if ok then [disk] else []
    {
      SaveBeforeCommit(d, req, disk, tx);
      steps := SaveTx(tx, ok);
    }

    method AbortOwn(req: Request, tx: Transaction, f: Faults, ghost d: Disk) returns (steps: seq<Disk>)
      requires Valid() && BeforeCommit(d, req, disk) && Belongs(d, req, tx)
      modifies this
      ensures Valid() && trace == old(trace) + steps
      ensures BeforeCommit(d, req, disk) && forall x :: x in steps ==> BeforeCommit(d, req, x)
      ensures Cleaned(disk, tx, f)
    {
      AbortBeforeCommit(d, req, disk, tx);
      steps := AbortTx(tx, f.abortRemove, f.abortSave);
    }

    /** Copies the image into the staging area; the power or the reader may fail part-way. */
    method Stage(req: Request, f: Faults, tx: Transaction, ghost d: Disk) returns (ok: bool, steps: seq<Disk>)
      requires Valid() && BeforeCommit(d, req, disk) && Belongs(d, req, tx)
      modifies this
      ensures Valid() && trace == old(trace) + steps
      ensures BeforeCommit(d, req, disk) && forall x :: x in steps ==> BeforeCommit(d, req, x)
      ensures ok == f.stage
      ensures !ok ==> Cleaned(disk, tx, f)
      ensures ok ==> disk == old(disk).(staging := old(disk).staging[req.id := req.image])
      ensures ok ==> steps == [old(disk).(staging := old(disk).staging[req.id := Prefix(req.image, f.cut)]), disk]
    {
      Write(disk.(staging := disk.staging[req.id := Prefix(req.image, f.cut)]));
      steps := [disk];
      if !f.stage {
        var more := AbortOwn(req, tx, f, d);
        steps := steps + more;
        return false, steps;
      }
      Write(disk.(staging := disk.staging[req.id := req.image]));
      steps := steps + [disk];
      assert old(disk).staging[req.id := Prefix(req.image, f.cut)][req.id := req.image] == old(disk).staging[req.id := req.image];
      ok := true;
    }

    /** Checks the staged image and records the health snapshot. */
    method Verify(crypto: Crypto, req: Request, f: Faults, tx0: Transaction, ghost d: Disk)
      returns (r: Option<ApplyResult>, tx: Transaction, steps: seq<Disk>)
      requires Valid() && BeforeCommit(d, req, disk) && Interrupted(disk)
      requires Belongs(d, req, tx0) && tx0.state == Staging && tx0.health.None?
      requires req.id in disk.staging && disk.staging[req.id] == req.image
      modifies this
      ensures Valid() && trace == old(trace) + steps
      ensures BeforeCommit(d, req, disk) && forall x :: x in steps ==> BeforeCommit(d, req, x)
      ensures r.None? <==> Passes(crypto, req)
      ensures r.Some? ==> r.value == if !ShaOk(crypto, req) then BadSha else BadSignature
      ensures r.Some? ==> Cleaned(disk, tx0, f)
      ensures r.None? ==> tx == tx0.(state := Verifying, health := Some(d.Active())) && disk.staging == old(disk).staging && Interrupted(disk)
      ensures r.None? && f.saveVerifying && f.saveHealth ==>
        steps == [old(disk).(txFile := Record(tx0.(state := Verifying))), old(disk).(txFile := Record(tx))]
    {
      hide BeforeCommit, ShaOk, SignatureOk;
      var active := Other(tx0.target);
      var sha := crypto.sha(disk.staging[req.id]);
      tx := tx0.(state := Verifying);
      steps := SaveOwn(req, tx, f.saveVerifying, d);
      var rejected := Check(crypto, req, sha);
      if rejected.Some? {
        var more := AbortOwn(req, tx, f, d);
        TraceJoin(old(trace), steps, more);
        return rejected, tx, steps + more;
      }
      tx := tx.(health := Some(active));
      var more := SaveOwn(req, tx, f.saveHealth, d);
      TraceJoin(old(trace), steps, more);
      steps := steps + more;
      r := None;
    }

    /** Renames the staged image into the inactive slot, flips the slot file, and only then
        records the commit. */
    method Commit(crypto: Crypto, req: Request, f: Faults, tx0: Transaction, ghost d: Disk)
      returns (r: ApplyResult, steps: seq<Disk>)
      requires Valid() && BeforeCommit(d, req, disk) && Interrupted(disk) && Passes(crypto, req)
      requires Belongs(d, req, tx0) && tx0.state == Verifying && tx0.health == Some(d.Active())
      requires req.id in disk.staging && disk.staging[req.id] == req.image
      requires !Refused(d)
      modifies this
      ensures Valid() && trace == old(trace) + steps
      ensures forall x :: x in steps ==> ApplyPoint(crypto, d, req, x)
      ensures r == CommitAnswer(f, tx0)
      ensures r.Applied? ==> disk.slotFile == Names(Other(d.Active())) && (f.saveCommitted ==> disk.txFile == Record(r.tx))
      ensures r.Applied? || r.FlipFailed? ==> disk.Boot(Other(d.Active())) == Some(req.image) && req.id !in disk.staging
      ensures r.ReplaceFailed? ==> disk.slotFile == d.slotFile && disk.bootA == d.bootA && disk.bootB == d.bootB && Cleaned(disk, tx0, f)
      ensures r.FlipFailed? ==> disk.slotFile == d.slotFile && disk.txFile == old(disk).txFile
      ensures f.replace && f.flip && f.saveCommitted && f.cleanup ==> r.Applied? && steps == CommitSteps(old(disk), req, tx0)
    {
      hide ApplyPoint, Passes;
      steps := [];
      if !f.replace {
        steps := AbortOwn(req, tx0, f, d);
        AllSafe(crypto, d, req, steps);
        return ReplaceFailed, steps;
      }
      CommitIsSafe(crypto, d, req, disk, tx0);
      var target := tx0.target;
      Write(disk.SetBoot(target, disk.staging[req.id]).(staging := disk.staging - {req.id}));
      steps := [disk];
      if !f.flip {
        return FlipFailed, steps;
      }
      Write(disk.(slotFile := Names(target)));
      steps := steps + [disk];
      var tx := tx0.(state := Committed);
      var more := SaveTx(tx, f.saveCommitted);
      steps := steps + more;
      if f.cleanup {
        assert disk.staging - {req.id} == disk.staging;
        Write(disk.(staging := disk.staging - {req.id}));
        steps := steps + [disk];
      }
      return Applied(tx), steps;
    }

    /** Everything after the first save of the record. */
    method Proceed(crypto: Crypto, req: Request, f: Faults, tx: Transaction, ghost d: Disk)
      returns (r: ApplyResult, steps: seq<Disk>)
      requires Valid() && BeforeCommit(d, req, disk) && Interrupted(disk) && !Refused(d)
      requires Belongs(d, req, tx) && tx.state == Staging && tx.health.None?
      modifies this
      ensures Valid() && trace == old(trace) + steps
      ensures forall x :: x in steps ==> ApplyPoint(crypto, d, req, x)
      ensures f.mkdir && f.saveBegin ==> r == Answer(crypto, d, req, f)
      ensures !r.TxExists? && !r.NoActiveSlot? && !r.MkdirFailed? && !r.SaveFailed?
      ensures r.Applied? ==> Passes(crypto, req) && disk.slotFile == Names(Other(d.Active())) && (f.saveCommitted ==> disk.txFile == Record(r.tx))
      ensures r.Applied? || r.FlipFailed? ==> disk.Boot(Other(d.Active())) == Some(req.image) && req.id !in disk.staging
      ensures Failed(r) ==> Cleaned(disk, if r.ReplaceFailed? then tx.(health := Some(d.Active())) else tx, f)
      ensures !r.Applied? ==> disk.slotFile == d.slotFile
      ensures !r.Applied? && !r.FlipFailed? ==> disk.bootA == d.bootA && disk.bootB == d.bootB
      ensures Passes(crypto, req) && f == NoFaults.(cut := f.cut) ==>
        r.Applied? && steps == StageSteps(old(disk), req, f.cut, tx, d.Active())
    {
      hide ApplyPoint, BeforeCommit, ShaOk, SignatureOk, StageSteps;
      BeforeCommitKeeps(d, req);
      StageStepsAre(disk, req, f.cut, tx, d.Active());
      var staged;
      staged, steps := Stage(req, f, tx, d);
      AllSafe(crypto, d, req, steps);
      if !staged {
        return StageFailed, steps;
      }
      var rejected, tx', s2 := Verify(crypto, req, f, tx, d);
      AllSafe(crypto, d, req, s2);
      TraceJoin(old(trace), steps, s2);
      steps := steps + s2;
      if rejected.Some? {
        return rejected.value, steps;
      }
      var s3;
      r, s3 := Commit(crypto, req, f, tx', d);
      TraceJoin(old(trace), steps, s3);
      steps := steps + s3;
    }

    /** A full update. */
    method Apply(crypto: Crypto, req: Request, f: Faults) returns (r: ApplyResult, steps: seq<Disk>)
      requires Valid()
      modifies this
      ensures Valid() && trace == old(trace) + steps
      // every crash point is safe
      ensures forall x :: x in steps ==> ApplyPoint(crypto, old(disk), req, x)
      // the refusals change nothing
      ensures r.TxExists? <==> !old(disk).txFile.NoRecord?
      ensures r.NoActiveSlot? <==> old(disk).txFile.NoRecord? && old(disk).slotFile.Invalid?
      ensures r.TxExists? || r.NoActiveSlot? || r.MkdirFailed? || r.SaveFailed? ==> steps == []
      // success means the checks passed and the device boots the new image next
      ensures r.Applied? ==> Passes(crypto, req) && disk.slotFile == Names(Other(old(disk).Active())) && (f.saveCommitted ==> disk.txFile == Record(r.tx))
      ensures r.Applied? || r.FlipFailed? ==> disk.Boot(Other(old(disk).Active())) == Some(req.image) && req.id !in disk.staging
      // the answer is the first thing that went wrong, and a failed update is aborted
      ensures r == Answer(crypto, old(disk), req, f)
      ensures Failed(r) && f.abortSave ==>
        disk.txFile == Record(Transaction(req.id, Aborted, Other(old(disk).Active()), req.expectedSha,
                                          if r.ReplaceFailed? then Some(old(disk).Active()) else None))
      ensures Failed(r) && f.abortRemove ==> req.id !in disk.staging
      // every reported failure leaves the slot file alone; only a failed flip has touched a boot image
      ensures !r.Applied? ==> disk.slotFile == old(disk).slotFile
      ensures !r.Applied? && !r.FlipFailed? ==> disk.bootA == old(disk).bootA && disk.bootB == old(disk).bootB
      // without faults the steps are exactly these, in this order
      ensures !Refused(old(disk)) && Passes(crypto, req) && f == NoFaults.(cut := f.cut) ==>
        r.Applied? && steps == ApplySteps(old(disk), req, f.cut)
    {
      hide StageSteps;
      ghost var d := disk;
      steps := [];
      if !disk.txFile.NoRecord? {
        return TxExists, steps;
      }
      if disk.slotFile.Invalid? {
        return NoActiveSlot, steps;
      }
      if !f.mkdir {
        return MkdirFailed, steps;
      }
      var tx := Transaction(req.id, Staging, Other(disk.Active()), req.expectedSha, None);
      steps := SaveTx(tx, f.saveBegin);
      if !f.saveBegin {
        return SaveFailed, steps;
      }
      BeforeCommitIsSafe(crypto, d, req, disk);
      var more;
      r, more := Proceed(crypto, req, f, tx, d);
      steps := steps + more;
    }

    lemma TraceJoin(trace: seq<Disk>, a: seq<Disk>, b: seq<Disk>)
      ensures trace + a + b == trace + (a + b)
    {
    }

    lemma BeforeCommitKeeps(d: Disk, req: Request)
      ensures forall x :: BeforeCommit(d, req, x) ==> x.slotFile == d.slotFile && x.bootA == d.bootA && x.bootB == d.bootB
    {
    }

    lemma StageStepsAre(d: Disk, req: Request, cut: nat, tx: Transaction, active: Slot)
      ensures var staged, verified := d.(staging := d.staging[req.id := req.image]), tx.(state := Verifying, health := Some(active));
              var checked := staged.(txFile := Record(verified));
              StageSteps(d, req, cut, tx, active) ==
              [d.(staging := d.staging[req.id := Prefix(req.image, cut)]), staged] +
              [staged.(txFile := Record(tx.(state := Verifying))), checked] + CommitSteps(checked, req, verified)
    {
    }

    lemma AllSafe(crypto: Crypto, d: Disk, req: Request, steps: seq<Disk>)
      requires forall x :: x in steps ==> BeforeCommit(d, req, x)
      ensures forall x :: x in steps ==> ApplyPoint(crypto, d, req, x)
    {
      forall x | x in steps ensures ApplyPoint(crypto, d, req, x) {
        BeforeCommitIsSafe(crypto, d, req, x);
      }
    }

    /** Aborts whatever record is on disk, a committed one included. */
    method Abort(removed: bool, saved: bool) returns (ok: bool, steps: seq<Disk>)
      requires Valid()
      modifies this
      ensures Valid() && trace == old(trace) + steps
      ensures forall x :: x in steps ==> StepsTo(old(disk), x)
      ensures ok <==> !old(disk).txFile.Unreadable?
      ensures disk == if old(disk).txFile.Record? then AbortedDisk(old(disk), old(disk).txFile.tx, removed, saved) else old(disk)
    {
      steps := [];
      if disk.txFile.NoRecord? {
        return true, steps;
      }
      if disk.txFile.Unreadable? {
        return false, steps;
      }
      steps := AbortTx(disk.txFile.tx, removed, saved);
      ok := true;
    }

    /** Boot-time recovery. The reported state is read after the record was overwritten, so it
        is always `Aborted`, never the state the update was interrupted in. */
    method CheckRecovery(removed: bool, saved: bool) returns (r: RecoveryResult, steps: seq<Disk>)
      requires Valid()
      modifies this
      ensures Valid() && trace == old(trace) + steps
      ensures forall x :: x in steps ==> Interrupted(old(disk)) && StepsTo(old(disk), x)
      ensures disk == if Interrupted(old(disk)) then AbortedDisk(old(disk), old(disk).txFile.tx, removed, saved) else old(disk)
      ensures removed && saved ==> disk == Recover(old(disk))
      ensures r.Recovered? <==> Interrupted(old(disk))
      ensures r.Recovered? ==> r.id == old(disk).txFile.tx.id && r.state == Aborted
      ensures r.RecoveryError? <==> old(disk).txFile.Unreadable? || (old(disk).txFile.Record? && old(disk).txFile.tx.state == Unrecognised)
    {
      steps := [];
      if disk.txFile.NoRecord? {
        return NothingToDo, steps;
      }
      if disk.txFile.Unreadable? {
        return RecoveryError, steps;
      }
      var tx := disk.txFile.tx;
      match tx.state
      case Committed => return NothingToDo, steps;
      case Aborted => return NothingToDo, steps;
      case Unrecognised => return RecoveryError, steps;
      case _ =>
        steps := AbortTx(tx, removed, saved);
        tx := tx.(state := Aborted);
        return Recovered(tx.id, tx.state), steps;
    }

    /** Reverts the slot file to the slot in the committed record's health snapshot. */
    method RollbackLastUpdate(ok: bool) returns (r: RollbackResult, steps: seq<Disk>)
      requires Valid()
      modifies this
      ensures Valid() && trace == old(trace) + steps
      ensures forall x :: x in steps ==> x == RolledBackDisk(old(disk))
      ensures r.RolledBack? <==> CanRollBack(old(disk)) && ok
      ensures r.RolledBack? ==> disk == RolledBackDisk(old(disk)) && r.slot == disk.Active()
      ensures !r.RolledBack? ==> disk == old(disk)
      ensures r.NothingToRollBack? <==> old(disk).txFile.Record? && !CanRollBack(old(disk))
    {
      steps := [];
      if !disk.txFile.Record? {
        return RollbackError, steps;
      }
      var tx := disk.txFile.tx;
      if tx.state != Committed || tx.health.None? {
        return NothingToRollBack, steps;
      }
      if !ok {
        return RollbackError, steps;
      }
      Write(disk.(slotFile := Names(tx.health.value)));
      return RolledBack(tx.health.value), [disk];
    }
  }
}
