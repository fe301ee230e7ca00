/**
 The seccomp allowlist compiler: a list of syscall numbers becomes a classic BPF program
 with relative, 8-bit, forward jumps. The reference is a small BPF interpreter.
 */
module SeccompFilter {
  import opened Basics

  const AUDIT_ARCH_AMD64: u32 := 0xc000003e
  const OFFSET_NR: u32 := 0
  const OFFSET_ARCH: u32 := 4

  const LD_W_ABS: u16 := 0x20
  const JMP_JEQ_K: u16 := 0x15
  const RET_K: u16 := 0x06

  const RET_ALLOW: u32 := 0x7fff0000
  const RET_LOG: u32 := 0x7ffc0000
  const RET_DENY: u32 := 0x00050001
  const RET_KILL_PROCESS: u32 := 0x80000000

  datatype SockFilter = SockFilter(code: u16, jt: u8, jf: u8, k: u32)

  /** The part of `struct seccomp_data` the filter reads. */
  datatype Call = Call(nr: u32, arch: u32)

  datatype Verdict = Return(action: u32) | Fault

  function Stmt(code: u16, k: u32): SockFilter
  {
    SockFilter(code, 0, 0, k)
  }

  function Jump(code: u16, k: u32, jt: u8, jf: u8): SockFilter
  {
    SockFilter(code, jt, jf, k)
  }

  // ----- the BPF machine -----

  /** Runs `f` from `pc` with accumulator `acc`. A jump past the end, an unknown opcode or an
      unknown load offset is a fault. Jumps only go forward, which is why this terminates. */
  function Run(f: seq<SockFilter>, pc: nat, acc: u32, call: Call): (v: Verdict)
    decreases |f| - pc
  {
    if pc >= |f| then Fault
    else
      var i := f[pc];
      if i.code == RET_K then Return(i.k)
      else if i.code == LD_W_ABS then
        if i.k == OFFSET_NR then Run(f, pc + 1, call.nr, call)
        else if i.k == OFFSET_ARCH then Run(f, pc + 1, call.arch, call)
        else Fault
      else if i.code == JMP_JEQ_K then
        Run(f, pc + 1 + (if acc == i.k then i.jt else i.jf), acc, call)
      else Fault
  }

  function Execute(f: seq<SockFilter>, call: Call): Verdict
  {
    Run(f, 0, 0, call)
  }

  // ----- the compiler -----

  /** The compiled program: architecture check, one comparison per entry, default, allow.
      The offset to the allow instruction is truncated to 8 bits, as the source does. */
  method BuildFilter(nrs: seq<u32>, defaultAction: u32) returns (f: seq<SockFilter>)
    ensures Compiled(f, nrs, defaultAction)
    ensures forall call :: Execute(f, call) == Meaning(nrs, defaultAction, call)
  {
    f := [
      Stmt(LD_W_ABS, OFFSET_ARCH),
      Jump(JMP_JEQ_K, AUDIT_ARCH_AMD64, 1, 0),
      Stmt(RET_K, RET_KILL_PROCESS),
      Stmt(LD_W_ABS, OFFSET_NR)
    ];
    var n := |nrs|;
    for i := 0 to n
      invariant |f| == 4 + i
      invariant f[0] == Stmt(LD_W_ABS, OFFSET_ARCH) && f[1] == Jump(JMP_JEQ_K, AUDIT_ARCH_AMD64, 1, 0)
      invariant f[2] == Stmt(RET_K, RET_KILL_PROCESS) && f[3] == Stmt(LD_W_ABS, OFFSET_NR)
      invariant forall k :: 0 <= k < i ==> f[4 + k] == Comparison(nrs, k)
    {
      var jt: u8 := (n - i) % 0x100;
      f := f + [Jump(JMP_JEQ_K, nrs[i], jt, 0)];
    }
    f := f + [Stmt(RET_K, defaultAction)];
    f := f + [Stmt(RET_K, RET_ALLOW)];
    forall call ensures Execute(f, call) == Meaning(nrs, defaultAction, call) {
      FilterMeaning(f, nrs, defaultAction, call);
    }
  }

  ghost function Comparison(nrs: seq<u32>, i: nat): SockFilter
    requires i < |nrs|
  {
    Jump(JMP_JEQ_K, nrs[i], (|nrs| - i) % 0x100, 0)
  }

  /** The layout of a compiled program. */
  ghost predicate Compiled(f: seq<SockFilter>, nrs: seq<u32>, defaultAction: u32)
  {
    && |f| == |nrs| + 6
    && f[0] == Stmt(LD_W_ABS, OFFSET_ARCH)
    && f[1] == Jump(JMP_JEQ_K, AUDIT_ARCH_AMD64, 1, 0)
    && f[2] == Stmt(RET_K, RET_KILL_PROCESS)
    && f[3] == Stmt(LD_W_ABS, OFFSET_NR)
    && (forall i :: 0 <= i < |nrs| ==> f[4 + i] == Comparison(nrs, i))
    && f[4 + |nrs|] == Stmt(RET_K, defaultAction)
    && f[5 + |nrs|] == Stmt(RET_K, RET_ALLOW)
  }

  ghost function Filter(nrs: seq<u32>, defaultAction: u32): (f: seq<SockFilter>)
    ensures Compiled(f, nrs, defaultAction)
  {
    [Stmt(LD_W_ABS, OFFSET_ARCH),
     Jump(JMP_JEQ_K, AUDIT_ARCH_AMD64, 1, 0),
     Stmt(RET_K, RET_KILL_PROCESS),
     Stmt(LD_W_ABS, OFFSET_NR)]
    + seq(|nrs|, i requires 0 <= i < |nrs| => Comparison(nrs, i))
    + [Stmt(RET_K, defaultAction), Stmt(RET_K, RET_ALLOW)]
  }

  /** The entries whose jump offset survives the truncation: the last 255. */
  function Effective(nrs: seq<u32>): (r: seq<u32>)
  {
    if |nrs| <= 255 then nrs else nrs[|nrs| - 255..]
  }

  /** What the compiled filter means: foreign architectures are killed, the last 255 entries
      are allowed, everything else gets the default action. */
  function Meaning(nrs: seq<u32>, defaultAction: u32, call: Call): (v: Verdict)
  {
    if call.arch != AUDIT_ARCH_AMD64 then Return(RET_KILL_PROCESS)
    else if call.nr in Effective(nrs) then Return(RET_ALLOW)
    else Return(defaultAction)
  }

  /** Exact meaning of the compiled program for allowlists of every length. */
  lemma FilterMeaning(f: seq<SockFilter>, nrs: seq<u32>, defaultAction: u32, call: Call)
    requires Compiled(f, nrs, defaultAction)
    ensures Execute(f, call) == Meaning(nrs, defaultAction, call)
  {
    assert Execute(f, call) == Run(f, 1, call.arch, call);
    if call.arch != AUDIT_ARCH_AMD64 {
      assert Run(f, 1, call.arch, call) == Run(f, 2, call.arch, call);
    } else {
      assert Run(f, 1, call.arch, call) == Run(f, 3, call.arch, call);
      assert Run(f, 3, call.arch, call) == Run(f, 4, call.nr, call);
      ScanFrom(f, nrs, defaultAction, call, 0);
      assert EffectiveFrom(nrs, 0) == Effective(nrs);
    }
  }

  /** The effective entries at position `i` or later. */
  function EffectiveFrom(nrs: seq<u32>, i: nat): seq<u32>
    requires i <= |nrs|
  {
    if i <= |nrs| - 255 then nrs[|nrs| - 255..] else nrs[i..]
  }

  /** From the i-th comparison on, the verdict is decided by the effective entries from i. A
      match too far from the end wraps its offset; it lands at or before the first effective
      entry and so skips none of them. */
  lemma {:induction false} ScanFrom(f: seq<SockFilter>, nrs: seq<u32>, defaultAction: u32, call: Call, i: nat)
    requires Compiled(f, nrs, defaultAction) && i <= |nrs|
    ensures Run(f, 4 + i, call.nr, call) ==
            Return(if call.nr in EffectiveFrom(nrs, i) then RET_ALLOW else defaultAction)
    decreases |nrs| - i
  {
    var n := |nrs|;
    if i < n {
      EffectiveStep(nrs, i);
      var next := i + 1 + (if nrs[i] == call.nr then (n - i) % 0x100 else 0);
      CompareStep(f, nrs, defaultAction, call, i, next);
      if nrs[i] != call.nr || n - i > 255 {
        ScanFrom(f, nrs, defaultAction, call, next);
      }
    }
  }

  /** One comparison: fall through on a mismatch, jump by the truncated offset on a match. */
  lemma CompareStep(f: seq<SockFilter>, nrs: seq<u32>, defaultAction: u32, call: Call, i: nat, next: nat)
    requires Compiled(f, nrs, defaultAction) && i < |nrs|
    requires next == i + 1 + if nrs[i] == call.nr then (|nrs| - i) % 0x100 else 0
    ensures Run(f, 4 + i, call.nr, call) == Run(f, 4 + next, call.nr, call)
    ensures nrs[i] == call.nr && |nrs| - i <= 255 ==> Run(f, 4 + i, call.nr, call) == Return(RET_ALLOW)
  {
    assert f[4 + i] == Comparison(nrs, i);
  }

  lemma EffectiveStep(nrs: seq<u32>, i: nat)
    requires i < |nrs|
    ensures |nrs| - i <= 255 ==> EffectiveFrom(nrs, i) == [nrs[i]] + EffectiveFrom(nrs, i + 1)
    ensures |nrs| - i > 255 ==> i + 1 + (|nrs| - i) % 0x100 <= |nrs| - 255
  {
    if |nrs| - i > 255 {
      assert |nrs| - i - (|nrs| - i) % 0x100 >= 256;
    }
  }

  /** What the allowlist promises: listed numbers are allowed, others get the default. */
  ghost predicate Faithful(nrs: seq<u32>, defaultAction: u32)
  {
    forall call: Call :: Execute(Filter(nrs, defaultAction), call) ==
      if call.arch != AUDIT_ARCH_AMD64 then Return(RET_KILL_PROCESS)
      else if call.nr in nrs then Return(RET_ALLOW)
      else Return(defaultAction)
  }

  /** The compiler keeps the allowlist's promise exactly when every listed number occurs
      among the last 255 entries; in particular for every list of at most 255 entries. */
  lemma FaithfulIff(nrs: seq<u32>, defaultAction: u32)
    requires defaultAction != RET_ALLOW
    ensures Faithful(nrs, defaultAction) <==> forall x :: x in nrs ==> x in Effective(nrs)
    ensures |nrs| <= 255 ==> Faithful(nrs, defaultAction)
  {
    forall call: Call ensures Execute(Filter(nrs, defaultAction), call) == Meaning(nrs, defaultAction, call) {
      FilterMeaning(Filter(nrs, defaultAction), nrs, defaultAction, call);
    }
    if Faithful(nrs, defaultAction) {
      forall x | x in nrs ensures x in Effective(nrs) {
        var call := Call(x, AUDIT_ARCH_AMD64);
        assert Execute(Filter(nrs, defaultAction), call) == Return(RET_ALLOW);
      }
    }
  }

  /** 255 is the exact bound: with 256 distinct numbers the first one is not allowed. */
  lemma BoundIsTight(nrs: seq<u32>, defaultAction: u32)
    requires |nrs| == 256
    requires forall i, j :: 0 <= i < j < |nrs| ==> nrs[i] != nrs[j]
    ensures Execute(Filter(nrs, defaultAction), Call(nrs[0], AUDIT_ARCH_AMD64)) == Return(defaultAction)
  {
    FilterMeaning(Filter(nrs, defaultAction), nrs, defaultAction, Call(nrs[0], AUDIT_ARCH_AMD64));
    assert Effective(nrs) == nrs[1..];
  }

  // ----- profiles -----

  datatype Profile = Profile(mode: string, syscalls: seq<string>)

  datatype Outcome = Installed(filter: seq<SockFilter>) | UnknownNames(names: seq<string>) | TooLarge(size: nat)

  /** Name resolution over the platform table; unknown names are collected, not skipped. */
  method ResolveNames(names: seq<string>, table: map<string, u32>) returns (nrs: seq<u32>, unknown: seq<string>)
    ensures unknown == Unknown(names, table)
    ensures unknown == [] ==> |nrs| == |names| && forall i :: 0 <= i < |names| ==> names[i] in table && nrs[i] == table[names[i]]
  {
    nrs, unknown := [], [];
    for i := 0 to |names|
      invariant unknown == Unknown(names[..i], table)
      invariant unknown == [] ==> |nrs| == i && forall k :: 0 <= k < i ==> names[k] in table && nrs[k] == table[names[k]]
    {
      assert names[..i + 1][..i] == names[..i];
      if names[i] !in table {
        unknown := unknown + [names[i]];
      } else {
        nrs := nrs + [table[names[i]]];
      }
    }
    assert names[..|names|] == names;
  }

  function Unknown(names: seq<string>, table: map<string, u32>): (r: seq<string>)
    ensures forall x :: x in r <==> x in names && x !in table
  {
    if names == [] then []
    else
      var rest := Unknown(names[..|names| - 1], table);
      var last := names[|names| - 1];
      assert names == names[..|names| - 1] + [last];
      if last in table then rest else rest + [last]
  }

  /** Unknown names are reported in the order of the profile. */
  lemma {:induction false} UnknownConcat(a: seq<string>, b: seq<string>, table: map<string, u32>)
    ensures Unknown(a + b, table) == Unknown(a, table) + Unknown(b, table)
  {
    if b == [] {
      assert a + b == a;
    } else {
      assert (a + b)[..|a + b| - 1] == a + b[..|b| - 1];
      UnknownConcat(a, b[..|b| - 1], table);
    }
  }

  /** The profile lists the number, close enough to its end for the jump to reach. */
  ghost predicate Lists(p: Profile, table: map<string, u32>, nr: u32)
    requires forall x :: x in p.syscalls ==> x in table
  {
    exists i :: 0 <= i < |p.syscalls| && |p.syscalls| - i <= 255 && table[p.syscalls[i]] == nr
  }

  /** Compiling a profile: the profile's own mode overrides the caller's; any mode other than
      "log" denies. The installed filter allows exactly the (last 255) syscalls listed. */
  method CompileProfile(p: Profile, callerMode: string, table: map<string, u32>) returns (r: Outcome)
    ensures r.UnknownNames? <==> exists x :: x in p.syscalls && x !in table
    ensures r.UnknownNames? ==> forall x :: x in r.names <==> x in p.syscalls && x !in table
    ensures r.TooLarge? <==> !r.UnknownNames? && |p.syscalls| + 6 > 65535
    ensures r.Installed? ==>
      forall call: Call :: Execute(r.filter, call) ==
        if call.arch != AUDIT_ARCH_AMD64 then Return(RET_KILL_PROCESS)
        else if Lists(p, table, call.nr) then Return(RET_ALLOW)
        else Return(if (if p.mode != "" then p.mode else callerMode) == "log" then RET_LOG else RET_DENY)
  {
    var mode := callerMode;
    if p.mode != "" {
      mode := p.mode;
    }
    var defaultAction: u32 := if mode == "log" then RET_LOG else RET_DENY;
    var nrs, unknown := ResolveNames(p.syscalls, table);
    if |unknown| > 0 {
      assert unknown[0] in unknown;
      return UnknownNames(unknown);
    }
    var filter := BuildFilter(nrs, defaultAction);
    if |filter| > 65535 {
      return TooLarge(|filter|);
    }
    r := Installed(filter);
    forall call: Call ensures call.nr in Effective(nrs) <==> Lists(p, table, call.nr) {
      NumberOfName(p, table, nrs, call.nr);
    }
  }

  lemma NumberOfName(p: Profile, table: map<string, u32>, nrs: seq<u32>, nr: u32)
    requires |nrs| == |p.syscalls|
    requires forall i :: 0 <= i < |nrs| ==> p.syscalls[i] in table && nrs[i] == table[p.syscalls[i]]
    ensures nr in Effective(nrs) <==> Lists(p, table, nr)
  {
    var e := Effective(nrs);
    var skipped := |nrs| - |e|;
    if nr in e {
      var k :| 0 <= k < |e| && e[k] == nr;
      assert table[p.syscalls[k + skipped]] == nr;
    }
    if Lists(p, table, nr) {
      var i :| 0 <= i < |nrs| && |nrs| - i <= 255 && table[p.syscalls[i]] == nr;
      assert e[i - skipped] == nr;
    }
  }
}
