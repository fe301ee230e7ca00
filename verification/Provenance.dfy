/**
 The hash-chained provenance log: writer with rotation and reopening, and the verifier that
 walks all session files in sorted order. SHA-256 and JSON serialisation are abstract.
 */
module Provenance {
  import opened Basics
  import opened StringOrder
  import opened SessionFiles

  datatype EventKind = TurnStart | ToolCall | ToolResult | Completion | TurnEnd

  datatype Payload = Payload(seqno: nat, ts: string, kind: EventKind, turnId: string, content: string, prevHash: string)

  datatype Entry = Entry(payload: Payload, hash: string)

  /** One line of a session file. */
  datatype Line = Blank | Garbage | Good(entry: Entry)

  type Files = map<string, seq<Line>>

  /** The abstract parts: digest as hex text, serialisation of the hashed payload, and the
      length in bytes of a written line. */
  datatype Env = Env(sha: string -> string, json: Payload -> string, lineLength: Line -> nat)

  const GENESIS: string := "0000000000000000000000000000000000000000000000000000000000000000"
  const MAX_FILE_BYTES: nat := 10 * 1024 * 1024

  function HashOf(env: Env, p: Payload): string
  {
    env.sha(p.prevHash + env.json(p))
  }

  // ----- the chain -----

  /** Entries that continue a chain of `n` entries whose last hash is `prev`. */
  ghost predicate ChainFrom(env: Env, es: seq<Entry>, prev: string, n: nat)
  {
    forall i :: 0 <= i < |es| ==> Linked(env, es, prev, n, i)
  }

  ghost predicate Linked(env: Env, es: seq<Entry>, prev: string, n: nat, i: nat)
    requires i < |es|
  {
    && es[i].payload.seqno == n + i + 1
    && es[i].payload.prevHash == (if i == 0 then prev else es[i - 1].hash)
    && es[i].hash == HashOf(env, es[i].payload)
  }

  ghost predicate Chain(env: Env, es: seq<Entry>)
  {
    ChainFrom(env, es, GENESIS, 0)
  }

  function LastHash(es: seq<Entry>): string
  {
    if es == [] then GENESIS else es[|es| - 1].hash
  }

  function Entries(lines: seq<Line>): (es: seq<Entry>)
  {
    if lines == [] then []
    else (if lines[0].Good? then [lines[0].entry] else []) + Entries(lines[1..])
  }

  // ----- the verifier -----

  datatype Break = Unparsable | SeqMismatch | PrevMismatch | HashMismatch

  /** `verified` entries form a chain; the next line breaks it. */
  datatype Verdict = Accepted(count: nat) | Rejected(verified: nat, why: Break)

  /** The verdict on the remaining lines, after `n` verified entries ending in hash `prev`. */
  function Check(env: Env, lines: seq<Line>, prev: string, n: nat): Verdict
  {
    if lines == [] then Accepted(n)
    else match lines[0]
      case Blank => Check(env, lines[1..], prev, n)
      case Garbage => Rejected(n, Unparsable)
      case Good(e) =>
        if e.payload.seqno != n + 1 then Rejected(n, SeqMismatch)
        else if e.payload.prevHash != prev then Rejected(n, PrevMismatch)
        else if e.hash != HashOf(env, e.payload) then Rejected(n, HashMismatch)
        else Check(env, lines[1..], e.hash, n + 1)
  }

  lemma {:induction false} ChainHead(env: Env, e: Entry, es: seq<Entry>, prev: string, n: nat)
    ensures ChainFrom(env, [e] + es, prev, n) <==>
            e.payload.seqno == n + 1 && e.payload.prevHash == prev && e.hash == HashOf(env, e.payload) && ChainFrom(env, es, e.hash, n + 1)
  {
    var all, m := [e] + es, n + 1;
    if ChainFrom(env, all, prev, n) {
      assert Linked(env, all, prev, n, 0);
      forall i | 0 <= i < |es| ensures Linked(env, es, e.hash, m, i) {
        assert Linked(env, all, prev, n, i + 1);
      }
    }
    if e.payload.seqno == n + 1 && e.payload.prevHash == prev && e.hash == HashOf(env, e.payload) && ChainFrom(env, es, e.hash, n + 1) {
      forall i | 0 <= i < |all| ensures Linked(env, all, prev, n, i) {
        if i > 0 {
          assert Linked(env, es, e.hash, n + 1, i - 1);
        }
      }
    }
  }

  /** The verifier accepts exactly the unbroken chains without unreadable lines, and its count
      is the number of entries. */
  lemma {:induction false} CheckIff(env: Env, lines: seq<Line>, prev: string, n: nat)
    ensures Check(env, lines, prev, n).Accepted? <==> Garbage !in lines && ChainFrom(env, Entries(lines), prev, n)
    ensures Check(env, lines, prev, n).Accepted? ==> Check(env, lines, prev, n).count == n + |Entries(lines)|
    decreases lines
  {
    hide ChainFrom;
    if lines == [] {
      EmptyChain(env, prev, n);
    } else {
      assert lines == [lines[0]] + lines[1..];
      match lines[0]
      case Blank =>
        CheckIff(env, lines[1..], prev, n);
        assert Entries(lines) == Entries(lines[1..]);
      case Garbage =>
      case Good(e) =>
        ChainHead(env, e, Entries(lines[1..]), prev, n);
        CheckIff(env, lines[1..], e.hash, n + 1);
    }
  }

  /** The hash the next entry must refer to. */
  function PrevAfter(lines: seq<Line>, prev: string): string
  {
    var es := Entries(lines);
    if es == [] then prev else es[|es| - 1].hash
  }

  /** The reason for which a line breaks a chain of `n` entries ending in `prev`. */
  predicate Breaks(env: Env, l: Line, prev: string, n: nat, why: Break)
  {
    match why
    case Unparsable => l.Garbage?
    case SeqMismatch => l.Good? && l.entry.payload.seqno != n + 1
    case PrevMismatch => l.Good? && l.entry.payload.seqno == n + 1 && l.entry.payload.prevHash != prev
    case HashMismatch =>
      l.Good? && l.entry.payload.seqno == n + 1 && l.entry.payload.prevHash == prev && l.entry.hash != HashOf(env, l.entry.payload)
  }

  /** A rejection names the first line that breaks the chain: everything before it is accepted,
      with the reported count, and the line breaks it for the reported reason. */
  lemma {:induction false} RejectedAtFirstBreak(env: Env, lines: seq<Line>, prev: string, n: nat) returns (k: nat)
    requires Check(env, lines, prev, n).Rejected?
    ensures var r := Check(env, lines, prev, n);
            && k < |lines| && Check(env, lines[..k], prev, n) == Accepted(r.verified)
            && Breaks(env, lines[k], PrevAfter(lines[..k], prev), r.verified, r.why)
    decreases lines
  {
    hide HashOf;
    var rest := lines[1..];
    var prev', n' := prev, n;
    k := 0;
    if lines[0].Blank? {
      k := RejectedAtFirstBreak(env, rest, prev, n);
      k := k + 1;
    } else if lines[0].Good? && !Breaks(env, lines[0], prev, n, SeqMismatch) && !Breaks(env, lines[0], prev, n, PrevMismatch) &&
              !Breaks(env, lines[0], prev, n, HashMismatch) {
      prev', n' := lines[0].entry.hash, n + 1;
      k := RejectedAtFirstBreak(env, rest, prev', n');
      k := k + 1;
    }
    if k > 0 {
      assert lines[..k][1..] == rest[..k - 1] && lines[..k][0] == lines[0];
      PrevAfterHead(lines[..k], prev);
    }
  }

  lemma PrevAfterHead(lines: seq<Line>, prev: string)
    requires lines != []
    ensures PrevAfter(lines, prev) == PrevAfter(lines[1..], if lines[0].Good? then lines[0].entry.hash else prev)
  {
  }

  lemma EmptyChain(env: Env, prev: string, n: nat)
    ensures ChainFrom(env, [], prev, n)
  {
  }

  ghost predicate IsListing(names: seq<string>, keys: set<string>)
  {
    Sorted(names) && NoDuplicates(names) && ToSet(names) == keys
  }

  /** All lines of the named files, in order. */
  function AllLines(files: Files, names: seq<string>): seq<Line>
    requires forall x :: x in names ==> x in files
  {
    if names == [] then [] else files[names[0]] + AllLines(files, names[1..])
  }

  method SortedFiles(files: Files) returns (names: seq<string>)
    ensures IsListing(names, files.Keys)
  {
    var unsorted: seq<string> := [];
    var pending := files.Keys;
    while pending != {}
      invariant pending <= files.Keys && NoDuplicates(unsorted)
      invariant ToSet(unsorted) == files.Keys - pending
    {
      var x :| x in pending;
      assert x !in ToSet(unsorted);
      assert ToSet(unsorted + [x]) == ToSet(unsorted) + {x};
      unsorted := unsorted + [x];
      pending := pending - {x};
    }
    names := SortSlice(unsorted);
    SortingKeeps(unsorted, names);
  }

  /** Walks all session files in sorted order. */
  method VerifyChain(env: Env, files: Files) returns (r: Verdict)
    ensures forall names :: IsListing(names, files.Keys) ==> r == Check(env, AllLines(files, names), GENESIS, 0)
  {
    var names := SortedFiles(files);
    r := VerifyFiles(env, files, names);
    forall other | IsListing(other, files.Keys) ensures other == names {
      ListingIsUnique(other, names);
    }
  }

  method VerifyFiles(env: Env, files: Files, names: seq<string>) returns (r: Verdict)
    requires forall x :: x in names ==> x in files
    ensures r == Check(env, AllLines(files, names), GENESIS, 0)
  {
    var expectedPrev, total := GENESIS, 0;
    var p := 0;
    assert names[0..] == names;
    while p < |names|
      invariant 0 <= p <= |names|
      invariant Check(env, AllLines(files, names), GENESIS, 0) == Check(env, AllLines(files, names[p..]), expectedPrev, total)
    {
      var file := files[names[p]];
      assert names[p..][1..] == names[p + 1..];
      ghost var later := AllLines(files, names[p + 1..]);
      var ln := 0;
      assert file[0..] == file;
      while ln < |file|
        invariant 0 <= ln <= |file|
        invariant Check(env, AllLines(files, names), GENESIS, 0) == Check(env, file[ln..] + later, expectedPrev, total)
      {
        assert (file[ln..] + later)[1..] == file[ln + 1..] + later;
        match file[ln] {
          case Blank =>
          case Garbage =>
            return Rejected(total, Unparsable);
          case Good(entry) =>
            if entry.payload.seqno != total + 1 {
              return Rejected(total, SeqMismatch);
            }
            if entry.payload.prevHash != expectedPrev {
              return Rejected(total, PrevMismatch);
            }
            if entry.hash != HashOf(env, entry.payload) {
              return Rejected(total, HashMismatch);
            }
            expectedPrev := entry.hash;
            total := total + 1;
        }
        ln := ln + 1;
      }
      assert file[ln..] + later == later;
      p := p + 1;
    }
    return Accepted(total);
  }

  // ----- tamper evidence -----

  /** The text that was hashed for an entry. */
  function Preimage(env: Env, e: Entry): string
  {
    e.payload.prevHash + env.json(e.payload)
  }

  /** No digest collision and no serialisation clash between entries of the two logs. */
  ghost predicate NoClash(env: Env, es: seq<Entry>, fs: seq<Entry>)
  {
    forall a, b :: a in es && b in fs ==>
      && (env.sha(Preimage(env, a)) == env.sha(Preimage(env, b)) ==> Preimage(env, a) == Preimage(env, b))
      && (env.json(a.payload) == env.json(b.payload) ==> a.payload == b.payload)
  }

  lemma PrevHashLength(env: Env, es: seq<Entry>)
    requires Chain(env, es) && es != [] && forall s :: |env.sha(s)| == 64
    ensures |es[|es| - 1].payload.prevHash| == 64
  {
    var n := |es| - 1;
    assert Linked(env, es, GENESIS, 0, n);
    if n > 0 {
      assert Linked(env, es, GENESIS, 0, n - 1);
    }
  }

  lemma LastEntriesAgree(env: Env, es: seq<Entry>, fs: seq<Entry>)
    requires Chain(env, es) && Chain(env, fs) && es != [] && fs != []
    requires forall s :: |env.sha(s)| == 64
    requires NoClash(env, es, fs) && LastHash(es) == LastHash(fs)
    ensures |es| == |fs| && es[|es| - 1] == fs[|fs| - 1]
  {
    var a, b := es[|es| - 1], fs[|fs| - 1];
    assert Linked(env, es, GENESIS, 0, |es| - 1) && Linked(env, fs, GENESIS, 0, |fs| - 1);
    assert a in es && b in fs;
    PrevHashLength(env, es);
    PrevHashLength(env, fs);
    var x, y := Preimage(env, a), Preimage(env, b);
    assert x == y;
    assert x[64..] == env.json(a.payload) && y[64..] == env.json(b.payload);
  }

  /** Two non-empty logs that both verify and end in the same hash are equal entry for entry. */
  lemma {:induction false} SameLastHashSameLog(env: Env, es: seq<Entry>, fs: seq<Entry>)
    requires Chain(env, es) && Chain(env, fs) && es != [] && fs != []
    requires forall s :: |env.sha(s)| == 64
    requires NoClash(env, es, fs) && LastHash(es) == LastHash(fs)
    ensures es == fs
  {
    LastEntriesAgree(env, es, fs);
    var n := |es| - 1;
    assert es == es[..n] + [es[n]] && fs == fs[..n] + [fs[n]];
    if n > 0 {
      assert Linked(env, es, GENESIS, 0, n) && Linked(env, fs, GENESIS, 0, n);
      PrefixChain(env, es, n);
      PrefixChain(env, fs, n);
      SameLastHashSameLog(env, es[..n], fs[..n]);
    }
  }

  lemma PrefixChain(env: Env, es: seq<Entry>, n: nat)
    requires Chain(env, es) && n <= |es|
    ensures Chain(env, es[..n])
  {
    forall i | 0 <= i < n ensures Linked(env, es[..n], GENESIS, 0, i) {
      assert Linked(env, es, GENESIS, 0, i);
    }
  }
}
