/**
 The provenance writer: opening scans the last session file, appending rotates when the
 current file is full. A write may fail, leaving nothing in the file.
 */
module ProvenanceWriter {
  import opened Basics
  import opened StringOrder
  import opened SessionFiles
  import opened Provenance

  /** Directory and writer together. */
  datatype State = State(files: Files, file: string, seqno: nat, lastHash: string, fileBytes: nat)

  function Size(env: Env, lines: seq<Line>): nat
  {
    if lines == [] then 0 else Size(env, lines[..|lines| - 1]) + env.lineLength(lines[|lines| - 1])
  }

  /** The file a new writer continues: the last one in the listing, or the first session. */
  function Latest(names: seq<string>): string
  {
    if names == [] then Name(1) else names[|names| - 1]
  }

  function LinesOf(files: Files, file: string): seq<Line>
  {
    if file in files then files[file] else []
  }

  /** Opening: position and last hash come from the last readable entry of the latest file. */
  function Opened(env: Env, files: Files, names: seq<string>): State
  {
    var file := Latest(names);
    var lines := LinesOf(files, file);
    var es := Entries(lines);
    State(files[file := lines], file, if es == [] then 0 else es[|es| - 1].payload.seqno, LastHash(es), Size(env, lines))
  }

  datatype Request = Request(kind: EventKind, turnId: string, content: string, ts: string)

  function NewEntry(env: Env, s: State, r: Request): Entry
  {
    var p := Payload(s.seqno + 1, r.ts, r.kind, r.turnId, r.content, s.lastHash);
    Entry(p, HashOf(env, p))
  }

  /** The next session file; `len() + 1` in the source. */
  function Rotated(s: State): State
  {
    var file := Name(|s.files| + 1);
    s.(files := s.files[file := LinesOf(s.files, file)], file := file, fileBytes := 0)
  }

  /** The state in which the next entry is written. */
  function Ready(s: State): State
  {
    if s.fileBytes >= MAX_FILE_BYTES then Rotated(s) else s
  }

  /** An append whose write fails: the number is already taken, the hash is not. */
  function FailedAppend(s: State): State
  {
    Ready(s).(seqno := s.seqno + 1)
  }

  function Appended(env: Env, s: State, r: Request): State
  {
    var s1 := Ready(s);
    var e := NewEntry(env, s1, r);
    State(s1.files[s1.file := LinesOf(s1.files, s1.file) + [Good(e)]], s1.file, e.payload.seqno, e.hash,
          s1.fileBytes + env.lineLength(Good(e)))
  }

  /** Sequence number and hash of the last readable entry. */
  method Scan(lines: seq<Line>) returns (last: nat, hash: string)
    ensures hash == LastHash(Entries(lines))
    ensures last == if Entries(lines) == [] then 0 else Entries(lines)[|Entries(lines)| - 1].payload.seqno
  {
    hide Entries;
    last, hash := 0, GENESIS;
    ghost var es := Entries(lines);
    ghost var seen: seq<Entry> := [];
    var i := 0;
    assert lines[0..] == lines;
    while i < |lines|
      invariant 0 <= i <= |lines|
      invariant seen + Entries(lines[i..]) == es
      invariant hash == LastHash(seen) && last == if seen == [] then 0 else seen[|seen| - 1].payload.seqno
    {
      EntriesStep(lines, i);
      if lines[i].Good? {
        assert seen + ([lines[i].entry] + Entries(lines[i + 1..])) == seen + [lines[i].entry] + Entries(lines[i + 1..]);
        last, hash := lines[i].entry.payload.seqno, lines[i].entry.hash;
        seen := seen + [lines[i].entry];
      }
      i := i + 1;
    }
    EntriesStep(lines, i);
    assert seen == es;
  }

  lemma EntriesStep(lines: seq<Line>, i: nat)
    requires i <= |lines|
    ensures i == |lines| ==> Entries(lines[i..]) == []
    ensures i < |lines| ==> Entries(lines[i..]) == (if lines[i].Good? then [lines[i].entry] else []) + Entries(lines[i + 1..])
  {
    if i < |lines| {
      assert lines[i..][1..] == lines[i + 1..];
    }
  }

  class Directory {
    var files: Files

    constructor ()
      ensures files == map[]
    {
      files := map[];
    }
  }

  class Writer {
    const dir: Directory
    var file: string
    var seqno: nat
    var lastHash: string
    var fileBytes: nat

    ghost function View(): State
      reads this, dir
    {
      State(dir.files, file, seqno, lastHash, fileBytes)
    }

    constructor Open(env: Env, dir: Directory)
      modifies dir
      ensures this.dir == dir
      ensures forall names :: IsListing(names, old(dir.files).Keys) ==> View() == Opened(env, old(dir.files), names)
    {
      var names := SortedFiles(dir.files);
      var f := Latest(names);
      var lines := LinesOf(dir.files, f);
      var last, hash := Scan(lines);
      this.dir := dir;
      file := f;
      seqno := last;
      lastHash := hash;
      fileBytes := Size(env, lines);
      new;
      dir.files := dir.files[f := lines];
      forall other | IsListing(other, old(dir.files).Keys) ensures other == names {
        ListingIsUnique(other, names);
      }
    }

    method Append(env: Env, r: Request, written: bool) returns (ok: bool)
      modifies this, dir
      ensures ok == written
      ensures View() == if ok then Appended(env, old(View()), r) else FailedAppend(old(View()))
    {
      hide Name, HashOf;
      if fileBytes >= MAX_FILE_BYTES {
        Rotate();
      }
      seqno := seqno + 1;
      var p := Payload(seqno, r.ts, r.kind, r.turnId, r.content, lastHash);
      var e := Entry(p, HashOf(env, p));
      if !written {
        return false;
      }
      dir.files := dir.files[file := LinesOf(dir.files, file) + [Good(e)]];
      fileBytes := fileBytes + env.lineLength(Good(e));
      lastHash := e.hash;
      return true;
    }

    method Rotate()
      modifies this, dir
      ensures View() == Rotated(old(View()))
    {
      file := Name(|dir.files| + 1);
      dir.files := dir.files[file := LinesOf(dir.files, file)];
      fileBytes := 0;
    }
  }

  // ----- runs -----

  datatype Action = Append(r: Request) | Fail | Reopen

  ghost predicate Next(env: Env, s: State, a: Action, t: State)
  {
    match a
    case Append(r) => t == Appended(env, s, r)
    case Fail => t == FailedAppend(s)
    case Reopen => exists names :: IsListing(names, s.files.Keys) && t == Opened(env, s.files, names)
  }

  ghost predicate IsRun(env: Env, ss: seq<State>, acts: seq<Action>)
  {
    && |ss| == |acts| + 1 && ss[0] == Opened(env, map[], [])
    && forall i :: 0 <= i < |acts| ==> Next(env, ss[i], acts[i], ss[i + 1])
  }

  function Appends(acts: seq<Action>): nat
  {
    if acts == [] then 0 else Appends(acts[..|acts| - 1]) + if acts[|acts| - 1].Append? then 1 else 0
  }

  /** What failed appends have done to a log. A failed append leaves the writer one number ahead,
      which reopening repairs, unless it had just rotated: then the empty file hides the end of
      the chain from every later opening. An append in either condition breaks the log. */
  datatype Health = Sound | Ahead | Hidden | Lost

  function After(h: Health, s: State, a: Action): Health
  {
    match a
    case Append(_) => if h == Sound then Sound else Lost
    case Fail => if h in {Hidden, Lost} then h else if s.fileBytes >= MAX_FILE_BYTES then Hidden else Ahead
    case Reopen => if h == Ahead then Sound else h
  }

  function HealthAt(ss: seq<State>, acts: seq<Action>, i: nat): Health
    requires i < |ss| == |acts| + 1
  {
    if i == 0 then Sound else After(HealthAt(ss, acts, i - 1), ss[i - 1], acts[i - 1])
  }

  // ----- what a run has written: one sequence of entries per session file -----

  function ToLines(es: seq<Entry>): (r: seq<Line>)
    ensures |r| == |es| && Garbage !in r
    ensures forall i :: 0 <= i < |r| ==> r[i] == Good(es[i])
  {
    seq(|es|, i requires 0 <= i < |es| => Good(es[i]))
  }

  lemma {:induction false} EntriesOfLines(es: seq<Entry>)
    ensures Entries(ToLines(es)) == es
  {
    if es != [] {
      assert ToLines(es)[1..] == ToLines(es[1..]);
      EntriesOfLines(es[1..]);
      assert es == [es[0]] + es[1..];
    }
  }

  ghost function FilesOf(parts: seq<seq<Entry>>): (f: Files)
  {
    if parts == [] then map[]
    else FilesOf(parts[..|parts| - 1])[Name(|parts|) := ToLines(parts[|parts| - 1])]
  }

  lemma {:induction false} KeysOfParts(parts: seq<seq<Entry>>)
    ensures FilesOf(parts).Keys == ToSet(Numbered(|parts|)) && |FilesOf(parts)| == |parts|
    ensures Name(|parts| + 1) !in FilesOf(parts)
  {
    hide Name;
    var n := |parts|;
    FreshName(n);
    if n > 0 {
      KeysOfParts(parts[..n - 1]);
      FreshName(n - 1);
      assert Numbered(n) == Numbered(n - 1) + [Name(n)];
    }
  }

  lemma FreshName(n: nat)
    ensures Name(n + 1) !in ToSet(Numbered(n))
  {
    hide Name;
    if Name(n + 1) in ToSet(Numbered(n)) {
      var i :| 0 <= i < n && Numbered(n)[i] == Name(n + 1);
      NamesDiffer(i + 1, n + 1);
    }
  }

  function Flat(parts: seq<seq<Entry>>): seq<Entry>
  {
    if parts == [] then [] else Flat(parts[..|parts| - 1]) + parts[|parts| - 1]
  }

  /** The files hold the parts in order and the writer is at the end of the last one. */
  ghost predicate Layout(env: Env, s: State, parts: seq<seq<Entry>>)
  {
    && |parts| > 0 && s.files == FilesOf(parts) && s.file == Name(|parts|)
    && s.fileBytes == Size(env, ToLines(parts[|parts| - 1]))
  }

  ghost predicate Full(parts: seq<seq<Entry>>, n: nat)
  {
    forall i :: 0 <= i < n && i < |parts| ==> parts[i] != []
  }

  /** The writer stands where the chain ends. */
  ghost predicate AtEnd(s: State, es: seq<Entry>)
  {
    s.seqno == |es| && s.lastHash == LastHash(es)
  }

  /** The state of a log in each condition. */
  ghost predicate Holds(env: Env, h: Health, s: State, parts: seq<seq<Entry>>)
  {
    Layout(env, s, parts) &&
    match h
    case Sound => Chain(env, Flat(parts)) && AtEnd(s, Flat(parts)) && (|parts| > 1 ==> Full(parts, |parts|))
    case Ahead => Chain(env, Flat(parts)) && s.seqno > |Flat(parts)| && (|parts| > 1 ==> Full(parts, |parts|))
    case Hidden =>
      && Chain(env, Flat(parts)) && Flat(parts) != [] && Full(parts, |parts| - 1) && parts[|parts| - 1] == []
      && (s.seqno > |Flat(parts)| || s.lastHash == GENESIS)
    case Lost => !Chain(env, Flat(parts))
  }

  lemma InitialHolds(env: Env)
    ensures Holds(env, Sound, Opened(env, map[], []), [[]]) && Flat([[]]) == []
  {
    var parts: seq<seq<Entry>> := [[]];
    assert parts[..0] == [];
  }

  lemma ChainSnoc(env: Env, es: seq<Entry>, e: Entry)
    requires Chain(env, es) && e.hash == HashOf(env, e.payload)
    ensures Chain(env, es + [e]) <==> e.payload.seqno == |es| + 1 && e.payload.prevHash == LastHash(es)
    ensures LastHash(es + [e]) == e.hash
  {
    var all := es + [e];
    if e.payload.seqno == |es| + 1 && e.payload.prevHash == LastHash(es) {
      forall i | 0 <= i < |all| ensures Linked(env, all, GENESIS, 0, i) {
        if i < |es| {
          assert Linked(env, es, GENESIS, 0, i);
        }
      }
    } else {
      assert !Linked(env, all, GENESIS, 0, |es|);
    }
  }

  lemma ChainPrefix(env: Env, es: seq<Entry>, e: Entry)
    requires Chain(env, es + [e])
    ensures Chain(env, es)
  {
    forall i | 0 <= i < |es| ensures Linked(env, es, GENESIS, 0, i) {
      assert Linked(env, es + [e], GENESIS, 0, i);
    }
  }

  /** One more entry in the last file. */
  lemma GrowLast(parts: seq<seq<Entry>>, e: Entry)
    requires |parts| > 0
    ensures var parts' := parts[..|parts| - 1] + [parts[|parts| - 1] + [e]];
            && Flat(parts') == Flat(parts) + [e]
            && FilesOf(parts') == FilesOf(parts)[Name(|parts|) := ToLines(parts[|parts| - 1]) + [Good(e)]]
  {
    hide Name, Flat, FilesOf;
    var n := |parts| - 1;
    var init, last := parts[..n], parts[n];
    assert parts == init + [last];
    FlatSnoc(init, last);
    FlatSnoc(init, last + [e]);
    FilesSnoc(init, last);
    FilesSnoc(init, last + [e]);
    assert ToLines(last + [e]) == ToLines(last) + [Good(e)];
  }

  /** A new, empty file. */
  lemma GrowNew(parts: seq<seq<Entry>>)
    ensures Flat(parts + [[]]) == Flat(parts)
    ensures FilesOf(parts + [[]]) == FilesOf(parts)[Name(|parts| + 1) := []]
  {
    hide Name, Flat, FilesOf;
    FlatSnoc(parts, []);
    FilesSnoc(parts, []);
    assert Flat(parts) + [] == Flat(parts) && ToLines([]) == [];
  }

  lemma FlatSnoc(parts: seq<seq<Entry>>, es: seq<Entry>)
    ensures Flat(parts + [es]) == Flat(parts) + es
  {
    assert (parts + [es])[..|parts|] == parts;
  }

  lemma FilesSnoc(parts: seq<seq<Entry>>, es: seq<Entry>)
    ensures FilesOf(parts + [es]) == FilesOf(parts)[Name(|parts| + 1) := ToLines(es)]
  {
    hide Name;
    assert (parts + [es])[..|parts|] == parts;
  }

  lemma SizeSnoc(env: Env, lines: seq<Line>, l: Line)
    ensures Size(env, lines + [l]) == Size(env, lines) + env.lineLength(l)
  {
    assert (lines + [l])[..|lines|] == lines;
  }

  lemma CurrentFile(parts: seq<seq<Entry>>)
    requires |parts| > 0
    ensures Name(|parts|) in FilesOf(parts) && LinesOf(FilesOf(parts), Name(|parts|)) == ToLines(parts[|parts| - 1])
  {
  }

  /** Rotating adds an empty file with the next number; a full file is not empty. */
  lemma ReadyLayout(env: Env, s: State, parts: seq<seq<Entry>>) returns (parts': seq<seq<Entry>>)
    requires Layout(env, s, parts)
    ensures Layout(env, Ready(s), parts') && Flat(parts') == Flat(parts)
    ensures parts' == if s.fileBytes >= MAX_FILE_BYTES then parts + [[]] else parts
    ensures s.fileBytes >= MAX_FILE_BYTES ==> parts[|parts| - 1] != []
    ensures Ready(s).seqno == s.seqno && Ready(s).lastHash == s.lastHash
  {
    hide Name, FilesOf, Flat;
    parts' := parts;
    if s.fileBytes >= MAX_FILE_BYTES {
      KeysOfParts(parts);
      GrowNew(parts);
      parts' := parts + [[]];
      assert ToLines([]) == [];
    }
  }

  /** Writing an entry extends the last file and the chain by it. */
  lemma WriteLayout(env: Env, s: State, e: Entry, parts: seq<seq<Entry>>) returns (parts': seq<seq<Entry>>)
    requires Layout(env, s, parts)
    ensures var t := State(s.files[s.file := LinesOf(s.files, s.file) + [Good(e)]], s.file, e.payload.seqno, e.hash,
                           s.fileBytes + env.lineLength(Good(e)));
            Layout(env, t, parts')
    ensures Flat(parts') == Flat(parts) + [e]
    ensures |parts'| == |parts| && (Full(parts, |parts| - 1) ==> Full(parts', |parts'|))
    ensures parts' == Extended(parts, e)
  {
    hide Name, FilesOf, Flat, Size;
    var n := |parts| - 1;
    parts' := parts[..n] + [parts[n] + [e]];
    GrowLast(parts, e);
    CurrentFile(parts);
    SizeSnoc(env, ToLines(parts[n]), Good(e));
    assert ToLines(parts[n] + [e]) == ToLines(parts[n]) + [Good(e)];
  }

  lemma AppendLayout(env: Env, s: State, r: Request, parts: seq<seq<Entry>>) returns (parts': seq<seq<Entry>>)
    requires Layout(env, s, parts)
    ensures Layout(env, Appended(env, s, r), parts')
    ensures Flat(parts') == Flat(parts) + [NewEntry(env, s, r)]
    ensures (|parts| > 1 ==> Full(parts, |parts|)) ==> (|parts'| > 1 ==> Full(parts', |parts'|))
    ensures |parts'| == |parts| + if s.fileBytes >= MAX_FILE_BYTES then 1 else 0
    ensures parts' == Extended(if s.fileBytes >= MAX_FILE_BYTES then parts + [[]] else parts, NewEntry(env, s, r))
  {
    hide Layout, Flat, HashOf, Rotated, LinesOf;
    var ready := ReadyLayout(env, s, parts);
    parts' := WriteLayout(env, Ready(s), NewEntry(env, s, r), ready);
  }

  /** One more entry at the end of the last part. */
  ghost function Extended(parts: seq<seq<Entry>>, e: Entry): seq<seq<Entry>>
    requires |parts| > 0
  {
    parts[..|parts| - 1] + [parts[|parts| - 1] + [e]]
  }

  /** Reopening finds the last file again, as long as names sort numerically. */
  lemma ReopenLayout(env: Env, s: State, names: seq<string>, parts: seq<seq<Entry>>)
    requires Layout(env, s, parts) && |parts| <= 9999 && IsListing(names, s.files.Keys)
    ensures var es := parts[|parts| - 1];
            Opened(env, s.files, names) == s.(seqno := if es == [] then 0 else es[|es| - 1].payload.seqno, lastHash := LastHash(es))
  {
    hide Name, FilesOf, Size;
    var n := |parts|;
    KeysOfParts(parts);
    ListedInOrder(names, n);
    CurrentFile(parts);
    EntriesOfLines(parts[n - 1]);
    assert s.files[s.file := s.files[s.file]] == s.files;
  }

  lemma ListedInOrder(names: seq<string>, n: nat)
    requires n <= 9999 && IsListing(names, ToSet(Numbered(n)))
    ensures names == Numbered(n)
  {
    NumberedIsSorted(n);
    NumberedIsDistinct(n);
    ListingIsUnique(names, Numbered(n));
  }

  /** The last file alone tells where the chain ends. */
  lemma LastPart(env: Env, parts: seq<seq<Entry>>)
    requires |parts| > 0 && Chain(env, Flat(parts))
    requires |parts| > 1 ==> parts[|parts| - 1] != []
    ensures var es := parts[|parts| - 1];
            && LastHash(es) == LastHash(Flat(parts))
            && |Flat(parts)| == if es == [] then 0 else es[|es| - 1].payload.seqno
  {
    var es, all := parts[|parts| - 1], Flat(parts);
    if es == [] {
      assert parts[..0] == [];
    } else {
      assert all[|all| - 1] == es[|es| - 1];
      assert Linked(env, all, GENESIS, 0, |all| - 1);
    }
  }

  /** Reopening restores exactly the state a sound writer had. */
  lemma ReopenKeeps(env: Env, s: State, names: seq<string>, parts: seq<seq<Entry>>)
    requires Holds(env, Sound, s, parts) && |parts| <= 9999 && IsListing(names, s.files.Keys)
    ensures Opened(env, s.files, names) == s
  {
    hide FilesOf, Name, Size, Opened, Chain, Flat, IsListing;
    ReopenLayout(env, s, names, parts);
    LastPart(env, parts);
  }

  // ----- every step keeps the condition -----

  ghost predicate NoZeroDigest(env: Env)
  {
    forall x :: env.sha(x) != GENESIS
  }

  lemma AppendHolds(env: Env, h: Health, s: State, r: Request, parts: seq<seq<Entry>>) returns (parts': seq<seq<Entry>>)
    requires Holds(env, h, s, parts) && (h == Hidden ==> NoZeroDigest(env))
    ensures Holds(env, After(h, s, Append(r)), Appended(env, s, r), parts')
    ensures |Flat(parts')| == |Flat(parts)| + 1 && |parts'| == |parts| + if s.fileBytes >= MAX_FILE_BYTES then 1 else 0
  {
    hide Layout, Flat, Chain, HashOf;
    parts' := AppendLayout(env, s, r, parts);
    var es, e := Flat(parts), NewEntry(env, s, r);
    if h == Lost {
      if Chain(env, es + [e]) {
        ChainPrefix(env, es, e);
      }
    } else {
      ChainSnoc(env, es, e);
      if h == Hidden {
        NotGenesis(env, es);
      }
    }
  }

  lemma NotGenesis(env: Env, es: seq<Entry>)
    requires NoZeroDigest(env) && Chain(env, es) && es != []
    ensures LastHash(es) != GENESIS
  {
    assert Linked(env, es, GENESIS, 0, |es| - 1);
  }

  lemma FailHolds(env: Env, h: Health, s: State, parts: seq<seq<Entry>>) returns (parts': seq<seq<Entry>>)
    requires Holds(env, h, s, parts)
    ensures Holds(env, After(h, s, Fail), FailedAppend(s), parts') && Flat(parts') == Flat(parts)
  {
    hide Flat, Chain, FilesOf, Name;
    parts' := ReadyLayout(env, s, parts);
    if s.fileBytes >= MAX_FILE_BYTES {
      LastIsIn(parts);
    }
  }

  lemma LastIsIn(parts: seq<seq<Entry>>)
    requires |parts| > 0 && parts[|parts| - 1] != []
    ensures Flat(parts) != []
  {
  }

  lemma ReopenHolds(env: Env, h: Health, s: State, names: seq<string>, parts: seq<seq<Entry>>)
    requires Holds(env, h, s, parts) && |parts| <= 9999 && IsListing(names, s.files.Keys)
    ensures Holds(env, After(h, s, Reopen), Opened(env, s.files, names), parts)
  {
    hide Opened, Chain, Flat, FilesOf, Name, Size, IsListing;
    ReopenLayout(env, s, names, parts);
    if h in {Sound, Ahead} {
      LastPart(env, parts);
    }
  }

  lemma FileCount(env: Env, s: State, parts: seq<seq<Entry>>)
    requires Layout(env, s, parts)
    ensures |s.files| == |parts|
  {
    KeysOfParts(parts);
  }

  // ----- files only ever grow -----

  ghost predicate Grows(f: Files, g: Files)
  {
    forall x :: x in f ==> x in g && f[x] <= g[x]
  }

  lemma StepGrows(env: Env, s: State, a: Action, t: State)
    requires Next(env, s, a, t)
    ensures Grows(s.files, t.files)
  {
    hide Name, HashOf, Size;
  }

  lemma CountGrows(f: Files, g: Files)
    requires Grows(f, g)
    ensures |f| <= |g|
  {
    assert f.Keys <= g.Keys;
    assert g.Keys == f.Keys + (g.Keys - f.Keys);
  }

  lemma {:induction false} EntriesAppend(a: seq<Line>, b: seq<Line>)
    ensures Entries(a + b) == Entries(a) + Entries(b)
  {
    if a == [] {
      assert a + b == b;
    } else {
      var head: seq<Entry> := if a[0].Good? then [a[0].entry] else [];
      assert (a + b)[1..] == a[1..] + b && (a + b)[0] == a[0];
      EntriesAppend(a[1..], b);
      assert Entries(a + b) == head + (Entries(a[1..]) + Entries(b));
      assert Entries(a) == head + Entries(a[1..]);
    }
  }

  lemma {:induction false} AllLinesAppend(files: Files, a: seq<string>, x: string)
    requires x in files && forall y :: y in a ==> y in files
    ensures AllLines(files, a + [x]) == AllLines(files, a) + files[x]
  {
    if a == [] {
      assert a + [x] == [x] && [x][1..] == [];
    } else {
      assert (a + [x])[1..] == a[1..] + [x];
      AllLinesAppend(files, a[1..], x);
    }
  }

  lemma {:induction false} SameFilesSameLines(f: Files, g: Files, names: seq<string>)
    requires forall x :: x in names ==> x in f && x in g && f[x] == g[x]
    ensures AllLines(f, names) == AllLines(g, names)
  {
    if names != [] {
      SameFilesSameLines(f, g, names[1..]);
    }
  }

  /** A new last file changes no other. */
  lemma OlderFilesStay(parts: seq<seq<Entry>>)
    requires |parts| > 0
    ensures var n, f, g := |parts|, FilesOf(parts[..|parts| - 1]), FilesOf(parts);
            && (forall x :: x in Numbered(n - 1) ==> x in f && x in g && f[x] == g[x])
            && Name(n) in g && g[Name(n)] == ToLines(parts[n - 1])
  {
    hide Name;
    var n := |parts|;
    KeysOfParts(parts[..n - 1]);
    FreshName(n - 1);
    var older := Numbered(n - 1);
    assert forall x :: x in older ==> x in ToSet(older) && x != Name(n);
  }

  /** Read in numeric order, the files give back the whole chain. */
  lemma {:induction false} LinesOfParts(parts: seq<seq<Entry>>)
    ensures forall x :: x in Numbered(|parts|) ==> x in FilesOf(parts)
    ensures var lines := AllLines(FilesOf(parts), Numbered(|parts|)); Entries(lines) == Flat(parts) && Garbage !in lines
  {
    hide Name, FilesOf;
    var n := |parts|;
    KeysOfParts(parts);
    assert forall x :: x in Numbered(n) ==> x in ToSet(Numbered(n));
    if n > 0 {
      var init, last := parts[..n - 1], ToLines(parts[n - 1]);
      LinesOfParts(init);
      assert Numbered(n) == Numbered(n - 1) + [Name(n)];
      OlderFilesStay(parts);
      SameFilesSameLines(FilesOf(init), FilesOf(parts), Numbered(n - 1));
      AllLinesAppend(FilesOf(parts), Numbered(n - 1), Name(n));
      EntriesAppend(AllLines(FilesOf(init), Numbered(n - 1)), last);
      EntriesOfLines(parts[n - 1]);
    }
  }

  // ----- every run -----

  /** The condition of every state with at most 9999 files. */
  lemma {:induction false} RunHolds(env: Env, ss: seq<State>, acts: seq<Action>, i: nat) returns (parts: seq<seq<Entry>>)
    requires IsRun(env, ss, acts) && i < |ss| && |ss[i].files| <= 9999
    requires HealthAt(ss, acts, i) == Lost ==> NoZeroDigest(env)
    ensures Holds(env, HealthAt(ss, acts, i), ss[i], parts) && |Flat(parts)| == Appends(acts[..i])
  {
    hide Holds, Appended, Opened, FailedAppend, Grows;
    if i == 0 {
      InitialHolds(env);
      parts := [[]];
    } else {
      assert Next(env, ss[i - 1], acts[i - 1], ss[i]);
      StepGrows(env, ss[i - 1], acts[i - 1], ss[i]);
      CountGrows(ss[i - 1].files, ss[i].files);
      var before := RunHolds(env, ss, acts, i - 1);
      parts := StepHolds(env, HealthAt(ss, acts, i - 1), ss[i - 1], acts[i - 1], ss[i], before);
      assert acts[..i][..i - 1] == acts[..i - 1];
    }
  }

  lemma StepHolds(env: Env, h: Health, s: State, a: Action, t: State, parts: seq<seq<Entry>>) returns (parts': seq<seq<Entry>>)
    requires Holds(env, h, s, parts) && Next(env, s, a, t)
    requires a.Reopen? ==> |s.files| <= 9999
    requires After(h, s, a) == Lost ==> NoZeroDigest(env)
    ensures Holds(env, After(h, s, a), t, parts')
    ensures |Flat(parts')| == |Flat(parts)| + if a.Append? then 1 else 0
  {
    hide Layout, Appended, Opened, FailedAppend, Flat, Chain;
    match a
    case Append(r) => parts' := AppendHolds(env, h, s, r, parts);
    case Fail => parts' := FailHolds(env, h, s, parts);
    case Reopen =>
      var names :| IsListing(names, s.files.Keys) && t == Opened(env, s.files, names);
      FileCount(env, s, parts);
      ReopenHolds(env, h, s, names, parts);
      parts' := parts;
  }

  lemma VerdictOfParts(env: Env, s: State, parts: seq<seq<Entry>>, names: seq<string>)
    requires Layout(env, s, parts) && |parts| <= 9999 && IsListing(names, s.files.Keys)
    ensures var v := Check(env, AllLines(s.files, names), GENESIS, 0);
            (v.Accepted? <==> Chain(env, Flat(parts))) && (v.Accepted? ==> v == Accepted(|Flat(parts)|))
  {
    hide Check, AllLines, FilesOf, Flat, Name, Entries, ChainFrom, Numbered, Size;
    KeysOfParts(parts);
    ListedInOrder(names, |parts|);
    LinesOfParts(parts);
    CheckIff(env, AllLines(s.files, names), GENESIS, 0);
  }

  /** Every run of appends (with the rotations they cause), failed appends and reopens that stays
      sound leaves a directory the verifier accepts, with a count equal to the number of appends. */
  lemma RunsVerify(env: Env, ss: seq<State>, acts: seq<Action>, i: nat, names: seq<string>)
    requires IsRun(env, ss, acts) && i < |ss| && |ss[i].files| <= 9999
    requires HealthAt(ss, acts, i) != Lost && IsListing(names, ss[i].files.Keys)
    ensures Check(env, AllLines(ss[i].files, names), GENESIS, 0) == Accepted(Appends(acts[..i]))
  {
    hide Layout, Next, Check, AllLines, Chain;
    var parts := RunHolds(env, ss, acts, i);
    FileCount(env, ss[i], parts);
    VerdictOfParts(env, ss[i], parts, names);
  }

  /** With at most 9999 files, the verifier accepts exactly the logs in which no append followed a
      failed one before the writer was reopened, and none at all if the failed one had rotated. */
  lemma AcceptedIffNotLost(env: Env, ss: seq<State>, acts: seq<Action>, i: nat, names: seq<string>)
    requires IsRun(env, ss, acts) && i < |ss| && |ss[i].files| <= 9999 && NoZeroDigest(env)
    requires IsListing(names, ss[i].files.Keys)
    ensures Check(env, AllLines(ss[i].files, names), GENESIS, 0).Accepted? <==> HealthAt(ss, acts, i) != Lost
  {
    hide Layout, Next, Check, AllLines, Chain;
    var parts := RunHolds(env, ss, acts, i);
    FileCount(env, ss[i], parts);
    VerdictOfParts(env, ss[i], parts, names);
  }

  // ----- what the log says -----

  /** The entry says what was to be recorded. */
  ghost predicate Records(e: Entry, r: Request)
  {
    e.payload.ts == r.ts && e.payload.kind == r.kind && e.payload.turnId == r.turnId && e.payload.content == r.content
  }

  /** The requests of the successful appends, in order. */
  function Requested(acts: seq<Action>): (rs: seq<Request>)
    ensures |rs| == Appends(acts)
  {
    if acts == [] then []
    else Requested(acts[..|acts| - 1]) + if acts[|acts| - 1].Append? then [acts[|acts| - 1].r] else []
  }

  ghost predicate AllRecorded(es: seq<Entry>, rs: seq<Request>)
  {
    |es| == |rs| && forall k :: 0 <= k < |es| ==> Records(es[k], rs[k])
  }

  /** Every part but the last has reached the size limit, and none had before its last entry. */
  ghost predicate Sized(env: Env, parts: seq<seq<Entry>>)
  {
    forall i :: 0 <= i < |parts| ==> SizedAt(env, parts[i], i == |parts| - 1)
  }

  ghost predicate SizedAt(env: Env, es: seq<Entry>, last: bool)
  {
    && (!last ==> Size(env, ToLines(es)) >= MAX_FILE_BYTES)
    && (es != [] ==> Size(env, ToLines(es[..|es| - 1])) < MAX_FILE_BYTES)
  }

  lemma SizedReady(env: Env, s: State, parts: seq<seq<Entry>>)
    requires Layout(env, s, parts) && Sized(env, parts)
    ensures Sized(env, if s.fileBytes >= MAX_FILE_BYTES then parts + [[]] else parts)
  {
    hide FilesOf, Name, Size;
    var next := parts + [[]];
    if s.fileBytes >= MAX_FILE_BYTES {
      forall i | 0 <= i < |next| ensures SizedAt(env, next[i], i == |next| - 1) {
        if i < |parts| {
          assert SizedAt(env, parts[i], i == |parts| - 1);
        }
      }
    }
  }

  lemma SizedExtended(env: Env, parts: seq<seq<Entry>>, e: Entry)
    requires |parts| > 0 && Sized(env, parts) && Size(env, ToLines(parts[|parts| - 1])) < MAX_FILE_BYTES
    ensures Sized(env, Extended(parts, e))
  {
    hide Size;
    var n, next := |parts| - 1, Extended(parts, e);
    assert next[n][..|next[n]| - 1] == parts[n];
    forall i | 0 <= i < |next| ensures SizedAt(env, next[i], i == |next| - 1) {
      if i < n {
        assert SizedAt(env, parts[i], false);
      }
    }
  }

  /** In every state of every run with at most 9999 files, whatever failed. */
  lemma {:induction false} RunRecords(env: Env, ss: seq<State>, acts: seq<Action>, i: nat) returns (parts: seq<seq<Entry>>)
    requires IsRun(env, ss, acts) && i < |ss| && |ss[i].files| <= 9999
    ensures Layout(env, ss[i], parts) && Sized(env, parts) && AllRecorded(Flat(parts), Requested(acts[..i]))
  {
    hide Layout, Sized, AllRecorded, Next, Opened, Grows, Requested;
    if i == 0 {
      InitialHolds(env);
      parts := [[]];
      FirstRecords(env);
    } else {
      assert Next(env, ss[i - 1], acts[i - 1], ss[i]);
      StepGrows(env, ss[i - 1], acts[i - 1], ss[i]);
      CountGrows(ss[i - 1].files, ss[i].files);
      var before := RunRecords(env, ss, acts, i - 1);
      assert acts[..i] == acts[..i - 1] + [acts[i - 1]];
      parts := StepRecords(env, ss[i - 1], acts[i - 1], ss[i], before, acts[..i - 1]);
    }
  }

  lemma FirstRecords(env: Env)
    ensures Layout(env, Opened(env, map[], []), [[]]) && Sized(env, [[]]) && AllRecorded(Flat([[]]), Requested([]))
  {
    InitialHolds(env);
  }

  lemma StepRecords(env: Env, s: State, a: Action, t: State, parts: seq<seq<Entry>>, acts: seq<Action>)
    returns (parts': seq<seq<Entry>>)
    requires Layout(env, s, parts) && Sized(env, parts) && AllRecorded(Flat(parts), Requested(acts))
    requires Next(env, s, a, t) && (a.Reopen? ==> |s.files| <= 9999)
    ensures Layout(env, t, parts') && Sized(env, parts') && AllRecorded(Flat(parts'), Requested(acts + [a]))
  {
    hide Sized, Opened, Flat, FilesOf, Name, Size, HashOf;
    assert (acts + [a])[..|acts|] == acts;
    SizedReady(env, s, parts);
    match a
    case Append(r) =>
      parts' := AppendLayout(env, s, r, parts);
      var ready := ReadyLayout(env, s, parts);
      BelowLimit(env);
      SizedExtended(env, ready, NewEntry(env, s, r));
    case Fail =>
      parts' := ReadyLayout(env, s, parts);
    case Reopen =>
      var names :| IsListing(names, s.files.Keys) && t == Opened(env, s.files, names);
      FileCount(env, s, parts);
      ReopenLayout(env, s, names, parts);
      parts' := parts;
  }

  lemma BelowLimit(env: Env)
    ensures Size(env, ToLines([])) == 0
  {
  }

  /** In every state of every run with at most 9999 files, read in listing order, the log holds
      exactly what was appended, in order, field by field, whatever failed in between. */
  lemma LogSaysWhatWasAppended(env: Env, ss: seq<State>, acts: seq<Action>, i: nat, names: seq<string>)
    requires IsRun(env, ss, acts) && i < |ss| && |ss[i].files| <= 9999 && IsListing(names, ss[i].files.Keys)
    ensures forall x :: x in names ==> x in ss[i].files
    ensures AllRecorded(Entries(AllLines(ss[i].files, names)), Requested(acts[..i]))
  {
    hide IsRun, Sized, AllRecorded, FilesOf, Flat, Name, Entries, AllLines, Size, Numbered;
    var parts := RunRecords(env, ss, acts, i);
    FileCount(env, ss[i], parts);
    KeysOfParts(parts);
    ListedInOrder(names, |parts|);
    LinesOfParts(parts);
  }

  /** Files are rotated exactly when they have reached the size limit: each but the latest has
      reached it, and none had before its last line was written. */
  lemma RotatedAtTheLimit(env: Env, ss: seq<State>, acts: seq<Action>, i: nat, k: nat)
    requires IsRun(env, ss, acts) && i < |ss| && |ss[i].files| <= 9999 && 1 <= k <= |ss[i].files|
    ensures Name(k) in ss[i].files
    ensures var lines := ss[i].files[Name(k)];
            && (k < |ss[i].files| ==> Size(env, lines) >= MAX_FILE_BYTES)
            && (lines != [] ==> Size(env, lines[..|lines| - 1]) < MAX_FILE_BYTES)
  {
    hide IsRun, AllRecorded, FilesOf, Flat, Name, Size;
    var parts := RunRecords(env, ss, acts, i);
    FileCount(env, ss[i], parts);
    PartLines(parts, k - 1);
    var es := parts[k - 1];
    assert SizedAt(env, es, k == |parts|);
    assert es != [] ==> ToLines(es)[..|es| - 1] == ToLines(es[..|es| - 1]);
  }

  lemma {:induction false} PartLines(parts: seq<seq<Entry>>, i: nat)
    requires i < |parts|
    ensures Name(i + 1) in FilesOf(parts) && FilesOf(parts)[Name(i + 1)] == ToLines(parts[i])
    decreases |parts|
  {
    hide Name;
    var n := |parts|;
    if i < n - 1 {
      PartLines(parts[..n - 1], i);
      NamesDiffer(i + 1, n);
    }
  }

  // ----- the limit of four-digit names -----

  lemma {:induction false} AllLinesConcat(files: Files, a: seq<string>, b: seq<string>)
    requires forall x :: x in a || x in b ==> x in files
    ensures AllLines(files, a + b) == AllLines(files, a) + AllLines(files, b)
  {
    if a == [] {
      assert a + b == b;
    } else {
      assert (a + b)[1..] == a[1..] + b;
      AllLinesConcat(files, a[1..], b);
    }
  }

  /** Number of entries before the k-th listed file. */
  function Before(files: Files, names: seq<string>, k: nat): nat
    requires k <= |names| && forall x :: x in names ==> x in files
  {
    |Entries(AllLines(files, names[..k]))|
  }

  lemma BeforeStep(files: Files, names: seq<string>, k: nat)
    requires k < |names| && forall x :: x in names ==> x in files
    ensures Before(files, names, k + 1) == Before(files, names, k) + |Entries(files[names[k]])|
  {
    assert names[..k + 1] == names[..k] + [names[k]];
    AllLinesAppend(files, names[..k], names[k]);
    EntriesAppend(AllLines(files, names[..k]), files[names[k]]);
  }

  lemma {:induction false} BeforeGrows(files: Files, names: seq<string>, a: nat, b: nat)
    requires a < b <= |names| && forall x :: x in names ==> x in files
    ensures Before(files, names, a) + |Entries(files[names[a]])| <= Before(files, names, b)
  {
    BeforeStep(files, names, b - 1);
    if a < b - 1 {
      BeforeGrows(files, names, a, b - 1);
    }
  }

  lemma PositionOf(files: Files, names: seq<string>, k: nat)
    requires k < |names| && (forall x :: x in names ==> x in files) && Entries(files[names[k]]) != []
    ensures var all := Entries(AllLines(files, names));
            Before(files, names, k) < |all| && all[Before(files, names, k)] == Entries(files[names[k]])[0]
  {
    var a, b := names[..k + 1], names[k + 1..];
    assert names == a + b && a == names[..k] + [names[k]];
    AllLinesConcat(files, a, b);
    AllLinesAppend(files, names[..k], names[k]);
    EntriesAppend(AllLines(files, names[..k]), files[names[k]]);
    EntriesAppend(AllLines(files, a), AllLines(files, b));
  }

  /** In a listing that reads as a chain, an earlier file holds smaller sequence numbers. */
  lemma EarlierFileEarlierSeq(env: Env, files: Files, names: seq<string>, a: nat, b: nat)
    requires a < b < |names| && forall x :: x in names ==> x in files
    requires Chain(env, Entries(AllLines(files, names)))
    requires Entries(files[names[a]]) != [] && Entries(files[names[b]]) != []
    ensures Entries(files[names[a]])[0].payload.seqno < Entries(files[names[b]])[0].payload.seqno
  {
    PositionOf(files, names, a);
    PositionOf(files, names, b);
    BeforeGrows(files, names, a, b);
    var all := Entries(AllLines(files, names));
    assert Linked(env, all, GENESIS, 0, Before(files, names, a));
    assert Linked(env, all, GENESIS, 0, Before(files, names, b));
  }

  lemma PartEntries(parts: seq<seq<Entry>>, i: nat)
    requires i < |parts|
    ensures Name(i + 1) in FilesOf(parts) && Entries(FilesOf(parts)[Name(i + 1)]) == parts[i]
  {
    PartLines(parts, i);
    EntriesOfLines(parts[i]);
  }

  /** File 10000 was started after file 9999. It is listed before it. */
  ghost predicate OutOfOrder(files: Files)
  {
    && Name(9999) in files && Name(10000) in files
    && var a, b := Entries(files[Name(9999)]), Entries(files[Name(10000)]);
       a != [] && b != [] && a[0].payload.seqno < b[0].payload.seqno
  }

  lemma OutOfOrderFrom(env: Env, parts: seq<seq<Entry>>)
    requires |parts| >= 10000 && Chain(env, Flat(parts)) && Full(parts, |parts|)
    ensures OutOfOrder(FilesOf(parts))
  {
    hide Name, Chain, FilesOf, AllLines, Entries, Flat;
    var files, n := FilesOf(parts), |parts|;
    LinesOfParts(parts);
    PartEntries(parts, 9998);
    PartEntries(parts, 9999);
    EarlierFileEarlierSeq(env, files, Numbered(n), 9998, 9999);
  }

  lemma OutOfOrderStays(f: Files, g: Files)
    requires OutOfOrder(f) && Grows(f, g)
    ensures OutOfOrder(g)
  {
    hide Name, Entries;
    FirstEntryStays(f[Name(9999)], g[Name(9999)]);
    FirstEntryStays(f[Name(10000)], g[Name(10000)]);
  }

  lemma FirstEntryStays(a: seq<Line>, b: seq<Line>)
    requires a <= b && Entries(a) != []
    ensures Entries(b) != [] && Entries(b)[0] == Entries(a)[0]
  {
    assert b == a + b[|a|..];
    EntriesAppend(a, b[|a|..]);
  }

  lemma OutOfOrderIsNoChain(env: Env, files: Files, names: seq<string>)
    requires OutOfOrder(files) && IsListing(names, files.Keys)
    ensures (forall x :: x in names ==> x in files) && !Chain(env, Entries(AllLines(files, names)))
  {
    hide Name, Chain, AllLines, Entries;
    assert forall x :: x in names ==> x in ToSet(names);
    var a :| 0 <= a < |names| && names[a] == Name(10000);
    var b :| 0 <= b < |names| && names[b] == Name(9999);
    FiveDigitsSortEarly();
    assert a < b;
    if Chain(env, Entries(AllLines(files, names))) {
      EarlierFileEarlierSeq(env, files, names, a, b);
    }
  }

  lemma {:induction false} NeverFailed(ss: seq<State>, acts: seq<Action>, i: nat)
    requires i < |ss| == |acts| + 1 && Fail !in acts
    ensures HealthAt(ss, acts, i) == Sound
  {
    if i > 0 {
      NeverFailed(ss, acts, i - 1);
      assert acts[i - 1] in acts;
    }
  }

  /** Once there are 10000 files they are out of order for good, whatever is appended, rotated or
      reopened afterwards. */
  lemma {:induction false} PastTheLimit(env: Env, ss: seq<State>, acts: seq<Action>, i: nat)
    requires IsRun(env, ss, acts) && i < |ss| && Fail !in acts && |ss[i].files| > 9999
    ensures OutOfOrder(ss[i].files)
  {
    hide Holds, Next, Grows, OutOfOrder, FilesOf;
    assert i > 0 by { InitialHolds(env); OneFile(env); }
    var s, a, t := ss[i - 1], acts[i - 1], ss[i];
    assert Next(env, s, a, t);
    StepGrows(env, s, a, t);
    if |s.files| > 9999 {
      PastTheLimit(env, ss, acts, i - 1);
      OutOfOrderStays(s.files, t.files);
    } else {
      NeverFailed(ss, acts, i - 1);
      NeverFailed(ss, acts, i);
      var before := RunHolds(env, ss, acts, i - 1);
      var parts := StepHolds(env, Sound, s, a, t, before);
      SoundPast(env, t, parts);
    }
  }

  lemma OneFile(env: Env)
    ensures |Opened(env, map[], []).files| == 1
  {
    hide Name;
    assert Opened(env, map[], []).files.Keys == {Name(1)};
  }

  lemma SoundPast(env: Env, s: State, parts: seq<seq<Entry>>)
    requires Holds(env, Sound, s, parts) && |s.files| > 9999
    ensures OutOfOrder(s.files)
  {
    hide Chain, Flat, FilesOf, OutOfOrder;
    FileCount(env, s, parts);
    OutOfOrderFrom(env, parts);
  }

  /** In every state of every run without failed writes, the verifier accepts the log exactly as
      long as there are at most 9999 session files; from the 10000th on the listing is no longer
      in writing order, and nothing the writer does repairs that. */
  lemma AcceptedIffFourDigits(env: Env, ss: seq<State>, acts: seq<Action>, i: nat, names: seq<string>)
    requires IsRun(env, ss, acts) && i < |ss| && Fail !in acts && IsListing(names, ss[i].files.Keys)
    ensures Check(env, AllLines(ss[i].files, names), GENESIS, 0).Accepted? <==> |ss[i].files| <= 9999
  {
    hide Next, Check, AllLines, Chain, OutOfOrder;
    if |ss[i].files| <= 9999 {
      NeverFailed(ss, acts, i);
      RunsVerify(env, ss, acts, i, names);
    } else {
      PastTheLimit(env, ss, acts, i);
      OutOfOrderIsNoChain(env, ss[i].files, names);
      CheckIff(env, AllLines(ss[i].files, names), GENESIS, 0);
      ChainIsChainFrom(env, Entries(AllLines(ss[i].files, names)));
    }
  }

  lemma ChainIsChainFrom(env: Env, es: seq<Entry>)
    ensures Chain(env, es) <==> ChainFrom(env, es, GENESIS, 0)
  {
  }

  // ----- the limit is reached -----

  /** Written lines are not empty: each ends in a newline. */
  ghost predicate LinesHaveLength(env: Env)
  {
    forall l :: env.lineLength(l) > 0
  }

  lemma ExtendRun(env: Env, ss: seq<State>, acts: seq<Action>, r: Request)
    requires IsRun(env, ss, acts)
    ensures IsRun(env, ss + [Appended(env, ss[|ss| - 1], r)], acts + [Append(r)])
  {
    hide Appended, Opened;
    var ss', acts' := ss + [Appended(env, ss[|ss| - 1], r)], acts + [Append(r)];
    forall i | 0 <= i < |acts'| ensures Next(env, ss'[i], acts'[i], ss'[i + 1]) {
      if i < |acts| {
        assert Next(env, ss[i], acts[i], ss[i + 1]);
      }
    }
  }

  /** Appending fills the current file and then starts the next one. */
  lemma {:induction false} NextFile(env: Env, ss: seq<State>, acts: seq<Action>, r: Request, parts: seq<seq<Entry>>)
    returns (ss': seq<State>, acts': seq<Action>, parts': seq<seq<Entry>>)
    requires LinesHaveLength(env) && IsRun(env, ss, acts) && Fail !in acts && Holds(env, Sound, ss[|ss| - 1], parts)
    ensures IsRun(env, ss', acts') && Fail !in acts' && Holds(env, Sound, ss'[|ss'| - 1], parts') && |parts'| == |parts| + 1
    decreases MAX_FILE_BYTES - ss[|ss| - 1].fileBytes
  {
    hide Holds, IsRun, HashOf, Name;
    RunHasStates(env, ss, acts);
    var s := ss[|ss| - 1];
    ExtendRun(env, ss, acts, r);
    parts' := AppendHolds(env, Sound, s, r, parts);
    ss', acts' := ss + [Appended(env, s, r)], acts + [Append(r)];
    if s.fileBytes < MAX_FILE_BYTES {
      ss', acts', parts' := NextFile(env, ss', acts', r, parts');
    }
  }

  /** Every number of session files is reached by some run. */
  lemma {:induction false} EveryCountIsReached(env: Env, r: Request, n: nat)
    returns (ss: seq<State>, acts: seq<Action>, parts: seq<seq<Entry>>)
    requires LinesHaveLength(env) && n > 0
    ensures IsRun(env, ss, acts) && Fail !in acts && Holds(env, Sound, ss[|ss| - 1], parts) && |ss[|ss| - 1].files| == |parts| == n
  {
    hide Flat, FilesOf, Chain, Appended;
    if n == 1 {
      InitialHolds(env);
      ss, acts, parts := [Opened(env, map[], [])], [], [[]];
    } else {
      ss, acts, parts := EveryCountIsReached(env, r, n - 1);
      ss, acts, parts := NextFile(env, ss, acts, r, parts);
    }
    FileCount(env, ss[|ss| - 1], parts);
  }

  /** The verifier does not accept the directory. */
  ghost predicate IsRejected(env: Env, files: Files)
  {
    forall names :: IsListing(names, files.Keys) ==> !Check(env, AllLines(files, names), GENESIS, 0).Accepted?
  }

  /** So there are runs, without any failed write, whose log is rejected. */
  lemma SomeRunIsRejected(env: Env, r: Request) returns (ss: seq<State>, acts: seq<Action>)
    requires LinesHaveLength(env)
    ensures IsRun(env, ss, acts) && Fail !in acts && IsRejected(env, ss[|ss| - 1].files)
  {
    hide IsRun, Holds, Check, AllLines;
    var parts;
    ss, acts, parts := EveryCountIsReached(env, r, 10000);
    RunHasStates(env, ss, acts);
    var files := ss[|ss| - 1].files;
    forall names | IsListing(names, files.Keys) ensures !Check(env, AllLines(files, names), GENESIS, 0).Accepted? {
      AcceptedIffFourDigits(env, ss, acts, |ss| - 1, names);
    }
  }

  /** One failed write and one more append are enough to break a log. */
  lemma FailedWriteBreaksLog(env: Env, r: Request) returns (ss: seq<State>)
    requires NoZeroDigest(env)
    ensures IsRun(env, ss, [Fail, Append(r)]) && IsRejected(env, ss[2].files)
  {
    hide Name, HashOf, Check, AllLines;
    var s := Opened(env, map[], []);
    var t := FailedAppend(s);
    ss := [s, t, Appended(env, t, r)];
    var acts, files := [Fail, Append(r)], ss[2].files;
    assert s.fileBytes == 0;
    assert HealthAt(ss, acts, 0) == Sound && HealthAt(ss, acts, 1) == Ahead && HealthAt(ss, acts, 2) == Lost;
    OneFile(env);
    assert files.Keys == s.files.Keys;
    forall names | IsListing(names, files.Keys) ensures !Check(env, AllLines(files, names), GENESIS, 0).Accepted? {
      AcceptedIffNotLost(env, ss, acts, 2, names);
    }
  }

  lemma RunHasStates(env: Env, ss: seq<State>, acts: seq<Action>)
    requires IsRun(env, ss, acts)
    ensures |ss| > 0
  {
  }
}
