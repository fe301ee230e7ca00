/**
 Retention of the version history: the in-place pruning that keeps at most `max` entries,
 sacrificing the oldest ordinary entries before any known-good one.
 */
module History {
  import opened StringOrder

  datatype Entry = Entry(id: string, timestamp: string, slot: string, source: string, knownGood: bool)

  const DEFAULT_MAX := 10

  // ----- stable order by timestamp -----

  ghost predicate Chronological(s: seq<Entry>)
  {
    forall i, j :: 0 <= i < j < |s| ==> Le(s[i].timestamp, s[j].timestamp)
  }

  /** Inserts after every entry that is not later. */
  function Insert(s: seq<Entry>, e: Entry): (r: seq<Entry>)
    ensures |r| == |s| + 1
  {
    if s != [] && Lt(e.timestamp, s[|s| - 1].timestamp) then Insert(s[..|s| - 1], e) + [s[|s| - 1]] else s + [e]
  }

  /** The stable sort by ascending timestamp. */
  function Stable(s: seq<Entry>): (r: seq<Entry>)
    ensures |r| == |s|
  {
    if s == [] then [] else Insert(Stable(s[..|s| - 1]), s[|s| - 1])
  }

  lemma {:induction false} InsertPermutes(s: seq<Entry>, e: Entry)
    ensures multiset(Insert(s, e)) == multiset(s) + multiset{e}
  {
    if s != [] {
      InsertPermutes(s[..|s| - 1], e);
      assert s == s[..|s| - 1] + [s[|s| - 1]];
    }
  }

  lemma {:induction false} StablePermutes(s: seq<Entry>)
    ensures multiset(Stable(s)) == multiset(s)
  {
    hide Insert;
    if s != [] {
      StablePermutes(s[..|s| - 1]);
      InsertPermutes(Stable(s[..|s| - 1]), s[|s| - 1]);
      assert s == s[..|s| - 1] + [s[|s| - 1]];
    }
  }

  lemma {:induction false} InsertSorted(s: seq<Entry>, e: Entry)
    requires Chronological(s)
    ensures Chronological(Insert(s, e))
  {
    hide Le;
    if s != [] && Lt(e.timestamp, s[|s| - 1].timestamp) {
      var init, last := s[..|s| - 1], s[|s| - 1];
      InsertSorted(init, e);
      LeTotal(e.timestamp, last.timestamp);
      InsertMembers(init, e);
      AppendLatest(Insert(init, e), last);
    } else {
      forall x | x in s ensures Le(x.timestamp, e.timestamp) {
        LeReflexive(x.timestamp);
        LeTransitive(x.timestamp, s[|s| - 1].timestamp, e.timestamp);
      }
      AppendLatest(s, e);
    }
  }

  lemma AppendLatest(s: seq<Entry>, e: Entry)
    requires Chronological(s) && forall x :: x in s ==> Le(x.timestamp, e.timestamp)
    ensures Chronological(s + [e])
  {
    hide Le;
  }

  lemma {:induction false} InsertMembers(s: seq<Entry>, e: Entry)
    ensures forall x :: x in Insert(s, e) ==> x in s || x == e
  {
    hide Le;
    if s != [] && Lt(e.timestamp, s[|s| - 1].timestamp) {
      InsertMembers(s[..|s| - 1], e);
    }
  }

  lemma {:induction false} StableSorted(s: seq<Entry>)
    ensures Chronological(Stable(s))
  {
    if s != [] {
      StableSorted(s[..|s| - 1]);
      InsertSorted(Stable(s[..|s| - 1]), s[|s| - 1]);
    }
  }

  // ----- classes -----

  /** The known-good (or the ordinary) entries, in order. */
  function Class(s: seq<Entry>, good: bool): (r: seq<Entry>)
    ensures |r| <= |s| && forall e :: e in r ==> e.knownGood == good
  {
    if s == [] then [] else (if s[0].knownGood == good then [s[0]] else []) + Class(s[1..], good)
  }

  lemma {:induction false} ClassSizes(s: seq<Entry>)
    ensures |Class(s, true)| + |Class(s, false)| == |s|
  {
    if s != [] {
      ClassSizes(s[1..]);
    }
  }

  // ----- pruning -----

  /** Removes the first `k` ordinary entries. */
  function DropOrdinary(s: seq<Entry>, k: nat): (r: seq<Entry>)
    ensures |r| <= |s|
  {
    if s == [] then []
    else if !s[0].knownGood && k > 0 then DropOrdinary(s[1..], k - 1)
    else [s[0]] + DropOrdinary(s[1..], k)
  }

  function Pruned(s: seq<Entry>, max: nat): (r: seq<Entry>)
  {
    if |s| <= max then s
    else
      var f := DropOrdinary(Stable(s), |s| - max);
      if |f| > max then f[|f| - max..] else f
  }

  /** Prunes `a` in place and returns the bounds of the entries that remain. The final slice
      expression panics when its lower bound lies beyond the array, which a negative `max`, and
      nothing else, brings about. */
  method Prune(a: array<Entry>, max: int) returns (panics: bool, lo: nat, hi: nat)
    modifies a
    ensures panics <==> max < 0
    ensures !panics ==> lo <= hi <= a.Length && a[lo..hi] == Pruned(old(a[..]), max)
  {
    hide Stable, DropOrdinary;
    if a.Length <= max {
      assert a[0..a.Length] == a[..];
      return false, 0, a.Length;
    }
    SortStable(a);
    var w := FilterInPlace(a, a.Length - max);
    if w > max {
      if w - max > w {
        return true, 0, 0;
      }
      assert a[w - max..w] == a[..w][w - max..];
      return false, w - max, w;
    }
    assert a[0..w] == a[..w];
    return false, 0, w;
  }

  /** `sort.SliceStable` by timestamp. */
  method SortStable(a: array<Entry>)
    modifies a
    ensures a[..] == Stable(old(a[..]))
  {
    var sorted := Stable(a[..]);
    forall i | 0 <= i < a.Length {
      a[i] := sorted[i];
    }
  }

  /** Filters into the front of the array being read: the write index never passes the read
      index. */
  method FilterInPlace(a: array<Entry>, excess: nat) returns (w: nat)
    modifies a
    ensures w <= a.Length && a[..w] == DropOrdinary(old(a[..]), excess)
  {
    hide DropOrdinary;
    ghost var was := a[..];
    w := 0;
    var removed := 0;
    assert was[0..] == was;
    for i := 0 to a.Length
      invariant w <= i && removed <= excess
      invariant forall k :: i <= k < a.Length ==> a[k] == was[k]
      invariant a[..w] + DropOrdinary(was[i..], excess - removed) == DropOrdinary(was, excess)
    {
      var e := a[i];
      ghost var front := a[..w];
      DropStep(was, i, excess - removed);
      if !e.knownGood && removed < excess {
        removed := removed + 1;
      } else {
        assert front + ([e] + DropOrdinary(was[i + 1..], excess - removed)) == front + [e] + DropOrdinary(was[i + 1..], excess - removed);
        a[w] := e;
        w := w + 1;
        assert a[..w] == front + [e];
      }
    }
    DropFromEmpty(excess - removed);
    assert was[a.Length..] == [];
  }

  lemma DropStep(s: seq<Entry>, i: nat, k: nat)
    requires i < |s|
    ensures DropOrdinary(s[i..], k) ==
            if !s[i].knownGood && k > 0 then DropOrdinary(s[i + 1..], k - 1) else [s[i]] + DropOrdinary(s[i + 1..], k)
  {
    assert s[i..][1..] == s[i + 1..];
  }

  lemma DropFromEmpty(k: nat)
    ensures DropOrdinary([], k) == []
  {
  }

  // ----- what pruning keeps -----

  lemma {:induction false} DropKeepsGood(s: seq<Entry>, k: nat)
    ensures Class(DropOrdinary(s, k), true) == Class(s, true)
  {
    if s != [] {
      if !s[0].knownGood && k > 0 {
        DropKeepsGood(s[1..], k - 1);
      } else {
        DropKeepsGood(s[1..], k);
        assert DropOrdinary(s, k)[1..] == DropOrdinary(s[1..], k);
      }
    }
  }

  lemma {:induction false} DropTakesOldest(s: seq<Entry>, k: nat)
    requires k <= |Class(s, false)|
    ensures Class(DropOrdinary(s, k), false) == Class(s, false)[k..]
  {
    if s != [] {
      if !s[0].knownGood && k > 0 {
        DropTakesOldest(s[1..], k - 1);
        assert Class(s, false)[k..] == Class(s[1..], false)[k - 1..];
      } else if s[0].knownGood {
        DropTakesOldest(s[1..], k);
        assert DropOrdinary(s, k)[1..] == DropOrdinary(s[1..], k);
      } else {
        DropNothing(s);
      }
    }
  }

  lemma {:induction false} DropNothing(s: seq<Entry>)
    ensures DropOrdinary(s, 0) == s
  {
    if s != [] {
      DropNothing(s[1..]);
      assert s == [s[0]] + s[1..];
    }
  }

  lemma {:induction false} DropAllOrdinary(s: seq<Entry>, k: nat)
    requires k >= |Class(s, false)|
    ensures DropOrdinary(s, k) == Class(s, true)
  {
    if s != [] {
      DropAllOrdinary(s[1..], if s[0].knownGood || k == 0 then k else k - 1);
    }
  }

  /** Pruning more than `max` entries leaves exactly `max`. While there are enough ordinary
      entries, only the oldest ordinary ones go; otherwise all of them go, and of the
      known-good ones the newest `max` stay. */
  lemma PruneKeeps(s: seq<Entry>, max: nat)
    requires |s| > max
    ensures var t, p := Stable(s), Pruned(s, max);
            var excess := |s| - max;
            && |p| == max
            && (|Class(t, false)| >= excess ==> Class(p, true) == Class(t, true) && Class(p, false) == Class(t, false)[excess..])
            && (|Class(t, false)| < excess ==> |Class(t, true)| >= max && p == Class(t, true)[|Class(t, true)| - max..])
  {
    hide Stable, DropOrdinary, Class;
    var t, excess := Stable(s), |s| - max;
    var f := DropOrdinary(t, excess);
    ClassSizes(t);
    DropKeepsGood(t, excess);
    if |Class(t, false)| >= excess {
      DropTakesOldest(t, excess);
    } else {
      DropAllOrdinary(t, excess);
    }
    ClassSizes(f);
  }

  /** The survivors are in timestamp order. */
  lemma PruneSorted(s: seq<Entry>, max: nat)
    requires |s| > max
    ensures Chronological(Pruned(s, max))
  {
    StableSorted(s);
    DropSorted(Stable(s), |s| - max);
  }

  lemma {:induction false} DropSorted(s: seq<Entry>, k: nat)
    requires Chronological(s)
    ensures Chronological(DropOrdinary(s, k)) && forall e :: e in DropOrdinary(s, k) ==> e in s
  {
    if s != [] {
      assert s == [s[0]] + s[1..];
      if !s[0].knownGood && k > 0 {
        DropSorted(s[1..], k - 1);
      } else {
        DropSorted(s[1..], k);
        forall e | e in DropOrdinary(s[1..], k) ensures Le(s[0].timestamp, e.timestamp) {
          var i :| 0 <= i < |s[1..]| && s[1..][i] == e;
          assert s[i + 1] == e;
        }
      }
    }
  }

  /** A known-good entry is dropped only if no ordinary entry survives. */
  lemma KnownGoodOutlivesOrdinary(s: seq<Entry>, max: nat)
    requires |s| > max
    requires Class(Pruned(s, max), false) != []
    ensures Class(Pruned(s, max), true) == Class(Stable(s), true)
  {
    hide Class, Stable, Pruned;
    PruneKeeps(s, max);
    if |Class(Stable(s), false)| < |s| - max {
      AllGood(Pruned(s, max));
    }
  }

  lemma {:induction false} AllGood(s: seq<Entry>)
    requires forall e :: e in s ==> e.knownGood
    ensures Class(s, false) == []
  {
    if s != [] {
      AllGood(s[1..]);
    }
  }

  // ----- stability -----

  function WithTime(s: seq<Entry>, t: string): seq<Entry>
  {
    if s == [] then [] else WithTime(s[..|s| - 1], t) + if s[|s| - 1].timestamp == t then [s[|s| - 1]] else []
  }

  lemma WithTimeSnoc(s: seq<Entry>, e: Entry, t: string)
    ensures WithTime(s + [e], t) == WithTime(s, t) + if e.timestamp == t then [e] else []
  {
    assert (s + [e])[..|s|] == s;
  }

  lemma {:induction false} InsertStable(s: seq<Entry>, e: Entry, t: string)
    ensures WithTime(Insert(s, e), t) == WithTime(s, t) + if e.timestamp == t then [e] else []
  {
    hide Le, WithTime;
    if s != [] && Lt(e.timestamp, s[|s| - 1].timestamp) {
      var init, last := s[..|s| - 1], s[|s| - 1];
      assert s == init + [last];
      InsertStable(init, e, t);
      WithTimeSnoc(Insert(init, e), last, t);
      WithTimeSnoc(init, last, t);
      LeReflexive(e.timestamp);
    } else {
      WithTimeSnoc(s, e, t);
    }
  }

  /** Entries with equal timestamps keep their relative order. */
  lemma {:induction false} StableIsStable(s: seq<Entry>, t: string)
    ensures WithTime(Stable(s), t) == WithTime(s, t)
  {
    if s != [] {
      StableIsStable(s[..|s| - 1], t);
      InsertStable(Stable(s[..|s| - 1]), s[|s| - 1], t);
    }
  }

  // ----- adding -----

  /** Appends and prunes; a non-positive limit means the default. */
  method Add(entries: seq<Entry>, e: Entry, maxEntries: int) returns (r: seq<Entry>)
    ensures var max := if maxEntries <= 0 then DEFAULT_MAX else maxEntries;
            r == Pruned(entries + [e], max) && |r| <= max
  {
    var max := maxEntries;
    if max <= 0 {
      max := DEFAULT_MAX;
    }
    var all := entries + [e];
    var a := new Entry[|all|](i requires 0 <= i < |all| => all[i]);
    assert a[..] == all;
    var panics, lo, hi := Prune(a, max);
    r := a[lo..hi];
    if |all| > max {
      PruneKeeps(all, max);
    }
  }
}
