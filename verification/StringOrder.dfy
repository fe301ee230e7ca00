/**
 Byte-wise lexicographic order on strings (the order of Go's `<` and of sorted directory
 listings), sorted sequences, and the resolver's in-place insertion sort.
 */
module StringOrder {
  import opened Basics

  predicate Le(a: string, b: string)
  {
    a == [] || (b != [] && (a[0] < b[0] || (a[0] == b[0] && Le(a[1..], b[1..]))))
  }

  predicate Lt(a: string, b: string)
  {
    !Le(b, a)
  }

  /** `a` and `b` agree up to position `k`, where `a` has the smaller character. */
  predicate SmallerAt(a: string, b: string, k: nat)
  {
    k < |a| && k < |b| && a[..k] == b[..k] && a[k] < b[k]
  }

  /** The order is the lexicographic one: a string precedes those it is a prefix of, and those
      that have a larger character where they first differ from it. */
  lemma {:induction false} LeIff(a: string, b: string)
    ensures Le(a, b) <==> a <= b || exists k: nat :: SmallerAt(a, b, k)
  {
    if a != [] && b != [] && a[0] == b[0] {
      LeIff(a[1..], b[1..]);
      assert a == [a[0]] + a[1..] && b == [b[0]] + b[1..];
      if Le(a, b) && !(a[1..] <= b[1..]) {
        var k: nat :| SmallerAt(a[1..], b[1..], k);
        DifferLater(a, b, k);
      }
      if k: nat :| SmallerAt(a, b, k) {
        assert k > 0;
        DifferLater(a, b, k - 1);
      }
    } else if a != [] && b != [] && a[0] < b[0] {
      assert SmallerAt(a, b, 0);
    } else if k: nat :| SmallerAt(a, b, k) {
      FirstCharacters(a, b, k);
    }
  }

  lemma FirstCharacters(a: string, b: string, k: nat)
    requires SmallerAt(a, b, k)
    ensures a[0] < b[0] || (k > 0 && a[0] == b[0])
  {
    if k > 0 {
      assert a[..k][0] == b[..k][0];
    }
  }

  lemma DifferLater(a: string, b: string, k: nat)
    requires a != [] && b != [] && a[0] == b[0]
    ensures SmallerAt(a, b, k + 1) <==> SmallerAt(a[1..], b[1..], k)
  {
    if k + 1 < |a| && k + 1 < |b| {
      assert a[..k + 1] == [a[0]] + a[1..][..k] && b[..k + 1] == [b[0]] + b[1..][..k];
      assert a[..k + 1] == b[..k + 1] ==> a[..k + 1][1..] == b[..k + 1][1..];
    }
  }

  lemma PrefixSortsFirst()
    ensures Le("net", "network") && !Le("network", "net")
  {
    LeIff("net", "network");
    LeIff("network", "net");
    assert forall k :: 0 <= k < 3 ==> "network"[k] == "net"[k];
  }

  lemma {:induction false} LeTotal(a: string, b: string)
    ensures Le(a, b) || Le(b, a)
  {
    if a != [] && b != [] && a[0] == b[0] {
      LeTotal(a[1..], b[1..]);
    }
  }

  lemma {:induction false} LeAntisymmetric(a: string, b: string)
    requires Le(a, b) && Le(b, a)
    ensures a == b
  {
    if a != [] && b != [] {
      LeAntisymmetric(a[1..], b[1..]);
      assert a == [a[0]] + a[1..] && b == [b[0]] + b[1..];
    }
  }

  lemma {:induction false} LeTransitive(a: string, b: string, c: string)
    requires Le(a, b) && Le(b, c)
    ensures Le(a, c)
  {
    if a != [] && a[0] == b[0] && b[0] == c[0] {
      LeTransitive(a[1..], b[1..], c[1..]);
    }
  }

  lemma {:induction false} LeReflexive(a: string)
    ensures Le(a, a)
  {
    if a != [] {
      LeReflexive(a[1..]);
    }
  }

  predicate Sorted(s: seq<string>)
  {
    forall i, j :: 0 <= i < j < |s| ==> Le(s[i], s[j])
  }

  ghost function ToSet<T>(s: seq<T>): set<T>
  {
    set x | x in s
  }

  lemma HeadIsLeast(s: seq<string>, x: string)
    requires Sorted(s) && x in s
    ensures Le(s[0], x)
  {
    LeReflexive(s[0]);
  }

  /** A sorted sequence is determined by its elements, so sorting forgets the input order. */
  lemma {:induction false} SortedIsUnique(s: seq<string>, t: seq<string>)
    requires Sorted(s) && Sorted(t)
    requires multiset(s) == multiset(t)
    ensures s == t
  {
    hide Le, Sorted;
    assert |multiset(s)| == |s| && |multiset(t)| == |t|;
    if s != [] {
      SameHead(s, t);
      assert s == [s[0]] + s[1..] && t == [t[0]] + t[1..];
      assert multiset(s[1..]) == multiset(s) - multiset{s[0]};
      assert multiset(t[1..]) == multiset(t) - multiset{t[0]};
      SortedTail(s);
      SortedTail(t);
      SortedIsUnique(s[1..], t[1..]);
    }
  }

  lemma SameHead(s: seq<string>, t: seq<string>)
    requires Sorted(s) && Sorted(t) && s != [] && t != []
    requires multiset(s) == multiset(t)
    ensures s[0] == t[0]
  {
    hide Le, Sorted;
    assert s[0] in multiset(t) && t[0] in multiset(s);
    HeadIsLeast(s, t[0]);
    HeadIsLeast(t, s[0]);
    LeAntisymmetric(s[0], t[0]);
  }

  lemma SortedTail(s: seq<string>)
    requires s != [] && Sorted(s)
    ensures Sorted(s[1..])
  {
  }

  /** The shape of the array inside one insertion: a hole at `hole` in a sorted prefix of
      length `i + 1`, everything after the hole larger than the key. */
  ghost predicate Inserting(s: seq<string>, hole: nat, i: nat, key: string)
  {
    && hole <= i < |s|
    && (forall p, q :: 0 <= p < q <= i && p != hole && q != hole ==> Le(s[p], s[q]))
    && (forall q :: hole < q <= i ==> Le(key, s[q]))
  }

  lemma InsertStart(s: seq<string>, i: nat)
    requires i < |s| && Sorted(s[..i])
    ensures Inserting(s, i, i, s[i])
  {
    forall p, q | 0 <= p < q < i ensures Le(s[p], s[q]) {
      assert s[..i][p] == s[p] && s[..i][q] == s[q];
    }
  }

  /** Moving a larger element one place up moves the hole one place down. */
  lemma InsertShift(s: seq<string>, j: nat, i: nat, key: string)
    requires Inserting(s, j + 1, i, key) && Lt(key, s[j])
    ensures Inserting(s[j + 1 := s[j]], j, i, key)
    ensures multiset(s[j + 1 := s[j]][j := key]) == multiset(s[j + 1 := key])
  {
    LeTotal(key, s[j]);
    var t := s[j + 1 := key];
    assert s[j + 1 := s[j]][j := key] == t[j := t[j + 1]][j + 1 := t[j]];
  }

  /** The hole may be filled when nothing before it exceeds the key. */
  lemma InsertEnd(s: seq<string>, hole: nat, i: nat, key: string)
    requires Inserting(s, hole, i, key)
    requires hole > 0 ==> Le(s[hole - 1], key)
    ensures Sorted(s[hole := key][..i + 1])
  {
    forall p | 0 <= p < hole - 1 ensures Le(s[p], key) {
      LeTransitive(s[p], s[hole - 1], key);
    }
  }

  /** Sorts in place. */
  method SortStrings(a: array<string>)
    modifies a
    ensures Sorted(a[..])
    ensures multiset(a[..]) == multiset(old(a[..]))
  {
    var i := 1;
    while i < a.Length
      invariant 1 <= i
      invariant a.Length > 0 ==> i <= a.Length && Sorted(a[..i])
      invariant multiset(a[..]) == multiset(old(a[..]))
    {
      InsertKey(a, i);
      i := i + 1;
    }
    if a.Length > 0 {
      assert a[..a.Length] == a[..];
    }
  }

  method InsertKey(a: array<string>, i: nat)
    requires i < a.Length && Sorted(a[..i])
    modifies a
    ensures Sorted(a[..i + 1])
    ensures multiset(a[..]) == multiset(old(a[..]))
  {
    hide Inserting;
    var key := a[i];
    var j := i - 1;
    ghost var s := a[..];
    InsertStart(s, i);
    assert s[i := key] == s;
    while j >= 0 && Lt(key, a[j])
      invariant -1 <= j < i
      invariant s == a[..] && Inserting(s, j + 1, i, key)
      invariant multiset(s[j + 1 := key]) == multiset(old(a[..]))
    {
      InsertShift(s, j, i, key);
      a[j + 1] := a[j];
      s := s[j + 1 := s[j]];
      j := j - 1;
    }
    InsertEnd(s, j + 1, i, key);
    a[j + 1] := key;
    assert a[..] == s[j + 1 := key];
  }

  /** `sortStrings` on a slice. */
  method SortSlice(s: seq<string>) returns (r: seq<string>)
    ensures Sorted(r) && multiset(r) == multiset(s)
  {
    var a := new string[|s|](i requires 0 <= i < |s| => s[i]);
    assert a[..] == s;
    SortStrings(a);
    r := a[..];
  }

  lemma {:induction false} SameSetSameMultiset<T>(s: seq<T>, t: seq<T>)
    requires NoDuplicates(s) && NoDuplicates(t) && ToSet(s) == ToSet(t)
    ensures multiset(s) == multiset(t)
  {
    forall x ensures multiset(s)[x] == multiset(t)[x] {
      DistinctMultiset(s, x);
      DistinctMultiset(t, x);
      assert x in s <==> x in ToSet(s);
      assert x in t <==> x in ToSet(t);
    }
  }

  lemma {:induction false} DistinctMultiset<T>(s: seq<T>, x: T)
    requires NoDuplicates(s)
    ensures multiset(s)[x] == if x in s then 1 else 0
  {
    if s != [] {
      var init := s[..|s| - 1];
      assert s == init + [s[|s| - 1]];
      DistinctMultiset(init, x);
    }
  }

  /** A sorted listing without repetition is determined by the set it lists. */
  lemma ListingIsUnique(s: seq<string>, t: seq<string>)
    requires Sorted(s) && Sorted(t) && NoDuplicates(s) && NoDuplicates(t)
    requires ToSet(s) == ToSet(t)
    ensures s == t
  {
    SameSetSameMultiset(s, t);
    SortedIsUnique(s, t);
  }

  /** Sorting neither loses, adds nor repeats anything. */
  lemma SortingKeeps(s: seq<string>, t: seq<string>)
    requires NoDuplicates(s) && multiset(t) == multiset(s)
    ensures NoDuplicates(t) && ToSet(t) == ToSet(s)
  {
    forall x ensures x in t <==> x in s {
      assert x in multiset(t) <==> x in multiset(s);
    }
    forall i, j | 0 <= i < j < |t| ensures t[i] != t[j] {
      if t[i] == t[j] {
        assert t == t[..j] + [t[j]] + t[j + 1..];
        assert t[..j][i] in multiset(t[..j]);
        DistinctMultiset(s, t[i]);
      }
    }
  }
}
