/**
 Session file names of the provenance log and their order in a sorted directory listing.
 */
module SessionFiles {
  import opened Text
  import opened Basics
  import opened StringOrder

  /** `session-{:04}.jsonl` */
  function Name(n: nat): string
  {
    "session-" + (Padded(n, 4) + ".jsonl")
  }

  lemma FirstName()
    ensures Name(1) == "session-0001.jsonl"
  {
    assert Decimal(1) == "1";
    assert Padded(1, 4) == "0001";
  }

  lemma {:induction false} CommonPrefix(p: string, a: string, b: string)
    ensures Le(p + a, p + b) <==> Le(a, b)
  {
    if p == [] {
      assert p + a == a && p + b == b;
    } else {
      assert (p + a)[1..] == p[1..] + a && (p + b)[1..] == p[1..] + b;
      CommonPrefix(p[1..], a, b);
    }
  }

  /** Between strings of the same length the order is decided before any suffix. */
  lemma {:induction false} SuffixIrrelevant(a: string, b: string, s: string, t: string)
    requires |a| == |b| && Lt(a, b)
    ensures Lt(a + s, b + t)
  {
    if a != [] {
      assert (a + s)[1..] == a[1..] + s && (b + t)[1..] == b[1..] + t;
      if a[0] == b[0] {
        SuffixIrrelevant(a[1..], b[1..], s, t);
      }
    }
  }

  lemma LastDigit(x: string, a: char, b: char)
    requires a < b
    ensures Lt(x + [a], x + [b])
  {
    CommonPrefix(x, [b], [a]);
  }

  /** Digit strings of the same length are ordered as the numbers they denote. */
  lemma {:induction false} DigitsOrderAsNumbers(a: string, b: string)
    requires AllDigits(a) && AllDigits(b) && |a| == |b|
    ensures Value(a) < Value(b) ==> Lt(a, b)
    ensures Value(a) == Value(b) ==> a == b
  {
    if a != [] {
      var n := |a| - 1;
      var x, y := a[..n], b[..n];
      DigitsOrderAsNumbers(x, y);
      assert a == x + [a[n]] && b == y + [b[n]];
      if Value(a) < Value(b) {
        if Value(x) < Value(y) {
          SuffixIrrelevant(x, y, [a[n]], [b[n]]);
        } else {
          assert Value(x) == Value(y);
          LastDigit(x, a[n], b[n]);
        }
      }
    }
  }

  lemma FourDigits(n: nat)
    requires n <= 9999
    ensures |Padded(n, 4)| == 4
  {
    assert Pow10(4) == 10000 by {
      assert Pow10(3) == 1000 by { assert Pow10(2) == 100 by { assert Pow10(1) == 10; } }
    }
    PaddedLength(n, 4);
  }

  /** Up to 9999, names sort in numeric order. */
  lemma NamesSortNumerically(i: nat, j: nat)
    requires i < j <= 9999
    ensures Lt(Name(i), Name(j)) && Le(Name(i), Name(j))
  {
    FourDigits(i);
    FourDigits(j);
    ValueOfPadded(i, 4);
    ValueOfPadded(j, 4);
    DigitsOrderAsNumbers(Padded(i, 4), Padded(j, 4));
    SuffixIrrelevant(Padded(i, 4), Padded(j, 4), ".jsonl", ".jsonl");
    CommonPrefix("session-", Padded(j, 4) + ".jsonl", Padded(i, 4) + ".jsonl");
    LeTotal(Name(i), Name(j));
  }

  /** At 10000 they no longer do: the five-digit name sorts before `session-9999.jsonl`. */
  lemma FiveDigitsSortEarly()
    ensures Lt(Name(10000), Name(9999)) && Name(10000) != Name(9999)
  {
    hide Padded, Le;
    FiveDigits();
    assert !Le("9999" + ".jsonl", "10000" + ".jsonl") by {
      var a, b := "9999" + ".jsonl", "10000" + ".jsonl";
      assert a[0] == '9' && b[0] == '1';
      FirstDecides(a, b);
    }
    CommonPrefix("session-", Padded(9999, 4) + ".jsonl", Padded(10000, 4) + ".jsonl");
    NamesDiffer(10000, 9999);
  }

  lemma FirstDecides(a: string, b: string)
    requires a != [] && b != [] && a[0] > b[0]
    ensures !Le(a, b)
  {
  }

  lemma FiveDigits()
    ensures Padded(10000, 4) == "10000" && Padded(9999, 4) == "9999"
  {
    assert Decimal(10000) == "10000" by {
      assert Decimal(1000) == "1000" by { assert Decimal(100) == "100" by { assert Decimal(10) == "10"; } }
    }
    assert Decimal(9999) == "9999" by {
      assert Decimal(999) == "999" by { assert Decimal(99) == "99"; }
    }
  }

  lemma NamesDiffer(i: nat, j: nat)
    requires i != j
    ensures Name(i) != Name(j)
  {
    if Name(i) == Name(j) {
      var a, b := Padded(i, 4), Padded(j, 4);
      assert Name(i)[8..] == a + ".jsonl" && Name(j)[8..] == b + ".jsonl";
      assert |a| == |b|;
      assert (a + ".jsonl")[..|a|] == a && (b + ".jsonl")[..|b|] == b;
      ValueOfPadded(i, 4);
      ValueOfPadded(j, 4);
    }
  }

  /** The first `n` names in numeric order. */
  function Numbered(n: nat): (r: seq<string>)
    ensures |r| == n && forall i :: 0 <= i < n ==> r[i] == Name(i + 1)
  {
    seq(n, i requires 0 <= i < n => Name(i + 1))
  }

  lemma NumberedIsDistinct(n: nat)
    ensures NoDuplicates(Numbered(n))
  {
    hide Name;
    forall i, j | 0 <= i < j < n ensures Numbered(n)[i] != Numbered(n)[j] {
      NamesDiffer(i + 1, j + 1);
    }
  }

  lemma NumberedIsSorted(n: nat)
    requires n <= 9999
    ensures Sorted(Numbered(n))
  {
    forall i, j | 0 <= i < j < n ensures Le(Numbered(n)[i], Numbered(n)[j]) {
      NamesSortNumerically(i + 1, j + 1);
    }
  }
}
