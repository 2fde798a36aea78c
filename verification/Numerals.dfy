/** Zero-padded decimal numerals in file names, and their lexicographic order. */
module Numerals {
  import opened Sorting

  function Digit(d: nat): char
    requires d < 10
  {
    "0123456789"[d]
  }

  /** `f"{n:0wd}"`: decimal digits, padded with zeros to at least `w` characters. */
  function Padded(n: nat, w: nat): (s: string)
    ensures |s| > 0 && |s| >= w
    decreases n, w
  {
    if n < 10 && w <= 1 then [Digit(n)]
    else Padded(n / 10, if w > 0 then w - 1 else 0) + [Digit(n % 10)]
  }

  function Pow10(w: nat): (p: nat)
    ensures p >= 1
  {
    if w == 0 then 1 else 10 * Pow10(w - 1)
  }

  lemma DigitsInOrder(a: nat, b: nat)
    requires a < b < 10
    ensures Digit(a) < Digit(b)
  {
  }

  lemma PaddedSplits(n: nat, w: nat)
    requires w > 1
    ensures Padded(n, w) == Padded(n / 10, w - 1) + [Digit(n % 10)]
  {
  }

  /** The strings first differ at `k`, where the first one is smaller. */
  ghost predicate LessAt(a: string, b: string, k: nat) {
    k < |a| && k < |b| && a[..k] == b[..k] && a[k] < b[k]
  }

  lemma LessAtExtends(a: string, b: string, k: nat, x: char, y: char)
    requires LessAt(a, b, k)
    ensures LessAt(a + [x], b + [y], k)
  {
    assert (a + [x])[..k] == a[..k] && (b + [y])[..k] == b[..k];
  }

  lemma LessAtEnd(a: string, x: char, y: char)
    requires x < y
    ensures LessAt(a + [x], a + [y], |a|)
  {
    assert (a + [x])[..|a|] == a && (a + [y])[..|a|] == a;
  }

  lemma QuotientsInOrder(n: nat, m: nat, p: nat)
    requires n < m < 10 * p
    ensures n / 10 <= m / 10 < p
    ensures n / 10 == m / 10 ==> n % 10 < m % 10
  {
  }

  /** Equal-width numerals first differ at a smaller digit of the smaller number. */
  lemma {:induction false} PaddedOrder(n: nat, m: nat, w: nat) returns (k: nat)
    requires w > 0 && n < m < Pow10(w)
    ensures LessAt(Padded(n, w), Padded(m, w), k)
    decreases w
  {
    if w == 1 {
      assert Pow10(1) == 10 * Pow10(0);
      DigitsInOrder(n, m);
      k := 0;
    } else {
      PaddedSplits(n, w);
      PaddedSplits(m, w);
      var (a, b) := (n / 10, m / 10);
      QuotientsInOrder(n, m, Pow10(w - 1));
      if a < b {
        k := PaddedOrder(a, b, w - 1);
        LessAtExtends(Padded(a, w - 1), Padded(b, w - 1), k, Digit(n % 10), Digit(m % 10));
      } else {
        k := |Padded(a, w - 1)|;
        DigitsInOrder(n % 10, m % 10);
        LessAtEnd(Padded(a, w - 1), Digit(n % 10), Digit(m % 10));
      }
    }
  }

  /** Name order is numeric order as long as the width suffices. */
  lemma NamesInOrder(n: nat, m: nat, w: nat, suffix: string)
    requires w > 0 && n < m < Pow10(w)
    ensures var (a, b) := (Padded(n, w) + suffix, Padded(m, w) + suffix); LexLe(a, b) && !LexLe(b, a) && a != b
  {
    var k := PaddedOrder(n, m, w);
    var (a, b) := (Padded(n, w) + suffix, Padded(m, w) + suffix);
    assert a[..k] == Padded(n, w)[..k] && b[..k] == Padded(m, w)[..k];
    LexDecidedAt(a, b, k);
  }

  /** Numerals are unambiguous, whatever the width. */
  lemma {:induction false} PaddedInjective(n: nat, m: nat, w: nat)
    requires Padded(n, w) == Padded(m, w)
    ensures n == m
    decreases n + w
  {
    var (a, b) := (Padded(n, w), Padded(m, w));
    assert a[|a| - 1] == Digit(n % 10) && b[|b| - 1] == Digit(m % 10);
    assert n % 10 == m % 10;
    if |a| > 1 {
      var v := if w > 0 then w - 1 else 0;
      assert a[..|a| - 1] == Padded(n / 10, v) && b[..|b| - 1] == Padded(m / 10, v);
      PaddedInjective(n / 10, m / 10, v);
    } else {
      assert n < 10 && m < 10;
    }
  }

  /** The width 0 and the width 1 ask for the same. */
  lemma PaddedUnits(n: nat)
    ensures Padded(n, 0) == Padded(n, 1)
  {
  }

  /** A larger number is never written shorter. */
  lemma {:induction false} WidthGrows(n: nat, m: nat)
    requires n <= m
    ensures |Padded(n, 1)| <= |Padded(m, 1)|
    decreases m
  {
    if n >= 10 {
      WidthGrows(n / 10, m / 10);
      PaddedUnits(n / 10);
      PaddedUnits(m / 10);
    }
  }
}
