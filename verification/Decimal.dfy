/** Decimal numerals as terminals and `to_string` write them. */
module Decimal {

  /** The digits of `n`, most significant first, without leading zeros. */
  function Digits(n: nat): (ds: seq<nat>)
    ensures |ds| > 0 && forall i :: 0 <= i < |ds| ==> ds[i] < 10
  {
    if n < 10 then [n] else Digits(n / 10) + [n % 10]
  }

  /** The number a digit sequence denotes. */
  function Value(ds: seq<nat>): nat {
    if ds == [] then 0 else Value(ds[..|ds| - 1]) * 10 + ds[|ds| - 1]
  }

  lemma {:induction false} ValueOfDigits(n: nat)
    ensures Value(Digits(n)) == n
  {
    if n < 10 {
      assert Digits(n)[..0] == [];
    } else {
      ValueOfDigits(n / 10);
      assert Digits(n)[..|Digits(n)| - 1] == Digits(n / 10);
    }
  }

  /** A numeral has at most as many digits as any power of ten above it. */
  lemma {:induction false} DigitsBound(n: nat, width: nat)
    requires width > 0 && n < Power10(width)
    ensures |Digits(n)| <= width
  {
    if n >= 10 {
      DigitsBound(n / 10, width - 1);
    }
  }

  function Power10(width: nat): (p: nat)
    ensures p > 0
  {
    if width == 0 then 1 else 10 * Power10(width - 1)
  }

  /** Digits count by their place: those in front are worth more by a power of ten. */
  lemma {:induction false} ValueOfBoth(a: seq<nat>, b: seq<nat>)
    ensures Value(a + b) == Value(a) * Power10(|b|) + Value(b)
    decreases |b|
  {
    if b == [] {
      assert a + b == a;
    } else {
      var init, last := b[..|b| - 1], b[|b| - 1];
      ValueOfBoth(a, init);
      assert (a + b)[..|a + b| - 1] == a + init;
      Tenfold(Value(a), Power10(|init|), Value(init), last);
    }
  }

  lemma Tenfold(x: nat, p: nat, y: nat, z: nat)
    ensures (x * p + y) * 10 + z == x * (10 * p) + (y * 10 + z)
  {
  }
}
