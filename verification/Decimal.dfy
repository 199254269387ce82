/** Exact non-negative decimal numbers.

    The encoder's tokens are binary floats in `abgd.py`. This model
    abstracts them as exact decimals: an integral part and the digits after the
    decimal point. Binary rounding (spurious trailing digits such as
    `...0000002` after a float addition) is deliberately not modelled.

    A decimal is canonical when its fractional digits carry no trailing zero;
    the canonical digits are then what the shortest decimal text of the number
    shows after the point (with `0` standing for an empty fraction, see
    `FracText`). Two canonical decimals are equal exactly when their values are
    (`CanonicalUnique`), so structural equality of `Dec` values is equality of
    the numbers they stand for. */
module Decimal {

  type Digit = d: int | 0 <= d <= 9

  datatype Dec = Dec(whole: nat, frac: seq<Digit>)

  const Zero: Dec := Dec(0, [])

  /** No trailing zero digit after the point. */
  predicate Canonical(d: Dec) {
    d.frac == [] || d.frac[|d.frac| - 1] != 0
  }

  /** The digit string following the point in the shortest decimal text of a
      canonical number: its fractional digits, or the single digit `0` when
      the number is integral (the text of two is `2.0`). */
  function FracText(d: Dec): (r: seq<Digit>)
    ensures r != []
    ensures r == [0] || r == d.frac
  {
    if d.frac == [] then [0] else d.frac
  }

  /** The value of the fraction `0.ds[0]ds[1]...`. */
  ghost function FracValue(ds: seq<Digit>): real
  {
    if ds == [] then 0.0 else (ds[0] as real + FracValue(ds[1..])) / 10.0
  }

  /** The number a decimal stands for. */
  ghost function Value(d: Dec): real
  {
    d.whole as real + FracValue(d.frac)
  }

  function Zeros(n: nat): (r: seq<Digit>)
    ensures |r| == n
    ensures forall i :: 0 <= i < n ==> r[i] == 0
  {
    seq(n, _ => 0)
  }

  lemma {:induction false} FracValueBounds(ds: seq<Digit>)
    ensures 0.0 <= FracValue(ds) < 1.0
    decreases |ds|
  {
    if ds != [] {
      FracValueBounds(ds[1..]);
    }
  }

  /** A non-empty canonical fraction is strictly positive. */
  lemma {:induction false} FracValuePositive(ds: seq<Digit>)
    requires ds != [] && ds[|ds| - 1] != 0
    ensures FracValue(ds) > 0.0
    decreases |ds|
  {
    FracValueBounds(ds[1..]);
    if ds[0] == 0 {
      FracValuePositive(ds[1..]);
    }
  }

  /** Appending zero digits does not change a fraction's value. */
  lemma {:induction false} FracValueZeros(ds: seq<Digit>, n: nat)
    ensures FracValue(ds + Zeros(n)) == FracValue(ds)
    decreases |ds|, n
  {
    if ds == [] {
      assert ds + Zeros(n) == Zeros(n);
      if n > 0 {
        assert Zeros(n)[1..] == Zeros(n - 1);
        assert ds + Zeros(n - 1) == Zeros(n - 1);
        FracValueZeros([], n - 1);
      }
    } else {
      assert (ds + Zeros(n))[1..] == ds[1..] + Zeros(n);
      FracValueZeros(ds[1..], n);
    }
  }

  /** Drops the trailing zero digits of a fraction, as reading the digit text
      `0.<ds>` back into a number does. */
  function Strip(ds: seq<Digit>): (r: seq<Digit>)
    ensures r == [] || r[|r| - 1] != 0
    ensures |r| <= |ds|
    ensures ds == r + Zeros(|ds| - |r|)
    ensures FracValue(r) == FracValue(ds)
    decreases |ds|
  {
    if ds == [] then []
    else if ds[|ds| - 1] != 0 then
      FracValueZeros(ds, 0);
      assert ds + Zeros(0) == ds;
      ds
    else
      var r := Strip(ds[..|ds| - 1]);
      assert ds == ds[..|ds| - 1] + [0];
      assert ds == r + Zeros(|ds| - |r|);
      FracValueZeros(r, |ds| - |r|);
      r
  }

  /** Column addition of two fractions of equal length, from the last digit
      to the first: the sum's digits and the carry into the units place. */
  function AddFrac(a: seq<Digit>, b: seq<Digit>): (r: (nat, seq<Digit>))
    requires |a| == |b|
    ensures r.0 <= 1 && |r.1| == |a|
    ensures FracValue(a) + FracValue(b) == r.0 as real + FracValue(r.1)
    decreases |a|
  {
    if a == [] then (0, [])
    else
      var tail := AddFrac(a[1..], b[1..]);
      var t := a[0] + b[0] + tail.0;
      var s := [t % 10] + tail.1;
      assert s[1..] == tail.1;
      assert t as real == 10.0 * (t / 10) as real + (t % 10) as real;
      (t / 10, s)
  }

  function Max(a: nat, b: nat): (r: nat)
    ensures r >= a && r >= b && (r == a || r == b)
  {
    if a >= b then a else b
  }

  /** Exact decimal addition. */
  function Add(a: Dec, b: Dec): (r: Dec)
    ensures Canonical(r)
    ensures Value(r) == Value(a) + Value(b)
  {
    var n := Max(|a.frac|, |b.frac|);
    var fa := a.frac + Zeros(n - |a.frac|);
    var fb := b.frac + Zeros(n - |b.frac|);
    FracValueZeros(a.frac, n - |a.frac|);
    FracValueZeros(b.frac, n - |b.frac|);
    var s := AddFrac(fa, fb);
    Dec(a.whole + b.whole + s.0, Strip(s.1))
  }

  /** Two fractions without trailing zeros and with equal values are equal. */
  lemma {:induction false} FracUnique(a: seq<Digit>, b: seq<Digit>)
    requires a == [] || a[|a| - 1] != 0
    requires b == [] || b[|b| - 1] != 0
    requires FracValue(a) == FracValue(b)
    ensures a == b
    decreases |a|
  {
    if a == [] && b != [] {
      FracValuePositive(b);
    } else if a != [] && b == [] {
      FracValuePositive(a);
    } else if a != [] {
      FracValueBounds(a[1..]);
      FracValueBounds(b[1..]);
      assert a[0] == b[0];
      FracUnique(a[1..], b[1..]);
      assert a == [a[0]] + a[1..];
      assert b == [b[0]] + b[1..];
    }
  }

  /** A canonical decimal is determined by its value. */
  lemma CanonicalUnique(a: Dec, b: Dec)
    requires Canonical(a) && Canonical(b)
    requires Value(a) == Value(b)
    ensures a == b
  {
    FracValueBounds(a.frac);
    FracValueBounds(b.frac);
    assert a.whole == b.whole;
    FracUnique(a.frac, b.frac);
  }

  /** Adding a fraction below one to an integer keeps the integer as the
      integral part and the fraction's digits as the fractional part. */
  lemma AddToIntegral(n: nat, f: Dec)
    requires Canonical(f) && f.whole == 0
    ensures Add(Dec(n, []), f) == Dec(n, f.frac)
  {
    CanonicalUnique(Add(Dec(n, []), f), Dec(n, f.frac));
  }
}
