/** Numbers written in digits, the highest first, with as many zeros in front as one likes, and in bytes, the
    lowest first. */
module Numerals {
  import opened ByteSeq
  import opened Arith

  function Pow(b: nat, e: nat): nat {
    if e == 0 then 1 else b * Pow(b, e - 1)
  }

  /** A number in `n` digits of a radix, zeros in front. */
  function Padded(v: nat, n: nat, radix: nat): (r: Bytes)
    requires 2 <= radix <= 16
    ensures |r| == n
  {
    if n == 0 then [] else Padded(v / radix, n - 1, radix) + [HexDigit(v % radix)]
  }

  lemma {:induction false} PaddedDigits(v: nat, n: nat, radix: nat)
    requires 2 <= radix <= 16
    ensures forall i :: 0 <= i < n ==> DigitVal(Padded(v, n, radix)[i], radix).Some?
    ensures forall i :: 0 <= i < n ==> IsDigit(Padded(v, n, radix)[i]) || 97 <= Padded(v, n, radix)[i] <= 102
  {
    if n > 0 { PaddedDigits(v / radix, n - 1, radix); }
  }

  lemma PaddedStep(v: nat, n: nat, radix: nat)
    requires 2 <= radix <= 16 && n > 0
    ensures Padded(v, n, radix) == Padded(v / radix, n - 1, radix) + [HexDigit(v % radix)]
  {}

  predicate Splits(v: nat, q: nat, d: nat, radix: nat) { v == q * radix + d }

  /** A number without its last digit, and that digit. */
  lemma Shorter(v: nat, n: nat, radix: nat) returns (q: nat, d: nat)
    requires 2 <= radix <= 16 && n > 0 && v < Pow(radix, n)
    ensures q < Pow(radix, n - 1) && d < radix && Splits(v, q, d, radix)
    ensures Padded(v, n, radix) == Padded(q, n - 1, radix) + [HexDigit(d)]
  {
    hide Padded, HexDigit;
    q, d := v / radix, v % radix;
    PaddedStep(v, n, radix);
    if q >= Pow(radix, n - 1) { MulMono(radix, Pow(radix, n - 1), q); }
  }

  /** Digits spell the number they were written from. */
  lemma {:induction false} NumberPadded(v: nat, n: nat, radix: nat)
    requires 2 <= radix <= 16 && v < Pow(radix, n)
    ensures Number(Padded(v, n, radix), radix) == Some(v)
    decreases n
  {
    hide Padded, HexDigit, Number, Splits;
    if n == 0 {
      NumberNone(radix);
    } else {
      hide Pow;
      var q, d := Shorter(v, n, radix);
      NumberPadded(q, n - 1, radix);
      NumberMore(v, Padded(q, n - 1, radix), q, d, radix);
    }
  }

  lemma NumberNone(radix: nat)
    requires 2 <= radix <= 16
    ensures Number([], radix) == Some(0)
  {}

  lemma NumberMore(v: nat, p: Bytes, q: nat, d: nat, radix: nat)
    requires 2 <= radix <= 16 && d < radix && Splits(v, q, d, radix) && Number(p, radix) == Some(q)
    ensures Number(p + [HexDigit(d)], radix) == Some(v)
  {
    assert (p + [HexDigit(d)])[..|p|] == p;
  }

  // ---------------------------------------------------------------- words, the lowest byte first

  /** A number in `n` bytes, the lowest first. */
  function ToLe(v: nat, n: nat): (r: Bytes)
    ensures |r| == n
    decreases n
  {
    if n == 0 then [] else [v % 256] + ToLe(v / 256, n - 1)
  }

  function Limit(n: nat): nat { if n == 0 then 1 else 256 * Limit(n - 1) }

  lemma {:induction false} LeRoundTrip(v: nat, n: nat)
    requires v < Limit(n)
    ensures FromLe(ToLe(v, n)) == v
    decreases n
  {
    if n > 0 {
      LeRoundTrip(v / 256, n - 1);
      assert ToLe(v, n)[1..] == ToLe(v / 256, n - 1);
    }
  }
}
