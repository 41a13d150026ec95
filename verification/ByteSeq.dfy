/** Bytes, byte strings and the ASCII classes the scanner's text code is written in. */
module ByteSeq {
  type byte = x: int | 0 <= x < 256
  type Bytes = seq<byte>

  datatype Option<+T> = None | Some(value: T)

  const U32: nat := 0x1_0000_0000
  const U64: nat := 0x1_0000_0000_0000_0000

  function Min(a: int, b: int): int { if a <= b then a else b }
  function Max(a: int, b: int): int { if a <= b then b else a }

  // ---------------------------------------------------------------- sequences

  /** The first `n` elements, or all there are. */
  function Front<T>(s: seq<T>, n: nat): seq<T> { if n <= |s| then s[..n] else s }

  /** What is left without them. */
  function Drop<T>(s: seq<T>, n: nat): seq<T> { if n <= |s| then s[n..] else [] }

  function Last<T>(s: seq<T>): T requires s != [] { s[|s| - 1] }

  function Init<T>(s: seq<T>): seq<T> requires s != [] { s[..|s| - 1] }

  lemma Assoc<T>(a: seq<T>, b: seq<T>, c: seq<T>)
    ensures a + (b + c) == a + b + c
  {}

  lemma Assoc4<T>(a: seq<T>, b: seq<T>, c: seq<T>, d: seq<T>)
    ensures a + (b + (c + d)) == a + b + c + d
  {}

  // ---------------------------------------------------------------- bytes

  /** An ASCII string as the bytes that spell it. */
  function Ascii(s: string): (r: Bytes)
    ensures |r| == |s|
  {
    seq(|s|, i requires 0 <= i < |s| => if s[i] as int < 128 then s[i] as int else 0)
  }

  const QUOTE: byte := 34
  const PERCENT: byte := 37
  const ZERO: byte := 48
  const UNDERSCORE: byte := 95
  const LETTER_B: byte := 98
  const LETTER_O: byte := 111
  const LETTER_U: byte := 117
  const LETTER_X: byte := 120

  predicate IsUpper(b: byte) { 65 <= b <= 90 }
  predicate IsLower(b: byte) { 97 <= b <= 122 }
  predicate IsDigit(b: byte) { 48 <= b <= 57 }
  predicate IsAlpha(b: byte) { IsUpper(b) || IsLower(b) }
  predicate IsAlnum(b: byte) { IsAlpha(b) || IsDigit(b) }

  function Lower(b: byte): (r: byte)
    ensures !IsUpper(r)
  {
    if IsUpper(b) then b + 32 else b
  }

  function LowerAll(s: Bytes): (r: Bytes)
    ensures |r| == |s|
  {
    seq(|s|, i requires 0 <= i < |s| => Lower(s[i]))
  }

  /** Equality up to ASCII letter case, the second operand already in lower case. */
  predicate SameName(name: Bytes, lower: Bytes) { LowerAll(name) == lower }

  /** The value of a digit in a radix of at most 16. */
  function DigitVal(b: byte, radix: nat): (r: Option<nat>)
    requires 2 <= radix <= 16
    ensures r.Some? ==> r.value < radix
  {
    var v := if IsDigit(b) then b - 48
             else if 97 <= b <= 102 then b - 87
             else if 65 <= b <= 70 then b - 55
             else 255;
    if v < radix then Some(v) else None
  }

  /** The number digits spell, however large. */
  function Number(digits: Bytes, radix: nat): Option<nat>
    requires 2 <= radix <= 16
  {
    if digits == [] then Some(0)
    else
      var n, d := Number(digits[..|digits| - 1], radix), DigitVal(digits[|digits| - 1], radix);
      if n.None? || d.None? then None else Some(n.value * radix + d.value)
  }

  /** The digit that spells a value below 16, in lower case. */
  function HexDigit(v: nat): (b: byte)
    requires v < 16
    ensures DigitVal(b, 16) == Some(v)
    ensures v < 10 ==> DigitVal(b, 10) == Some(v)
  {
    if v < 10 then 48 + v else 87 + v
  }

  /** The number bytes spell, the lowest first. */
  function FromLe(b: Bytes): nat {
    if b == [] then 0 else b[0] + 256 * FromLe(b[1..])
  }

  function Concat(parts: seq<Bytes>): Bytes {
    if parts == [] then [] else parts[0] + Concat(parts[1..])
  }

  /** A slice of a slice. */
  lemma SubSlice(data: Bytes, a: nat, b: nat, p: nat, q: nat)
    requires a <= b <= |data| && p <= q <= b - a
    ensures data[a..b][p..q] == data[a + p..a + q]
  {
    var x, y := data[a..b][p..q], data[a + p..a + q];
    forall i | 0 <= i < |x| ensures x[i] == y[i] {
      assert x[i] == data[a..b][p + i];
    }
  }
}
