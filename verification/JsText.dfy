/** The byte-level decoders of the JavaScript normaliser: code points, percent
    escapes and integer literals, with the size facts termination rests on. */
module JsText {
  import opened ByteSeq
  import opened Arith
  import opened Numerals

  /** A code point as UTF-8, except that one up to 0xFF stays a single byte and one that is
      no scalar value keeps its low byte. */
  function EncodeCp(cp: nat): (r: Bytes)
    ensures 1 <= |r| <= 4
    ensures cp <= 0xFF ==> |r| == 1
    ensures cp < 0x1_0000 ==> |r| <= 3
  {
    if cp <= 0xFF then [cp]
    else if 0xD800 <= cp < 0xE000 || cp > 0x10_FFFF then [cp % 256]
    else if cp < 0x800 then [0xC0 + cp / 64, 0x80 + cp % 64]
    else if cp < 0x1_0000 then [0xE0 + cp / 4096, 0x80 + cp / 64 % 64, 0x80 + cp % 64]
    else [0xF0 + cp / 262144, 0x80 + cp / 4096 % 64, 0x80 + cp / 64 % 64, 0x80 + cp % 64]
  }

  /** Digits read left to right into a 32-bit value; `None` on a bad digit or an overflow. */
  function FoldDigits(digits: Bytes, radix: nat, v: nat): (r: Option<nat>)
    requires 2 <= radix <= 16
    decreases |digits|
  {
    if digits == [] then Some(v)
    else match DigitVal(digits[0], radix)
      case None => None
      case Some(d) => if v * radix + d < U32 then FoldDigits(digits[1..], radix, v * radix + d) else None
  }

  function Hex2(a: byte, b: byte): Option<byte> {
    match (DigitVal(a, 16), DigitVal(b, 16))
    case (Some(hi), Some(lo)) => Some(hi * 16 + lo)
    case _ => None
  }

  // ---------------------------------------------------------------- percent escapes

  /** What the front of a string decodes to, and how many bytes that takes: `%uXXXX`,
      `%XX`, or the byte itself. */
  function PercentUnit(s: Bytes): (r: (Bytes, nat))
    requires s != []
    ensures 1 <= r.1 <= |s| && |r.0| <= r.1
  {
    if s[0] == PERCENT && |s| > 5 && Lower(s[1]) == LETTER_U && FoldDigits(s[2..6], 16, 0).Some? then
      (EncodeCp(FoldDigits(s[2..6], 16, 0).value), 6)
    else if s[0] == PERCENT && |s| > 2 && Hex2(s[1], s[2]).Some? then ([Hex2(s[1], s[2]).value], 3)
    else ([s[0]], 1)
  }

  /** Percent escapes decoded, every other byte kept. */
  function PercentDecode(s: Bytes): (r: Bytes)
    ensures |r| <= |s|
  {
    if s == [] then []
    else
      var (piece, step) := PercentUnit(s);
      piece + PercentDecode(s[step..])
  }

  lemma {:induction false} FoldDigitsBound(digits: Bytes, radix: nat, v: nat)
    requires 2 <= radix <= 16
    ensures FoldDigits(digits, radix, v).Some? ==> FoldDigits(digits, radix, v).value < (v + 1) * Pow(radix, |digits|)
    decreases |digits|
  {
    if digits == [] {
      assert Pow(radix, 0) == 1;
    } else if FoldDigits(digits, radix, v).Some? {
      var d := DigitVal(digits[0], radix).value;
      FoldDigitsBound(digits[1..], radix, v * radix + d);
      GrowBound(v, radix, d, Pow(radix, |digits| - 1));
    }
  }

  lemma GrowBound(v: nat, radix: nat, d: nat, p: nat)
    requires d < radix
    ensures (v * radix + d + 1) * p <= (v + 1) * (radix * p)
  {
    assert (v + 1) * radix == v * radix + radix;
    MulMono(p, v * radix + d + 1, (v + 1) * radix);
    assert (v + 1) * radix * p == (v + 1) * (radix * p);
  }

  /** Every byte as `%XX`: the encoder `PercentDecode` undoes. */
  function PercentEncode(s: Bytes): Bytes {
    if s == [] then []
    else [PERCENT, HexDigit(s[0] / 16), HexDigit(s[0] % 16)] + PercentEncode(s[1..])
  }

  lemma {:induction false} PercentRoundTrip(s: Bytes)
    ensures PercentDecode(PercentEncode(s)) == s
  {
    if s != [] {
      var e := PercentEncode(s);
      assert e[3..] == PercentEncode(s[1..]);
      PercentRoundTrip(s[1..]);
      assert Lower(e[1]) != LETTER_U;
    }
  }

  /** `PercentUnit` read in place, without the suffix being cut out. */
  function PercentUnitAt(s: Bytes, i: nat): (r: (Bytes, nat))
    requires i < |s|
    ensures r == PercentUnit(s[i..])
  {
    if s[i] == PERCENT && i + 5 < |s| && Lower(s[i + 1]) == LETTER_U && FoldDigits(s[i + 2..i + 6], 16, 0).Some? then
      assert s[i..][2..6] == s[i + 2..i + 6];
      (EncodeCp(FoldDigits(s[i + 2..i + 6], 16, 0).value), 6)
    else if s[i] == PERCENT && i + 2 < |s| && Hex2(s[i + 1], s[i + 2]).Some? then
      assert i + 5 < |s| ==> s[i..][2..6] == s[i + 2..i + 6];
      ([Hex2(s[i + 1], s[i + 2]).value], 3)
    else
      assert i + 5 < |s| ==> s[i..][2..6] == s[i + 2..i + 6];
      ([s[i]], 1)
  }

  lemma PercentDecodeFrom(s: Bytes, i: nat)
    requires i < |s|
    ensures var u := PercentUnitAt(s, i);
            PercentDecode(s[i..]) == u.0 + PercentDecode(s[i + u.1..])
  {
    assert s[i..][PercentUnitAt(s, i).1..] == s[i + PercentUnitAt(s, i).1..];
  }

  lemma PercentDecodeNone()
    ensures PercentDecode([]) == []
  {}

  /** What the reducer calls: one pass over the string with a moving index. */
  method DecodePercent(s: Bytes) returns (out: Bytes)
    ensures out == PercentDecode(s)
  {
    hide PercentDecode, PercentUnitAt;
    PercentDecodeNone();
    out := [];
    var i := 0;
    assert s[0..] == s;
    ghost var rest := PercentDecode(s);
    while i < |s|
      invariant 0 <= i <= |s|
      invariant rest == PercentDecode(s[i..])
      invariant out + rest == PercentDecode(s)
    {
      var (piece, step) := PercentUnitAt(s, i);
      PercentDecodeFrom(s, i);
      rest := PercentDecode(s[i + step..]);
      assert out + (piece + rest) == (out + piece) + rest;
      out := out + piece;
      i := i + step;
    }
  }

  // ---------------------------------------------------------------- integer literals

  function DropUnderscores(s: Bytes): (r: Bytes)
    ensures |r| <= |s|
  {
    if s == [] then []
    else if s[0] == UNDERSCORE then DropUnderscores(s[1..])
    else [s[0]] + DropUnderscores(s[1..])
  }

  /** The radix an integer literal's prefix chooses, and the digits after it. */
  function Radix(s: Bytes): (r: (nat, Bytes))
    ensures 2 <= r.0 <= 16
    ensures |r.1| <= |s|
  {
    if |s| >= 2 && s[0] == ZERO then
      if Lower(s[1]) == LETTER_X then (16, s[2..])
      else if Lower(s[1]) == LETTER_O then (8, s[2..])
      else if Lower(s[1]) == LETTER_B then (2, s[2..])
      else (10, s)
    else (10, s)
  }

  /** The value of an integer literal that fits 32 bits. */
  function ParseInt(num: Bytes): (r: Option<nat>)
  {
    var s := DropUnderscores(num);
    if s == [] then None
    else
      var (radix, digits) := Radix(s);
      if digits == [] then None else FoldDigits(digits, radix, 0)
  }

  /** A value in decimal. */
  function Dec(v: nat): (r: Bytes)
    ensures |r| >= 1
    ensures forall i :: 0 <= i < |r| ==> IsDigit(r[i])
    ensures |r| >= 2 ==> r[0] != ZERO
  {
    if v < 10 then [ZERO + v] else Dec(v / 10) + [ZERO + v % 10]
  }

  lemma DecKeepsNoUnderscore(s: Bytes)
    requires forall i :: 0 <= i < |s| ==> IsDigit(s[i])
    ensures DropUnderscores(s) == s
  {
    if s != [] {
      DecKeepsNoUnderscore(s[1..]);
    }
  }

  lemma {:induction false} FoldDec(v: nat, tail: Bytes)
    requires v < U32
    ensures FoldDigits(Dec(v) + tail, 10, 0) == FoldDigits(tail, 10, v)
  {
    var d: byte := ZERO + v % 10;
    if v < 10 {
      assert (Dec(v) + tail)[1..] == tail;
    } else {
      assert Dec(v) + tail == Dec(v / 10) + ([d] + tail);
      FoldDec(v / 10, [d] + tail);
      assert ([d] + tail)[1..] == tail;
    }
  }

  /** Printing a value and reading it back. */
  lemma DecRoundTrip(v: nat)
    requires v < U32
    ensures ParseInt(Dec(v)) == Some(v)
  {
    DecKeepsNoUnderscore(Dec(v));
    FoldDec(v, []);
    assert Dec(v) + [] == Dec(v);
  }

  /** A code is never longer written as a character than as the literal it was read from. */
  lemma CodeNoLongerThanLiteral(num: Bytes)
    requires ParseInt(num).Some?
    ensures |EncodeCp(ParseInt(num).value)| <= |num|
  {
    var s := DropUnderscores(num);
    var (radix, digits) := Radix(s);
    FoldDigitsBound(digits, radix, 0);
    PowMono(radix, |digits|);
    if |s| == 1 { assert Pow(16, 1) == 16; }
    if |s| == 2 { assert Pow(16, 2) == 256; }
    if |s| == 3 { assert Pow(10, 3) == 1000; assert Pow(16, 1) == 16; }
  }

  lemma {:induction false} PowMono(b: nat, e: nat)
    requires 2 <= b <= 16
    ensures Pow(b, e) <= Pow(16, e)
  {
    if e > 0 {
      PowMono(b, e - 1);
      MulMono(Pow(b, e - 1), b, 16);
      MulMono(16, Pow(b, e - 1), Pow(16, e - 1));
    }
  }
}
