/** However a value is written in a script, it reads as that value: code points and their UTF-8 bytes,
    percent escapes, string literals with every kind of escape, and integer literals in every radix. */
module JsSpellings {
  import opened ByteSeq
  import opened Arith
  import opened Numerals
  import opened Pieces
  import opened JsText
  import opened JsLexer
  import opened JsReducer

  // ---------------------------------------------------------------- code points

  predicate Scalar(cp: nat) { cp <= 0x10_FFFF && !(0xD800 <= cp < 0xE000) }

  predicate Continues(b: byte) { 0x80 <= b < 0xC0 }

  /** What a byte holds above the bits that mark its place. */
  function Bits(b: byte, mark: byte): nat { if b >= mark then b - mark else 0 }

  /** The code point a UTF-8 sequence of more than one byte encodes (section 3 of RFC 3629). */
  function Utf8(b: Bytes): Option<nat> {
    var cp :=
      if |b| == 2 && 0xC0 <= b[0] < 0xE0 && Continues(b[1]) then Bits(b[0], 0xC0) * 64 + Bits(b[1], 0x80)
      else if |b| == 3 && 0xE0 <= b[0] < 0xF0 && Continues(b[1]) && Continues(b[2]) then
        Bits(b[0], 0xE0) * 4096 + Bits(b[1], 0x80) * 64 + Bits(b[2], 0x80)
      else if |b| == 4 && 0xF0 <= b[0] < 0xF8 && Continues(b[1]) && Continues(b[2]) && Continues(b[3]) then
        Bits(b[0], 0xF0) * 262144 + Bits(b[1], 0x80) * 4096 + Bits(b[2], 0x80) * 64 + Bits(b[3], 0x80)
      else 0;
    if Scalar(cp) && cp >= Least(|b|) then Some(cp) else None
  }

  /** The least code point a sequence of a length may encode. */
  function Least(n: nat): nat { if n == 2 then 0x80 else if n == 3 then 0x800 else 0x1_0000 }

  /** Above 0xFF a scalar value is written as the one UTF-8 sequence that encodes it. */
  lemma EncodesUtf8(cp: nat, b: Bytes)
    requires cp > 0xFF
    ensures Scalar(cp) ==> (Utf8(b) == Some(cp) <==> b == EncodeCp(cp))
    ensures !Scalar(cp) ==> Utf8(b) != Some(cp)
  {
    if Scalar(cp) {
      Utf8OfEncoded(cp);
      if Utf8(b) == Some(cp) { EncodedOfUtf8(b); }
    }
  }

  lemma Utf8OfEncoded(cp: nat)
    requires cp > 0xFF && Scalar(cp)
    ensures Utf8(EncodeCp(cp)) == Some(cp)
  {
    Sixes(cp);
  }

  lemma Sixes(cp: nat)
    ensures cp == cp / 64 * 64 + cp % 64
    ensures cp / 64 == cp / 4096 * 64 + cp / 64 % 64
    ensures cp / 4096 == cp / 262144 * 64 + cp / 4096 % 64
  {
    assert cp / 4096 == cp / 64 / 64 && cp / 262144 == cp / 4096 / 64;
  }

  lemma EncodedOfUtf8(b: Bytes)
    requires Utf8(b).Some? && Utf8(b).value > 0xFF
    ensures b == EncodeCp(Utf8(b).value)
  {
    hide EncodeCp, Bits;
    if |b| == 2 {
      Encoded2(b);
    } else if |b| == 3 {
      Encoded3(b);
    } else {
      Encoded4(b);
    }
  }

  lemma Encoded2(b: Bytes)
    requires |b| == 2 && Utf8(b).Some? && Utf8(b).value > 0xFF
    ensures b == EncodeCp(Utf8(b).value)
  {
    SixOf(Bits(b[0], 0xC0), Bits(b[1], 0x80));
  }

  lemma Encoded3(b: Bytes)
    requires |b| == 3 && Utf8(b).Some? && Utf8(b).value > 0xFF
    ensures b == EncodeCp(Utf8(b).value)
  {
    SixOf(Bits(b[0], 0xE0) * 64 + Bits(b[1], 0x80), Bits(b[2], 0x80));
    SixOf(Bits(b[0], 0xE0), Bits(b[1], 0x80));
    Sixes(Utf8(b).value);
  }

  lemma Encoded4(b: Bytes)
    requires |b| == 4 && Utf8(b).Some? && Utf8(b).value > 0xFF
    ensures b == EncodeCp(Utf8(b).value)
  {
    SixOf((Bits(b[0], 0xF0) * 64 + Bits(b[1], 0x80)) * 64 + Bits(b[2], 0x80), Bits(b[3], 0x80));
    SixOf(Bits(b[0], 0xF0) * 64 + Bits(b[1], 0x80), Bits(b[2], 0x80));
    SixOf(Bits(b[0], 0xF0), Bits(b[1], 0x80));
    Sixes(Utf8(b).value);
  }

  lemma SixOf(hi: nat, lo: nat)
    requires lo < 64
    ensures (hi * 64 + lo) / 64 == hi && (hi * 64 + lo) % 64 == lo
  {}

  // ---------------------------------------------------------------- digits read

  lemma FoldOne(v: nat, d: nat, radix: nat, tail: Bytes)
    requires 2 <= radix <= 16 && d < radix
    ensures FoldDigits([HexDigit(d)] + tail, radix, v) == if v * radix + d < U32 then FoldDigits(tail, radix, v * radix + d) else None
  {
    hide HexDigit;
    DigitOf(d, radix);
    assert ([HexDigit(d)] + tail)[1..] == tail;
  }

  lemma DigitOf(d: nat, radix: nat)
    requires d < radix && 2 <= radix <= 16
    ensures DigitVal(HexDigit(d), radix) == Some(d)
  {}

  lemma NotLess(v: nat, d: nat, radix: nat)
    requires radix >= 2
    ensures v <= v * radix + d
  {
    MulMono(v, 1, radix);
  }

  lemma FoldMore(v: nat, q: nat, d: nat, radix: nat, p: Bytes, tail: Bytes)
    requires 2 <= radix <= 16 && d < radix && Splits(v, q, d, radix)
    requires FoldDigits(p + ([HexDigit(d)] + tail), radix, 0) == if q < U32 then FoldDigits([HexDigit(d)] + tail, radix, q) else None
    ensures FoldDigits(p + [HexDigit(d)] + tail, radix, 0) == if v < U32 then FoldDigits(tail, radix, v) else None
  {
    hide FoldDigits, HexDigit;
    Assoc(p, [HexDigit(d)], tail);
    FoldOne(q, d, radix, tail);
    NotLess(q, d, radix);
  }

  /** Reading digits gives their number, and nothing if it is past 32 bits. */
  lemma {:induction false} FoldPadded(v: nat, n: nat, radix: nat, tail: Bytes)
    requires 2 <= radix <= 16 && v < Pow(radix, n)
    ensures FoldDigits(Padded(v, n, radix) + tail, radix, 0) == if v < U32 then FoldDigits(tail, radix, v) else None
    decreases n
  {
    hide FoldDigits, HexDigit, Padded, Splits;
    if n == 0 {
      assert Padded(v, n, radix) + tail == tail;
    } else {
      hide Pow;
      var q, d := Shorter(v, n, radix);
      FoldPadded(q, n - 1, radix, [HexDigit(d)] + tail);
      FoldMore(v, q, d, radix, Padded(q, n - 1, radix), tail);
    }
  }

  lemma FoldWhole(v: nat, n: nat, radix: nat)
    requires 2 <= radix <= 16 && v < Pow(radix, n)
    ensures FoldDigits(Padded(v, n, radix), radix, 0) == if v < U32 then Some(v) else None
  {
    FoldPadded(v, n, radix, []);
    assert Padded(v, n, radix) + [] == Padded(v, n, radix);
  }

  // ---------------------------------------------------------------- integer literals

  /** What stands before the digits of a radix. */
  predicate Prefixes(prefix: Bytes, radix: nat) {
    || (prefix == [] && radix == 10)
    || (|prefix| == 2 && prefix[0] == ZERO
        && ((radix == 16 && Lower(prefix[1]) == LETTER_X) || (radix == 8 && Lower(prefix[1]) == LETTER_O)
            || (radix == 2 && Lower(prefix[1]) == LETTER_B)))
  }

  /** An integer in any radix, with as many zeros in front as one likes, is its value, and none past 32 bits. */
  lemma LiteralValue(prefix: Bytes, v: nat, n: nat, radix: nat)
    requires Prefixes(prefix, radix) && n > 0 && v < Pow(radix, n)
    ensures ParseInt(prefix + Padded(v, n, radix)) == if v < U32 then Some(v) else None
  {
    hide FoldDigits, Padded, Pow;
    var p := Padded(v, n, radix);
    var s := prefix + p;
    PaddedDigits(v, n, radix);
    NoUnderscores(s);
    FoldWhole(v, n, radix);
    if prefix == [] {
      assert s == p;
    } else {
      assert s[2..] == p;
    }
  }

  lemma {:induction false} NoUnderscores(s: Bytes)
    requires forall i :: 0 <= i < |s| ==> s[i] != UNDERSCORE
    ensures DropUnderscores(s) == s
  {
    if s != [] { NoUnderscores(s[1..]); }
  }

  /** An underscore anywhere in a literal changes nothing. */
  lemma SeparatorInvisible(a: Bytes, b: Bytes)
    ensures ParseInt(a + [UNDERSCORE] + b) == ParseInt(a + b)
  {
    DropsOne(a, b);
  }

  lemma {:induction false} DropsOne(a: Bytes, b: Bytes)
    ensures DropUnderscores(a + [UNDERSCORE] + b) == DropUnderscores(a + b)
    decreases |a|
  {
    if a == [] {
      assert (a + [UNDERSCORE] + b)[1..] == b && a + b == b;
    } else {
      DropsOne(a[1..], b);
      assert (a + [UNDERSCORE] + b)[1..] == a[1..] + [UNDERSCORE] + b && (a + b)[1..] == a[1..] + b;
    }
  }

  // ---------------------------------------------------------------- percent escapes

  /** A way to write bytes under percent decoding. */
  datatype Escaped = Kept(b: byte) | Percent(b: byte) | PercentWide(cp: nat, upper: bool)

  predicate Proper(e: Escaped) {
    match e
    case Kept(b) => b != PERCENT
    case Percent(_) => true
    case PercentWide(cp, _) => cp < 0x1_0000
  }

  function Spelt(e: Escaped): Bytes {
    match e
    case Kept(b) => [b]
    case Percent(b) => [PERCENT] + Padded(b, 2, 16)
    case PercentWide(cp, upper) => [PERCENT, if upper then LETTER_U - 32 else LETTER_U] + Padded(cp, 4, 16)
  }

  function Sense(e: Escaped): Bytes {
    match e
    case Kept(b) => [b]
    case Percent(b) => [b]
    case PercentWide(cp, _) => EncodeCp(cp)
  }

  lemma Hex2Of(b: byte)
    ensures Padded(b, 2, 16) == [HexDigit(b / 16), HexDigit(b % 16)]
  {
    hide HexDigit, Padded;
    PaddedStep(b, 2, 16);
    PaddedStep(b / 16, 1, 16);
    assert b / 16 % 16 == b / 16;
  }

  lemma Powers()
    ensures Pow(16, 4) == 0x1_0000 && Pow(8, 3) == 512
  {
    assert Pow(16, 1) == 16 && Pow(16, 2) == 256;
    assert Pow(8, 1) == 8 && Pow(8, 2) == 64;
  }

  lemma UnitSpelt(e: Escaped, rest: Bytes)
    requires Proper(e)
    ensures PercentUnit(Spelt(e) + rest) == (Sense(e), |Spelt(e)|)
  {
    hide FoldDigits, Padded, EncodeCp;
    var s := Spelt(e) + rest;
    match e {
      case Kept(b) =>
      case Percent(b) =>
        Hex2Of(b);
        assert s[1] == HexDigit(b / 16) && s[2] == HexDigit(b % 16);
      case PercentWide(cp, upper) =>
        Powers();
        FoldWhole(cp, 4, 16);
        assert s[2..6] == Padded(cp, 4, 16);
    }
  }

  function Spelling(es: seq<Escaped>): Bytes { if es == [] then [] else Spelt(es[0]) + Spelling(es[1..]) }

  function Senses(es: seq<Escaped>): Bytes { if es == [] then [] else Sense(es[0]) + Senses(es[1..]) }

  /** However each byte is written, as itself, as `%XX` or as part of `%uXXXX`, decoding gives the bytes. */
  lemma {:induction false} PercentSpelled(es: seq<Escaped>)
    requires forall i :: 0 <= i < |es| ==> Proper(es[i])
    ensures PercentDecode(Spelling(es)) == Senses(es)
  {
    hide PercentUnit, Spelt, Sense;
    if es != [] {
      PercentSpelled(es[1..]);
      UnitSpelt(es[0], Spelling(es[1..]));
      assert Spelling(es)[|Spelt(es[0])|..] == Spelling(es[1..]);
    }
  }

  // ---------------------------------------------------------------- string literals

  /** A way to write characters in a string literal. */
  datatype Written =
    | Itself(b: byte)
    | HexByte(b: byte)
    | Wide(cp: nat)
    | Braced(cp: nat, n: nat)
    | Octal(b: byte)
    | Letter(k: nat)
    | Other(b: byte)
    | Continued(crlf: bool)

  /** The single letters of section 12.9.4 of ECMA-262, and the byte each stands for: backspace, tab, line
      feed, vertical tab, form feed and carriage return. */
  const LETTERS: seq<(byte, byte)> := [(98, 8), (116, 9), (110, 10), (118, 11), (102, 12), (114, 13)]

  predicate Special(b: byte) {
    b == LETTER_X || b == LETTER_U || 48 <= b <= 55 || b == NEWLINE || b == RETURN || exists k :: 0 <= k < |LETTERS| && LETTERS[k].0 == b
  }

  predicate Fits(w: Written, quote: byte) {
    match w
    case Itself(b) => b != quote && b != BACKSLASH && (quote == BACKTICK || (b != NEWLINE && b != RETURN))
    case HexByte(_) => true
    case Wide(cp) => cp < 0x1_0000
    case Braced(cp, n) => n > 0 && cp < Pow(16, n)
    case Octal(_) => true
    case Letter(k) => k < |LETTERS|
    case Other(b) => !Special(b)
    case Continued(_) => true
  }

  function Text(w: Written): (r: Bytes)
    requires w.Letter? ==> w.k < |LETTERS|
    ensures r != []
  {
    match w
    case Itself(b) => [b]
    case HexByte(b) => [BACKSLASH, LETTER_X] + Padded(b, 2, 16)
    case Wide(cp) => [BACKSLASH, LETTER_U] + Padded(cp, 4, 16)
    case Braced(cp, n) => [BACKSLASH, LETTER_U, 123] + Padded(cp, n, 16) + [125]
    case Octal(b) => [BACKSLASH] + Padded(b, 3, 8)
    case Letter(k) => [BACKSLASH, LETTERS[k].0]
    case Other(b) => [BACKSLASH, b]
    case Continued(crlf) => if crlf then [BACKSLASH, RETURN, NEWLINE] else [BACKSLASH, NEWLINE]
  }

  /** A code point above 32 bits counts as the largest. */
  function Meaning(w: Written): Bytes
    requires w.Letter? ==> w.k < |LETTERS|
  {
    match w
    case Itself(b) => [b]
    case HexByte(b) => [b]
    case Wide(cp) => EncodeCp(cp)
    case Braced(cp, n) => EncodeCp(Min(cp, U32 - 1))
    case Octal(b) => [b]
    case Letter(k) => [LETTERS[k].1]
    case Other(b) => [b]
    case Continued(_) => []
  }

  /** What follows a spelling: something, so the literal does not break off in it. */
  predicate Spelled(text: Bytes, i: nat, w: Written)
    requires w.Letter? ==> w.k < |LETTERS|
  {
    At(text, i, Text(w)) && i + |Text(w)| < |text|
  }

  lemma EscapeStep(text: Bytes, i: nat, quote: byte, e: Bytes, k: nat)
    requires IsQuote(quote) && i + 1 < |text| && text[i] == BACKSLASH && Escape(text, i + 1) == (e, k)
    ensures StringBody(text, i, quote) == (e + StringBody(text, k, quote).0, StringBody(text, k, quote).1)
  {
    hide Escape;
  }

  lemma OpensEscape(text: Bytes, i: nat, w: Written)
    requires (w.Letter? ==> w.k < |LETTERS|) && Spelled(text, i, w) && !w.Itself?
    ensures i + 1 < |text| && text[i] == BACKSLASH
  {
    hide Padded;
    AtBytes(text, i, Text(w));
    assert text[i + 0] == Text(w)[0];
  }

  lemma EscapeIs(text: Bytes, i: nat, w: Written, quote: byte)
    requires Fits(w, quote) && Spelled(text, i, w) && !w.Itself?
    ensures text[i] == BACKSLASH && Escape(text, i + 1) == (Meaning(w), i + |Text(w)|)
  {
    hide EncodeCp, Padded, Escape, Special, Spelled, Pow;
    OpensEscape(text, i, w);
    match w {
      case HexByte(b) => HexByteIs(text, i, b);
      case Wide(cp) => WideIs(text, i, cp);
      case Braced(cp, n) => BracedIs(text, i, cp, n);
      case Octal(b) => OctalIs(text, i, b);
      case Letter(k) => LetterIs(text, i, k);
      case Other(b) => OtherIs(text, i, b);
      case Continued(crlf) => ContinuedIs(text, i, crlf);
    }
  }

  lemma HexByteIs(text: Bytes, i: nat, b: byte)
    requires Spelled(text, i, HexByte(b))
    ensures Escape(text, i + 1) == ([b], i + 4)
  {
    hide EncodeCp, FoldDigits, Padded, BraceDigits, OctalDigits;
    var t := Text(HexByte(b));
    Hex2Of(b);
    AtBytes(text, i, t);
    assert text[i + 1] == t[1] && text[i + 2] == t[2] && text[i + 3] == t[3];
  }

  lemma LetterIs(text: Bytes, i: nat, k: nat)
    requires k < |LETTERS| && Spelled(text, i, Letter(k))
    ensures Escape(text, i + 1) == ([LETTERS[k].1], i + 2)
  {
    hide EncodeCp, FoldDigits, BraceDigits, OctalDigits;
    var t := Text(Letter(k));
    AtBytes(text, i, t);
    assert text[i + 1] == t[1];
    assert k == 0 || k == 1 || k == 2 || k == 3 || k == 4 || k == 5;
  }

  lemma OtherIs(text: Bytes, i: nat, b: byte)
    requires !Special(b) && Spelled(text, i, Other(b))
    ensures Escape(text, i + 1) == ([b], i + 2)
  {
    hide EncodeCp, FoldDigits, BraceDigits, OctalDigits;
    var t := Text(Other(b));
    AtBytes(text, i, t);
    assert text[i + 1] == t[1];
    NoLetter(b);
  }

  lemma NoLetter(b: byte)
    requires !Special(b)
    ensures b != 110 && b != 116 && b != 114 && b != 98 && b != 102 && b != 118
  {
    assert forall k :: 0 <= k < |LETTERS| ==> LETTERS[k].0 != b;
    assert LETTERS[0].0 == 98 && LETTERS[1].0 == 116 && LETTERS[2].0 == 110 && LETTERS[3].0 == 118;
    assert LETTERS[4].0 == 102 && LETTERS[5].0 == 114;
  }

  lemma ContinuedIs(text: Bytes, i: nat, crlf: bool)
    requires Spelled(text, i, Continued(crlf))
    ensures Escape(text, i + 1) == ([], i + if crlf then 3 else 2)
  {
    hide EncodeCp, FoldDigits, BraceDigits, OctalDigits;
    var t := Text(Continued(crlf));
    AtBytes(text, i, t);
    assert text[i + 1] == t[1] && (crlf ==> text[i + 2] == t[2]);
  }

  lemma WideIs(text: Bytes, i: nat, cp: nat)
    requires cp < 0x1_0000 && Spelled(text, i, Wide(cp))
    ensures Escape(text, i + 1) == (EncodeCp(cp), i + 6)
  {
    hide EncodeCp, FoldDigits, Padded;
    Powers();
    FoldWhole(cp, 4, 16);
    PaddedDigits(cp, 4, 16);
    AtParts(text, i, [BACKSLASH, LETTER_U], Padded(cp, 4, 16));
    AtBytes(text, i, Text(Wide(cp)));
    assert text[i + 1] == Text(Wide(cp))[1] && text[i + 2] == Text(Wide(cp))[2] == Padded(cp, 4, 16)[0];
    assert text[i + 2..i + 6] == Padded(cp, 4, 16);
  }

  /** Digits in braces add up, as far as 32 bits go. */
  lemma {:induction false} BraceReads(text: Bytes, j: nat, cp: nat, n: nat)
    requires cp < Pow(16, n) && At(text, j, Padded(cp, n, 16))
    ensures BraceDigits(text, j, 0) == BraceDigits(text, j + n, Min(cp, U32 - 1))
    decreases n
  {
    hide Padded, At, BraceDigits, HexDigit;
    if n > 0 {
      hide Pow;
      var q, d := Shorter(cp, n, 16);
      AtParts(text, j, Padded(q, n - 1, 16), [HexDigit(d)]);
      ByteAt(text, j + n - 1, [HexDigit(d)], 0);
      BraceReads(text, j, q, n - 1);
      BraceStep(text, j + n - 1, q, d);
    }
  }

  lemma BraceStep(text: Bytes, j: nat, q: nat, d: nat)
    requires d < 16 && j < |text| && text[j] == HexDigit(d)
    ensures BraceDigits(text, j, Min(q, U32 - 1)) == BraceDigits(text, j + 1, Min(q * 16 + d, U32 - 1))
  {}

  lemma BracesAt(text: Bytes, i: nat, cp: nat, n: nat)
    requires Spelled(text, i, Braced(cp, n))
    ensures i + n + 4 < |text| && text[i + 1] == LETTER_U && text[i + 2] == 123 && text[i + 3 + n] == 125
    ensures At(text, i + 3, Padded(cp, n, 16))
  {
    hide Padded, At, Text;
    var open, p := [BACKSLASH, LETTER_U, 123], Padded(cp, n, 16);
    BracedText(cp, n);
    AtParts(text, i, open, p + [125]);
    AtParts(text, i + 3, p, [125]);
    ByteAt(text, i, open, 1);
    ByteAt(text, i, open, 2);
    ByteAt(text, i + 3 + n, [125], 0);
  }

  lemma BracedText(cp: nat, n: nat)
    ensures Text(Braced(cp, n)) == [BACKSLASH, LETTER_U, 123] + (Padded(cp, n, 16) + [125])
  {
    hide Padded;
    Assoc([BACKSLASH, LETTER_U, 123], Padded(cp, n, 16), [125]);
  }

  lemma BracedIs(text: Bytes, i: nat, cp: nat, n: nat)
    requires n > 0 && cp < Pow(16, n) && Spelled(text, i, Braced(cp, n))
    ensures Escape(text, i + 1) == (EncodeCp(Min(cp, U32 - 1)), i + n + 4)
  {
    hide EncodeCp, Padded, FoldDigits, Pow, At, Text, OctalDigits;
    BracesAt(text, i, cp, n);
    BraceReads(text, i + 3, cp, n);
  }

  lemma Octal3Of(b: byte)
    ensures Padded(b, 3, 8) == [HexDigit(b / 64), HexDigit(b / 8 % 8), HexDigit(b % 8)]
  {
    hide HexDigit, Padded;
    PaddedStep(b, 3, 8);
    PaddedStep(b / 8, 2, 8);
    PaddedStep(b / 8 / 8, 1, 8);
    Eights(b);
  }

  lemma Eights(b: byte)
    ensures b == b / 64 * 64 + b / 8 % 8 * 8 + b % 8 && b / 8 == b / 64 * 8 + b / 8 % 8 && b / 64 < 4 && b / 8 / 8 == b / 64
  {}

  lemma OctalIs(text: Bytes, i: nat, b: byte)
    requires Spelled(text, i, Octal(b))
    ensures Escape(text, i + 1) == ([b], i + 4)
  {
    hide Padded, EncodeCp, FoldDigits, BraceDigits;
    var t := Text(Octal(b));
    Octal3Of(b);
    Eights(b);
    AtBytes(text, i, t);
    assert text[i + 1] == t[1] == 48 + b / 64 && text[i + 2] == t[2] == 48 + b / 8 % 8 && text[i + 3] == t[3] == 48 + b % 8;
    assert OctalDigits(text, i + 4, i + 4, b) == (b as nat, i + 4);
    assert OctalDigits(text, i + 3, i + 4, b / 8) == (b as nat, i + 4);
    assert OctalDigits(text, i + 2, i + 4, b / 64) == (b as nat, i + 4);
  }

  lemma ItselfRead(text: Bytes, i: nat, b: byte, quote: byte)
    requires IsQuote(quote) && Fits(Itself(b), quote) && Spelled(text, i, Itself(b))
    ensures StringBody(text, i, quote) == ([b] + StringBody(text, i + 1, quote).0, StringBody(text, i + 1, quote).1)
  {
    hide Escape;
    ByteAt(text, i, [b], 0);
  }

  lemma SpellingRead(text: Bytes, i: nat, w: Written, quote: byte)
    requires IsQuote(quote) && Fits(w, quote) && Spelled(text, i, w)
    ensures var k := i + |Text(w)|;
            StringBody(text, i, quote) == (Meaning(w) + StringBody(text, k, quote).0, StringBody(text, k, quote).1)
  {
    hide Escape, Padded, EncodeCp, StringBody, Spelled, Pow, Special;
    if w.Itself? {
      ItselfRead(text, i, w.b, quote);
    } else {
      hide Text, Meaning;
      OpensEscape(text, i, w);
      EscapeIs(text, i, w, quote);
      EscapeStep(text, i, quote, Meaning(w), i + |Text(w)|);
    }
  }

  lemma EndsWith(text: Bytes, i: nat, quote: byte)
    requires At(text, i, [] + [quote])
    ensures i < |text| && text[i] == quote
  {
    AtBytes(text, i, [] + [quote]);
    assert text[i + 0] == quote;
  }

  predicate AllFit(ws: seq<Written>, quote: byte) { forall k :: 0 <= k < |ws| ==> Fits(ws[k], quote) }

  function Texts(ws: seq<Written>, quote: byte): Bytes
    requires AllFit(ws, quote)
  {
    if ws == [] then [] else Text(ws[0]) + Texts(ws[1..], quote)
  }

  function Meanings(ws: seq<Written>, quote: byte): Bytes
    requires AllFit(ws, quote)
  {
    if ws == [] then [] else Meaning(ws[0]) + Meanings(ws[1..], quote)
  }

  /** However the characters of a literal are written, it reads as what they mean. */
  lemma {:induction false} LiteralReads(text: Bytes, i: nat, ws: seq<Written>, quote: byte)
    requires IsQuote(quote) && AllFit(ws, quote) && At(text, i, Texts(ws, quote) + [quote])
    ensures StringBody(text, i, quote) == (Meanings(ws, quote), i + |Texts(ws, quote)| + 1)
    decreases |ws|
  {
    hide Text, Meaning, At;
    if ws == [] {
      EndsWith(text, i, quote);
    } else {
      var t, rest := Text(ws[0]), Texts(ws[1..], quote) + [quote];
      assert Texts(ws, quote) + [quote] == t + rest;
      AtParts(text, i, t, rest);
      LiteralReads(text, i + |t|, ws[1..], quote);
      SpellingRead(text, i, ws[0], quote);
    }
  }

  // ---------------------------------------------------------------- character codes

  lemma {:induction false} CharsAppend(a: seq<nat>, b: seq<nat>)
    ensures Chars(a + b) == Chars(a) + Chars(b)
  {
    hide EncodeCp;
    if a == [] {
      assert a + b == b;
    } else {
      assert (a + b)[1..] == a[1..] + b;
      CharsAppend(a[1..], b);
    }
  }

  /** Codes up to 255 are those bytes, in order. */
  lemma {:induction false} CharsOfBytes(s: Bytes)
    ensures Chars(seq(|s|, i requires 0 <= i < |s| => s[i] as nat)) == s
    decreases |s|
  {
    var codes := seq(|s|, i requires 0 <= i < |s| => s[i] as nat);
    if s != [] {
      var rest := s[1..];
      CharsOfBytes(rest);
      assert codes[1..] == seq(|rest|, i requires 0 <= i < |rest| => rest[i] as nat);
    }
  }

  // ---------------------------------------------------------------- slashes

  /** What a value can end with: a name that is no keyword, a literal, or a closing bracket other than a brace. */
  predicate EndsValue(t: Tok) {
    match t
    case Ident(name) => !IsKeyword(name)
    case Punct(p) => p == RPAREN || p == 93
    case _ => true
  }

  /** A slash after the end of a value divides; anywhere else it opens a regular expression, unless it opens a comment. */
  lemma SlashAfter(text: Bytes, i: nat, vp: bool)
    requires i <= |text| && NextToken(text, i, vp).Some?
    ensures var t := NextToken(text, i, vp).value;
            t.next < |text| && text[t.next] == SLASH && !(t.next + 1 < |text| && (text[t.next + 1] == SLASH || text[t.next + 1] == STAR)) ==>
              && NextToken(text, t.next, t.valuePos).Some?
              && (EndsValue(t.tok) ==> NextToken(text, t.next, t.valuePos).value.tok == Punct(SLASH))
              && (!EndsValue(t.tok) ==> NextToken(text, t.next, t.valuePos).value.tok.Regex?)
  {
    hide StringBody, RegexBodyEnd, FlagsEnd, NumEnd, FracEnd, IdentEnd, IsKeyword, LineEnd, BlockEnd;
  }
}
