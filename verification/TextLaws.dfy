/** The views in terms of bytes: which byte a reference stands for, and what becomes of each byte. */
module TextLaws {
  import opened ByteSeq
  import opened Numerals
  import opened TextViews

  // ---------------------------------------------------------------- references

  /** A numeric reference, decimal or hexadecimal, stands for its code point's low byte, zeros in front or
      not, and past the last code point for nothing. */
  lemma NumericReference(v: nat, n: nat, radix: nat, upper: bool)
    requires n > 0 && (radix == 10 || radix == 16) && v < Pow(radix, n)
    ensures var mark := if radix == 10 then [35] else [35, if upper then 88 else 120];
            Reference(mark + Padded(v, n, radix)) == if v <= 0x10_FFFF then Some(v % 256) else None
  {
    hide Padded, Number, Pow;
    var mark: Bytes := if radix == 10 then [35] else [35, if upper then 88 else 120];
    var p := Padded(v, n, radix);
    var body := mark + p;
    NumberPadded(v, n, radix);
    PaddedDigits(v, n, radix);
    if radix == 10 {
      assert body[1] == p[0] && DigitVal(p[0], 10).Some?;
      assert body[1..] == p;
    } else {
      assert body[2..] == p;
    }
  }

  /** The named references, in any letter case: `<`, `>`, `&`, the two quotes, and a space that does not break
      lines counted as a space. */
  function StandsFor(name: Bytes): Option<byte> {
    if name == Ascii("lt") then Some(Ascii("<")[0])
    else if name == Ascii("gt") then Some(Ascii(">")[0])
    else if name == Ascii("amp") then Some(Ascii("&")[0])
    else if name == Ascii("quot") then Some(Ascii("\"")[0])
    else if name == Ascii("apos") then Some(Ascii("'")[0])
    else if name == Ascii("nbsp") then Some(Ascii(" ")[0])
    else None
  }

  lemma {:induction false} NamedUnknown(body: Bytes, names: seq<(Bytes, byte)>)
    requires forall k :: 0 <= k < |names| ==> LowerAll(body) != names[k].0
    ensures Named(body, names) == None
  {
    if names != [] { NamedUnknown(body, names[1..]); }
  }

  lemma NamedIs(body: Bytes)
    requires body != [] && body[0] != 35
    ensures Reference(body) == StandsFor(LowerAll(body))
  {
    hide Named, Ascii;
    if k: nat :| k < |NAMES| && LowerAll(body) == NAMES[k].0 {
      NamedReference(body, k);
      TableIs(k);
    } else {
      NamedUnknown(body, NAMES);
      NotListed(LowerAll(body));
    }
  }

  lemma TableIs(k: nat)
    requires k < |NAMES|
    ensures StandsFor(NAMES[k].0) == Some(NAMES[k].1)
  {
    assert k == 0 || k == 1 || k == 2 || k == 3 || k == 4 || k == 5;
    forall i, j | 0 <= i < j < |NAMES| ensures NAMES[i].0 != NAMES[j].0 { NamesDiffer(i, j); }
    assert NAMES[0].0 == Ascii("lt") && NAMES[1].0 == Ascii("gt") && NAMES[2].0 == Ascii("amp");
    assert NAMES[3].0 == Ascii("quot") && NAMES[4].0 == Ascii("apos") && NAMES[5].0 == Ascii("nbsp");
  }

  lemma NotListed(name: Bytes)
    requires forall k: nat :: k < |NAMES| ==> name != NAMES[k].0
    ensures StandsFor(name) == None
  {
    assert NAMES[0].0 == Ascii("lt") && NAMES[1].0 == Ascii("gt") && NAMES[2].0 == Ascii("amp");
    assert NAMES[3].0 == Ascii("quot") && NAMES[4].0 == Ascii("apos") && NAMES[5].0 == Ascii("nbsp");
  }

  // ---------------------------------------------------------------- what becomes of a byte

  predicate Blanks(b: byte) { b == 9 || b == 10 || b == 12 || b == 13 || b == 32 }

  function Small(b: byte): byte { if 65 <= b <= 90 then b + 32 else b }

  /** A text view grows by each byte on its own: a capital is made small, any whitespace is one space unless one
      came last, any other byte below 32 is dropped, and every other byte is kept. */
  lemma TextGrows(s: Bytes, b: byte)
    ensures TextView([]) == []
    ensures TextView(s + [b]) == TextView(s)
                                 + if Blanks(b) then (if TextView(s) != [] && Last(TextView(s)) == 32 then [] else [32])
                                   else if b < 32 then [] else [Small(b)]
  {
    Nothing();
    hide Printable, Collapse;
    var p := Printable(s);
    PrintablePush(s, b);
    if b < 32 && !Blanks(b) {
      assert p + [] == p;
    } else {
      LowerPush(p, b);
      CollapsePush(LowerAll(p), Lower(b));
      CollapseShape(LowerAll(p));
    }
    if TextView(s) != [] { TextShape(s); }
  }

  lemma Nothing()
    ensures TextView([]) == []
  {}

  /** A script view grows by each byte outside comments and literals: a capital is made small, whitespace is
      dropped, and one space is put back only where it kept two letters, digits, `_` or `$` apart. */
  lemma SqueezeGrows(s: Bytes, w: Bytes, b: byte)
    requires (forall i :: 0 <= i < |w| ==> Blanks(w[i])) && !Blanks(b) && (s != [] ==> !Blanks(Last(s)))
    ensures Squeeze(s + w + [b]) == Squeeze(s) + (if w != [] && s != [] && Joins(Last(s)) && Joins(b) then [32] else []) + [Small(b)]
  {
    hide Squeeze, LastSolid;
    if w == [] {
      assert s + w == s;
    } else {
      BlankRun(s, w);
    }
    SqueezePush(s + w, b);
    SolidLast(s);
  }

  lemma SolidLast(s: Bytes)
    requires s != [] ==> !IsSpace(Last(s))
    ensures LastSolid(s) == if s == [] then None else Some(Last(s))
  {}

  predicate Joins(b: byte) { 48 <= b <= 57 || 65 <= b <= 90 || 97 <= b <= 122 || b == 95 || b == 36 }
}
