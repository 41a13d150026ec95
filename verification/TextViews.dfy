/** The canonical views text signatures are matched against, each as separate passes over whole
    byte sequences: decode, then lower the case, then collapse. */
module TextViews {
  import opened ByteSeq

  const SP: byte := 32
  const SLASH: byte := 47
  const STAR: byte := 42
  const AMP: byte := 38
  const SEMI: byte := 59
  const BACKSLASH: byte := 92
  const NEWLINE: byte := 10

  predicate IsSpace(b: byte) { b == 32 || b == 9 || b == 10 || b == 12 || b == 13 }
  predicate IsWord(b: byte) { IsAlnum(b) || b == 95 || b == 36 }
  predicate IsQuote(b: byte) { b == 39 || b == 34 || b == 96 }

  predicate EndsInSpace(s: Bytes) { s != [] && IsSpace(s[|s| - 1]) }

  lemma LowerPush(s: Bytes, b: byte)
    ensures LowerAll(s + [b]) == LowerAll(s) + [Lower(b)]
  {}

  // ---------------------------------------------------------------- runs of whitespace

  /** Each run of whitespace as one space: a byte's share depends only on the byte before it. */
  function Collapse(s: Bytes): Bytes {
    if s == [] then [] else Collapse(Init(s)) + Share(EndsInSpace(Init(s)), Last(s))
  }

  function Share(afterSpace: bool, b: byte): Bytes {
    if !IsSpace(b) then [b] else if afterSpace then [] else [SP]
  }

  lemma CollapsePush(s: Bytes, b: byte)
    ensures Collapse(s + [b]) == Collapse(s) + Share(EndsInSpace(s), b)
  {
    assert Init(s + [b]) == s;
  }

  /** Whitespace is single spaces, never two together. */
  predicate SingleSpaced(s: Bytes) {
    && (forall i :: 0 <= i < |s| && IsSpace(s[i]) ==> s[i] == SP)
    && (forall i :: 0 < i < |s| && s[i] == SP ==> s[i - 1] != SP)
  }

  lemma {:induction false} CollapseShape(s: Bytes)
    ensures SingleSpaced(Collapse(s)) && EndsInSpace(Collapse(s)) == EndsInSpace(s)
  {
    if s != [] { CollapseShape(Init(s)); }
  }

  lemma {:induction false} CollapseKeeps(s: Bytes)
    requires SingleSpaced(s)
    ensures Collapse(s) == s
  {
    if s != [] {
      CollapseKeeps(Init(s));
      assert s == Init(s) + [Last(s)];
    }
  }

  // ---------------------------------------------------------------- text

  predicate IsControl(b: byte) { b < 32 && !IsSpace(b) }

  function Printable(s: Bytes): Bytes {
    if s == [] then [] else Printable(Init(s)) + (if IsControl(Last(s)) then [] else [Last(s)])
  }

  lemma PrintablePush(s: Bytes, b: byte)
    ensures Printable(s + [b]) == Printable(s) + if IsControl(b) then [] else [b]
  {
    assert Init(s + [b]) == s;
  }

  /** The text view: control bytes dropped, letters lowered, whitespace collapsed. */
  function TextView(data: Bytes): Bytes { Collapse(LowerAll(Printable(data))) }

  predicate Plain(s: Bytes) { forall i :: 0 <= i < |s| ==> !IsControl(s[i]) && !IsUpper(s[i]) }

  lemma {:induction false} PrintableShape(s: Bytes)
    ensures forall i :: 0 <= i < |Printable(s)| ==> !IsControl(Printable(s)[i])
  {
    if s != [] { PrintableShape(Init(s)); }
  }

  lemma {:induction false} PrintableKeeps(s: Bytes)
    requires Plain(s)
    ensures Printable(s) == s
  {
    if s != [] {
      PrintableKeeps(Init(s));
      assert s == Init(s) + [Last(s)];
    }
  }

  lemma {:induction false} CollapsePlain(s: Bytes)
    requires Plain(s)
    ensures Plain(Collapse(s))
  {
    if s != [] { CollapsePlain(Init(s)); }
  }

  /** A byte sequence is its own text view exactly when it is plain and single spaced. */
  lemma TextFixed(s: Bytes)
    ensures TextView(s) == s <==> Plain(s) && SingleSpaced(s)
  {
    TextShape(s);
    if Plain(s) && SingleSpaced(s) {
      PrintableKeeps(s);
      assert LowerAll(s) == s;
      CollapseKeeps(s);
    }
  }

  lemma TextShape(s: Bytes)
    ensures Plain(TextView(s)) && SingleSpaced(TextView(s))
  {
    hide Printable, Collapse;
    PrintableShape(s);
    var low := LowerAll(Printable(s));
    forall i | 0 <= i < |low| ensures !IsControl(low[i]) && !IsUpper(low[i]) {}
    CollapsePlain(low);
    CollapseShape(low);
  }

  lemma TextIdempotent(s: Bytes)
    ensures TextView(TextView(s)) == TextView(s)
  {
    TextShape(s);
    TextFixed(TextView(s));
  }

  // ---------------------------------------------------------------- HTML

  const LAST_CODE_POINT: nat := 0x10_FFFF

  const NAMES: seq<(Bytes, byte)> :=
    [(Ascii("lt"), 60), (Ascii("gt"), 62), (Ascii("amp"), 38), (Ascii("quot"), 34), (Ascii("apos"), 39), (Ascii("nbsp"), 32)]

  function Named(body: Bytes, names: seq<(Bytes, byte)>): Option<byte> {
    if names == [] then None
    else if SameName(body, names[0].0) then Some(names[0].1)
    else Named(body, names[1..])
  }

  /** What a reference written with `body` between `&` and `;` stands for. */
  function Reference(body: Bytes): Option<byte> {
    if body == [] then None
    else if body[0] != 35 then Named(body, NAMES)
    else
      var hex := |body| > 1 && (body[1] == 120 || body[1] == 88);
      var digits := if hex then body[2..] else body[1..];
      var n := Number(digits, if hex then 16 else 10);
      if digits == [] || n.None? || n.value > LAST_CODE_POINT then None else Some(n.value % 256)
  }

  /** How many bytes come before the first `;`, if there is one. */
  function UpToSemi(s: Bytes): (r: Option<nat>)
    ensures r.Some? ==> r.value < |s| && s[r.value] == SEMI && SEMI !in s[..r.value]
    ensures r.None? ==> SEMI !in s
  {
    if s == [] then None
    else if s[0] == SEMI then Some(0)
    else
      var r := UpToSemi(s[1..]);
      if r.None? then None
      else
        assert s[..r.value + 1] == [s[0]] + s[1..][..r.value];
        Some(r.value + 1)
  }

  /** The byte the text at `i` stands for and where the text after it starts: a reference the next
      eleven bytes hold whole, or the byte itself. */
  function EntityAt(data: Bytes, i: nat): (r: (byte, nat))
    requires i < |data|
    ensures i < r.1 <= |data|
  {
    var window := data[i + 1..Min(i + 12, |data|)];
    var p := UpToSemi(window);
    if data[i] != AMP then (data[i], i + 1)
    else if p.None? || Reference(window[..p.value]).None? then (AMP, i + 1)
    else (Reference(window[..p.value]).value, i + p.value + 2)
  }

  /** The text from `i` on with its references decoded. */
  function Decoded(data: Bytes, i: nat): Bytes
    requires i <= |data|
    decreases |data| - i
  {
    if i == |data| then [] else [EntityAt(data, i).0] + Decoded(data, EntityAt(data, i).1)
  }

  /** The HTML view: references decoded, letters lowered, whitespace collapsed. */
  function HtmlView(data: Bytes): Bytes { Collapse(LowerAll(Decoded(data, 0))) }

  lemma HtmlShape(data: Bytes)
    ensures SingleSpaced(HtmlView(data))
  {
    CollapseShape(LowerAll(Decoded(data, 0)));
  }

  /** A way to write one byte in HTML: itself, unless it is `&`, or a reference to it short enough. */
  predicate Spells(w: Bytes, b: byte) {
    || (w == [b] && b != AMP)
    || (3 <= |w| <= 12 && w[0] == AMP && Last(w) == SEMI && SEMI !in w[1..|w| - 1] && Reference(w[1..|w| - 1]) == Some(b))
  }

  /** Every byte has a reference: its two hexadecimal digits. */
  lemma HexReference(b: byte)
    ensures Spells([AMP, 35, 120, HexDigit(b / 16), HexDigit(b % 16), SEMI], b)
  {
    var hi, lo := HexDigit(b / 16), HexDigit(b % 16);
    var w := [AMP, 35, 120, hi, lo, SEMI];
    assert w[1..5] == [35, 120, hi, lo] && w[1..5][2..] == [hi, lo];
    assert [hi, lo][..1] == [hi] && [hi][..0] == [];
    assert Number([hi], 16) == Some(b / 16);
    assert Number([hi, lo], 16) == Some(b);
  }

  lemma {:induction false} NamedFrom(body: Bytes, i: nat, k: nat)
    requires i <= k < |NAMES| && SameName(body, NAMES[k].0) && forall j :: i <= j < k ==> NAMES[j].0 != NAMES[k].0
    ensures Named(body, NAMES[i..]) == Some(NAMES[k].1)
    decreases k - i
  {
    assert NAMES[i..][0] == NAMES[i] && NAMES[i..][1..] == NAMES[i + 1..];
    if i < k { NamedFrom(body, i + 1, k); }
  }

  /** Each name of the table, in any letter case, stands for its byte. */
  lemma NamedReference(body: Bytes, k: nat)
    requires k < |NAMES| && SameName(body, NAMES[k].0)
    ensures Reference(body) == Some(NAMES[k].1)
  {
    forall j | 0 <= j < k ensures NAMES[j].0 != NAMES[k].0 { NamesDiffer(j, k); }
    NamedFrom(body, 0, k);
    assert NAMES[0..] == NAMES;
    NameStarts(k);
    assert LowerAll(body)[0] == Lower(body[0]);
  }

  lemma NameStarts(k: nat)
    requires k < |NAMES|
    ensures NAMES[k].0 != [] && IsLower(NAMES[k].0[0])
  {
    assert Ascii("lt")[0] == 108 && Ascii("gt")[0] == 103 && Ascii("quot")[0] == 113 && Ascii("nbsp")[0] == 110;
    assert Ascii("amp")[0] == 97 && Ascii("apos")[0] == 97;
  }

  lemma NamesDiffer(j: nat, k: nat)
    requires j < k < |NAMES|
    ensures NAMES[j].0 != NAMES[k].0
  {
    assert Ascii("lt")[0] == 108 && Ascii("gt")[0] == 103 && Ascii("quot")[0] == 113 && Ascii("nbsp")[0] == 110;
    assert Ascii("amp")[1] == 109 && Ascii("apos")[1] == 112 && Ascii("amp")[0] == Ascii("apos")[0] == 97;
  }

  lemma EntitySpelled(pre: Bytes, w: Bytes, b: byte, rest: Bytes)
    requires Spells(w, b)
    ensures EntityAt(pre + w + rest, |pre|) == (b, |pre| + |w|)
  {
    hide Reference;
    var data := pre + w + rest;
    assert data[|pre|] == w[0];
    if w != [b] || b == AMP {
      var body := w[1..|w| - 1];
      var window := data[|pre| + 1..Min(|pre| + 12, |data|)];
      assert |window| > |body| && window[|body|] == SEMI;
      forall j | 0 <= j < |body| ensures window[j] == body[j] {
        assert data[|pre| + 1 + j] == w[1 + j];
      }
      assert window[..|body|] == body;
      FirstSemi(window, |body|);
    }
  }

  lemma FirstSemi(s: Bytes, k: nat)
    requires k < |s| && s[k] == SEMI && SEMI !in s[..k]
    ensures UpToSemi(s) == Some(k)
  {
    assert s[k] in s;
    var r := UpToSemi(s).value;
    assert forall j :: 0 <= j < r ==> s[j] == s[..r][j];
    assert forall j :: 0 <= j < k ==> s[j] == s[..k][j];
  }

  /** However each byte is written, as itself or as a reference, the view is the same. */
  lemma {:induction false} SpellingInvisible(pre: Bytes, words: seq<Bytes>, s: Bytes)
    requires |words| == |s| && forall k :: 0 <= k < |s| ==> Spells(words[k], s[k])
    ensures Decoded(pre + Concat(words), |pre|) == s
    ensures pre == [] ==> HtmlView(Concat(words)) == Collapse(LowerAll(s))
    decreases |words|
  {
    hide Spells, EntityAt;
    assert [] + Concat(words) == Concat(words);
    if words != [] {
      var w, rest := words[0], Concat(words[1..]);
      assert pre + Concat(words) == pre + w + rest;
      EntitySpelled(pre, w, s[0], rest);
      SpellingInvisible(pre + w, words[1..], s[1..]);
      assert s == [s[0]] + s[1..];
    }
  }

  // ---------------------------------------------------------------- script

  /** Where a comment ends whose text starts at `i`: after its first closing mark, or at the end. */
  function AfterBlock(data: Bytes, i: nat): (r: nat)
    ensures i <= |data| ==> i <= r <= |data|
    decreases |data| - i
  {
    if i + 1 >= |data| then |data|
    else if data[i] == STAR && data[i + 1] == SLASH then i + 2
    else AfterBlock(data, i + 1)
  }

  /** Where the line that `i` is on ends. */
  function LineEnd(data: Bytes, i: nat): (r: nat)
    ensures i <= |data| ==> i <= r <= |data|
    decreases |data| - i
  {
    if i >= |data| || data[i] == NEWLINE then i else LineEnd(data, i + 1)
  }

  /** One step of comment stripping, in or out of a literal: the bytes kept, where to go on, and the
      quote the literal then open ends with. */
  function Piece(data: Bytes, i: nat, quote: Option<byte>): (r: (Bytes, nat, Option<byte>))
    requires i < |data|
    ensures i < r.1 <= |data|
  {
    var b := data[i];
    var next := if i + 1 < |data| then Some(data[i + 1]) else None;
    if quote.Some? then
      if b == BACKSLASH && next.Some? then ([b, next.value], i + 2, quote)
      else ([b], i + 1, if quote == Some(b) then None else quote)
    else if IsQuote(b) then ([b], i + 1, Some(b))
    else if b == SLASH && next == Some(STAR) then ([SP], AfterBlock(data, i + 2), None)
    else if b == SLASH && next == Some(SLASH) then ([], LineEnd(data, i + 2), None)
    else ([b], i + 1, None)
  }

  /** The script from `i` on without its comments. */
  function Stripped(data: Bytes, i: nat, quote: Option<byte>): Bytes
    requires i <= |data|
    decreases |data| - i
  {
    if i == |data| then []
    else
      var (kept, next, q) := Piece(data, i, quote);
      kept + Stripped(data, next, q)
  }

  /** The last byte that is not whitespace. */
  function LastSolid(s: Bytes): Option<byte> {
    if s == [] then None else if IsSpace(Last(s)) then LastSolid(Init(s)) else Some(Last(s))
  }

  /** Letters lowered and whitespace dropped, but for one space where it keeps two words apart. */
  function Squeeze(s: Bytes): Bytes {
    if s == [] then [] else Squeeze(Init(s)) + Squeezed(EndsInSpace(Init(s)), LastSolid(Init(s)), Last(s))
  }

  function Squeezed(afterSpace: bool, before: Option<byte>, b: byte): Bytes {
    if IsSpace(b) then []
    else if afterSpace && before.Some? && IsWord(before.value) && IsWord(b) then [SP, Lower(b)]
    else [Lower(b)]
  }

  lemma SqueezePush(s: Bytes, b: byte)
    ensures Squeeze(s + [b]) == Squeeze(s) + Squeezed(EndsInSpace(s), LastSolid(s), b)
    ensures LastSolid(s + [b]) == if IsSpace(b) then LastSolid(s) else Some(b)
  {
    assert Init(s + [b]) == s;
  }

  /** The script view: comments stripped, then squeezed. */
  function ScriptView(data: Bytes): Bytes { Squeeze(Stripped(data, 0, None)) }

  /** No capital, and whitespace only as one space between two words. */
  predicate Tight(s: Bytes) {
    && (forall i :: 0 <= i < |s| ==> !IsUpper(s[i]))
    && (forall i :: 0 <= i < |s| && IsSpace(s[i]) ==> s[i] == SP && 0 < i < |s| - 1 && IsWord(s[i - 1]) && IsWord(s[i + 1]))
  }

  /** What a squeezed sequence ends with. */
  lemma {:induction false} SqueezeEnds(s: Bytes)
    ensures LastSolid(s).None? <==> Squeeze(s) == []
    ensures LastSolid(s).Some? ==> !IsSpace(LastSolid(s).value) && Last(Squeeze(s)) == Lower(LastSolid(s).value)
  {
    if s != [] { SqueezeEnds(Init(s)); }
  }

  lemma {:induction false} SqueezeTight(s: Bytes)
    ensures Tight(Squeeze(s))
  {
    if s != [] {
      SqueezeTight(Init(s));
      SqueezeEnds(Init(s));
      TightMore(Squeeze(Init(s)), EndsInSpace(Init(s)), LastSolid(Init(s)), Last(s));
    }
  }

  lemma TightMore(t: Bytes, afterSpace: bool, before: Option<byte>, b: byte)
    requires Tight(t) && (before.None? <==> t == [])
    requires before.Some? ==> !IsSpace(before.value) && Last(t) == Lower(before.value)
    ensures Tight(t + Squeezed(afterSpace, before, b))
  {}

  lemma {:induction false} SqueezeKeeps(s: Bytes)
    requires forall i :: 0 <= i < |s| ==> !IsUpper(s[i])
    requires forall i :: 0 <= i < |s| && IsSpace(s[i]) ==> s[i] == SP && 0 < i && IsWord(s[i - 1]) && (i + 1 < |s| ==> IsWord(s[i + 1]))
    ensures Squeeze(s) == if EndsInSpace(s) then Init(s) else s
    ensures s != [] && !EndsInSpace(s) ==> LastSolid(s) == Some(Last(s))
    ensures EndsInSpace(s) ==> |s| > 1 && LastSolid(s) == Some(s[|s| - 2])
  {
    hide Squeeze, LastSolid;
    if s == [] {
      SqueezeNone();
    } else {
      var f := Init(s);
      SqueezeKeeps(f);
      assert s == f + [Last(s)];
      SqueezePush(f, Last(s));
      if EndsInSpace(f) {
        assert s == Init(f) + [SP, Last(s)];
      }
    }
  }

  lemma SqueezeNone()
    ensures Squeeze([]) == [] && LastSolid([]) == None
  {}

  /** Squeezing changes nothing exactly in what is already tight, so squeezing twice is squeezing. */
  lemma SqueezeFixed(s: Bytes)
    ensures Squeeze(s) == s <==> Tight(s)
    ensures Squeeze(Squeeze(s)) == Squeeze(s)
  {
    SqueezeTight(s);
    SqueezeKeeps(Squeeze(s));
    if Tight(s) { SqueezeKeeps(s); }
  }

  /** Two beginnings that nothing following can tell apart. */
  predicate Alike(a: Bytes, b: Bytes) {
    Squeeze(a) == Squeeze(b) && EndsInSpace(a) == EndsInSpace(b) && LastSolid(a) == LastSolid(b)
  }

  lemma {:induction false} AlikeOn(a: Bytes, b: Bytes, rest: Bytes)
    requires Alike(a, b)
    ensures Alike(a + rest, b + rest)
    decreases |rest|
  {
    hide Alike;
    if rest == [] {
      assert a + rest == a && b + rest == b;
    } else {
      AlikeOn(a, b, Init(rest));
      AlikePush(a + Init(rest), b + Init(rest), Last(rest));
      assert a + rest == a + Init(rest) + [Last(rest)] && b + rest == b + Init(rest) + [Last(rest)];
    }
  }

  lemma AlikePush(a: Bytes, b: Bytes, x: byte)
    requires Alike(a, b)
    ensures Alike(a + [x], b + [x])
  {
    hide Squeeze, LastSolid, Squeezed;
    SqueezePush(a, x);
    SqueezePush(b, x);
  }

  predicate Blank(w: Bytes) { w != [] && forall i :: 0 <= i < |w| ==> IsSpace(w[i]) }

  lemma {:induction false} BlankRun(a: Bytes, w: Bytes)
    requires Blank(w)
    ensures Squeeze(a + w) == Squeeze(a) && EndsInSpace(a + w) && LastSolid(a + w) == LastSolid(a)
    decreases |w|
  {
    SqueezePush(a + Init(w), Last(w));
    assert a + w == a + Init(w) + [Last(w)];
    if |w| > 1 {
      BlankRun(a, Init(w));
    } else {
      assert a + Init(w) == a;
    }
  }

  /** How much whitespace pads a place, and of what kind, cannot be seen. */
  lemma PaddingInvisible(a: Bytes, w: Bytes, w': Bytes, rest: Bytes)
    requires Blank(w) && Blank(w')
    ensures Squeeze(a + w + rest) == Squeeze(a + w' + rest)
  {
    BlankRun(a, w);
    BlankRun(a, w');
    AlikeOn(a + w, a + w', rest);
  }
}
