/** The normalisers as they work: one pass over the object, a byte at a time into whatever the view
    is written to. */
module TextNormalizers {
  import opened ByteSeq
  import opened TextViews
  import opened Spill

  /** Appends a byte, a run of whitespace as one space. */
  method PushCollapsed(out: Out, b: byte, prevWs: bool) returns (ws: bool)
    requires out.Valid()
    modifies out, out.Files()
    ensures out.Valid() && out.taken == old(out.taken) + Share(prevWs, b) && ws == IsSpace(b)
  {
    if IsSpace(b) {
      if !prevWs { out.Push(SP); }
      ws := true;
    } else {
      out.Push(b);
      ws := false;
    }
  }

  /** The number digits spell if it is a code point, given up as soon as it is not. */
  method CodePoint(digits: Bytes, radix: nat) returns (r: Option<nat>)
    requires 2 <= radix <= 16
    ensures r == var n := Number(digits, radix); if n.None? || n.value > LAST_CODE_POINT then None else n
  {
    var value := 0;
    assert digits[..|digits|] == digits;
    for k := 0 to |digits|
      invariant Number(digits[..k], radix) == Some(value) && value <= LAST_CODE_POINT
    {
      NumberPush(digits, k, radix);
      NumberGrows(digits, k + 1, radix);
      var v := DigitVal(digits[k], radix);
      if v.None? { return None; }
      CheckedEnough(value, radix, v.value);
      var next := Checked(value, radix, v.value);
      if next.None? || next.value > LAST_CODE_POINT { return None; }
      value := next.value;
    }
    r := Some(value);
  }

  /** Multiplying and adding in 32 bits, nothing when the result does not fit. */
  function Checked(value: nat, radix: nat, v: nat): Option<nat> {
    if value * radix + v < U32 then Some(value * radix + v) else None
  }

  /** A code point and one more digit always fit, so the checks refuse nothing. */
  lemma CheckedEnough(value: nat, radix: nat, v: nat)
    requires value <= LAST_CODE_POINT && v < radix <= 16
    ensures Checked(value, radix, v) == Some(value * radix + v)
  {
    assert value * radix <= value * 16 by { assert value * 16 == value * radix + value * (16 - radix); }
  }

  lemma NumberPush(digits: Bytes, k: nat, radix: nat)
    requires 2 <= radix <= 16 && k < |digits|
    ensures Number(digits[..k + 1], radix) ==
            var n, d := Number(digits[..k], radix), DigitVal(digits[k], radix); if n.None? || d.None? then None else Some(n.value * radix + d.value)
  {
    assert digits[..k + 1][..k] == digits[..k];
  }

  /** More digits never make a number smaller. */
  lemma {:induction false} NumberGrows(digits: Bytes, k: nat, radix: nat)
    requires 2 <= radix <= 16 && k <= |digits|
    ensures Number(digits, radix).Some? ==>
              Number(digits[..k], radix).Some? && Number(digits[..k], radix).value <= Number(digits, radix).value
    decreases |digits| - k
  {
    hide Number;
    if k < |digits| {
      NumberGrows(digits, k + 1, radix);
      NumberPush(digits, k, radix);
      if Number(digits, radix).Some? { Grows(Number(digits[..k], radix).value, radix); }
    } else {
      assert digits[..k] == digits;
    }
  }

  lemma Grows(n: nat, radix: nat)
    requires radix >= 1
    ensures n <= n * radix
  {}

  method DecodeReference(body: Bytes) returns (r: Option<byte>)
    ensures r == Reference(body)
  {
    if body == [] { return None; }
    if body[0] == 35 {
      var hex := |body| > 1 && (body[1] == 120 || body[1] == 88);
      var digits := if hex then body[2..] else body[1..];
      if digits == [] { return None; }
      var value := CodePoint(digits, if hex then 16 else 10);
      if value.None? { return None; }
      return Some(value.value % 256);
    }
    var i := 0;
    assert NAMES[0..] == NAMES;
    while i < |NAMES|
      invariant i <= |NAMES| && Named(body, NAMES) == Named(body, NAMES[i..])
    {
      assert NAMES[i..][1..] == NAMES[i + 1..];
      if LowerAll(body) == NAMES[i].0 { return Some(NAMES[i].1); }
      i := i + 1;
    }
    r := None;
  }

  method DecodeEntityAt(data: Bytes, i: nat) returns (b: byte, next: nat)
    requires i < |data|
    ensures (b, next) == EntityAt(data, i)
  {
    if data[i] != AMP { return data[i], i + 1; }
    var window := data[i + 1..Min(i + 12, |data|)];
    var p := UpToSemi(window);
    if p.None? { return AMP, i + 1; }
    var decoded := DecodeReference(window[..p.value]);
    if decoded.None? { return AMP, i + 1; }
    return decoded.value, i + 1 + p.value + 1;
  }

  lemma SpaceLower(b: byte)
    ensures IsSpace(Lower(b)) == IsSpace(b) && IsWord(Lower(b)) == IsWord(b)
  {}

  /** One pass, the two-pass view. */
  method HtmlInto(data: Bytes, out: Out)
    requires out.Valid()
    modifies out, out.Files()
    ensures out.Valid() && out.taken == old(out.taken) + HtmlView(data)
  {
    hide EntityAt, Collapse, Decoded, LowerAll, Share;
    var prevWs := false;
    var i := 0;
    ghost var decoded: Bytes := [];
    ghost var start := out.taken;
    CollapseNone();
    DecodedNone(data);
    while i < |data|
      invariant i <= |data| && out.Valid()
      invariant Decoded(data, 0) == decoded + Decoded(data, i)
      invariant out.taken == start + Collapse(LowerAll(decoded)) && prevWs == EndsInSpace(LowerAll(decoded))
      decreases |data| - i
    {
      var b, next := DecodeEntityAt(data, i);
      HtmlPush(data, i, decoded);
      Assoc(start, Collapse(LowerAll(decoded)), Share(prevWs, Lower(b)));
      prevWs := PushCollapsed(out, Lower(b), prevWs);
      decoded := decoded + [b];
      i := next;
    }
    DecodedNone(data);
    assert decoded == Decoded(data, 0);
  }

  lemma DecodedNone(data: Bytes)
    ensures Decoded(data, |data|) == [] && LowerAll([]) == []
  {}

  /** What one more byte or reference of HTML adds. */
  lemma HtmlPush(data: Bytes, i: nat, decoded: Bytes)
    requires i < |data|
    ensures var (b, next) := EntityAt(data, i);
            && decoded + Decoded(data, i) == decoded + [b] + Decoded(data, next)
            && Collapse(LowerAll(decoded + [b])) == Collapse(LowerAll(decoded)) + Share(EndsInSpace(LowerAll(decoded)), Lower(b))
            && EndsInSpace(LowerAll(decoded + [b])) == IsSpace(Lower(b))
  {
    hide EntityAt, Collapse;
    var (b, next) := EntityAt(data, i);
    Assoc(decoded, [b], Decoded(data, next));
    LowerPush(decoded, b);
    CollapsePush(LowerAll(decoded), Lower(b));
  }

  lemma CollapseNone()
    ensures Collapse(LowerAll([])) == [] && Collapse([]) == []
  {}

  method TextInto(data: Bytes, out: Out)
    requires out.Valid()
    modifies out, out.Files()
    ensures out.Valid() && out.taken == old(out.taken) + TextView(data)
  {
    hide Collapse;
    var prevWs := false;
    ghost var start := out.taken;
    CollapseNone();
    assert data[..|data|] == data;
    for i := 0 to |data|
      invariant out.Valid()
      invariant out.taken == start + Collapse(LowerAll(Printable(data[..i]))) && prevWs == EndsInSpace(LowerAll(Printable(data[..i])))
    {
      var b := data[i];
      TextPush(data, i);
      if IsSpace(b) {
        prevWs := PushCollapsed(out, b, prevWs);
      } else if b >= 0x20 {
        out.Push(Lower(b));
        prevWs := false;
      }
    }
  }

  /** What one more byte of text adds. */
  lemma TextPush(data: Bytes, i: nat)
    requires i < |data|
    ensures var p, q := LowerAll(Printable(data[..i])), LowerAll(Printable(data[..i + 1]));
            if IsControl(data[i]) then q == p
            else Collapse(q) == Collapse(p) + Share(EndsInSpace(p), Lower(data[i])) && EndsInSpace(q) == IsSpace(data[i])
  {
    hide Collapse, Printable;
    assert data[..i + 1] == data[..i] + [data[i]];
    PrintablePush(data[..i], data[i]);
    LowerPush(Printable(data[..i]), data[i]);
    CollapsePush(LowerAll(Printable(data[..i])), Lower(data[i]));
    SpaceLower(data[i]);
    if IsControl(data[i]) {
      assert Printable(data[..i]) + [] == Printable(data[..i]);
    }
  }

  /** What the script view does with each byte that comment stripping keeps. */
  method Keep(out: Out, b: byte, pendingWs: bool, ghost stripped: Bytes, ghost start: Bytes) returns (ws: bool)
    requires out.Valid() && Squeezing(out.taken, out.last, pendingWs, stripped, start)
    modifies out, out.Files()
    ensures out.Valid() && Squeezing(out.taken, out.last, ws, stripped + [b], start)
  {
    hide Squeeze, LastSolid;
    SqueezePush(stripped, b);
    SqueezeEnds(stripped);
    if IsSpace(b) { return true; }
    SpaceLower(b);
    if LastSolid(stripped).Some? { SpaceLower(LastSolid(stripped).value); }
    var c := Lower(b);
    if pendingWs && out.last.Some? && IsWord(out.last.value) && IsWord(c) { out.Push(SP); }
    out.Push(c);
    ws := false;
  }

  /** The view is the squeezed form of what comment stripping kept, and its last byte is at hand. */
  ghost predicate Squeezing(taken: Bytes, last: Option<byte>, pendingWs: bool, stripped: Bytes, start: Bytes) {
    && taken == start + Squeeze(stripped) && pendingWs == EndsInSpace(stripped)
    && last == if LastSolid(stripped).None? then None else Some(Lower(LastSolid(stripped).value))
  }

  /** Comment stripping, each byte kept squeezed at once. */
  method JavascriptInto(data: Bytes, out: Out)
    requires out.Valid() && out.last == None
    modifies out, out.Files()
    ensures out.Valid() && out.taken == old(out.taken) + ScriptView(data)
  {
    hide Squeezing, Squeeze, LastSolid;
    var pendingWs := false;
    var quote: Option<byte> := None;
    var i := 0;
    ghost var stripped: Bytes := [];
    ghost var start := out.taken;
    SqueezingNone(start);
    while i < |data|
      invariant i <= |data| && out.Valid()
      invariant Squeezing(out.taken, out.last, pendingWs, stripped, start)
      invariant Stripped(data, 0, None) == stripped + Stripped(data, i, quote)
      decreases |data| - i
    {
      ghost var kept, next, q := Piece(data, i, quote).0, Piece(data, i, quote).1, Piece(data, i, quote).2;
      Assoc(stripped, kept, Stripped(data, next, q));
      ghost var was := stripped;
      var b := data[i];
      if quote.Some? {
        pendingWs := Keep(out, b, pendingWs, stripped, start);
        stripped := stripped + [b];
        if b == BACKSLASH && i + 1 < |data| {
          pendingWs := Keep(out, data[i + 1], pendingWs, stripped, start);
          stripped := stripped + [data[i + 1]];
          i := i + 2;
        } else {
          if quote == Some(b) { quote := None; }
          i := i + 1;
        }
      } else if IsQuote(b) {
        quote := Some(b);
        pendingWs := Keep(out, b, pendingWs, stripped, start);
        stripped := stripped + [b];
        i := i + 1;
      } else if b == SLASH && i + 1 < |data| && data[i + 1] == STAR {
        i := SkipBlock(data, i + 2);
        pendingWs := Keep(out, SP, pendingWs, stripped, start);
        stripped := stripped + [SP];
      } else if b == SLASH && i + 1 < |data| && data[i + 1] == SLASH {
        i := SkipLine(data, i + 2);
      } else {
        pendingWs := Keep(out, b, pendingWs, stripped, start);
        stripped := stripped + [b];
        i := i + 1;
      }
      assert stripped == was + kept && i == next && quote == q;
    }
    assert stripped == Stripped(data, 0, None);
    SqueezingIs(out.taken, out.last, pendingWs, stripped, start);
  }

  lemma SqueezingNone(start: Bytes)
    ensures Squeezing(start, None, false, [], start)
  {}

  lemma SqueezingIs(taken: Bytes, last: Option<byte>, pendingWs: bool, stripped: Bytes, start: Bytes)
    requires Squeezing(taken, last, pendingWs, stripped, start)
    ensures taken == start + Squeeze(stripped)
  {}

  method SkipBlock(data: Bytes, from: nat) returns (i: nat)
    requires from <= |data|
    ensures i == AfterBlock(data, from)
  {
    i := from;
    while i + 1 < |data| && !(data[i] == STAR && data[i + 1] == SLASH)
      invariant i <= |data| && AfterBlock(data, i) == AfterBlock(data, from)
    {
      i := i + 1;
    }
    i := Min(i + 2, |data|);
  }

  method SkipLine(data: Bytes, from: nat) returns (i: nat)
    requires from <= |data|
    ensures i == LineEnd(data, from)
  {
    i := from;
    while i < |data| && data[i] != NEWLINE
      invariant i <= |data| && LineEnd(data, i) == LineEnd(data, from)
    {
      i := i + 1;
    }
  }

  datatype ViewKind = Html | Text | Javascript

  function View(kind: ViewKind, data: Bytes): Bytes {
    match kind
    case Html => HtmlView(data)
    case Text => TextView(data)
    case Javascript => ScriptView(data)
  }

  method ViewInto(kind: ViewKind, data: Bytes, out: Out)
    requires out.Valid() && out.last == None
    modifies out, out.Files()
    ensures out.Valid() && out.taken == old(out.taken) + View(kind, data)
  {
    match kind {
      case Html => HtmlInto(data, out);
      case Text => TextInto(data, out);
      case Javascript => JavascriptInto(data, out);
    }
  }

  /** A view made in memory. */
  method InMemory(kind: ViewKind, data: Bytes) returns (view: Bytes)
    ensures view == View(kind, data)
  {
    var out := new Out.Memory();
    ViewInto(kind, data, out);
    view := out.batch;
  }

  /** A view made through a file, in batches of any size: the whole view or an error, the error
      exactly when the host lost a write or cannot read back. */
  method Spilled(kind: ViewKind, data: Bytes, file: SpillFile, chunk: nat, readable: bool) returns (r: Result<Bytes>)
    requires file.contents == [] && file.writes == 0
    modifies file
    ensures r.Ok? ==> r.value == View(kind, data)
    ensures r.Err? <==> !readable || exists k :: 0 <= k < file.writes && file.fate(k).Lost?
  {
    var out := new Out.OnFile(file, chunk);
    ViewInto(kind, data, out);
    r := out.Finish(readable);
  }
}
