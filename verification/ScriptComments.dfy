/** In the script view a comment is as good as whitespace, wherever it stands outside a literal. */
module ScriptComments {
  import opened ByteSeq
  import opened TextViews

  /** Stripping from `i` comes to `end` with no literal open. */
  predicate Reaches(data: Bytes, i: nat, quote: Option<byte>, end: nat)
    requires i <= |data|
    decreases |data| - i
  {
    if i >= end || i == |data| then i == end && quote == None
    else
      var p := Piece(data, i, quote);
      Reaches(data, p.1, p.2, end)
  }

  /** What it keeps on the way. */
  function KeptUpTo(data: Bytes, i: nat, quote: Option<byte>, end: nat): Bytes
    requires i <= |data|
    decreases |data| - i
  {
    if i >= end || i == |data| then []
    else
      var p := Piece(data, i, quote);
      p.0 + KeptUpTo(data, p.1, p.2, end)
  }

  lemma {:induction false} StripSplits(data: Bytes, i: nat, quote: Option<byte>, end: nat)
    requires i <= |data| && end <= |data| && Reaches(data, i, quote, end)
    ensures Stripped(data, i, quote) == KeptUpTo(data, i, quote, end) + Stripped(data, end, None)
    decreases |data| - i
  {
    hide Piece;
    if i < end {
      var p := Piece(data, i, quote);
      StripSplits(data, p.1, p.2, end);
      Assoc(p.0, KeptUpTo(data, p.1, p.2, end), Stripped(data, end, None));
    }
  }

  // ---------------------------------------------------------------- what comes before does not matter

  lemma {:induction false} AfterBlockShift(pre: Bytes, s: Bytes, i: nat)
    requires i <= |s|
    ensures AfterBlock(pre + s, |pre| + i) == |pre| + AfterBlock(s, i)
    decreases |s| - i
  {
    if i + 1 < |s| {
      assert (pre + s)[|pre| + i] == s[i] && (pre + s)[|pre| + i + 1] == s[i + 1];
      AfterBlockShift(pre, s, i + 1);
    }
  }

  lemma {:induction false} LineEndShift(pre: Bytes, s: Bytes, i: nat)
    requires i <= |s|
    ensures LineEnd(pre + s, |pre| + i) == |pre| + LineEnd(s, i)
    decreases |s| - i
  {
    if i < |s| {
      assert (pre + s)[|pre| + i] == s[i];
      LineEndShift(pre, s, i + 1);
    }
  }

  lemma PieceShift(pre: Bytes, s: Bytes, i: nat, quote: Option<byte>)
    requires i < |s|
    ensures var p := Piece(s, i, quote); Piece(pre + s, |pre| + i, quote) == (p.0, |pre| + p.1, p.2)
  {
    hide AfterBlock, LineEnd;
    assert (pre + s)[|pre| + i] == s[i];
    if i + 1 < |s| {
      assert (pre + s)[|pre| + i + 1] == s[i + 1];
      AfterBlockShift(pre, s, i + 2);
      LineEndShift(pre, s, i + 2);
    }
  }

  lemma {:induction false} StripShift(pre: Bytes, s: Bytes, i: nat, quote: Option<byte>)
    requires i <= |s|
    ensures Stripped(pre + s, |pre| + i, quote) == Stripped(s, i, quote)
    decreases |s| - i
  {
    hide Piece;
    if i < |s| {
      var p := Piece(s, i, quote);
      PieceShift(pre, s, i, quote);
      StripShift(pre, s, p.1, p.2);
    }
  }

  // ---------------------------------------------------------------- nor what comes after a comment's place

  lemma {:induction false} AfterBlockSame(pre: Bytes, x: Bytes, y: Bytes, i: nat)
    requires x != [] && i <= |pre| && AfterBlock(pre + x, i) <= |pre|
    ensures AfterBlock(pre + y, i) == AfterBlock(pre + x, i)
    decreases |pre| - i
  {
    var d, e := pre + x, pre + y;
    assert forall k :: 0 <= k < |pre| ==> d[k] == pre[k] == e[k];
    if !(d[i] == STAR && d[i + 1] == SLASH) { AfterBlockSame(pre, x, y, i + 1); }
  }

  lemma {:induction false} LineEndSame(pre: Bytes, x: Bytes, y: Bytes, i: nat)
    requires x != [] && x[0] != NEWLINE && i <= |pre| && LineEnd(pre + x, i) <= |pre|
    ensures LineEnd(pre + y, i) == LineEnd(pre + x, i)
    decreases |pre| - i
  {
    var d, e := pre + x, pre + y;
    assert forall k :: 0 <= k < |pre| ==> d[k] == pre[k] == e[k];
    assert d[|pre|] == x[0];
    if d[i] != NEWLINE { LineEndSame(pre, x, y, i + 1); }
  }

  /** A step that ends where a comment starts, or before, does not depend on the comment. */
  lemma PieceSame(pre: Bytes, x: Bytes, y: Bytes, i: nat, quote: Option<byte>)
    requires x != [] && x[0] == SLASH && i < |pre| && Piece(pre + x, i, quote).1 <= |pre|
    ensures Piece(pre + y, i, quote) == Piece(pre + x, i, quote)
  {
    hide AfterBlock, LineEnd;
    var d, e := pre + x, pre + y;
    assert d[i] == pre[i] == e[i] && d[|pre|] == SLASH;
    if i + 1 < |pre| {
      assert d[i + 1] == pre[i + 1] == e[i + 1];
      if quote.None? && d[i] == SLASH && d[i + 1] == STAR { AfterBlockSame(pre, x, y, i + 2); }
      if quote.None? && d[i] == SLASH && d[i + 1] == SLASH { LineEndSame(pre, x, y, i + 2); }
    }
  }

  lemma {:induction false} ReachSame(pre: Bytes, x: Bytes, y: Bytes, i: nat, quote: Option<byte>)
    requires x != [] && x[0] == SLASH && i <= |pre| && Reaches(pre + x, i, quote, |pre|)
    ensures Reaches(pre + y, i, quote, |pre|) && KeptUpTo(pre + y, i, quote, |pre|) == KeptUpTo(pre + x, i, quote, |pre|)
    decreases |pre| - i
  {
    hide Piece;
    if i < |pre| {
      var p := Piece(pre + x, i, quote);
      ReachesOn(pre + x, p.1, p.2, |pre|);
      PieceSame(pre, x, y, i, quote);
      ReachSame(pre, x, y, p.1, p.2);
    }
  }

  lemma ReachesOn(data: Bytes, i: nat, quote: Option<byte>, end: nat)
    requires i <= |data| && Reaches(data, i, quote, end)
    ensures i <= end
  {}

  // ---------------------------------------------------------------- comments

  /** Text a block comment may have: its closing mark does not come early. */
  predicate NoClose(c: Bytes) { forall k :: 0 <= k < |c| - 1 ==> !(c[k] == STAR && c[k + 1] == SLASH) }

  function Block(c: Bytes): Bytes { [SLASH, STAR] + c + [STAR, SLASH] }

  function Line(c: Bytes): Bytes { [SLASH, SLASH] + c + [NEWLINE] }

  lemma {:induction false} ClosesAt(c: Bytes, rest: Bytes, k: nat)
    requires NoClose(c) && k <= |c|
    ensures AfterBlock(Block(c) + rest, 2 + k) == |c| + 4
    decreases |c| - k
  {
    var d := Block(c) + rest;
    assert forall j :: 0 <= j < |c| ==> d[2 + j] == c[j];
    assert d[2 + |c|] == STAR && d[3 + |c|] == SLASH;
    if k < |c| { ClosesAt(c, rest, k + 1); }
  }

  lemma {:induction false} EndsAt(c: Bytes, rest: Bytes, k: nat)
    requires NEWLINE !in c && k <= |c|
    ensures LineEnd(Line(c) + rest, 2 + k) == |c| + 2
    decreases |c| - k
  {
    var d := Line(c) + rest;
    assert forall j :: 0 <= j < |c| ==> d[2 + j] == c[j];
    assert d[2 + |c|] == NEWLINE;
    if k < |c| {
      assert c[k] in c;
      EndsAt(c, rest, k + 1);
    }
  }

  lemma BlockStripped(c: Bytes, rest: Bytes)
    requires NoClose(c)
    ensures Stripped(Block(c) + rest, 0, None) == [SP] + Stripped(rest, 0, None)
  {
    hide AfterBlock;
    var d := Block(c) + rest;
    assert d[0] == SLASH && d[1] == STAR;
    ClosesAt(c, rest, 0);
    assert Piece(d, 0, None) == ([SP], |c| + 4, None);
    StripShift(Block(c), rest, 0, None);
  }

  lemma LineStripped(c: Bytes, rest: Bytes)
    requires NEWLINE !in c
    ensures Stripped(Line(c) + rest, 0, None) == [NEWLINE] + Stripped(rest, 0, None)
  {
    hide LineEnd;
    var d := Line(c) + rest;
    assert d[0] == SLASH && d[1] == SLASH && d[|c| + 2] == NEWLINE;
    EndsAt(c, rest, 0);
    assert Piece(d, 0, None) == ([], |c| + 2, None) && Piece(d, |c| + 2, None) == ([NEWLINE], |c| + 3, None);
    StripShift(Line(c), rest, 0, None);
    assert Stripped(d, |c| + 2, None) == [NEWLINE] + Stripped(rest, 0, None);
  }

  lemma {:induction false} BlankKept(w: Bytes, rest: Bytes)
    requires forall i :: 0 <= i < |w| ==> IsSpace(w[i])
    ensures Stripped(w + rest, 0, None) == w + Stripped(rest, 0, None)
    decreases |w|
  {
    if w == [] {
      assert w + rest == rest && w + Stripped(rest, 0, None) == Stripped(rest, 0, None);
    } else {
      var tail := w[1..] + rest;
      assert w + rest == [w[0]] + tail;
      BlankKept(w[1..], rest);
      StripShift([w[0]], tail, 0, None);
      assert Piece([w[0]] + tail, 0, None) == ([w[0]], 1, None);
      assert w == [w[0]] + w[1..];
      Assoc([w[0]], w[1..], Stripped(rest, 0, None));
    }
  }

  /** Where a part that starts with a slash stands outside a literal, only what it strips to matters. */
  lemma InPlace(pre: Bytes, x: Bytes, w: Bytes, w': Bytes, rest: Bytes)
    requires x != [] && x[0] == SLASH && Blank(w) && Blank(w')
    requires Reaches(pre + (x + rest), 0, None, |pre|)
    requires Stripped(x + rest, 0, None) == w' + Stripped(rest, 0, None)
    ensures ScriptView(pre + (x + rest)) == ScriptView(pre + (w + rest))
  {
    hide Squeeze, Reaches, KeptUpTo, Stripped;
    var k, r := KeptUpTo(pre + (x + rest), 0, None, |pre|), Stripped(rest, 0, None);
    StripSplits(pre + (x + rest), 0, None, |pre|);
    StripShift(pre, x + rest, 0, None);
    ReachSame(pre, x + rest, w + rest, 0, None);
    StripSplits(pre + (w + rest), 0, None, |pre|);
    StripShift(pre, w + rest, 0, None);
    BlankKept(w, rest);
    Assoc(k, w', r);
    Assoc(k, w, r);
    PaddingInvisible(k, w', w, r);
  }

  /** A block comment outside a literal gives the view any whitespace in its place gives. */
  lemma BlockInvisible(pre: Bytes, c: Bytes, w: Bytes, rest: Bytes)
    requires NoClose(c) && Blank(w) && Reaches(pre + (Block(c) + rest), 0, None, |pre|)
    ensures ScriptView(pre + (Block(c) + rest)) == ScriptView(pre + (w + rest))
  {
    hide ScriptView, Reaches, Stripped;
    BlockStripped(c, rest);
    assert Blank([SP]);
    InPlace(pre, Block(c), w, [SP], rest);
  }

  /** So does a line comment with its newline. */
  lemma LineInvisible(pre: Bytes, c: Bytes, w: Bytes, rest: Bytes)
    requires NEWLINE !in c && Blank(w) && Reaches(pre + (Line(c) + rest), 0, None, |pre|)
    ensures ScriptView(pre + (Line(c) + rest)) == ScriptView(pre + (w + rest))
  {
    hide ScriptView, Reaches, Stripped;
    LineStripped(c, rest);
    assert Blank([NEWLINE]);
    InPlace(pre, Line(c), w, [NEWLINE], rest);
  }

  /** Inside a literal nothing is a comment: it is kept as it is, comment marks and all, and what
      follows it is stripped as if it stood alone. */
  lemma LiteralKept(q: byte, body: Bytes, rest: Bytes)
    requires IsQuote(q) && q !in body && BACKSLASH !in body
    ensures Stripped([q] + (body + ([q] + rest)), 0, None) == [q] + (body + ([q] + Stripped(rest, 0, None)))
  {
    var inside := body + ([q] + rest);
    assert Piece([q] + inside, 0, None) == ([q], 1, Some(q));
    StripShift([q], inside, 0, Some(q));
    BodyKept(q, body, rest);
  }

  lemma {:induction false} BodyKept(q: byte, body: Bytes, rest: Bytes)
    requires IsQuote(q) && q !in body && BACKSLASH !in body
    ensures Stripped(body + ([q] + rest), 0, Some(q)) == body + ([q] + Stripped(rest, 0, None))
    decreases |body|
  {
    hide Stripped;
    if body == [] {
      assert body + ([q] + rest) == [q] + rest && body + ([q] + Stripped(rest, 0, None)) == [q] + Stripped(rest, 0, None);
      ByteInside(q, q, rest);
    } else {
      var b, tail := body[0], body[1..] + ([q] + rest);
      assert body == [b] + body[1..] && b in body;
      Assoc([b], body[1..], [q] + rest);
      ByteInside(q, b, tail);
      BodyKept(q, body[1..], rest);
      Assoc([b], body[1..], [q] + Stripped(rest, 0, None));
    }
  }

  lemma ByteInside(q: byte, b: byte, tail: Bytes)
    requires b != BACKSLASH
    ensures Stripped([b] + tail, 0, Some(q)) == [b] + Stripped(tail, 0, if b == q then None else Some(q))
  {
    var next := if b == q then None else Some(q);
    assert Piece([b] + tail, 0, Some(q)) == ([b], 1, next);
    StripShift([b], tail, 0, next);
  }
}
