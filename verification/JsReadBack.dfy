/** What is written reads back: the space between two words is there exactly where it is needed, so
    lexing the output gives the tokens that were written, under their canonical names. */
module JsReadBack {
  import opened ByteSeq
  import opened JsText
  import opened JsLexer
  import opened JsReducer
  import opened JsEmit
  import opened Pieces

  const SP: byte := 32

  // ---------------------------------------------------------------- tokens that read as themselves

  /** A name as the lexer reads one. */
  predicate Word(name: Bytes) { name != [] && IsIdentStart(name[0]) && forall i :: 0 <= i < |name| ==> IsIdentByte(name[i]) }

  /** A string that needs no escape. */
  predicate PlainString(s: Bytes) {
    forall i :: 0 <= i < |s| ==> s[i] != QUOTE && s[i] != BACKSLASH && s[i] != NEWLINE && s[i] != RETURN
  }

  /** Punctuation that is nothing else: no part of a word, a string, a comment or a regular expression. */
  predicate PlainPunct(p: byte) { !IsSpace(p) && !IsQuote(p) && !IsIdentByte(p) && p != SLASH }

  predicate Legible(t: Tok) {
    match t
    case Ident(name) => Word(name)
    case Num(num) => ParseInt(num).Some?
    case Str(s) => PlainString(s)
    case Punct(p) => PlainPunct(p)
    case Regex(_) => false
  }

  /** A dot beside a number is read as part of it. */
  predicate Apart(t: Tok, u: Tok) { !(t == Punct(DOT) && u.Num?) && !(t.Num? && u == Punct(DOT)) }

  predicate DotsApart(ts: seq<Tok>) { forall i :: 0 <= i < |ts| - 1 ==> Apart(ts[i], ts[i + 1]) }

  predicate AllLegible(ts: seq<Tok>) { forall i :: 0 <= i < |ts| ==> Legible(ts[i]) }

  /** A token as it is written: a renamed identifier under its canonical name, a number in decimal. */
  function Canon(names: map<Bytes, nat>, t: Tok): Tok {
    match t
    case Ident(name) => if Renamed(t) && name in names then Ident(Canonical(names[name])) else t
    case Num(num) => if ParseInt(num).Some? then Num(Dec(ParseInt(num).value)) else t
    case _ => t
  }

  function CanonAll(names: map<Bytes, nat>, ts: seq<Tok>): (r: seq<Tok>)
    ensures |r| == |ts|
  {
    seq(|ts|, i requires 0 <= i < |ts| => Canon(names, ts[i]))
  }

  // ---------------------------------------------------------------- one token read

  /** Whether the token of a piece ends where the piece does, given what comes after it. */
  predicate Ends(t: Tok, text: Bytes, j: nat) {
    j < |text| ==>
      match t
      case Ident(_) => !IsIdentByte(text[j])
      case Num(_) => !IsIdentByte(text[j]) && text[j] != DOT
      case Punct(p) => p == DOT ==> !IsDigit(text[j])
      case _ => true
  }

  lemma {:induction false} IdentReads(text: Bytes, i: nat, end: nat)
    requires i <= end <= |text| && (end < |text| ==> !IsIdentByte(text[end]))
    requires forall k :: i <= k < end ==> IsIdentByte(text[k])
    ensures IdentEnd(text, i) == end
    decreases end - i
  {
    if i < end { IdentReads(text, i + 1, end); }
  }

  lemma {:induction false} DigitsRead(text: Bytes, i: nat, end: nat)
    requires 1 <= i <= end <= |text| && (end < |text| ==> !IsIdentByte(text[end]) && text[end] != DOT)
    requires forall k :: i - 1 <= k < end ==> IsDigit(text[k])
    ensures NumEnd(text, i) == end
    decreases end - i
  {
    if i < end { DigitsRead(text, i + 1, end); }
  }

  lemma PlainTail(s: Bytes, tail: Bytes)
    requires PlainString(s) && s != [] && s == [s[0]] + tail
    ensures PlainString(tail)
  {
    forall k | 0 <= k < |tail| ensures tail[k] == s[k + 1] {}
  }

  lemma {:induction false} StringReads(text: Bytes, i: nat, end: nat)
    requires i <= end < |text| && text[end] == QUOTE && PlainString(text[i..end])
    ensures StringBody(text, i, QUOTE) == (text[i..end], end + 1)
    decreases end - i
  {
    if i < end {
      assert text[i..end][0] == text[i] && text[i..end] == [text[i]] + text[i + 1..end];
      PlainTail(text[i..end], text[i + 1..end]);
      StringReads(text, i + 1, end);
    }
  }

  lemma WordRead(text: Bytes, i: nat, vp: bool, name: Bytes)
    requires At(text, i, name) && Word(name) && Ends(Ident(name), text, i + |name|)
    ensures NextToken(text, i, vp) == Some(Lexed(Ident(name), i + |name|, IsKeyword(name)))
  {
    hide IsKeyword;
    AtBytes(text, i, name);
    assert text[i] == name[0];
    forall k | i + 1 <= k < i + |name| ensures IsIdentByte(text[k]) { assert text[i + (k - i)] == name[k - i]; }
    IdentReads(text, i + 1, i + |name|);
  }

  lemma NumberRead(text: Bytes, i: nat, vp: bool, num: Bytes)
    requires At(text, i, num) && num != [] && (forall k :: 0 <= k < |num| ==> IsDigit(num[k])) && Ends(Num(num), text, i + |num|)
    ensures NextToken(text, i, vp) == Some(Lexed(Num(num), i + |num|, false))
  {
    hide StringBody, RegexBodyEnd, FlagsEnd, FracEnd, IdentEnd, IsKeyword;
    AtBytes(text, i, num);
    forall k | i <= k < i + |num| ensures IsDigit(text[k]) { assert text[i + (k - i)] == num[k - i]; }
    DigitsRead(text, i + 1, i + |num|);
  }

  lemma StringRead(text: Bytes, i: nat, vp: bool, s: Bytes)
    requires At(text, i, [QUOTE] + s + [QUOTE]) && PlainString(s)
    ensures NextToken(text, i, vp) == Some(Lexed(Str(s), i + |s| + 2, false))
  {
    hide StringBody;
    var p := [QUOTE] + s + [QUOTE];
    AtBytes(text, i, p);
    var end := i + 1 + |s|;
    assert text[i + 0] == p[0] && text[i + (|s| + 1)] == p[|s| + 1];
    forall k | 0 <= k < |s| ensures text[i + 1..end][k] == s[k] { assert text[i + (k + 1)] == p[k + 1]; }
    assert text[i + 1..end] == s;
    StringReads(text, i + 1, end);
  }

  lemma PunctRead(text: Bytes, i: nat, vp: bool, p: byte)
    requires At(text, i, [p]) && PlainPunct(p) && Ends(Punct(p), text, i + 1)
    ensures NextToken(text, i, vp) == Some(Lexed(Punct(p), i + 1, p != RPAREN && p != 93))
  {
    AtBytes(text, i, [p]);
    assert text[i + 0] == p;
  }

  /** A piece written for a legible token is read as that token. */
  lemma PieceRead(text: Bytes, i: nat, vp: bool, names: map<Bytes, nat>, t: Tok) returns (vp': bool)
    requires Legible(t) && (Renamed(t) ==> t.name in names) && At(text, i, Piece(names, t)) && Ends(t, text, i + |Piece(names, t)|)
    ensures NextToken(text, i, vp) == Some(Lexed(Canon(names, t), i + |Piece(names, t)|, vp'))
  {
    hide At, NextToken, Canonical, ParseInt, IsKept, Dec, IsKeyword;
    match t {
      case Ident(name) =>
        if Renamed(t) { CanonicalWord(names[name]); }
        WordRead(text, i, vp, Piece(names, t));
        vp' := IsKeyword(Piece(names, t));
      case Num(num) =>
        NumberRead(text, i, vp, Dec(ParseInt(num).value));
        vp' := false;
      case Str(s) =>
        StringRead(text, i, vp, s);
        assert |[QUOTE] + s + [QUOTE]| == |s| + 2;
        vp' := false;
      case Punct(p) =>
        PunctRead(text, i, vp, p);
        vp' := p != RPAREN && p != 93;
    }
  }

  lemma CanonicalWord(k: nat)
    ensures Word(Canonical(k)) && Canonical(k)[0] == 110 && forall i :: 1 <= i < |Canonical(k)| ==> IsDigit(Canonical(k)[i])
  {
    hide Dec;
    var d := Dec(k);
    var p := Pad3(d);
    assert forall i :: 0 <= i < |p| ==> IsDigit(p[i]);
    assert Canonical(k) == [110] + p;
  }

  /** A space before a token is passed over. */
  lemma GapSkipped(text: Bytes, i: nat, vp: bool)
    requires i < |text| && text[i] == SP
    ensures NextToken(text, i, vp) == NextToken(text, i + 1, vp)
  {
    hide TokenAt;
  }

  // ---------------------------------------------------------------- one token written

  /** What a token adds to the output. */
  function Gap(out: Bytes, names: map<Bytes, nat>, t: Tok): Bytes
    requires Renamed(t) ==> t.name in names
  {
    if !t.Str? && Merge(out, Piece(names, t)) then [SP] else []
  }

  lemma NamedHas(names: map<Bytes, nat>, t: Tok)
    ensures Renamed(t) ==> t.name in Named(names, t)
  {}

  /** The first and last byte of a piece. */
  lemma PieceEdges(names: map<Bytes, nat>, t: Tok)
    requires Legible(t) && (Renamed(t) ==> t.name in names)
    ensures var p := Piece(names, t);
            && p != [] && (t.Ident? ==> IsIdentStart(p[0]) && IsIdentByte(Last(p)))
            && (t.Num? ==> IsDigit(p[0]) && IsDigit(Last(p))) && (t.Str? ==> p[0] == QUOTE) && (t.Punct? ==> p == [t.p])
  {
    hide IsKept, ParseInt, Canonical, Dec;
    if Renamed(t) { CanonicalWord(names[t.name]); }
  }

  /** What comes after a piece ends its token. */
  lemma NextEnds(names: map<Bytes, nat>, t: Tok, names': map<Bytes, nat>, u: Tok, out: Bytes, text: Bytes)
    requires Legible(t) && Legible(u) && Apart(t, u) && (Renamed(t) ==> t.name in names) && (Renamed(u) ==> u.name in names')
    requires out != [] && Last(out) == Last(Piece(names, t)) && Piece(names, t) != [] && At(text, |out|, Gap(out, names', u) + Piece(names', u))
    ensures Ends(t, text, |out|)
  {
    hide Piece, Renamed, ParseInt, At;
    PieceEdges(names, t);
    PieceEdges(names', u);
    var more := Gap(out, names', u) + Piece(names', u);
    AtBytes(text, |out|, more);
    assert text[|out| + 0] == more[0];
  }

  /** The output after each token: a beginning of the whole. */
  function After(ts: seq<Tok>, k: nat): Emitted
    requires k <= |ts|
  {
    EmitAll(NOTHING, ts[..k])
  }

  lemma AfterNext(ts: seq<Tok>, k: nat)
    requires k < |ts| && !EmitAll(NOTHING, ts).cut
    ensures !After(ts, k).cut && !After(ts, k + 1).cut
    ensures var e, t := After(ts, k), ts[k];
            var names := Named(e.names, t);
            && (Renamed(t) ==> t.name in names) && After(ts, k + 1).names == names
            && After(ts, k + 1).out == e.out + (Gap(e.out, names, t) + Piece(names, t))
  {
    hide EmitAll, Piece, Renamed, Merge;
    assert ts[..k + 1] == ts[..k] + [ts[k]];
    EmitSnoc(NOTHING, ts[..k], ts[k]);
    UncutBefore(ts, k);
    UncutBefore(ts, k + 1);
    NamedHas(After(ts, k).names, ts[k]);
    var e, t := After(ts, k), ts[k];
    var names := Named(e.names, t);
    Assoc(e.out, Gap(e.out, names, t), Piece(names, t));
  }

  lemma UncutBefore(ts: seq<Tok>, k: nat)
    requires k <= |ts| && !EmitAll(NOTHING, ts).cut
    ensures !After(ts, k).cut
  {
    hide EmitAll;
    if After(ts, k).cut { CutIsFinal(ts[..k], ts); }
  }

  /** Outputs and names only grow. */
  lemma {:induction false} AfterGrows(ts: seq<Tok>, k: nat)
    requires k <= |ts| && !EmitAll(NOTHING, ts).cut
    ensures After(ts, k).out <= EmitAll(NOTHING, ts).out
    ensures forall n :: n in After(ts, k).names ==> n in EmitAll(NOTHING, ts).names && EmitAll(NOTHING, ts).names[n] == After(ts, k).names[n]
    decreases |ts| - k
  {
    hide EmitAll, Piece, Merge, IsKept;
    if k < |ts| {
      AfterNext(ts, k);
      AfterGrows(ts, k + 1);
    } else {
      assert ts[..k] == ts;
    }
  }

  // ---------------------------------------------------------------- the whole output read

  /** The pieces of a token in the whole output. */
  lemma PieceAt(ts: seq<Tok>, k: nat)
    requires k < |ts| && !EmitAll(NOTHING, ts).cut
    ensures var e, t := After(ts, k), ts[k];
            var names, text := Named(e.names, t), EmitAll(NOTHING, ts).out;
            && (Renamed(t) ==> t.name in names) && At(text, |e.out|, Gap(e.out, names, t) + Piece(names, t))
            && |After(ts, k + 1).out| == |e.out| + |Gap(e.out, names, t)| + |Piece(names, t)|
            && (Piece(names, t) != [] ==> After(ts, k + 1).out != [] && Last(After(ts, k + 1).out) == Last(Piece(names, t)))
  {
    hide EmitAll, Piece, Renamed, Merge, Gap, Named;
    AfterNext(ts, k);
    AfterGrows(ts, k + 1);
    var e, t, text := After(ts, k), ts[k], EmitAll(NOTHING, ts).out;
    var more := Gap(e.out, Named(e.names, t), t) + Piece(Named(e.names, t), t);
    assert After(ts, k + 1).out == e.out + more;
    assert text[..|e.out + more|] == e.out + more;
    assert text[|e.out|..|e.out| + |more|] == more by { SliceOf(text, e.out, more); }
  }

  lemma SliceOf(text: Bytes, a: Bytes, b: Bytes)
    requires a + b <= text
    ensures text[|a|..|a| + |b|] == b
  {
    assert text[..|a + b|] == a + b;
    assert text[|a|..|a| + |b|] == text[..|a + b|][|a|..];
  }

  lemma TokenEnds(ts: seq<Tok>, k: nat)
    requires k < |ts| && AllLegible(ts) && (k + 1 < |ts| ==> Apart(ts[k], ts[k + 1])) && !EmitAll(NOTHING, ts).cut
    ensures Ends(ts[k], EmitAll(NOTHING, ts).out, |After(ts, k + 1).out|)
  {
    hide EmitAll, Piece, Renamed, Merge, Gap, Named, Legible, Ends, At, Apart;
    PieceAt(ts, k);
    var e, t, text := After(ts, k), ts[k], EmitAll(NOTHING, ts).out;
    PieceEdges(Named(e.names, t), t);
    if k + 1 < |ts| {
      PieceAt(ts, k + 1);
      var e', u := After(ts, k + 1), ts[k + 1];
      NextEnds(Named(e.names, t), t, Named(e'.names, u), u, e'.out, text);
    } else {
      assert ts[..k + 1] == ts;
      EndsAtEnd(t, text);
    }
  }

  lemma EndsAtEnd(t: Tok, text: Bytes)
    ensures Ends(t, text, |text|)
  {}

  /** From any token on, what is written reads as the rest of them. */
  lemma {:induction false} ReadsFrom(ts: seq<Tok>, k: nat, vp: bool)
    requires k <= |ts| && AllLegible(ts) && DotsApart(ts) && !EmitAll(NOTHING, ts).cut
    ensures |After(ts, k).out| <= |EmitAll(NOTHING, ts).out|
    ensures LexAll(EmitAll(NOTHING, ts).out, |After(ts, k).out|, vp) == CanonAll(EmitAll(NOTHING, ts).names, ts)[k..]
    decreases |ts| - k
  {
    hide EmitAll, Piece, Renamed, Merge, Gap, Named, Legible, Ends, At, LexAll, NextToken, Canon;
    AfterGrows(ts, k);
    var text, all := EmitAll(NOTHING, ts).out, CanonAll(EmitAll(NOTHING, ts).names, ts);
    if k == |ts| {
      assert ts[..k] == ts;
      NothingAfter(text, vp);
    } else {
      var vp' := TokenReads(ts, k, vp);
      ReadsFrom(ts, k + 1, vp');
      LexFirst(text, |After(ts, k).out|, vp, all[k], |After(ts, k + 1).out|, vp');
      assert all[k..] == [all[k]] + all[k + 1..];
    }
  }

  lemma NothingAfter(text: Bytes, vp: bool)
    ensures LexAll(text, |text|, vp) == []
  {}

  lemma LexFirst(text: Bytes, i: nat, vp: bool, t: Tok, next: nat, vp': bool)
    requires i <= |text| && NextToken(text, i, vp) == Some(Lexed(t, next, vp'))
    ensures next <= |text| && LexAll(text, i, vp) == [t] + LexAll(text, next, vp')
  {}

  /** The token at each place is the one written there. */
  lemma TokenReads(ts: seq<Tok>, k: nat, vp: bool) returns (vp': bool)
    requires k < |ts| && AllLegible(ts) && (k + 1 < |ts| ==> Apart(ts[k], ts[k + 1])) && !EmitAll(NOTHING, ts).cut
    ensures |After(ts, k).out| <= |EmitAll(NOTHING, ts).out|
    ensures NextToken(EmitAll(NOTHING, ts).out, |After(ts, k).out|, vp)
              == Some(Lexed(Canon(EmitAll(NOTHING, ts).names, ts[k]), |After(ts, k + 1).out|, vp'))
  {
    hide EmitAll, Piece, Merge, Named, Legible, Ends, At, NextToken, Canon, IsKept;
    var e, t, text := After(ts, k), ts[k], EmitAll(NOTHING, ts).out;
    var names := Named(e.names, t);
    PieceAt(ts, k);
    TokenEnds(ts, k);
    AfterGrows(ts, k);
    AfterNext(ts, k);
    AfterGrows(ts, k + 1);
    var gap, piece := Gap(e.out, names, t), Piece(names, t);
    var j := |e.out| + |gap|;
    AtParts(text, |e.out|, gap, piece);
    SameCanon(names, EmitAll(NOTHING, ts).names, t);
    vp' := PieceRead(text, j, vp, names, t);
    if gap != [] { GapSkipped(text, |e.out|, vp); }
  }

  /** A name written keeps its number. */
  lemma SameCanon(names: map<Bytes, nat>, all: map<Bytes, nat>, t: Tok)
    requires (Renamed(t) ==> t.name in names) && forall n :: n in names ==> n in all && all[n] == names[n]
    ensures Canon(names, t) == Canon(all, t)
  {
    hide Canonical, ParseInt, Dec;
  }

  // ---------------------------------------------------------------- where it does not read back

  /** A number, or a dot before one, runs on past its own end. */
  lemma ClashRead(text: Bytes, i: nat, vp: bool, t: Tok, piece: Bytes, u: Tok)
    requires !Apart(t, u) && piece != [] && At(text, i, piece) && i + |piece| < |text|
    requires t.Num? ==> (forall k :: 0 <= k < |piece| ==> IsDigit(piece[k])) && text[i + |piece|] == DOT
    requires t.Punct? ==> piece == [DOT] && IsDigit(text[i + 1])
    ensures NextToken(text, i, vp).Some? && NextToken(text, i, vp).value.tok.Num?
    ensures |NextToken(text, i, vp).value.tok.num| > |piece|
  {
    hide StringBody, RegexBodyEnd, FlagsEnd, IdentEnd, IsKeyword;
    AtBytes(text, i, piece);
    assert text[i + 0] == piece[0];
    if t.Num? {
      forall k | i <= k < i + |piece| ensures IsDigit(text[k]) { assert text[i + (k - i)] == piece[k - i]; }
      RunsPast(text, i + 1, i + |piece|);
    }
  }

  lemma {:induction false} RunsPast(text: Bytes, i: nat, end: nat)
    requires 1 <= i <= end < |text| && text[end] == DOT && forall k :: i - 1 <= k < end ==> IsDigit(text[k])
    ensures NumEnd(text, i) > end
    decreases end - i
  {
    if i < end { RunsPast(text, i + 1, end); }
  }

  /** A token that runs on into the next is read as some other. */
  lemma ClashMisread(ts: seq<Tok>, k: nat, vp: bool)
    requires k + 1 < |ts| && AllLegible(ts) && !Apart(ts[k], ts[k + 1]) && !EmitAll(NOTHING, ts).cut
    ensures |After(ts, k).out| <= |EmitAll(NOTHING, ts).out|
    ensures var r := NextToken(EmitAll(NOTHING, ts).out, |After(ts, k).out|, vp);
            r.Some? && r.value.tok != Canon(EmitAll(NOTHING, ts).names, ts[k])
  {
    hide EmitAll, Piece, Merge, Named, Legible, At, NextToken, IsKept, ParseInt;
    var e, t, u, text := After(ts, k), ts[k], ts[k + 1], EmitAll(NOTHING, ts).out;
    var names, names' := Named(e.names, t), Named(After(ts, k + 1).names, u);
    PieceAt(ts, k);
    PieceAt(ts, k + 1);
    AfterGrows(ts, k);
    var gap, piece := Gap(e.out, names, t), Piece(names, t);
    var gap', piece' := Gap(After(ts, k + 1).out, names', u), Piece(names', u);
    PieceEdges(names, t);
    ClashEdges(names, t, names', u, After(ts, k + 1).out);
    AfterGrows(ts, k + 1);
    AfterNext(ts, k);
    SameCanon(names, EmitAll(NOTHING, ts).names, t);
    AtParts(text, |e.out|, gap, piece);
    AtParts(text, |After(ts, k + 1).out|, gap', piece');
    ByteAt(text, |After(ts, k + 1).out|, piece', 0);
    ClashRead(text, |e.out| + |gap|, vp, t, piece, u);
    if gap != [] { GapSkipped(text, |e.out|, vp); }
  }

  /** No space is put between a number and a dot. */
  lemma ClashEdges(names: map<Bytes, nat>, t: Tok, names': map<Bytes, nat>, u: Tok, out: Bytes)
    requires Legible(t) && Legible(u) && (Renamed(t) ==> t.name in names) && (Renamed(u) ==> u.name in names')
    requires !Apart(t, u) && out != [] && Piece(names, t) != [] && Last(out) == Last(Piece(names, t))
    ensures Gap(out, names', u) == [] && Piece(names', u) != []
    ensures t.Num? ==> u == Punct(DOT) && Piece(names', u) == [DOT] && Piece(names, t) == Canon(names, t).num
                       && forall k :: 0 <= k < |Piece(names, t)| ==> IsDigit(Piece(names, t)[k])
    ensures t.Punct? ==> Piece(names, t) == [DOT] && IsDigit(Piece(names', u)[0])
  {
    hide ParseInt, Dec;
  }

  lemma {:induction false} MisreadFrom(ts: seq<Tok>, k: nat, at: nat, vp: bool)
    requires k <= at && at + 1 < |ts| && AllLegible(ts) && !Apart(ts[at], ts[at + 1]) && !EmitAll(NOTHING, ts).cut
    ensures |After(ts, k).out| <= |EmitAll(NOTHING, ts).out|
    ensures LexAll(EmitAll(NOTHING, ts).out, |After(ts, k).out|, vp) != CanonAll(EmitAll(NOTHING, ts).names, ts)[k..]
    decreases |ts| - k
  {
    hide EmitAll, Piece, Renamed, Merge, Gap, Named, Legible, Ends, At, LexAll, NextToken, Canon, Apart;
    AfterGrows(ts, k);
    var text, all := EmitAll(NOTHING, ts).out, CanonAll(EmitAll(NOTHING, ts).names, ts);
    assert all[k..] == [all[k]] + all[k + 1..];
    if !Apart(ts[k], ts[k + 1]) {
      ClashMisread(ts, k, vp);
      var r := NextToken(text, |After(ts, k).out|, vp).value;
      LexFirst(text, |After(ts, k).out|, vp, r.tok, r.next, r.valuePos);
      assert LexAll(text, |After(ts, k).out|, vp)[0] == r.tok && all[k..][0] == all[k];
    } else {
      var vp' := TokenReads(ts, k, vp);
      MisreadFrom(ts, k + 1, at, vp');
      LexFirst(text, |After(ts, k).out|, vp, all[k], |After(ts, k + 1).out|, vp');
      ConsDiffer(all[k], LexAll(text, |After(ts, k + 1).out|, vp'), all[k + 1..]);
    }
  }

  lemma ConsDiffer(t: Tok, a: seq<Tok>, b: seq<Tok>)
    requires a != b
    ensures [t] + a != [t] + b
  {
    assert a == ([t] + a)[1..] && b == ([t] + b)[1..];
  }

  // ---------------------------------------------------------------- the law

  /** Lexing what is written for legible tokens gives the tokens, under their canonical names and with
      their numbers in decimal, if and only if no dot stands beside a number. */
  lemma WrittenReadsBack(ts: seq<Tok>)
    requires AllLegible(ts) && !EmitAll(NOTHING, ts).cut
    ensures LexAll(EmitAll(NOTHING, ts).out, 0, true) == CanonAll(EmitAll(NOTHING, ts).names, ts) <==> DotsApart(ts)
  {
    hide EmitAll, Legible, LexAll, Canon, Apart;
    NothingYet(ts);
    var all := CanonAll(EmitAll(NOTHING, ts).names, ts);
    assert all[0..] == all;
    if DotsApart(ts) {
      ReadsFrom(ts, 0, true);
    } else {
      var at :| 0 <= at < |ts| - 1 && !Apart(ts[at], ts[at + 1]);
      MisreadFrom(ts, 0, at, true);
    }
  }

  lemma NothingYet(ts: seq<Tok>)
    ensures After(ts, 0) == NOTHING
  {}

  // ---------------------------------------------------------------- where the spaces are

  /** Every space stands between two bytes of words. */
  predicate SpacesBetween(out: Bytes) {
    forall i :: 0 <= i < |out| && out[i] == SP ==> 0 < i < |out| - 1 && IsIdentByte(out[i - 1]) && IsIdentByte(out[i + 1])
  }

  predicate NoStrings(ts: seq<Tok>) { forall i :: 0 <= i < |ts| ==> !ts[i].Str? }

  lemma PieceUnspaced(names: map<Bytes, nat>, t: Tok)
    requires Legible(t) && !t.Str? && (Renamed(t) ==> t.name in names)
    ensures forall i :: 0 <= i < |Piece(names, t)| ==> Piece(names, t)[i] != SP
  {
    hide IsKept, ParseInt, Canonical, Dec;
    if Renamed(t) { CanonicalWord(names[t.name]); }
  }

  lemma SpacesPush(out: Bytes, gap: Bytes, piece: Bytes)
    requires SpacesBetween(out) && piece != [] && (forall i :: 0 <= i < |piece| ==> piece[i] != SP)
    requires gap == (if Merge(out, piece) then [SP] else [])
    ensures SpacesBetween(out + (gap + piece))
  {}

  /** A space is written nowhere but where two words would run together. */
  lemma {:induction false} SpacesNeeded(ts: seq<Tok>)
    requires AllLegible(ts) && NoStrings(ts) && !EmitAll(NOTHING, ts).cut
    ensures SpacesBetween(EmitAll(NOTHING, ts).out)
    decreases |ts|
  {
    hide EmitAll, Legible, Piece, Renamed, Merge, Named;
    if ts == [] {
      NothingYet(ts);
      assert ts[..0] == ts;
    } else {
      var k := |ts| - 1;
      assert ts[..k + 1] == ts;
      AfterNext(ts, k);
      SpacesNeeded(ts[..k]);
      var names := Named(After(ts, k).names, ts[k]);
      PieceEdges(names, ts[k]);
      PieceUnspaced(names, ts[k]);
      SpacesPush(After(ts, k).out, Gap(After(ts, k).out, names, ts[k]), Piece(names, ts[k]));
    }
  }

  // ---------------------------------------------------------------- other tokens run together

  /** A number that ends in a dot and a number after it are written as one number: dots are not words, so
      no space is put between them. */
  lemma DotsRunTogether()
    ensures var ts := [Num([49, DOT]), Num([50])];
            EmitAll(NOTHING, ts).out == [49, DOT, 50] && LexAll([49, DOT, 50], 0, true) == [Num([49, DOT, 50])]
  {
    hide LexAll;
    var ts: seq<Tok> := [Num([49, DOT]), Num([50])];
    assert ts[1..] == [Num([50])] && [Num([50])][1..] == [];
    OneDot();
    DotNumber();
  }

  /** A slash and a regular expression after it are written as a comment, and read as nothing. */
  lemma SlashesRunTogether()
    ensures var ts := [Punct(SLASH), Regex([SLASH, 98, SLASH])];
            EmitAll(NOTHING, ts).out == [SLASH, SLASH, 98, SLASH] && LexAll([SLASH, SLASH, 98, SLASH], 0, true) == []
  {
    hide LexAll;
    var ts: seq<Tok> := [Punct(SLASH), Regex([SLASH, 98, SLASH])];
    assert ts[1..] == [Regex([SLASH, 98, SLASH])] && [Regex([SLASH, 98, SLASH])][1..] == [];
    var one := Emit(NOTHING, ts[0]);
    assert one.out == [SLASH] && Emit(one, ts[1]).out == [SLASH, SLASH, 98, SLASH];
    assert EmitAll(NOTHING, ts) == EmitAll(one, [ts[1]]) == EmitAll(Emit(one, ts[1]), []);
    CommentRead();
  }

  lemma CommentRead()
    ensures LexAll([SLASH, SLASH, 98, SLASH], 0, true) == []
  {
    var text: Bytes := [SLASH, SLASH, 98, SLASH];
    assert LineEnd(text, 4) == 4 && LineEnd(text, 3) == 4 && LineEnd(text, 2) == 4;
    assert TokenStart(text, 4) == 4;
  }

  lemma OneDot()
    ensures ParseInt([49, DOT]) == None && ParseInt([50]) == Some(2) && Dec(2) == [50]
  {
    var dotted: Bytes, dot: Bytes := [49, DOT], [DOT];
    assert dotted[1..] == dot && dot[1..] == [];
    assert DropUnderscores(dot) == dot && DropUnderscores(dotted) == dotted;
    assert FoldDigits(dot, 10, 1) == None && FoldDigits(dotted, 10, 0) == None;
    DecRoundTrip(2);
  }

  lemma DotNumber()
    ensures LexAll([49, DOT, 50], 0, true) == [Num([49, DOT, 50])]
  {
    var text: Bytes := [49, DOT, 50];
    assert NumEnd(text, 3) == 3 && NumEnd(text, 2) == 3 && NumEnd(text, 1) == 3;
    assert text[0..3] == text;
    NothingAfter(text, false);
  }
}
