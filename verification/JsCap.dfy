/** The open-call corner on a script: what is written is the writing of nothing that derives from it. */
module JsCap {
  import opened ByteSeq
  import opened JsText
  import opened JsLexer
  import opened JsReducer
  import opened JsInvariant
  import opened JsRewrite
  import opened JsFold
  import opened JsEmit
  import opened JsRun
  import opened JsBatch
  import opened JsScript
  import opened JsCorners

  // ---------------------------------------------------------------- the script

  function OpenText(name: Bytes): Bytes { name + [LPAREN] }

  /** `fromcharcode(eval(` and `k` times `unescape(`. */
  function DeepText(k: nat): Bytes {
    if k == 0 then OpenText(FCC()) + OpenText(EVAL()) else DeepText(k - 1) + OpenText(UNESCAPE())
  }

  function MoreText(): Bytes { OpenText(UNESCAPE()) + (([QUOTE] + Spelled([]) + [QUOTE]) + [RPAREN]) }

  function Script(): Bytes { DeepText(FULL) + MoreText() }

  lemma NamesAlpha()
    ensures |FCC()| == 12 && |EVAL()| == 4 && |UNESCAPE()| == 8
    ensures (forall k :: 0 <= k < 12 ==> IsAlpha(FCC()[k])) && (forall k :: 0 <= k < 4 ==> IsAlpha(EVAL()[k])) && (forall k :: 0 <= k < 8 ==> IsAlpha(UNESCAPE()[k]))
  {}

  lemma LexOpen(text: Bytes, i: nat, name: Bytes)
    requires At(text, i, OpenText(name)) && (name == FCC() || name == EVAL() || name == UNESCAPE())
    ensures i + |OpenText(name)| <= |text|
    ensures LexAll(text, i, true) == [Ident(name), Punct(LPAREN)] + LexAll(text, i + |OpenText(name)|, true)
  {
    hide LexAll, FCC, EVAL, UNESCAPE;
    NamesAlpha();
    LexName(text, i, true, name, LPAREN);
  }

  lemma {:induction false} LexDeep(text: Bytes, k: nat)
    requires At(text, 0, DeepText(k))
    ensures LexAll(text, 0, true) == Deep(k) + LexAll(text, |DeepText(k)|, true)
    decreases k
  {
    hide At, LexAll, FCC, EVAL, UNESCAPE, OpenText;
    if k == 0 {
      AtSplit(text, 0, OpenText(FCC()), OpenText(EVAL()));
      LexOpen(text, 0, FCC());
      LexOpen(text, |OpenText(FCC())|, EVAL());
      Assoc([Ident(FCC()), Punct(LPAREN)], [Ident(EVAL()), Punct(LPAREN)], LexAll(text, |DeepText(0)|, true));
      assert Deep(0) == [Ident(FCC()), Punct(LPAREN)] + [Ident(EVAL()), Punct(LPAREN)];
    } else {
      AtSplit(text, 0, DeepText(k - 1), OpenText(UNESCAPE()));
      LexDeep(text, k - 1);
      LexOpen(text, |DeepText(k - 1)|, UNESCAPE());
      Assoc(Deep(k - 1), [Ident(UNESCAPE()), Punct(LPAREN)], LexAll(text, |DeepText(k)|, true));
    }
  }

  lemma LexMore(text: Bytes, i: nat)
    requires At(text, i, MoreText()) && |text| == i + |MoreText()|
    ensures LexAll(text, i, true) == ONE_MORE
  {
    hide At, LexAll, NextToken, UNESCAPE, OpenText;
    var lit: Bytes := [QUOTE] + Spelled([]) + [QUOTE];
    var j := i + |OpenText(UNESCAPE())|;
    AtSplit(text, i, OpenText(UNESCAPE()), lit + [RPAREN]);
    AtSplit(text, j, lit, [RPAREN]);
    LexOpen(text, i, UNESCAPE());
    LexString(text, j, true, []);
    LexCons(text, j, true, Lexed(Str([]), j + 2, false));
    LexPunct(text, j + 2, false, RPAREN);
    LexCons(text, j + 2, false, Lexed(Punct(RPAREN), j + 3, false));
    LexEnd(text);
  }

  lemma ScriptLexes()
    ensures LexAll(Script(), 0, true) == Deep(FULL) + ONE_MORE
  {
    hide LexAll, DeepText, MoreText, Deep;
    var text := Script();
    assert text[0..|DeepText(FULL)|] == DeepText(FULL);
    assert text[|DeepText(FULL)|..|text|] == MoreText();
    LexDeep(text, FULL);
    LexMore(text, |DeepText(FULL)|);
  }

  // ---------------------------------------------------------------- its run

  /** Nothing but a closing bracket unrolls. */
  lemma {:induction false} NoClose(st: State, ts: seq<Tok>, more: seq<Tok>)
    requires (forall i :: 0 <= i < |ts| ==> ts[i] != Punct(RPAREN)) && NoEval(Feed(st, ts, 0), more, 0)
    ensures NoEval(st, ts + more, 0)
    decreases |ts|
  {
    hide Step, Unrolls;
    if ts == [] {
      assert ts + more == more;
    } else {
      var h := Held(ts[0], 0);
      assert (ts + more)[1..] == ts[1..] + more;
      OnlyCloseUnrolls(st, h);
      NoClose(Step(st, h).st, ts[1..], more);
    }
  }

  lemma OnlyCloseUnrolls(st: State, h: Held)
    requires h.tok != Punct(RPAREN)
    ensures Step(st, h).inner == None
  {
    hide Take, Open;
  }

  /** The last call is a decode, which unrolls nothing. */
  lemma LastIsDecode()
    ensures NoEval(Feed(EMPTY, Deep(FULL) + ONE_MORE[..3], 0), [Punct(RPAREN)], 0)
  {
    hide Step, Deep, DeepCalls, Feed, CapCalls;
    var u, h := Held(Ident(UNESCAPE()), 0), Holds(Deep(FULL), 0);
    DeepReached(FULL);
    CapOpens();
    var st0 := DeepState(FULL);
    var st1 := Step(st0, u).st;
    var st2 := Step(st1, OPEN).st;
    assert ONE_MORE[..3] == [u.tok, OPEN.tok, Str([])];
    FeedThree(st0, st1, st2, u, OPEN, Held(Str([]), 0), 0);
    FeedAppend(EMPTY, Deep(FULL), ONE_MORE[..3], 0);
    StringStep(Deep(FULL)[..2], h[2..] + [u], CapCalls());
    var st3 := Step(st2, Held(Str([]), 0)).st;
    CloseDecodeQuiet(st3);
  }

  lemma StringStep(w: seq<Tok>, held: seq<Held>, calls: seq<Call>)
    ensures var n, s := |held|, Held(Str([]), 0);
            var st := State(w, held + [OPEN], calls + [Call(Decode, n, n, 0)]);
            Step(st, s).st.calls == st.calls
  {
    hide Take;
    var n, s := |held|, Held(Str([]), 0);
    var st := State(w, held + [OPEN], calls + [Call(Decode, n, n, 0)]);
    StepIsTake(st, s);
    StringAfterOpen(st, s, n);
  }

  lemma CloseDecodeQuiet(st: State)
    requires st.calls != [] && Last(st.calls).kind == Decode
    ensures NoEval(st, [Punct(RPAREN)], 0)
  {
    hide Step;
    UnrollOnly(st, CLOSE);
    assert [Punct(RPAREN)][1..] == [];
  }

  lemma {:induction false} DeepNoClose(k: nat)
    ensures forall i :: 0 <= i < |Deep(k)| ==> Deep(k)[i] != Punct(RPAREN)
  {
    if k > 0 { DeepNoClose(k - 1); }
  }

  /** What is written for it, whatever the batches. */
  lemma ScriptRendered(p: Policy)
    requires p.keep >= 3
    ensures Normalize(Script(), p) == Clip(EmitAll(NOTHING, Deep(FULL) + [Ident(UNESCAPE()), Str([])]))
  {
    hide Deep, Script, Normalize, EmitAll, Finished, Feed, NoEval, LexAll;
    ScriptLexes();
    LastIsDecode();
    DeepNoClose(FULL);
    var ts := Deep(FULL) + ONE_MORE[..3];
    assert ts + [Punct(RPAREN)] == Deep(FULL) + ONE_MORE;
    NoClose(EMPTY, ts, [Punct(RPAREN)]);
    NormalizeIsFeed(Script(), p);
    CapLosesBrackets();
  }

  // ---------------------------------------------------------------- what is written

  lemma Kept()
    ensures IsKept(FCC()) && IsKept(EVAL()) && IsKept(UNESCAPE())
  {
    hide KeepIdents;
    AlreadyLower("fromcharcode");
    AlreadyLower("eval");
    AlreadyLower("unescape");
    var k := KeptIndex();
    KeptAt(k);
    KeptAt(0);
    KeptAt(1);
  }

  lemma KeptIndex() returns (k: nat)
    ensures |KeepIdents()| > 1 && KeepIdents()[0] == "eval" && KeepIdents()[1] == "unescape"
    ensures k < |KeepIdents()| && KeepIdents()[k] == "fromcharcode"
  {
    k := 7;
  }

  lemma KeptAt(k: nat)
    requires k < |KeepIdents()| && LowerAll(Ascii(KeepIdents()[k])) == Ascii(KeepIdents()[k])
    ensures IsKept(Ascii(KeepIdents()[k]))
  {
    hide KeepIdents, IsKeyword;
  }

  /** One kept name, bracket or empty string more: so many bytes, and a space at most. */
  lemma EmitShort(ts: seq<Tok>, t: Tok)
    requires var e := EmitAll(NOTHING, ts); !e.cut && |e.out| < MAX_OUTPUT
    requires t == Punct(LPAREN) || t == Punct(RPAREN) || t == Str([]) || (t.Ident? && IsKept(t.name) && |t.name| <= 12)
    ensures var e, e' := EmitAll(NOTHING, ts), EmitAll(NOTHING, ts + [t]);
            && !e'.cut && |e.out| <= |e'.out| <= |e.out| + 13
            && (t.Punct? ==> |e'.out| == |e.out| + 1) && (t.Str? ==> |e'.out| == |e.out| + 2)
  {
    hide EmitAll, IsKept;
    EmitSnoc(NOTHING, ts, t);
  }

  lemma {:induction false} DeepEmitted(k: nat)
    requires k <= FULL
    ensures var e := EmitAll(NOTHING, Deep(k)); !e.cut && |e.out| <= 13 * (2 * k + 4)
    decreases k
  {
    hide EmitAll, IsKept, FCC, EVAL, UNESCAPE;
    Kept();
    NamesAlpha();
    if k == 0 {
      EmitNothing();
      var f, e: Tok := Ident(FCC()), Ident(EVAL());
      assert [] + [f] == [f] && [f] + [Punct(LPAREN)] + [e] + [Punct(LPAREN)] == Deep(0);
      EmitShort([], f);
      EmitShort([f], Punct(LPAREN));
      EmitShort([f] + [Punct(LPAREN)], e);
      EmitShort([f] + [Punct(LPAREN)] + [e], Punct(LPAREN));
    } else {
      var u: Tok := Ident(UNESCAPE());
      DeepEmitted(k - 1);
      EmitShort(Deep(k - 1), u);
      EmitShort(Deep(k - 1) + [u], Punct(LPAREN));
      assert Deep(k - 1) + [u] + [Punct(LPAREN)] == Deep(k);
    }
  }

  lemma EmitNothing()
    ensures EmitAll(NOTHING, []) == NOTHING
  {}

  /** The three ways to end it are of different lengths. */
  lemma EndsDiffer()
    ensures var d, u := Deep(FULL), Ident(UNESCAPE());
            var a, b, c := EmitAll(NOTHING, d + [u, Str([])]), EmitAll(NOTHING, d + ONE_MORE), EmitAll(NOTHING, d + [Str([])]);
            |a.out| < |b.out| < MAX_OUTPUT && |c.out| < |a.out|
  {
    hide EmitAll, IsKept, UNESCAPE, Deep;
    var d, u: Tok := Deep(FULL), Ident(UNESCAPE());
    Kept();
    NamesAlpha();
    DeepEmitted(FULL);
    EmitShort(d, Str([]));
    NameLonger(d);
    EmitShort(d + [u], Str([]));
    EmitShort(d + [u], Punct(LPAREN));
    EmitShort(d + [u] + [Punct(LPAREN)], Str([]));
    EmitShort(d + [u] + [Punct(LPAREN)] + [Str([])], Punct(RPAREN));
    assert d + [u] + [Str([])] == d + [u, Str([])];
    assert d + [u] + [Punct(LPAREN)] + [Str([])] + [Punct(RPAREN)] == d + ONE_MORE;
  }

  lemma NameLonger(ts: seq<Tok>)
    requires var e := EmitAll(NOTHING, ts); !e.cut && |e.out| < MAX_OUTPUT
    ensures var e, e' := EmitAll(NOTHING, ts), EmitAll(NOTHING, ts + [Ident(UNESCAPE())]);
            !e'.cut && |e.out| + 8 <= |e'.out| <= |e.out| + 9
  {
    hide EmitAll, IsKept, UNESCAPE;
    Kept();
    NamesAlpha();
    EmitSnoc(NOTHING, ts, Ident(UNESCAPE()));
  }

  /** On this script the rendering is not the writing of any tokens that derive from it. */
  lemma CapIsNoDerivation(p: Policy, toks: seq<Tok>)
    requires p.keep >= 3 && Derives(LexAll(Script(), 0, true), toks)
    ensures Normalize(Script(), p) != Clip(EmitAll(NOTHING, toks))
    ensures Good(Start(Script())) && !NeverMisplaces(Start(Script()), p)
  {
    hide Derives, Deep, Script, Normalize, EmitAll, LexAll, NeverMisplaces, Good, UNESCAPE;
    ScriptLexes();
    CapDerives(toks);
    ScriptRendered(p);
    EndsDiffer();
    Unsound(p);
  }

  /** So its run takes the step that soundness excludes. */
  lemma Unsound(p: Policy)
    requires p.keep >= 3
    ensures Good(Start(Script())) && !NeverMisplaces(Start(Script()), p)
  {
    hide Derives, Deep, Script, Normalize, EmitAll, LexAll, NeverMisplaces, Ok, UNESCAPE;
    StartGood(Script());
    if NeverMisplaces(Start(Script()), p) {
      NormalizeSound(Script(), p);
      var toks :| Derives(LexAll(Script(), 0, true), toks) && Normalize(Script(), p) == Clip(EmitAll(NOTHING, toks));
      ScriptLexes();
      CapDerives(toks);
      ScriptRendered(p);
      EndsDiffer();
      assert false;
    }
  }
}
