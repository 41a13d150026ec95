/** The corner where batches can be seen: a script whose `eval` uncovers a string and a plus that the
    shipped batch has already written. */
module JsReach {
  import opened ByteSeq
  import opened JsText
  import opened JsLexer
  import opened JsReducer
  import opened JsInvariant
  import opened JsRewrite
  import opened JsSound
  import opened JsFold
  import opened JsEmit
  import opened JsRun
  import opened JsBatch
  import opened JsReading
  import opened JsScript
  import opened JsCorners

  const SEMICOLON: byte := 59
  const S := Held(Ident(STRING()), 0)
  const D := Held(Punct(DOT), 0)
  const E := Held(Ident(EVAL()), 0)
  const F := Held(Ident(FCC()), 1)
  const TEXT := Held(Str(FCC()), 0)
  const N := Held(Num([54, 54]), 0)
  const A := Held(Str([97]), 0)
  const PLUSES := Held(Punct(PLUS), 0)
  const B := Held(Str([66]), 1)

  lemma SixtySix()
    ensures ParseInt([54, 54]) == Some(66) && Chars([66]) == [66]
  {
    DecRoundTrip(66);
    assert Dec(6) == [54];
    assert Dec(66) == [54, 54];
    assert [66][1..] == [];
  }

  // ---------------------------------------------------------------- the steps, from `String.eval` on

  function EvalCall(pre: seq<Held>): seq<Call> { [Call(Eval, |pre| + 2, |pre| + 3, 0)] }

  /** The `eval`'s bracket, and then its text, after `pre` and `String.`. */
  function EvalOpen(w: seq<Tok>, pre: seq<Held>): State { State(w, pre + [S, D, E, OPEN], EvalCall(pre)) }
  function EvalText(w: seq<Tok>, pre: seq<Held>): State { State(w, pre + [S, D, E, OPEN, TEXT], EvalCall(pre)) }

  /** `String.fromCharCode` and its bracket, and then the code. */
  function CodesOpen(w: seq<Tok>, pre: seq<Held>, values: seq<nat>): State {
    State(w, pre + [S, D, F, OPEN], [Call(FromCharCode(values, values == []), |pre|, |pre| + 3, 1)])
  }

  lemma BracketStep(w: seq<Tok>, pre: seq<Held>)
    ensures Step(State(w, pre + [S, D, E], []), OPEN) == Pushed(EvalOpen(w, pre), None)
  {
    hide Callee, NamedString;
    Names(0);
    var held := pre + [S, D, E];
    assert held[|held| - 1] == E && held + [OPEN] == pre + [S, D, E, OPEN];
    assert [] + EvalCall(pre) == EvalCall(pre);
  }

  lemma TextStep(w: seq<Tok>, pre: seq<Held>)
    ensures Step(EvalOpen(w, pre), TEXT) == Pushed(EvalText(w, pre), None)
  {
    hide Take, Callee;
    StringAfterOpen(EvalOpen(w, pre), TEXT, |pre| + 3);
    assert pre + [S, D, E, OPEN] + [TEXT] == pre + [S, D, E, OPEN, TEXT];
  }

  lemma UnrollStep(w: seq<Tok>, pre: seq<Held>)
    ensures Step(EvalText(w, pre), CLOSE) == Pushed(State(w, pre + [S, D], []), Some(Inner(FCC(), 1)))
  {
    hide Take, PercentDecode;
    var u := EvalText(w, pre);
    assert Drop(u.held, |pre| + 4) == [TEXT] && Init(u.calls) == [] && Front(u.held, |pre| + 2) == pre + [S, D];
    UnrollIs(u, CLOSE);
  }

  lemma NameStep(w: seq<Tok>, pre: seq<Held>)
    ensures Step(State(w, pre + [S, D], []), F) == Pushed(State(w, pre + [S, D, F], []), None)
  {
    assert pre + [S, D] + [F] == pre + [S, D, F];
  }

  lemma CalleeStep(w: seq<Tok>, pre: seq<Held>)
    ensures Step(State(w, pre + [S, D, F], []), OPEN) == Pushed(CodesOpen(w, pre, []), None)
  {
    hide NamedString, NamedFcc, Callee;
    Names(0);
    Names(1);
    var held := pre + [S, D, F];
    assert held[|held| - 1] == F && held[|held| - 2] == D && held[|held| - 3] == S;
    assert held + [OPEN] == pre + [S, D, F, OPEN];
    assert [] + [Call(FromCharCode([], true), |pre|, |pre| + 3, 1)] == [Call(FromCharCode([], true), |pre|, |pre| + 3, 1)];
  }

  lemma CodeStep(w: seq<Tok>, pre: seq<Held>)
    ensures Step(CodesOpen(w, pre, []), N) == Pushed(CodesOpen(w, pre, [66]), None)
  {
    hide ParseInt;
    SixtySix();
    var u := CodesOpen(w, pre, []);
    assert [] + [66] == [66] && Init(u.calls) == [];
    assert [] + [Last(u.calls).(kind := FromCharCode([66], false))] == CodesOpen(w, pre, [66]).calls;
  }

  lemma CodesStep(w: seq<Tok>, pre: seq<Held>)
    ensures Step(CodesOpen(w, pre, [66]), CLOSE) == Pushed(State(w, Append(pre, B), []), None)
  {
    hide Append;
    SixtySix();
    var u := CodesOpen(w, pre, [66]);
    assert Drop(u.held, |pre| + 4) == [] && Front(u.held, |pre|) == pre && Init(u.calls) == [];
  }

  // ---------------------------------------------------------------- the same with a batch that is not reached

  predicate Short(pre: seq<Held>, p: Policy) { p.keep == 3 && |pre| + 1 < p.batch }

  lemma PushSteps(st: State, h: Held, p: Policy)
    requires Settled(Step(st, h).st, p.keep) < p.batch
    ensures Push(st, h, p.keep, p.batch) == Step(st, h)
  {
    hide Step, Settled;
  }

  /** `("fromCharCode")` read after `pre` and `String.eval`. */
  lemma EvalRead(w: seq<Tok>, pre: seq<Held>, p: Policy)
    requires Short(pre, p)
    ensures Push(EvalOpen(w, pre), TEXT, p.keep, p.batch) == Pushed(EvalText(w, pre), None)
    ensures Push(EvalText(w, pre), CLOSE, p.keep, p.batch) == Pushed(State(w, pre + [S, D], []), Some(Inner(FCC(), 1)))
  {
    hide Step, Push;
    TextStep(w, pre);
    UnrollStep(w, pre);
    PushSteps(EvalOpen(w, pre), TEXT, p);
    PushSteps(EvalText(w, pre), CLOSE, p);
  }

  /** `fromCharCode`, from the text of the `eval`. */
  lemma NameRead(w: seq<Tok>, pre: seq<Held>, p: Policy)
    requires Short(pre, p)
    ensures Push(State(w, pre + [S, D], []), F, p.keep, p.batch) == Pushed(State(w, pre + [S, D, F], []), None)
  {
    hide Step, Push;
    NameStep(w, pre);
    PushSteps(State(w, pre + [S, D], []), F, p);
  }

  /** The bracket after it. */
  lemma CalleeRead(w: seq<Tok>, pre: seq<Held>, p: Policy)
    requires Short(pre, p)
    ensures Push(State(w, pre + [S, D, F], []), OPEN, p.keep, p.batch) == Pushed(CodesOpen(w, pre, []), None)
  {
    hide Step, Push;
    CalleeStep(w, pre);
    PushSteps(State(w, pre + [S, D, F], []), OPEN, p);
  }

  /** The code, and the closing bracket. */
  lemma CodesRead(w: seq<Tok>, pre: seq<Held>, p: Policy)
    requires Short(pre, p)
    ensures Push(CodesOpen(w, pre, []), N, p.keep, p.batch) == Pushed(CodesOpen(w, pre, [66]), None)
    ensures Push(CodesOpen(w, pre, [66]), CLOSE, p.keep, p.batch) == Pushed(State(w, Append(pre, B), []), None)
  {
    hide Step, Push, Append;
    CodeStep(w, pre);
    CodesStep(w, pre);
    AppendSize(pre, B);
    PushSteps(CodesOpen(w, pre, []), N, p);
    PushSteps(CodesOpen(w, pre, [66]), CLOSE, p);
  }

  lemma AppendSize(held: seq<Held>, h: Held)
    ensures |Append(held, h)| <= |held| + 1
  {}

  // ---------------------------------------------------------------- the script

  function Semis(n: nat): seq<Tok> { seq(n, i => Punct(SEMICOLON)) }

  function SemisHeld(n: nat): seq<Held> { seq(n, i => Held(Punct(SEMICOLON), 0)) }

  /** `"a"+string.eval("fromcharcode")(66)`, and so many semicolons before it. */
  function Tail(): Bytes {
    ([QUOTE] + [97] + [QUOTE]) + ([PLUS] + ((STRING() + [DOT]) + ((EVAL() + [LPAREN]) + (([QUOTE] + FCC() + [QUOTE]) + ([RPAREN] + ([LPAREN] + ([54, 54] + [RPAREN])))))))
  }

  function Script(n: nat): Bytes { seq(n, i => SEMICOLON) + Tail() }

  function UpToEval(): seq<Tok> { [Str([97]), Punct(PLUS), Ident(STRING()), Punct(DOT), Ident(EVAL())] }

  function FromBracket(): seq<Tok> { [Punct(LPAREN), Str(FCC())] + ([Punct(RPAREN)] + [Punct(LPAREN), Num([54, 54]), Punct(RPAREN)]) }

  predicate PlainText(s: Bytes) { forall k :: 0 <= k < |s| ==> s[k] != QUOTE && s[k] != BACKSLASH && s[k] != NEWLINE && s[k] != RETURN }

  lemma {:induction false} PlainBody(text: Bytes, i: nat, s: Bytes)
    requires At(text, i, s + [QUOTE]) && PlainText(s)
    ensures StringBody(text, i, QUOTE) == (s, i + |s| + 1)
    decreases |s|
  {
    hide At;
    AtSplit(text, i, s, [QUOTE]);
    AtByte(text, i + |s|, QUOTE);
    if s != [] {
      assert s == [s[0]] + s[1..] && s + [QUOTE] == [s[0]] + (s[1..] + [QUOTE]);
      AtSplit(text, i, [s[0]], s[1..] + [QUOTE]);
      AtByte(text, i, s[0]);
      PlainBody(text, i + 1, s[1..]);
    }
  }

  lemma LexPlain(text: Bytes, i: nat, vp: bool, s: Bytes)
    requires At(text, i, [QUOTE] + s + [QUOTE]) && PlainText(s)
    ensures i < |text| && NextToken(text, i, vp) == Some(Lexed(Str(s), i + |s| + 2, false))
  {
    hide At, StringBody, PlainText, NextToken;
    assert [QUOTE] + s + [QUOTE] == [QUOTE] + (s + [QUOTE]);
    AtSplit(text, i, [QUOTE], s + [QUOTE]);
    AtByte(text, i, QUOTE);
    PlainBody(text, i + 1, s);
    QuoteStartsString(text, i, vp);
  }

  lemma LexTail(text: Bytes, i: nat, vp: bool)
    requires At(text, i, Tail()) && |text| == i + |Tail()|
    ensures LexAll(text, i, vp) == UpToEval() + FromBracket()
  {
    hide At, LexAll, NextToken, IsKeyword, NumWord;
    var t9: Bytes := [RPAREN];
    var t8 := [54, 54] + t9;
    var t7 := [LPAREN] + t8;
    var t6 := [RPAREN] + t7;
    var t5 := [QUOTE] + FCC() + [QUOTE] + t6;
    var t4 := EVAL() + [LPAREN] + t5;
    var t3 := STRING() + [DOT] + t4;
    var t2 := [PLUS] + t3;
    var i2 := i + 3;
    var i3 := i2 + 1;
    var i4 := i3 + 7;
    var i5 := i4 + 5;
    var i6 := i5 + 14;
    AtSplit(text, i, [QUOTE] + [97] + [QUOTE], t2);
    AtSplit(text, i2, [PLUS], t3);
    AtSplit(text, i3, STRING() + [DOT], t4);
    AtSplit(text, i4, EVAL() + [LPAREN], t5);
    AtSplit(text, i5, [QUOTE] + FCC() + [QUOTE], t6);
    LexClosing(text, i6);
    LettersOnly();
    LexPlain(text, i, vp, [97]);
    LexPunct(text, i2, false, PLUS);
    NotDigit(text, i4);
    LexName(text, i3, true, STRING(), DOT);
    LexName(text, i4, true, EVAL(), LPAREN);
    LexPlain(text, i5, true, FCC());
    LexCons(text, i5, true, Lexed(Str(FCC()), i6, false));
    LexCons(text, i2, false, Lexed(Punct(PLUS), i3, true));
    LexCons(text, i, vp, Lexed(Str([97]), i2, false));
  }

  lemma LettersOnly()
    ensures |STRING()| == 6 && |EVAL()| == 4 && |FCC()| == 12 && PlainText([97]) && PlainText(FCC())
    ensures (forall k :: 0 <= k < 6 ==> IsAlpha(STRING()[k])) && (forall k :: 0 <= k < 4 ==> IsAlpha(EVAL()[k])) && (forall k :: 0 <= k < 12 ==> IsAlpha(FCC()[k]))
  {}

  lemma NotDigit(text: Bytes, i: nat)
    requires At(text, i, EVAL() + [LPAREN])
    ensures i < |text| && !IsDigit(text[i])
  {
    assert text[i..i + |EVAL() + [LPAREN]|][0] == EVAL()[0] == 101;
  }

  lemma LexClosing(text: Bytes, i: nat)
    requires At(text, i, [RPAREN] + ([LPAREN] + ([54, 54] + [RPAREN]))) && |text| == i + 5
    ensures LexAll(text, i, false) == [Punct(RPAREN)] + [Punct(LPAREN), Num([54, 54]), Punct(RPAREN)]
  {
    hide At, LexAll, NextToken;
    AtSplit(text, i, [RPAREN], [LPAREN] + ([54, 54] + [RPAREN]));
    AtSplit(text, i + 1, [LPAREN], [54, 54] + [RPAREN]);
    AtSplit(text, i + 2, [54, 54], [RPAREN]);
    AtByte(text, i + 4, RPAREN);
    LexPunct(text, i, false, RPAREN);
    LexPunct(text, i + 1, false, LPAREN);
    LexNum(text, i + 2, true, [54, 54]);
    LexPunct(text, i + 4, false, RPAREN);
    LexEnd(text);
    LexCons(text, i, false, Lexed(Punct(RPAREN), i + 1, false));
    LexCons(text, i + 1, false, Lexed(Punct(LPAREN), i + 2, true));
    LexCons(text, i + 2, true, Lexed(Num([54, 54]), i + 4, false));
    LexCons(text, i + 4, false, Lexed(Punct(RPAREN), i + 5, false));
  }

  lemma {:induction false} LexSemis(n: nat, i: nat)
    requires i <= n
    ensures LexAll(Script(n), i, true) == Semis(n - i) + (UpToEval() + FromBracket())
    decreases n - i
  {
    hide LexAll, NextToken, Tail, UpToEval, FromBracket;
    var text := Script(n);
    if i == n {
      TailAt(n);
      LexTail(text, n, true);
      assert Semis(0) + (UpToEval() + FromBracket()) == UpToEval() + FromBracket();
    } else {
      LexSemis(n, i + 1);
      LexSemi(text, i);
      LexCons(text, i, true, Lexed(Punct(SEMICOLON), i + 1, true));
      assert Semis(n - i) == [Punct(SEMICOLON)] + Semis(n - i - 1);
      Assoc([Punct(SEMICOLON)], Semis(n - i - 1), UpToEval() + FromBracket());
    }
  }

  lemma TailAt(n: nat)
    ensures At(Script(n), n, Tail()) && |Script(n)| == n + |Tail()|
  {
    hide Tail;
  }

  lemma LexSemi(text: Bytes, i: nat)
    requires i < |text| && text[i] == SEMICOLON
    ensures NextToken(text, i, true) == Some(Lexed(Punct(SEMICOLON), i + 1, true))
  {}

  // ---------------------------------------------------------------- the run

  predicate Roomy(n: nat, p: Policy) { n >= 2 && p.keep == 3 && (p.batch == n + 1 || p.batch > n + 3) }

  lemma HoldPush(held: seq<Held>, h: Held, p: Policy)
    requires h.tok != Punct(LPAREN) && h.tok != Punct(RPAREN) && |held| <= p.batch + 4 && p.batch > 0
    requires h.tok.Str? ==> held != [] && Last(held) == Held(Punct(SEMICOLON), 0)
    ensures Push(State([], held, []), h, p.keep, p.batch) == Pushed(State([], held + [h], []), None)
  {}

  lemma {:induction false} SemisPushed(n: nat, i: nat, p: Policy)
    requires i <= n < p.batch
    ensures var st := State([], SemisHeld(i), []);
            PushAll(st, Semis(n - i), 0, p) == State([], SemisHeld(n), []) && Quiet(st, Semis(n - i), 0, p)
    decreases n - i
  {
    hide Push;
    if i < n {
      HoldPush(SemisHeld(i), Held(Punct(SEMICOLON), 0), p);
      assert SemisHeld(i) + [Held(Punct(SEMICOLON), 0)] == SemisHeld(i + 1);
      assert Semis(n - i)[1..] == Semis(n - i - 1);
      SemisPushed(n, i + 1, p);
    }
  }

  lemma UpToEvalPushed(n: nat, p: Policy)
    requires Roomy(n, p)
    ensures var st := State([], SemisHeld(n), []);
            PushAll(st, UpToEval(), 0, p) == State([], SemisHeld(n) + [A, PLUSES, S, D, E], []) && Quiet(st, UpToEval(), 0, p)
  {
    hide Push;
    var b := SemisHeld(n);
    HoldPush(b, A, p);
    HoldPush(b + [A], PLUSES, p);
    HoldPush(b + [A] + [PLUSES], S, p);
    HoldPush(b + [A] + [PLUSES] + [S], D, p);
    HoldPush(b + [A] + [PLUSES] + [S] + [D], E, p);
    assert b + [A] + [PLUSES] + [S] + [D] + [E] == b + [A, PLUSES, S, D, E];
    FivePushed(State([], b, []), A.tok, PLUSES.tok, S.tok, D.tok, E.tok, p);
  }

  lemma FivePushed(st: State, a: Tok, b: Tok, c: Tok, d: Tok, e: Tok, p: Policy)
    ensures var k, m := p.keep, p.batch;
            var q1 := Push(st, Held(a, 0), k, m);
            var q2 := Push(q1.st, Held(b, 0), k, m);
            var q3 := Push(q2.st, Held(c, 0), k, m);
            var q4 := Push(q3.st, Held(d, 0), k, m);
            var q5 := Push(q4.st, Held(e, 0), k, m);
            && PushAll(st, [a, b, c, d, e], 0, p) == q5.st
            && (q1.inner == q2.inner == q3.inner == q4.inner == q5.inner == None ==> Quiet(st, [a, b, c, d, e], 0, p))
  {
    hide Push, PushAll, Quiet;
    assert [a, b, c, d, e] == [a] + [b, c, d, e] && [b, c, d, e] == [b] + [c, d, e] && [c, d, e] == [c] + [d, e];
    assert [d, e] == [d] + [e] && [e] == [e] + [];
    PushFirst(st, a, [b, c, d, e], 0, p);
    var q1 := Push(st, Held(a, 0), p.keep, p.batch).st;
    PushFirst(q1, b, [c, d, e], 0, p);
    var q2 := Push(q1, Held(b, 0), p.keep, p.batch).st;
    PushFirst(q2, c, [d, e], 0, p);
    var q3 := Push(q2, Held(c, 0), p.keep, p.batch).st;
    PushFirst(q3, d, [e], 0, p);
    var q4 := Push(q3, Held(d, 0), p.keep, p.batch).st;
    PushFirst(q4, e, [], 0, p);
    PushFirst(Push(q4, Held(e, 0), p.keep, p.batch).st, e, [], 0, p);
  }

  /** What has been written when the `eval` opens, and what is held before `String.`. */
  function Gone(n: nat, p: Policy): seq<Tok> { if p.batch == n + 1 then Semis(n) + [A.tok] else [] }
  function Before(n: nat, p: Policy): seq<Held> { if p.batch == n + 1 then [PLUSES] else SemisHeld(n) + [A, PLUSES] }

  /** The bracket of the `eval`, which fills the batch of the first kind. */
  lemma BracketRead(n: nat, p: Policy)
    requires Roomy(n, p)
    ensures Push(State([], SemisHeld(n) + [A, PLUSES, S, D, E], []), OPEN, p.keep, p.batch) == Pushed(EvalOpen(Gone(n, p), Before(n, p)), None)
    ensures Short(Before(n, p), p)
  {
    hide Step, Toks;
    var pre := SemisHeld(n) + [A, PLUSES];
    assert SemisHeld(n) + [A, PLUSES, S, D, E] == pre + [S, D, E];
    BracketStep([], pre);
    var u := EvalOpen([], pre);
    if p.batch == n + 1 {
      assert Front(u.held, n + 1) == SemisHeld(n) + [A] && Drop(u.held, n + 1) == [PLUSES] + [S, D, E, OPEN];
      SemisToks(n);
      assert Settled(u, 3) == n + 1;
      assert WriteFront(u, n + 1) == EvalOpen(Gone(n, p), Before(n, p));
    }
  }

  lemma SemisToks(n: nat)
    ensures Toks(SemisHeld(n)) == Semis(n) && Toks(SemisHeld(n) + [A]) == Semis(n) + [A.tok]
  {}

  lemma ThreePushed(st: State, a: Tok, b: Tok, c: Tok, p: Policy)
    ensures var k, m := p.keep, p.batch;
            var q1 := Push(st, Held(a, 0), k, m);
            var q2 := Push(q1.st, Held(b, 0), k, m);
            var q3 := Push(q2.st, Held(c, 0), k, m);
            && PushAll(st, [a, b], 0, p) == q2.st && (q1.inner == q2.inner == None ==> Quiet(st, [a, b], 0, p))
            && PushAll(st, [a, b, c], 0, p) == q3.st && (q1.inner == q2.inner == q3.inner == None ==> Quiet(st, [a, b, c], 0, p))
  {
    hide Push, PushAll, Quiet;
    assert [a, b, c] == [a] + [b, c] && [b, c] == [b] + [c] && [c] == [c] + [] && [a, b] == [a] + [b] && [b] == [b] + [];
    PushFirst(st, a, [b, c], 0, p);
    PushFirst(st, a, [b], 0, p);
    var q1 := Push(st, Held(a, 0), p.keep, p.batch).st;
    PushFirst(q1, b, [c], 0, p);
    PushFirst(q1, b, [], 0, p);
    var q2 := Push(q1, Held(b, 0), p.keep, p.batch).st;
    PushFirst(q2, c, [], 0, p);
    PushFirst(Push(q2, Held(c, 0), p.keep, p.batch).st, c, [], 0, p);
  }

  lemma LexName0()
    ensures LexAll(FCC(), 0, true) == [Ident(FCC())]
  {
    hide LexAll, NextToken, FCC;
    LettersOnly();
    WordAlone(FCC());
    LexCons(FCC(), 0, true, Lexed(Ident(FCC()), |FCC()|, IsKeyword(FCC())));
    NothingMore(FCC(), IsKeyword(FCC()));
  }

  lemma NothingMore(text: Bytes, vp: bool)
    ensures LexAll(text, |text|, vp) == []
  {}

  lemma WordAlone(word: Bytes)
    requires word != [] && forall k :: 0 <= k < |word| ==> IsAlpha(word[k])
    ensures NextToken(word, 0, true) == Some(Lexed(Ident(word), |word|, IsKeyword(word)))
  {
    hide IsKeyword, IdentEnd;
    IdentToEnd(word, 1);
    assert word[0..|word|] == word && IsAlpha(word[0]);
  }

  lemma {:induction false} IdentToEnd(text: Bytes, i: nat)
    requires i <= |text| && forall k :: i <= k < |text| ==> IsIdentByte(text[k])
    ensures IdentEnd(text, i) == |text|
    decreases |text| - i
  {
    if i < |text| { IdentToEnd(text, i + 1); }
  }

  /** The run from the `eval`'s bracket to the end. */
  lemma RunFromBracket(n: nat, src: Source, p: Policy)
    requires Roomy(n, p) && src.i <= |src.data| && src.depth == 0 && Lexes(src) == FromBracket()
    requires var c := Config(State([], SemisHeld(n) + [A, PLUSES, S, D, E], []), [] + [src]); Good(c)
    ensures var c := Config(State([], SemisHeld(n) + [A, PLUSES, S, D, E], []), [] + [src]);
            RunAll(c, p) == State(Gone(n, p), Append(Before(n, p), B), [])
  {
    hide Push, Lexes, Ok, RunAll, Gone, Before, Short, Append, EvalOpen, EvalText, CodesOpen, Reading;
    var st := State([], SemisHeld(n) + [A, PLUSES, S, D, E], []);
    var w, pre := Gone(n, p), Before(n, p);
    BracketRead(n, p);
    EvalRead(w, pre, p);
    ThreePushed(st, OPEN.tok, TEXT.tok, CLOSE.tok, p);
    var rest := [Punct(LPAREN), Num([54, 54]), Punct(RPAREN)];
    var src1 := ReadAll(st, [], src, [OPEN.tok, TEXT.tok], [CLOSE.tok] + rest, p);
    var src2 := ReadOne(EvalText(w, pre), [], src1, CLOSE.tok, rest, p);
    assert [] + [src2] + Opened(Some(Inner(FCC(), 1))) == [src2] + [Inside()];
    InnerRead(w, pre, src2, p);
    RestRead(w, pre, src2, p);
  }

  /** What is read after the `eval`: its text, and then the rest of the script. */
  function Inside(): Source { Source(FCC(), 0, true, 1) }

  /** The text handed back. */
  lemma InnerRead(w: seq<Tok>, pre: seq<Held>, src: Source, p: Policy)
    requires Short(pre, p) && Good(Config(State(w, pre + [S, D], []), [src] + [Inside()]))
    ensures Good(Config(State(w, pre + [S, D, F], []), [src]))
    ensures RunAll(Config(State(w, pre + [S, D], []), [src] + [Inside()]), p) == RunAll(Config(State(w, pre + [S, D, F], []), [src]), p)
  {
    hide Push, Lexes, Ok, RunAll, Short, Append, CodesOpen, Reading;
    NameRead(w, pre, p);
    LexInner();
    assert [Ident(FCC())] + [] == [Ident(FCC())];
    var inner' := ReadOne(State(w, pre + [S, D], []), [src], Inside(), F.tok, [], p);
    assert [src] + [inner'] + [] == [src] + [inner'];
    ReadEnd(State(w, pre + [S, D, F], []), [src], inner', p);
  }

  /** The rest of the script. */
  lemma RestRead(w: seq<Tok>, pre: seq<Held>, src: Source, p: Policy)
    requires Short(pre, p) && src.i <= |src.data| && src.depth == 0 && Lexes(src) == [Punct(LPAREN), Num([54, 54]), Punct(RPAREN)]
    requires Good(Config(State(w, pre + [S, D, F], []), [src]))
    ensures RunAll(Config(State(w, pre + [S, D, F], []), [src]), p) == State(w, Append(pre, B), [])
  {
    hide Push, Lexes, Ok, RunAll, Short, Append, CodesOpen, Reading;
    CalleeRead(w, pre, p);
    CodesRead(w, pre, p);
    var st := State(w, pre + [S, D, F], []);
    ThreePushed(st, OPEN.tok, N.tok, CLOSE.tok, p);
    var ts := [OPEN.tok, N.tok, CLOSE.tok];
    assert ts + [] == ts && [] + [src] == [src];
    var end := ReadAll(st, [], src, ts, [], p);
    ReadEnd(State(w, Append(pre, B), []), [], end, p);
    RunDone(State(w, Append(pre, B), []), p);
  }

  lemma LexInner()
    ensures Lexes(Inside()) == [Ident(FCC())]
  {
    LexName0();
  }

  lemma RunDone(st: State, p: Policy)
    requires Good(Config(st, []))
    ensures RunAll(Config(st, []), p) == st
  {}

  lemma RunScript(n: nat, p: Policy)
    requires Roomy(n, p)
    ensures Good(Start(Script(n))) && RunAll(Start(Script(n)), p) == State(Gone(n, p), Append(Before(n, p), B), [])
  {
    hide Push, Ok, RunAll, Gone, Before, Append, LexAll, Script, FromBracket, UpToEval;
    StartGood(Script(n));
    LexSemis(n, 0);
    var src := Source(Script(n), 0, true, 0);
    assert [] + [src] == [src] && SemisHeld(0) == [];
    SemisPushed(n, 0, p);
    var src1 := ReadAll(EMPTY, [], src, Semis(n), UpToEval() + FromBracket(), p);
    UpToEvalPushed(n, p);
    var src2 := ReadAll(State([], SemisHeld(n), []), [], src1, UpToEval(), FromBracket(), p);
    RunFromBracket(n, src2, p);
  }

  // ---------------------------------------------------------------- what is written

  lemma FinishedAlone(w: seq<Tok>, held: seq<Held>)
    ensures Finished(State(w, held, [])) == w + Toks(held)
  {
    hide Toks;
    assert Drop(held, 0) == held && w + [] == w;
  }

  lemma Ends(n: nat, p: Policy)
    requires Roomy(n, p)
    ensures Finished(State(Gone(n, p), Append(Before(n, p), B), []))
              == if p.batch == n + 1 then Semis(n) + [Str([97]), Punct(PLUS), Str([66])] else Semis(n) + [Str([97, 66])]
  {
    hide Toks;
    FinishedAlone(Gone(n, p), Append(Before(n, p), B));
    if p.batch == n + 1 {
      assert Append([PLUSES], B) == [PLUSES, B];
      TwoToks(PLUSES, B);
    } else {
      var pre := SemisHeld(n) + [A, PLUSES];
      var ab := Held(Str([97, 66]), 0);
      assert [97] + [66] == [97, 66] && pre[..n] == SemisHeld(n) && pre[n] == A && pre[n + 1] == PLUSES;
      assert Append(pre, B) == pre[..n] + [ab];
      ToksAppend(SemisHeld(n), [ab]);
      OneTok(ab);
      SemisToks(n);
    }
  }

  lemma {:induction false} SemisEmitted(n: nat)
    requires n < MAX_OUTPUT
    ensures var e := EmitAll(NOTHING, Semis(n)); |e.out| == n && !e.cut && (n > 0 ==> Last(e.out) == SEMICOLON)
  {
    hide EmitAll;
    if n == 0 {
      EmitNone();
    } else {
      SemisEmitted(n - 1);
      assert Semis(n) == Semis(n - 1) + [Punct(SEMICOLON)];
      EmitSnoc(NOTHING, Semis(n - 1), Punct(SEMICOLON));
    }
  }

  lemma EmitNone()
    ensures EmitAll(NOTHING, Semis(0)) == NOTHING
  {}

  /** One token more, where nothing is a word. */
  lemma EmitGrows(ts: seq<Tok>, t: Tok)
    requires var e := EmitAll(NOTHING, ts); !e.cut && |e.out| < MAX_OUTPUT
    requires t.Str? || t == Punct(PLUS)
    ensures var e, e' := EmitAll(NOTHING, ts), EmitAll(NOTHING, ts + [t]);
            !e'.cut && |e'.out| == |e.out| + (if t.Str? then |t.s| + 2 else 1)
  {
    hide EmitAll;
    EmitSnoc(NOTHING, ts, t);
  }

  lemma Widths(n: nat)
    requires n + 7 < MAX_OUTPUT
    ensures |Clip(EmitAll(NOTHING, Semis(n) + [Str([97]), Punct(PLUS), Str([66])])).0| == n + 7
    ensures |Clip(EmitAll(NOTHING, Semis(n) + [Str([97, 66])])).0| == n + 4
  {
    hide EmitAll;
    SemisEmitted(n);
    var s := Semis(n);
    EmitGrows(s, Str([97, 66]));
    EmitGrows(s, Str([97]));
    EmitGrows(s + [Str([97])], Punct(PLUS));
    EmitGrows(s + [Str([97])] + [Punct(PLUS)], Str([66]));
    assert s + [Str([97])] + [Punct(PLUS)] + [Str([66])] == s + [Str([97]), Punct(PLUS), Str([66])];
  }

  /** 1023 semicolons and `"a"+string.eval("fromcharcode")(66)`: as shipped the string is written before
      the `eval` reduces and the call comes out beside it; with any batch that is not reached, joined. */
  lemma EvalSeesBatches(batch: nat)
    requires batch > FLUSH_BATCH + 2
    ensures Normalize(Script(FLUSH_BATCH - 1), SHIPPED) != Normalize(Script(FLUSH_BATCH - 1), Policy(KEEP_BEFORE_CALL, batch))
    ensures Good(Start(Script(FLUSH_BATCH - 1))) && !Clear(Start(Script(FLUSH_BATCH - 1)))
  {
    hide Normalize, RunAll, Clear, Script, Gone, Before, Append, Finished, EmitAll, Ok, Clip;
    var n, p := FLUSH_BATCH - 1, Policy(KEEP_BEFORE_CALL, batch);
    NormalizeIsWhole(Script(n), SHIPPED);
    NormalizeIsWhole(Script(n), p);
    RunScript(n, SHIPPED);
    RunScript(n, p);
    Ends(n, SHIPPED);
    Ends(n, p);
    Widths(n);
    if Clear(Start(Script(n))) { BatchingInvisible(Script(n), SHIPPED, p); }
  }
}
