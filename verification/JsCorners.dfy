/** The corner where a run is no derivation: a call opened at the cap. */
module JsCorners {
  import opened ByteSeq
  import opened JsText
  import opened JsLexer
  import opened JsReducer
  import opened JsInvariant
  import opened JsRewrite
  import opened JsSound
  import opened JsFold
  import opened JsRun

  function FCC(): Bytes { Ascii("fromcharcode") }
  function EVAL(): Bytes { Ascii("eval") }
  function UNESCAPE(): Bytes { Ascii("unescape") }
  function STRING(): Bytes { Ascii("string") }

  lemma AlreadyLower(s: string)
    requires s == "fromcharcode" || s == "eval" || s == "unescape" || s == "string"
    ensures LowerAll(Ascii(s)) == Ascii(s)
  {
    forall i | 0 <= i < |s| ensures !IsUpper(Ascii(s)[i]) {}
  }

  /** The four names and what each starts. */
  lemma Names(d: nat)
    requires d < MAX_EVAL_DEPTH
    ensures NamedFcc(Held(Ident(FCC()), d)) && NamedEval(Held(Ident(EVAL()), d)) && NamedDecode(Held(Ident(UNESCAPE()), d))
    ensures NamedString(Held(Ident(STRING()), d)) && !NamedString(Held(Ident(UNESCAPE()), d))
    ensures Callee(Held(Ident(FCC()), d)) == Some(FromCharCode([], true))
    ensures Callee(Held(Ident(EVAL()), d)) == Some(Eval) && Callee(Held(Ident(UNESCAPE()), d)) == Some(Decode)
    ensures UNESCAPE() != EVAL()
  {
    AlreadyLower("fromcharcode");
    AlreadyLower("eval");
    AlreadyLower("unescape");
    AlreadyLower("string");
    assert |FCC()| == 12 && |EVAL()| == 4 && |UNESCAPE()| == 8 && |STRING()| == 6;
    assert |Ascii("decodeuricomponent")| == 18 && |Ascii("decodeuri")| == 9;
  }

  const OPEN := Held(Punct(LPAREN), 0)
  const CLOSE := Held(Punct(RPAREN), 0)

  lemma TwoToks(x: Held, y: Held)
    ensures Toks([x, y]) == [x.tok, y.tok]
  {}

  // ---------------------------------------------------------------- a call opened at the cap

  /** `fromCharCode(eval(` and `k` times `unescape(`. */
  function Deep(k: nat): seq<Tok> {
    if k == 0 then [Ident(FCC()), Punct(LPAREN), Ident(EVAL()), Punct(LPAREN)]
    else Deep(k - 1) + [Ident(UNESCAPE()), Punct(LPAREN)]
  }

  lemma {:induction false} DeepLen(k: nat)
    ensures |Deep(k)| == 2 * k + 4
  {
    if k > 0 { DeepLen(k - 1); }
  }

  function DeepCalls(k: nat): (r: seq<Call>)
    ensures |r| == k + 2
  {
    if k == 0 then [Call(FromCharCode([], true), 0, 1, 0), Call(Eval, 2, 3, 0)]
    else DeepCalls(k - 1) + [Call(Decode, 2 * k + 2, 2 * k + 3, 0)]
  }

  function DeepState(k: nat): State { State([], Holds(Deep(k), 0), DeepCalls(k)) }

  /** Nothing is held after the last bracket, and the last call takes a string. */
  lemma DeepReady(k: nat)
    requires Ok(DeepState(k))
    ensures Ready(DeepState(k))
  {
    hide Ok, Deep, DeepCalls;
    DeepLen(k);
    DeepEnd(k);
  }

  lemma DeepEnd(k: nat)
    ensures Last(Deep(k)) == Punct(LPAREN) && |Deep(k)| == 2 * k + 4
    ensures Last(DeepCalls(k)).open == 2 * k + 3 && !Last(DeepCalls(k)).kind.FromCharCode?
    ensures DeepCalls(k)[0] == Call(FromCharCode([], true), 0, 1, 0)
  {
    DeepLen(k);
    if k > 0 { DeepEnd(k - 1); }
  }

  lemma HoldsAppend(a: seq<Tok>, b: seq<Tok>, d: nat)
    ensures Holds(a + b, d) == Holds(a, d) + Holds(b, d)
  {}

  lemma DeepStart()
    ensures Feed(EMPTY, Deep(0), 0) == DeepState(0) && Ok(DeepState(0))
  {
    hide Step, NamedFcc, NamedString, Callee, Ok;
    Names(0);
    EmptyReady();
    var f, e := Held(Ident(FCC()), 0), Held(Ident(EVAL()), 0);
    FccFed(EMPTY, None, FCC(), 0);
    var one := Holds(CalleeToks(None, FCC()), 0);
    assert one == [f] && EMPTY.held + one == [f];
    OpenCall(EMPTY, one, FromCharCode([], true), OPEN);
    var c := Call(FromCharCode([], true), 0, 1, 0);
    var st2 := State([], [f, OPEN], [c]);
    assert [] + one + [OPEN] == [f, OPEN] && [] + [c] == [c];
    EvalInCodes(f, e, c);
    FeedOne(State([], [f], []), OPEN.tok, 0);
    FeedOne(st2, e.tok, 0);
    FeedOne(State([], [f, OPEN, e], [c]), OPEN.tok, 0);
    var ts := Deep(0);
    assert ts == [f.tok] + ([OPEN.tok] + ([e.tok] + [OPEN.tok])) && CalleeToks(None, FCC()) == [f.tok];
    FeedAppend(EMPTY, [f.tok], [OPEN.tok] + ([e.tok] + [OPEN.tok]), 0);
    FeedAppend(State([], [f], []), [OPEN.tok], [e.tok] + [OPEN.tok], 0);
    FeedAppend(st2, [e.tok], [OPEN.tok], 0);
    assert Holds(ts, 0) == [f, OPEN, e, OPEN];
  }

  /** `eval(` right after a `fromCharCode`'s bracket. */
  lemma EvalInCodes(f: Held, e: Held, c: Call)
    requires e == Held(Ident(EVAL()), 0) && c == Call(FromCharCode([], true), 0, 1, 0) && Ok(State([], [f, OPEN], [c]))
    ensures Step(State([], [f, OPEN], [c]), e).st == State([], [f, OPEN, e], [c])
    ensures Step(State([], [f, OPEN, e], [c]), OPEN).st == State([], [f, OPEN, e, OPEN], [c, Call(Eval, 2, 3, 0)])
    ensures Ok(State([], [f, OPEN, e, OPEN], [c, Call(Eval, 2, 3, 0)]))
  {
    hide Callee, NamedString, Ok;
    Names(0);
    var st := State([], [f, OPEN], [c]);
    assert [f, OPEN] + [e] == [f, OPEN, e];
    assert Drop([f, OPEN, e], 2) == [e];
    var st' := State([], [f, OPEN, e], [c]);
    StepOk(st, e);
    assert [f, OPEN, e] + [OPEN] == [f, OPEN, e, OPEN] && [c] + [Call(Eval, 2, 3, 0)] == [c, Call(Eval, 2, 3, 0)];
    StepOk(st', OPEN);
  }

  lemma DeepMore(k: nat)
    requires Ready(DeepState(k)) && k + 2 < MAX_OPEN_CALLS
    ensures Feed(DeepState(k), [Ident(UNESCAPE()), Punct(LPAREN)], 0) == DeepState(k + 1) && Ok(DeepState(k + 1))
  {
    hide Step, NamedDecode, Callee, Ok, Ready, CalleeBehind, Deep;
    Names(0);
    DeepLen(k);
    var st, u := DeepState(k), Held(Ident(UNESCAPE()), 0);
    DecodeFed(st, u);
    OpenCall(st, [u], Decode, OPEN);
    FeedOne(st, u.tok, 0);
    FeedOne(st.(held := st.held + [u]), OPEN.tok, 0);
    assert [u.tok, OPEN.tok] == [u.tok] + [OPEN.tok];
    FeedAppend(st, [u.tok], [OPEN.tok], 0);
    DeepNext(k);
    assert Holds([u.tok, OPEN.tok], 0) == [u, OPEN];
    HoldsAppend(Deep(k), [u.tok, OPEN.tok], 0);
    assert st.held + [u] + [OPEN] == st.held + [u, OPEN];
  }

  lemma DeepNext(k: nat)
    ensures Deep(k + 1) == Deep(k) + [Ident(UNESCAPE()), Punct(LPAREN)]
    ensures DeepCalls(k + 1) == DeepCalls(k) + [Call(Decode, 2 * k + 4, 2 * k + 5, 0)]
  {}

  /** Up to the cap, each bracket opens one more call. */
  lemma {:induction false} DeepReached(k: nat)
    requires k + 2 <= MAX_OPEN_CALLS
    ensures Feed(EMPTY, Deep(k), 0) == DeepState(k) && Ready(DeepState(k))
  {
    hide Ok, Ready, Step, DeepState;
    if k == 0 {
      DeepStart();
    } else {
      DeepReached(k - 1);
      DeepMore(k - 1);
      FeedAppend(EMPTY, Deep(k - 1), [Ident(UNESCAPE()), Punct(LPAREN)], 0);
    }
    DeepReady(k);
  }

  /** With no `fromCharCode` open the tokens are the held ones. */
  lemma {:induction false} WeavePlain(held: seq<Held>, calls: seq<Call>)
    requires forall i :: 0 <= i < |calls| ==> !calls[i].kind.FromCharCode?
    ensures Weave(held, calls, 0) == Toks(held)
    decreases |calls|
  {
    if calls == [] {
      assert Drop(held, 0) == held;
    } else {
      WeavePlain(held, calls[1..]);
    }
  }

  lemma {:induction false} DeepKinds(k: nat)
    ensures forall i :: 1 <= i < |DeepCalls(k)| ==> !DeepCalls(k)[i].kind.FromCharCode?
  {
    if k > 0 { DeepKinds(k - 1); }
  }

  /** `fromCharCode(eval(` and as many `unescape(` as fill the open calls. */
  const FULL: nat := MAX_OPEN_CALLS - 2

  /** What one more `unescape("")` should have added, as tokens. */
  const ONE_MORE: seq<Tok> := [Ident(UNESCAPE()), Punct(LPAREN), Str([]), Punct(RPAREN)]

  /** The calls left when the outermost goes, and what they stand for. */
  function CapCalls(): seq<Call> { Shift(DeepCalls(FULL)[1..], 2) }

  lemma CapCallsPlain()
    ensures |CapCalls()| == MAX_OPEN_CALLS - 1
    ensures forall i :: 0 <= i < |CapCalls()| ==> !CapCalls()[i].kind.FromCharCode?
    ensures Last(CapCalls()).open == 2 * FULL + 1 && Last(CapCalls()).kind == Decode
  {
    hide DeepCalls;
    DeepKinds(FULL);
    DeepLast(FULL);
  }

  lemma DeepLast(k: nat)
    requires k > 0
    ensures |DeepCalls(k)| == k + 2 && Last(DeepCalls(k)) == Call(Decode, 2 * k + 2, 2 * k + 3, 0)
  {}

  /** The bracket at the cap: the call's start is put at its bracket, past its callee. */
  lemma CapOpens()
    ensures var u, h := Held(Ident(UNESCAPE()), 0), Holds(Deep(FULL), 0);
            var st := DeepState(FULL).(held := h + [u]);
            && Step(DeepState(FULL), u).st == st && |h| == 2 * FULL + 4
            && Step(st, OPEN).st == State(Deep(FULL)[..2], h[2..] + [u] + [OPEN], CapCalls() + [Call(Decode, |h| - 1, |h| - 1, 0)])
  {
    hide Deep, DeepCalls, NamedDecode, Callee, Ready, Ok;
    Names(0);
    DeepReached(FULL);
    DeepLen(FULL);
    DeepEnd(FULL);
    DeepLast(FULL);
    var u, h := Held(Ident(UNESCAPE()), 0), Holds(Deep(FULL), 0);
    DecodeFed(DeepState(FULL), u);
    var st := DeepState(FULL).(held := h + [u]);
    assert Drop(st.held, 2) == h[2..] + [u];
    assert Toks(Front(st.held, 2)) == Deep(FULL)[..2];
    assert CodeToks([], true) == [] && [] + Deep(FULL)[..2] + [] == Deep(FULL)[..2];
    assert GiveUpOutermost(st) == State(Deep(FULL)[..2], h[2..] + [u], CapCalls());
  }

  /** The string and the closing bracket: the call reduces, and its callee stays. */
  lemma CapCloses(w: seq<Tok>, h: seq<Held>, calls: seq<Call>)
    requires calls != [] && (forall i :: 0 <= i < |calls| ==> !calls[i].kind.FromCharCode?)
    requires h != [] && Last(calls).open + 1 == |h|
    ensures var u, n := Held(Ident(UNESCAPE()), 0), |h| + 1;
            var st := State(w, h + [u] + [OPEN], calls + [Call(Decode, n, n, 0)]);
            Finished(Step(Step(st, Held(Str([]), 0)).st, CLOSE).st) == w + Toks(h) + [u.tok, Str([])]
  {
    hide NamedString, Callee, Toks, WeaveFront, Weave, Step, Take, Finished, View;
    var u, s := Held(Ident(UNESCAPE()), 0), Held(Str([]), 0);
    CapString(w, h + [u], calls);
    CapNotPossible(w, h, calls);
    var end := State(w, h + [u] + [s], calls);
    GiveUpAllView(end);
    GiveUpAllView(GiveUpAll(end));
    WeaveEnd(end);
    assert h + [u] + [s] == h + [u, s];
    ToksAppend(h, [u, s]);
    TwoToks(u, s);
    Assoc(w, Toks(h), [u.tok, s.tok]);
  }

  lemma WeaveEnd(st: State)
    requires forall i :: 0 <= i < |st.calls| ==> !st.calls[i].kind.FromCharCode?
    ensures View(st) == st.written + Toks(st.held)
  {
    hide Weave, Toks;
    WeavePlain(st.held, st.calls);
  }

  /** The misplaced call takes its string and closes, leaving everything before its bracket. */
  lemma CapString(w: seq<Tok>, held: seq<Held>, calls: seq<Call>)
    ensures var n, s := |held|, Held(Str([]), 0);
            var st := State(w, held + [OPEN], calls + [Call(Decode, n, n, 0)]);
            Step(Step(st, s).st, CLOSE).st == Take(State(w, held, calls), s)
  {
    hide Take;
    var n, s := |held|, Held(Str([]), 0);
    var c := Call(Decode, n, n, 0);
    var st := State(w, held + [OPEN], calls + [c]);
    var st1 := st.(held := held + [OPEN] + [s]);
    StepIsTake(st, s);
    StringAfterOpen(st, s, n);
    assert Drop(st1.held, n + 1) == [s];
    assert Init(st1.calls) == calls && Front(st1.held, n) == held;
    assert PercentDecode([]) == [];
  }

  lemma StringAfterOpen(st: State, s: Held, n: nat)
    requires s.tok.Str? && st.calls != [] && !Last(st.calls).kind.FromCharCode? && Last(st.calls).open == n && |st.held| == n + 1
    requires st.held[n].tok == Punct(LPAREN)
    ensures Take(st, s) == st.(held := st.held + [s])
  {
    assert Append(st.held, s) == st.held + [s];
    assert Drop(st.held + [s], n + 1) == [s] && [s][PrefixLen([s])..] == [];
  }

  /** A string right after a callee in an argument: nothing can reduce any more. */
  lemma CapNotPossible(w: seq<Tok>, h: seq<Held>, calls: seq<Call>)
    requires calls != [] && !Last(calls).kind.FromCharCode? && Last(calls).open + 1 == |h|
    ensures var u, s := Held(Ident(UNESCAPE()), 0), Held(Str([]), 0);
            Take(State(w, h + [u], calls), s) == GiveUpAll(State(w, h + [u] + [s], calls))
  {
    hide NamedString, Callee, GiveUpAll;
    Names(0);
    var u, s := Held(Ident(UNESCAPE()), 0), Held(Str([]), 0);
    assert Append(h + [u], s) == h + [u] + [s];
    assert Drop(h + [u] + [s], |h|) == [u, s];
    assert !StringArgPossible([u, s]) by { assert [u, s][0..] == [u, s]; }
  }

  /** One more `unescape("")` than the cap allows loses its brackets and keeps its callee. */
  lemma CapLosesBrackets()
    ensures Finished(Feed(EMPTY, Deep(FULL) + ONE_MORE, 0)) == Deep(FULL) + [Ident(UNESCAPE()), Str([])]
  {
    hide Step, Deep, DeepCalls, Finished, Toks;
    var u, h := Held(Ident(UNESCAPE()), 0), Holds(Deep(FULL), 0);
    DeepReached(FULL);
    CapOpens();
    CapCallsPlain();
    CapCloses(Deep(FULL)[..2], h[2..], CapCalls());
    var st0 := DeepState(FULL);
    var st1 := Step(st0, u).st;
    var st2 := Step(st1, OPEN).st;
    var st3 := Step(st2, Held(Str([]), 0)).st;
    FeedOne(st3, CLOSE.tok, 0);
    FeedThree(st0, st1, st2, u, OPEN, Held(Str([]), 0), 0);
    assert ONE_MORE == [u.tok, OPEN.tok, Str([])] + [CLOSE.tok];
    FeedAppend(st0, [u.tok, OPEN.tok, Str([])], [CLOSE.tok], 0);
    FeedAppend(EMPTY, Deep(FULL), ONE_MORE, 0);
    HoldsToks(Deep(FULL));
    assert Deep(FULL)[..2] + Deep(FULL)[2..] == Deep(FULL);
  }

  lemma HoldsToks(ts: seq<Tok>)
    ensures |ts| >= 2 ==> Toks(Holds(ts, 0)[2..]) == ts[2..]
  {}

  // ---------------------------------------------------------------- and that is no derivation

  predicate Plain(ts: seq<Tok>) { forall i :: 0 <= i < |ts| ==> ts[i].Ident? || ts[i] == Punct(LPAREN) }

  lemma {:induction false} DeepPlain(k: nat)
    ensures Plain(Deep(k))
  {
    if k > 0 { DeepPlain(k - 1); }
  }

  lemma ListEndsInNum(values: seq<nat>)
    requires values != []
    ensures ListToks(values) != [] && Last(ListToks(values)).Num?
  {}

  /** A rule needs two strings, a closing bracket or a number. */
  lemma RuleNeeds(lhs: seq<Tok>, rhs: seq<Tok>)
    requires Rule(lhs, rhs)
    ensures lhs != []
    ensures || (exists i, j :: 0 <= i < j < |lhs| && lhs[i].Str? && lhs[j].Str?)
            || (|lhs| == 1 && lhs[0].Num?)
            || (|lhs| == 4 && lhs[2].Str? && Last(lhs) == Punct(RPAREN) && (DecodeRule(lhs, rhs) || EvalRule(lhs, rhs)))
            || (|lhs| >= 2 && Last(lhs) == Punct(RPAREN) && lhs[|lhs| - 2].Num?)
  {
    hide LexAll, PercentDecode, NameIs, FccCallee;
    if CharCodeRule(lhs, rhs) {
      var callee, values :| CharCodeCall(lhs, callee, values);
      ListEndsInNum(values);
      var list := ListToks(values);
      assert lhs[|lhs| - 2] == Last(list);
    }
  }

  lemma Inside(a: seq<Tok>, pre: seq<Tok>, lhs: seq<Tok>, post: seq<Tok>, i: nat)
    requires a == pre + lhs + post && i < |lhs|
    ensures |pre| + i < |a| && a[|pre| + i] == lhs[i]
  {}

  lemma NoStepFromString(d: seq<Tok>, s: Bytes, b: seq<Tok>)
    requires Plain(d)
    ensures !OneStep(d + [Str(s)], b)
  {
    hide Rule;
    var a := d + [Str(s)];
    if OneStep(a, b) {
      var pre, lhs, rhs, post :| Rewrites(a, b, pre, lhs, rhs, post);
      RuleNeeds(lhs, rhs);
      forall i | 0 <= i < |lhs| ensures a[|pre| + i] == lhs[i] { Inside(a, pre, lhs, post, i); }
      assert false;
    }
  }

  lemma OnlyStep(d: seq<Tok>, b: seq<Tok>)
    requires Plain(d) && OneStep(d + ONE_MORE, b)
    ensures b == d + [Str([])]
  {
    hide Rule, EvalRule, DecodeRule, UNESCAPE;
    var a := d + ONE_MORE;
    var pre, lhs, rhs, post :| Rewrites(a, b, pre, lhs, rhs, post);
    RuleNeeds(lhs, rhs);
    forall i | 0 <= i < |lhs| ensures |pre| + i < |a| && a[|pre| + i] == lhs[i] { Inside(a, pre, lhs, post, i); }
    var n := |d|;
    assert a[n] == Ident(UNESCAPE()) && a[n + 1] == Punct(LPAREN) && a[n + 2] == Str([]) && a[n + 3] == Punct(RPAREN);
    assert Last(lhs) == Punct(RPAREN);
    assert |pre| + |lhs| == n + 4;
    assert |lhs| == 4 && |pre| == n && post == [];
    assert lhs == ONE_MORE;
    LastRule(rhs);
    assert pre == d by { assert a[..n] == d && a[..n] == pre; }
  }

  lemma LastRule(rhs: seq<Tok>)
    requires DecodeRule(ONE_MORE, rhs) || EvalRule(ONE_MORE, rhs)
    ensures rhs == [Str([])]
  {
    hide LexAll;
    Names(0);
    AlreadyLower("unescape");
    assert PercentDecode([]) == [];
  }

  /** All that derives from it: itself, and the last call reduced. */
  lemma CapDerives(r: seq<Tok>)
    requires Derives(Deep(FULL) + ONE_MORE, r)
    ensures r == Deep(FULL) + ONE_MORE || r == Deep(FULL) + [Str([])]
  {
    hide OneStep, Deep;
    DeepPlain(FULL);
    var d := Deep(FULL);
    var n: nat :| DerivesIn(d + ONE_MORE, r, n);
    if n > 0 {
      var c :| OneStep(d + ONE_MORE, c) && DerivesIn(c, r, n - 1);
      OnlyStep(d, c);
      if n > 1 {
        var e :| OneStep(c, e) && DerivesIn(e, r, n - 2);
        NoStepFromString(d, [], e);
        assert false;
      }
    }
  }
}
