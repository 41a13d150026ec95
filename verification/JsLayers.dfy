/** Unrolling is invisible: a script wrapped in `eval("...")`, up to as many times as layers are
    unrolled, is normalised exactly as the script itself. */
module JsLayers {
  import opened ByteSeq
  import opened JsText
  import opened JsLexer
  import opened JsReducer
  import opened JsInvariant
  import opened JsRewrite
  import opened JsEmit
  import opened JsRun
  import opened JsBatch
  import opened JsReading
  import opened JsScript

  // ---------------------------------------------------------------- one layer further in

  function Up(h: Held): Held { h.(depth := h.depth + 1) }

  function Ups(held: seq<Held>): (r: seq<Held>)
    ensures |r| == |held|
  {
    seq(|held|, i requires 0 <= i < |held| => Up(held[i]))
  }

  function UpCalls(calls: seq<Call>): (r: seq<Call>)
    ensures |r| == |calls|
  {
    seq(|calls|, i requires 0 <= i < |calls| => calls[i].(depth := calls[i].depth + 1))
  }

  function UpState(st: State): State { State(st.written, Ups(st.held), UpCalls(st.calls)) }

  function UpSources(sources: seq<Source>): (r: seq<Source>)
    ensures |r| == |sources|
  {
    seq(|sources|, i requires 0 <= i < |sources| => sources[i].(depth := sources[i].depth + 1))
  }

  function UpInner(inner: Option<Inner>): Option<Inner> {
    if inner.None? then None else Some(inner.value.(depth := inner.value.depth + 1))
  }

  function UpPushed(q: Pushed): Pushed { Pushed(UpState(q.st), UpInner(q.inner)) }

  /** An `eval` that starts a call here, and one layer further in too. */
  predicate Low(h: Held, m: nat) { NamedEval(h) ==> h.depth < m }

  predicate AllLow(held: seq<Held>, m: nat) { forall i :: 0 <= i < |held| ==> Low(held[i], m) }

  lemma CalleeUp(h: Held, m: nat)
    requires Low(h, m) && m < MAX_EVAL_DEPTH
    ensures Callee(Up(h)) == Callee(h)
    ensures NamedString(Up(h)) == NamedString(h) && NamedFcc(Up(h)) == NamedFcc(h) && IsDot(Up(h)) == IsDot(h) && IsPlus(Up(h)) == IsPlus(h)
  {
    hide SameName;
  }

  lemma NamesUp(h: Held)
    ensures NamedString(Up(h)) == NamedString(h) && NamedFcc(Up(h)) == NamedFcc(h) && IsDot(Up(h)) == IsDot(h) && IsPlus(Up(h)) == IsPlus(h)
  {}

  lemma UpsSlices(held: seq<Held>, n: nat)
    ensures Ups(Front(held, n)) == Front(Ups(held), n) && Ups(Drop(held, n)) == Drop(Ups(held), n) && Toks(Ups(held)) == Toks(held)
  {}

  lemma UpsPush(held: seq<Held>, h: Held)
    ensures Ups(held + [h]) == Ups(held) + [Up(h)]
  {}

  lemma AppendUp(held: seq<Held>, h: Held)
    ensures Append(Ups(held), Up(h)) == Ups(Append(held, h))
  {
    var n := |held|;
    if h.tok.Str? && n >= 1 && held[n - 1].tok.Str? {
      assert Ups(held)[..n - 1] == Ups(held[..n - 1]);
      UpsPush(held[..n - 1], Held(Str(held[n - 1].tok.s + h.tok.s), held[n - 1].depth));
    } else if h.tok.Str? && n >= 2 && IsPlus(held[n - 1]) && held[n - 2].tok.Str? {
      assert Ups(held)[..n - 2] == Ups(held[..n - 2]);
      UpsPush(held[..n - 2], Held(Str(held[n - 2].tok.s + h.tok.s), held[n - 2].depth));
    } else {
      UpsPush(held, h);
    }
  }

  lemma ArgUp(kind: Kind, arg: seq<Held>, m: nat)
    requires AllLow(arg, m) && m < MAX_EVAL_DEPTH
    ensures ArgPossible(kind, Ups(arg)) == ArgPossible(kind, arg) && Reducible(kind, Ups(arg)) == Reducible(kind, arg)
  {
    hide Callee, NamedString, NamedFcc;
    forall i | 0 <= i < |arg|
      ensures Callee(Up(arg[i])) == Callee(arg[i]) && NamedString(Up(arg[i])) == NamedString(arg[i]) && NamedFcc(Up(arg[i])) == NamedFcc(arg[i])
    {
      CalleeUp(arg[i], m);
    }
    var n := PrefixLen(arg);
    assert PrefixLen(Ups(arg)) == n;
    assert Ups(arg)[n..] == Ups(arg[n..]);
  }

  lemma {:induction false} WeaveUp(held: seq<Held>, calls: seq<Call>, from: nat)
    ensures WeaveFront(Ups(held), UpCalls(calls), from) == WeaveFront(held, calls, from) && CutAt(UpCalls(calls), from) == CutAt(calls, from)
    decreases |calls|
  {
    hide Toks, CodeToks;
    if calls != [] {
      assert UpCalls(calls)[1..] == UpCalls(calls[1..]);
      SliceUp(held, from, calls[0].open + 1);
      WeaveUp(held, calls[1..], calls[0].open + 1);
      WeaveUp(held, calls[1..], from);
    }
  }

  lemma SliceUp(held: seq<Held>, from: nat, end: nat)
    ensures Toks(Slice(Ups(held), from, end)) == Toks(Slice(held, from, end))
  {
    UpsSlices(held, end);
    UpsSlices(Front(held, end), from);
    UpsSlices(Slice(held, from, end), 0);
  }

  lemma GiveUpAllUp(st: State)
    ensures GiveUpAll(UpState(st)) == UpState(GiveUpAll(st)) && Finished(UpState(st)) == Finished(st)
  {
    hide WeaveFront, CutAt, Toks;
    WeaveUp(st.held, st.calls, 0);
    UpsSlices(st.held, CutAt(st.calls, 0));
    UpsSlices(GiveUpAll(st).held, 0);
    assert UpCalls([]) == [];
  }

  lemma WriteFrontUp(st: State, n: nat)
    ensures WriteFront(UpState(st), n) == UpState(WriteFront(st, n))
  {
    UpsSlices(st.held, n);
    UpsSlices(Front(st.held, n), 0);
    assert Shift(UpCalls(st.calls), Min(n, |st.held|)) == UpCalls(Shift(st.calls, Min(n, |st.held|)));
  }

  lemma GiveUpOutermostUp(st: State)
    ensures GiveUpOutermost(UpState(st)) == UpState(GiveUpOutermost(st))
  {
    hide WriteFront, CodeToks;
    if st.calls != [] {
      assert UpCalls(st.calls)[1..] == UpCalls(st.calls[1..]);
      WriteFrontUp(st.(calls := st.calls[1..]), st.calls[0].open + 1);
    }
  }

  // ---------------------------------------------------------------- one token

  lemma LastUp(calls: seq<Call>)
    requires calls != []
    ensures Last(UpCalls(calls)) == Last(calls).(depth := Last(calls).depth + 1) && Init(UpCalls(calls)) == UpCalls(Init(calls))
  {}

  lemma UpCallsPush(calls: seq<Call>, c: Call)
    ensures UpCalls(calls + [c]) == UpCalls(calls) + [c.(depth := c.depth + 1)]
  {}

  lemma TakeUp(st: State, h: Held, m: nat)
    requires AllLow(st.held, m) && Low(h, m) && m < MAX_EVAL_DEPTH
    ensures Take(UpState(st), Up(h)) == UpState(Take(st, h))
  {
    hide Ups, UpCalls, Append, ArgPossible, GiveUpAll, ParseInt, Low;
    AppendUp(st.held, h);
    AppendLow(st.held, h, m);
    if st.calls != [] {
      LastUp(st.calls);
      var held, o := Append(st.held, h), Last(st.calls).open + 1;
      UpsSlices(held, o);
      DropLow(held, o, m);
      ArgUp(Last(st.calls).kind, Drop(held, o), m);
      GiveUpAllUp(st.(held := held));
      var k := Absorbed(st, h);
      if k.Some? { UpCallsPush(Init(st.calls), Last(st.calls).(kind := k.value)); }
    } else {
      assert UpCalls([]) == [];
    }
  }

  lemma AppendLow(held: seq<Held>, h: Held, m: nat)
    requires AllLow(held, m) && Low(h, m)
    ensures AllLow(Append(held, h), m)
  {
    hide SameName;
  }

  lemma DropLow(held: seq<Held>, n: nat, m: nat)
    requires AllLow(held, m)
    ensures AllLow(Drop(held, n), m) && AllLow(Front(held, n), m)
  {}

  lemma CalleeBehindUp(held: seq<Held>, m: nat)
    requires AllLow(held, m) && m < MAX_EVAL_DEPTH
    ensures CalleeBehind(Ups(held)) == CalleeBehind(held)
  {
    hide Callee, NamedString, Low;
    var n := |held|;
    if n > 0 {
      assert Low(held[n - 1], m);
      CalleeUp(held[n - 1], m);
      if n >= 3 {
        NamesUp(held[n - 2]);
        NamesUp(held[n - 3]);
      }
    }
  }

  lemma OpenUp(st: State, h: Held, m: nat)
    requires AllLow(st.held, m) && m < MAX_EVAL_DEPTH
    ensures Open(UpState(st), Up(h)) == UpState(Open(st, h))
  {
    hide UpCalls, CalleeBehind, GiveUpAll, GiveUpOutermost, AllLow;
    CalleeBehindUp(st.held, m);
    match CalleeBehind(st.held) {
      case Some(found) =>
        GiveUpOutermostUp(st);
        var st' := if |st.calls| == MAX_OPEN_CALLS then GiveUpOutermost(st) else st;
        UpsPush(st'.held, h);
        CalleeSome(st.held);
        UpCallsPush(st'.calls, Call(found.0, Min(found.1, |st'.held|), |st'.held|, Last(st.held).depth));
      case None =>
        GiveUpAllUp(st);
        UpsPush(GiveUpAll(st).held, h);
    }
  }

  lemma CalleeSome(held: seq<Held>)
    requires CalleeBehind(held).Some?
    ensures held != []
  {}

  lemma CloseUp(st: State, h: Held, m: nat)
    requires AllLow(st.held, m) && Low(h, m) && m < MAX_EVAL_DEPTH && st.calls != []
    ensures Close(UpState(st), Up(h)) == UpPushed(Close(st, h))
  {
    hide Ups, UpCalls, Append, GiveUpAll, Take, PercentDecode, Reducible, AllLow, Low;
    var c := Last(st.calls);
    LastUp(st.calls);
    UpsSlices(st.held, c.open + 1);
    UpsSlices(st.held, c.start);
    DropLow(st.held, c.open + 1, m);
    DropLow(st.held, c.start, m);
    var arg := Drop(st.held, c.open + 1);
    ArgUp(c.kind, arg, m);
    if Reducible(c.kind, arg) {
      CloseReduces(st, h, m);
    } else {
      GiveUpAllUp(st);
      AppendUp(GiveUpAll(st).held, h);
    }
  }

  lemma CloseReduces(st: State, h: Held, m: nat)
    requires AllLow(st.held, m) && m < MAX_EVAL_DEPTH && st.calls != []
    requires Reducible(Last(st.calls).kind, Drop(st.held, Last(st.calls).open + 1))
    requires Reducible(Last(st.calls).kind, Ups(Drop(st.held, Last(st.calls).open + 1)))
    ensures Close(UpState(st), Up(h)) == UpPushed(Close(st, h))
  {
    hide Ups, UpCalls, GiveUpAll, Append, Take, PercentDecode, Reducible, AllLow, Low;
    var c := Last(st.calls);
    LastUp(st.calls);
    UpsSlices(st.held, c.open + 1);
    UpsSlices(st.held, c.start);
    DropLow(st.held, c.start, m);
    ReducedUp(st, State(st.written, Front(st.held, c.start), Init(st.calls)), c, Drop(st.held, c.open + 1), m);
  }

  /** The value of a reduced call, one layer further in. */
  lemma ReducedUp(st: State, left: State, c: Call, arg: seq<Held>, m: nat)
    requires Reducible(c.kind, arg) && AllLow(left.held, m) && m < MAX_EVAL_DEPTH
    ensures c.kind.FromCharCode? ==>
              Take(UpState(left), Held(Str(Chars(c.kind.values)), c.depth + 1)) == UpState(Take(left, Held(Str(Chars(c.kind.values)), c.depth)))
    ensures !c.kind.FromCharCode? ==> arg != [] && Ups(arg)[0] == Up(arg[0])
    ensures c.kind.Decode? ==>
              Take(UpState(left), Held(Str(PercentDecode(arg[0].tok.s)), c.depth + 1)) == UpState(Take(left, Held(Str(PercentDecode(arg[0].tok.s)), c.depth)))
  {
    hide Take, PercentDecode, AllLow;
    match c.kind {
      case FromCharCode(values, _) =>
        TakeUp(left, Held(Str(Chars(values)), c.depth), m);
      case Decode =>
        TakeUp(left, Held(Str(PercentDecode(arg[0].tok.s)), c.depth), m);
      case Eval =>
    }
  }

  lemma StepUp(st: State, h: Held, m: nat)
    requires AllLow(st.held, m) && Low(h, m) && m < MAX_EVAL_DEPTH
    ensures Step(UpState(st), Up(h)) == UpPushed(Step(st, h))
  {
    hide Ups, Take, Open, Close, AllLow, Low;
    if h.tok == Punct(LPAREN) {
      OpenUp(st, h, m);
    } else if h.tok == Punct(RPAREN) && st.calls != [] {
      CloseUp(st, h, m);
    } else {
      TakeUp(st, h, m);
    }
  }

  lemma FlushUp(st: State, p: Policy)
    ensures Flush(UpState(st), p.keep, p.batch) == UpState(Flush(st, p.keep, p.batch))
  {
    hide WriteFront;
    WriteFrontUp(st, Settled(st, p.keep));
  }

  lemma PushUp(st: State, h: Held, m: nat, p: Policy)
    requires AllLow(st.held, m) && Low(h, m) && m < MAX_EVAL_DEPTH
    ensures Push(UpState(st), Up(h), p.keep, p.batch) == UpPushed(Push(st, h, p.keep, p.batch))
  {
    hide Step, Flush, AllLow, Low;
    StepUp(st, h, m);
    FlushUp(Step(st, h).st, p);
  }

  // ---------------------------------------------------------------- where the `eval` calls are

  lemma TakeLow(st: State, h: Held, m: nat)
    requires AllLow(st.held, m) && Low(h, m)
    ensures AllLow(Take(st, h).held, m)
  {
    hide Low, Append, ArgPossible, Absorbed;
    AppendLow(st.held, h, m);
  }

  lemma StringLow(s: Bytes, d: nat, m: nat)
    ensures Low(Held(Str(s), d), m)
  {}

  lemma CloseLow(st: State, h: Held, m: nat)
    requires AllLow(st.held, m) && Low(h, m) && st.calls != []
    ensures AllLow(Close(st, h).st.held, m)
  {
    hide Low, Append, Take, PercentDecode, Reducible;
    var c := Last(st.calls);
    var left := State(st.written, Front(st.held, c.start), Init(st.calls));
    var arg := Drop(st.held, c.open + 1);
    if Reducible(c.kind, arg) {
      if !c.kind.FromCharCode? { ArgString(c.kind, arg); }
      var v := if c.kind.FromCharCode? then Chars(c.kind.values) else PercentDecode(arg[0].tok.s);
      StringLow(v, c.depth, m);
      TakeLow(left, Held(Str(v), c.depth), m);
    } else {
      AppendLow(GiveUpAll(st).held, h, m);
    }
  }

  lemma ArgString(kind: Kind, arg: seq<Held>)
    requires Reducible(kind, arg) && !kind.FromCharCode?
    ensures |arg| == 1 && arg[0].tok.Str?
  {}

  lemma OpenLow(st: State, h: Held, m: nat)
    requires AllLow(st.held, m) && Low(h, m)
    ensures AllLow(Open(st, h).held, m)
  {
    hide Low, CalleeBehind;
  }

  lemma PushLow(st: State, h: Held, m: nat, p: Policy)
    requires AllLow(st.held, m) && Low(h, m)
    ensures AllLow(Push(st, h, p.keep, p.batch).st.held, m)
  {
    hide Low, Take, Open, Close, AllLow;
    TakeLow(st, h, m);
    OpenLow(st, h, m);
    if st.calls != [] { CloseLow(st, h, m); }
    DropLow(Step(st, h).st.held, Settled(Step(st, h).st, p.keep), m);
  }

  // ---------------------------------------------------------------- a run, one layer further in

  /** Every `eval` a run reads is less than `m` layers in. */
  ghost predicate LowRun(c: Config, p: Policy, m: nat)
    requires Good(c)
    decreases Potential(c), Unread(c.sources), |c.sources|
  {
    c.sources != [] ==>
      && (var src := Last(c.sources);
          var t := NextToken(src.data, src.i, src.valuePos);
          t.Some? ==> Low(Held(t.value.tok, src.depth), m))
      && (AdvanceGood(c, p); AdvanceDecreases(c, p);
          LowRun(Advance(c, p), p, m))
  }

  /** The same run one layer further in, above a text already read. */
  function Under(done: Source, c: Config): Config { Config(UpState(c.st), [done] + UpSources(c.sources)) }

  lemma LastSourceUp(done: Source, sources: seq<Source>)
    requires sources != []
    ensures var s := [done] + UpSources(sources);
            Last(s) == Last(sources).(depth := Last(sources).depth + 1) && Init(s) == [done] + UpSources(Init(sources))
  {}

  lemma SourcesUpPush(done: Source, sources: seq<Source>, s: Source, inner: Option<Inner>)
    ensures [done] + UpSources(sources + [s] + Opened(inner))
              == [done] + UpSources(sources) + [s.(depth := s.depth + 1)] + Opened(UpInner(inner))
  {}

  lemma AdvanceUp(done: Source, c: Config, p: Policy, m: nat)
    requires c.sources != [] && Last(c.sources).i <= |Last(c.sources).data| && AllLow(c.st.held, m) && m < MAX_EVAL_DEPTH
    requires var src := Last(c.sources); var t := NextToken(src.data, src.i, src.valuePos); t.Some? ==> Low(Held(t.value.tok, src.depth), m)
    ensures Last(Under(done, c).sources).i <= |Last(Under(done, c).sources).data|
    ensures Advance(Under(done, c), p) == Under(done, Advance(c, p)) && AllLow(Advance(c, p).st.held, m)
  {
    hide UpState, UpSources, NextToken, Push, Low, AllLow;
    LastSourceUp(done, c.sources);
    var src := Last(c.sources);
    match NextToken(src.data, src.i, src.valuePos) {
      case None =>
      case Some(t) =>
        var h := Held(t.tok, src.depth);
        var q := Push(c.st, h, p.keep, p.batch);
        PushUp(c.st, h, m, p);
        PushLow(c.st, h, m, p);
        SourcesUpPush(done, Init(c.sources), src.(i := t.next, valuePos := t.valuePos), q.inner);
    }
  }

  /** It ends as the run does, and its `eval` calls are one layer further in. */
  lemma {:induction false} RunUp(done: Source, c: Config, p: Policy, m: nat)
    requires Good(c) && Good(Under(done, c)) && done.i <= |done.data| && Lexes(done) == [] && AllLow(c.st.held, m) && LowRun(c, p, m) && m < MAX_EVAL_DEPTH
    ensures RunAll(Under(done, c), p) == UpState(RunAll(c, p)) && LowRun(Under(done, c), p, m + 1)
    decreases Potential(c), Unread(c.sources), |c.sources|
  {
    hide Ok, UpState, UpSources, Advance, NextToken, AllLow, Potential, Unread;
    var u := Under(done, c);
    if c.sources == [] {
      NoSourcesUp();
      assert u == Config(u.st, [] + [done]);
      ReadEnd(u.st, [], done, p);
      assert LowRun(Config(u.st, []), p, m + 1);
      AdvanceDecreases(u, p);
    } else {
      AdvanceGood(c, p);
      AdvanceDecreases(c, p);
      AdvanceGood(u, p);
      AdvanceDecreases(u, p);
      AdvanceUp(done, c, p, m);
      LastSourceUp(done, c.sources);
      RunUp(done, Advance(c, p), p, m);
    }
  }

  lemma NoSourcesUp()
    ensures UpSources([]) == []
  {}

  // ---------------------------------------------------------------- one layer

  function EVAL(): Bytes { Ascii("eval") }

  /** A script as the text of an `eval`. */
  function Layer(s: Bytes): Bytes { (EVAL() + [LPAREN]) + (([QUOTE] + Spelled(s) + [QUOTE]) + [RPAREN]) }

  function LayerToks(s: Bytes): seq<Tok> { [Ident(EVAL())] + ([Punct(LPAREN)] + ([Str(s)] + [Punct(RPAREN)])) }

  lemma LexLayer(s: Bytes)
    ensures LexAll(Layer(s), 0, true) == LayerToks(s)
  {
    hide At, LexAll, NextToken, IsKeyword, Spelled;
    var text := Layer(s);
    var lit := [QUOTE] + Spelled(s) + [QUOTE];
    var j := 5 + 4 * |s| + 2;
    assert At(text, 0, text) by { WholeAt(text); }
    AtSplit(text, 0, EVAL() + [LPAREN], lit + [RPAREN]);
    AtSplit(text, 5, lit, [RPAREN]);
    EvalLetters();
    LexName(text, 0, true, EVAL(), LPAREN);
    LexString(text, 5, true, s);
    LexCons(text, 5, true, Lexed(Str(s), j, false));
    LexPunct(text, j, false, RPAREN);
    LexCons(text, j, false, Lexed(Punct(RPAREN), j + 1, false));
    LexEnd(text);
    assert [Ident(EVAL()), Punct(LPAREN)] + ([Str(s)] + ([Punct(RPAREN)] + [])) == LayerToks(s);
  }

  lemma WholeAt(text: Bytes)
    ensures At(text, 0, text)
  {
    assert text[0..|text|] == text;
  }

  lemma EvalLetters()
    ensures |EVAL()| == 4 && (forall k :: 0 <= k < 4 ==> IsAlpha(EVAL()[k])) && forall d :: NamedEval(Held(Ident(EVAL()), d))
    ensures forall d :: !NamedFcc(Held(Ident(EVAL()), d)) && !NamedDecode(Held(Ident(EVAL()), d))
  {
    assert LowerAll(EVAL()) == EVAL();
    assert |Ascii("fromcharcode")| == 12 && |Ascii("unescape")| == 8 && |Ascii("decodeuricomponent")| == 18 && |Ascii("decodeuri")| == 9;
  }

  const E := Held(Ident(EVAL()), 0)
  const O := Held(Punct(LPAREN), 0)
  const C := Held(Punct(RPAREN), 0)

  function Opening(held: seq<Held>): State { State([], held, [Call(Eval, 0, 1, 0)]) }

  /** With so little held nothing is settled. */
  lemma PushSmall(st: State, h: Held, p: Policy)
    requires Settled(Step(st, h).st, p.keep) == 0
    ensures Push(st, h, p.keep, p.batch) == Step(st, h)
  {
    hide Step, WriteFront;
    WriteZero(Step(st, h).st);
  }

  lemma LayerSteps(s: Bytes, p: Policy)
    ensures Push(EMPTY, E, p.keep, p.batch) == Pushed(State([], [E], []), None)
    ensures Push(State([], [E], []), O, p.keep, p.batch) == Pushed(Opening([E, O]), None)
    ensures Push(Opening([E, O]), Held(Str(s), 0), p.keep, p.batch) == Pushed(Opening([E, O, Held(Str(s), 0)]), None)
    ensures Push(Opening([E, O, Held(Str(s), 0)]), C, p.keep, p.batch) == Pushed(EMPTY, Some(Inner(s, 1)))
  {
    hide Step, Push;
    NameStep();
    BracketStep();
    TextStep(s);
    UnrollStep(s);
    PushSmall(EMPTY, E, p);
    PushSmall(State([], [E], []), O, p);
    PushSmall(Opening([E, O]), Held(Str(s), 0), p);
    PushSmall(Opening([E, O, Held(Str(s), 0)]), C, p);
  }

  lemma NameStep()
    ensures Step(EMPTY, E) == Pushed(State([], [E], []), None)
  {}

  lemma BracketStep()
    ensures Step(State([], [E], []), O) == Pushed(Opening([E, O]), None)
  {
    hide NamedEval, NamedFcc, NamedDecode, NamedString;
    EvalLetters();
    assert [E] + [O] == [E, O];
  }

  lemma TextStep(s: Bytes)
    ensures Step(Opening([E, O]), Held(Str(s), 0)) == Pushed(Opening([E, O, Held(Str(s), 0)]), None)
  {
    hide Callee;
    var t := Held(Str(s), 0);
    assert [E, O] + [t] == [E, O, t] && Drop([E, O, t], 2) == [t] && [t][1..] == [];
  }

  lemma UnrollStep(s: Bytes)
    ensures Step(Opening([E, O, Held(Str(s), 0)]), C) == Pushed(EMPTY, Some(Inner(s, 1)))
  {
    hide Take, PercentDecode;
    var u := Opening([E, O, Held(Str(s), 0)]);
    assert Drop(u.held, 2) == [Held(Str(s), 0)] && Init(u.calls) == [] && Front(u.held, 0) == [];
    UnrollIs(u, C);
  }

  /** The first four tokens of a wrapped script hand back the script. */
  lemma LayerUnrolls(s: Bytes, p: Policy, m: nat) returns (done: Source)
    requires m > 0
    ensures done.i <= |done.data| && Lexes(done) == []
    ensures Good(Start(Layer(s))) && Good(Under(done, Start(s)))
    ensures RunAll(Start(Layer(s)), p) == RunAll(Under(done, Start(s)), p)
    ensures LowRun(Under(done, Start(s)), p, m) ==> LowRun(Start(Layer(s)), p, m)
  {
    hide Push, Lexes, Ok, RunAll, LowRun, Layer, Reading, UpState, LexAll, Under, Low;
    StartGood(Layer(s));
    LayerSteps(s, p);
    var t := Held(Str(s), 0);
    var src0 := Source(Layer(s), 0, true, 0);
    LexedLayer(s);
    assert [] + [src0] == [src0];
    var src1 := ReadOne(EMPTY, [], src0, E.tok, [Punct(LPAREN)] + ([Str(s)] + [Punct(RPAREN)]), p);
    assert [] + [src1] + [] == [] + [src1];
    var src2 := ReadOne(State([], [E], []), [], src1, O.tok, [Str(s)] + [Punct(RPAREN)], p);
    assert [] + [src2] + [] == [] + [src2];
    var src3 := ReadOne(Opening([E, O]), [], src2, Str(s), [Punct(RPAREN)], p);
    assert [] + [src3] + [] == [] + [src3] && [Punct(RPAREN)] + [] == [Punct(RPAREN)];
    done := ReadOne(Opening([E, O, t]), [], src3, C.tok, [], p);
    UnderStart(done, s);
    LowTokens(s, m);
    if LowRun(Under(done, Start(s)), p, m) {
      LowTurn(Config(Opening([E, O, t]), [] + [src3]), p, m);
      LowTurn(Config(Opening([E, O]), [] + [src2]), p, m);
      LowTurn(Config(State([], [E], []), [] + [src1]), p, m);
      LowTurn(Config(EMPTY, [] + [src0]), p, m);
    }
  }

  /** The run of a wrapped script is the run of the script, one layer further in. */
  lemma LayerRun(s: Bytes, p: Policy, m: nat)
    requires Good(Start(s)) && LowRun(Start(s), p, m) && m < MAX_EVAL_DEPTH
    ensures Good(Start(Layer(s))) && LowRun(Start(Layer(s)), p, m + 1)
    ensures RunAll(Start(Layer(s)), p) == UpState(RunAll(Start(s), p))
  {
    hide Lexes, Ok, RunAll, LowRun, Layer, Reading, UpState, Under, Low;
    var done := LayerUnrolls(s, p, m + 1);
    NothingLow(m);
    RunUp(done, Start(s), p, m);
  }

  lemma NothingLow(m: nat)
    ensures AllLow(EMPTY.held, m)
  {}

  lemma LexedLayer(s: Bytes)
    ensures Lexes(Source(Layer(s), 0, true, 0)) == LayerToks(s)
  {
    hide Layer, LexAll;
    LexLayer(s);
  }

  lemma UnderStart(done: Source, s: Bytes)
    ensures Under(done, Start(s)) == Config(EMPTY, [done] + [Source(s, 0, true, 1)])
    ensures Config(EMPTY, [] + [done] + [Source(s, 0, true, 1)]) == Under(done, Start(s))
  {
    assert Ups([]) == [] && UpCalls([]) == [];
  }

  lemma LowTokens(s: Bytes, m: nat)
    requires m > 0
    ensures Low(E, m) && Low(O, m) && Low(C, m) && Low(Held(Str(s), 0), m)
  {}

  lemma LowTurn(c: Config, p: Policy, m: nat)
    requires Good(c) && c.sources != []
    requires var src := Last(c.sources); var t := NextToken(src.data, src.i, src.valuePos); t.Some? && Low(Held(t.value.tok, src.depth), m)
    requires Good(Advance(c, p)) && LowRun(Advance(c, p), p, m)
    ensures LowRun(c, p, m)
  {
    hide Ok, Advance, NextToken, Potential, Unread, Low;
    AdvanceGood(c, p);
    AdvanceDecreases(c, p);
  }

  /** Wrapping a script in an `eval` changes nothing, as long as no `eval` of it is so far in already
      that one layer more would not be unrolled. */
  lemma LayerInvisible(s: Bytes, p: Policy, m: nat)
    requires Good(Start(s)) && LowRun(Start(s), p, m) && m < MAX_EVAL_DEPTH
    ensures Normalize(Layer(s), p) == Normalize(s, p)
  {
    hide RunAll, EmitAll, Normalize, LowRun, Ok, Layer, UpState, Finished, Clip;
    LayerRun(s, p, m);
    GiveUpAllUp(RunAll(Start(s), p));
    NormalizeIsWhole(s, p);
    NormalizeIsWhole(Layer(s), p);
  }

  // ---------------------------------------------------------------- many layers

  function Layers(s: Bytes, n: nat): Bytes { if n == 0 then s else Layer(Layers(s, n - 1)) }

  lemma OneLayer(s: Bytes, p: Policy, m: nat)
    requires Good(Start(s)) && LowRun(Start(s), p, m) && m < MAX_EVAL_DEPTH
    ensures Good(Start(Layer(s))) && LowRun(Start(Layer(s)), p, m + 1) && Normalize(Layer(s), p) == Normalize(s, p)
  {
    hide LowRun, Normalize, RunAll, UpState, Ok, Layer;
    LayerRun(s, p, m);
    LayerInvisible(s, p, m);
  }

  lemma LayersOne(s: Bytes, n: nat)
    ensures Layers(s, 0) == s && Layers(s, n + 1) == Layer(Layers(s, n))
  {}

  /** So it is for any number of layers that keeps within those unrolled. */
  lemma {:induction false} LayersInvisible(s: Bytes, n: nat, p: Policy, m: nat)
    requires Good(Start(s)) && LowRun(Start(s), p, m) && m + n <= MAX_EVAL_DEPTH
    ensures Good(Start(Layers(s, n))) && LowRun(Start(Layers(s, n)), p, m + n) && Normalize(Layers(s, n), p) == Normalize(s, p)
  {
    hide LowRun, Normalize, Ok, Reading, Layer, Layers, Start;
    LayersOne(s, n);
    if n > 0 {
      LayersOne(s, n - 1);
      LayersInvisible(s, n - 1, p, m);
      OneLayer(Layers(s, n - 1), p, m + n - 1);
    }
  }

  /** A text without an `eval` reads none. */
  lemma {:induction false} NoEvalsLow(st: State, src: Source, p: Policy)
    requires Good(Config(st, [src])) && EvalFree(st) && src.i <= |src.data| && NoEvals(Lexes(src))
    ensures LowRun(Config(st, [src]), p, 0)
    decreases |src.data| - src.i
  {
    hide Ok, Push, NextToken, EvalFree, NotEval, Potential, Unread, Low;
    var c := Config(st, [src]);
    assert Init([src]) == [];
    AdvanceGood(c, p);
    AdvanceDecreases(c, p);
    match NextToken(src.data, src.i, src.valuePos) {
      case None =>
        assert LowRun(Config(st, []), p, 0);
      case Some(t) =>
        var src' := src.(i := t.next, valuePos := t.valuePos);
        assert Lexes(src)[0] == t.tok && Lexes(src)[1..] == Lexes(src');
        assert forall i :: 0 <= i < |Lexes(src')| ==> Lexes(src')[i] == Lexes(src)[i + 1];
        NeverLow(t.tok, src.depth);
        PushEvalFree(st, Held(t.tok, src.depth), p);
        var q := Push(st, Held(t.tok, src.depth), p.keep, p.batch);
        assert [] + [src'] + [] == [src'];
        NoEvalsLow(q.st, src', p);
    }
  }

  lemma NeverLow(t: Tok, d: nat)
    requires NotEval(Held(t, 0))
    ensures Low(Held(t, d), 0) && NotEval(Held(t, d))
  {
    hide SameName;
  }

  /** A script without an `eval` of its own is normalised the same in up to 32 of them. */
  lemma PlainLayers(s: Bytes, n: nat, p: Policy)
    requires NoEvals(LexAll(s, 0, true)) && n <= MAX_EVAL_DEPTH
    ensures Normalize(Layers(s, n), p) == Normalize(s, p)
  {
    hide LowRun, Normalize, Layers, LexAll, NoEvals, Ok;
    StartGood(s);
    NoEvalsLow(EMPTY, Source(s, 0, true, 0), p);
    LayersInvisible(s, n, p, 0);
  }
}
