/** Every token is a sound rewrite: what has been written and what is held, with the stored
    character codes put back, always derives from the tokens read by the rewriting rules. */
module JsRewrite {
  import opened ByteSeq
  import opened JsText
  import opened JsLexer
  import opened JsReducer
  import opened JsInvariant

  // ---------------------------------------------------------------- the rules

  predicate NameIs(t: Tok, name: string) { t.Ident? && SameName(t.name, Ascii(name)) }

  predicate DecodeName(t: Tok) { NameIs(t, "unescape") || NameIs(t, "decodeuricomponent") || NameIs(t, "decodeuri") }

  /** `fromCharCode`, or `String.fromCharCode`. */
  predicate FccCallee(ts: seq<Tok>) {
    || (|ts| == 1 && NameIs(ts[0], "fromcharcode"))
    || (|ts| == 3 && NameIs(ts[0], "string") && ts[1] == Punct(DOT) && NameIs(ts[2], "fromcharcode"))
  }

  /** Two strings, with or without a plus between them, become one. */
  predicate JoinRule(lhs: seq<Tok>, rhs: seq<Tok>) {
    || (|lhs| == 2 && lhs[0].Str? && lhs[1].Str? && rhs == [Str(lhs[0].s + lhs[1].s)])
    || (|lhs| == 3 && lhs[0].Str? && lhs[1] == Punct(PLUS) && lhs[2].Str? && rhs == [Str(lhs[0].s + lhs[2].s)])
  }

  /** A call of one string gives way to the decoded string. */
  predicate DecodeRule(lhs: seq<Tok>, rhs: seq<Tok>) {
    |lhs| == 4 && DecodeName(lhs[0]) && lhs[1] == Punct(LPAREN) && lhs[2].Str? && lhs[3] == Punct(RPAREN)
    && rhs == [Str(PercentDecode(lhs[2].s))]
  }

  /** A call of one string of code gives way to the tokens of that code. */
  predicate EvalRule(lhs: seq<Tok>, rhs: seq<Tok>) {
    |lhs| == 4 && NameIs(lhs[0], "eval") && lhs[1] == Punct(LPAREN) && lhs[2].Str? && lhs[3] == Punct(RPAREN)
    && rhs == LexAll(lhs[2].s, 0, true)
  }

  /** A call of decimal codes gives way to the characters. */
  ghost predicate CharCodeRule(lhs: seq<Tok>, rhs: seq<Tok>) {
    exists callee, values :: CharCodeCall(lhs, callee, values) && rhs == [Str(Chars(values))]
  }

  predicate CharCodeCall(lhs: seq<Tok>, callee: seq<Tok>, values: seq<nat>) {
    FccCallee(callee) && values != [] && lhs == callee + [Punct(LPAREN)] + ListToks(values) + [Punct(RPAREN)]
  }

  /** An integer literal is written in decimal. */
  predicate DecimalRule(lhs: seq<Tok>, rhs: seq<Tok>) {
    |lhs| == 1 && lhs[0].Num? && ParseInt(lhs[0].num).Some? && rhs == [Num(Dec(ParseInt(lhs[0].num).value))]
  }

  ghost predicate Rule(lhs: seq<Tok>, rhs: seq<Tok>) {
    JoinRule(lhs, rhs) || DecodeRule(lhs, rhs) || EvalRule(lhs, rhs) || CharCodeRule(lhs, rhs) || DecimalRule(lhs, rhs)
  }

  // ---------------------------------------------------------------- derivations

  ghost predicate Rewrites(a: seq<Tok>, b: seq<Tok>, pre: seq<Tok>, lhs: seq<Tok>, rhs: seq<Tok>, post: seq<Tok>) {
    Rule(lhs, rhs) && a == pre + lhs + post && b == pre + rhs + post
  }

  ghost predicate OneStep(a: seq<Tok>, b: seq<Tok>) {
    exists pre, lhs, rhs, post :: Rewrites(a, b, pre, lhs, rhs, post)
  }

  ghost predicate DerivesIn(a: seq<Tok>, b: seq<Tok>, n: nat)
    decreases n
  {
    if n == 0 then a == b else exists c :: OneStep(a, c) && DerivesIn(c, b, n - 1)
  }

  /** `b` comes from `a` by applying the rules anywhere, any number of times. */
  ghost predicate Derives(a: seq<Tok>, b: seq<Tok>) { exists n: nat :: DerivesIn(a, b, n) }

  lemma DerivesRefl(a: seq<Tok>)
    ensures Derives(a, a)
  {
    assert DerivesIn(a, a, 0);
  }

  lemma {:induction false} DerivesInTrans(a: seq<Tok>, b: seq<Tok>, c: seq<Tok>, m: nat, n: nat)
    requires DerivesIn(a, b, m) && DerivesIn(b, c, n)
    ensures DerivesIn(a, c, m + n)
    decreases m
  {
    hide OneStep;
    if m > 0 {
      var d :| OneStep(a, d) && DerivesIn(d, b, m - 1);
      DerivesInTrans(d, b, c, m - 1, n);
    }
  }

  lemma DerivesTrans(a: seq<Tok>, b: seq<Tok>, c: seq<Tok>)
    requires Derives(a, b) && Derives(b, c)
    ensures Derives(a, c)
  {
    var m: nat :| DerivesIn(a, b, m);
    var n: nat :| DerivesIn(b, c, n);
    DerivesInTrans(a, b, c, m, n);
  }

  lemma OneStepThen(a: seq<Tok>, b: seq<Tok>, more: seq<Tok>)
    requires OneStep(a, b)
    ensures OneStep(a + more, b + more)
  {
    hide Rule;
    var pre, lhs, rhs, post :| Rewrites(a, b, pre, lhs, rhs, post);
    assert a + more == pre + lhs + (post + more);
    assert b + more == pre + rhs + (post + more);
    assert Rewrites(a + more, b + more, pre, lhs, rhs, post + more);
  }

  lemma {:induction false} DerivesInThen(a: seq<Tok>, b: seq<Tok>, more: seq<Tok>, n: nat)
    requires DerivesIn(a, b, n)
    ensures DerivesIn(a + more, b + more, n)
    decreases n
  {
    hide OneStep;
    if n > 0 {
      var c :| OneStep(a, c) && DerivesIn(c, b, n - 1);
      OneStepThen(a, c, more);
      DerivesInThen(c, b, more, n - 1);
    }
  }

  /** Tokens that follow take no part. */
  lemma DerivesThen(a: seq<Tok>, b: seq<Tok>, more: seq<Tok>)
    requires Derives(a, b)
    ensures Derives(a + more, b + more)
  {
    var n: nat :| DerivesIn(a, b, n);
    DerivesInThen(a, b, more, n);
  }

  /** One rule at the end of the tokens. */
  lemma DerivesByRule(pre: seq<Tok>, lhs: seq<Tok>, rhs: seq<Tok>)
    requires Rule(lhs, rhs)
    ensures Derives(pre + lhs, pre + rhs)
  {
    hide Rule;
    assert pre + lhs == pre + lhs + [] && pre + rhs == pre + rhs + [];
    assert Rewrites(pre + lhs, pre + rhs, pre, lhs, rhs, []);
    assert OneStep(pre + lhs, pre + rhs);
    assert DerivesIn(pre + rhs, pre + rhs, 0);
    assert DerivesIn(pre + lhs, pre + rhs, 1);
  }

  // ---------------------------------------------------------------- the tokens a state stands for

  /** The held tokens from `from`, each stored list put back after its bracket. */
  function Weave(held: seq<Held>, calls: seq<Call>, from: nat): seq<Tok>
    decreases |calls|
  {
    if calls == [] then Toks(Drop(held, from))
    else match calls[0].kind
      case FromCharCode(values, wantNum) =>
        Toks(Slice(held, from, calls[0].open + 1)) + CodeToks(values, wantNum) + Weave(held, calls[1..], calls[0].open + 1)
      case _ => Weave(held, calls[1..], from)
  }

  /** What is written and what is held. */
  function View(st: State): seq<Tok> { st.written + Weave(st.held, st.calls, 0) }

  lemma {:induction false} WeaveSplit(held: seq<Held>, calls: seq<Call>, from: nat)
    ensures Weave(held, calls, from) == WeaveFront(held, calls, from) + Toks(Drop(held, CutAt(calls, from)))
    decreases |calls|
  {
    hide Toks, Slice, Drop, CodeToks;
    if calls != [] {
      WeaveSplit(held, calls[1..], if calls[0].kind.FromCharCode? then calls[0].open + 1 else from);
    }
  }

  lemma WeaveAlone(held: seq<Held>)
    ensures Weave(held, [], 0) == Toks(Drop(held, 0)) && WeaveFront(held, [], 0) == [] && CutAt([], 0) == 0
  {}

  /** Giving up rewrites nothing: every token comes out where it was. */
  lemma GiveUpAllView(st: State)
    ensures View(GiveUpAll(st)) == View(st)
    ensures Finished(st) == View(st)
  {
    hide Weave, WeaveFront, CutAt, Toks;
    WeaveSplit(st.held, st.calls, 0);
    WeaveAlone(GiveUpAll(st).held);
    assert Drop(GiveUpAll(st).held, 0) == GiveUpAll(st).held;
  }

  /** The calls before a place, as far as `Weave` is concerned. */
  ghost predicate Before(calls: seq<Call>, from: nat, end: nat) {
    && from <= end
    && (forall i :: 0 <= i < |calls| ==> from <= calls[i].open < end)
    && (forall i, j :: 0 <= i < j < |calls| ==> calls[i].open < calls[j].open)
  }

  lemma BeforeTail(calls: seq<Call>, from: nat, end: nat)
    requires Before(calls, from, end) && calls != []
    ensures Before(calls[1..], from, end) && Before(calls[1..], calls[0].open + 1, end)
  {}

  lemma ToksAppend(a: seq<Held>, b: seq<Held>)
    ensures Toks(a + b) == Toks(a) + Toks(b)
  {}

  lemma SliceIs(held: seq<Held>, from: nat, to: nat)
    ensures Slice(held, from, to) == Drop(Front(held, to), from)
  {}

  lemma SliceAppend(held: seq<Held>, tail: seq<Held>, from: nat, to: nat)
    requires to <= |held|
    ensures Slice(held + tail, from, to) == Slice(held, from, to)
  {
    assert Front(held + tail, to) == Front(held, to);
  }

  lemma SliceFront(held: seq<Held>, k: nat, from: nat, to: nat)
    requires to <= k <= |held|
    ensures Slice(Front(held, k), from, to) == Slice(held, from, to)
  {
    assert Front(Front(held, k), to) == Front(held, to);
  }

  lemma SliceShift(held: seq<Held>, n: nat, from: nat, to: nat)
    requires n <= from <= to <= |held|
    ensures Slice(held[n..], from - n, to - n) == Slice(held, from, to)
  {}

  lemma SliceCut(held: seq<Held>, n: nat, to: nat)
    requires n <= to <= |held|
    ensures Slice(held, 0, to) == held[..n] + Slice(held[n..], 0, to - n)
  {}

  /** Tokens held after every bracket. */
  lemma {:induction false} WeaveAppend(held: seq<Held>, tail: seq<Held>, calls: seq<Call>, from: nat)
    requires Before(calls, from, |held|)
    ensures Weave(held + tail, calls, from) == Weave(held, calls, from) + Toks(tail)
    decreases |calls|
  {
    hide Toks, CodeToks, Before, Slice;
    if calls == [] {
      assert from <= |held| by { BeforeFrom(calls, from, |held|); }
      assert (held + tail)[from..] == held[from..] + tail;
      ToksAppend(held[from..], tail);
    } else {
      BeforeTail(calls, from, |held|);
      BeforeFrom(calls, from, |held|);
      if calls[0].kind.FromCharCode? {
        SliceAppend(held, tail, from, calls[0].open + 1);
        WeaveAppend(held, tail, calls[1..], calls[0].open + 1);
      } else {
        WeaveAppend(held, tail, calls[1..], from);
      }
    }
  }

  lemma BeforeFrom(calls: seq<Call>, from: nat, end: nat)
    requires Before(calls, from, end)
    ensures from <= end && (calls != [] ==> from <= calls[0].open < end)
  {}

  lemma BeforeLast(calls: seq<Call>, c: Call, from: nat, end: nat)
    requires Before(calls + [c], from, end)
    ensures from <= c.open < end
    ensures calls != [] ==> (calls + [c])[0] == calls[0] && from <= calls[0].open < c.open && (calls + [c])[1..] == calls[1..] + [c]
  {
    var all := calls + [c];
    assert all[|calls|] == c;
    if calls != [] { assert all[0] == calls[0]; }
  }

  /** One more call, innermost. */
  lemma {:induction false} WeaveSnoc(held: seq<Held>, calls: seq<Call>, c: Call, from: nat)
    requires Before(calls + [c], from, |held|)
    ensures !c.kind.FromCharCode? ==> Weave(held, calls + [c], from) == Weave(held, calls, from)
    ensures c.kind.FromCharCode? ==>
              Weave(held, calls + [c], from)
                == Weave(Front(held, c.open + 1), calls, from) + CodeToks(c.kind.values, c.kind.wantNum) + Toks(Drop(held, c.open + 1))
    decreases |calls|
  {
    hide Toks, CodeToks, Before, Slice, Weave;
    BeforeLast(calls, c, from, |held|);
    if calls == [] {
      assert [] + [c] == [c] + [];
      WeaveFirst(held, c, [], from);
      WeaveFirst(held, c, [], c.open + 1);
      WeaveFirst(Front(held, c.open + 1), c, [], from);
      SliceIs(held, from, c.open + 1);
    } else {
      BeforeTail(calls + [c], from, |held|);
      var first, rest := calls[0], calls[1..];
      assert calls == [first] + rest && calls + [c] == [first] + (rest + [c]);
      WeaveFirst(held, first, rest + [c], from);
      WeaveFirst(held, first, rest, from);
      WeaveFirst(Front(held, c.open + 1), first, rest, from);
      if first.kind.FromCharCode? {
        WeaveSnoc(held, rest, c, first.open + 1);
        SliceFront(held, c.open + 1, from, first.open + 1);
      } else {
        WeaveSnoc(held, rest, c, from);
      }
    }
  }

  lemma WeaveFirst(held: seq<Held>, c: Call, rest: seq<Call>, from: nat)
    ensures Weave(held, [], from) == Toks(Drop(held, from))
    ensures Weave(held, [c] + rest, from)
              == if c.kind.FromCharCode?
                 then Toks(Slice(held, from, c.open + 1)) + CodeToks(c.kind.values, c.kind.wantNum) + Weave(held, rest, c.open + 1)
                 else Weave(held, rest, from)
  {
    hide Toks, CodeToks, Slice;
    assert ([c] + rest)[1..] == rest;
  }

  // ---------------------------------------------------------------- writing out

  lemma ShiftCons(calls: seq<Call>, n: nat)
    requires calls != [] && n <= calls[0].open
    ensures Shift(calls, n)[1..] == Shift(calls[1..], n)
    ensures Shift(calls, n)[0].kind == calls[0].kind && Shift(calls, n)[0].open == calls[0].open - n
  {}

  /** Indices moved past tokens written out, all of them before `from`. */
  lemma {:induction false} WeaveShift(held: seq<Held>, calls: seq<Call>, n: nat, from: nat)
    requires Before(calls, from, |held|) && n <= from
    ensures Weave(held[n..], Shift(calls, n), from - n) == Weave(held, calls, from)
    decreases |calls|
  {
    hide Toks, CodeToks, Before, Slice, Drop, Shift;
    BeforeFrom(calls, from, |held|);
    if calls == [] {
      ShiftedTail(held, n, from);
    } else {
      BeforeTail(calls, from, |held|);
      ShiftCons(calls, n);
      if calls[0].kind.FromCharCode? {
        WeaveShift(held, calls[1..], n, calls[0].open + 1);
        SliceShift(held, n, from, calls[0].open + 1);
      } else {
        WeaveShift(held, calls[1..], n, from);
      }
    }
  }

  /** Writing out tokens before every bracket moves them and changes nothing. */
  lemma {:induction false} WeaveCut(held: seq<Held>, calls: seq<Call>, n: nat)
    requires Before(calls, n, |held|)
    ensures Weave(held, calls, 0) == Toks(held[..n]) + Weave(held[n..], Shift(calls, n), 0)
    decreases |calls|
  {
    hide Toks, CodeToks, Before, Slice, Shift;
    BeforeFrom(calls, n, |held|);
    if calls == [] {
      assert Drop(held, 0) == held[..n] + held[n..] && Drop(held[n..], 0) == held[n..];
      ToksAppend(held[..n], held[n..]);
    } else {
      BeforeTail(calls, n, |held|);
      ShiftCons(calls, n);
      if calls[0].kind.FromCharCode? {
        var o := calls[0].open + 1;
        WeaveShift(held, calls[1..], n, o);
        SliceCut(held, n, o);
        ToksAppend(held[..n], Slice(held[n..], 0, o - n));
      } else {
        WeaveCut(held, calls[1..], n);
      }
    }
  }

  lemma BeforeOf(held: seq<Held>, calls: seq<Call>, n: nat)
    requires Nested(held, calls) && n <= |held|
    requires forall i :: 0 <= i < |calls| ==> n <= calls[i].start
    ensures Before(calls, n, |held|)
  {}

  lemma WriteFrontView(st: State, n: nat)
    requires Nested(st.held, st.calls) && n <= |st.held|
    requires forall i :: 0 <= i < |st.calls| ==> n <= st.calls[i].start
    ensures View(WriteFront(st, n)) == View(st)
  {
    hide Nested;
    BeforeOf(st.held, st.calls, n);
    WeaveCut(st.held, st.calls, n);
  }

  lemma GiveUpOutermostView(st: State)
    requires Nested(st.held, st.calls)
    ensures View(GiveUpOutermost(st)) == View(st)
  {
    hide Nested, CodeToks, Toks, WriteFront;
    if st.calls != [] && st.calls[0].kind.FromCharCode? {
      var o := st.calls[0].open + 1;
      var u := st.(calls := st.calls[1..]);
      NestedTail(st.held, st.calls);
      OutermostWeave(st.held, st.calls[1..], o);
      FrontWritten(u, o);
    }
  }

  lemma FrontWritten(u: State, o: nat)
    requires o <= |u.held|
    ensures WriteFront(u, o) == State(u.written + Toks(u.held[..o]), u.held[o..], Shift(u.calls, o))
  {}

  lemma OutermostWeave(held: seq<Held>, calls: seq<Call>, o: nat)
    requires Before(calls, o, |held|) && o <= |held|
    ensures Slice(held, 0, o) == held[..o] && Weave(held[o..], Shift(calls, o), 0) == Weave(held, calls, o)
  {
    hide Toks, CodeToks, Weave;
    WeaveShift(held, calls, o, o);
  }

  lemma NestedTail(held: seq<Held>, calls: seq<Call>)
    requires Nested(held, calls) && calls != []
    ensures Before(calls[1..], calls[0].open + 1, |held|) && calls[0].open < |held|
  {}
}
