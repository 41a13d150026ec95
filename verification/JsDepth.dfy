/** No text is ever read more than 32 `eval` layers in, whatever the script. */
module JsDepth {
  import opened ByteSeq
  import opened JsText
  import opened JsLexer
  import opened JsReducer
  import opened JsInvariant
  import opened JsRun

  const DEEPEST: nat := 32

  predicate CallWithin(call: Call) { call.kind.Eval? ==> call.depth < DEEPEST }

  predicate CallsWithin(calls: seq<Call>) { forall i :: 0 <= i < |calls| ==> CallWithin(calls[i]) }

  /** An open call of `eval` is less than 32 layers in, and no text being read is more. */
  predicate Within(c: Config) { CallsWithin(c.st.calls) && forall i :: 0 <= i < |c.sources| ==> c.sources[i].depth <= DEEPEST }

  lemma ShiftWithin(calls: seq<Call>, n: nat)
    requires CallsWithin(calls)
    ensures CallsWithin(Shift(calls, n))
  {
    forall i | 0 <= i < |calls| ensures CallWithin(Shift(calls, n)[i]) { assert CallWithin(calls[i]); }
  }

  lemma OutermostWithin(st: State)
    requires CallsWithin(st.calls)
    ensures CallsWithin(GiveUpOutermost(st).calls)
  {
    hide Shift;
    if st.calls != [] {
      assert CallsWithin(st.calls[1..]) by {
        forall i | 0 <= i < |st.calls[1..]| ensures CallWithin(st.calls[1..][i]) { assert CallWithin(st.calls[i + 1]); }
      }
      if st.calls[0].kind.FromCharCode? {
        ShiftWithin(st.calls[1..], Min(st.calls[0].open + 1, |st.held|));
      }
    }
  }

  lemma TakeWithin(st: State, h: Held)
    requires CallsWithin(st.calls)
    ensures CallsWithin(Take(st, h).calls)
  {
    hide Append, ArgPossible, ParseInt, WeaveFront, CutAt, Drop;
    var k := Absorbed(st, h);
    if k.Some? {
      var calls := Init(st.calls) + [Last(st.calls).(kind := k.value)];
      forall i | 0 <= i < |calls| ensures CallWithin(calls[i]) {
        if i < |calls| - 1 { assert calls[i] == st.calls[i]; }
      }
    }
  }

  lemma OpenWithin(st: State, h: Held)
    requires CallsWithin(st.calls)
    ensures CallsWithin(Open(st, h).calls)
  {
    hide GiveUpOutermost, NamedFcc, NamedDecode, NamedEval, NamedString, IsDot, CallsWithin;
    OutermostWithin(st);
    var b := CalleeBehind(st.held);
    if b.Some? {
      var st' := if |st.calls| == MAX_OPEN_CALLS then GiveUpOutermost(st) else st;
      SnocWithin(st'.calls, Call(b.value.0, Min(b.value.1, |st'.held|), |st'.held|, Last(st.held).depth));
    } else {
      NoneWithin();
    }
  }

  lemma SnocWithin(calls: seq<Call>, call: Call)
    requires CallsWithin(calls) && CallWithin(call)
    ensures CallsWithin(calls + [call])
  {}

  lemma NoneWithin()
    ensures CallsWithin([])
  {}

  lemma CloseWithin(st: State, h: Held)
    requires CallsWithin(st.calls) && st.calls != []
    ensures CallsWithin(Close(st, h).st.calls)
    ensures Close(st, h).inner.Some? ==> Close(st, h).inner.value.depth <= DEEPEST
  {
    hide Take, Append, WeaveFront, CutAt, PercentDecode, Chars;
    var call := Last(st.calls);
    var st' := State(st.written, Front(st.held, call.start), Init(st.calls));
    assert CallWithin(call);
    assert CallsWithin(Init(st.calls));
    match call.kind {
      case FromCharCode(values, _) => TakeWithin(st', Held(Str(Chars(values)), call.depth));
      case Eval =>
      case Decode =>
        var arg := Drop(st.held, call.open + 1);
        if Reducible(call.kind, arg) { TakeWithin(st', Held(Str(PercentDecode(arg[0].tok.s)), call.depth)); }
    }
  }

  lemma PushWithin(st: State, h: Held, keep: nat, batch: nat)
    requires CallsWithin(st.calls)
    ensures CallsWithin(Push(st, h, keep, batch).st.calls)
    ensures Push(st, h, keep, batch).inner.Some? ==> Push(st, h, keep, batch).inner.value.depth <= DEEPEST
  {
    hide Open, Close, Take, CallsWithin, Shift, Settled;
    OpenWithin(st, h);
    TakeWithin(st, h);
    if st.calls != [] { CloseWithin(st, h); }
    var t := Step(st, h).st;
    ShiftWithin(t.calls, Min(Settled(t, keep), |t.held|));
  }

  lemma AdvanceWithin(c: Config, p: Policy)
    requires Good(c) && c.sources != [] && Within(c)
    ensures Within(Advance(c, p))
  {
    hide NextToken, Push, Ok, CallsWithin;
    var src := Last(c.sources);
    match NextToken(src.data, src.i, src.valuePos) {
      case None =>
      case Some(t) => PushWithin(c.st, Held(t.tok, src.depth), p.keep, p.batch);
    }
  }

  /** The run after `n` turns. */
  ghost function After(data: Bytes, p: Policy, n: nat): (c: Config)
    ensures Good(c)
  {
    if n == 0 then
      NormalizeIsWhole(data, p);
      Start(data)
    else
      var c := After(data, p, n - 1);
      if c.sources == [] then c
      else
        AdvanceGood(c, p);
        Advance(c, p)
  }

  /** At every point of every run. */
  lemma {:induction false} NeverDeeper(data: Bytes, p: Policy, n: nat)
    ensures Within(After(data, p, n))
  {
    hide Within, Advance, Good;
    if n == 0 {
      StartWithin(data);
    } else {
      NeverDeeper(data, p, n - 1);
      if After(data, p, n - 1).sources != [] { AdvanceWithin(After(data, p, n - 1), p); }
    }
  }

  lemma StartWithin(data: Bytes)
    ensures Within(Start(data))
  {}
}
