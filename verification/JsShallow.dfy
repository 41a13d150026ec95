/** A condition on the text that keeps a run off the open-call corner: no `eval`, and brackets that
    never nest deeper than calls may be open. */
module JsShallow {
  import opened ByteSeq
  import opened JsText
  import opened JsLexer
  import opened JsReducer
  import opened JsInvariant
  import opened JsSound
  import opened JsRun
  import opened JsScript

  /** How many brackets are open after one more token. */
  function Nested1(n: nat, t: Tok): nat {
    if t == Punct(LPAREN) then n + 1 else if t == Punct(RPAREN) && n > 0 then n - 1 else n
  }

  /** Starting with `n` open, the tokens never open a bracket inside `max` others. */
  predicate Shallow(ts: seq<Tok>, n: nat, max: nat)
    decreases |ts|
  {
    ts != [] ==> (ts[0] == Punct(LPAREN) ==> n < max) && Shallow(ts[1..], Nested1(n, ts[0]), max)
  }

  lemma CallsAtMost(st: State, h: Held, n: nat, p: Policy)
    requires |st.calls| <= n
    ensures |Push(st, h, p.keep, p.batch).st.calls| <= Nested1(n, h.tok)
  {
    hide WriteFront, Take;
    WrittenCalls(Step(st, h).st, Settled(Step(st, h).st, p.keep));
    StepCalls(st, h, n);
  }

  lemma WrittenCalls(st: State, n: nat)
    ensures |WriteFront(st, n).calls| == |st.calls|
  {}

  lemma TakeCalls(st: State, h: Held)
    ensures |Take(st, h).calls| <= |st.calls|
  {
    hide Absorbed, Append, ArgPossible;
    if Absorbed(st, h).Some? { AbsorbedInCall(st, h); }
  }

  lemma AbsorbedInCall(st: State, h: Held)
    requires Absorbed(st, h).Some?
    ensures st.calls != []
  {}

  lemma StepCalls(st: State, h: Held, n: nat)
    requires |st.calls| <= n
    ensures |Step(st, h).st.calls| <= Nested1(n, h.tok)
  {
    hide Take, WriteFront, CalleeBehind, Append, Reducible, PercentDecode;
    TakeCalls(st, h);
    if h.tok == Punct(LPAREN) {
      OutermostCalls(st);
    } else if h.tok == Punct(RPAREN) && st.calls != [] {
      CloseCalls(st, h);
    }
  }

  lemma OutermostCalls(st: State)
    ensures |GiveUpOutermost(st).calls| <= |st.calls|
  {
    hide WriteFront;
    if st.calls != [] { WrittenCalls(st.(calls := st.calls[1..]), st.calls[0].open + 1); }
  }

  lemma CloseCalls(st: State, h: Held)
    requires st.calls != []
    ensures |Close(st, h).st.calls| < |st.calls|
  {
    hide Take, Append, Reducible, PercentDecode;
    var c := Last(st.calls);
    var left := State(st.written, Front(st.held, c.start), Init(st.calls));
    var arg := Drop(st.held, c.open + 1);
    TakeCalls(left, Held(Str(Chars(if c.kind.FromCharCode? then c.kind.values else [])), c.depth));
    if arg != [] && arg[0].tok.Str? { TakeCalls(left, Held(Str(PercentDecode(arg[0].tok.s)), c.depth)); }
    if Reducible(c.kind, arg) && !c.kind.FromCharCode? { ReducibleArg(c.kind, arg); }
  }

  lemma ReducibleArg(kind: Kind, arg: seq<Held>)
    requires Reducible(kind, arg) && !kind.FromCharCode?
    ensures arg != [] && arg[0].tok.Str?
  {}

  lemma {:induction false} ShallowRuns(st: State, src: Source, n: nat, p: Policy)
    requires Good(Config(st, [src])) && EvalFree(st) && src.i <= |src.data| && |st.calls| <= n
    requires NoEvals(LexAll(src.data, src.i, src.valuePos)) && Shallow(LexAll(src.data, src.i, src.valuePos), n, MAX_OPEN_CALLS)
    ensures NeverMisplaces(Config(st, [src]), p)
    decreases |src.data| - src.i
  {
    hide Ok, Push, NextToken, EvalFree, NotEval, Potential, Unread;
    var c := Config(st, [src]);
    assert Init([src]) == [];
    AdvanceGood(c, p);
    AdvanceDecreases(c, p);
    match NextToken(src.data, src.i, src.valuePos) {
      case None =>
        assert NeverMisplaces(Config(st, []), p);
      case Some(t) =>
        var src' := src.(i := t.next, valuePos := t.valuePos);
        var all, more := LexAll(src.data, src.i, src.valuePos), LexAll(src'.data, src'.i, src'.valuePos);
        assert all[0] == t.tok && all[1..] == more;
        assert forall i :: 0 <= i < |more| ==> more[i] == all[i + 1];
        var h := Held(t.tok, src.depth);
        AnyDepth(t.tok, src.depth);
        PushEvalFree(st, h, p);
        CallsAtMost(st, h, n, p);
        NotAtCap(st, h, n);
        assert [] + [src'] + [] == [src'];
        ShallowRuns(Push(st, h, p.keep, p.batch).st, src', Nested1(n, t.tok), p);
    }
  }

  lemma NotAtCap(st: State, h: Held, n: nat)
    requires |st.calls| <= n && (h.tok == Punct(LPAREN) ==> n < MAX_OPEN_CALLS)
    ensures !Misplaces(st, h)
  {}

  lemma AnyDepth(t: Tok, d: nat)
    ensures NotEval(Held(t, d)) == NotEval(Held(t, 0))
  {
    hide SameName;
  }

  /** A script without an `eval` whose brackets never nest deeper than the cap is a sound rewriting,
      whatever the batches. */
  lemma ShallowSound(data: Bytes, p: Policy)
    requires NoEvals(LexAll(data, 0, true)) && Shallow(LexAll(data, 0, true), 0, MAX_OPEN_CALLS)
    ensures Good(Start(data)) && NeverMisplaces(Start(data), p)
  {
    hide NoEvals, Shallow, LexAll, NeverMisplaces, Ok;
    StartGood(data);
    ShallowRuns(EMPTY, Source(data, 0, true, 0), 0, p);
  }
}
