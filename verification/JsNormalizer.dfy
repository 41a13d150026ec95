/** The reducer and the loop as the program runs them: fields updated in place, tokens drained
    from the front, a stack of lexers. Each method is proved to do what its function says. */
module JsNormalizer {
  import opened ByteSeq
  import opened JsText
  import opened JsLexer
  import opened JsReducer
  import opened JsInvariant
  import opened JsRewrite
  import opened JsEmit
  import opened JsRun
  import R = JsReducer

  lemma {:induction false} WeaveFrontSnoc(held: seq<Held>, calls: seq<Call>, c: Call, from: nat)
    ensures WeaveFront(held, calls + [c], from) == WeaveFront(held, calls, from)
              + (if c.kind.FromCharCode? then Toks(Slice(held, CutAt(calls, from), c.open + 1)) + CodeToks(c.kind.values, c.kind.wantNum) else [])
    ensures CutAt(calls + [c], from) == (if c.kind.FromCharCode? then c.open + 1 else CutAt(calls, from))
    decreases |calls|
  {
    hide Toks, Slice, CodeToks;
    if calls == [] {
      assert calls + [c] == [c] && [c][1..] == [];
    } else {
      assert (calls + [c])[0] == calls[0] && (calls + [c])[1..] == calls[1..] + [c];
      WeaveFrontSnoc(held, calls[1..], c, if calls[0].kind.FromCharCode? then calls[0].open + 1 else from);
    }
  }

  lemma WeaveNone(held: seq<Held>)
    ensures WeaveFront(held, [], 0) == [] && CutAt([], 0) == 0
  {}

  /** The cut before a call is before its bracket. */
  lemma CutBeforeNext(held: seq<Held>, calls: seq<Call>, i: nat)
    requires Nested(held, calls) && i < |calls|
    ensures CutAt(calls[..i], 0) <= calls[i].open < |held|
    decreases i
  {
    if i > 0 {
      assert calls[..i] == calls[..i - 1] + [calls[i - 1]];
      WeaveFrontSnoc(held, calls[..i - 1], calls[i - 1], 0);
      CutBeforeNext(held, calls, i - 1);
    } else {
      assert calls[..0] == [];
    }
  }

  /** Nothing written, held or open. */
  lemma EmptyGood(out: Emitter)
    requires out.Value() == NOTHING
    ensures out.Value() == EmitAll(NOTHING, []) && Ok(State([], [], []))
  {
    hide Ok;
    StartGood([]);
  }

  class Normalizer {
    var held: seq<Held>
    var calls: seq<Call>
    const out: Emitter
    /** The tokens handed to the emitter. */
    ghost var written: seq<Tok>

    ghost function Value(): State
      reads this
    {
      State(written, held, calls)
    }

    /** The emitter holds what it was handed. */
    ghost predicate Emitting()
      reads this, out
    {
      out.Value() == EmitAll(NOTHING, written)
    }

    ghost predicate Valid()
      reads this, out
    {
      Emitting() && Ok(Value())
    }

    constructor ()
      ensures Valid() && Value() == EMPTY && fresh(out)
    {
      held, calls, written := [], [], [];
      out := new Emitter();
      new;
      EmptyGood(out);
      hide *;
    }

    method WriteFront(n: nat)
      requires Emitting() && forall i :: 0 <= i < |calls| ==> Min(n, |held|) <= calls[i].start <= calls[i].open
      modifies this, out
      ensures Emitting() && Value() == R.WriteFront(old(Value()), n)
    {
      hide Emit, EmitAll;
      var upto := Min(n, |held|);
      ghost var w, h, cs := written, held, calls;
      for i := 0 to upto
        invariant held == h && calls == cs && Emitting()
        invariant written == w + Toks(h[..i])
      {
        EmitSnoc(NOTHING, written, held[i].tok);
        out.Write(held[i].tok);
        written := written + [held[i].tok];
        assert Toks(h[..i + 1]) == Toks(h[..i]) + [h[i].tok];
      }
      held := held[upto..];
      var moved: seq<Call> := [];
      for i := 0 to |calls|
        invariant moved == R.Shift(cs, upto)[..i] && calls == cs
        invariant held == h[upto..] && Emitting() && written == w + Toks(h[..upto])
      {
        moved := moved + [calls[i].(start := calls[i].start - upto, open := calls[i].open - upto)];
      }
      calls := moved;
    }

    method WriteCodes(values: seq<nat>, wantNum: bool)
      requires Emitting()
      modifies out, `written
      ensures Emitting() && written == old(written) + CodeToks(values, wantNum)
    {
      EmitAppend(NOTHING, written, CodeToks(values, wantNum));
      out.CharCodes(values, wantNum);
      written := written + CodeToks(values, wantNum);
    }

    /** Stop treating the open calls as reducible: their tokens are written as they were read. */
    method GiveUpAll()
      requires Emitting() && Nested(held, calls)
      modifies this, out
      ensures Emitting() && Value() == R.GiveUpAll(old(Value()))
    {
      hide Toks, CodeToks, EmitAll, WeaveFront, CutAt, Nested;
      WeaveNone(held);
      var given := calls;
      ghost var w, h := written, held;
      calls := [];
      var done := 0;
      for i := 0 to |given|
        invariant Emitting() && calls == []
        invariant done == CutAt(given[..i], 0) && done <= |h| && held == h[done..]
        invariant written == w + WeaveFront(h, given[..i], 0)
      {
        CutBeforeNext(h, given, i);
        assert given[..i + 1] == given[..i] + [given[i]];
        WeaveFrontSnoc(h, given[..i], given[i], 0);
        assert w + (WeaveFront(h, given[..i], 0) + []) == w + WeaveFront(h, given[..i], 0);
        if given[i].kind.FromCharCode? {
          var upto := given[i].open + 1 - done;
          ghost var before := WeaveFront(h, given[..i], 0);
          assert Front(held, upto) == Slice(h, done, given[i].open + 1);
          assert Drop(held, upto) == h[given[i].open + 1..];
          WriteFront(upto);
          WriteCodes(given[i].kind.values, given[i].kind.wantNum);
          Assoc4(w, before, Toks(Slice(h, done, given[i].open + 1)), CodeToks(given[i].kind.values, given[i].kind.wantNum));
          done := done + upto;
        }
      }
      assert given[..|given|] == given;
      assert Drop(h, done) == h[done..];
    }

    method GiveUpOutermost()
      requires Emitting() && Nested(held, calls)
      modifies this, out
      ensures Emitting() && Value() == R.GiveUpOutermost(old(Value()))
    {
      hide CodeToks, Toks, Shift;
      if calls == [] { return; }
      var call := calls[0];
      OutermostShift(Value());
      calls := calls[1..];
      if call.kind.FromCharCode? {
        assert forall i :: 0 <= i < |calls| ==> call.open + 1 <= calls[i].start <= calls[i].open;
        WriteFront(call.open + 1);
        WriteCodes(call.kind.values, call.kind.wantNum);
      }
    }

    /** Hold `h`, joining a string to the string before it. */
    method Append(h: Held)
      modifies `held
      ensures held == R.Append(old(held), h)
    {
      if h.tok.Str? {
        var n := |held|;
        var into := -1;
        if n >= 1 && held[n - 1].tok.Str? {
          into := n - 1;
        } else if n >= 2 && held[n - 1].tok == Punct(PLUS) && held[n - 2].tok.Str? {
          into := n - 2;
        }
        if into >= 0 {
          held := held[..into + 1];
          held := held[into := Held(Str(held[into].tok.s + h.tok.s), held[into].depth)];
          return;
        }
      }
      held := held + [h];
    }

    /** A number or a comma kept as a value of the innermost call. */
    method AbsorbCharCode(h: Held) returns (kept: bool)
      modifies `calls
      ensures kept == R.Absorbed(old(Value()), h).Some?
      ensures kept ==> calls == Init(old(calls)) + [Last(old(calls)).(kind := R.Absorbed(old(Value()), h).value)]
      ensures !kept ==> calls == old(calls)
    {
      if calls == [] { return false; }
      var last := |calls| - 1;
      var call := calls[last];
      if !call.kind.FromCharCode? || |held| != call.open + 1 { return false; }
      match h.tok {
        case Num(num) =>
          if call.kind.wantNum && |call.kind.values| < MAX_OUTPUT {
            var v := ParseInt(num);
            if v.Some? {
              calls := calls[..last] + [call.(kind := FromCharCode(call.kind.values + [v.value], false))];
              return true;
            }
          }
        case Punct(p) =>
          if p == COMMA && !call.kind.wantNum {
            calls := calls[..last] + [call.(kind := FromCharCode(call.kind.values, true))];
            return true;
          }
        case _ =>
      }
      return false;
    }

    /** A token that neither opens nor closes a call. */
    method Take(h: Held)
      requires Emitting() && CallsOk(held, calls)
      modifies this, out
      ensures Emitting() && Value() == R.Take(old(Value()), h)
    {
      hide EmitAll, ArgPossible, Spaced, InnerArgs, R.Append, R.Absorbed, R.GiveUpAll;
      var kept := AbsorbCharCode(h);
      if kept { return; }
      if calls != [] { AppendOk(held, calls, h); }
      Append(h);
      if calls != [] {
        var call := calls[|calls| - 1];
        if !ArgPossible(call.kind, held[call.open + 1..]) {
          GiveUpAll();
        }
      }
    }

    /** A bracket: the start of a call when a callee is right before it. */
    method Open(h: Held)
      requires Valid() && h.tok == Punct(LPAREN)
      modifies this, out
      ensures Emitting() && Value() == R.Open(old(Value()), h)
    {
      hide EmitAll, R.GiveUpOutermost, R.GiveUpAll, Callee, NamedString, Spaced, InnerArgs, ArgOk;
      var n := |held|;
      var found := if n > 0 then Callee(held[n - 1]) else None;
      match found {
        case Some(kind) =>
          var stringDot := n >= 3 && held[n - 2].tok == Punct(DOT) && NamedString(held[n - 3]);
          var start := if kind.FromCharCode? && stringDot then n - 3 else n - 1;
          var depth := held[n - 1].depth;
          if |calls| == MAX_OPEN_CALLS {
            GiveUpOutermost();
          }
          var at := Min(start, |held|);
          held := held + [h];
          calls := calls + [Call(kind, at, |held| - 1, depth)];
        case None =>
          GiveUpAll();
          held := held + [h];
      }
    }

    /** A closing bracket of the innermost call: replace the call by its value when the argument
        has the form it needs. */
    method Close(h: Held) returns (inner: Option<Inner>)
      requires Valid() && calls != []
      modifies this, out
      ensures Emitting() && Pushed(Value(), inner) == R.Close(old(Value()), h)
    {
      hide EmitAll, R.GiveUpAll, R.Take, R.Append, Spaced, InnerArgs, ArgOk;
      LastBracket(held, calls);
      PopOk(held, calls);
      var call := calls[|calls| - 1];
      var arg := held[call.open + 1..];
      if !Reducible(call.kind, arg) {
        GiveUpAll();
        Append(h);
        return None;
      }
      calls := calls[..|calls| - 1];
      var value: Bytes;
      match call.kind {
        case FromCharCode(values, _) =>
          value := Characters(values);
        case Eval =>
          held := held[..call.start];
          return Some(Inner(arg[0].tok.s, call.depth + 1));
        case Decode =>
          value := DecodePercent(arg[0].tok.s);
      }
      held := held[..call.start];
      Take(Held(Str(value), call.depth));
      return None;
    }

    method Flush()
      requires Valid()
      modifies this, out
      ensures Emitting() && Value() == R.Flush(old(Value()), KEEP_BEFORE_CALL, FLUSH_BATCH)
    {
      hide EmitAll, R.WriteFront, Spaced, InnerArgs, ArgOk;
      SettledBeforeCalls(Value(), KEEP_BEFORE_CALL);
      var settled := if calls != [] then Sub(calls[0].start, KEEP_BEFORE_CALL) else Sub(|held|, KEEP_BEHIND);
      if settled >= FLUSH_BATCH {
        WriteFront(settled);
      }
    }

    /** Take one token. Returns the text of an `eval` just reduced. */
    method Push(h: Held) returns (inner: Option<Inner>)
      requires Valid()
      modifies this, out
      ensures Valid() && Pushed(Value(), inner) == R.Push(old(Value()), h, KEEP_BEFORE_CALL, FLUSH_BATCH)
      ensures |held| <= FLUSH_BATCH + 5 + 4 * |calls|
    {
      hide EmitAll, R.Open, R.Close, R.Take, R.Flush, CallsOk, LastArg;
      PushOk(Value(), h, KEEP_BEFORE_CALL, FLUSH_BATCH);
      StepOk(Value(), h);
      TailBounded(Value(), h, KEEP_BEFORE_CALL, FLUSH_BATCH);
      inner := None;
      if h.tok == Punct(LPAREN) {
        Open(h);
      } else if h.tok == Punct(RPAREN) && calls != [] {
        inner := Close(h);
      } else {
        Take(h);
      }
      Flush();
    }

    method Finish() returns (bytes: Bytes, cut: bool)
      requires Valid()
      modifies this, out
      ensures var st := old(Value());
              var e := EmitAll(NOTHING, st.written);
              (bytes, cut) == Clip(if e.cut then e else EmitAll(NOTHING, Finished(st)))
    {
      hide EmitAll, R.GiveUpAll, Spaced, InnerArgs, ArgOk, Nested;
      if !out.cut {
        GiveUpAll();
        NoCallsLeft(old(Value()));
        WriteFront(|held|);
        assert Front(R.GiveUpAll(old(Value())).held, |R.GiveUpAll(old(Value())).held|) == R.GiveUpAll(old(Value())).held;
      }
      cut := out.cut || |out.out| > MAX_OUTPUT;
      bytes := Front(out.out, MAX_OUTPUT);
    }
  }

  lemma NoCallsLeft(st: State)
    ensures R.GiveUpAll(st).calls == []
  {}

  /** The characters of a list of codes, one after another. */
  method Characters(values: seq<nat>) returns (r: Bytes)
    ensures r == Chars(values)
  {
    hide EncodeCp;
    r := [];
    assert values[0..] == values;
    ghost var rest := Chars(values);
    for i := 0 to |values|
      invariant rest == Chars(values[i..]) && r + rest == Chars(values)
    {
      assert values[i..][1..] == values[i + 1..];
      rest := Chars(values[i + 1..]);
      assert r + (EncodeCp(values[i]) + rest) == (r + EncodeCp(values[i])) + rest;
      r := r + EncodeCp(values[i]);
    }
    assert r + [] == r;
  }

  // ---------------------------------------------------------------- the loop

  ghost function SourceOf(l: Lexer): Source
    reads l
  {
    Source(l.data, l.i, l.valuePos, l.depth)
  }

  ghost function SourcesOf(ls: seq<Lexer>): (r: seq<Source>)
    reads ls
    ensures |r| == |ls|
  {
    if ls == [] then [] else SourcesOf(ls[..|ls| - 1]) + [SourceOf(ls[|ls| - 1])]
  }

  /** One turn from the innermost text's next token: what the functions say it is. */
  lemma TurnIs(c: Config, t: Option<Lexed>, src: Source)
    requires Good(c) && c.sources != [] && src == Last(c.sources) && t == NextToken(src.data, src.i, src.valuePos)
    ensures t.None? ==> Advance(c, SHIPPED) == Config(c.st, Init(c.sources))
    ensures t.Some? ==>
              var q := R.Push(c.st, Held(t.value.tok, src.depth), KEEP_BEFORE_CALL, FLUSH_BATCH);
              Advance(c, SHIPPED) == Config(q.st, Init(c.sources) + [src.(i := t.value.next, valuePos := t.value.valuePos)] + Opened(q.inner))
  {
    hide R.Push, NextToken, Ok;
  }

  lemma RunTurn(c: Config)
    requires Good(c) && c.sources != [] && !EmitAll(NOTHING, c.st.written).cut
    ensures Good(Advance(c, SHIPPED)) && Run(c, SHIPPED) == Run(Advance(c, SHIPPED), SHIPPED)
  {
    hide Advance, EmitAll, Ok;
    AdvanceGood(c, SHIPPED);
    AdvanceDecreases(c, SHIPPED);
  }

  lemma RunEnds(c: Config)
    requires Good(c) && (c.sources == [] || EmitAll(NOTHING, c.st.written).cut)
    ensures Run(c, SHIPPED) == c.st
  {
    hide EmitAll, Ok;
  }

  /** Lexers that are each their own. */
  ghost predicate Stack(ls: seq<Lexer>)
    reads ls
  {
    && (forall k :: 0 <= k < |ls| ==> ls[k].Valid())
    && (forall j, k :: 0 <= j < k < |ls| ==> ls[j] != ls[k])
  }

  lemma OneSource(l: Lexer)
    requires l.Valid()
    ensures Stack([l]) && SourcesOf([l]) == [SourceOf(l)]
  {
    assert [l][..0] == [];
  }

  /** The next token of the innermost text. */
  method ReadToken(sources: seq<Lexer>) returns (t: Option<Tok>)
    requires Stack(sources) && sources != []
    modifies sources[|sources| - 1]
    ensures Stack(sources) && SourcesOf(sources[..|sources| - 1]) == old(SourcesOf(sources[..|sources| - 1]))
    ensures var src := old(SourceOf(sources[|sources| - 1]));
            match NextToken(src.data, src.i, src.valuePos)
            case Some(l) => t == Some(l.tok) && SourceOf(sources[|sources| - 1]) == src.(i := l.next, valuePos := l.valuePos)
            case None => t == None
  {
    hide NextToken;
    t := sources[|sources| - 1].Next();
  }

  /** One turn of the loop. */
  method Turn(n: Normalizer, sources: seq<Lexer>, ghost c: Config) returns (next: seq<Lexer>)
    requires n.Valid() && Stack(sources) && sources != [] && Good(c) && c == Config(n.Value(), SourcesOf(sources))
    modifies n, n.out, sources[|sources| - 1]
    ensures n.Valid() && Stack(next) && Config(n.Value(), SourcesOf(next)) == Advance(c, SHIPPED)
    ensures forall k :: 0 <= k < |next| ==> next[k] in sources || fresh(next[k])
  {
    hide EmitAll, R.Push, NextToken, Ok, Advance;
    var rest, src := sources[..|sources| - 1], sources[|sources| - 1];
    ghost var before, others := SourceOf(src), SourcesOf(rest);
    assert others == Init(c.sources);
    TurnIs(c, NextToken(before.data, before.i, before.valuePos), before);
    var depth := src.depth;
    var t := ReadToken(sources);
    if t.None? {
      return rest;
    }
    var inner := n.Push(Held(t.value, depth));
    assert SourcesOf(sources) == others + [SourceOf(src)];
    next := OpenText(sources, inner);
  }

  /** The text of a reduced `eval` goes on top. */
  method OpenText(sources: seq<Lexer>, inner: Option<Inner>) returns (next: seq<Lexer>)
    requires Stack(sources)
    ensures Stack(next) && SourcesOf(next) == SourcesOf(sources) + Opened(inner)
    ensures forall k :: 0 <= k < |next| ==> next[k] in sources || fresh(next[k])
  {
    if inner.None? {
      assert SourcesOf(sources) + [] == SourcesOf(sources);
      return sources;
    }
    ghost var before := SourcesOf(sources);
    var text := new Lexer(inner.value.text, inner.value.depth);
    assert SourcesOf(sources) == before;
    next := sources + [text];
    assert next[..|next| - 1] == sources;
  }

  /** A script read in one pass, each unrolled `eval` read before the rest. The loop ends: every
      turn lowers what could still be read, or what is unread, or the number of texts. */
  method NormalizeScript(data: Bytes) returns (bytes: Bytes, cut: bool)
    ensures (bytes, cut) == Normalize(data, SHIPPED)
  {
    hide Run, EmitAll, Advance, Potential, Unread, Ok, Stack, SourcesOf;
    StartGood(data);
    var n := new Normalizer();
    var lexer := new Lexer(data, 0);
    var sources: seq<Lexer> := [lexer];
    ghost var c := Start(data);
    OneSource(lexer);
    while sources != [] && !n.out.cut
      invariant fresh(n) && fresh(n.out) && n.Valid() && Stack(sources)
      invariant forall k :: 0 <= k < |sources| ==> fresh(sources[k])
      invariant c == Config(n.Value(), SourcesOf(sources)) && Good(c)
      invariant Run(c, SHIPPED) == Run(Start(data), SHIPPED)
      decreases Potential(c), Unread(c.sources), |sources|
    {
      RunTurn(c);
      AdvanceDecreases(c, SHIPPED);
      sources := Turn(n, sources, c);
      c := Advance(c, SHIPPED);
    }
    assert |SourcesOf(sources)| == |sources|;
    RunEnds(c);
    bytes, cut := n.Finish();
  }
}
