/** The whole normaliser: the loop over the script and the texts its `eval` calls hand back. It
    ends on every input, and below the cap corner its output is a derivation of the script. */
module JsRun {
  import opened ByteSeq
  import opened JsText
  import opened JsLexer
  import opened JsReducer
  import opened JsInvariant
  import opened JsRewrite
  import opened JsSound
  import opened JsLoad
  import opened JsEmit

  /** A text being read, and how far. */
  datatype Source = Source(data: Bytes, i: nat, valuePos: bool, depth: nat)

  /** The reducer, and the texts being read, innermost last. */
  datatype Config = Config(st: State, sources: seq<Source>)

  /** How settled tokens are written: how many are kept before an open call, and in what batches. */
  datatype Policy = Policy(keep: nat, batch: nat)

  const SHIPPED: Policy := Policy(KEEP_BEFORE_CALL, FLUSH_BATCH)

  function Start(data: Bytes): Config { Config(EMPTY, [Source(data, 0, true, 0)]) }

  ghost predicate Reading(sources: seq<Source>) {
    forall k :: 0 <= k < |sources| ==> sources[k].i <= |sources[k].data|
  }

  ghost predicate Good(c: Config) { Ok(c.st) && Reading(c.sources) }

  function Opened(inner: Option<Inner>): seq<Source> {
    match inner
    case None => []
    case Some(t) => [Source(t.text, 0, true, t.depth)]
  }

  /** One turn of the loop: a token of the innermost text, or the end of it. */
  function Advance(c: Config, p: Policy): Config
    requires c.sources != [] && Last(c.sources).i <= |Last(c.sources).data|
  {
    var src := Last(c.sources);
    match NextToken(src.data, src.i, src.valuePos)
    case None => Config(c.st, Init(c.sources))
    case Some(t) =>
      var q := Push(c.st, Held(t.tok, src.depth), p.keep, p.batch);
      Config(q.st, Init(c.sources) + [src.(i := t.next, valuePos := t.valuePos)] + Opened(q.inner))
  }

  // ---------------------------------------------------------------- it ends

  function Unread(sources: seq<Source>): nat {
    if sources == [] then 0
    else Unread(Init(sources)) + (if Last(sources).i <= |Last(sources).data| then |Last(sources).data| - Last(sources).i else 0)
  }

  /** Everything that could still be read: what is unread, and what is held as strings and codes. */
  function Potential(c: Config): nat { Unread(c.sources) + Load(c.st) }

  lemma UnreadSnoc(sources: seq<Source>, s: Source)
    requires s.i <= |s.data|
    ensures Unread(sources + [s]) == Unread(sources) + |s.data| - s.i
  {
    assert Init(sources + [s]) == sources;
  }

  lemma UnreadOpened(sources: seq<Source>, inner: Option<Inner>)
    ensures Unread(sources + Opened(inner)) == Unread(sources) + (if inner.Some? then |inner.value.text| else 0)
  {
    if inner.Some? {
      UnreadSnoc(sources, Source(inner.value.text, 0, true, inner.value.depth));
    } else {
      assert sources + [] == sources;
    }
  }

  lemma AdvanceGood(c: Config, p: Policy)
    requires Good(c) && c.sources != []
    ensures Good(Advance(c, p))
  {
    hide Ok, NextToken, Push;
    var src := Last(c.sources);
    match NextToken(src.data, src.i, src.valuePos) {
      case None =>
      case Some(t) => PushOk(c.st, Held(t.tok, src.depth), p.keep, p.batch);
    }
  }

  /** A token costs no more than the text it was read from. */
  lemma CostPaid(data: Bytes, i: nat, valuePos: bool)
    requires i <= |data| && NextToken(data, i, valuePos).Some?
    ensures var t := NextToken(data, i, valuePos).value;
            Cost(t.tok) <= t.next - i && (!t.tok.Num? ==> Cost(t.tok) < t.next - i)
  {
    hide ParseInt, EncodeCp;
    TokenPaidFor(data, i, valuePos);
    var t := NextToken(data, i, valuePos).value;
    if t.tok.Num? && ParseInt(t.tok.num).Some? { CodeNoLongerThanLiteral(t.tok.num); }
  }

  /** The potential never grows, and falls with every token that is not a number; reading a
      number or ending a text leaves less unread or fewer texts. */
  lemma AdvanceDecreases(c: Config, p: Policy)
    requires Good(c) && c.sources != []
    ensures var d := Advance(c, p);
            || Potential(d) < Potential(c)
            || (Potential(d) == Potential(c) && Unread(d.sources) < Unread(c.sources))
            || (Potential(d) == Potential(c) && Unread(d.sources) == Unread(c.sources) && |d.sources| < |c.sources|)
  {
    hide NextToken, Push, Load, Cost, Spaced, InnerArgs, ArgOk, Nested;
    var src := Last(c.sources);
    var rest := Init(c.sources);
    assert c.sources == rest + [src];
    UnreadSnoc(rest, src);
    match NextToken(src.data, src.i, src.valuePos) {
      case None =>
      case Some(t) =>
        var q := Push(c.st, Held(t.tok, src.depth), p.keep, p.batch);
        var src' := src.(i := t.next, valuePos := t.valuePos);
        UnreadSnoc(rest, src');
        UnreadOpened(rest + [src'], q.inner);
        CostPaid(src.data, src.i, src.valuePos);
        PushLoad(c.st, Held(t.tok, src.depth), p.keep, p.batch);
        if q.inner.Some? { EvalByBracket(c.st, Held(t.tok, src.depth), p); }
    }
  }

  /** Only a closing bracket unrolls an `eval`. */
  lemma EvalByBracket(st: State, h: Held, p: Policy)
    requires Push(st, h, p.keep, p.batch).inner.Some?
    ensures !h.tok.Num?
  {}

  /** The loop to its end, the output never full. */
  function RunAll(c: Config, p: Policy): State
    requires Good(c)
    decreases Potential(c), Unread(c.sources), |c.sources|
  {
    if c.sources == [] then c.st
    else
      AdvanceGood(c, p); AdvanceDecreases(c, p);
      RunAll(Advance(c, p), p)
  }

  /** The loop as it is: it stops early once the output is full. */
  function Run(c: Config, p: Policy): State
    requires Good(c)
    decreases Potential(c), Unread(c.sources), |c.sources|
  {
    if c.sources == [] || EmitAll(NOTHING, c.st.written).cut then c.st
    else
      AdvanceGood(c, p); AdvanceDecreases(c, p);
      Run(Advance(c, p), p)
  }

  /** The rendering of a script, and whether it is cut short. */
  function Normalize(data: Bytes, p: Policy): (Bytes, bool) {
    StartGood(data);
    var st := Run(Start(data), p);
    var e := EmitAll(NOTHING, st.written);
    Clip(if e.cut then e else EmitAll(NOTHING, Finished(st)))
  }

  lemma StartGood(data: Bytes)
    ensures Good(Start(data))
  {}

  // ---------------------------------------------------------------- stopping early loses nothing

  lemma PushWrites(st: State, h: Held, keep: nat, batch: nat)
    ensures st.written <= Push(st, h, keep, batch).st.written
  {
    hide CalleeBehind, ArgPossible, Absorbed, Append, WeaveFront, CodeToks, Settled, Toks;
  }

  lemma {:induction false} RunAllWrites(c: Config, p: Policy)
    requires Good(c)
    ensures c.st.written <= RunAll(c, p).written <= Finished(RunAll(c, p))
    decreases Potential(c), Unread(c.sources), |c.sources|
  {
    hide Push, NextToken, WeaveFront;
    if c.sources != [] {
      AdvanceGood(c, p);
      AdvanceDecreases(c, p);
      var src := Last(c.sources);
      var t := NextToken(src.data, src.i, src.valuePos);
      if t.Some? { PushWrites(c.st, Held(t.value.tok, src.depth), p.keep, p.batch); }
      RunAllWrites(Advance(c, p), p);
    }
  }

  /** What is written when the loop stops is what the whole loop would have had written. */
  lemma {:induction false} StopEarly(c: Config, p: Policy)
    requires Good(c)
    ensures var st := Run(c, p);
            EmitAll(NOTHING, Finished(RunAll(c, p)))
              == (if EmitAll(NOTHING, st.written).cut then EmitAll(NOTHING, st.written) else EmitAll(NOTHING, Finished(st)))
    decreases Potential(c), Unread(c.sources), |c.sources|
  {
    hide Finished, Advance, Emit, EmitAll;
    if EmitAll(NOTHING, c.st.written).cut {
      RunAllWrites(c, p);
      CutIsFinal(c.st.written, Finished(RunAll(c, p)));
    } else if c.sources != [] {
      AdvanceGood(c, p);
      AdvanceDecreases(c, p);
      StopEarly(Advance(c, p), p);
    }
  }

  lemma NormalizeIsWhole(data: Bytes, p: Policy)
    ensures Good(Start(data)) && Normalize(data, p) == Clip(EmitAll(NOTHING, Finished(RunAll(Start(data), p))))
  {
    hide Finished, EmitAll, Run, RunAll;
    StartGood(data);
    StopEarly(Start(data), p);
  }

  // ---------------------------------------------------------------- the output derives from the script

  /** The tokens still to be read, the innermost text first. */
  function Pending(sources: seq<Source>): seq<Tok>
    requires Reading(sources)
  {
    if sources == [] then []
    else LexAll(Last(sources).data, Last(sources).i, Last(sources).valuePos) + Pending(Init(sources))
  }

  lemma PendingSnoc(sources: seq<Source>, s: Source)
    requires Reading(sources) && s.i <= |s.data|
    ensures Reading(sources + [s]) && Pending(sources + [s]) == LexAll(s.data, s.i, s.valuePos) + Pending(sources)
  {
    assert Init(sources + [s]) == sources;
  }

  lemma PendingOpened(sources: seq<Source>, inner: Option<Inner>)
    requires Reading(sources)
    ensures Reading(sources + Opened(inner)) && Pending(sources + Opened(inner)) == InnerToks(inner) + Pending(sources)
  {
    hide LexAll;
    if inner.Some? {
      PendingSnoc(sources, Source(inner.value.text, 0, true, inner.value.depth));
    } else {
      assert sources + [] == sources;
    }
  }

  /** No step of the run is the cap corner. */
  ghost predicate NeverMisplaces(c: Config, p: Policy)
    requires Good(c)
    decreases Potential(c), Unread(c.sources), |c.sources|
  {
    c.sources != [] ==>
      && (var src := Last(c.sources);
          var t := NextToken(src.data, src.i, src.valuePos);
          t.Some? ==> !Misplaces(c.st, Held(t.value.tok, src.depth)))
      && (AdvanceGood(c, p); AdvanceDecreases(c, p);
          NeverMisplaces(Advance(c, p), p))
  }

  /** One turn: what there was and what is still to be read derives what there is and what is still to be read. */
  lemma AdvanceSound(c: Config, p: Policy)
    requires Good(c) && c.sources != [] && Exact(c.st.held, c.st.calls) && NeverMisplaces(c, p)
    ensures Good(Advance(c, p)) && Exact(Advance(c, p).st.held, Advance(c, p).st.calls)
    ensures Derives(View(c.st) + Pending(c.sources), View(Advance(c, p).st) + Pending(Advance(c, p).sources))
  {
    hide Ok, Exact, View, Derives, NextToken, Push, Misplaces;
    AdvanceGood(c, p);
    var src, rest := Last(c.sources), Init(c.sources);
    assert c.sources == rest + [src];
    PendingSnoc(rest, src);
    match NextToken(src.data, src.i, src.valuePos) {
      case None =>
        assert [] + Pending(rest) == Pending(rest);
        DerivesRefl(View(c.st) + Pending(c.sources));
      case Some(t) =>
        var h := Held(t.tok, src.depth);
        var q := Push(c.st, h, p.keep, p.batch);
        var src' := src.(i := t.next, valuePos := t.valuePos);
        PushSound(c.st, h, p.keep, p.batch);
        PendingSnoc(rest, src');
        PendingOpened(rest + [src'], q.inner);
        TurnDerives(View(c.st), t.tok, View(q.st), InnerToks(q.inner), LexAll(src'.data, src'.i, src'.valuePos), Pending(rest));
    }
  }

  lemma TurnDerives(v: seq<Tok>, t: Tok, v': seq<Tok>, inner: seq<Tok>, more: seq<Tok>, rest: seq<Tok>)
    requires Derives(v + [t], v' + inner)
    ensures Derives(v + ([t] + more + rest), v' + (inner + (more + rest)))
  {
    hide Derives;
    DerivesThen(v + [t], v' + inner, more + rest);
    assert v + [t] + (more + rest) == v + ([t] + more + rest);
    assert v' + inner + (more + rest) == v' + (inner + (more + rest));
  }

  /** From any point of the run, the final tokens derive from what there is and what is still to be read. */
  lemma {:induction false} RunSound(c: Config, p: Policy)
    requires Good(c) && Exact(c.st.held, c.st.calls) && NeverMisplaces(c, p)
    ensures Derives(View(c.st) + Pending(c.sources), Finished(RunAll(c, p)))
    decreases Potential(c), Unread(c.sources), |c.sources|
  {
    hide Ok, Exact, View, Derives, Advance, Finished, Misplaces;
    if c.sources == [] {
      GiveUpAllView(c.st);
      assert View(c.st) + [] == View(c.st);
      DerivesRefl(View(c.st));
    } else {
      AdvanceDecreases(c, p);
      AdvanceSound(c, p);
      var d := Advance(c, p);
      RunSound(d, p);
      DerivesTrans(View(c.st) + Pending(c.sources), View(d.st) + Pending(d.sources), Finished(RunAll(c, p)));
    }
  }

  /** The rendering of a script is the writing of tokens that derive from the script's own. */
  lemma NormalizeSound(data: Bytes, p: Policy)
    requires Good(Start(data)) && NeverMisplaces(Start(data), p)
    ensures exists toks :: Derives(LexAll(data, 0, true), toks) && Normalize(data, p) == Clip(EmitAll(NOTHING, toks))
  {
    hide Derives, Finished, RunAll, EmitAll, NeverMisplaces, Pending, View, Exact, Start, Normalize;
    StartSees(data);
    RunSound(Start(data), p);
    NormalizeIsWhole(data, p);
  }

  /** At the start nothing is held and the whole script is still to be read. */
  lemma StartSees(data: Bytes)
    ensures Good(Start(data)) && Exact(Start(data).st.held, Start(data).st.calls)
    ensures View(Start(data).st) + Pending(Start(data).sources) == LexAll(data, 0, true)
  {
    hide LexAll;
    StartGood(data);
    StartView();
    assert Start(data).sources == [] + [Source(data, 0, true, 0)];
    PendingSnoc([], Source(data, 0, true, 0));
    assert [] + (LexAll(data, 0, true) + []) == LexAll(data, 0, true);
  }

  lemma StartView()
    ensures View(EMPTY) == []
  {}
}
