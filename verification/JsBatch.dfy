/** Batching is invisible: as long as no `eval` reduces, nothing written out could still have
    been joined or reduced, so the output does not depend on when settled tokens are written. */
module JsBatch {
  import opened ByteSeq
  import opened JsText
  import opened JsLexer
  import opened JsReducer
  import opened JsInvariant
  import opened JsRewrite
  import opened JsEmit
  import opened JsRun

  // ---------------------------------------------------------------- how far back a token can reach

  /** The string at the end, with or without a plus, that a string would join. */
  function JoinLen(held: seq<Held>): (n: nat)
    ensures n <= |held| && n <= 2
  {
    var n := |held|;
    if n >= 1 && held[n - 1].tok.Str? then 1
    else if n >= 2 && IsPlus(held[n - 1]) && held[n - 2].tok.Str? then 2
    else 0
  }

  function JoinFrom(held: seq<Held>): nat { |held| - JoinLen(held) }

  /** The callee at the end, or as much of one as has been read. */
  function CalleeLen(held: seq<Held>): (n: nat)
    ensures n <= |held| && n <= 3
  {
    var n := |held|;
    if n >= 3 && NamedString(held[n - 3]) && IsDot(held[n - 2]) && NamedFcc(held[n - 1]) then 3
    else if n >= 2 && NamedString(held[n - 2]) && IsDot(held[n - 1]) then 2
    else if n >= 1 && (Callee(held[n - 1]).Some? || NamedString(held[n - 1])) then 1
    else 0
  }

  /** Tokens before this one are beyond the reach of anything still to come. */
  function Frontier(held: seq<Held>): nat { JoinFrom(held[..|held| - CalleeLen(held)]) }

  /** At least one token more than the reach is left after `k` are written. */
  ghost predicate Safe(u: State, k: nat) {
    k == 0 ||
    if u.calls == [] then k < Frontier(u.held)
    else u.calls[0].start <= |u.held| && k < JoinFrom(u.held[..u.calls[0].start]) && k + 2 <= u.calls[0].open
  }

  lemma SafeBeforeCalls(u: State, k: nat)
    requires Nested(u.held, u.calls) && Safe(u, k)
    ensures k <= |u.held| && forall i :: 0 <= i < |u.calls| ==> k <= u.calls[i].start
  {}

  /** The reach stops at a bracket. */
  lemma FrontierAfterBracket(held: seq<Held>, i: nat)
    requires i < |held| && held[i].tok == Punct(LPAREN)
    ensures i < Frontier(held) && i < JoinFrom(held)
  {
    NamesNotBracket(held[i]);
    hide IsNamed, NamedString, NamedFcc, Callee;
    var c := CalleeLen(held);
    assert c >= 1 ==> i != |held| - 1;
    assert c >= 2 ==> i != |held| - 2;
    assert c >= 3 ==> i != |held| - 3;
    var front := held[..|held| - c];
    assert front[i] == held[i];
  }

  lemma NamesNotBracket(h: Held)
    requires h.tok.Punct?
    ensures !NamedString(h) && !NamedFcc(h) && Callee(h) == None
  {}

  lemma StringNotFcc(h: Held)
    ensures NamedString(h) ==> h.tok.Ident? && !NamedFcc(h)
  {
    assert |Ascii("string")| == 6 && |Ascii("fromcharcode")| == 12;
  }

  // ---------------------------------------------------------------- holding a token

  lemma CutThenShift(held: seq<Held>, k: nat, m: nat, x: Held)
    requires k <= m <= |held|
    ensures (held[..m] + [x])[k..] == held[k..][..m - k] + [x]
  {}

  /** Joining reaches no further than `JoinFrom`. */
  lemma AppendShift(held: seq<Held>, k: nat, h: Held)
    requires k <= |held| && (h.tok.Str? ==> k <= JoinFrom(held))
    ensures k <= |Append(held, h)| && Append(held[k..], h) == Append(held, h)[k..]
  {
    var n := |held|;
    var s := held[k..];
    assert k < n ==> s[|s| - 1] == held[n - 1];
    assert k + 1 < n ==> s[|s| - 2] == held[n - 2];
    if h.tok.Str? && JoinLen(held) > 0 {
      var m := JoinFrom(held);
      CutThenShift(held, k, m, Held(Str(held[m].tok.s + h.tok.s), held[m].depth));
    } else {
      CutThenShift(held, k, n, h);
      assert held[..n] == held && s[..n - k] == s;
    }
  }

  /** After a string the reach starts at that string. */
  lemma FrontierOfString(held: seq<Held>, h: Held)
    requires h.tok.Str?
    ensures Frontier(Append(held, h)) >= JoinFrom(held)
  {
    var a := Append(held, h);
    StringNotCallee(a[|a| - 1]);
    hide Callee, NamedString, NamedFcc;
    assert CalleeLen(a) == 0;
    assert a[..|a|] == a;
  }

  lemma StringNotCallee(h: Held)
    requires h.tok.Str?
    ensures !NamedString(h) && !NamedFcc(h) && Callee(h) == None && !IsDot(h)
  {}

  /** No token moves the reach back. */
  lemma FrontierGrows(held: seq<Held>, h: Held)
    ensures Frontier(Append(held, h)) >= Frontier(held)
  {
    if h.tok.Str? {
      FrontierOfString(held, h);
      FrontierBelowJoin(held);
    } else {
      FrontierPush(held, h);
    }
  }

  lemma FrontierBelowJoin(held: seq<Held>)
    ensures Frontier(held) <= JoinFrom(held)
  {
    var n, c := |held|, CalleeLen(held);
    if c == 0 {
      assert held[..n] == held;
    } else {
      assert JoinLen(held) == 0 by { LastOfCallee(held); }
    }
  }

  lemma LastOfCallee(held: seq<Held>)
    requires CalleeLen(held) > 0
    ensures held != [] && !Last(held).tok.Str? && !IsPlus(Last(held))
  {}

  lemma FrontierPush(held: seq<Held>, h: Held)
    requires !h.tok.Str?
    ensures Frontier(held + [h]) >= Frontier(held)
  {
    hide IsNamed, Callee;
    var n := |held|;
    var a := held + [h];
    var c, c' := CalleeLen(held), CalleeLen(a);
    assert forall i :: 0 <= i < n ==> a[i] == held[i];
    FrontierBelowJoin(held);
    if c' == 0 {
      assert a[..n + 1] == a;
      if IsPlus(h) && n >= 1 && held[n - 1].tok.Str? {
        assert JoinLen(held) == 1 && JoinLen(a) == 2;
      } else {
        assert JoinLen(a) == 0;
      }
    } else if c' == 1 {
      assert a[..n] == held;
    } else {
      StringNotFcc(held[n - 1]);
      if c' == 3 { NamesNotBracket(held[n - 1]); }
      assert c == c' - 1;
      assert a[..n + 1 - c'] == held[..n - c];
    }
  }

  // ---------------------------------------------------------------- giving up

  lemma {:induction false} CutShift(calls: seq<Call>, k: nat, from: nat)
    requires forall i :: 0 <= i < |calls| ==> k <= calls[i].open
    ensures k <= from ==> CutAt(Shift(calls, k), from - k) == CutAt(calls, from) - k && k <= CutAt(calls, from)
    ensures CutAt(calls, 0) > 0 ==> CutAt(Shift(calls, k), 0) == CutAt(calls, 0) - k && k <= CutAt(calls, 0)
    ensures CutAt(calls, 0) == 0 ==> CutAt(Shift(calls, k), 0) == 0
    decreases |calls|
  {
    hide Shift;
    if calls != [] {
      ShiftCons(calls, k);
      if calls[0].kind.FromCharCode? {
        CutShift(calls[1..], k, calls[0].open + 1);
      } else {
        CutShift(calls[1..], k, from);
      }
    }
  }

  lemma {:induction false} CutGrows(calls: seq<Call>, from: nat, end: nat)
    requires Before(calls, from, end)
    ensures from <= CutAt(calls, from) <= end
    decreases |calls|
  {
    hide Before;
    BeforeFrom(calls, from, end);
    if calls != [] {
      BeforeTail(calls, from, end);
      CutGrows(calls[1..], if calls[0].kind.FromCharCode? then calls[0].open + 1 else from, end);
    }
  }

  lemma {:induction false} NoCutNoWeave(held: seq<Held>, calls: seq<Call>, from: nat, end: nat)
    requires Before(calls, from, end) && CutAt(calls, from) == from
    ensures WeaveFront(held, calls, from) == []
    decreases |calls|
  {
    hide Before;
    if calls != [] {
      BeforeFrom(calls, from, end);
      BeforeTail(calls, from, end);
      if calls[0].kind.FromCharCode? {
        CutGrows(calls[1..], calls[0].open + 1, end);
      } else {
        NoCutNoWeave(held, calls[1..], from, end);
      }
    }
  }

  /** How many of the tokens written early still wait in the other run once everything is given up. */
  function AfterGiveUp(calls: seq<Call>, k: nat): nat { if CutAt(calls, 0) > 0 then 0 else k }

  lemma CancelRight(a: seq<Tok>, b: seq<Tok>, c: seq<Tok>)
    requires a + c == b + c
    ensures a == b
  {
    assert |a| == |b|;
    forall i | 0 <= i < |a| ensures a[i] == b[i] { assert (a + c)[i] == (b + c)[i]; }
  }

  /** What is written in giving up includes the tokens written early, or there is nothing to write. */
  lemma WeaveFrontShift(held: seq<Held>, calls: seq<Call>, k: nat)
    requires Before(calls, k, |held|)
    ensures var shifted := Shift(calls, k);
            if CutAt(calls, 0) > 0 then
              && k <= CutAt(calls, 0) && CutAt(shifted, 0) == CutAt(calls, 0) - k
              && WeaveFront(held, calls, 0) == Toks(held[..k]) + WeaveFront(held[k..], shifted, 0)
            else
              CutAt(shifted, 0) == 0 && WeaveFront(held, calls, 0) == [] && WeaveFront(held[k..], shifted, 0) == []
  {
    hide Before, Toks, Shift, WeaveFront, CutAt, Weave, Drop;
    BeforeFrom(calls, k, |held|);
    BeforeWiden(calls, k, |held|);
    CutShift(calls, k, 0);
    if CutAt(calls, 0) > 0 {
      WeaveCut(held, calls, k);
      WeaveSplit(held, calls, 0);
      WeaveSplit(held[k..], Shift(calls, k), 0);
      CutGrows(calls, 0, |held|);
      ShiftedTail(held, k, CutAt(calls, 0));
      var tail := Toks(Drop(held, CutAt(calls, 0)));
      Assoc(Toks(held[..k]), WeaveFront(held[k..], Shift(calls, k), 0), tail);
      CancelRight(WeaveFront(held, calls, 0), Toks(held[..k]) + WeaveFront(held[k..], Shift(calls, k), 0), tail);
    } else {
      NoCutNoWeave(held, calls, 0, |held|);
      BeforeShifted(held, calls, k);
      NoCutNoWeave(held[k..], Shift(calls, k), 0, |held| - k);
    }
  }

  lemma GiveUpAllShift(u: State, k: nat)
    requires Nested(u.held, u.calls) && k <= |u.held|
    requires forall i :: 0 <= i < |u.calls| ==> k <= u.calls[i].start
    ensures GiveUpAll(WriteFront(u, k)) == WriteFront(GiveUpAll(u), AfterGiveUp(u.calls, k))
  {
    hide Nested, Toks, Shift, WeaveFront, CutAt;
    BeforeOf(u.held, u.calls, k);
    WeaveFrontShift(u.held, u.calls, k);
    NoShift();
    ToksNone();
    var cut := CutAt(u.calls, 0);
    if cut > 0 {
      Assoc(u.written, Toks(u.held[..k]), WeaveFront(u.held[k..], Shift(u.calls, k), 0));
      BeforeWiden(u.calls, k, |u.held|);
      CutGrows(u.calls, 0, |u.held|);
      ShiftedTail(u.held, k, cut);
      WriteNothing(GiveUpAll(u));
    } else {
      assert Drop(u.held, 0) == u.held && Drop(u.held[k..], 0) == u.held[k..];
    }
  }

  lemma WriteNothing(u: State)
    requires u.calls == []
    ensures WriteFront(u, 0) == u
  {
    assert Drop(u.held, 0) == u.held;
  }

  lemma NoShift()
    ensures forall n :: Shift([], n) == []
  {}

  lemma ToksNone()
    ensures Toks([]) == []
  {}

  lemma BeforeWiden(calls: seq<Call>, k: nat, end: nat)
    requires Before(calls, k, end)
    ensures Before(calls, 0, end) && forall i :: 0 <= i < |calls| ==> k <= calls[i].open
  {}

  lemma BeforeShifted(held: seq<Held>, calls: seq<Call>, k: nat)
    requires Before(calls, k, |held|) && k <= |held|
    ensures Before(Shift(calls, k), 0, |held| - k)
  {}

  // ---------------------------------------------------------------- one token, one run ahead of the other

  /** How far ahead a run that wrote `k` tokens early is after one more token. */
  function NextAhead(u: State, k: nat, h: Held): nat {
    if |Step(u, h).st.written| > |u.written| then 0 else k
  }

  /** The run ahead takes the same step. */
  ghost predicate InStep(u: State, k: nat, next: Pushed, next': Pushed, k': nat) {
    && next'.inner == next.inner
    && next'.st == WriteFront(next.st, k')
    && k' == (if |next.st.written| > |u.written| then 0 else k)
    && Safe(next.st, k')
  }

  lemma ShiftLast(calls: seq<Call>, k: nat)
    requires calls != [] && k <= Last(calls).start <= Last(calls).open
    ensures Shift(calls, k) != [] && Init(Shift(calls, k)) == Shift(Init(calls), k)
    ensures Last(Shift(calls, k)) == Last(calls).(start := Last(calls).start - k, open := Last(calls).open - k)
  {}

  lemma ShiftSnoc(calls: seq<Call>, c: Call, k: nat)
    requires k <= c.start <= c.open
    ensures Shift(calls + [c], k) == Shift(calls, k) + [c.(start := c.start - k, open := c.open - k)]
  {}

  lemma AbsorbedShift(u: State, k: nat, h: Held)
    requires Nested(u.held, u.calls) && Safe(u, k)
    ensures Absorbed(WriteFront(u, k), h) == Absorbed(u, h)
  {
    hide Safe, Shift, ParseInt, Nested;
    SafeBeforeCalls(u, k);
    if u.calls != [] {
      LastBracket(u.held, u.calls);
      assert k <= u.calls[|u.calls| - 1].start;
      ShiftLast(u.calls, k);
    } else {
      NoShift();
    }
  }

  /** Giving up everything writes something exactly when a `fromCharCode` is given up. */
  lemma GiveUpWrites(v: State, k: nat)
    requires Nested(v.held, v.calls)
    ensures AfterGiveUp(v.calls, k) == (if |GiveUpAll(v).written| > |v.written| then 0 else k)
    ensures AfterGiveUp(v.calls, k) > 0 ==> GiveUpAll(v).held == v.held
  {
    hide Nested, WeaveFront, CutAt;
    BeforeOf(v.held, v.calls, 0);
    CutGrows(v.calls, 0, |v.held|);
    if CutAt(v.calls, 0) > 0 {
      WeaveSomething(v.held, v.calls);
    } else {
      NoCutNoWeave(v.held, v.calls, 0, |v.held|);
      assert Drop(v.held, 0) == v.held;
    }
  }

  /** What was written early stays out of reach when a bracket is held after it. */
  lemma GiveUpSafe(v: State, k: nat)
    requires Nested(v.held, v.calls)
    requires k > 0 ==> exists i :: k <= i < |v.held| && v.held[i].tok == Punct(LPAREN)
    ensures Safe(GiveUpAll(v), AfterGiveUp(v.calls, k))
  {
    hide Nested, WeaveFront, CutAt, Frontier;
    GiveUpWrites(v, k);
    if AfterGiveUp(v.calls, k) > 0 {
      var i :| k <= i < |v.held| && v.held[i].tok == Punct(LPAREN);
      FrontierAfterBracket(v.held, i);
    }
  }

  /** A `fromCharCode` given up writes at least its bracket. */
  lemma WeaveSomething(held: seq<Held>, calls: seq<Call>)
    requires Nested(held, calls) && CutAt(calls, 0) > 0
    ensures WeaveFront(held, calls, 0) != []
  {
    hide Nested, Toks;
    BeforeOf(held, calls, 0);
    WeaveSplit(held, calls, 0);
    WeaveNoShorter(held, calls, 0);
    CutGrows(calls, 0, |held|);
    assert |Drop(held, CutAt(calls, 0))| == |held| - CutAt(calls, 0);
    ToksLen(Drop(held, CutAt(calls, 0)));
  }

  lemma ToksLen(held: seq<Held>)
    ensures |Toks(held)| == |held|
  {}

  lemma {:induction false} WeaveNoShorter(held: seq<Held>, calls: seq<Call>, from: nat)
    requires Before(calls, from, |held|)
    ensures |Weave(held, calls, from)| >= |held| - from
    decreases |calls|
  {
    hide Before, CodeToks;
    BeforeFrom(calls, from, |held|);
    if calls != [] {
      BeforeTail(calls, from, |held|);
      WeaveNoShorter(held, calls[1..], if calls[0].kind.FromCharCode? then calls[0].open + 1 else from);
    }
  }

  /** A token held: the same join, and the reach not moved back. */
  lemma TakeInStep(u: State, k: nat, h: Held)
    requires CallsOk(u.held, u.calls) && Safe(u, k)
    ensures InStep(u, k, Pushed(Take(u, h), None), Pushed(Take(WriteFront(u, k), h), None), if |Take(u, h).written| > |u.written| then 0 else k)
  {
    hide Spaced, InnerArgs, ArgPossible, Shift, Append, Nested, Toks;
    SafeBeforeCalls(u, k);
    AbsorbedShift(u, k, h);
    if u.calls == [] {
      TakeInStepAlone(u, k, h);
    } else {
      LastBracket(u.held, u.calls);
      assert k <= Last(u.calls).start;
      ShiftLast(u.calls, k);
      if Absorbed(u, h).Some? {
        AbsorbInStep(u, k, h);
      } else {
        HoldInStep(u, k, h);
      }
    }
  }

  lemma TakeInStepAlone(u: State, k: nat, h: Held)
    requires u.calls == [] && k <= |u.held| && (k == 0 || k < Frontier(u.held) || (h.tok.Str? && k < JoinFrom(u.held)))
    ensures Take(WriteFront(u, k), h) == WriteFront(Take(u, h), k)
    ensures Take(u, h).written == u.written && Safe(Take(u, h), k)
  {
    hide Append, Frontier, JoinFrom;
    NoShift();
    FrontierBelowJoin(u.held);
    AppendShift(u.held, k, h);
    AppendFront(u.held, k, h);
    FrontierGrows(u.held, h);
    if h.tok.Str? { FrontierOfString(u.held, h); }
  }

  /** Nothing before `k` changes. */
  lemma AppendFront(held: seq<Held>, k: nat, h: Held)
    requires k <= |held| && (h.tok.Str? ==> k <= JoinFrom(held))
    ensures k <= |Append(held, h)| && Append(held, h)[..k] == held[..k]
  {
    if h.tok.Str? && JoinLen(held) > 0 {
      var m := JoinFrom(held);
      assert (held[..m] + [Held(Str(held[m].tok.s + h.tok.s), held[m].depth)])[..k] == held[..k];
    }
  }

  /** A number or a comma kept as a value. */
  lemma AbsorbInStep(u: State, k: nat, h: Held)
    requires Nested(u.held, u.calls) && Safe(u, k) && Absorbed(u, h).Some? && Absorbed(WriteFront(u, k), h) == Absorbed(u, h)
    ensures Take(WriteFront(u, k), h) == WriteFront(Take(u, h), k)
    ensures Take(u, h).written == u.written && Safe(Take(u, h), k)
  {
    hide Absorbed, Shift, Toks, JoinFrom, Nested;
    SafeBeforeCalls(u, k);
    AbsorbedHasCall(u, h);
    var calls, c := Init(u.calls), Last(u.calls);
    var c' := c.(kind := Absorbed(u, h).value);
    LastBracket(u.held, u.calls);
    assert k <= c.start;
    ShiftLast(u.calls, k);
    ShiftSnoc(calls, c', k);
    assert Take(u, h).calls[0].start == u.calls[0].start && Take(u, h).calls[0].open == u.calls[0].open;
  }

  lemma AbsorbedHasCall(u: State, h: Held)
    requires Absorbed(u, h).Some?
    ensures u.calls != []
  {}

  /** The held tokens with one more, in both runs. */
  lemma HeldShift(u: State, k: nat, h: Held)
    requires CallsOk(u.held, u.calls) && Safe(u, k) && u.calls != []
    ensures var v, o := u.(held := Append(u.held, h)), Last(u.calls).open;
            && k <= o < |v.held| && v.held[o].tok == Punct(LPAREN)
            && CallsOk(v.held, v.calls) && Safe(v, k)
            && WriteFront(v, k) == WriteFront(u, k).(held := Append(WriteFront(u, k).held, h))
            && Drop(WriteFront(v, k).held, o + 1 - k) == Drop(v.held, o + 1)
  {
    hide Nested, Spaced, InnerArgs, Shift, Append, Toks, Safe;
    var v, o := u.(held := Append(u.held, h)), Last(u.calls).open;
    SafeBeforeCalls(u, k);
    LastBracket(u.held, u.calls);
    assert k <= Last(u.calls).start;
    FrontierAfterBracket(u.held, o);
    AppendShift(u.held, k, h);
    AppendFront(u.held, k, h);
    AppendAfter(u.held, h, o);
    AppendOk(u.held, u.calls, h);
    assert v.held[..o + 1][o] == u.held[..o + 1][o];
    ShiftedTail(v.held, k, o + 1);
    SafeKept(u, v, k, o + 1);
  }

  /** A token held in an open call's argument. */
  lemma HoldInStep(u: State, k: nat, h: Held)
    requires CallsOk(u.held, u.calls) && Safe(u, k) && u.calls != []
    requires Absorbed(u, h) == None && Absorbed(WriteFront(u, k), h) == None
    ensures InStep(u, k, Pushed(Take(u, h), None), Pushed(Take(WriteFront(u, k), h), None), if |Take(u, h).written| > |u.written| then 0 else k)
  {
    hide CallsOk, ArgPossible, Shift, Append, Toks, Absorbed, Safe, GiveUpAll, WriteFront;
    var v, o := u.(held := Append(u.held, h)), Last(u.calls).open;
    HeldShift(u, k, h);
    ShiftLastWritten(u, k);
    GiveUpHeld(u, v, k, o);
  }

  lemma ShiftLastWritten(u: State, k: nat)
    requires CallsOk(u.held, u.calls) && Safe(u, k) && u.calls != []
    ensures var calls := WriteFront(u, k).calls;
            && calls != [] && Last(calls).kind == Last(u.calls).kind
            && k <= Last(u.calls).open && Last(calls).open == Last(u.calls).open - k
  {
    hide Nested, Spaced, InnerArgs, Shift, Toks, Safe;
    SafeBeforeCalls(u, k);
    LastBracket(u.held, u.calls);
    assert k <= Last(u.calls).start;
    ShiftLast(u.calls, k);
  }

  lemma GiveUpHeld(u: State, v: State, k: nat, o: nat)
    requires CallsOk(v.held, v.calls) && Safe(v, k) && v.written == u.written
    requires k <= o < |v.held| && v.held[o].tok == Punct(LPAREN)
    ensures var k' := if |GiveUpAll(v).written| > |u.written| then 0 else k;
            GiveUpAll(WriteFront(v, k)) == WriteFront(GiveUpAll(v), k') && Safe(GiveUpAll(v), k')
  {
    hide Nested, Spaced, InnerArgs, Safe, GiveUpAll, WriteFront;
    SafeBeforeCalls(v, k);
    GiveUpAllShift(v, k);
    GiveUpWrites(v, k);
    GiveUpSafe(v, k);
  }

  lemma SafeKept(u: State, v: State, k: nat, m: nat)
    requires Safe(u, k) && Nested(u.held, u.calls) && u.calls != [] && v.calls == u.calls
    requires Last(u.calls).open < m <= |u.held| && m <= |v.held| && u.held[..m] == v.held[..m]
    ensures Safe(v, k)
  {
    hide JoinFrom;
    var s := u.calls[0].start;
    LastBracket(u.held, u.calls);
    assert u.held[..s] == u.held[..m][..s] && v.held[..s] == v.held[..m][..s];
  }

  // ---------------------------------------------------------------- opening a call

  lemma CalleeShift(held: seq<Held>, k: nat)
    requires k <= |held| && (CalleeBehind(held).Some? ==> k <= CalleeBehind(held).value.1)
    ensures CalleeBehind(held).Some? == CalleeBehind(held[k..]).Some?
    ensures CalleeBehind(held).Some? ==>
              && CalleeBehind(held[k..]).value.0 == CalleeBehind(held).value.0
              && CalleeBehind(held[k..]).value.1 == CalleeBehind(held).value.1 - k
  {
    hide Callee, NamedString;
    var n, s := |held|, held[k..];
    assert k < n ==> s[|s| - 1] == held[n - 1];
    assert k + 1 < n ==> s[|s| - 2] == held[n - 2];
    assert k + 2 < n ==> s[|s| - 3] == held[n - 3];
  }

  /** A callee right before the bracket starts where the reach does, but for the string before it. */
  lemma CalleeAtReach(held: seq<Held>)
    requires CalleeBehind(held).Some?
    ensures CalleeBehind(held).value.1 == |held| - CalleeLen(held) < |held|
  {
    hide SameName, Ascii;
    var h := held[|held| - 1];
    StringNotFcc(h);
  }

  lemma CalleeBeyond(u: State, k: nat)
    requires CallsOk(u.held, u.calls) && Safe(u, k) && CalleeBehind(u.held).Some?
    ensures k <= CalleeBehind(u.held).value.1 < |u.held|
    ensures k > 0 && u.calls == [] ==> k < JoinFrom(u.held[..CalleeBehind(u.held).value.1])
  {
    hide Nested, Spaced, InnerArgs, CalleeBehind, CalleeLen;
    CalleeAtReach(u.held);
    SafeBeforeCalls(u, k);
    if u.calls != [] {
      CalleeAfterBracket(u, CalleeBehind(u.held).value.1);
      LastBracket(u.held, u.calls);
      assert k <= Last(u.calls).start;
    }
  }

  lemma FirstBracket(held: seq<Held>, calls: seq<Call>)
    requires Nested(held, calls) && calls != []
    ensures calls[0].start <= calls[0].open < |held|
  {}

  /** Giving up the outermost call in both runs. */
  lemma OutermostInStep(u: State, k: nat)
    requires Nested(u.held, u.calls) && Safe(u, k) && |u.calls| >= 2
    ensures var g := GiveUpOutermost(u);
            if u.calls[0].kind.FromCharCode? then
              GiveUpOutermost(WriteFront(u, k)) == g && |g.written| > |u.written|
            else
              GiveUpOutermost(WriteFront(u, k)) == WriteFront(g, k) && g.written == u.written && Safe(g, k)
  {
    hide Safe, Toks, CodeToks, Nested, WriteFront;
    SafeBeforeCalls(u, k);
    if u.calls[0].kind.FromCharCode? {
      OutermostCodes(u, k);
    } else {
      FirstBracket(u.held, u.calls);
      ShiftedFirst(u, k);
      SafeNext(u, k);
    }
  }

  lemma ShiftedFirst(u: State, k: nat)
    requires u.calls != [] && k <= u.calls[0].open
    ensures var v := WriteFront(u, k);
            && v.calls != [] && v.calls[0].kind == u.calls[0].kind
            && v.(calls := v.calls[1..]) == WriteFront(u.(calls := u.calls[1..]), k)
  {
    hide Toks;
    if k <= |u.held| { ShiftCons(u.calls, k); }
    assert Shift(u.calls, Min(k, |u.held|))[1..] == Shift(u.calls[1..], Min(k, |u.held|));
  }

  lemma OutermostCodes(u: State, k: nat)
    requires Nested(u.held, u.calls) && u.calls != [] && u.calls[0].kind.FromCharCode? && k <= |u.held|
    requires forall i :: 0 <= i < |u.calls| ==> k <= u.calls[i].start
    ensures GiveUpOutermost(WriteFront(u, k)) == GiveUpOutermost(u) && |GiveUpOutermost(u).written| > |u.written|
  {
    hide Toks, CodeToks, Nested, Shift;
    OutermostShift(u);
    FirstBracket(u.held, u.calls);
    ShiftCons(u.calls, k);
    var o := u.calls[0].open + 1;
    ShiftTwice(u.calls[1..], k, o);
    CutTwice(u.held, k, o);
    ToksAppend(u.held[..k], u.held[k..][..o - k]);
    Assoc(u.written, Toks(u.held[..k]), Toks(u.held[k..][..o - k]));
    ToksLen(u.held[..o]);
  }

  lemma ShiftTwice(calls: seq<Call>, k: nat, o: nat)
    requires k <= o && forall i :: 0 <= i < |calls| ==> o <= calls[i].start
    ensures forall i :: 0 <= i < |calls| ==> o <= calls[i].start
    ensures Shift(Shift(calls, k), o - k) == Shift(calls, o)
  {
    var a, b := Shift(Shift(calls, k), o - k), Shift(calls, o);
    forall i | 0 <= i < |calls| ensures a[i] == b[i] {}
  }

  lemma CutTwice(held: seq<Held>, k: nat, o: nat)
    requires k <= o <= |held|
    ensures held[..o] == held[..k] + held[k..][..o - k] && held[k..][o - k..] == held[o..]
  {}

  lemma SafeNext(u: State, k: nat)
    requires Nested(u.held, u.calls) && Safe(u, k) && |u.calls| >= 2
    ensures Safe(u.(calls := u.calls[1..]), k)
  {
    hide JoinFrom;
    var (a, b) := (u.calls[0], u.calls[1]);
    assert a.open < b.start <= b.open < |u.held|;
    var front := u.held[..b.start];
    assert front[a.open].tok == Punct(LPAREN);
    FrontierAfterBracket(front, a.open);
  }

  lemma WriteZero(u: State)
    ensures WriteFront(u, 0) == u
  {
    assert Drop(u.held, 0) == u.held && Shift(u.calls, 0) == u.calls;
  }

  /** A call opened in both runs. */
  lemma OpenedInStep(v: State, k: nat, c: Call, h: Held)
    requires Nested(v.held, v.calls) && Safe(v, k) && h.tok == Punct(LPAREN)
    requires k <= c.start <= c.open == |v.held|
    requires v.calls == [] && k > 0 ==> c.start < c.open && k < JoinFrom(v.held[..c.start])
    ensures var v' := State(v.written, v.held + [h], v.calls + [c]);
            && State(WriteFront(v, k).written, WriteFront(v, k).held + [h],
                     WriteFront(v, k).calls + [c.(start := c.start - k, open := c.open - k)]) == WriteFront(v', k)
            && Safe(v', k)
  {
    hide Nested, Shift, Toks, JoinLen;
    SafeBeforeCalls(v, k);
    ShiftSnoc(v.calls, c, k);
    var v' := State(v.written, v.held + [h], v.calls + [c]);
    assert Front(v'.held, k) == Front(v.held, k) && Drop(v'.held, k) == Drop(v.held, k) + [h];
    if v.calls == [] {
      assert v'.calls[0] == c && v'.held[..c.start] == v.held[..c.start];
    } else {
      FirstBracket(v.held, v.calls);
      assert v'.calls[0] == v.calls[0];
      assert v'.held[..v.calls[0].start] == v.held[..v.calls[0].start];
    }
  }

  lemma OpenInStep(u: State, k: nat, h: Held)
    requires Ok(u) && Safe(u, k) && h.tok == Punct(LPAREN)
    ensures InStep(u, k, Pushed(Open(u, h), None), Pushed(Open(WriteFront(u, k), h), None), if |Open(u, h).written| > |u.written| then 0 else k)
  {
    hide Nested, Spaced, InnerArgs, ArgOk, Shift, CalleeBehind, GiveUpOutermost, GiveUpAll, Toks, Safe;
    SafeBeforeCalls(u, k);
    if CalleeBehind(u.held).Some? { CalleeBeyond(u, k); }
    CalleeShift(u.held, k);
    if CalleeBehind(u.held).None? {
      BracketInStep(u, k, h);
    } else {
      CalleeWhere(u.held);
      assert Last(u.held[k..]) == Last(u.held);
      if |u.calls| == MAX_OPEN_CALLS {
        OpenAtCap(u, k, h);
      } else {
        OpenBelowCap(u, k, h);
      }
    }
  }

  /** A bracket that opens no call. */
  lemma BracketInStep(u: State, k: nat, h: Held)
    requires Ok(u) && Safe(u, k) && h.tok == Punct(LPAREN) && CalleeBehind(u.held).None? && CalleeBehind(WriteFront(u, k).held).None?
    ensures InStep(u, k, Pushed(Open(u, h), None), Pushed(Open(WriteFront(u, k), h), None), if |Open(u, h).written| > |u.written| then 0 else k)
  {
    hide Nested, Spaced, InnerArgs, ArgOk, WriteFront, CalleeBehind, Frontier, GiveUpAll, AfterGiveUp;
    var g, k' := GiveUpAll(u), AfterGiveUp(u.calls, k);
    SafeBeforeCalls(u, k);
    GiveUpEmpties(u);
    GiveUpAllShift(u, k);
    GiveUpWrites(u, k);
    PushInStep(g, k', h);
    assert (g.held + [h])[|g.held|] == h;
    FrontierAfterBracket(g.held + [h], |g.held|);
  }

  lemma GiveUpEmpties(u: State)
    ensures GiveUpAll(u).calls == []
  {}

  lemma PushInStep(g: State, k: nat, h: Held)
    requires g.calls == [] && k <= |g.held|
    ensures WriteFront(g, k).(held := WriteFront(g, k).held + [h]) == WriteFront(g.(held := g.held + [h]), k)
  {
    assert Front(g.held + [h], k) == Front(g.held, k) && Drop(g.held + [h], k) == Drop(g.held, k) + [h];
  }

  lemma OpenBelowCap(u: State, k: nat, h: Held)
    requires Ok(u) && Safe(u, k) && h.tok == Punct(LPAREN) && CalleeBehind(u.held).Some? && |u.calls| != MAX_OPEN_CALLS
    requires k < |u.held| && Last(WriteFront(u, k).held) == Last(u.held)
    requires var (a, b) := (CalleeBehind(u.held), CalleeBehind(WriteFront(u, k).held));
             b.Some? && b.value.0 == a.value.0 && k <= a.value.1 && b.value.1 == a.value.1 - k
    ensures InStep(u, k, Pushed(Open(u, h), None), Pushed(Open(WriteFront(u, k), h), None), k) && Open(u, h).written == u.written
  {
    hide Nested, Spaced, InnerArgs, ArgOk, Shift, CalleeBehind, Toks, Safe;
    CalleeBeyond(u, k);
    CalleeWhere(u.held);
    var (kind, start) := CalleeBehind(u.held).value;
    OpenedInStep(u, k, Call(kind, start, |u.held|, Last(u.held).depth), h);
  }

  /** The callee found in the run ahead is the callee found in the other. */
  ghost predicate SameCallee(u: State, v: State, k: nat) {
    && u.held != [] && v.held != [] && Last(v.held) == Last(u.held)
    && CalleeBehind(u.held).Some? && CalleeBehind(v.held).Some?
    && CalleeBehind(v.held).value.0 == CalleeBehind(u.held).value.0
    && k <= CalleeBehind(u.held).value.1 && CalleeBehind(v.held).value.1 == CalleeBehind(u.held).value.1 - k
  }

  lemma OpenAtCap(u: State, k: nat, h: Held)
    requires Ok(u) && Safe(u, k) && h.tok == Punct(LPAREN) && |u.calls| == MAX_OPEN_CALLS && SameCallee(u, WriteFront(u, k), k)
    ensures InStep(u, k, Pushed(Open(u, h), None), Pushed(Open(WriteFront(u, k), h), None), if |Open(u, h).written| > |u.written| then 0 else k)
  {
    hide Nested, Spaced, InnerArgs, ArgOk, CalleeBehind, GiveUpOutermost, Safe, WriteFront, Open;
    OutermostInStep(u, k);
    if u.calls[0].kind.FromCharCode? {
      CapWithCodes(u, k, h);
      SafeZero(Open(u, h));
      WriteZero(Open(u, h));
    } else {
      CapPlain(u, k, h);
    }
  }

  lemma CapWithCodes(u: State, k: nat, h: Held)
    requires Ok(u) && Safe(u, k) && |u.calls| == MAX_OPEN_CALLS && u.calls[0].kind.FromCharCode? && SameCallee(u, WriteFront(u, k), k)
    requires GiveUpOutermost(WriteFront(u, k)) == GiveUpOutermost(u) && |GiveUpOutermost(u).written| > |u.written|
    ensures Open(WriteFront(u, k), h) == Open(u, h) && |Open(u, h).written| > |u.written|
  {
    hide Nested, Spaced, InnerArgs, ArgOk, CalleeBehind, GiveUpOutermost, Safe, WriteFront;
    CapSizes(u, k);
    CalleeWhere(u.held);
    CapStarts(u, k, CalleeBehind(u.held).value.1);
    OpenSame(u, WriteFront(u, k), h);
  }

  lemma CapPlain(u: State, k: nat, h: Held)
    requires Ok(u) && Safe(u, k) && |u.calls| == MAX_OPEN_CALLS && !u.calls[0].kind.FromCharCode? && SameCallee(u, WriteFront(u, k), k)
    requires var g := GiveUpOutermost(u);
             GiveUpOutermost(WriteFront(u, k)) == WriteFront(g, k) && g.written == u.written && Safe(g, k)
    requires h.tok == Punct(LPAREN)
    ensures Open(u, h).written == u.written && Open(WriteFront(u, k), h) == WriteFront(Open(u, h), k) && Safe(Open(u, h), k)
  {
    hide Nested, Spaced, InnerArgs, ArgOk, CalleeBehind, GiveUpOutermost, Safe, WriteFront, Open;
    var g := GiveUpOutermost(u);
    var start := CalleeBehind(u.held).value.1;
    CapSizes(u, k);
    CalleeWhere(u.held);
    GiveUpOutermostOk(u);
    CalleeAfterBracket(u, start);
    PlainHeld(u);
    SizeAhead(g, k);
    var c := Call(CalleeBehind(u.held).value.0, start, |g.held|, Last(u.held).depth);
    CapLeavesCalls(u);
    OpenedInStep(g, k, c, h);
    OpenAs(u, g, h, c);
    OpenAs(WriteFront(u, k), WriteFront(g, k), h, c.(start := c.start - k, open := c.open - k));
  }

  lemma CapLeavesCalls(u: State)
    requires |u.calls| == MAX_OPEN_CALLS && !u.calls[0].kind.FromCharCode?
    ensures GiveUpOutermost(u).calls != []
  {}

  /** What `Open` does at the cap. */
  lemma OpenAs(u: State, g: State, h: Held, c: Call)
    requires |u.calls| == MAX_OPEN_CALLS && u.held != [] && g == GiveUpOutermost(u) && CalleeBehind(u.held).Some?
    requires c.kind == CalleeBehind(u.held).value.0 && c.start == Min(CalleeBehind(u.held).value.1, |g.held|)
    requires c.open == |g.held| && c.depth == Last(u.held).depth
    ensures Open(u, h) == State(g.written, g.held + [h], g.calls + [c])
  {
    hide GiveUpOutermost, CalleeBehind;
  }

  lemma PlainHeld(u: State)
    requires u.calls != [] && !u.calls[0].kind.FromCharCode?
    ensures GiveUpOutermost(u).held == u.held
  {}

  /** The same call is opened once the runs agree. */
  lemma OpenSame(u: State, v: State, h: Held)
    requires |u.calls| == |v.calls| == MAX_OPEN_CALLS && u.held != [] && v.held != [] && Last(u.held) == Last(v.held)
    requires GiveUpOutermost(u) == GiveUpOutermost(v) && CalleeBehind(u.held).Some? && CalleeBehind(v.held).Some?
    requires CalleeBehind(u.held).value.0 == CalleeBehind(v.held).value.0
    requires var m := |GiveUpOutermost(u).held|; Min(CalleeBehind(u.held).value.1, m) == Min(CalleeBehind(v.held).value.1, m)
    ensures Open(u, h) == Open(v, h)
  {
    hide GiveUpOutermost, CalleeBehind;
  }

  lemma SafeZero(u: State)
    ensures Safe(u, 0)
  {}

  lemma CapSizes(u: State, k: nat)
    ensures |WriteFront(u, k).calls| == |u.calls|
  {}

  lemma SizeAhead(g: State, k: nat)
    requires k <= |g.held|
    ensures |WriteFront(g, k).held| == |g.held| - k
  {}

  /** The index taken before the outermost call went comes to the same place in both runs. */
  lemma CapStarts(u: State, k: nat, start: nat)
    requires Nested(u.held, u.calls) && u.calls != [] && Safe(u, k) && u.calls[0].kind.FromCharCode?
    requires k <= start < |u.held| <= start + 3
    ensures var m := |GiveUpOutermost(u).held|; Min(start, m) == Min(start - k, m)
  {
    hide Nested, GiveUpOutermost, JoinFrom;
    OutermostShift(u);
    FirstBracket(u.held, u.calls);
  }

  // ---------------------------------------------------------------- closing a call

  lemma CloseInStep(u: State, k: nat, h: Held)
    requires Ok(u) && Safe(u, k) && u.calls != [] && h.tok == Punct(RPAREN) && Close(u, h).inner == None
    ensures WriteFront(u, k).calls != []
    ensures InStep(u, k, Close(u, h), Close(WriteFront(u, k), h), if |Close(u, h).st.written| > |u.written| then 0 else k)
  {
    hide CallsOk, ArgOk, Safe, Take, GiveUpAll, Append, WriteFront, Reducible;
    ShiftLastWritten(u, k);
    ArgWritten(u, k);
    if Reducible(Last(u.calls).kind, Drop(u.held, Last(u.calls).open + 1)) {
      CloseNoEval(u, h);
      ReduceInStep(u, k, h);
    } else {
      GiveUpHeld(u, u, k, Last(u.calls).open);
      CloseGivesUp(u, if |GiveUpAll(u).written| > |u.written| then 0 else k, h);
    }
  }

  lemma CloseNoEval(u: State, h: Held)
    requires u.calls != [] && Reducible(Last(u.calls).kind, Drop(u.held, Last(u.calls).open + 1)) && Close(u, h).inner == None
    ensures !Last(u.calls).kind.Eval?
  {
    hide Take;
  }

  lemma ArgWritten(u: State, k: nat)
    requires CallsOk(u.held, u.calls) && Safe(u, k) && u.calls != []
    ensures var c := Last(u.calls);
            && c.start <= c.open < |u.held| && k <= c.start && u.held[c.open].tok == Punct(LPAREN)
            && Drop(WriteFront(u, k).held, c.open + 1 - k) == Drop(u.held, c.open + 1)
  {
    hide Spaced, InnerArgs, Shift, Toks, Safe, Nested;
    SafeBeforeCalls(u, k);
    LastBracket(u.held, u.calls);
    assert k <= Last(u.calls).start;
    ShiftedTail(u.held, k, Last(u.calls).open + 1);
  }

  lemma CloseGivesUp(u: State, k: nat, h: Held)
    requires h.tok == Punct(RPAREN) && Safe(GiveUpAll(u), k)
    ensures var g := GiveUpAll(u);
            && WriteFront(g, k).(held := Append(WriteFront(g, k).held, h)) == WriteFront(g.(held := Append(g.held, h)), k)
            && Safe(g.(held := Append(g.held, h)), k)
  {
    hide GiveUpAll, Frontier;
    GiveUpEmpties(u);
    var g := GiveUpAll(u);
    if k > 0 { FrontierInside(g.held); }
    PushInStep(g, k, h);
    FrontierGrows(g.held, h);
  }

  lemma FrontierInside(held: seq<Held>)
    ensures Frontier(held) <= |held|
  {}

  /** The state without its innermost call, in both runs. */
  lemma PoppedAhead(u: State, k: nat)
    requires CallsOk(u.held, u.calls) && Safe(u, k) && u.calls != []
    ensures var c, v := Last(u.calls), WriteFront(u, k);
            && k <= c.start <= c.open && v.calls != [] && Last(v.calls) == c.(start := c.start - k, open := c.open - k)
            && WriteFront(State(u.written, Front(u.held, c.start), Init(u.calls)), k)
                 == State(v.written, Front(v.held, c.start - k), Init(v.calls))
            && k <= |u.held|
  {
    hide Nested, Spaced, InnerArgs, Safe, Shift, Toks;
    SafeBeforeCalls(u, k);
    LastBracket(u.held, u.calls);
    var c := Last(u.calls);
    assert k <= c.start;
    ShiftLast(u.calls, k);
    assert Front(u.held[k..], c.start - k) == u.held[k..c.start] == Drop(Front(u.held, c.start), k) && Front(Front(u.held, c.start), k) == u.held[..k];
  }

  /** The value a call other than an `eval` gives way to. */
  function ValueOf(u: State): (v: Held)
    requires u.calls != []
    ensures v.tok.Str?
  {
    var c, arg := Last(u.calls), Drop(u.held, Last(u.calls).open + 1);
    Held(Str(if c.kind.FromCharCode? then Chars(c.kind.values) else if arg != [] && arg[0].tok.Str? then PercentDecode(arg[0].tok.s) else []), c.depth)
  }

  lemma ReduceIs(u: State, h: Held)
    requires u.calls != [] && !Last(u.calls).kind.Eval? && Reducible(Last(u.calls).kind, Drop(u.held, Last(u.calls).open + 1))
    ensures Close(u, h) == Pushed(Take(State(u.written, Front(u.held, Last(u.calls).start), Init(u.calls)), ValueOf(u)), None)
  {
    hide Take, PercentDecode, Chars;
  }

  lemma ReduceAhead(u: State, k: nat, h: Held)
    requires CallsOk(u.held, u.calls) && Safe(u, k) && u.calls != [] && !Last(u.calls).kind.Eval?
    requires Reducible(Last(u.calls).kind, Drop(u.held, Last(u.calls).open + 1))
    requires Drop(WriteFront(u, k).held, Last(u.calls).open + 1 - k) == Drop(u.held, Last(u.calls).open + 1)
    ensures WriteFront(u, k).calls != []
    ensures Close(WriteFront(u, k), h)
              == Pushed(Take(WriteFront(State(u.written, Front(u.held, Last(u.calls).start), Init(u.calls)), k), ValueOf(u)), None)
  {
    hide CallsOk, WriteFront, Safe, Take, Close, Reducible, Chars, PercentDecode;
    PoppedAhead(u, k);
    ReduceIs(WriteFront(u, k), h);
  }

  lemma ReduceInStep(u: State, k: nat, h: Held)
    requires Ok(u) && Safe(u, k) && u.calls != [] && h.tok == Punct(RPAREN) && !Last(u.calls).kind.Eval?
    requires Last(u.calls).start <= Last(u.calls).open && k <= Last(u.calls).start
    requires Reducible(Last(u.calls).kind, Drop(u.held, Last(u.calls).open + 1))
    requires Drop(WriteFront(u, k).held, Last(u.calls).open + 1 - k) == Drop(u.held, Last(u.calls).open + 1)
    ensures WriteFront(u, k).calls != []
    ensures InStep(u, k, Close(u, h), Close(WriteFront(u, k), h), if |Close(u, h).st.written| > |u.written| then 0 else k)
  {
    hide CallsOk, ArgOk, WriteFront, Safe, Take, Close, Reducible, ValueOf;
    PopOk(u.held, u.calls);
    ReduceIs(u, h);
    ReduceAhead(u, k, h);
    PoppedInStep(u, State(u.written, Front(u.held, Last(u.calls).start), Init(u.calls)), k, ValueOf(u));
  }

  lemma PoppedInStep(u: State, p: State, k: nat, v: Held)
    requires CallsOk(u.held, u.calls) && Safe(u, k) && u.calls != [] && k <= Last(u.calls).start
    requires p == State(u.written, Front(u.held, Last(u.calls).start), Init(u.calls)) && CallsOk(p.held, p.calls) && v.tok.Str?
    ensures InStep(u, k, Pushed(Take(p, v), None), Pushed(Take(WriteFront(p, k), v), None), if |Take(p, v).written| > |u.written| then 0 else k)
  {
    hide Spaced, InnerArgs, Shift, Toks, Take, JoinFrom, Frontier;
    LastBracket(u.held, u.calls);
    if p.calls == [] {
      assert Last(u.calls) == u.calls[0];
      TakeInStepAlone(p, k, v);
    } else {
      var s := u.calls[0].start;
      assert p.calls[0] == u.calls[0] && p.held[..s] == u.held[..s];
      TakeInStep(p, k, v);
    }
  }

  // ---------------------------------------------------------------- an `eval` that reduces

  /** The closing bracket of the innermost call, an `eval`, when the call has its text. */
  predicate Unrolls(u: State, h: Held) {
    && h.tok == Punct(RPAREN) && u.calls != [] && Last(u.calls).kind.Eval?
    && Reducible(Eval, Drop(u.held, Last(u.calls).open + 1))
  }

  /** The one step that brings tokens back within reach: an `eval` with no call around it reduces,
      and a callee or part of one was right before it, which the text now read may complete. */
  predicate Uncovers(u: State, h: Held) {
    Unrolls(u, h) && |u.calls| == 1 && CalleeLen(Front(u.held, u.calls[0].start)) > 0
  }

  /** Everything of a reduced `eval` goes, and its text is handed back. */
  lemma UnrollIs(u: State, h: Held)
    requires Unrolls(u, h)
    ensures Close(u, h) == Pushed(State(u.written, Front(u.held, Last(u.calls).start), Init(u.calls)),
                                  Some(Inner(Drop(u.held, Last(u.calls).open + 1)[0].tok.s, Last(u.calls).depth + 1)))
  {
    hide Take, PercentDecode;
  }

  lemma UnrollOnly(u: State, h: Held)
    ensures Step(u, h).inner.Some? <==> Unrolls(u, h)
  {
    hide Take, Open, GiveUpAll, Append;
  }

  /** Off that step, what was written early stays out of reach. */
  lemma UnrollSafe(u: State, k: nat, h: Held)
    requires CallsOk(u.held, u.calls) && Safe(u, k) && Unrolls(u, h) && !Uncovers(u, h)
    ensures Safe(State(u.written, Front(u.held, Last(u.calls).start), Init(u.calls)), k)
  {
    hide Spaced, InnerArgs, JoinFrom, CalleeLen;
    LastBracket(u.held, u.calls);
    var s := u.calls[0].start;
    var left := Front(u.held, Last(u.calls).start);
    if |u.calls| == 1 {
      assert left[..|left|] == left;
    } else {
      assert left[..s] == u.held[..s];
    }
  }

  /** And on it, with two tokens before the `eval`, not always: it is exactly there that a token
      which was beyond reach no longer is. */
  lemma UncoversIff(u: State, h: Held)
    requires CallsOk(u.held, u.calls) && Unrolls(u, h) && |u.calls| == 1 && 2 <= u.calls[0].start < u.calls[0].open
    ensures (forall k :: Safe(u, k) ==> Safe(Close(u, h).st, k)) <==> !Uncovers(u, h)
  {
    hide CallsOk, Close, Callee, NamedString, NamedFcc;
    UnrollIs(u, h);
    LastInside(u);
    if Uncovers(u, h) {
      var left := Front(u.held, u.calls[0].start);
      var k := |left| - 1;
      LastOfCallee(left);
      assert left == u.held[..u.calls[0].start];
      assert JoinFrom(left) == |left|;
      assert Safe(u, k) && !Safe(Close(u, h).st, k);
    } else {
      forall k | Safe(u, k) ensures Safe(Close(u, h).st, k) { UnrollSafe(u, k, h); }
    }
  }

  lemma LastInside(u: State)
    requires CallsOk(u.held, u.calls) && u.calls != []
    ensures Last(u.calls).start <= Last(u.calls).open < |u.held|
  {
    hide Spaced, InnerArgs;
    LastBracket(u.held, u.calls);
  }

  lemma UnrollInStep(u: State, k: nat, h: Held)
    requires Ok(u) && Safe(u, k) && Unrolls(u, h) && !Uncovers(u, h)
    ensures WriteFront(u, k).calls != []
    ensures InStep(u, k, Close(u, h), Close(WriteFront(u, k), h), k)
  {
    hide CallsOk, ArgOk, Safe, WriteFront, Close, Uncovers, Reducible;
    PoppedAhead(u, k);
    ArgWritten(u, k);
    UnrollSafe(u, k, h);
    UnrollIs(u, h);
    UnrollIs(WriteFront(u, k), h);
  }

  /** Any token but one that uncovers keeps the runs in step. */
  lemma StepInStep(u: State, k: nat, h: Held)
    requires Ok(u) && Safe(u, k) && !Uncovers(u, h)
    ensures InStep(u, k, Step(u, h), Step(WriteFront(u, k), h), NextAhead(u, k, h))
  {
    hide Nested, Spaced, InnerArgs, ArgOk, Safe, Take, Open, Close, Uncovers, Unrolls;
    ShiftEmpty(u, k);
    if h.tok == Punct(LPAREN) {
      OpenInStep(u, k, h);
    } else if h.tok == Punct(RPAREN) && u.calls != [] {
      UnrollOnly(u, h);
      if Unrolls(u, h) {
        UnrollInStep(u, k, h);
      } else {
        CloseInStep(u, k, h);
      }
    } else {
      TakeInStep(u, k, h);
    }
  }

  lemma ShiftEmpty(u: State, k: nat)
    ensures WriteFront(u, k).calls == [] <==> u.calls == []
  {}

  // ---------------------------------------------------------------- writing out

  lemma WriteTwice(v: State, k: nat, n: nat)
    requires k + n <= |v.held| && forall i :: 0 <= i < |v.calls| ==> k + n <= v.calls[i].start <= v.calls[i].open
    ensures WriteFront(WriteFront(v, k), n) == WriteFront(v, k + n)
  {
    hide Toks, Shift;
    ShiftTwice(v.calls, k, k + n);
    CutTwice(v.held, k, k + n);
    ToksAppend(v.held[..k], v.held[k..][..n]);
    Assoc(v.written, Toks(v.held[..k]), Toks(v.held[k..][..n]));
  }

  /** Settled tokens are beyond reach, one to spare. */
  lemma SettledSafe(v: State, k: nat, keep: nat)
    requires Ok(v) && Safe(v, k) && keep >= 3
    ensures var n := Settled(WriteFront(v, k), keep);
            && Safe(v, k + n) && k + n <= |v.held| && forall i :: 0 <= i < |v.calls| ==> k + n <= v.calls[i].start <= v.calls[i].open
  {
    hide Spaced, InnerArgs, ArgOk, Callee, NamedString, NamedFcc, Toks;
    SafeBeforeCalls(v, k);
    if v.calls != [] {
      assert WriteFront(v, k).calls[0].start == v.calls[0].start - k;
      assert forall i :: 0 < i < |v.calls| ==> v.calls[0].open < v.calls[i].start;
    }
  }

  lemma FlushAhead(v: State, k: nat, p: Policy) returns (k': nat)
    requires Ok(v) && Safe(v, k) && p.keep >= 3
    ensures Safe(v, k') && Flush(WriteFront(v, k), p.keep, p.batch) == WriteFront(v, k')
  {
    hide Ok, Safe, WriteFront, Settled;
    var n := Settled(WriteFront(v, k), p.keep);
    if n >= p.batch {
      SettledSafe(v, k, p.keep);
      WriteTwice(v, k, n);
      k' := k + n;
    } else {
      k' := k;
    }
  }

  // ---------------------------------------------------------------- whole runs

  /** One turn of the loop with nothing written out. */
  function LateTurn(c: Config): Config
    requires c.sources != [] && Last(c.sources).i <= |Last(c.sources).data|
  {
    var src := Last(c.sources);
    match NextToken(src.data, src.i, src.valuePos)
    case None => Config(c.st, Init(c.sources))
    case Some(t) =>
      var q := Step(c.st, Held(t.tok, src.depth));
      Config(q.st, Init(c.sources) + [src.(i := t.next, valuePos := t.valuePos)] + Opened(q.inner))
  }

  /** It is a turn in which the batch is not full. */
  lemma LateTurnIs(c: Config) returns (p: Policy)
    requires c.sources != [] && Last(c.sources).i <= |Last(c.sources).data|
    ensures LateTurn(c) == Advance(c, p)
  {
    hide Step, Settled, NextToken;
    var src := Last(c.sources);
    match NextToken(src.data, src.i, src.valuePos) {
      case None => p := SHIPPED;
      case Some(t) => p := Policy(3, Settled(Step(c.st, Held(t.tok, src.depth)).st, 3) + 1);
    }
  }

  lemma LateTurnEnds(c: Config)
    requires Good(c) && c.sources != []
    ensures var d := LateTurn(c);
            && Good(d)
            && (|| Potential(d) < Potential(c)
                || (Potential(d) == Potential(c) && Unread(d.sources) < Unread(c.sources))
                || (Potential(d) == Potential(c) && Unread(d.sources) == Unread(c.sources) && |d.sources| < |c.sources|))
  {
    hide Advance, LateTurn, Ok, Potential, Unread;
    var p := LateTurnIs(c);
    AdvanceGood(c, p);
    AdvanceDecreases(c, p);
  }

  /** The loop to its end, nothing written out on the way. */
  function LateRun(c: Config): State
    requires Good(c)
    decreases Potential(c), Unread(c.sources), |c.sources|
  {
    if c.sources == [] then c.st
    else
      LateTurnEnds(c);
      LateRun(LateTurn(c))
  }

  /** No turn of that loop uncovers what is before an `eval`. */
  ghost predicate Clear(c: Config)
    requires Good(c)
    decreases Potential(c), Unread(c.sources), |c.sources|
  {
    c.sources != [] ==>
      && (var src := Last(c.sources);
          var t := NextToken(src.data, src.i, src.valuePos);
          t.Some? ==> !Uncovers(c.st, Held(t.value.tok, src.depth)))
      && (LateTurnEnds(c);
          Clear(LateTurn(c)))
  }

  /** One turn of a run ahead: a turn of the other, and still ahead. */
  lemma TurnAhead(c: Config, k: nat, p: Policy) returns (k': nat)
    requires Good(c) && c.sources != [] && Safe(c.st, k) && p.keep >= 3 && Clear(c)
    ensures Ok(LateTurn(c).st) && Safe(LateTurn(c).st, k')
    ensures Advance(Config(WriteFront(c.st, k), c.sources), p) == Config(WriteFront(LateTurn(c).st, k'), LateTurn(c).sources)
  {
    hide Ok, Safe, Step, Flush, NextToken, WriteFront, Uncovers;
    var src := Last(c.sources);
    match NextToken(src.data, src.i, src.valuePos) {
      case None => k' := k;
      case Some(t) =>
        var h := Held(t.tok, src.depth);
        StepInStep(c.st, k, h);
        StepOk(c.st, h);
        k' := FlushAhead(Step(c.st, h).st, NextAhead(c.st, k, h), p);
    }
  }

  /** A run that writes out by any policy ends where the run that never writes early does, but for
      tokens beyond reach. */
  lemma {:induction false} RunAhead(c: Config, k: nat, p: Policy) returns (k': nat)
    requires Good(c) && Safe(c.st, k) && p.keep >= 3 && Clear(c)
    ensures Good(Config(WriteFront(c.st, k), c.sources)) && Ok(LateRun(c)) && Safe(LateRun(c), k')
    ensures RunAll(Config(WriteFront(c.st, k), c.sources), p) == WriteFront(LateRun(c), k')
    decreases Potential(c), Unread(c.sources), |c.sources|
  {
    hide Ok, Safe, LateTurn, Advance, WriteFront, Uncovers, Potential, Unread;
    var ahead := Config(WriteFront(c.st, k), c.sources);
    AheadGood(c, k);
    if c.sources == [] {
      k' := k;
    } else {
      LateTurnEnds(c);
      AdvanceGood(ahead, p);
      AdvanceDecreases(ahead, p);
      var m := TurnAhead(c, k, p);
      k' := RunAhead(LateTurn(c), m, p);
    }
  }

  lemma AheadGood(c: Config, k: nat)
    requires Good(c) && Safe(c.st, k)
    ensures Good(Config(WriteFront(c.st, k), c.sources))
  {
    hide Spaced, ArgOk, Nested, InnerArgs, Safe, Shift, Toks;
    SafeBeforeCalls(c.st, k);
    ShiftOk(c.st.held, c.st.calls, k);
  }

  /** The rendering is the writing of one token sequence, whatever the policy. */
  lemma NormalizeIsLate(data: Bytes, p: Policy)
    requires p.keep >= 3 && Good(Start(data)) && Clear(Start(data))
    ensures Normalize(data, p) == Clip(EmitAll(NOTHING, Finished(LateRun(Start(data)))))
  {
    hide Finished, EmitAll, RunAll, LateRun, Clear, Ok, Safe, Normalize, WriteFront;
    SafeZero(EMPTY);
    WriteZero(EMPTY);
    var k := RunAhead(Start(data), 0, p);
    FinishedAhead(LateRun(Start(data)), k);
    NormalizeIsWhole(data, p);
  }

  lemma FinishedAhead(u: State, k: nat)
    requires Ok(u) && Safe(u, k)
    ensures Finished(WriteFront(u, k)) == Finished(u)
  {
    hide Spaced, ArgOk, Nested, InnerArgs, Safe, Finished, View, WriteFront;
    SafeBeforeCalls(u, k);
    WriteFrontView(u, k);
    GiveUpAllView(u);
    GiveUpAllView(WriteFront(u, k));
  }

  /** Batching is invisible: for every script whose reduced `eval` calls never leave a callee, or part
      of one, at the end of what is held with no call open, every way of writing out that keeps three
      tokens before an open call gives the same output. */
  lemma BatchingInvisible(data: Bytes, p: Policy, q: Policy)
    requires p.keep >= 3 && q.keep >= 3 && Good(Start(data)) && Clear(Start(data))
    ensures Normalize(data, p) == Normalize(data, q)
  {
    hide Normalize, Clear, LateRun, Ok;
    NormalizeIsLate(data, p);
    NormalizeIsLate(data, q);
  }

  // ---------------------------------------------------------------- scripts that unroll nothing

  /** No `eval` reduces as the tokens are taken. */
  ghost predicate NoEval(u: State, ts: seq<Tok>, d: nat)
    decreases |ts|
  {
    ts != [] ==> Step(u, Held(ts[0], d)).inner == None && NoEval(Step(u, Held(ts[0], d)).st, ts[1..], d)
  }

  /** Where no `eval` reduces there is one text, and the loop is feeding its tokens. */
  lemma {:induction false} LateRunFeeds(u: State, src: Source)
    requires Ok(u) && src.i <= |src.data| && NoEval(u, LexAll(src.data, src.i, src.valuePos), src.depth)
    ensures Clear(Config(u, [src])) && LateRun(Config(u, [src])) == Feed(u, LexAll(src.data, src.i, src.valuePos), src.depth)
    decreases |src.data| - src.i
  {
    hide Ok, Step, NextToken, Potential, Uncovers, Unrolls;
    var c := Config(u, [src]);
    LateTurnEnds(c);
    assert Init([src]) == [];
    match NextToken(src.data, src.i, src.valuePos) {
      case None =>
        LateTurnEnds(c);
        assert LateTurn(c) == Config(u, []);
      case Some(t) =>
        var h := Held(t.tok, src.depth);
        var src' := src.(i := t.next, valuePos := t.valuePos);
        assert LexAll(src.data, src.i, src.valuePos)[1..] == LexAll(src.data, src'.i, src'.valuePos);
        StepOk(u, h);
        UncoversUnrolls(u, h);
        assert [] + [src'] + [] == [src'];
        assert LateTurn(c) == Config(Step(u, h).st, [src']);
        LateRunFeeds(Step(u, h).st, src');
    }
  }

  lemma UncoversUnrolls(u: State, h: Held)
    ensures Uncovers(u, h) ==> Step(u, h).inner.Some?
  {
    hide Step, Unrolls;
    UnrollOnly(u, h);
  }

  lemma NormalizeIsFeed(data: Bytes, p: Policy)
    requires p.keep >= 3 && NoEval(EMPTY, LexAll(data, 0, true), 0)
    ensures Normalize(data, p) == Clip(EmitAll(NOTHING, Finished(Feed(EMPTY, LexAll(data, 0, true), 0))))
  {
    hide Finished, EmitAll, LexAll, NoEval, Feed, Normalize, Clear, LateRun;
    StartGood(data);
    LateRunFeeds(EMPTY, Source(data, 0, true, 0));
    NormalizeIsLate(data, p);
  }
}
