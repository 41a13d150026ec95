/** Each token the reducer takes, as a derivation. */
module JsSound {
  import opened ByteSeq
  import opened JsText
  import opened JsLexer
  import opened JsReducer
  import opened JsInvariant
  import opened JsRewrite

  // ---------------------------------------------------------------- callees where the calls say

  /** The call's indices name exactly its callee, and a stored list ends in a comma only after a code. */
  ghost predicate CalleeAt(held: seq<Held>, call: Call) {
    && call.start <= call.open < |held|
    && match call.kind
       case FromCharCode(values, wantNum) => FccCallee(Toks(held[call.start..call.open])) && (wantNum || values != [])
       case Decode => call.open == call.start + 1 && DecodeName(held[call.start].tok)
       case Eval => call.open == call.start + 1 && NameIs(held[call.start].tok, "eval")
  }

  ghost predicate Exact(held: seq<Held>, calls: seq<Call>) {
    forall i :: 0 <= i < |calls| ==> CalleeAt(held, calls[i])
  }

  lemma CalleeAtFrame(held: seq<Held>, held': seq<Held>, call: Call, k: nat)
    requires CalleeAt(held, call) && call.open < k <= |held| && k <= |held'| && held[..k] == held'[..k]
    ensures CalleeAt(held', call)
  {
    hide FccCallee, DecodeName, NameIs;
    SameStretch(held, held', k, call.start, call.open);
    assert held[call.start] == held[..k][call.start] == held'[call.start];
  }

  lemma ExactFrame(held: seq<Held>, held': seq<Held>, calls: seq<Call>, k: nat)
    requires Exact(held, calls) && k <= |held| && k <= |held'| && held[..k] == held'[..k]
    requires forall i :: 0 <= i < |calls| ==> calls[i].open < k
    ensures Exact(held', calls)
  {
    hide CalleeAt;
    forall i | 0 <= i < |calls| ensures CalleeAt(held', calls[i]) {
      CalleeAtFrame(held, held', calls[i], k);
    }
  }

  lemma ExactShift(held: seq<Held>, calls: seq<Call>, n: nat)
    requires Exact(held, calls) && n <= |held|
    requires forall i :: 0 <= i < |calls| ==> n <= calls[i].start
    ensures Exact(held[n..], Shift(calls, n))
  {
    hide FccCallee, DecodeName, NameIs;
    forall i | 0 <= i < |calls| ensures CalleeAt(held[n..], Shift(calls, n)[i]) {
      assert CalleeAt(held, calls[i]);
      ShiftedStretch(held, n, calls[i].start, calls[i].open);
    }
  }

  /** The one step that leaves a call's start off its callee: a call opened at the cap while the
      outermost is a `fromCharCode`, whose tokens are written out after `start` was taken. It does
      no harm only when two tokens go and the callee is `String.fromCharCode`, which then reads as
      a bare `fromCharCode`. */
  predicate Misplaces(st: State, h: Held) {
    && h.tok == Punct(LPAREN) && CalleeBehind(st.held).Some?
    && |st.calls| == MAX_OPEN_CALLS && st.calls[0].kind.FromCharCode?
    && !(st.calls[0].open == 1 && CalleeBehind(st.held).value.1 + 3 == |st.held|)
  }

  // ---------------------------------------------------------------- holding a token

  /** No bracket from `k` on, so every call is before it. */
  lemma BeforeShrink(held: seq<Held>, calls: seq<Call>, k: nat)
    requires Nested(held, calls) && k <= |held|
    requires forall i :: k <= i < |held| ==> held[i].tok != Punct(LPAREN)
    ensures Before(calls, 0, k)
  {}

  /** A state whose held tokens end in `tail`, none of them a bracket. */
  lemma ViewTail(w: seq<Tok>, a: seq<Held>, tail: seq<Held>, calls: seq<Call>)
    requires Before(calls, 0, |a|)
    ensures View(State(w, a + tail, calls)) == View(State(w, a, calls)) + Toks(tail)
  {
    hide Before, Toks, Weave;
    WeaveAppend(a, tail, calls, 0);
  }

  lemma AppendSound(st: State, h: Held)
    requires Nested(st.held, st.calls)
    ensures Derives(View(st) + [h.tok], View(st.(held := Append(st.held, h))))
  {
    hide Nested, Before, View, Derives;
    var n := |st.held|;
    var st' := st.(held := Append(st.held, h));
    if h.tok.Str? && n >= 1 && st.held[n - 1].tok.Str? {
      BeforeShrink(st.held, st.calls, n - 1);
      JoinSound(st, h, n - 1);
    } else if h.tok.Str? && n >= 2 && IsPlus(st.held[n - 1]) && st.held[n - 2].tok.Str? {
      BeforeShrink(st.held, st.calls, n - 2);
      JoinSound(st, h, n - 2);
    } else {
      BeforeShrink(st.held, st.calls, n);
      ViewTail(st.written, st.held, [h], st.calls);
      assert st' == State(st.written, st.held + [h], st.calls);
      assert Toks([h]) == [h.tok];
      DerivesRefl(View(st) + [h.tok]);
    }
  }

  lemma JoinSound(st: State, h: Held, k: nat)
    requires h.tok.Str? && k < |st.held| && st.held[k].tok.Str?
    requires |st.held| == k + 1 || (|st.held| == k + 2 && IsPlus(st.held[k + 1]))
    requires Before(st.calls, 0, k)
    ensures Derives(View(st) + [h.tok],
                    View(st.(held := st.held[..k] + [Held(Str(st.held[k].tok.s + h.tok.s), st.held[k].depth)])))
  {
    hide Before, View, Derives;
    var a := st.held[..k];
    var tail := st.held[k..];
    var joined := Held(Str(st.held[k].tok.s + h.tok.s), st.held[k].depth);
    assert st.held == a + tail;
    ViewTail(st.written, a, tail, st.calls);
    ViewTail(st.written, a, [joined], st.calls);
    assert st == State(st.written, a + tail, st.calls);
    var base := View(State(st.written, a, st.calls));
    var lhs := Toks(tail) + [h.tok];
    assert Toks([joined]) == [joined.tok];
    assert JoinRule(lhs, [joined.tok]);
    DerivesByRule(base, lhs, [joined.tok]);
    assert base + lhs == View(st) + [h.tok];
  }

  // ---------------------------------------------------------------- a code kept as a value

  lemma ListSnoc(values: seq<nat>, v: nat)
    ensures CodeToks(values, true) + [Num(Dec(v))] == CodeToks(values + [v], false)
  {
    assert Init(values + [v]) == values;
    if values != [] {
      assert ListToks(values) + [Punct(COMMA)] + [Num(Dec(v))] == ListToks(values) + [Punct(COMMA), Num(Dec(v))];
    }
  }

  lemma CodeSound(base: seq<Tok>, values: seq<nat>, wantNum: bool, t: Tok, kind: Kind)
    requires wantNum || values != []
    requires (wantNum && t.Num? && ParseInt(t.num).Some? && kind == FromCharCode(values + [ParseInt(t.num).value], false))
             || (!wantNum && t == Punct(COMMA) && kind == FromCharCode(values, true))
    ensures Derives(base + CodeToks(values, wantNum) + [t], base + CodeToks(kind.values, kind.wantNum))
  {
    hide Derives, ParseInt, ListToks;
    if wantNum {
      var v := ParseInt(t.num).value;
      ListSnoc(values, v);
      DerivesByRule(base + CodeToks(values, true), [t], [Num(Dec(v))]);
      assert base + CodeToks(values, true) + [Num(Dec(v))] == base + (CodeToks(values, true) + [Num(Dec(v))]);
    } else {
      assert base + CodeToks(values, false) + [t] == base + (CodeToks(values, false) + [Punct(COMMA)]);
      DerivesRefl(base + CodeToks(values, true));
    }
  }

  /** A state whose innermost call is a `fromCharCode` with nothing held in its list. */
  lemma ViewFcc(w: seq<Tok>, held: seq<Held>, calls: seq<Call>, c: Call)
    requires Nested(held, calls + [c]) && c.kind.FromCharCode? && |held| == c.open + 1
    ensures View(State(w, held, calls + [c])) == w + Weave(held, calls, 0) + CodeToks(c.kind.values, c.kind.wantNum)
  {
    hide Toks, CodeToks, Weave;
    WeaveSnoc(held, calls, c, 0);
    assert Front(held, c.open + 1) == held && Toks(Drop(held, c.open + 1)) == [];
  }

  lemma AbsorbSound(st: State, h: Held)
    requires CallsOk(st.held, st.calls) && Exact(st.held, st.calls) && Absorbed(st, h).Some?
    ensures Derives(View(st) + [h.tok], View(Take(st, h))) && Exact(Take(st, h).held, Take(st, h).calls)
  {
    hide Spaced, InnerArgs, ArgOk, Derives, CodeToks, Weave, View, Nested, FccCallee;
    var calls, c := Init(st.calls), Last(st.calls);
    var kind := Absorbed(st, h).value;
    var c' := c.(kind := kind);
    assert st.calls == calls + [c] && Take(st, h).calls == calls + [c'];
    AbsorbOk(st.held, st.calls, kind);
    ViewFcc(st.written, st.held, calls, c);
    ViewFcc(st.written, st.held, calls, c');
    assert CalleeAt(st.held, c);
    CodeSound(st.written + Weave(st.held, calls, 0), c.kind.values, c.kind.wantNum, h.tok, kind);
    forall i | 0 <= i < |calls + [c']| ensures CalleeAt(st.held, (calls + [c'])[i]) {
      assert i < |calls| ==> CalleeAt(st.held, st.calls[i]);
    }
  }

  lemma TakeSound(st: State, h: Held)
    requires CallsOk(st.held, st.calls) && Exact(st.held, st.calls)
    ensures Derives(View(st) + [h.tok], View(Take(st, h)))
    ensures Exact(Take(st, h).held, Take(st, h).calls)
  {
    hide Nested, Spaced, InnerArgs, ArgPossible, Derives, View, CalleeAt, Append;
    if Absorbed(st, h).Some? {
      AbsorbSound(st, h);
    } else {
      var st' := st.(held := Append(st.held, h));
      AppendSound(st, h);
      GiveUpAllView(st');
      if st.calls != [] {
        LastBracket(st.held, st.calls);
        AppendAfter(st.held, h, Last(st.calls).open);
        ExactFrame(st.held, st'.held, st.calls, Last(st.calls).open + 1);
      }
    }
  }

  // ---------------------------------------------------------------- brackets

  /** A bracket held after everything else. */
  lemma ViewBracket(w: seq<Tok>, held: seq<Held>, h: Held, calls: seq<Call>)
    requires Nested(held, calls)
    ensures View(State(w, held + [h], calls)) == View(State(w, held, calls)) + [h.tok]
  {
    hide Before, Weave;
    BeforeShrink(held, calls, |held|);
    ViewTail(w, held, [h], calls);
    assert Toks([h]) == [h.tok];
  }

  /** A call just opened stands for no more than its bracket. */
  lemma ViewOpened(w: seq<Tok>, held: seq<Held>, h: Held, calls: seq<Call>, c: Call)
    requires Nested(held, calls) && Nested(held + [h], calls + [c]) && c.open == |held|
    requires c.kind.FromCharCode? ==> c.kind.values == []
    ensures View(State(w, held + [h], calls + [c])) == View(State(w, held, calls)) + [h.tok]
  {
    hide Weave, Toks;
    ViewBracket(w, held, h, calls);
    WeaveSnoc(held + [h], calls, c, 0);
    assert Front(held + [h], c.open + 1) == held + [h];
    assert Toks(Drop(held + [h], c.open + 1)) == [];
    if c.kind.FromCharCode? { assert CodeToks(c.kind.values, c.kind.wantNum) == []; }
  }

  /** The state a bracket after a callee is added to. */
  function Room(st: State): State {
    if |st.calls| == MAX_OPEN_CALLS then GiveUpOutermost(st) else st
  }

  /** The call it opens. */
  function OpenedCall(st: State): Call
    requires CalleeBehind(st.held).Some? && st.held != []
  {
    var (kind, start) := CalleeBehind(st.held).value;
    Call(kind, Min(start, |Room(st).held|), |Room(st).held|, Last(st.held).depth)
  }

  lemma RoomOk(st: State)
    requires Ok(st) && Exact(st.held, st.calls)
    ensures Ok(Room(st)) && Exact(Room(st).held, Room(st).calls) && View(Room(st)) == View(st)
  {
    hide Nested, Spaced, InnerArgs, ArgOk, View, CalleeAt, GiveUpOutermost, Shift;
    if |st.calls| == MAX_OPEN_CALLS {
      GiveUpOutermostOk(st);
      GiveUpOutermostView(st);
      OutermostShift(st);
      ExactTail(st.held, st.calls);
      ExactShift(st.held, st.calls[1..], OutermostCut(st));
    }
  }

  lemma ExactTail(held: seq<Held>, calls: seq<Call>)
    requires Exact(held, calls) && calls != []
    ensures Exact(held, calls[1..])
  {
    hide CalleeAt;
  }

  /** A callee right before a bracket is where `CalleeBehind` says. */
  lemma PlacedBefore(held: seq<Held>, h: Held, c: Call)
    requires CalleeBehind(held).Some? && CalleeBehind(held).value.0 == c.kind && CalleeBehind(held).value.1 == c.start
    requires c.open == |held|
    ensures CalleeAt(held + [h], c)
  {
    hide SameName, Ascii;
    assert (held + [h])[c.start..c.open] == held[c.start..];
  }

  /** With `k` tokens gone from the front, an index taken before points past the callee, or at
      the last of its three tokens. */
  lemma PlacedAtCap(held: seq<Held>, k: nat, h: Held, c: Call)
    requires CalleeBehind(held).Some? && 2 <= k < |held| && CalleeBehind(held).value.0 == c.kind
    requires c.open == |held| - k && c.start == Min(CalleeBehind(held).value.1, c.open)
    ensures CalleeAt(held[k..] + [h], c) <==> k == 2 && CalleeBehind(held).value.1 + 3 == |held|
  {
    hide SameName, Ascii;
    var start := CalleeBehind(held).value.1;
    var moved := held[k..] + [h];
    CalleeWhere(held);
    if k == 2 && start + 3 == |held| {
      assert moved[c.start..c.open] == [held[|held| - 1]];
      assert Toks(moved[c.start..c.open]) == [held[|held| - 1].tok];
    } else {
      assert c.start == c.open;
      assert Toks(moved[c.start..c.open]) == [];
    }
  }

  /** Where the opened call says its callee is, it is, except in the cap corner. */
  lemma PlacedIff(st: State, h: Held)
    requires Ok(st) && Exact(st.held, st.calls) && h.tok == Punct(LPAREN) && CalleeBehind(st.held).Some? && st.held != []
    ensures CalleeAt(Room(st).held + [h], OpenedCall(st)) <==> !Misplaces(st, h)
  {
    hide Spaced, InnerArgs, ArgOk, GiveUpOutermost, CalleeBehind, CalleeAt, Exact, Nested;
    var c := OpenedCall(st);
    CalleeWhere(st.held);
    if |st.calls| == MAX_OPEN_CALLS {
      OutermostShift(st);
      if st.calls[0].kind.FromCharCode? {
        OutermostWidth(st);
        PlacedAtCap(st.held, OutermostCut(st), h, c);
      } else {
        PlacedBefore(st.held, h, c);
      }
    } else {
      PlacedBefore(st.held, h, c);
    }
  }

  /** A `fromCharCode` takes at least two tokens, with another call after them. */
  lemma OutermostWidth(st: State)
    requires Ok(st) && Exact(st.held, st.calls) && |st.calls| == MAX_OPEN_CALLS && st.calls[0].kind.FromCharCode?
    ensures 2 <= OutermostCut(st) < |st.held|
  {
    hide Spaced, InnerArgs, ArgOk, NameIs;
    assert CalleeAt(st.held, st.calls[0]);
    assert st.calls[0].open < st.calls[1].start;
  }

  lemma OpenSound(st: State, h: Held)
    requires Ok(st) && Exact(st.held, st.calls) && h.tok == Punct(LPAREN)
    ensures View(Open(st, h)) == View(st) + [h.tok]
    ensures Exact(Open(st, h).held, Open(st, h).calls) <==> !Misplaces(st, h)
  {
    hide Nested, Spaced, InnerArgs, ArgOk, View, CalleeAt, CalleeBehind, GiveUpOutermost;
    OpenOk(st, h);
    match CalleeBehind(st.held) {
      case None =>
        GiveUpAllView(st);
        NoCallsOk(GiveUpAll(st).held);
        ViewBracket(GiveUpAll(st).written, GiveUpAll(st).held, h, []);
      case Some((kind, start)) =>
        CalleeWhere(st.held);
        RoomOk(st);
        var st', c := Room(st), OpenedCall(st);
        assert Open(st, h) == State(st'.written, st'.held + [h], st'.calls + [c]);
        FreshList(st.held);
        ViewOpened(st'.written, st'.held, h, st'.calls, c);
        PlacedIff(st, h);
        ExactOpened(st'.held, st'.calls, h, c);
    }
  }

  lemma FreshList(held: seq<Held>)
    requires CalleeBehind(held).Some?
    ensures var kind := CalleeBehind(held).value.0; kind.FromCharCode? ==> kind == FromCharCode([], true)
  {
    hide IsNamed;
  }

  lemma ExactOpened(held: seq<Held>, calls: seq<Call>, h: Held, c: Call)
    requires Exact(held, calls)
    ensures Exact(held + [h], calls + [c]) <==> CalleeAt(held + [h], c)
  {
    hide CalleeAt;
    assert (held + [h])[..|held|] == held[..|held|];
    forall i | 0 <= i < |calls| ensures calls[i].open < |held| { assert CalleeAt(held, calls[i]); CalleeInside(held, calls[i]); }
    ExactFrame(held, held + [h], calls, |held|);
    assert (calls + [c])[|calls|] == c;
  }

  lemma CalleeInside(held: seq<Held>, c: Call)
    requires CalleeAt(held, c)
    ensures c.start <= c.open < |held|
  {}

  // ---------------------------------------------------------------- reductions

  /** The innermost call as tokens: the callee, the bracket, the stored list and the argument. */
  function CallToks(held: seq<Held>, c: Call): seq<Tok>
    requires c.start <= c.open < |held|
  {
    Toks(held[c.start..c.open]) + [Punct(LPAREN)]
      + (if c.kind.FromCharCode? then CodeToks(c.kind.values, c.kind.wantNum) else [])
      + Toks(held[c.open + 1..])
  }

  /** A state whose innermost call is about to close: what is before the callee, and the call. */
  lemma ViewCall(w: seq<Tok>, held: seq<Held>, calls: seq<Call>, c: Call)
    requires c.start <= c.open < |held| && held[c.open].tok == Punct(LPAREN)
    requires Before(calls + [c], 0, |held|) && Before(calls, 0, c.start)
    ensures View(State(w, held, calls + [c])) == View(State(w, held[..c.start], calls)) + CallToks(held, c)
  {
    hide Weave, Toks, CodeToks, Before, Front, Drop;
    var a, rest := held[..c.start], held[c.open + 1..];
    var call := held[c.start..c.open] + [held[c.open]];
    var callToks := Toks(held[c.start..c.open]) + [Punct(LPAREN)];
    WeaveSnoc(held, calls, c, 0);
    CallSplit(held, c.start, c.open);
    CallSplitToks(held[c.start..c.open], held[c.open], rest);
    if c.kind.FromCharCode? {
      WeaveAppend(a, call, calls, 0);
      RegroupCall(w, Weave(a, calls, 0), callToks, CodeToks(c.kind.values, c.kind.wantNum), Toks(rest));
    } else {
      WeaveAppend(a, call + rest, calls, 0);
      RegroupCall(w, Weave(a, calls, 0), callToks, [], Toks(rest));
    }
  }

  lemma RegroupCall(w: seq<Tok>, a: seq<Tok>, call: seq<Tok>, codes: seq<Tok>, rest: seq<Tok>)
    ensures w + (a + call + codes + rest) == w + a + (call + codes + rest)
    ensures codes == [] ==> w + (a + (call + rest)) == w + a + (call + codes + rest)
  {}

  lemma CallSplit(held: seq<Held>, s: nat, o: nat)
    requires s <= o < |held|
    ensures Front(held, o + 1) == held[..s] + (held[s..o] + [held[o]]) && Drop(held, o + 1) == held[o + 1..]
    ensures held == held[..s] + (held[s..o] + [held[o]] + held[o + 1..])
  {}

  lemma CallSplitToks(callee: seq<Held>, open: Held, rest: seq<Held>)
    requires open.tok == Punct(LPAREN)
    ensures Toks(callee + [open]) == Toks(callee) + [Punct(LPAREN)]
    ensures Toks(callee + [open] + rest) == Toks(callee) + [Punct(LPAREN)] + Toks(rest)
  {
    hide Toks;
    OneTok(open);
    ToksAppend(callee, [open]);
    ToksAppend(callee + [open], rest);
  }

  lemma OneTok(h: Held)
    ensures Toks([h]) == [h.tok]
  {}

  /** What a reducible call gives way to. */
  function CallValue(held: seq<Held>, c: Call): seq<Tok>
    requires c.start <= c.open < |held| && Reducible(c.kind, held[c.open + 1..])
  {
    match c.kind
    case FromCharCode(values, _) => [Str(Chars(values))]
    case Decode => [Str(PercentDecode(held[c.open + 1].tok.s))]
    case Eval => LexAll(held[c.open + 1].tok.s, 0, true)
  }

  /** A closing bracket reduces the innermost call by one rule. */
  lemma CloseRule(held: seq<Held>, c: Call)
    requires CalleeAt(held, c) && Reducible(c.kind, held[c.open + 1..])
    ensures Rule(CallToks(held, c) + [Punct(RPAREN)], CallValue(held, c))
  {
    hide NameIs, FccCallee, DecodeName;
    var callee := Toks(held[c.start..c.open]);
    var lhs := CallToks(held, c) + [Punct(RPAREN)];
    if c.kind.FromCharCode? {
      var values := c.kind.values;
      assert lhs == callee + [Punct(LPAREN)] + ListToks(values) + [Punct(RPAREN)];
      assert CharCodeCall(lhs, callee, values);
    } else {
      assert held[c.start..c.open] == [held[c.start]];
      assert held[c.open + 1..] == [held[c.open + 1]];
      OneTok(held[c.start]);
      OneTok(held[c.open + 1]);
      assert lhs == [held[c.start].tok, Punct(LPAREN), held[c.open + 1].tok, Punct(RPAREN)];
    }
  }

  /** What the tokens of the text a reduced `eval` hands back are. */
  function InnerToks(inner: Option<Inner>): seq<Tok> {
    match inner
    case None => []
    case Some(t) => LexAll(t.text, 0, true)
  }

  lemma BeforeCall(held: seq<Held>, calls: seq<Call>, c: Call)
    requires Nested(held, calls + [c])
    ensures Before(calls + [c], 0, |held|) && Before(calls, 0, c.start)
    ensures c.start <= c.open < |held| && held[c.open].tok == Punct(LPAREN)
  {
    var all := calls + [c];
    assert all[|calls|] == c;
    assert forall i :: 0 <= i < |calls| ==> calls[i] == all[i];
  }

  /** The state without its innermost call and that call's tokens. */
  function Popped(st: State): State
    requires st.calls != [] && Last(st.calls).start <= |st.held|
  {
    State(st.written, st.held[..Last(st.calls).start], Init(st.calls))
  }

  lemma OkNested(st: State)
    requires Ok(st)
    ensures CallsOk(st.held, st.calls) && Nested(st.held, st.calls)
  {
    hide Nested, Spaced, InnerArgs, ArgOk;
  }

  lemma CallReduced(st: State, c: Call)
    requires Ok(st) && Exact(st.held, st.calls) && st.calls != [] && c == Last(st.calls)
    requires Reducible(c.kind, Drop(st.held, c.open + 1))
    ensures c.start <= c.open < |st.held| && Drop(st.held, c.open + 1) == st.held[c.open + 1..]
    ensures Derives(View(st) + [Punct(RPAREN)], View(Popped(st)) + CallValue(st.held, c))
    ensures CallsOk(Popped(st).held, Popped(st).calls) && Exact(Popped(st).held, Popped(st).calls)
  {
    hide Ok, CallsOk, View, Derives, CalleeAt, Exact, Before, CallToks, Rule, Reducible, CallValue;
    var calls := Init(st.calls);
    assert st.calls == calls + [c];
    OkNested(st);
    BeforeCall(st.held, calls, c);
    PopOk(st.held, st.calls);
    ViewCall(st.written, st.held, calls, c);
    ExactLast(st.held, st.calls);
    CloseRule(st.held, c);
    ExactPop(st.held, st.calls);
    var end := [Punct(RPAREN)];
    Assoc(View(Popped(st)), CallToks(st.held, c), end);
    DerivesByRule(View(Popped(st)), CallToks(st.held, c) + end, CallValue(st.held, c));
  }

  lemma ReduceSound(st: State, h: Held)
    requires Ok(st) && Exact(st.held, st.calls) && st.calls != [] && h.tok == Punct(RPAREN)
    requires Reducible(Last(st.calls).kind, Drop(st.held, Last(st.calls).open + 1))
    ensures Derives(View(st) + [h.tok], View(Close(st, h).st) + InnerToks(Close(st, h).inner))
    ensures Exact(Close(st, h).st.held, Close(st, h).st.calls)
  {
    hide Ok, Exact, CallsOk, View, Derives, Take, LexAll;
    var c := Last(st.calls);
    CallReduced(st, c);
    if !c.kind.Eval? {
      var v := Held(CallValue(st.held, c)[0], c.depth);
      TakeSound(Popped(st), v);
      DerivesTrans(View(st) + [h.tok], View(Popped(st)) + [v.tok], View(Take(Popped(st), v)));
      assert View(Take(Popped(st), v)) + [] == View(Take(Popped(st), v));
    }
  }

  lemma ExactLast(held: seq<Held>, calls: seq<Call>)
    requires Exact(held, calls) && calls != []
    ensures CalleeAt(held, Last(calls))
  {
    hide CalleeAt;
  }

  lemma ExactPop(held: seq<Held>, calls: seq<Call>)
    requires Exact(held, calls) && Nested(held, calls) && calls != []
    ensures Exact(held[..Last(calls).start], Init(calls))
  {
    hide CalleeAt;
    var s := Last(calls).start;
    assert held[..s][..s] == held[..s];
    ExactFrame(held, held[..s], Init(calls), s);
  }

  lemma CloseSound(st: State, h: Held)
    requires Ok(st) && Exact(st.held, st.calls) && st.calls != [] && h.tok == Punct(RPAREN)
    ensures Derives(View(st) + [h.tok], View(Close(st, h).st) + InnerToks(Close(st, h).inner))
    ensures Exact(Close(st, h).st.held, Close(st, h).st.calls)
  {
    hide Nested, Spaced, InnerArgs, ArgOk, View, Derives, CalleeAt, Append, Take;
    if Reducible(Last(st.calls).kind, Drop(st.held, Last(st.calls).open + 1)) {
      ReduceSound(st, h);
    } else {
      var st' := GiveUpAll(st);
      GiveUpAllView(st);
      NoCallsOk(st'.held);
      AppendSound(st', h);
      var end := st'.(held := Append(st'.held, h));
      assert View(end) + [] == View(end);
    }
  }

  // ---------------------------------------------------------------- one token

  /** Below the cap corner, what a token leaves derives from what there was and the token. */
  lemma StepSound(st: State, h: Held)
    requires Ok(st) && Exact(st.held, st.calls) && !Misplaces(st, h)
    ensures Derives(View(st) + [h.tok], View(Step(st, h).st) + InnerToks(Step(st, h).inner))
    ensures Exact(Step(st, h).st.held, Step(st, h).st.calls)
  {
    hide Nested, Spaced, InnerArgs, ArgOk, View, Derives, CalleeAt, Take, Open, Close, Misplaces;
    var st' := Step(st, h).st;
    assert View(st') + [] == View(st');
    if h.tok == Punct(LPAREN) {
      OpenSound(st, h);
      DerivesRefl(View(st) + [h.tok]);
    } else if h.tok == Punct(RPAREN) && st.calls != [] {
      CloseSound(st, h);
    } else {
      TakeSound(st, h);
    }
  }

  /** The same with anything settled written out. */
  lemma PushSound(st: State, h: Held, keep: nat, batch: nat)
    requires Ok(st) && Exact(st.held, st.calls) && !Misplaces(st, h)
    ensures Derives(View(st) + [h.tok], View(Push(st, h, keep, batch).st) + InnerToks(Push(st, h, keep, batch).inner))
    ensures Exact(Push(st, h, keep, batch).st.held, Push(st, h, keep, batch).st.calls)
  {
    hide Nested, Spaced, InnerArgs, ArgOk, View, Derives, CalleeAt, Step, Misplaces;
    StepSound(st, h);
    StepOk(st, h);
    var st' := Step(st, h).st;
    WriteFrontOk(st', keep, Settled(st', keep));
    WriteFrontView(st', Settled(st', keep));
    ExactShift(st'.held, st'.calls, Settled(st', keep));
  }
}
