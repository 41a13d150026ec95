/** What every token keeps: the open calls stay nested inside one another and close together,
    so no index of the reducer ever goes astray and the held tail stays short. */
module JsInvariant {
  import opened ByteSeq
  import opened JsText
  import opened JsLexer
  import opened JsReducer

  /** Each bracket is held, after its callee, and each call is inside the one before. */
  ghost predicate Nested(held: seq<Held>, calls: seq<Call>) {
    && (forall i :: 0 <= i < |calls| ==> calls[i].start <= calls[i].open < |held| && held[calls[i].open].tok == Punct(LPAREN))
    && (forall i, j :: 0 <= i < j < |calls| ==> calls[i].open < calls[j].start)
  }

  /** A callee is one token, or three for `String.fromCharCode`. */
  ghost predicate Narrow(call: Call) {
    call.open <= call.start + (if call.kind.FromCharCode? then 3 else 1)
  }

  /** Where a call's bracket would be if every callee were one token. */
  function Weight(call: Call): int { call.open - (if call.kind.FromCharCode? then 2 else 0) }

  /** At most four tokens a call between brackets, over any stretch of calls. */
  ghost predicate Spaced(calls: seq<Call>) {
    && (forall i :: 0 <= i < |calls| ==> Narrow(calls[i]))
    && (forall i, j :: 0 <= i < j < |calls| ==> Weight(calls[j]) - Weight(calls[i]) <= 4 * (j - i))
  }

  /** An argument that can still reduce, or an empty `fromCharCode` list. */
  ghost predicate ArgOk(kind: Kind, arg: seq<Held>) {
    ArgPossible(kind, arg) || (kind.FromCharCode? && arg == [])
  }

  /** What is held of a call's argument before the call inside it. */
  ghost predicate InnerArgs(held: seq<Held>, calls: seq<Call>)
    requires Nested(held, calls)
  {
    forall i, j :: 0 <= i < j < |calls| && j == i + 1 ==> ArgOk(calls[i].kind, held[calls[i].open + 1..calls[j].start])
  }

  ghost predicate CallsOk(held: seq<Held>, calls: seq<Call>) {
    Nested(held, calls) && Spaced(calls) && InnerArgs(held, calls)
  }

  ghost predicate LastArg(held: seq<Held>, calls: seq<Call>) {
    calls != [] ==> ArgOk(Last(calls).kind, Drop(held, Last(calls).open + 1))
  }

  ghost predicate Ok(st: State) { CallsOk(st.held, st.calls) && LastArg(st.held, st.calls) }

  // ---------------------------------------------------------------- arguments

  /** What has been read of a possible argument was possible. */
  lemma ArgOkPrefix(kind: Kind, arg: seq<Held>, m: nat)
    requires ArgOk(kind, arg) && m <= |arg|
    ensures ArgOk(kind, arg[..m])
  {
    if !kind.FromCharCode? {
      var p := PrefixLen(arg);
      if m <= p {
        assert arg[..m][PrefixLen(arg[..m])..] == [];
      } else {
        assert arg[..m][p..] == arg[p..][..m - p];
      }
    } else {
      assert m == |arg| ==> arg[..m] == arg;
    }
  }

  /** The argument a callee ends: how long it is, and how long the callee. */
  lemma CalleeEndsArg(kind: Kind, arg: seq<Held>)
    requires ArgOk(kind, arg) && arg != [] && Callee(Last(arg)).Some?
    ensures kind.FromCharCode? ==> |arg| == 1 && Callee(Last(arg)) == Some(Eval)
    ensures Callee(Last(arg)).value.FromCharCode? ==> |arg| <= 5
    ensures !Callee(Last(arg)).value.FromCharCode? ==> |arg| <= 3
  {
    if !kind.FromCharCode? {
      var p := PrefixLen(arg);
      var rest := arg[p..];
      assert rest != [] ==> Last(rest) == Last(arg);
      assert |rest| == 0 ==> Last(arg).tok.Str? || IsPlus(Last(arg));
    }
  }

  lemma EmptyArgOk(kind: Kind)
    ensures ArgOk(kind, [])
  {}

  lemma ArgLen(kind: Kind, arg: seq<Held>)
    requires ArgOk(kind, arg)
    ensures |arg| <= (if kind.FromCharCode? then 1 else 5)
  {}

  // ---------------------------------------------------------------- frames

  lemma NoCallsOk(held: seq<Held>)
    ensures CallsOk(held, []) && LastArg(held, [])
  {}

  lemma LastBracket(held: seq<Held>, calls: seq<Call>)
    requires Nested(held, calls) && calls != []
    ensures Last(calls).start <= Last(calls).open < |held|
    ensures held[Last(calls).open].tok == Punct(LPAREN)
    ensures forall i :: 0 <= i < |calls| ==> calls[i].open <= Last(calls).open
  {}

  /** The calls see nothing after the last bracket. */
  lemma NestedBefore(held: seq<Held>, calls: seq<Call>)
    requires Nested(held, calls) && calls != []
    ensures Last(calls).open < |held| && forall i :: 0 <= i < |calls| ==> calls[i].start <= calls[i].open <= Last(calls).open
    ensures forall i, j :: 0 <= i < j < |calls| ==> calls[i].open < calls[j].start <= |held|
  {}

  lemma CallsFrame(held: seq<Held>, held': seq<Held>, calls: seq<Call>)
    requires CallsOk(held, calls) && calls != []
    requires Last(calls).open < |held'| && held'[..Last(calls).open + 1] == held[..Last(calls).open + 1]
    ensures CallsOk(held', calls)
  {
    hide ArgOk, Spaced, Nested;
    NestedFrame(held, held', calls);
    NestedBefore(held, calls);
    forall i, j | 0 <= i < j < |calls| && j == i + 1
      ensures ArgOk(calls[i].kind, held'[calls[i].open + 1..calls[j].start])
    {
      SameStretch(held, held', Last(calls).open + 1, calls[i].open + 1, calls[j].start);
    }
  }

  lemma NestedFrame(held: seq<Held>, held': seq<Held>, calls: seq<Call>)
    requires Nested(held, calls) && calls != []
    requires Last(calls).open < |held'| && held'[..Last(calls).open + 1] == held[..Last(calls).open + 1]
    ensures Nested(held', calls)
  {
    var k := Last(calls).open + 1;
    forall i | 0 <= i < |calls|
      ensures calls[i].open < k && held'[calls[i].open] == held[calls[i].open]
    {
      assert held'[..k][calls[i].open] == held[..k][calls[i].open];
    }
  }

  lemma SameStretch(held: seq<Held>, held': seq<Held>, k: nat, a: nat, b: nat)
    requires k <= |held| && k <= |held'| && held[..k] == held'[..k] && a <= b <= k
    ensures held[a..b] == held'[a..b]
  {
    forall i | a <= i < b ensures held[i] == held'[i] {
      assert held[..k][i] == held'[..k][i];
    }
  }

  /** Joining strings stops at the last bracket. */
  lemma AppendAfter(held: seq<Held>, h: Held, k: nat)
    requires k < |held| && held[k].tok == Punct(LPAREN)
    ensures k < |Append(held, h)| && Append(held, h)[..k + 1] == held[..k + 1]
    ensures Append(held, h)[k + 1..] == Append(held[k + 1..], h)
  {
    var arg := held[k + 1..];
    var n := |held|;
    assert |arg| >= 1 ==> Last(arg) == held[n - 1];
    assert |arg| >= 2 ==> arg[|arg| - 2] == held[n - 2];
    assert |arg| >= 1 ==> held[..n - 1][k + 1..] == arg[..|arg| - 1];
    assert |arg| >= 2 ==> held[..n - 2][k + 1..] == arg[..|arg| - 2];
  }

  /** Without the innermost call, and without its tokens. */
  lemma PopOk(held: seq<Held>, calls: seq<Call>)
    requires CallsOk(held, calls) && calls != []
    ensures CallsOk(Front(held, Last(calls).start), Init(calls))
    ensures LastArg(Front(held, Last(calls).start), Init(calls))
  {
    var s := Last(calls).start;
    var held' := Front(held, s);
    var calls' := Init(calls);
    if calls' != [] {
      var k := Last(calls').open + 1;
      assert calls'[|calls'| - 1] == calls[|calls| - 2];
      PopCalls(held, calls);
      assert held'[..k] == held[..k];
      CallsFrame(held, held', calls');
      assert Drop(held', k) == held[k..s];
    }
  }

  lemma PopCalls(held: seq<Held>, calls: seq<Call>)
    requires CallsOk(held, calls) && calls != []
    ensures CallsOk(held, Init(calls))
  {
    hide ArgOk;
  }

  lemma DropFirst(held: seq<Held>, calls: seq<Call>)
    requires CallsOk(held, calls) && calls != []
    ensures CallsOk(held, calls[1..])
  {
    hide ArgOk;
    var t := calls[1..];
    forall i, j | 0 <= i < j < |t|
      ensures t[i] == calls[i + 1] && t[j] == calls[j + 1] && Weight(t[j]) - Weight(t[i]) <= 4 * (j - i)
    {
      assert Weight(calls[j + 1]) - Weight(calls[i + 1]) <= 4 * (j + 1 - (i + 1));
    }
  }

  /** Writing out tokens before every open call moves the indices and nothing else. */
  lemma ShiftOk(held: seq<Held>, calls: seq<Call>, n: nat)
    requires CallsOk(held, calls) && n <= |held|
    requires forall i :: 0 <= i < |calls| ==> n <= calls[i].start
    ensures CallsOk(held[n..], Shift(calls, n))
    ensures LastArg(held, calls) ==> LastArg(held[n..], Shift(calls, n))
  {
    hide Spaced, ArgOk, Nested, InnerArgs;
    ShiftNested(held, calls, n);
    ShiftSpaced(calls, n);
    ShiftArgs(held, calls, n);
    if calls != [] {
      ShiftedTail(held, n, Last(calls).open + 1);
    }
  }

  lemma ShiftArgs(held: seq<Held>, calls: seq<Call>, n: nat)
    requires Nested(held, calls) && InnerArgs(held, calls) && n <= |held|
    requires Nested(held[n..], Shift(calls, n))
    requires forall i :: 0 <= i < |calls| ==> n <= calls[i].start
    ensures InnerArgs(held[n..], Shift(calls, n))
  {
    hide ArgOk;
    var held', calls' := held[n..], Shift(calls, n);
    forall i, j | 0 <= i < j < |calls'| && j == i + 1
      ensures ArgOk(calls'[i].kind, held'[calls'[i].open + 1..calls'[j].start])
    {
      ShiftedStretch(held, n, calls[i].open + 1, calls[j].start);
    }
  }

  lemma ShiftedStretch(held: seq<Held>, n: nat, a: nat, b: nat)
    requires n <= a <= b <= |held|
    ensures held[n..][a - n..b - n] == held[a..b]
  {}

  lemma ShiftedTail(held: seq<Held>, n: nat, a: nat)
    requires n <= a <= |held|
    ensures Drop(held[n..], a - n) == Drop(held, a)
  {}

  lemma ShiftNested(held: seq<Held>, calls: seq<Call>, n: nat)
    requires Nested(held, calls) && n <= |held|
    requires forall i :: 0 <= i < |calls| ==> n <= calls[i].start
    ensures Nested(held[n..], Shift(calls, n))
    ensures forall i :: 0 <= i < |calls| ==> Shift(calls, n)[i].start == calls[i].start - n && Shift(calls, n)[i].open == calls[i].open - n
  {}

  lemma ShiftSpaced(calls: seq<Call>, n: nat)
    requires Spaced(calls)
    requires forall i :: 0 <= i < |calls| ==> n <= calls[i].start <= calls[i].open
    ensures Spaced(Shift(calls, n))
  {
    var calls' := Shift(calls, n);
    forall i, j | 0 <= i < j < |calls'|
      ensures Weight(calls'[j]) - Weight(calls'[i]) <= 4 * (j - i)
    {
      assert Weight(calls[j]) - Weight(calls[i]) <= 4 * (j - i);
    }
  }

  // ---------------------------------------------------------------- each step

  /** How many tokens giving up the outermost call writes out. */
  function OutermostCut(st: State): nat
    requires st.calls != []
  {
    if st.calls[0].kind.FromCharCode? then st.calls[0].open + 1 else 0
  }

  /** It writes tokens before every other call. */
  lemma OutermostShift(st: State)
    requires Nested(st.held, st.calls) && st.calls != []
    ensures OutermostCut(st) <= |st.held|
    ensures forall i :: 0 <= i < |st.calls[1..]| ==> OutermostCut(st) <= st.calls[1..][i].start
    ensures GiveUpOutermost(st).held == st.held[OutermostCut(st)..]
    ensures GiveUpOutermost(st).calls == Shift(st.calls[1..], OutermostCut(st))
  {
    hide CodeToks;
    assert Shift(st.calls[1..], 0) == st.calls[1..];
  }

  lemma GiveUpOutermostOk(st: State)
    requires Ok(st) && |st.calls| >= 2
    ensures Ok(GiveUpOutermost(st))
  {
    hide Nested, Spaced, InnerArgs, ArgOk, GiveUpOutermost, Shift;
    DropFirst(st.held, st.calls);
    assert Last(st.calls[1..]) == Last(st.calls);
    OutermostShift(st);
    ShiftOk(st.held, st.calls[1..], OutermostCut(st));
  }

  lemma TakeOk(st: State, h: Held)
    requires CallsOk(st.held, st.calls)
    ensures Ok(Take(st, h))
  {
    hide CallsOk, ArgPossible, Append;
    if st.calls == [] {
      NoCallsOk(Append(st.held, h));
    } else {
      match Absorbed(st, h) {
        case Some(kind) => AbsorbOk(st.held, st.calls, kind);
        case None =>
          AppendOk(st.held, st.calls, h);
          NoCallsOk(Drop(Append(st.held, h), CutAt(st.calls, 0)));
      }
    }
  }

  lemma AppendOk(held: seq<Held>, calls: seq<Call>, h: Held)
    requires CallsOk(held, calls) && calls != []
    ensures CallsOk(Append(held, h), calls)
  {
    hide Append, Spaced, InnerArgs;
    LastBracket(held, calls);
    AppendAfter(held, h, Last(calls).open);
    CallsFrame(held, Append(held, h), calls);
  }

  lemma AbsorbOk(held: seq<Held>, calls: seq<Call>, kind: Kind)
    requires CallsOk(held, calls) && calls != [] && kind.FromCharCode? && Last(calls).kind.FromCharCode?
    requires |held| == Last(calls).open + 1
    ensures var calls' := Init(calls) + [Last(calls).(kind := kind)];
            CallsOk(held, calls') && LastArg(held, calls')
  {
    hide ArgPossible;
    var calls' := Init(calls) + [Last(calls).(kind := kind)];
    forall i | 0 <= i < |calls'|
      ensures calls'[i].start == calls[i].start && calls'[i].open == calls[i].open
      ensures calls'[i].kind.FromCharCode? == calls[i].kind.FromCharCode? && (i < |calls| - 1 ==> calls'[i] == calls[i])
    {}
    assert Nested(held, calls');
    SameSpacing(calls, calls');
    forall i, j | 0 <= i < j < |calls'| && j == i + 1
      ensures ArgOk(calls'[i].kind, held[calls'[i].open + 1..calls'[j].start])
    {
      assert ArgOk(calls[i].kind, held[calls[i].open + 1..calls[j].start]);
    }
  }

  lemma SameSpacing(calls: seq<Call>, calls': seq<Call>)
    requires Spaced(calls) && |calls| == |calls'|
    requires forall i :: 0 <= i < |calls| ==>
      calls'[i].start == calls[i].start && calls'[i].open == calls[i].open && calls'[i].kind.FromCharCode? == calls[i].kind.FromCharCode?
    ensures Spaced(calls')
  {
    forall i, j | 0 <= i < j < |calls'| ensures Weight(calls'[j]) - Weight(calls'[i]) <= 4 * (j - i) {
      assert Weight(calls[j]) - Weight(calls[i]) <= 4 * (j - i);
    }
  }

  lemma OpenOk(st: State, h: Held)
    requires Ok(st) && h.tok == Punct(LPAREN)
    ensures Ok(Open(st, h))
  {
    hide Nested, Spaced, InnerArgs, ArgOk, GiveUpOutermost, CalleeBehind;
    match CalleeBehind(st.held) {
      case None => NoCallsOk(GiveUpAll(st).held + [h]);
      case Some((kind, start)) =>
        CalleeWhere(st.held);
        if st.calls != [] { CalleeAfterBracket(st, start); }
        if |st.calls| == MAX_OPEN_CALLS {
          var st' := GiveUpOutermost(st);
          GiveUpOutermostOk(st);
          CapKeepsEnd(st, start);
          OpenedOk(st'.held, st'.calls, Call(kind, Min(start, |st'.held|), |st'.held|, Last(st.held).depth), h);
        } else {
          OpenedOk(st.held, st.calls, Call(kind, start, |st.held|, Last(st.held).depth), h);
        }
    }
  }

  /** A callee is at the end, one token, or three for `fromCharCode`, none of them a bracket. */
  lemma CalleeWhere(held: seq<Held>)
    requires CalleeBehind(held).Some?
    ensures var (kind, start) := CalleeBehind(held).value;
            && held != [] && Callee(Last(held)) == Some(kind)
            && start < |held| <= start + (if kind.FromCharCode? then 3 else 1)
            && (forall i :: start <= i < |held| ==> held[i].tok != Punct(LPAREN))
  {
    hide SameName, Ascii;
  }

  /** It starts after the bracket of the call around it. */
  lemma CalleeAfterBracket(st: State, start: nat)
    requires CallsOk(st.held, st.calls) && st.calls != []
    requires CalleeBehind(st.held).Some? && CalleeBehind(st.held).value.1 == start
    ensures Last(st.calls).open < start
  {
    hide Spaced, InnerArgs, CalleeBehind;
    CalleeWhere(st.held);
    LastBracket(st.held, st.calls);
  }

  /** At the cap the outermost call goes, and the end of the held tokens stays as it was, even
      though `start` is then an index into what was held before. */
  lemma CapKeepsEnd(st: State, start: nat)
    requires Nested(st.held, st.calls) && |st.calls| >= 2
    requires Last(st.calls).open < start < |st.held|
    ensures var st' := GiveUpOutermost(st);
            && st'.held != [] && Last(st'.held) == Last(st.held) && st'.calls != []
            && Last(st'.calls).open < Min(start, |st'.held|) && |st'.held| <= |st.held|
  {
    hide GiveUpOutermost;
    OutermostShift(st);
    LastBracket(st.held, st.calls);
    assert Last(st.calls[1..]) == Last(st.calls);
    assert OutermostCut(st) <= Last(st.calls[1..]).start;
  }

  /** A bracket after a callee opens a call inside the innermost one. */
  lemma OpenedOk(held: seq<Held>, calls: seq<Call>, call: Call, h: Held)
    requires CallsOk(held, calls) && LastArg(held, calls) && h.tok == Punct(LPAREN)
    requires held != [] && Callee(Last(held)) == Some(call.kind)
    requires call.open == |held| && call.start <= call.open && Narrow(call)
    requires calls != [] ==> Last(calls).open < call.start
    ensures CallsOk(held + [h], calls + [call]) && LastArg(held + [h], calls + [call])
  {
    hide Nested, Spaced, InnerArgs, ArgOk, Callee, Narrow;
    var held', calls' := held + [h], calls + [call];
    if calls != [] {
      var last := Last(calls);
      LastBracket(held, calls);
      CallsFrame(held, held', calls);
      OpenedLast(held, last, call);
      assert held'[last.open + 1..call.start] == held[last.open + 1..call.start];
      SpacedExtend(calls, call);
      NestedExtend(held, calls, call, h);
      ArgsExtend(held', calls, call);
    } else {
      assert [] + [call] == [call];
      FirstCall(held', call);
    }
    assert Drop(held', call.open + 1) == [];
    EmptyArgOk(call.kind);
  }

  lemma FirstCall(held: seq<Held>, call: Call)
    requires call.start <= call.open < |held| && held[call.open].tok == Punct(LPAREN) && Narrow(call)
    ensures CallsOk(held, [call])
  {}

  lemma ArgsExtend(held: seq<Held>, calls: seq<Call>, call: Call)
    requires calls != [] && Nested(held, calls) && InnerArgs(held, calls) && Nested(held, calls + [call])
    requires Last(calls).open + 1 <= call.start <= |held| && ArgOk(Last(calls).kind, held[Last(calls).open + 1..call.start])
    ensures InnerArgs(held, calls + [call])
  {
    hide ArgOk;
    var calls' := calls + [call];
    forall i, j | 0 <= i < j < |calls'| && j == i + 1
      ensures ArgOk(calls'[i].kind, held[calls'[i].open + 1..calls'[j].start])
    {
      if j < |calls| { assert calls'[i] == calls[i] && calls'[j] == calls[j]; }
    }
  }

  lemma NestedExtend(held: seq<Held>, calls: seq<Call>, call: Call, h: Held)
    requires Nested(held, calls) && calls != [] && h.tok == Punct(LPAREN)
    requires Last(calls).open < call.start <= call.open == |held|
    ensures Nested(held + [h], calls + [call])
  {
    forall i | 0 <= i < |calls| ensures calls[i].open <= Last(calls).open {}
  }

  lemma OpenedLast(held: seq<Held>, last: Call, call: Call)
    requires last.open < |held| && held[last.open].tok == Punct(LPAREN)
    requires ArgOk(last.kind, Drop(held, last.open + 1))
    requires Callee(Last(held)) == Some(call.kind)
    requires last.open < call.start <= call.open == |held|
    ensures ArgOk(last.kind, held[last.open + 1..call.start])
    ensures Weight(call) - Weight(last) <= 4
  {
    var arg := held[last.open + 1..];
    assert Last(held).tok.Ident?;
    assert last.open + 1 < |held| && Last(arg) == Last(held);
    CalleeEndsArg(last.kind, arg);
    assert held[last.open + 1..call.start] == arg[..call.start - (last.open + 1)];
    ArgOkPrefix(last.kind, arg, call.start - (last.open + 1));
  }

  lemma SpacedExtend(calls: seq<Call>, call: Call)
    requires Spaced(calls) && calls != [] && Narrow(call) && Weight(call) - Weight(Last(calls)) <= 4
    ensures Spaced(calls + [call])
  {
    var calls' := calls + [call];
    forall i, j | 0 <= i < j < |calls'|
      ensures Weight(calls'[j]) - Weight(calls'[i]) <= 4 * (j - i)
    {
      if j == |calls| && i < |calls| - 1 {
        assert Weight(calls[|calls| - 1]) - Weight(calls[i]) <= 4 * (|calls| - 1 - i);
      }
    }
  }

  lemma CloseOk(st: State, h: Held)
    requires Ok(st) && st.calls != []
    ensures Ok(Close(st, h).st)
  {
    var call := Last(st.calls);
    if Reducible(call.kind, Drop(st.held, call.open + 1)) {
      PopOk(st.held, st.calls);
      var st' := State(st.written, Front(st.held, call.start), Init(st.calls));
      match call.kind {
        case FromCharCode(values, _) => TakeOk(st', Held(Str(Chars(values)), call.depth));
        case Decode => TakeOk(st', Held(Str(PercentDecode(Drop(st.held, call.open + 1)[0].tok.s)), call.depth));
        case Eval =>
      }
    }
  }

  lemma StepOk(st: State, h: Held)
    requires Ok(st)
    ensures Ok(Step(st, h).st)
  {
    if h.tok == Punct(LPAREN) {
      OpenOk(st, h);
    } else if h.tok == Punct(RPAREN) && st.calls != [] {
      CloseOk(st, h);
    } else {
      TakeOk(st, h);
    }
  }

  /** Writing out any number of settled tokens. */
  lemma WriteFrontOk(st: State, keep: nat, n: nat)
    requires Ok(st) && n <= Settled(st, keep)
    ensures Ok(WriteFront(st, n))
    ensures n <= |st.held| && forall i :: 0 <= i < |st.calls| ==> n <= st.calls[i].start
  {
    hide Spaced, ArgOk, Nested, InnerArgs;
    SettledBeforeCalls(st, keep);
    ShiftOk(st.held, st.calls, n);
  }

  lemma SettledBeforeCalls(st: State, keep: nat)
    requires Nested(st.held, st.calls)
    ensures Settled(st, keep) <= |st.held| && forall i :: 0 <= i < |st.calls| ==> Settled(st, keep) <= st.calls[i].start
  {}

  lemma PushOk(st: State, h: Held, keep: nat, batch: nat)
    requires Ok(st)
    ensures Ok(Push(st, h, keep, batch).st)
  {
    StepOk(st, h);
    var st' := Step(st, h).st;
    WriteFrontOk(st', keep, Settled(st', keep));
  }

  // ---------------------------------------------------------------- the bound

  /** What is held from the outermost call on: four tokens a call, and three. */
  lemma TailAfterCalls(st: State)
    requires Ok(st) && st.calls != []
    ensures |st.held| <= st.calls[0].start + 4 * |st.calls| + 3
  {
    hide ArgOk, InnerArgs, Spaced, Nested;
    var last := Last(st.calls);
    LastBracket(st.held, st.calls);
    ArgLen(last.kind, Drop(st.held, last.open + 1));
    SpacedWhole(st.calls);
  }

  lemma SpacedWhole(calls: seq<Call>)
    requires Spaced(calls) && calls != []
    ensures Weight(Last(calls)) <= calls[0].start + 1 + 4 * (|calls| - 1)
  {
    assert Narrow(calls[0]);
    if |calls| > 1 {
      assert Weight(calls[|calls| - 1]) - Weight(calls[0]) <= 4 * (|calls| - 1 - 0);
    }
  }

  /** After every push the held tail is a constant and four tokens a call still open. */
  lemma TailBounded(st: State, h: Held, keep: nat, batch: nat)
    requires Ok(st) && keep <= 3 && batch >= 1
    ensures var st' := Push(st, h, keep, batch).st;
            |st'.held| <= batch + 5 + 4 * |st'.calls|
  {
    hide Spaced, ArgOk, Nested, InnerArgs, Step;
    StepOk(st, h);
    PushOk(st, h, keep, batch);
    var st1 := Step(st, h).st;
    var st' := Push(st, h, keep, batch).st;
    WriteFrontOk(st1, keep, Settled(st1, keep));
    if st'.calls != [] {
      TailAfterCalls(st');
    }
  }
}
