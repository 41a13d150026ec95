/** The reducer of the JavaScript normaliser as functions on values: what one token does to
    the tokens held back, the calls still open, and the tokens already written out. */
module JsReducer {
  import opened ByteSeq
  import opened JsText
  import opened JsLexer

  const MAX_OUTPUT: nat := 32 * 1024 * 1024
  const MAX_EVAL_DEPTH: nat := 32
  const MAX_OPEN_CALLS: nat := 256
  const KEEP_BEHIND: nat := 6
  /** How many tokens `flush` keeps before the outermost open call. */
  const KEEP_BEFORE_CALL: nat := 3
  const FLUSH_BATCH: nat := 1024

  /** A token not yet written out, with the `eval` depth of the text it came from. */
  datatype Held = Held(tok: Tok, depth: nat)

  /** What an open call waits for: one string, one string of code, or integers. */
  datatype Kind = Decode | Eval | FromCharCode(values: seq<nat>, wantNum: bool)

  /** `start` and `open` index `held`: the callee's first token, and the bracket. */
  datatype Call = Call(kind: Kind, start: nat, open: nat, depth: nat)

  datatype State = State(written: seq<Tok>, held: seq<Held>, calls: seq<Call>)

  /** The text of a reduced `eval`, to be read before the rest of the current text. */
  datatype Inner = Inner(text: Bytes, depth: nat)

  datatype Pushed = Pushed(st: State, inner: Option<Inner>)

  const EMPTY: State := State([], [], [])

  // ---------------------------------------------------------------- sequences

  function Sub(a: nat, b: nat): nat { if a >= b then a - b else 0 }

  function Slice<T>(s: seq<T>, from: nat, to: nat): seq<T> { Drop(Front(s, to), from) }

  function Toks(held: seq<Held>): (r: seq<Tok>)
    ensures |r| == |held|
  {
    seq(|held|, i requires 0 <= i < |held| => held[i].tok)
  }

  // ---------------------------------------------------------------- callees and arguments

  predicate IsNamed(h: Held, name: string) { h.tok.Ident? && SameName(h.tok.name, Ascii(name)) }

  predicate NamedString(h: Held) { IsNamed(h, "string") }
  predicate NamedFcc(h: Held) { IsNamed(h, "fromcharcode") }
  predicate NamedDecode(h: Held) { IsNamed(h, "unescape") || IsNamed(h, "decodeuricomponent") || IsNamed(h, "decodeuri") }
  predicate NamedEval(h: Held) { IsNamed(h, "eval") }
  predicate IsDot(h: Held) { h.tok == Punct(DOT) }
  predicate IsPlus(h: Held) { h.tok == Punct(PLUS) }

  /** The call a token starts when a bracket follows it. */
  function Callee(h: Held): Option<Kind> {
    if NamedFcc(h) then Some(FromCharCode([], true))
    else if NamedDecode(h) then Some(Decode)
    else if NamedEval(h) && h.depth < MAX_EVAL_DEPTH then Some(Eval)
    else None
  }

  /** How much of an argument is a string and the plus after it. */
  function PrefixLen(arg: seq<Held>): (n: nat)
    ensures n <= |arg| && n <= 2
  {
    if |arg| >= 1 && arg[0].tok.Str? then
      if |arg| >= 2 && IsPlus(arg[1]) then 2 else 1
    else 0
  }

  /** Nothing, or the start of the callee of a call whose value would join a string. */
  predicate CalleePart(rest: seq<Held>) {
    || rest == []
    || (|rest| == 1 && (Callee(rest[0]).Some? || NamedString(rest[0])))
    || (|rest| == 2 && NamedString(rest[0]) && IsDot(rest[1]))
    || (|rest| == 3 && NamedString(rest[0]) && IsDot(rest[1]) && NamedFcc(rest[2]))
  }

  predicate StringArgPossible(arg: seq<Held>) { CalleePart(arg[PrefixLen(arg)..]) }

  /** Whether what is held after a call's bracket can still take the form the call needs. */
  predicate ArgPossible(kind: Kind, arg: seq<Held>) {
    match kind
    case FromCharCode(_, wantNum) => |arg| == 1 && wantNum && Callee(arg[0]) == Some(Eval)
    case _ => StringArgPossible(arg)
  }

  // ---------------------------------------------------------------- giving up

  /** A `fromCharCode`'s stored list as the tokens it stands for. */
  function CodeToks(values: seq<nat>, wantNum: bool): seq<Tok> {
    if values == [] then []
    else if wantNum then ListToks(values) + [Punct(COMMA)]
    else ListToks(values)
  }

  function ListToks(values: seq<nat>): seq<Tok> {
    if values == [] then []
    else if |values| == 1 then [Num(Dec(values[0]))]
    else ListToks(Init(values)) + [Punct(COMMA), Num(Dec(Last(values)))]
  }

  /** The held tokens from `from` up to the last `fromCharCode` bracket, stored lists put back. */
  function WeaveFront(held: seq<Held>, calls: seq<Call>, from: nat): seq<Tok>
    decreases |calls|
  {
    if calls == [] then []
    else match calls[0].kind
      case FromCharCode(values, wantNum) =>
        Toks(Slice(held, from, calls[0].open + 1)) + CodeToks(values, wantNum)
          + WeaveFront(held, calls[1..], calls[0].open + 1)
      case _ => WeaveFront(held, calls[1..], from)
  }

  /** Past the last `fromCharCode` bracket, or `from`. */
  function CutAt(calls: seq<Call>, from: nat): nat
    decreases |calls|
  {
    if calls == [] then from
    else if calls[0].kind.FromCharCode? then CutAt(calls[1..], calls[0].open + 1)
    else CutAt(calls[1..], from)
  }

  /** No open call is reducible any more: stored lists are written in place. */
  function GiveUpAll(st: State): State {
    State(st.written + WeaveFront(st.held, st.calls, 0), Drop(st.held, CutAt(st.calls, 0)), [])
  }

  function Shift(calls: seq<Call>, n: nat): (r: seq<Call>)
    ensures |r| == |calls|
  {
    seq(|calls|, i requires 0 <= i < |calls| => calls[i].(start := Sub(calls[i].start, n), open := Sub(calls[i].open, n)))
  }

  function WriteFront(st: State, n: nat): State {
    State(st.written + Toks(Front(st.held, n)), Drop(st.held, n), Shift(st.calls, Min(n, |st.held|)))
  }

  function GiveUpOutermost(st: State): State {
    if st.calls == [] then st
    else match st.calls[0].kind
      case FromCharCode(values, wantNum) =>
        var st' := WriteFront(st.(calls := st.calls[1..]), st.calls[0].open + 1);
        st'.(written := st'.written + CodeToks(values, wantNum))
      case _ => st.(calls := st.calls[1..])
  }

  // ---------------------------------------------------------------- one token

  /** Hold a token, joining a string to the string before it, with or without a plus between. */
  function Append(held: seq<Held>, h: Held): seq<Held> {
    var n := |held|;
    if h.tok.Str? && n >= 1 && held[n - 1].tok.Str? then
      held[..n - 1] + [Held(Str(held[n - 1].tok.s + h.tok.s), held[n - 1].depth)]
    else if h.tok.Str? && n >= 2 && IsPlus(held[n - 1]) && held[n - 2].tok.Str? then
      held[..n - 2] + [Held(Str(held[n - 2].tok.s + h.tok.s), held[n - 2].depth)]
    else held + [h]
  }

  /** A number or a comma the innermost call keeps as a value rather than a token. */
  function Absorbed(st: State, h: Held): Option<Kind> {
    if st.calls == [] || !Last(st.calls).kind.FromCharCode? || |st.held| != Last(st.calls).open + 1 then None
    else
      var k := Last(st.calls).kind;
      if h.tok.Num? && k.wantNum && |k.values| < MAX_OUTPUT && ParseInt(h.tok.num).Some? then
        Some(FromCharCode(k.values + [ParseInt(h.tok.num).value], false))
      else if h.tok == Punct(COMMA) && !k.wantNum then Some(FromCharCode(k.values, true))
      else None
  }

  function Take(st: State, h: Held): State {
    match Absorbed(st, h)
    case Some(kind) => st.(calls := Init(st.calls) + [Last(st.calls).(kind := kind)])
    case None =>
      var st' := st.(held := Append(st.held, h));
      if st.calls != [] && !ArgPossible(Last(st.calls).kind, Drop(st'.held, Last(st.calls).open + 1)) then GiveUpAll(st')
      else st'
  }

  /** The callee right before the end of the held tokens: its kind, and where it starts. */
  function CalleeBehind(held: seq<Held>): Option<(Kind, nat)> {
    var n := |held|;
    if n == 0 then None
    else match Callee(held[n - 1])
      case None => None
      case Some(kind) =>
        var stringDot := n >= 3 && IsDot(held[n - 2]) && NamedString(held[n - 3]);
        Some((kind, if kind.FromCharCode? && stringDot then n - 3 else n - 1))
  }

  /** A bracket: the start of a call when a callee is right before it. */
  function Open(st: State, h: Held): State {
    match CalleeBehind(st.held)
    case Some((kind, start)) =>
      var st' := if |st.calls| == MAX_OPEN_CALLS then GiveUpOutermost(st) else st;
      State(st'.written, st'.held + [h],
            st'.calls + [Call(kind, Min(start, |st'.held|), |st'.held|, Last(st.held).depth)])
    case None =>
      var st' := GiveUpAll(st);
      st'.(held := st'.held + [h])
  }

  /** Whether a call's argument has the form its closing bracket needs. */
  predicate Reducible(kind: Kind, arg: seq<Held>) {
    match kind
    case FromCharCode(values, wantNum) => arg == [] && !wantNum && values != []
    case _ => |arg| == 1 && arg[0].tok.Str?
  }

  function Chars(values: seq<nat>): Bytes {
    if values == [] then [] else EncodeCp(values[0]) + Chars(values[1..])
  }

  /** A closing bracket of the innermost call: the call gives way to its value. */
  function Close(st: State, h: Held): Pushed
    requires st.calls != []
  {
    var call := Last(st.calls);
    var arg := Drop(st.held, call.open + 1);
    if !Reducible(call.kind, arg) then
      var st' := GiveUpAll(st);
      Pushed(st'.(held := Append(st'.held, h)), None)
    else
      var st' := State(st.written, Front(st.held, call.start), Init(st.calls));
      match call.kind
      case FromCharCode(values, _) => Pushed(Take(st', Held(Str(Chars(values)), call.depth)), None)
      case Eval => Pushed(st', Some(Inner(arg[0].tok.s, call.depth + 1)))
      case Decode => Pushed(Take(st', Held(Str(PercentDecode(arg[0].tok.s)), call.depth)), None)
  }

  /** What a token does, before anything settled is written out. */
  function Step(st: State, h: Held): Pushed {
    if h.tok == Punct(LPAREN) then Pushed(Open(st, h), None)
    else if h.tok == Punct(RPAREN) && st.calls != [] then Close(st, h)
    else Pushed(Take(st, h), None)
  }

  // ---------------------------------------------------------------- writing out

  /** How many held tokens may be written, keeping `keep` before the outermost call. */
  function Settled(st: State, keep: nat): nat {
    if st.calls == [] then Sub(|st.held|, KEEP_BEHIND) else Sub(st.calls[0].start, keep)
  }

  function Flush(st: State, keep: nat, batch: nat): State {
    if Settled(st, keep) >= batch then WriteFront(st, Settled(st, keep)) else st
  }

  function Push(st: State, h: Held, keep: nat, batch: nat): Pushed {
    var p := Step(st, h);
    p.(st := Flush(p.st, keep, batch))
  }

  /** Every token written, once no more will come. */
  function Finished(st: State): seq<Tok> {
    var st' := GiveUpAll(st);
    st'.written + Toks(st'.held)
  }

  /** Tokens of one depth, one after another, nothing written out in between. */
  function Feed(st: State, ts: seq<Tok>, d: nat): State
    decreases |ts|
  {
    if ts == [] then st else Feed(Step(st, Held(ts[0], d)).st, ts[1..], d)
  }

  lemma {:induction false} FeedAppend(st: State, a: seq<Tok>, b: seq<Tok>, d: nat)
    ensures Feed(st, a + b, d) == Feed(Feed(st, a, d), b, d)
    decreases |a|
  {
    hide Step;
    if a == [] {
      assert a + b == b;
    } else {
      assert (a + b)[1..] == a[1..] + b;
      FeedAppend(Step(st, Held(a[0], d)).st, a[1..], b, d);
    }
  }

  lemma FeedOne(st: State, t: Tok, d: nat)
    ensures Feed(st, [t], d) == Step(st, Held(t, d)).st
  {
    hide Step;
    assert [t][1..] == [];
  }
}
