/** What the reducer carries: the bytes of held strings and the characters of stored codes.
    No step makes more of them than the token it takes pays for. */
module JsLoad {
  import opened ByteSeq
  import opened JsText
  import opened JsLexer
  import opened JsReducer
  import opened JsInvariant

  function StrLen(t: Tok): nat { if t.Str? then |t.s| else 0 }

  function HeldBytes(held: seq<Held>): nat {
    if held == [] then 0 else StrLen(held[0].tok) + HeldBytes(held[1..])
  }

  function CodeBytes(calls: seq<Call>): nat {
    if calls == [] then 0
    else CodeBytes(Init(calls)) + (if Last(calls).kind.FromCharCode? then |Chars(Last(calls).kind.values)| else 0)
  }

  function Load(st: State): nat { HeldBytes(st.held) + CodeBytes(st.calls) }

  /** The most later text a token can turn into. */
  function Cost(t: Tok): nat {
    if t.Str? then |t.s|
    else if t.Num? && ParseInt(t.num).Some? then |EncodeCp(ParseInt(t.num).value)|
    else 0
  }

  lemma {:induction false} HeldBytesAppend(a: seq<Held>, b: seq<Held>)
    ensures HeldBytes(a + b) == HeldBytes(a) + HeldBytes(b)
    decreases |a|
  {
    if a == [] {
      assert a + b == b;
    } else {
      assert (a + b)[1..] == a[1..] + b;
      HeldBytesAppend(a[1..], b);
    }
  }

  lemma HeldBytesOne(h: Held)
    ensures HeldBytes([h]) == StrLen(h.tok)
  {
    assert [h][1..] == [];
  }

  lemma HeldBytesSplit(held: seq<Held>, k: nat)
    requires k <= |held|
    ensures HeldBytes(held) == HeldBytes(held[..k]) + HeldBytes(held[k..])
  {
    assert held == held[..k] + held[k..];
    HeldBytesAppend(held[..k], held[k..]);
  }

  /** Joining strings keeps their bytes. */
  lemma AppendLoad(held: seq<Held>, h: Held)
    ensures HeldBytes(Append(held, h)) == HeldBytes(held) + StrLen(h.tok)
  {
    var n := |held|;
    if h.tok.Str? && n >= 1 && held[n - 1].tok.Str? {
      JoinLoad(held, h, n - 1);
    } else if h.tok.Str? && n >= 2 && IsPlus(held[n - 1]) && held[n - 2].tok.Str? {
      JoinLoad(held, h, n - 2);
    } else {
      HeldBytesAppend(held, [h]);
      HeldBytesOne(h);
    }
  }

  lemma JoinLoad(held: seq<Held>, h: Held, k: nat)
    requires h.tok.Str? && k < |held| && held[k].tok.Str?
    requires |held| == k + 1 || (|held| == k + 2 && IsPlus(held[k + 1]))
    ensures var j := Held(Str(held[k].tok.s + h.tok.s), held[k].depth);
            HeldBytes(held[..k] + [j]) == HeldBytes(held) + StrLen(h.tok)
  {
    var j := Held(Str(held[k].tok.s + h.tok.s), held[k].depth);
    HeldBytesAppend(held[..k], [j]);
    HeldBytesOne(j);
    HeldBytesSplit(held, k);
    assert held[k..][1..] == held[k + 1..];
    if |held| == k + 2 {
      assert held[k + 1..] == [held[k + 1]];
      HeldBytesOne(held[k + 1]);
    }
  }

  lemma {:induction false} CharsAppend(values: seq<nat>, v: nat)
    ensures Chars(values + [v]) == Chars(values) + EncodeCp(v)
    decreases |values|
  {
    hide EncodeCp;
    if values == [] {
      assert values + [v] == [v] && [v][1..] == [];
    } else {
      assert (values + [v])[1..] == values[1..] + [v];
      CharsAppend(values[1..], v);
    }
  }

  lemma CodeBytesSnoc(calls: seq<Call>, c: Call)
    ensures CodeBytes(calls + [c]) == CodeBytes(calls) + (if c.kind.FromCharCode? then |Chars(c.kind.values)| else 0)
  {
    assert Init(calls + [c]) == calls;
  }

  lemma {:induction false} CodeBytesTail(calls: seq<Call>)
    requires calls != []
    ensures CodeBytes(calls[1..]) <= CodeBytes(calls)
    decreases |calls|
  {
    hide Chars;
    if |calls| > 1 {
      assert Init(calls)[1..] == Init(calls[1..]) && Last(calls[1..]) == Last(calls);
      CodeBytesTail(Init(calls));
    }
  }

  lemma {:induction false} CodeBytesShift(calls: seq<Call>, n: nat)
    ensures CodeBytes(Shift(calls, n)) == CodeBytes(calls)
    decreases |calls|
  {
    hide Chars;
    if calls != [] {
      assert Init(Shift(calls, n)) == Shift(Init(calls), n);
      CodeBytesShift(Init(calls), n);
    }
  }

  lemma DropLoad(held: seq<Held>, n: nat)
    ensures HeldBytes(Drop(held, n)) <= HeldBytes(held)
  {
    if n <= |held| { HeldBytesSplit(held, n); }
  }

  lemma GiveUpAllLoad(st: State)
    ensures Load(GiveUpAll(st)) <= Load(st)
  {
    DropLoad(st.held, CutAt(st.calls, 0));
  }

  lemma WriteFrontLoad(st: State, n: nat)
    ensures Load(WriteFront(st, n)) <= Load(st)
  {
    hide Shift;
    DropLoad(st.held, n);
    CodeBytesShift(st.calls, Min(n, |st.held|));
  }

  lemma GiveUpOutermostLoad(st: State)
    ensures Load(GiveUpOutermost(st)) <= Load(st)
  {
    hide WriteFront, CodeBytes;
    if st.calls != [] {
      CodeBytesTail(st.calls);
      WriteFrontLoad(st.(calls := st.calls[1..]), st.calls[0].open + 1);
    }
  }

  lemma TakeLoad(st: State, h: Held)
    ensures Load(Take(st, h)) <= Load(st) + Cost(h.tok)
  {
    hide ArgPossible, ParseInt, Append;
    match Absorbed(st, h) {
      case Some(kind) =>
        var calls, c := Init(st.calls), Last(st.calls);
        assert st.calls == calls + [c];
        CodeBytesSnoc(calls, c);
        CodeBytesSnoc(calls, c.(kind := kind));
        if h.tok.Num? { CharsAppend(c.kind.values, ParseInt(h.tok.num).value); }
      case None =>
        AppendLoad(st.held, h);
        GiveUpAllLoad(st.(held := Append(st.held, h)));
    }
  }

  lemma OpenLoad(st: State, h: Held)
    requires h.tok == Punct(LPAREN)
    ensures Load(Open(st, h)) <= Load(st)
  {
    hide CalleeBehind, GiveUpOutermost, GiveUpAll, IsNamed;
    HeldBytesOne(h);
    match CalleeBehind(st.held) {
      case None =>
        GiveUpAllLoad(st);
        HeldBytesAppend(GiveUpAll(st).held, [h]);
      case Some((kind, start)) =>
        var st' := if |st.calls| == MAX_OPEN_CALLS then GiveUpOutermost(st) else st;
        GiveUpOutermostLoad(st);
        HeldBytesAppend(st'.held, [h]);
        FreshKind(st.held);
        CodeBytesSnoc(st'.calls, Call(kind, Min(start, |st'.held|), |st'.held|, Last(st.held).depth));
    }
  }

  lemma FreshKind(held: seq<Held>)
    requires CalleeBehind(held).Some?
    ensures var kind := CalleeBehind(held).value.0; held != [] && (kind.FromCharCode? ==> Chars(kind.values) == [])
  {
    hide IsNamed;
  }

  /** A closed call's value is no longer than its argument or its codes. */
  lemma CloseLoad(st: State, h: Held)
    requires st.calls != [] && Last(st.calls).start <= Last(st.calls).open && h.tok == Punct(RPAREN)
    ensures Load(Close(st, h).st) + (if Close(st, h).inner.Some? then |Close(st, h).inner.value.text| else 0) <= Load(st)
  {
    hide Take, GiveUpAll, Append;
    var c := Last(st.calls);
    var arg := Drop(st.held, c.open + 1);
    if !Reducible(c.kind, arg) {
      GiveUpAllLoad(st);
      AppendLoad(GiveUpAll(st).held, h);
    } else {
      assert st.calls == Init(st.calls) + [c];
      CodeBytesSnoc(Init(st.calls), c);
      var st' := State(st.written, Front(st.held, c.start), Init(st.calls));
      FrontLoad(st.held, c.start, c.open + 1);
      match c.kind {
        case FromCharCode(values, _) => TakeLoad(st', Held(Str(Chars(values)), c.depth));
        case Decode =>
          HeldBytesOne(arg[0]);
          assert arg == [arg[0]];
          TakeLoad(st', Held(Str(PercentDecode(arg[0].tok.s)), c.depth));
        case Eval =>
          HeldBytesOne(arg[0]);
          assert arg == [arg[0]];
      }
    }
  }

  lemma FrontLoad(held: seq<Held>, a: nat, b: nat)
    requires a <= b
    ensures HeldBytes(Front(held, a)) + HeldBytes(Drop(held, b)) <= HeldBytes(held)
  {
    if a <= |held| {
      HeldBytesSplit(held, a);
      DropLoad(held[a..], b - a);
      assert Drop(held[a..], b - a) == Drop(held, b);
    }
  }

  /** No token adds more than it costs, and what an unrolled `eval` hands back is given up. */
  lemma PushLoad(st: State, h: Held, keep: nat, batch: nat)
    requires Nested(st.held, st.calls)
    ensures var p := Push(st, h, keep, batch);
            Load(p.st) + (if p.inner.Some? then |p.inner.value.text| else 0) <= Load(st) + Cost(h.tok)
  {
    hide Take, Open, Close, WriteFront, Load, Settled;
    if h.tok == Punct(LPAREN) {
      OpenLoad(st, h);
    } else if h.tok == Punct(RPAREN) && st.calls != [] {
      CloseLoad(st, h);
    } else {
      TakeLoad(st, h);
    }
    var st' := Step(st, h).st;
    WriteFrontLoad(st', Settled(st', keep));
  }
}
