/** Constant folding preserves meaning: the tokens of a constant string expression leave exactly
    the token a literal of its value would have left. */
module JsFold {
  import opened ByteSeq
  import opened JsText
  import opened JsLexer
  import opened JsReducer
  import opened JsInvariant

  /** Expressions the normaliser evaluates: literals, concatenation, decoding calls, and
      (`String.`)`fromCharCode` of integer literals. Names keep their own letter case. */
  datatype Expr =
    | Lit(s: Bytes)
    | Plus(left: Expr, right: Expr)
    | DecodeCall(name: Bytes, arg: Expr)
    | CharCodes(owner: Option<Bytes>, name: Bytes, nums: seq<Bytes>)

  /** The names are those of the built-ins, and every code is an integer literal. */
  predicate Proper(e: Expr) {
    match e
    case Lit(_) => true
    case Plus(l, r) => Proper(l) && Proper(r)
    case DecodeCall(name, arg) => NamedDecode(Held(Ident(name), 0)) && Proper(arg)
    case CharCodes(owner, name, nums) =>
      && (owner.Some? ==> NamedString(Held(Ident(owner.value), 0)))
      && NamedFcc(Held(Ident(name), 0))
      && 0 < |nums| <= MAX_OUTPUT
      && forall k :: 0 <= k < |nums| ==> ParseInt(nums[k]).Some?
  }

  /** How deep its calls nest. */
  function Depth(e: Expr): nat {
    match e
    case Lit(_) => 0
    case Plus(l, r) => Max(Depth(l), Depth(r))
    case DecodeCall(_, arg) => 1 + Depth(arg)
    case CharCodes(_, _, _) => 1
  }

  function Codes(nums: seq<Bytes>): (r: seq<nat>)
    ensures |r| == |nums|
  {
    seq(|nums|, k requires 0 <= k < |nums| => if ParseInt(nums[k]).Some? then ParseInt(nums[k]).value else 0)
  }

  /** What it evaluates to. */
  function Value(e: Expr): Bytes {
    match e
    case Lit(s) => s
    case Plus(l, r) => Value(l) + Value(r)
    case DecodeCall(_, arg) => PercentDecode(Value(arg))
    case CharCodes(_, _, nums) => Chars(Codes(nums))
  }

  function NumToks(nums: seq<Bytes>): seq<Tok> {
    if nums == [] then []
    else if |nums| == 1 then [Num(nums[0])]
    else NumToks(Init(nums)) + [Punct(COMMA), Num(Last(nums))]
  }

  function CalleeToks(owner: Option<Bytes>, name: Bytes): seq<Tok> {
    match owner
    case None => [Ident(name)]
    case Some(o) => [Ident(o), Punct(DOT), Ident(name)]
  }

  /** How it is written. */
  function ExprToks(e: Expr): seq<Tok> {
    match e
    case Lit(s) => [Str(s)]
    case Plus(l, r) => ExprToks(l) + [Punct(PLUS)] + ExprToks(r)
    case DecodeCall(name, arg) => [Ident(name), Punct(LPAREN)] + ExprToks(arg) + [Punct(RPAREN)]
    case CharCodes(owner, name, nums) => CalleeToks(owner, name) + [Punct(LPAREN)] + NumToks(nums) + [Punct(RPAREN)]
  }

  // ---------------------------------------------------------------- where a string may come

  /** The end of the held tokens can take a string: no call is open, or a string-argument call
      whose argument so far is nothing or a string and a plus. */
  ghost predicate Ready(st: State) {
    && Ok(st)
    && (st.held == [] || !IsDot(Last(st.held)))
    && (st.calls != [] ==>
          && !Last(st.calls).kind.FromCharCode?
          && PrefixLen(Drop(st.held, Last(st.calls).open + 1)) == |Drop(st.held, Last(st.calls).open + 1)|)
  }

  /** A token the open call's argument can take is held, and nothing is given up. */
  lemma TakeHeld(st: State, h: Held, k: nat)
    requires Ok(st) && (st.calls != [] ==> !Last(st.calls).kind.FromCharCode?)
    requires st.calls != [] ==> k == Last(st.calls).open && StringArgPossible(Append(Drop(st.held, k + 1), h))
    ensures Take(st, h) == st.(held := Append(st.held, h)) && Ok(Take(st, h))
  {
    hide Spaced, InnerArgs, ArgOk, StringArgPossible, Append;
    TakeOk(st, h);
    if st.calls != [] {
      LastBracket(st.held, st.calls);
      AppendAfter(st.held, h, k);
      assert Drop(st.held, k + 1) == st.held[k + 1..];
    }
  }

  lemma PrefixArgs(arg: seq<Held>, h: Held)
    requires PrefixLen(arg) == |arg|
    ensures h.tok.Str? ==> |Append(arg, h)| == 1 && Append(arg, h)[0].tok.Str?
    ensures !h.tok.Str? ==> Append(arg, h) == arg + [h]
    ensures !h.tok.Str? && CalleePart([h]) ==> StringArgPossible(arg + [h])
  {
    if !h.tok.Str? && CalleePart([h]) {
      var a := arg + [h];
      assert PrefixLen(a) == |arg| by { assert h.tok.Ident?; assert forall i :: 0 <= i < |arg| ==> a[i] == arg[i]; hide CalleePart; }
      assert a[|arg|..] == [h];
    }
  }

  /** A string, wherever one may come: it is held, or joins the string before it. */
  lemma TakeString(st: State, h: Held)
    requires Ready(st) && h.tok.Str?
    ensures Take(st, h) == st.(held := Append(st.held, h)) && Ok(Take(st, h))
  {
    hide Ok, Append, CalleePart;
    if st.calls != [] {
      var k := Last(st.calls).open;
      var arg := Drop(st.held, k + 1);
      PrefixArgs(arg, h);
      var a := Append(arg, h);
      assert a[PrefixLen(a)..] == [];
      NothingMore();
      TakeHeld(st, h, k);
    } else {
      TakeHeld(st, h, 0);
    }
  }

  lemma NothingMore()
    ensures CalleePart([])
  {}

  /** Three appends that amount to one. */
  lemma AppendThrice(held: seq<Held>, a: Bytes, b: Bytes, d: nat)
    ensures var one := Append(held, Held(Str(a), d));
            && Append(one, Held(Punct(PLUS), d)) == one + [Held(Punct(PLUS), d)]
            && Append(one + [Held(Punct(PLUS), d)], Held(Str(b), d)) == Append(held, Held(Str(a + b), d))
  {
    var n := |held|;
    var one := Append(held, Held(Str(a), d));
    var two := one + [Held(Punct(PLUS), d)];
    assert two[..|two| - 2] == one[..|one| - 1];
    if n >= 1 && held[n - 1].tok.Str? {
      assert held[n - 1].tok.s + a + b == held[n - 1].tok.s + (a + b);
    } else if n >= 2 && IsPlus(held[n - 1]) && held[n - 2].tok.Str? {
      assert held[n - 2].tok.s + a + b == held[n - 2].tok.s + (a + b);
    }
  }

  /** A string, a plus and a string do what the joined string does. */
  lemma TakeConcat(st: State, a: Bytes, b: Bytes, d: nat)
    requires Ready(st)
    ensures var st2 := Take(Take(st, Held(Str(a), d)), Held(Punct(PLUS), d));
            Ready(st2) && Take(st2, Held(Str(b), d)) == Take(st, Held(Str(a + b), d))
  {
    hide Ok, Append, Take;
    var ha, plus, hb := Held(Str(a), d), Held(Punct(PLUS), d), Held(Str(b), d);
    TakeString(st, ha);
    TakeString(st, Held(Str(a + b), d));
    AppendThrice(st.held, a, b, d);
    var st1 := Take(st, ha);
    if st.calls != [] {
      var k := Last(st.calls).open;
      ArgAfter(st, ha);
      var arg := Drop(st1.held, k + 1);
      PrefixWithPlus(arg, plus);
      TakeHeld(st1, plus, k);
      ArgAfter(st1, plus);
    } else {
      TakeHeld(st1, plus, 0);
    }
    TakeString(Take(st1, plus), hb);
  }

  /** What is held of the argument after a token is appended. */
  lemma ArgAfter(st: State, h: Held)
    requires Ok(st) && st.calls != []
    ensures var k := Last(st.calls).open;
            Drop(Append(st.held, h), k + 1) == Append(Drop(st.held, k + 1), h)
    ensures PrefixLen(Drop(st.held, Last(st.calls).open + 1)) == |Drop(st.held, Last(st.calls).open + 1)| && h.tok.Str? ==>
              var a := Drop(Append(st.held, h), Last(st.calls).open + 1); |a| == 1 && a[0].tok.Str?
  {
    hide Spaced, InnerArgs, ArgOk, Append;
    var k := Last(st.calls).open;
    LastBracket(st.held, st.calls);
    AppendAfter(st.held, h, k);
    assert Drop(st.held, k + 1) == st.held[k + 1..];
    if PrefixLen(Drop(st.held, k + 1)) == |Drop(st.held, k + 1)| { PrefixArgs(Drop(st.held, k + 1), h); }
  }

  lemma PrefixWithPlus(arg: seq<Held>, plus: Held)
    requires |arg| == 1 && arg[0].tok.Str? && IsPlus(plus)
    ensures Append(arg, plus) == arg + [plus] && PrefixLen(arg + [plus]) == 2 && StringArgPossible(arg + [plus])
  {
    assert (arg + [plus])[2..] == [];
  }

  // ---------------------------------------------------------------- calls

  /** The start of a callee after nothing or a string and a plus. */
  lemma PrefixThen(arg: seq<Held>, rest: seq<Held>)
    requires PrefixLen(arg) == |arg| && rest != [] && rest[0].tok.Ident? && CalleePart(rest)
    ensures StringArgPossible(arg + rest)
  {
    hide CalleePart;
    var a := arg + rest;
    assert forall i :: 0 <= i < |arg| ==> a[i] == arg[i];
    assert a[|arg|] == rest[0];
    assert a[|arg|..] == rest;
  }

  /** One more token of a callee. */
  lemma TakeCallee(st: State, pre: seq<Held>, h: Held)
    requires Ready(st) && Ok(st.(held := st.held + pre)) && !h.tok.Str? && h.tok != Punct(LPAREN) && h.tok != Punct(RPAREN)
    requires (pre + [h])[0].tok.Ident? && CalleePart(pre + [h])
    ensures Step(st.(held := st.held + pre), h).st == st.(held := st.held + (pre + [h]))
    ensures Ok(st.(held := st.held + (pre + [h])))
  {
    hide Ok, CalleePart, Take;
    var st' := st.(held := st.held + pre);
    assert st.held + pre + [h] == st.held + (pre + [h]);
    if st.calls != [] {
      var k := Last(st.calls).open;
      var arg := Drop(st.held, k + 1);
      BracketHeld(st);
      assert Drop(st'.held, k + 1) == arg + pre;
      assert Append(arg + pre, h) == arg + (pre + [h]);
      PrefixThen(arg, pre + [h]);
      TakeHeld(st', h, k);
    } else {
      TakeHeld(st', h, 0);
    }
  }

  lemma BracketHeld(st: State)
    requires Ok(st) && st.calls != []
    ensures Last(st.calls).start <= Last(st.calls).open < |st.held|
  {
    hide Spaced, InnerArgs, ArgOk;
  }

  /** A bracket after a callee opens a call that starts where the callee does. */
  lemma OpenCall(st: State, callee: seq<Held>, kind: Kind, h: Held)
    requires Ready(st) && Ok(st.(held := st.held + callee)) && |st.calls| < MAX_OPEN_CALLS && h.tok == Punct(LPAREN)
    requires callee != [] && CalleeBehind(st.held + callee).Some?
    requires CalleeBehind(st.held + callee).value.0 == kind && CalleeBehind(st.held + callee).value.1 == |st.held|
    ensures var n := |st.held|;
            var st' := State(st.written, st.held + callee + [h], st.calls + [Call(kind, n, n + |callee|, Last(callee).depth)]);
            Step(st.(held := st.held + callee), h).st == st' && Ok(st')
  {
    hide Ok, CalleeBehind;
    OpenOk(st.(held := st.held + callee), h);
  }

  lemma FccIsCallee(h: Held)
    requires NamedFcc(h)
    ensures Callee(h) == Some(FromCharCode([], true))
  {}

  lemma DecodeIsCallee(h: Held)
    requires NamedDecode(h)
    ensures Callee(h) == Some(Decode)
  {
    assert |Ascii("fromcharcode")| == 12;
    assert |Ascii("unescape")| == 8 && |Ascii("decodeuricomponent")| == 18 && |Ascii("decodeuri")| == 9;
  }

  /** The callee of a decoding call. */
  lemma DecodeFed(st: State, h: Held)
    requires Ready(st) && NamedDecode(h)
    ensures Step(st, h).st == st.(held := st.held + [h]) && Ok(st.(held := st.held + [h]))
    ensures CalleeBehind(st.held + [h]).Some? && CalleeBehind(st.held + [h]).value == (Decode, |st.held|)
  {
    hide Ok, NamedDecode, NamedFcc, NamedString, Step;
    DecodeIsCallee(h);
    NamesIdent(h);
    assert st.held + [] == st.held && [] + [h] == [h];
    assert st.(held := st.held + []) == st;
    TakeCallee(st, [], h);
  }

  lemma NamesIdent(h: Held)
    ensures NamedDecode(h) || NamedFcc(h) || NamedString(h) ==> h.tok.Ident?
  {}

  /** The callee of a `fromCharCode`, with or without its `String.` before it. */
  lemma FccFed(st: State, owner: Option<Bytes>, name: Bytes, d: nat)
    requires Ready(st) && NamedFcc(Held(Ident(name), d)) && (owner.Some? ==> NamedString(Held(Ident(owner.value), d)))
    ensures var callee := Holds(CalleeToks(owner, name), d);
            && Feed(st, CalleeToks(owner, name), d) == st.(held := st.held + callee)
            && Ok(st.(held := st.held + callee))
            && CalleeBehind(st.held + callee).Some?
            && CalleeBehind(st.held + callee).value == (FromCharCode([], true), |st.held|)
  {
    hide Ok, NamedDecode, NamedFcc, NamedString, Step;
    var f := Held(Ident(name), d);
    FccIsCallee(f);
    assert owner.Some? ==> Holds(CalleeToks(owner, name), d) == [Held(Ident(owner.value), d), Held(Punct(DOT), d), f];
    if owner.None? {
      NamesIdent(f);
      assert Holds(CalleeToks(owner, name), d) == [] + [f];
      assert st.(held := st.held + []) == st;
      TakeCallee(st, [], f);
      FeedOne(st, f.tok, d);
    } else {
      DottedFed(st, Held(Ident(owner.value), d), f, d);
    }
  }

  lemma DottedFed(st: State, s: Held, f: Held, d: nat)
    requires Ready(st) && NamedString(s) && NamedFcc(f) && s.depth == d && f.depth == d
    ensures var dot := Held(Punct(DOT), d);
            && Feed(st, [s.tok, dot.tok, f.tok], d) == st.(held := st.held + [s, dot, f])
            && Ok(st.(held := st.held + [s, dot, f]))
            && CalleeBehind(st.held + [s, dot, f]).Some?
            && CalleeBehind(st.held + [s, dot, f]).value == (FromCharCode([], true), |st.held|)
  {
    hide Ok, NamedDecode, NamedFcc, NamedString, Step;
    var dot := Held(Punct(DOT), d);
    FccIsCallee(f);
    NamesIdent(s);
    NamesIdent(f);
    assert [s, dot] + [f] == [s, dot, f] && [s] + [dot] == [s, dot] && [] + [s] == [s];
    assert st.(held := st.held + []) == st;
    TakeCallee(st, [], s);
    TakeCallee(st, [s], dot);
    TakeCallee(st, [s, dot], f);
    FeedThree(st, st.(held := st.held + [s]), st.(held := st.held + [s, dot]), s, dot, f, d);
    var held := st.held + [s, dot, f];
    assert held[|held| - 1] == f && held[|held| - 2] == dot && held[|held| - 3] == s;
  }

  lemma FeedThree(a: State, b: State, c: State, x: Held, y: Held, z: Held, d: nat)
    requires x.depth == y.depth == z.depth == d && Step(a, x).st == b && Step(b, y).st == c
    ensures Feed(a, [x.tok, y.tok, z.tok], d) == Step(c, z).st
  {
    hide Step;
    FeedOne(a, x.tok, d);
    FeedOne(b, y.tok, d);
    FeedOne(c, z.tok, d);
    assert [x.tok, y.tok, z.tok] == [x.tok] + ([y.tok] + [z.tok]);
    FeedAppend(a, [x.tok], [y.tok] + [z.tok], d);
    FeedAppend(b, [y.tok], [z.tok], d);
  }

  function Holds(ts: seq<Tok>, d: nat): seq<Held> {
    seq(|ts|, i requires 0 <= i < |ts| => Held(ts[i], d))
  }

  /** A state whose innermost call is a `fromCharCode` with this much of its list read. */
  function InList(st: State, c: Call, values: seq<nat>, wantNum: bool): State {
    st.(calls := st.calls + [c.(kind := FromCharCode(values, wantNum))])
  }

  lemma AbsorbNum(st: State, c: Call, values: seq<nat>, num: Bytes, d: nat)
    requires |st.held| == c.open + 1 && ParseInt(num).Some? && |values| < MAX_OUTPUT
    ensures Step(InList(st, c, values, true), Held(Num(num), d)).st == InList(st, c, values + [ParseInt(num).value], false)
  {
    hide ParseInt;
    var s := InList(st, c, values, true);
    assert Init(s.calls) == st.calls;
  }

  lemma AbsorbComma(st: State, c: Call, values: seq<nat>, d: nat)
    requires |st.held| == c.open + 1
    ensures Step(InList(st, c, values, false), Held(Punct(COMMA), d)).st == InList(st, c, values, true)
  {
    var s := InList(st, c, values, false);
    assert Init(s.calls) == st.calls;
  }

  /** The list of codes, kept as values. */
  lemma {:induction false} NumsFed(st: State, c: Call, nums: seq<Bytes>, d: nat)
    requires |st.held| == c.open + 1 && 0 < |nums| <= MAX_OUTPUT
    requires forall k :: 0 <= k < |nums| ==> ParseInt(nums[k]).Some?
    ensures Feed(InList(st, c, [], true), NumToks(nums), d) == InList(st, c, Codes(nums), false)
    decreases |nums|
  {
    hide Step, ParseInt, InList;
    var start := InList(st, c, [], true);
    if |nums| == 1 {
      FeedOne(start, Num(nums[0]), d);
      AbsorbNum(st, c, [], nums[0], d);
      assert [] + [ParseInt(nums[0]).value] == Codes(nums);
    } else {
      var front, last := Init(nums), Last(nums);
      NumsFed(st, c, front, d);
      FeedAppend(start, NumToks(front), [Punct(COMMA), Num(last)], d);
      var mid := InList(st, c, Codes(front), false);
      assert [Punct(COMMA), Num(last)] == [Punct(COMMA)] + [Num(last)];
      FeedAppend(mid, [Punct(COMMA)], [Num(last)], d);
      FeedOne(mid, Punct(COMMA), d);
      AbsorbComma(st, c, Codes(front), d);
      FeedOne(InList(st, c, Codes(front), true), Num(last), d);
      AbsorbNum(st, c, Codes(front), last, d);
      assert Codes(front) + [ParseInt(last).value] == Codes(nums);
    }
  }

  /** The closing bracket of a list of codes. */
  lemma CloseCodes(st: State, callee: seq<Held>, open: Held, values: seq<nat>, d: nat)
    requires values != []
    ensures var n := |st.held|;
            var s := InList(st.(held := st.held + callee + [open]), Call(Decode, n, n + |callee|, d), values, false);
            Step(s, Held(Punct(RPAREN), d)).st == Take(st, Held(Str(Chars(values)), d))
  {
    hide Take;
    var n := |st.held|;
    var held := st.held + callee + [open];
    var s := InList(st.(held := held), Call(Decode, n, n + |callee|, d), values, false);
    assert Init(s.calls) == st.calls && Front(held, n) == st.held && Drop(held, n + |callee| + 1) == [];
  }

  /** The closing bracket of a decoding call whose argument is one string. */
  lemma CloseDecode(st: State, f: Held, open: Held, v: Held, d: nat)
    requires v.tok.Str?
    ensures var n := |st.held|;
            var s := State(st.written, st.held + [f] + [open] + [v], st.calls + [Call(Decode, n, n + 1, d)]);
            Step(s, Held(Punct(RPAREN), d)).st == Take(st, Held(Str(PercentDecode(v.tok.s)), d))
  {
    hide Take;
    var n := |st.held|;
    var held := st.held + [f] + [open] + [v];
    var s := State(st.written, held, st.calls + [Call(Decode, n, n + 1, d)]);
    assert Init(s.calls) == st.calls && Front(held, n) == st.held && Drop(held, n + 2) == [v];
  }

  // ---------------------------------------------------------------- folding

  /** Wherever a string may come, an expression's tokens do what a literal of its value does. */
  lemma {:induction false} Folds(st: State, e: Expr, d: nat)
    requires Ready(st) && Proper(e) && |st.calls| + Depth(e) <= MAX_OPEN_CALLS
    ensures Feed(st, ExprToks(e), d) == Take(st, Held(Str(Value(e)), d))
    decreases e
  {
    hide Ready, Take, Step, NamedDecode, NamedFcc, NamedString;
    match e {
      case Lit(s) =>
        FeedOne(st, Str(s), d);
        StepIsTake(st, Held(Str(s), d));
      case Plus(l, r) => FoldsPlus(st, l, r, d);
      case DecodeCall(name, arg) => FoldsDecode(st, name, arg, d);
      case CharCodes(owner, name, nums) => FoldsCodes(st, owner, name, nums, d);
    }
  }

  lemma StepIsTake(st: State, h: Held)
    requires h.tok != Punct(LPAREN) && h.tok != Punct(RPAREN)
    ensures Step(st, h).st == Take(st, h)
  {}

  lemma FoldsPlus(st: State, l: Expr, r: Expr, d: nat)
    requires Ready(st) && Proper(Plus(l, r)) && |st.calls| + Depth(Plus(l, r)) <= MAX_OPEN_CALLS
    ensures Feed(st, ExprToks(Plus(l, r)), d) == Take(st, Held(Str(Value(Plus(l, r))), d))
    decreases Plus(l, r), 0
  {
    hide Ready, Take, Step;
    var plus := Punct(PLUS);
    Folds(st, l, d);
    var st1 := Take(st, Held(Str(Value(l)), d));
    var st2 := Take(st1, Held(plus, d));
    FeedAppend(st, ExprToks(l) + [plus], ExprToks(r), d);
    FeedAppend(st, ExprToks(l), [plus], d);
    FeedOne(st1, plus, d);
    StepIsTake(st1, Held(plus, d));
    TakeConcat(st, Value(l), Value(r), d);
    CallsKept(st, Value(l), d);
    Folds(st2, r, d);
  }

  /** A string and a plus leave the open calls alone. */
  lemma CallsKept(st: State, a: Bytes, d: nat)
    requires Ready(st)
    ensures Take(Take(st, Held(Str(a), d)), Held(Punct(PLUS), d)).calls == st.calls || Take(Take(st, Held(Str(a), d)), Held(Punct(PLUS), d)).calls == []
  {
    hide Ready, ArgPossible, Append;
    TakeString(st, Held(Str(a), d));
    var st1 := Take(st, Held(Str(a), d));
    PlusNotAbsorbed(st1, d);
  }

  lemma PlusNotAbsorbed(st: State, d: nat)
    ensures Absorbed(st, Held(Punct(PLUS), d)) == None
  {}

  lemma FoldsDecode(st: State, name: Bytes, arg: Expr, d: nat)
    requires var e := DecodeCall(name, arg); Ready(st) && Proper(e) && |st.calls| + Depth(e) <= MAX_OPEN_CALLS
    ensures var e := DecodeCall(name, arg); Feed(st, ExprToks(e), d) == Take(st, Held(Str(Value(e)), d))
    decreases DecodeCall(name, arg), 0
  {
    hide Take, Step, Ok, NamedDecode, CalleeBehind;
    var f, open, close := Held(Ident(name), d), Held(Punct(LPAREN), d), Held(Punct(RPAREN), d);
    SameNameAnyDepth(name, d);
    DecodeFed(st, f);
    OpenCall(st, [f], Decode, open);
    var n := |st.held|;
    var st2 := State(st.written, st.held + [f] + [open], st.calls + [Call(Decode, n, n + 1, d)]);
    assert Drop(st2.held, n + 2) == [];
    Folds(st2, arg, d);
    var v := Held(Str(Value(arg)), d);
    TakeString(st2, v);
    assert Append(st2.held, v) == st2.held + [v];
    CloseDecode(st, f, open, v, d);
    FeedOne(st, f.tok, d);
    FeedOne(st.(held := st.held + [f]), open.tok, d);
    FeedOne(Take(st2, v), close.tok, d);
    assert [f.tok, open.tok] == [f.tok] + [open.tok];
    FeedAppend(st, [f.tok], [open.tok], d);
    FeedAppend(st, [f.tok, open.tok], ExprToks(arg), d);
    FeedAppend(st, [f.tok, open.tok] + ExprToks(arg), [close.tok], d);
  }

  lemma SameNameAnyDepth(name: Bytes, d: nat)
    ensures NamedDecode(Held(Ident(name), 0)) <==> NamedDecode(Held(Ident(name), d))
    ensures NamedFcc(Held(Ident(name), 0)) <==> NamedFcc(Held(Ident(name), d))
    ensures NamedString(Held(Ident(name), 0)) <==> NamedString(Held(Ident(name), d))
  {}

  lemma FoldsCodes(st: State, owner: Option<Bytes>, name: Bytes, nums: seq<Bytes>, d: nat)
    requires var e := CharCodes(owner, name, nums); Ready(st) && Proper(e) && |st.calls| + 1 <= MAX_OPEN_CALLS
    ensures var e := CharCodes(owner, name, nums); Feed(st, ExprToks(e), d) == Take(st, Held(Str(Value(e)), d))
    decreases CharCodes(owner, name, nums), 0
  {
    hide Take, Step, Ok, NamedString, NamedFcc, CalleeBehind, ParseInt, Ready;
    var open, close := Punct(LPAREN), Punct(RPAREN);
    SameNameAnyDepth(name, d);
    if owner.Some? { SameNameAnyDepth(owner.value, d); }
    FccFed(st, owner, name, d);
    var callee := Holds(CalleeToks(owner, name), d);
    OpenCall(st, callee, FromCharCode([], true), Held(open, d));
    var n := |st.held|;
    var base := st.(held := st.held + callee + [Held(open, d)]);
    var c := Call(Decode, n, n + |callee|, d);
    NumsFed(base, c, nums, d);
    CloseCodes(st, callee, Held(open, d), Codes(nums), d);
    FeedOne(st.(held := st.held + callee), open, d);
    FeedOne(InList(base, c, Codes(nums), false), close, d);
    FeedAppend(st, CalleeToks(owner, name), [open], d);
    FeedAppend(st, CalleeToks(owner, name) + [open], NumToks(nums), d);
    FeedAppend(st, CalleeToks(owner, name) + [open] + NumToks(nums), [close], d);
  }

  /** An expression on its own leaves one string token: its value. */
  lemma FoldsWhole(e: Expr, d: nat)
    requires Proper(e) && Depth(e) <= MAX_OPEN_CALLS
    ensures Feed(EMPTY, ExprToks(e), d) == State([], [Held(Str(Value(e)), d)], [])
  {
    hide Proper, Depth, ExprToks, Value;
    EmptyReady();
    Folds(EMPTY, e, d);
    TakeString(EMPTY, Held(Str(Value(e)), d));
  }

  lemma EmptyReady()
    ensures Ready(EMPTY)
  {}
}
