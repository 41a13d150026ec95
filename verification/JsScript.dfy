/** From bytes to bytes: the script that spells a constant expression is rendered as its value. */
module JsScript {
  import opened ByteSeq
  import opened JsText
  import opened JsLexer
  import opened JsReducer
  import opened JsFold
  import opened JsEmit
  import opened JsRun
  import opened JsBatch

  // ---------------------------------------------------------------- spelling an expression

  function Spelled(s: Bytes): (r: Bytes)
    ensures |r| == 4 * |s|
  {
    if s == [] then []
    else [BACKSLASH, LETTER_X, HexDigit(s[0] / 16), HexDigit(s[0] % 16)] + Spelled(s[1..])
  }

  function NumList(nums: seq<Bytes>): Bytes {
    if nums == [] then []
    else if |nums| == 1 then nums[0]
    else NumList(Init(nums)) + [COMMA] + Last(nums)
  }

  function CalleeText(owner: Option<Bytes>, name: Bytes): Bytes {
    match owner
    case None => name
    case Some(o) => o + [DOT] + name
  }

  /** The expression as a script. */
  function Spell(e: Expr): Bytes {
    match e
    case Lit(s) => [QUOTE] + Spelled(s) + [QUOTE]
    case Plus(l, r) => Spell(l) + [PLUS] + Spell(r)
    case DecodeCall(name, arg) => name + [LPAREN] + Spell(arg) + [RPAREN]
    case CharCodes(owner, name, nums) => CalleeText(owner, name) + [LPAREN] + NumList(nums) + [RPAREN]
  }

  /** A number the lexer reads as one token. */
  predicate NumWord(num: Bytes) {
    num != [] && IsDigit(num[0]) && forall i :: 0 <= i < |num| ==> IsAlnum(num[i]) || num[i] == UNDERSCORE
  }

  predicate Spellable(e: Expr) {
    match e
    case Lit(_) => true
    case Plus(l, r) => Spellable(l) && Spellable(r)
    case DecodeCall(_, arg) => Spellable(arg)
    case CharCodes(_, _, nums) => forall k :: 0 <= k < |nums| ==> NumWord(nums[k])
  }

  // ---------------------------------------------------------------- reading it back

  predicate At(text: Bytes, i: nat, p: Bytes) { i + |p| <= |text| && text[i..i + |p|] == p }

  lemma AtSplit(text: Bytes, i: nat, a: Bytes, b: Bytes)
    requires At(text, i, a + b)
    ensures At(text, i, a) && At(text, i + |a|, b)
  {
    assert text[i..i + |a + b|][..|a|] == text[i..i + |a|];
    assert text[i..i + |a + b|][|a|..] == text[i + |a|..i + |a| + |b|];
    assert (a + b)[..|a|] == a && (a + b)[|a|..] == b;
  }

  lemma AtByte(text: Bytes, i: nat, b: byte)
    requires At(text, i, [b])
    ensures i < |text| && text[i] == b
  {
    assert text[i..i + 1][0] == b;
  }

  lemma {:induction false} AtSpelled(text: Bytes, i: nat, s: Bytes)
    requires At(text, i, Spelled(s))
    ensures SpellsAt(text, i, s)
    decreases |s|
  {
    if s != [] {
      var h := [BACKSLASH, LETTER_X, HexDigit(s[0] / 16), HexDigit(s[0] % 16)];
      AtSplit(text, i, h, Spelled(s[1..]));
      assert text[i..i + 4][0] == h[0] && text[i..i + 4][1] == h[1] && text[i..i + 4][2] == h[2] && text[i..i + 4][3] == h[3];
      AtSpelled(text, i + 4, s[1..]);
    }
  }

  lemma QuoteStartsString(text: Bytes, i: nat, vp: bool)
    requires i < |text| && text[i] == QUOTE
    ensures NextToken(text, i, vp) == Some(Lexed(Str(StringBody(text, i + 1, QUOTE).0), StringBody(text, i + 1, QUOTE).1, false))
  {
    hide StringBody;
  }

  lemma LiteralAt(text: Bytes, i: nat, s: Bytes)
    requires At(text, i, [QUOTE] + Spelled(s) + [QUOTE])
    ensures i + 4 * |s| + 2 <= |text| && text[i] == QUOTE && SpellsAt(text, i + 1, s) && text[i + 1 + 4 * |s|] == QUOTE
  {
    hide Spelled, SpellsAt, At;
    AtSplit(text, i, [QUOTE] + Spelled(s), [QUOTE]);
    AtSplit(text, i, [QUOTE], Spelled(s));
    AtByte(text, i, QUOTE);
    AtByte(text, i + 1 + 4 * |s|, QUOTE);
    AtSpelled(text, i + 1, s);
  }

  lemma LexString(text: Bytes, i: nat, vp: bool, s: Bytes)
    requires At(text, i, [QUOTE] + Spelled(s) + [QUOTE])
    ensures i < |text| && NextToken(text, i, vp) == Some(Lexed(Str(s), i + 4 * |s| + 2, false))
  {
    hide NextToken, StringBody, SpellsAt, Spelled, At;
    LiteralAt(text, i, s);
    QuoteStartsString(text, i, vp);
    StringRoundTrip(text, i + 1, s, QUOTE);
  }

  lemma LexPunct(text: Bytes, i: nat, vp: bool, b: byte)
    requires At(text, i, [b]) && (b == LPAREN || b == RPAREN || b == PLUS || b == COMMA || b == DOT)
    requires b == DOT ==> i + 1 < |text| && !IsDigit(text[i + 1])
    ensures NextToken(text, i, vp) == Some(Lexed(Punct(b), i + 1, b != RPAREN))
  {
    AtByte(text, i, b);
  }

  lemma {:induction false} IdentRuns(text: Bytes, i: nat, end: nat)
    requires i <= end < |text| && !IsIdentByte(text[end])
    requires forall k :: i <= k < end ==> IsIdentByte(text[k])
    ensures IdentEnd(text, i) == end
    decreases end - i
  {
    if i < end { IdentRuns(text, i + 1, end); }
  }

  lemma LexIdent(text: Bytes, i: nat, vp: bool, name: Bytes)
    requires At(text, i, name) && name != [] && (forall k :: 0 <= k < |name| ==> IsAlpha(name[k]))
    requires i + |name| < |text| && !IsIdentByte(text[i + |name|])
    ensures NextToken(text, i, vp) == Some(Lexed(Ident(name), i + |name|, IsKeyword(name)))
  {
    hide IsKeyword;
    forall k | i <= k < i + |name| ensures IsAlpha(text[k]) { assert text[k] == text[i..i + |name|][k - i]; }
    IdentRuns(text, i + 1, i + |name|);
  }

  lemma {:induction false} NumRuns(text: Bytes, i: nat, end: nat)
    requires 1 <= i <= end < |text| && (text[end] == COMMA || text[end] == RPAREN)
    requires forall k :: i <= k < end ==> IsAlnum(text[k]) || text[k] == UNDERSCORE
    ensures NumEnd(text, i) == end
    decreases end - i
  {
    if i < end { NumRuns(text, i + 1, end); }
  }

  lemma LexNum(text: Bytes, i: nat, vp: bool, num: Bytes)
    requires At(text, i, num) && NumWord(num)
    requires i + |num| < |text| && (text[i + |num|] == COMMA || text[i + |num|] == RPAREN)
    ensures NextToken(text, i, vp) == Some(Lexed(Num(num), i + |num|, false))
  {
    hide NumEnd, StringBody, RegexBodyEnd, FlagsEnd, FracEnd, IdentEnd, IsKeyword;
    forall k | i <= k < i + |num| ensures text[k] == num[k - i] { assert text[k] == text[i..i + |num|][k - i]; }
    NumRuns(text, i + 1, i + |num|);
  }

  lemma LexCons(text: Bytes, i: nat, vp: bool, t: Lexed)
    requires i <= |text| && NextToken(text, i, vp) == Some(t)
    ensures LexAll(text, i, vp) == [t.tok] + LexAll(text, t.next, t.valuePos)
  {}

  /** A list of codes, with a closing bracket after it. */
  lemma {:induction false} LexNums(text: Bytes, i: nat, vp: bool, nums: seq<Bytes>, end: nat)
    requires nums != [] && (forall k :: 0 <= k < |nums| ==> NumWord(nums[k]))
    requires At(text, i, NumList(nums)) && end == i + |NumList(nums)|
    requires end < |text| && (text[end] == COMMA || text[end] == RPAREN)
    ensures LexAll(text, i, vp) == NumToks(nums) + LexAll(text, end, false)
    decreases |nums|
  {
    hide LexAll, NextToken, NumWord;
    if |nums| == 1 {
      LexNum(text, i, vp, nums[0]);
      LexCons(text, i, vp, Lexed(Num(nums[0]), end, false));
    } else {
      var front, last := Init(nums), Last(nums);
      var mid := i + |NumList(front)|;
      AtSplit(text, i, NumList(front) + [COMMA], last);
      AtSplit(text, i, NumList(front), [COMMA]);
      AtByte(text, mid, COMMA);
      LexNums(text, i, vp, front, mid);
      LexPunct(text, mid, false, COMMA);
      LexCons(text, mid, false, Lexed(Punct(COMMA), mid + 1, true));
      LexNum(text, mid + 1, true, last);
      LexCons(text, mid + 1, true, Lexed(Num(last), end, false));
      assert [Punct(COMMA)] + ([Num(last)] + LexAll(text, end, false)) == [Punct(COMMA), Num(last)] + LexAll(text, end, false);
      Assoc(NumToks(front), [Punct(COMMA), Num(last)], LexAll(text, end, false));
    }
  }

  lemma Letters(name: Bytes, d: nat)
    ensures NamedDecode(Held(Ident(name), d)) || NamedFcc(Held(Ident(name), d)) || NamedString(Held(Ident(name), d)) ==>
              name != [] && forall k :: 0 <= k < |name| ==> IsAlpha(name[k])
  {
    LettersOf(name, "unescape");
    LettersOf(name, "decodeuricomponent");
    LettersOf(name, "decodeuri");
    LettersOf(name, "fromcharcode");
    LettersOf(name, "string");
  }

  lemma LettersOf(name: Bytes, word: string)
    requires word == "unescape" || word == "decodeuricomponent" || word == "decodeuri" || word == "fromcharcode" || word == "string"
    ensures SameName(name, Ascii(word)) ==> name != [] && forall k :: 0 <= k < |name| ==> IsAlpha(name[k])
  {
    if SameName(name, Ascii(word)) {
      forall k | 0 <= k < |name| ensures IsAlpha(name[k]) {
        assert Lower(name[k]) == LowerAll(name)[k] == Ascii(word)[k];
        assert IsLower(Ascii(word)[k]);
      }
    }
  }

  /** A name and the bracket or dot after it. */
  lemma LexName(text: Bytes, i: nat, vp: bool, name: Bytes, b: byte)
    requires At(text, i, name + [b]) && (b == LPAREN || b == DOT)
    requires name != [] && forall k :: 0 <= k < |name| ==> IsAlpha(name[k])
    requires b == DOT ==> i + |name| + 1 < |text| && !IsDigit(text[i + |name| + 1])
    ensures LexAll(text, i, vp) == [Ident(name), Punct(b)] + LexAll(text, i + |name| + 1, true)
  {
    hide LexAll, NextToken, IsKeyword;
    var j := i + |name|;
    AtSplit(text, i, name, [b]);
    AtByte(text, j, b);
    LexIdent(text, i, vp, name);
    LexCons(text, i, vp, Lexed(Ident(name), j, IsKeyword(name)));
    LexPunct(text, j, IsKeyword(name), b);
    LexCons(text, j, IsKeyword(name), Lexed(Punct(b), j + 1, true));
    assert [Ident(name)] + ([Punct(b)] + LexAll(text, j + 1, true)) == [Ident(name), Punct(b)] + LexAll(text, j + 1, true);
  }

  lemma AtFirst(text: Bytes, i: nat, a: Bytes, b: Bytes)
    requires At(text, i, a + b) && a != []
    ensures i + |a| + |b| <= |text| && text[i] == a[0]
  {
    assert text[i..i + |a + b|][0] == a[0];
  }

  lemma LexCallee(text: Bytes, i: nat, vp: bool, owner: Option<Bytes>, name: Bytes)
    requires At(text, i, CalleeText(owner, name) + [LPAREN])
    requires NamedFcc(Held(Ident(name), 0)) && (owner.Some? ==> NamedString(Held(Ident(owner.value), 0)))
    ensures LexAll(text, i, vp) == CalleeToks(owner, name) + [Punct(LPAREN)] + LexAll(text, i + |CalleeText(owner, name)| + 1, true)
  {
    hide LexAll, NamedFcc, NamedString, At;
    Letters(name, 0);
    match owner {
      case None =>
        LexName(text, i, vp, name, LPAREN);
      case Some(o) =>
        Letters(o, 0);
        assert o + [DOT] + name + [LPAREN] == (o + [DOT]) + (name + [LPAREN]);
        AtSplit(text, i, o + [DOT], name + [LPAREN]);
        var j := i + |o| + 1;
        AtFirst(text, j, name, [LPAREN]);
        LexName(text, i, vp, o, DOT);
        LexName(text, j, true, name, LPAREN);
        var rest := LexAll(text, j + |name| + 1, true);
        Assoc([Ident(o), Punct(DOT)], [Ident(name), Punct(LPAREN)], rest);
        assert [Ident(o), Punct(DOT)] + [Ident(name), Punct(LPAREN)] == CalleeToks(owner, name) + [Punct(LPAREN)];
    }
  }

  /** Lexing a spelled expression gives its tokens, whatever surrounds it. */
  lemma {:induction false} LexSpelled(text: Bytes, i: nat, vp: bool, e: Expr)
    requires At(text, i, Spell(e)) && Proper(e) && Spellable(e)
    ensures LexAll(text, i, vp) == ExprToks(e) + LexAll(text, i + |Spell(e)|, false)
    decreases e
  {
    hide LexAll, NextToken, NamedDecode, NamedFcc, NamedString, At, ParseInt, Spelled;
    match e {
      case Lit(s) =>
        AtInside(text, i, Spell(e));
        LexString(text, i, vp, s);
        LexCons(text, i, vp, Lexed(Str(s), i + 4 * |s| + 2, false));
      case Plus(l, r) => LexPlus(text, i, vp, l, r);
      case DecodeCall(name, arg) => LexDecode(text, i, vp, name, arg);
      case CharCodes(owner, name, nums) => LexCodes(text, i, vp, owner, name, nums);
    }
  }

  lemma PlusIs(l: Expr, r: Expr)
    ensures var e := Plus(l, r);
            && Spell(e) == Spell(l) + [PLUS] + Spell(r) && ExprToks(e) == ExprToks(l) + [Punct(PLUS)] + ExprToks(r)
            && (Proper(e) <==> Proper(l) && Proper(r)) && (Spellable(e) <==> Spellable(l) && Spellable(r))
  {}

  lemma DecodeIs(name: Bytes, arg: Expr)
    ensures var e := DecodeCall(name, arg);
            && Spell(e) == name + [LPAREN] + Spell(arg) + [RPAREN]
            && ExprToks(e) == [Ident(name), Punct(LPAREN)] + ExprToks(arg) + [Punct(RPAREN)]
            && (Proper(e) <==> NamedDecode(Held(Ident(name), 0)) && Proper(arg)) && (Spellable(e) <==> Spellable(arg))
  {
    hide NamedDecode;
  }

  lemma LexPlus(text: Bytes, i: nat, vp: bool, l: Expr, r: Expr)
    requires var e := Plus(l, r); At(text, i, Spell(e)) && Proper(e) && Spellable(e)
    ensures var e := Plus(l, r); LexAll(text, i, vp) == ExprToks(e) + LexAll(text, i + |Spell(e)|, false)
    decreases Plus(l, r), 0
  {
    hide LexAll, NextToken, At, Spell, ExprToks, Proper, Spellable;
    PlusIs(l, r);
    AtInside(text, i, Spell(Plus(l, r)));
    AtSplit(text, i, Spell(l) + [PLUS], Spell(r));
    AtSplit(text, i, Spell(l), [PLUS]);
    var j := i + |Spell(l)|;
    LexSpelled(text, i, vp, l);
    LexPunct(text, j, false, PLUS);
    LexCons(text, j, false, Lexed(Punct(PLUS), j + 1, true));
    LexSpelled(text, j + 1, true, r);
    Assoc4(ExprToks(l), [Punct(PLUS)], ExprToks(r), LexAll(text, i + |Spell(Plus(l, r))|, false));
  }

  lemma LexDecode(text: Bytes, i: nat, vp: bool, name: Bytes, arg: Expr)
    requires var e := DecodeCall(name, arg); At(text, i, Spell(e)) && Proper(e) && Spellable(e)
    ensures var e := DecodeCall(name, arg); LexAll(text, i, vp) == ExprToks(e) + LexAll(text, i + |Spell(e)|, false)
    decreases DecodeCall(name, arg), 0
  {
    hide LexAll, NextToken, At, NamedDecode, Spell, ExprToks, Proper, Spellable;
    DecodeIs(name, arg);
    var end := i + |Spell(DecodeCall(name, arg))|;
    AtInside(text, i, Spell(DecodeCall(name, arg)));
    AtSplit(text, i, name + [LPAREN] + Spell(arg), [RPAREN]);
    AtSplit(text, i, name + [LPAREN], Spell(arg));
    Letters(name, 0);
    LexName(text, i, vp, name, LPAREN);
    LexSpelled(text, i + |name| + 1, true, arg);
    LexClose(text, end - 1);
    Assoc4([Ident(name), Punct(LPAREN)], ExprToks(arg), [Punct(RPAREN)], LexAll(text, end, false));
  }

  lemma LexCodes(text: Bytes, i: nat, vp: bool, owner: Option<Bytes>, name: Bytes, nums: seq<Bytes>)
    requires var e := CharCodes(owner, name, nums); At(text, i, Spell(e)) && Proper(e) && Spellable(e)
    ensures var e := CharCodes(owner, name, nums); LexAll(text, i, vp) == ExprToks(e) + LexAll(text, i + |Spell(e)|, false)
  {
    hide LexAll, At, NamedFcc, NamedString, ParseInt, CalleeText, CalleeToks, NumToks, NumList, NumWord;
    var callee := CalleeText(owner, name);
    var end := i + |callee| + 1 + |NumList(nums)| + 1;
    AtInside(text, i, Spell(CharCodes(owner, name, nums)));
    AtSplit(text, i, callee + [LPAREN] + NumList(nums), [RPAREN]);
    AtSplit(text, i, callee + [LPAREN], NumList(nums));
    LexCallee(text, i, vp, owner, name);
    LexClose(text, end - 1);
    LexNums(text, i + |callee| + 1, true, nums, end - 1);
    Assoc4(CalleeToks(owner, name) + [Punct(LPAREN)], NumToks(nums), [Punct(RPAREN)], LexAll(text, end, false));
  }

  lemma AtInside(text: Bytes, i: nat, p: Bytes)
    requires At(text, i, p)
    ensures i + |p| <= |text|
  {}

  lemma LexClose(text: Bytes, j: nat)
    requires At(text, j, [RPAREN])
    ensures j + 1 <= |text| && text[j] == RPAREN && LexAll(text, j, false) == [Punct(RPAREN)] + LexAll(text, j + 1, false)
  {
    hide LexAll, NextToken;
    AtByte(text, j, RPAREN);
    LexPunct(text, j, false, RPAREN);
    LexCons(text, j, false, Lexed(Punct(RPAREN), j + 1, false));
  }

  // ---------------------------------------------------------------- nothing to unroll

  predicate NotEval(h: Held) { !NamedEval(h) }

  /** No `eval` is held or open. */
  ghost predicate EvalFree(st: State) {
    && (forall i :: 0 <= i < |st.held| ==> NotEval(st.held[i]))
    && (forall i :: 0 <= i < |st.calls| ==> !st.calls[i].kind.Eval?)
  }

  lemma StringNotEval(s: Bytes, d: nat)
    ensures NotEval(Held(Str(s), d))
  {}

  lemma AppendEvalFree(held: seq<Held>, h: Held)
    requires NotEval(h) && forall i :: 0 <= i < |held| ==> NotEval(held[i])
    ensures forall i :: 0 <= i < |Append(held, h)| ==> NotEval(Append(held, h)[i])
  {
    hide NotEval;
    var a := Append(held, h);
    forall i | 0 <= i < |a| ensures NotEval(a[i]) {
      if a[i].tok.Str? { StringNotEval(a[i].tok.s, a[i].depth); }
    }
  }

  lemma GiveUpEvalFree(st: State)
    requires EvalFree(st)
    ensures EvalFree(GiveUpAll(st)) && EvalFree(GiveUpOutermost(st))
  {
    hide NotEval, WeaveFront, CutAt, CodeToks, Toks;
  }

  lemma TakeEvalFree(st: State, h: Held)
    requires EvalFree(st) && NotEval(h)
    ensures EvalFree(Take(st, h))
  {
    hide NotEval, ArgPossible, Append, GiveUpAll, ParseInt;
    AppendEvalFree(st.held, h);
    GiveUpEvalFree(st.(held := Append(st.held, h)));
  }

  lemma CalleeNotEval(held: seq<Held>)
    requires (forall i :: 0 <= i < |held| ==> NotEval(held[i])) && CalleeBehind(held).Some?
    ensures !CalleeBehind(held).value.0.Eval?
  {
    hide IsNamed;
    assert NotEval(held[|held| - 1]);
  }

  /** A token that is no `eval` keeps it so, and unrolls nothing. */
  lemma StepEvalFree(st: State, h: Held)
    requires EvalFree(st) && NotEval(h)
    ensures Step(st, h).inner == None && EvalFree(Step(st, h).st)
  {
    hide NotEval, Take, GiveUpAll, GiveUpOutermost, CalleeBehind, Append;
    TakeEvalFree(st, h);
    GiveUpEvalFree(st);
    if CalleeBehind(st.held).Some? { CalleeNotEval(st.held); }
    if st.calls != [] {
      AppendEvalFree(GiveUpAll(st).held, h);
      CloseEvalFree(st, h);
    }
  }

  lemma PushEvalFree(st: State, h: Held, p: Policy)
    requires EvalFree(st) && NotEval(h)
    ensures var q := Push(st, h, p.keep, p.batch); EvalFree(q.st) && q.inner == None
  {
    hide Step, NotEval;
    StepEvalFree(st, h);
  }

  lemma CloseEvalFree(st: State, h: Held)
    requires EvalFree(st) && st.calls != [] && EvalFree(GiveUpAll(st)) && EvalFree(GiveUpAll(st).(held := Append(GiveUpAll(st).held, h)))
    ensures Close(st, h).inner == None && EvalFree(Close(st, h).st)
  {
    hide NotEval, Take, GiveUpAll, Append;
    var c := Last(st.calls);
    var arg := Drop(st.held, c.open + 1);
    if Reducible(c.kind, arg) {
      var p := State(st.written, Front(st.held, c.start), Init(st.calls));
      var v := if c.kind.FromCharCode? then Chars(c.kind.values) else PercentDecode(arg[0].tok.s);
      StringNotEval(v, c.depth);
      TakeEvalFree(p, Held(Str(v), c.depth));
    }
  }

  lemma {:induction false} FeedNoEval(st: State, ts: seq<Tok>, d: nat)
    requires EvalFree(st) && forall i :: 0 <= i < |ts| ==> NotEval(Held(ts[i], d))
    ensures NoEval(st, ts, d)
    decreases |ts|
  {
    hide NotEval, Step, EvalFree;
    if ts != [] {
      StepEvalFree(st, Held(ts[0], d));
      FeedNoEval(Step(st, Held(ts[0], d)).st, ts[1..], d);
    }
  }

  predicate NoEvals(ts: seq<Tok>) { forall i :: 0 <= i < |ts| ==> NotEval(Held(ts[i], 0)) }

  lemma {:induction false} NumsNoEval(nums: seq<Bytes>)
    ensures NoEvals(NumToks(nums))
    decreases |nums|
  {
    if |nums| > 1 { NumsNoEval(Init(nums)); }
  }

  lemma NamesNoEval(name: Bytes)
    requires NamedDecode(Held(Ident(name), 0)) || NamedFcc(Held(Ident(name), 0)) || NamedString(Held(Ident(name), 0))
    ensures NotEval(Held(Ident(name), 0))
  {
    assert |Ascii("eval")| == 4 && |Ascii("fromcharcode")| == 12 && |Ascii("string")| == 6;
    assert |Ascii("unescape")| == 8 && |Ascii("decodeuricomponent")| == 18 && |Ascii("decodeuri")| == 9;
  }

  lemma PunctNoEval(p: byte)
    ensures NotEval(Held(Punct(p), 0))
  {}

  lemma {:induction false} ExprNoEval(e: Expr)
    requires Proper(e)
    ensures NoEvals(ExprToks(e))
    decreases e
  {
    hide NotEval, NamedDecode, NamedFcc, NamedString, ParseInt;
    PunctNoEval(LPAREN);
    PunctNoEval(RPAREN);
    PunctNoEval(PLUS);
    PunctNoEval(DOT);
    match e {
      case Lit(s) => StringNotEval(s, 0);
      case Plus(l, r) =>
        ExprNoEval(l);
        ExprNoEval(r);
      case DecodeCall(name, arg) =>
        NamesNoEval(name);
        ExprNoEval(arg);
      case CharCodes(owner, name, nums) =>
        NamesNoEval(name);
        if owner.Some? { NamesNoEval(owner.value); }
        NumsNoEval(nums);
    }
  }

  // ---------------------------------------------------------------- end to end

  /** Whatever the batches, a script that lexes to a constant expression, however it is spaced,
      commented and quoted, is rendered as its value in quotes. */
  lemma ExpressionRendered(text: Bytes, e: Expr, p: Policy)
    requires LexAll(text, 0, true) == ExprToks(e) && Proper(e) && Depth(e) <= MAX_OPEN_CALLS && p.keep >= 3
    ensures Normalize(text, p) == (Front([QUOTE] + Value(e) + [QUOTE], MAX_OUTPUT), |Value(e)| + 2 > MAX_OUTPUT)
  {
    hide Proper, Depth, Normalize, LexAll, NoEval, Feed, ExprToks, Value, Finished, EmitAll, NoEvals;
    ExprNoEval(e);
    NoEvalFed(ExprToks(e));
    NormalizeIsFeed(text, p);
    FoldsWhole(e, 0);
    OneStringRendered(Value(e));
  }

  /** Every such expression has such a script. */
  lemma SpelledRendered(e: Expr, p: Policy)
    requires Proper(e) && Spellable(e) && Depth(e) <= MAX_OPEN_CALLS && p.keep >= 3
    ensures LexAll(Spell(e), 0, true) == ExprToks(e)
    ensures Normalize(Spell(e), p) == (Front([QUOTE] + Value(e) + [QUOTE], MAX_OUTPUT), |Value(e)| + 2 > MAX_OUTPUT)
  {
    hide Proper, Spellable, Depth, Normalize, LexAll, ExprToks, Value, Spell;
    SpellAt(e);
    LexSpelled(Spell(e), 0, true, e);
    LexEnd(Spell(e));
    assert ExprToks(e) + [] == ExprToks(e);
    ExpressionRendered(Spell(e), e, p);
  }

  lemma NoEvalFed(ts: seq<Tok>)
    requires NoEvals(ts)
    ensures NoEval(EMPTY, ts, 0)
  {
    FeedNoEval(EMPTY, ts, 0);
  }

  lemma SpellAt(e: Expr)
    ensures At(Spell(e), 0, Spell(e))
  {
    hide Spell;
    assert Spell(e)[0..|Spell(e)|] == Spell(e);
  }

  lemma LexEnd(text: Bytes)
    ensures LexAll(text, |text|, false) == []
  {}

  lemma OneStringRendered(v: Bytes)
    ensures Clip(EmitAll(NOTHING, Finished(State([], [Held(Str(v), 0)], [])))) == (Front([QUOTE] + v + [QUOTE], MAX_OUTPUT), |v| + 2 > MAX_OUTPUT)
  {
    var h := Held(Str(v), 0);
    assert Finished(State([], [h], [])) == [Str(v)];
    assert [Str(v)][1..] == [];
    assert [] + [] + ([QUOTE] + v + [QUOTE]) == [QUOTE] + v + [QUOTE];
  }
}
