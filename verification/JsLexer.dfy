/** The tokeniser of the JavaScript normaliser. Each reader is a function of the text and an
    index; the class below walks the text with a moving index and is proved to follow them. */
module JsLexer {
  import opened ByteSeq
  import opened JsText

  datatype Tok =
    | Ident(name: Bytes)
    | Str(s: Bytes)
    | Num(num: Bytes)
    | Punct(p: byte)
    | Regex(re: Bytes)

  const LPAREN: byte := 40
  const RPAREN: byte := 41
  const PLUS: byte := 43
  const COMMA: byte := 44
  const DOT: byte := 46
  const SLASH: byte := 47
  const STAR: byte := 42
  const BACKSLASH: byte := 92
  const NEWLINE: byte := 10
  const RETURN: byte := 13
  const BACKTICK: byte := 96

  predicate IsIdentByte(b: byte) { IsAlnum(b) || b == UNDERSCORE || b == 36 || b >= 0x80 }
  predicate IsIdentStart(b: byte) { IsAlpha(b) || b == UNDERSCORE || b == 36 || b >= 0x80 }
  predicate IsSpace(b: byte) { b == 32 || 9 <= b <= 13 }
  predicate IsQuote(b: byte) { b == QUOTE || b == 39 || b == BACKTICK }

  function Keywords(): seq<string> {
    ["var", "let", "const", "function", "return", "if", "else", "for", "while", "do", "switch", "case",
     "default", "break", "continue", "new", "delete", "typeof", "instanceof", "in", "of", "void", "this",
     "throw", "try", "catch", "finally", "with", "yield", "await", "async", "class", "extends", "super",
     "import", "export", "true", "false", "null", "undefined"]
  }

  predicate Listed(name: Bytes, words: seq<string>) {
    exists k :: 0 <= k < |words| && SameName(name, Ascii(words[k]))
  }

  predicate IsKeyword(name: Bytes) { Listed(name, Keywords()) }

  // ---------------------------------------------------------------- where each kind of run ends

  /** The first newline at or after `i`, or the end. */
  function LineEnd(data: Bytes, i: nat): (j: nat)
    requires i <= |data|
    ensures i <= j <= |data|
    decreases |data| - i
  {
    if i < |data| && data[i] != NEWLINE then LineEnd(data, i + 1) else i
  }

  /** Past the first star-slash at or after `i`, or the end. */
  function BlockEnd(data: Bytes, i: nat): (j: nat)
    requires i <= |data|
    ensures i <= j <= |data|
    decreases |data| - i
  {
    if i + 1 < |data| && !(data[i] == STAR && data[i + 1] == SLASH) then BlockEnd(data, i + 1)
    else Min(i + 2, |data|)
  }

  function IdentEnd(data: Bytes, i: nat): (j: nat)
    requires i <= |data|
    ensures i <= j <= |data|
    decreases |data| - i
  {
    if i < |data| && IsIdentByte(data[i]) then IdentEnd(data, i + 1) else i
  }

  /** A byte that continues a number: the sign of an exponent only right after its `e`. */
  predicate NumByte(b: byte, before: byte) {
    IsAlnum(b) || b == DOT || b == UNDERSCORE || ((b == PLUS || b == 45) && (before == 101 || before == 69))
  }

  function NumEnd(data: Bytes, i: nat): (j: nat)
    requires 1 <= i <= |data|
    ensures i <= j <= |data|
    decreases |data| - i
  {
    if i < |data| && NumByte(data[i], data[i - 1]) then NumEnd(data, i + 1) else i
  }

  predicate FracByte(b: byte) { IsDigit(b) || b == 101 || b == 69 || b == PLUS || b == 45 }

  function FracEnd(data: Bytes, i: nat): (j: nat)
    requires i <= |data|
    ensures i <= j <= |data|
    decreases |data| - i
  {
    if i < |data| && FracByte(data[i]) then FracEnd(data, i + 1) else i
  }

  function FlagsEnd(data: Bytes, i: nat): (j: nat)
    requires i <= |data|
    ensures i <= j <= |data|
    decreases |data| - i
  {
    if i < |data| && IsAlpha(data[i]) then FlagsEnd(data, i + 1) else i
  }

  /** Past the slash that closes a regular expression's body, or where it breaks off. */
  function RegexBodyEnd(data: Bytes, i: nat, inClass: bool): (j: nat)
    requires i <= |data|
    ensures i <= j <= |data|
    decreases |data| - i
  {
    if i >= |data| then i
    else if data[i] == BACKSLASH && i + 1 < |data| then RegexBodyEnd(data, i + 2, inClass)
    else if data[i] == 91 then RegexBodyEnd(data, i + 1, true)
    else if data[i] == 93 then RegexBodyEnd(data, i + 1, false)
    else if data[i] == SLASH && !inClass then i + 1
    else if data[i] == NEWLINE then i
    else RegexBodyEnd(data, i + 1, inClass)
  }

  // ---------------------------------------------------------------- string literals

  /** The hexadecimal digits of a `\u{...}` escape from `j`, and where they stop. */
  function BraceDigits(data: Bytes, j: nat, cp: nat): (r: (nat, nat))
    requires j <= |data|
    ensures j <= r.1 <= |data|
    decreases |data| - j
  {
    if j < |data| && data[j] != 125 && DigitVal(data[j], 16).Some? then
      BraceDigits(data, j + 1, Min(Min(cp * 16, U32 - 1) + DigitVal(data[j], 16).value, U32 - 1))
    else (cp, j)
  }

  /** Up to three octal digits from `j`, stopping before `stop`. */
  function OctalDigits(data: Bytes, j: nat, stop: nat, v: nat): (r: (nat, nat))
    requires j <= |data|
    ensures j <= r.1 <= |data|
    ensures j < |data| && j < stop && 48 <= data[j] <= 55 ==> j < r.1
    decreases |data| - j
  {
    if j < |data| && j < stop && 48 <= data[j] <= 55 then OctalDigits(data, j + 1, stop, v * 8 + (data[j] - 48))
    else (v, j)
  }

  /** The escape whose body starts at `i`, after the backslash: its bytes, and the index past it. */
  function Escape(data: Bytes, i: nat): (r: (Bytes, nat))
    requires i < |data|
    ensures i < r.1 <= |data|
    ensures |r.0| <= r.1 - i
  {
    var n := |data|;
    var b := data[i];
    if b == LETTER_X && i + 2 < n then
      match Hex2(data[i + 1], data[i + 2])
      case Some(v) => ([v], i + 3)
      case None => ([b], i + 1)
    else if b == LETTER_U then
      if i + 1 < n && data[i + 1] == 123 then
        var (cp, j) := BraceDigits(data, i + 2, 0);
        if j > i + 2 && j < n && data[j] == 125 then (EncodeCp(cp), j + 1) else ([b], i + 1)
      else if i + 4 < n && FoldDigits(data[i + 1..i + 5], 16, 0).Some? then
        (EncodeCp(FoldDigits(data[i + 1..i + 5], 16, 0).value), i + 5)
      else ([b], i + 1)
    else if 48 <= b <= 55 then
      var (v, j) := OctalDigits(data, i, i + 3, 0);
      ([v % 256], j)
    else if b == 110 then ([10], i + 1)
    else if b == 116 then ([9], i + 1)
    else if b == 114 then ([13], i + 1)
    else if b == 98 then ([8], i + 1)
    else if b == 102 then ([12], i + 1)
    else if b == 118 then ([11], i + 1)
    else if b == NEWLINE then ([], i + 1)
    else if b == RETURN && i + 1 < n && data[i + 1] == NEWLINE then ([], i + 2)
    else if b == RETURN then ([], i + 1)
    else ([b], i + 1)
  }

  /** The content of a string literal from `i`, after its opening quote, and the index past it. */
  function StringBody(data: Bytes, i: nat, quote: byte): (r: (Bytes, nat))
    requires i <= |data|
    ensures i <= r.1 <= |data|
    ensures |r.0| <= r.1 - i
    decreases |data| - i
  {
    if i >= |data| then ([], i)
    else if data[i] == quote then ([], i + 1)
    else if data[i] == BACKSLASH && i + 1 < |data| then
      var (e, k) := Escape(data, i + 1);
      var (rest, end) := StringBody(data, k, quote);
      (e + rest, end)
    else if (data[i] == NEWLINE || data[i] == RETURN) && quote != BACKTICK then ([], i)
    else
      var (rest, end) := StringBody(data, i + 1, quote);
      ([data[i]] + rest, end)
  }

  // ---------------------------------------------------------------- one token

  datatype Lexed = Lexed(tok: Tok, next: nat, valuePos: bool)

  /** Where the next token starts: past whitespace and comments, or the end. */
  function TokenStart(data: Bytes, i: nat): (j: nat)
    requires i <= |data|
    ensures i <= j <= |data|
    decreases |data| - i
  {
    if i >= |data| then i
    else if IsSpace(data[i]) then TokenStart(data, i + 1)
    else if data[i] == SLASH && i + 1 < |data| && data[i + 1] == SLASH then TokenStart(data, LineEnd(data, i + 2))
    else if data[i] == SLASH && i + 1 < |data| && data[i + 1] == STAR then TokenStart(data, BlockEnd(data, i + 2))
    else i
  }

  /** The token that starts at `i`. */
  function TokenAt(data: Bytes, i: nat, valuePos: bool): (r: Lexed)
    requires i < |data|
    ensures i < r.next <= |data|
  {
    var b := data[i];
    if b == SLASH && valuePos then
      var end := FlagsEnd(data, RegexBodyEnd(data, i + 1, false));
      Lexed(Regex(data[i..end]), end, false)
    else if IsQuote(b) then
      var (s, end) := StringBody(data, i + 1, b);
      Lexed(Str(s), end, false)
    else if IsDigit(b) then
      var end := NumEnd(data, i + 1);
      Lexed(Num(data[i..end]), end, false)
    else if b == DOT && i + 1 < |data| && IsDigit(data[i + 1]) then
      var end := FracEnd(data, i + 1);
      Lexed(Num(data[i..end]), end, false)
    else if IsIdentStart(b) then
      var end := IdentEnd(data, i + 1);
      Lexed(Ident(data[i..end]), end, IsKeyword(data[i..end]))
    else Lexed(Punct(b), i + 1, b != RPAREN && b != 93)
  }

  function NextToken(data: Bytes, i: nat, valuePos: bool): (r: Option<Lexed>)
    requires i <= |data|
    ensures r.Some? ==> i < r.value.next <= |data|
  {
    var j := TokenStart(data, i);
    if j < |data| then Some(TokenAt(data, j, valuePos)) else None
  }

  /** Every token of a text from `i` on. */
  function LexAll(data: Bytes, i: nat, valuePos: bool): seq<Tok>
    requires i <= |data|
    decreases |data| - i
  {
    match NextToken(data, i, valuePos)
    case None => []
    case Some(t) => [t.tok] + LexAll(data, t.next, t.valuePos)
  }

  /** A string token is shorter than the text it was read from, and a number is that text:
      what each token can put into later text is paid for by what it consumed. */
  lemma TokenPaidFor(data: Bytes, i: nat, valuePos: bool)
    requires i <= |data| && NextToken(data, i, valuePos).Some?
    ensures var t := NextToken(data, i, valuePos).value;
            && (t.tok.Str? ==> |t.tok.s| < t.next - i)
            && (t.tok.Num? ==> |t.tok.num| <= t.next - i)
  {
    var j := TokenStart(data, i);
    assert i <= j;
  }

  // ---------------------------------------------------------------- literals read back

  /** `text` spells `s` from `i` on, every byte as `\xHH`: a literal any string can be written as. */
  predicate SpellsAt(text: Bytes, i: nat, s: Bytes)
    decreases |s|
  {
    s != [] ==>
      && i + 4 <= |text|
      && text[i] == BACKSLASH && text[i + 1] == LETTER_X
      && text[i + 2] == HexDigit(s[0] / 16) && text[i + 3] == HexDigit(s[0] % 16)
      && SpellsAt(text, i + 4, s[1..])
  }

  lemma ByteEscapeRead(text: Bytes, i: nat, quote: byte, v: byte)
    requires i + 4 <= |text| && IsQuote(quote) && text[i] == BACKSLASH && text[i + 1] == LETTER_X
    requires text[i + 2] == HexDigit(v / 16) && text[i + 3] == HexDigit(v % 16)
    ensures StringBody(text, i, quote).0 == [v] + StringBody(text, i + 4, quote).0
    ensures StringBody(text, i, quote).1 == StringBody(text, i + 4, quote).1
  {
    assert Hex2(text[i + 2], text[i + 3]) == Some(v);
    assert Escape(text, i + 1) == ([v], i + 4);
  }

  /** Reading an escaped literal gives back the string, whatever surrounds it. */
  lemma {:induction false} StringRoundTrip(text: Bytes, i: nat, s: Bytes, quote: byte)
    requires IsQuote(quote) && SpellsAt(text, i, s)
    requires i + 4 * |s| < |text| && text[i + 4 * |s|] == quote
    ensures StringBody(text, i, quote) == (s, i + 4 * |s| + 1)
    decreases |s|
  {
    if s != [] {
      StringRoundTrip(text, i + 4, s[1..], quote);
      ByteEscapeRead(text, i, quote, s[0]);
      assert [s[0]] + s[1..] == s;
    }
  }

  // ---------------------------------------------------------------- the lexer itself

  /** Reads a text front to back. `valuePos` is whether a value may start here, so that a slash
      begins a regular expression. `depth` is how many `eval` layers the text is inside. */
  class Lexer {
    const data: Bytes
    const depth: nat
    var i: nat
    var valuePos: bool

    ghost predicate Valid() reads this { i <= |data| }

    constructor (data: Bytes, depth: nat)
      ensures Valid() && this.data == data && this.depth == depth && i == 0 && valuePos
    {
      this.data, this.depth := data, depth;
      i, valuePos := 0, true;
    }

    method Next() returns (t: Option<Tok>)
      requires Valid()
      modifies this
      ensures Valid()
      ensures match NextToken(data, old(i), old(valuePos))
              case Some(l) => t == Some(l.tok) && i == l.next && valuePos == l.valuePos
              case None => t == None && i == |data| && valuePos == old(valuePos)
    {
      var n := |data|;
      var k := SkipToToken();
      i := k;
      if k == n { return None; }
      var b := data[k];
      if b == SLASH && valuePos {
        var end := ReadRegex(k);
        i, valuePos := end, false;
        return Some(Regex(data[k..end]));
      } else if IsQuote(b) {
        var s, end := ReadString(k, b);
        i, valuePos := end, false;
        return Some(Str(s));
      } else if IsDigit(b) {
        var end := ReadNumber(k);
        i, valuePos := end, false;
        return Some(Num(data[k..end]));
      } else if b == DOT && k + 1 < n && IsDigit(data[k + 1]) {
        var end := ReadFraction(k);
        i, valuePos := end, false;
        return Some(Num(data[k..end]));
      } else if IsIdentStart(b) {
        var end := ReadIdent(k);
        i, valuePos := end, IsKeyword(data[k..end]);
        return Some(Ident(data[k..end]));
      } else {
        i, valuePos := k + 1, b != RPAREN && b != 93;
        return Some(Punct(b));
      }
    }

    /** Past whitespace and comments. */
    method SkipToToken() returns (k: nat)
      requires Valid()
      ensures k == TokenStart(data, i)
    {
      k := i;
      var n := |data|;
      while k < n
        invariant i <= k <= n
        invariant TokenStart(data, k) == TokenStart(data, i)
      {
        if IsSpace(data[k]) {
          k := k + 1;
        } else if data[k] == SLASH && k + 1 < n && data[k + 1] == SLASH {
          var end := k + 2;
          while end < n && data[end] != NEWLINE
            invariant k + 2 <= end <= n
            invariant LineEnd(data, end) == LineEnd(data, k + 2)
          {
            end := end + 1;
          }
          k := end;
        } else if data[k] == SLASH && k + 1 < n && data[k + 1] == STAR {
          var end := k + 2;
          while end + 1 < n && !(data[end] == STAR && data[end + 1] == SLASH)
            invariant k + 2 <= end <= n
            invariant BlockEnd(data, end) == BlockEnd(data, k + 2)
          {
            end := end + 1;
          }
          k := Min(end + 2, n);
        } else {
          return;
        }
      }
    }

    method ReadRegex(start: nat) returns (end: nat)
      requires start < |data|
      ensures end == FlagsEnd(data, RegexBodyEnd(data, start + 1, false))
    {
      var n := |data|;
      var inClass := false;
      end := start + 1;
      while end < n
        invariant start + 1 <= end <= n
        invariant RegexBodyEnd(data, end, inClass) == RegexBodyEnd(data, start + 1, false)
      {
        if data[end] == BACKSLASH && end + 1 < n {
          end := end + 2;
        } else if data[end] == 91 {
          inClass, end := true, end + 1;
        } else if data[end] == 93 {
          inClass, end := false, end + 1;
        } else if data[end] == SLASH && !inClass {
          end := end + 1;
          break;
        } else if data[end] == NEWLINE {
          break;
        } else {
          end := end + 1;
        }
      }
      ghost var body := RegexBodyEnd(data, start + 1, false);
      assert end == body;
      while end < n && IsAlpha(data[end])
        invariant body <= end <= n
        invariant FlagsEnd(data, end) == FlagsEnd(data, body)
      {
        end := end + 1;
      }
    }

    method ReadString(start: nat, quote: byte) returns (s: Bytes, end: nat)
      requires start < |data|
      ensures (s, end) == StringBody(data, start + 1, quote)
    {
      hide Escape;
      var n := |data|;
      s, end := [], start + 1;
      ghost var whole := StringBody(data, start + 1, quote);
      ghost var rest := whole.0;
      while end < n
        invariant start + 1 <= end <= n
        invariant StringBody(data, end, quote) == (rest, whole.1)
        invariant s + rest == whole.0
      {
        if data[end] == quote {
          assert rest == [];
          end := end + 1;
          break;
        }
        if data[end] == BACKSLASH && end + 1 < n {
          var (e, next) := Escape(data, end + 1);
          rest := StringBody(data, next, quote).0;
          assert s + (e + rest) == (s + e) + rest;
          s, end := s + e, next;
          continue;
        }
        if (data[end] == NEWLINE || data[end] == RETURN) && quote != BACKTICK {
          assert rest == [];
          break;
        }
        rest := StringBody(data, end + 1, quote).0;
        assert s + ([data[end]] + rest) == (s + [data[end]]) + rest;
        s, end := s + [data[end]], end + 1;
      }
      assert s + [] == s;
    }

    method ReadNumber(start: nat) returns (end: nat)
      requires start < |data|
      ensures end == NumEnd(data, start + 1)
    {
      end := start + 1;
      while end < |data| && NumByte(data[end], data[end - 1])
        invariant start + 1 <= end <= |data|
        invariant NumEnd(data, end) == NumEnd(data, start + 1)
      {
        end := end + 1;
      }
    }

    method ReadFraction(start: nat) returns (end: nat)
      requires start < |data|
      ensures end == FracEnd(data, start + 1)
    {
      end := start + 1;
      while end < |data| && FracByte(data[end])
        invariant start + 1 <= end <= |data|
        invariant FracEnd(data, end) == FracEnd(data, start + 1)
      {
        end := end + 1;
      }
    }

    method ReadIdent(start: nat) returns (end: nat)
      requires start < |data|
      ensures end == IdentEnd(data, start + 1)
    {
      end := start + 1;
      while end < |data| && IsIdentByte(data[end])
        invariant start + 1 <= end <= |data|
        invariant IdentEnd(data, end) == IdentEnd(data, start + 1)
      {
        end := end + 1;
      }
    }
  }
}
