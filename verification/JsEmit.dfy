/** Writing settled tokens: identifiers renamed in the order they first appear, a space only
    where two tokens would merge, and a hard cap on the output. */
module JsEmit {
  import opened ByteSeq
  import opened JsText
  import opened JsLexer
  import opened JsReducer

  function KeepIdents(): seq<string> {
    ["eval", "unescape", "escape", "decodeuricomponent", "decodeuri", "encodeuricomponent", "string", "fromcharcode"]
    + ["charcodeat", "array", "object", "function", "math", "number", "parseint", "parsefloat", "replace", "split", "join",
     "concat", "substr", "substring", "slice", "charat", "indexof", "tostring", "document", "window", "location",
     "navigator", "activexobject", "wscript", "shell", "createobject", "wshshell", "scripting", "filesystemobject",
     "xmlhttp", "msxml2", "adodb", "stream", "run", "exec", "powershell", "cmd"]
  }

  /** An identifier written as it is rather than renamed. */
  predicate IsKept(name: Bytes) { IsKeyword(name) || Listed(name, KeepIdents()) }

  predicate Renamed(t: Tok) { t.Ident? && !IsKept(t.name) }

  /** The output, the number each renamed identifier was given, and whether a token was left out. */
  datatype Emitted = Emitted(out: Bytes, names: map<Bytes, nat>, cut: bool)

  const NOTHING: Emitted := Emitted([], map[], false)

  /** At least three digits. */
  function Pad3(d: Bytes): Bytes {
    if |d| >= 3 then d else if |d| == 2 then [ZERO] + d else [ZERO, ZERO] + d
  }

  /** `n001`, `n002`, ... */
  function Canonical(k: nat): (r: Bytes)
    ensures |r| >= 4
  {
    [110] + Pad3(Dec(k))
  }

  function NormalizeNum(num: Bytes): Bytes {
    match ParseInt(num)
    case Some(v) => Dec(v)
    case None => num
  }

  /** Every renamed identifier has a number once it is met. */
  function Named(names: map<Bytes, nat>, t: Tok): map<Bytes, nat> {
    if Renamed(t) && t.name !in names then names[t.name := |names| + 1] else names
  }

  /** What a token other than a string is written as. */
  function Piece(names: map<Bytes, nat>, t: Tok): Bytes
    requires Renamed(t) ==> t.name in names
  {
    match t
    case Ident(name) => if IsKept(name) then name else Canonical(names[name])
    case Regex(re) => re
    case Num(num) => NormalizeNum(num)
    case Punct(p) => [p]
    case Str(s) => [QUOTE] + s + [QUOTE]
  }

  predicate Merge(out: Bytes, piece: Bytes) {
    out != [] && piece != [] && IsIdentByte(Last(out)) && IsIdentByte(piece[0])
  }

  function Emit(e: Emitted, t: Tok): Emitted {
    if e.cut then e
    else if |e.out| >= MAX_OUTPUT then e.(cut := true)
    else
      var names := Named(e.names, t);
      var piece := Piece(names, t);
      var gap := if !t.Str? && Merge(e.out, piece) then [32] else [];
      Emitted(e.out + gap + piece, names, false)
  }

  function EmitAll(e: Emitted, ts: seq<Tok>): Emitted
    decreases |ts|
  {
    if ts == [] then e else EmitAll(Emit(e, ts[0]), ts[1..])
  }

  /** What the normaliser hands back: the output within its cap, and whether anything is missing. */
  function Clip(e: Emitted): (Bytes, bool) {
    (Front(e.out, MAX_OUTPUT), e.cut || |e.out| > MAX_OUTPUT)
  }

  lemma {:induction false} EmitAppend(e: Emitted, a: seq<Tok>, b: seq<Tok>)
    ensures EmitAll(e, a + b) == EmitAll(EmitAll(e, a), b)
    decreases |a|
  {
    hide Emit;
    if a == [] {
      assert a + b == b;
    } else {
      assert (a + b)[1..] == a[1..] + b;
      EmitAppend(Emit(e, a[0]), a[1..], b);
    }
  }

  lemma EmitSnoc(e: Emitted, a: seq<Tok>, t: Tok)
    ensures EmitAll(e, a + [t]) == Emit(EmitAll(e, a), t)
  {
    hide Emit;
    EmitAppend(e, a, [t]);
    assert EmitAll(EmitAll(e, a), [t]) == EmitAll(Emit(EmitAll(e, a), t), [t][1..]);
  }

  /** Once cut, nothing that follows is written. */
  lemma {:induction false} CutStays(e: Emitted, ts: seq<Tok>)
    requires e.cut
    ensures EmitAll(e, ts) == e
    decreases |ts|
  {
    if ts != [] {
      CutStays(e, ts[1..]);
    }
  }

  /** Stopping once the output is cut loses nothing. */
  lemma CutIsFinal(a: seq<Tok>, b: seq<Tok>)
    requires a <= b && EmitAll(NOTHING, a).cut
    ensures EmitAll(NOTHING, b) == EmitAll(NOTHING, a)
  {
    assert b == a + b[|a|..];
    EmitAppend(NOTHING, a, b[|a|..]);
    CutStays(EmitAll(NOTHING, a), b[|a|..]);
  }

  // ---------------------------------------------------------------- names in order of appearance

  /** The renamed identifiers of a stream, each once, in the order they first appear. */
  function Firsts(ts: seq<Tok>): seq<Bytes> {
    if ts == [] then []
    else
      var f := Firsts(Init(ts));
      if Renamed(Last(ts)) && Last(ts).name !in f then f + [Last(ts).name] else f
  }

  ghost predicate Numbers(names: map<Bytes, nat>, order: seq<Bytes>) {
    && |names| == |order|
    && (forall n :: n in names <==> n in order)
    && (forall i :: 0 <= i < |order| ==> order[i] in names && names[order[i]] == i + 1)
  }

  /** The tokens written before the output is cut. */
  function Written(ts: seq<Tok>): seq<Tok> {
    if ts != [] && EmitAll(NOTHING, ts).cut then Written(Init(ts)) else ts
  }

  /** Those are what is written: the names are theirs. */
  lemma {:induction false} WrittenNames(ts: seq<Tok>)
    ensures !EmitAll(NOTHING, Written(ts)).cut && EmitAll(NOTHING, Written(ts)).names == EmitAll(NOTHING, ts).names
    ensures EmitAll(NOTHING, Written(ts)).out == EmitAll(NOTHING, ts).out && Written(ts) <= ts
    decreases |ts|
  {
    hide Piece, Named, Merge;
    if ts != [] && EmitAll(NOTHING, ts).cut {
      WrittenNames(Init(ts));
      assert ts == Init(ts) + [Last(ts)];
      EmitSnoc(NOTHING, Init(ts), Last(ts));
    }
  }

  lemma {:induction false} UncutInOrder(ts: seq<Tok>)
    requires !EmitAll(NOTHING, ts).cut
    ensures Numbers(EmitAll(NOTHING, ts).names, Firsts(ts))
    decreases |ts|
  {
    hide Renamed, Piece, Merge;
    if ts != [] {
      var t := Last(ts);
      assert ts == Init(ts) + [t];
      EmitSnoc(NOTHING, Init(ts), t);
      UncutInOrder(Init(ts));
      NumbersGrow(EmitAll(NOTHING, Init(ts)).names, Firsts(Init(ts)), t);
    }
  }

  lemma NumbersGrow(names: map<Bytes, nat>, order: seq<Bytes>, t: Tok)
    requires Numbers(names, order)
    ensures Numbers(Named(names, t), if Renamed(t) && t.name !in order then order + [t.name] else order)
  {
    hide IsKept;
    if Renamed(t) && t.name !in order {
      var names', order' := Named(names, t), order + [t.name];
      forall i | 0 <= i < |order'| ensures order'[i] in names' && names'[order'[i]] == i + 1 {
        if i < |order| { assert order[i] in order; }
      }
    }
  }

  /** A canonical name read back. */
  lemma CanonicalBack(k: nat)
    requires k < U32
    ensures FoldDigits(Canonical(k)[1..], 10, 0) == Some(k)
  {
    var d := Dec(k);
    FoldDec(k, []);
    assert d + [] == d;
    assert ([ZERO] + d)[1..] == d && ([ZERO, ZERO] + d)[1..] == [ZERO] + d;
  }

  lemma CanonicalInjective(i: nat, j: nat)
    requires i < U32 && j < U32 && i != j
    ensures Canonical(i) != Canonical(j)
  {
    CanonicalBack(i);
    CanonicalBack(j);
  }

  /** Numbers never outgrow 32 bits: each name takes four bytes of a bounded output. */
  lemma {:induction false} NamesFit(ts: seq<Tok>)
    ensures var e := EmitAll(NOTHING, ts); 4 * |e.names| <= |e.out| && |e.names| < U32
    decreases |ts|
  {
    hide Renamed, Merge, Piece;
    if ts != [] {
      var t := Last(ts);
      assert ts == Init(ts) + [t];
      EmitSnoc(NOTHING, Init(ts), t);
      NamesFit(Init(ts));
      var e := EmitAll(NOTHING, Init(ts));
      if !e.cut && |e.out| < MAX_OUTPUT && Renamed(t) {
        PieceOfName(e, t);
      }
    }
  }

  lemma PieceOfName(e: Emitted, t: Tok)
    requires Renamed(t)
    ensures |Piece(Named(e.names, t), t)| >= 4
  {
    hide IsKept;
  }

  /** A renamed identifier's number is its place among the first appearances in what is written. */
  lemma NamesInOrder(ts: seq<Tok>)
    ensures Numbers(EmitAll(NOTHING, ts).names, Firsts(Written(ts)))
  {
    hide EmitAll, Firsts, Written;
    WrittenNames(ts);
    UncutInOrder(Written(ts));
  }

  /** Different identifiers are written differently. */
  lemma DistinctNames(ts: seq<Tok>, a: Bytes, b: Bytes)
    requires a in Firsts(Written(ts)) && b in Firsts(Written(ts)) && a != b
    ensures var names := EmitAll(NOTHING, ts).names;
            a in names && b in names && Canonical(names[a]) != Canonical(names[b])
  {
    hide Firsts, EmitAll, Canonical, Written;
    NamesInOrder(ts);
    NamesFit(ts);
    var order := Firsts(Written(ts));
    var i :| 0 <= i < |order| && order[i] == a;
    var j :| 0 <= j < |order| && order[j] == b;
    CanonicalInjective(i + 1, j + 1);
  }

  // ---------------------------------------------------------------- renaming

  /** An injective renaming of identifiers that are not kept. */
  ghost predicate Renaming(m: map<Bytes, Bytes>) {
    && (forall n :: n in m ==> !IsKept(n) && !IsKept(m[n]))
    && (forall x, y :: x in m && y in m && m[x] == m[y] ==> x == y)
  }

  function Rename(m: map<Bytes, Bytes>, t: Tok): Tok {
    if Renamed(t) && t.name in m then Ident(m[t.name]) else t
  }

  function RenameAll(m: map<Bytes, Bytes>, ts: seq<Tok>): (r: seq<Tok>)
    ensures |r| == |ts|
  {
    seq(|ts|, i requires 0 <= i < |ts| => Rename(m, ts[i]))
  }

  ghost predicate Covers(m: map<Bytes, Bytes>, ts: seq<Tok>) {
    forall i :: 0 <= i < |ts| && Renamed(ts[i]) ==> ts[i].name in m
  }

  /** Corresponding names have the same numbers. */
  ghost predicate Linked(m: map<Bytes, Bytes>, na: map<Bytes, nat>, nb: map<Bytes, nat>) {
    && |na| == |nb|
    && (forall n :: n in na ==> n in m && m[n] in nb && nb[m[n]] == na[n])
    && (forall n :: n in m && m[n] in nb ==> n in na)
  }

  lemma LinkedGrow(m: map<Bytes, Bytes>, t: Tok, na: map<Bytes, nat>, nb: map<Bytes, nat>)
    requires Renaming(m) && Linked(m, na, nb) && (Renamed(t) ==> t.name in m)
    ensures Linked(m, Named(na, t), Named(nb, Rename(m, t)))
    ensures Piece(Named(na, t), t) == Piece(Named(nb, Rename(m, t)), Rename(m, t))
    ensures t.Str? == Rename(m, t).Str?
  {
    hide IsKept, Canonical, NormalizeNum;
    if Renamed(t) {
      assert Renamed(Rename(m, t));
    }
  }

  /** Streams that differ by a renaming are written byte for byte the same, cut at the same token. */
  lemma {:induction false} RenamingInvariant(m: map<Bytes, Bytes>, ts: seq<Tok>)
    requires Renaming(m) && Covers(m, ts)
    ensures EmitAll(NOTHING, RenameAll(m, ts)).out == EmitAll(NOTHING, ts).out
    ensures EmitAll(NOTHING, RenameAll(m, ts)).cut == EmitAll(NOTHING, ts).cut
    ensures Linked(m, EmitAll(NOTHING, ts).names, EmitAll(NOTHING, RenameAll(m, ts)).names)
    decreases |ts|
  {
    hide Renaming, Renamed, Merge, Piece, Named, Linked, Rename;
    if ts == [] {
      LinkedNone(m);
    } else {
      var t := Last(ts);
      var us := RenameAll(m, Init(ts));
      assert ts == Init(ts) + [t] && RenameAll(m, ts) == us + [Rename(m, t)];
      RenamingInvariant(m, Init(ts));
      EmitSnoc(NOTHING, Init(ts), t);
      EmitSnoc(NOTHING, us, Rename(m, t));
      LinkedGrow(m, t, EmitAll(NOTHING, Init(ts)).names, EmitAll(NOTHING, us).names);
    }
  }

  lemma LinkedNone(m: map<Bytes, Bytes>)
    ensures Linked(m, map[], map[])
  {}

  // ---------------------------------------------------------------- the emitter itself

  lemma ListToksPrefix(values: seq<nat>, k: nat)
    requires 0 < k < |values|
    ensures ListToks(values[..k + 1]) == ListToks(values[..k]) + [Punct(COMMA), Num(Dec(values[k]))]
  {
    assert Init(values[..k + 1]) == values[..k];
  }

  class Emitter {
    var out: Bytes
    var names: map<Bytes, nat>
    var cut: bool

    ghost function Value(): Emitted
      reads this
    {
      Emitted(out, names, cut)
    }

    constructor ()
      ensures Value() == NOTHING
    {
      out, names, cut := [], map[], false;
    }

    method Write(tok: Tok)
      modifies this
      ensures Value() == Emit(old(Value()), tok)
    {
      hide IsKept, Canonical, NormalizeNum;
      if cut { return; }
      if |out| >= MAX_OUTPUT {
        cut := true;
        return;
      }
      var piece: Bytes;
      match tok {
        case Ident(name) =>
          if IsKept(name) {
            piece := name;
          } else {
            if name !in names {
              names := names[name := |names| + 1];
            }
            piece := Canonical(names[name]);
          }
        case Regex(re) => piece := re;
        case Num(num) => piece := NormalizeNum(num);
        case Punct(p) => piece := [p];
        case Str(s) =>
          out := out + ([QUOTE] + s + [QUOTE]);
          assert old(out) + [] == old(out);
          return;
      }
      if out != [] && piece != [] && IsIdentByte(out[|out| - 1]) && IsIdentByte(piece[0]) {
        out := out + [32];
      } else {
        assert out + [] == out;
      }
      out := out + piece;
    }

    /** The list of a `fromCharCode` that was not reduced, as its tokens would have been written. */
    method CharCodes(values: seq<nat>, wantNum: bool)
      modifies this
      ensures Value() == EmitAll(old(Value()), CodeToks(values, wantNum))
    {
      hide Emit;
      ghost var before := Value();
      for k := 0 to |values|
        invariant Value() == EmitAll(before, ListToks(values[..k]))
      {
        ghost var done := ListToks(values[..k]);
        if k > 0 {
          Write(Punct(COMMA));
          EmitSnoc(before, done, Punct(COMMA));
          ListToksPrefix(values, k);
          done := done + [Punct(COMMA)];
        }
        Write(Num(Dec(values[k])));
        EmitSnoc(before, done, Num(Dec(values[k])));
        assert done + [Num(Dec(values[k]))] == ListToks(values[..k + 1]);
      }
      assert values[..|values|] == values;
      if wantNum && values != [] {
        Write(Punct(COMMA));
        EmitSnoc(before, ListToks(values), Punct(COMMA));
      }
    }
  }
}
