/** The 124 hexadecimal digits an icon metric is written as in a signature. */
module IconBlob {
  import opened ByteSeq
  import opened IconMetrics

  // ---------------------------------------------------------------- one number

  /** The last `n` hexadecimal digits of a number. */
  function Hex(v: nat, n: nat): (r: Bytes)
    ensures |r| == n
  {
    if n == 0 then [] else Hex(v / 16, n - 1) + [HexDigit(v % 16)]
  }

  /** The number has no more than `n` hexadecimal digits. */
  predicate Fits(v: nat, n: nat) { if n == 0 then v == 0 else Fits(v / 16, n - 1) }

  lemma FitsIs(v: nat)
    ensures Fits(v, 2) <==> v < 256
    ensures Fits(v, 3) <==> v < 4096
  {
    assert Fits(v / 16, 1) <==> v / 16 < 16;
    assert Fits(v / 16 / 16, 1) <==> v / 16 / 16 < 16;
  }

  lemma NumberPush(digits: Bytes, d: byte)
    requires DigitVal(d, 16).Some?
    ensures Number(digits + [d], 16) == if Number(digits, 16).None? then None else Some(Number(digits, 16).value * 16 + DigitVal(d, 16).value)
  {
    hide DigitVal;
    assert (digits + [d])[..|digits|] == digits;
  }

  lemma {:induction false} HexBack(v: nat, n: nat)
    requires Fits(v, n)
    ensures Number(Hex(v, n), 16) == Some(v)
  {
    if n > 0 {
      hide Number, DigitVal;
      HexBack(v / 16, n - 1);
      NumberPush(Hex(v / 16, n - 1), HexDigit(v % 16));
    }
  }

  /** Digits that spell a number are the digits it is written as, but for the case of letters. */
  lemma {:induction false} NumberBack(digits: Bytes)
    requires Number(digits, 16).Some?
    ensures Fits(Number(digits, 16).value, |digits|) && Hex(Number(digits, 16).value, |digits|) == LowerAll(digits)
  {
    if digits != [] {
      var n := |digits| - 1;
      NumberBack(digits[..n]);
      var front, d := Number(digits[..n], 16).value, DigitVal(digits[n], 16).value;
      assert (front * 16 + d) / 16 == front && (front * 16 + d) % 16 == d;
      assert HexDigit(d) == Lower(digits[n]);
      assert LowerAll(digits) == LowerAll(digits[..n]) + [Lower(digits[n])];
    }
  }

  function Shifted(v: nat, n: nat): nat { if n == 0 then v else Shifted(v, n - 1) / 16 }

  method PushHex(s: Bytes, val: nat, nibbles: nat) returns (r: Bytes)
    ensures r == s + Hex(val, nibbles)
  {
    r := s;
    for i := nibbles downto 0
      invariant r == s + Hex(Shifted(val, i), nibbles - i)
    {
      r := r + [HexDigit(Shifted(val, i) % 16)];
    }
  }

  // ---------------------------------------------------------------- a metric

  function CellHex(c: Cell, n: nat): (r: Bytes)
    ensures |r| == n + 4
  {
    Hex(c.avg, n) + (Hex(c.x, 2) + Hex(c.y, 2))
  }

  function CellsHex(cells: seq<Cell>, n: nat): Bytes {
    if cells == [] then [] else CellHex(cells[0], n) + CellsHex(cells[1..], n)
  }

  /** The metric written out, each quantity in its place. */
  function Print(m: Metric): Bytes {
    Hex(m.side, 2) + (CellsHex(m.color, 3) + (CellsHex(m.gray, 3) + (CellsHex(m.bright, 2) + (CellsHex(m.dark, 2)
    + (CellsHex(m.edge, 2) + (CellsHex(m.noedge, 2)
    + (Hex(m.rsum, 2) + (Hex(m.gsum, 2) + (Hex(m.bsum, 2) + Hex(m.ccount, 2))))))))))
  }

  /** The number in `n` digits at `pos`. */
  function Field(b: Bytes, pos: nat, n: nat): Option<nat> {
    if pos + n <= |b| then Number(b[pos..pos + n], 16) else None
  }

  /** A field that is there and not above a limit. */
  function Upto(b: Bytes, pos: nat, n: nat, limit: Option<nat>): Option<nat> {
    var v := Field(b, pos, n);
    if v.Some? && limit.Some? && v.value > limit.value then None else v
  }

  function CellAt(b: Bytes, pos: nat, coord: nat, n: nat, avgMax: Option<nat>): Option<Cell> {
    var avg, x, y := Upto(b, pos, n, avgMax), Upto(b, pos + n, 2, Some(coord)), Upto(b, pos + n + 2, 2, Some(coord));
    if avg.Some? && x.Some? && y.Some? then Some(Cell(avg.value, x.value, y.value)) else None
  }

  function CellsAt(b: Bytes, pos: nat, coord: nat, n: nat, avgMax: Option<nat>, count: nat): Option<seq<Cell>>
    decreases count
  {
    if count == 0 then Some([])
    else
      var c, rest := CellAt(b, pos, coord, n, avgMax), CellsAt(b, pos + n + 4, coord, n, avgMax, count - 1);
      if c.Some? && rest.Some? then Some([c.value] + rest.value) else None
  }

  /** The metric a blob stands for: side at 0, colour and gray in cells of seven digits, the rest in
      cells of six, then the statistics. */
  function Parse(b: Bytes): Option<Metric> {
    var side := Field(b, 0, 2);
    if |b| != 124 || side.None? || !IconSide(side.value) then None
    else
      var coord := side.value - side.value / 8;
      var color, gray := CellsAt(b, 2, coord, 3, Some(4072), 3), CellsAt(b, 23, coord, 3, Some(4072), 3);
      var bright, dark := CellsAt(b, 44, coord, 2, None, 3), CellsAt(b, 62, coord, 2, None, 3);
      var edge, noedge := CellsAt(b, 80, coord, 2, None, 3), CellsAt(b, 98, coord, 2, None, 3);
      var rsum, gsum, bsum, ccount := Field(b, 116, 2), Field(b, 118, 2), Field(b, 120, 2), Field(b, 122, 2);
      if color.None? || gray.None? || bright.None? || dark.None? || edge.None? || noedge.None? then None
      else if rsum.None? || gsum.None? || bsum.None? || ccount.None? then None
      else if rsum.value + gsum.value + bsum.value > 103 || ccount.value > 100 then None
      else Some(Metric(side.value, color.value, gray.value, bright.value, dark.value, edge.value, noedge.value,
                       rsum.value, gsum.value, bsum.value, ccount.value))
  }

  // ---------------------------------------------------------------- printed, then parsed

  predicate PartAt(b: Bytes, pos: nat, part: Bytes) {
    pos + |part| <= |b| && b[pos..pos + |part|] == part
  }

  lemma Split(b: Bytes, pos: nat, p: Bytes, q: Bytes)
    requires PartAt(b, pos, p + q)
    ensures PartAt(b, pos, p) && PartAt(b, pos + |p|, q)
  {
    var s := b[pos..pos + |p + q|];
    assert b[pos..pos + |p|] == s[..|p|] && b[pos + |p|..pos + |p| + |q|] == s[|p|..];
  }

  lemma FieldBack(b: Bytes, pos: nat, v: nat, n: nat)
    requires PartAt(b, pos, Hex(v, n)) && Fits(v, n)
    ensures Field(b, pos, n) == Some(v)
  {
    hide Hex, Number;
    HexBack(v, n);
  }

  predicate CellFits(c: Cell, coord: nat, n: nat, avgMax: Option<nat>) {
    Fits(c.avg, n) && (avgMax.Some? ==> c.avg <= avgMax.value) && c.x <= coord && c.y <= coord
  }

  lemma CellBack(b: Bytes, pos: nat, c: Cell, coord: nat, n: nat, avgMax: Option<nat>)
    requires PartAt(b, pos, CellHex(c, n)) && CellFits(c, coord, n, avgMax) && coord < 256
    ensures CellAt(b, pos, coord, n, avgMax) == Some(c)
  {
    hide PartAt, Fits, Field, Hex;
    Split(b, pos, Hex(c.avg, n), Hex(c.x, 2) + Hex(c.y, 2));
    Split(b, pos + n, Hex(c.x, 2), Hex(c.y, 2));
    FitsIs(c.x);
    FitsIs(c.y);
    FieldBack(b, pos, c.avg, n);
    FieldBack(b, pos + n, c.x, 2);
    FieldBack(b, pos + n + 2, c.y, 2);
  }

  lemma {:induction false} CellsBack(b: Bytes, pos: nat, cells: seq<Cell>, coord: nat, n: nat, avgMax: Option<nat>)
    requires PartAt(b, pos, CellsHex(cells, n)) && coord < 256
    requires forall i :: 0 <= i < |cells| ==> CellFits(cells[i], coord, n, avgMax)
    ensures CellsAt(b, pos, coord, n, avgMax, |cells|) == Some(cells) && |CellsHex(cells, n)| == (n + 4) * |cells|
    decreases |cells|
  {
    hide PartAt, CellFits, CellAt, CellHex;
    if cells != [] {
      Split(b, pos, CellHex(cells[0], n), CellsHex(cells[1..], n));
      CellBack(b, pos, cells[0], coord, n, avgMax);
      CellsBack(b, pos + (n + 4), cells[1..], coord, n, avgMax);
      assert cells == [cells[0]] + cells[1..];
      assert (n + 4) * |cells| == (n + 4) + (n + 4) * (|cells| - 1);
    }
  }

  lemma GroupBack(b: Bytes, pos: nat, cells: seq<Cell>, rest: Bytes, coord: nat, n: nat, limit: nat)
    requires PartAt(b, pos, CellsHex(cells, n) + rest) && CellsWithin(cells, limit, coord) && coord < 256
    requires (n == 3 && limit == 4072) || (n == 2 && limit == 255)
    ensures CellsAt(b, pos, coord, n, if n == 3 then Some(limit) else None, 3) == Some(cells)
    ensures PartAt(b, pos + (n + 4) * 3, rest)
  {
    hide PartAt, CellsAt, CellsHex, Fits;
    Split(b, pos, CellsHex(cells, n), rest);
    var avgMax := if n == 3 then Some(limit) else None;
    forall i | 0 <= i < 3 ensures CellFits(cells[i], coord, n, avgMax) { FitsIs(cells[i].avg); }
    CellsBack(b, pos, cells, coord, n, avgMax);
  }

  lemma NumberThen(b: Bytes, pos: nat, v: nat, rest: Bytes)
    requires PartAt(b, pos, Hex(v, 2) + rest) && v < 256
    ensures Field(b, pos, 2) == Some(v) && PartAt(b, pos + 2, rest)
  {
    hide PartAt, Hex, Fits, Field;
    Split(b, pos, Hex(v, 2), rest);
    FitsIs(v);
    FieldBack(b, pos, v, 2);
  }

  lemma SumsBack(b: Bytes, m: Metric)
    requires PartAt(b, 116, Hex(m.rsum, 2) + (Hex(m.gsum, 2) + (Hex(m.bsum, 2) + Hex(m.ccount, 2)))) && InRange(m)
    ensures Field(b, 116, 2) == Some(m.rsum) && Field(b, 118, 2) == Some(m.gsum) && Field(b, 120, 2) == Some(m.bsum) && Field(b, 122, 2) == Some(m.ccount)
  {
    hide PartAt, Field, Hex;
    NumberThen(b, 116, m.rsum, Hex(m.gsum, 2) + (Hex(m.bsum, 2) + Hex(m.ccount, 2)));
    NumberThen(b, 118, m.gsum, Hex(m.bsum, 2) + Hex(m.ccount, 2));
    assert Hex(m.ccount, 2) + [] == Hex(m.ccount, 2);
    NumberThen(b, 120, m.bsum, Hex(m.ccount, 2));
    NumberThen(b, 122, m.ccount, []);
  }

  /** The whole blob is one part, from its beginning. */
  lemma Whole(b: Bytes)
    ensures PartAt(b, 0, b)
  {
    assert b[0..|b|] == b;
  }

  lemma {:induction false} CellsLength(cells: seq<Cell>, n: nat)
    requires |cells| == 3
    ensures |CellsHex(cells, n)| == 3 * n + 12
  {
    assert cells[1..][1..][1..] == [];
    assert |CellsHex(cells[1..][1..], n)| == n + 4;
    assert |CellsHex(cells[1..], n)| == 2 * n + 8;
  }

  lemma PrintLength(m: Metric)
    requires InRange(m)
    ensures |Print(m)| == 124
  {
    hide CellsHex, Hex;
    CellsLength(m.color, 3);
    CellsLength(m.gray, 3);
    CellsLength(m.bright, 2);
    CellsLength(m.dark, 2);
    CellsLength(m.edge, 2);
    CellsLength(m.noedge, 2);
  }

  /** Every metric in range comes back from the blob it is written as. */
  lemma PrintParse(m: Metric)
    requires InRange(m)
    ensures Parse(Print(m)) == Some(m)
  {
    hide PartAt, CellsAt, CellsHex, Field, Hex, CellsWithin;
    var b, coord := Print(m), m.side - m.side / 8;
    PrintLength(m);
    Whole(b);
    var sums := Hex(m.rsum, 2) + (Hex(m.gsum, 2) + (Hex(m.bsum, 2) + Hex(m.ccount, 2)));
    var t6 := CellsHex(m.noedge, 2) + sums;
    var t5 := CellsHex(m.edge, 2) + t6;
    var t4 := CellsHex(m.dark, 2) + t5;
    var t3 := CellsHex(m.bright, 2) + t4;
    var t2 := CellsHex(m.gray, 3) + t3;
    var t1 := CellsHex(m.color, 3) + t2;
    NumberThen(b, 0, m.side, t1);
    GroupBack(b, 2, m.color, t2, coord, 3, 4072);
    GroupBack(b, 23, m.gray, t3, coord, 3, 4072);
    GroupBack(b, 44, m.bright, t4, coord, 2, 255);
    GroupBack(b, 62, m.dark, t5, coord, 2, 255);
    GroupBack(b, 80, m.edge, t6, coord, 2, 255);
    GroupBack(b, 98, m.noedge, sums, coord, 2, 255);
    SumsBack(b, m);
  }

  // ---------------------------------------------------------------- parsed, then printed

  lemma FieldFits(b: Bytes, pos: nat, n: nat)
    requires Field(b, pos, n).Some?
    ensures pos + n <= |b| && Fits(Field(b, pos, n).value, n) && Hex(Field(b, pos, n).value, n) == LowerAll(b)[pos..pos + n]
  {
    NumberBack(b[pos..pos + n]);
    assert LowerAll(b[pos..pos + n]) == LowerAll(b)[pos..pos + n];
  }

  lemma {:induction false} CellsFit(b: Bytes, pos: nat, coord: nat, n: nat, avgMax: Option<nat>, count: nat)
    requires CellsAt(b, pos, coord, n, avgMax, count).Some?
    ensures var cells := CellsAt(b, pos, coord, n, avgMax, count).value;
            && |cells| == count
            && (forall i :: 0 <= i < |cells| ==> CellFits(cells[i], coord, n, avgMax))
            && (count > 0 ==> PartAt(LowerAll(b), pos, CellsHex(cells, n)))
    decreases count
  {
    hide CellAt, Fits, CellHex;
    if count > 0 {
      var cells := CellsAt(b, pos, coord, n, avgMax, count).value;
      var c, rest := cells[0], CellsAt(b, pos + n + 4, coord, n, avgMax, count - 1).value;
      assert cells[1..] == rest;
      CellFit(b, pos, coord, n, avgMax);
      CellsFit(b, pos + n + 4, coord, n, avgMax, count - 1);
      if count == 1 {
        assert CellHex(c, n) + [] == CellHex(c, n);
      } else {
        Join(LowerAll(b), pos, CellHex(c, n), CellsHex(rest, n));
      }
    }
  }

  lemma CellFit(b: Bytes, pos: nat, coord: nat, n: nat, avgMax: Option<nat>)
    requires CellAt(b, pos, coord, n, avgMax).Some?
    ensures var c := CellAt(b, pos, coord, n, avgMax).value; CellFits(c, coord, n, avgMax) && PartAt(LowerAll(b), pos, CellHex(c, n))
  {
    hide Field, Hex, Fits;
    FieldFits(b, pos, n);
    FieldFits(b, pos + n, 2);
    FieldFits(b, pos + n + 2, 2);
    var c := CellAt(b, pos, coord, n, avgMax).value;
    Join(LowerAll(b), pos + n, Hex(c.x, 2), Hex(c.y, 2));
    Join(LowerAll(b), pos, Hex(c.avg, n), Hex(c.x, 2) + Hex(c.y, 2));
  }

  lemma Join(b: Bytes, pos: nat, p: Bytes, q: Bytes)
    requires PartAt(b, pos, p) && PartAt(b, pos + |p|, q)
    ensures PartAt(b, pos, p + q)
  {
    assert b[pos..pos + |p + q|] == b[pos..pos + |p|] + b[pos + |p|..pos + |p| + |q|];
  }

  lemma GroupFits(b: Bytes, pos: nat, coord: nat, n: nat, avgMax: Option<nat>, limit: nat)
    requires CellsAt(b, pos, coord, n, avgMax, 3).Some?
    requires (n == 3 && avgMax == Some(limit)) || (n == 2 && limit == 255)
    ensures CellsWithin(CellsAt(b, pos, coord, n, avgMax, 3).value, limit, coord)
    ensures PartAt(LowerAll(b), pos, CellsHex(CellsAt(b, pos, coord, n, avgMax, 3).value, n))
    ensures |CellsHex(CellsAt(b, pos, coord, n, avgMax, 3).value, n)| == 3 * n + 12
  {
    hide CellsAt, CellsHex, Fits, PartAt;
    CellsFit(b, pos, coord, n, avgMax, 3);
    var cells := CellsAt(b, pos, coord, n, avgMax, 3).value;
    CellsLength(cells, n);
    forall i | 0 <= i < 3 ensures cells[i].avg <= limit && cells[i].x <= coord && cells[i].y <= coord {
      assert CellFits(cells[i], coord, n, avgMax);
      FitsIs(cells[i].avg);
    }
  }

  lemma PartSums(b: Bytes)
    requires |b| == 124 && Field(b, 116, 2).Some? && Field(b, 118, 2).Some? && Field(b, 120, 2).Some? && Field(b, 122, 2).Some?
    ensures PartAt(LowerAll(b), 116, Hex(Field(b, 116, 2).value, 2) + (Hex(Field(b, 118, 2).value, 2)
                                     + (Hex(Field(b, 120, 2).value, 2) + Hex(Field(b, 122, 2).value, 2))))
  {
    hide Field, Hex, Fits;
    FieldFits(b, 116, 2);
    FieldFits(b, 118, 2);
    FieldFits(b, 120, 2);
    FieldFits(b, 122, 2);
    var l := LowerAll(b);
    var r, g, u, c := Field(b, 116, 2).value, Field(b, 118, 2).value, Field(b, 120, 2).value, Field(b, 122, 2).value;
    Join(l, 120, Hex(u, 2), Hex(c, 2));
    Join(l, 118, Hex(g, 2), Hex(u, 2) + Hex(c, 2));
    Join(l, 116, Hex(r, 2), Hex(g, 2) + (Hex(u, 2) + Hex(c, 2)));
  }

  /** A blob that parses is in range and is, but for the case of letters, what its metric is written as. */
  lemma ParsePrint(b: Bytes)
    requires Parse(b).Some?
    ensures InRange(Parse(b).value) && Print(Parse(b).value) == LowerAll(b)
  {
    hide PartAt, CellsAt, CellsHex, Field, Hex, CellsWithin, Print, LowerAll;
    var m := Parse(b).value;
    var coord := m.side - m.side / 8;
    GroupFits(b, 2, coord, 3, Some(4072), 4072);
    GroupFits(b, 23, coord, 3, Some(4072), 4072);
    GroupFits(b, 44, coord, 2, None, 255);
    GroupFits(b, 62, coord, 2, None, 255);
    GroupFits(b, 80, coord, 2, None, 255);
    GroupFits(b, 98, coord, 2, None, 255);
    PartSums(b);
    FieldPart(b, 0, 2);
    PrintIs(LowerAll(b), m);
  }

  lemma FieldPart(b: Bytes, pos: nat, n: nat)
    requires Field(b, pos, n).Some?
    ensures PartAt(LowerAll(b), pos, Hex(Field(b, pos, n).value, n)) && |LowerAll(b)| == |b|
  {
    FieldFits(b, pos, n);
  }

  lemma PrintIs(b: Bytes, m: Metric)
    requires |b| == 124 && PartAt(b, 0, Hex(m.side, 2)) && PartAt(b, 2, CellsHex(m.color, 3)) && PartAt(b, 23, CellsHex(m.gray, 3))
    requires PartAt(b, 44, CellsHex(m.bright, 2)) && PartAt(b, 62, CellsHex(m.dark, 2))
    requires PartAt(b, 80, CellsHex(m.edge, 2)) && PartAt(b, 98, CellsHex(m.noedge, 2))
    requires PartAt(b, 116, Hex(m.rsum, 2) + (Hex(m.gsum, 2) + (Hex(m.bsum, 2) + Hex(m.ccount, 2))))
    requires |CellsHex(m.color, 3)| == |CellsHex(m.gray, 3)| == 21
    requires |CellsHex(m.bright, 2)| == |CellsHex(m.dark, 2)| == |CellsHex(m.edge, 2)| == |CellsHex(m.noedge, 2)| == 18
    ensures Print(m) == b
  {
    hide PartAt, CellsHex, Hex;
    var sums := Hex(m.rsum, 2) + (Hex(m.gsum, 2) + (Hex(m.bsum, 2) + Hex(m.ccount, 2)));
    var t6 := CellsHex(m.noedge, 2) + sums;
    var t5 := CellsHex(m.edge, 2) + t6;
    var t4 := CellsHex(m.dark, 2) + t5;
    var t3 := CellsHex(m.bright, 2) + t4;
    var t2 := CellsHex(m.gray, 3) + t3;
    var t1 := CellsHex(m.color, 3) + t2;
    Join(b, 98, CellsHex(m.noedge, 2), sums);
    Join(b, 80, CellsHex(m.edge, 2), t6);
    Join(b, 62, CellsHex(m.dark, 2), t5);
    Join(b, 44, CellsHex(m.bright, 2), t4);
    Join(b, 23, CellsHex(m.gray, 3), t3);
    Join(b, 2, CellsHex(m.color, 3), t2);
    Join(b, 0, Hex(m.side, 2), t1);
    AllOfIt(b, Print(m));
  }

  lemma AllOfIt(b: Bytes, part: Bytes)
    requires PartAt(b, 0, part) && |part| == |b|
    ensures part == b
  {}

  /** A metric comes back from its blob exactly when it is in range. */
  lemma RoundTripIff(m: Metric)
    ensures Parse(Print(m)) == Some(m) <==> InRange(m)
  {
    hide Parse, Print, InRange;
    if Parse(Print(m)) == Some(m) { ParsePrint(Print(m)); }
    if InRange(m) { PrintParse(m); }
  }

  /** The metric of every icon survives being written and read. */
  lemma MetricRoundTrip(side: nat, pixels: seq<nat>, edges: seq<nat>, m: Metric)
    requires IsMetric(side, pixels, edges, m)
    ensures Parse(Print(m)) == Some(m)
  {
    hide Parse, Print, InRange, IsMetric;
    MetricInRange(side, pixels, edges, m);
    PrintParse(m);
  }
}
