/** Writing and reading blobs as the scanner does, digit by digit with a position that moves, and
    comparing metrics. */
module IconReader {
  import opened ByteSeq
  import opened Arith
  import opened IconMetrics
  import opened IconBlob

  method PushCells(s: Bytes, cells: seq<Cell>, n: nat) returns (r: Bytes)
    ensures r == s + CellsHex(cells, n)
  {
    hide Hex;
    r := s;
    assert cells[0..] == cells;
    for i := 0 to |cells|
      invariant r + CellsHex(cells[i..], n) == s + CellsHex(cells, n)
    {
      ghost var was, rest := r, CellsHex(cells[i + 1..], n);
      assert cells[i..][1..] == cells[i + 1..];
      r := PushHex(r, cells[i].avg, n);
      r := PushHex(r, cells[i].x, 2);
      r := PushHex(r, cells[i].y, 2);
      RegroupCell(was, Hex(cells[i].avg, n), Hex(cells[i].x, 2), Hex(cells[i].y, 2), rest);
    }
  }

  lemma RegroupCell(a: Bytes, b: Bytes, c: Bytes, d: Bytes, e: Bytes)
    ensures a + (b + (c + d) + e) == a + b + c + d + e
  {}

  method MetricToHex(m: Metric) returns (r: Bytes)
    ensures r == Print(m)
  {
    hide Hex, CellsHex;
    r := PushHex([], m.side, 2);
    r := PushCells(r, m.color, 3);
    r := PushCells(r, m.gray, 3);
    r := PushCells(r, m.bright, 2);
    r := PushCells(r, m.dark, 2);
    r := PushCells(r, m.edge, 2);
    r := PushCells(r, m.noedge, 2);
    r := PushHex(r, m.rsum, 2);
    r := PushHex(r, m.gsum, 2);
    r := PushHex(r, m.bsum, 2);
    r := PushHex(r, m.ccount, 2);
  }

  method HexVal(b: Bytes, pos: nat, n: nat) returns (r: Option<nat>)
    requires n <= 3
    ensures r == Field(b, pos, n)
  {
    var v := 0;
    if pos + n > |b| {
      return None;
    }
    for i := 0 to n
      invariant Number(b[pos..pos + i], 16) == Some(v)
    {
      NumberPush(b, pos, i);
      NumberStops(b, pos, i + 1, n);
      var d := DigitVal(b[pos + i], 16);
      if d.None? { return None; }
      v := v * 16 + d.value;
    }
    r := Some(v);
  }

  lemma NumberPush(b: Bytes, pos: nat, i: nat)
    requires pos + i < |b|
    ensures Number(b[pos..pos + i + 1], 16) ==
            var n, d := Number(b[pos..pos + i], 16), DigitVal(b[pos + i], 16); if n.None? || d.None? then None else Some(n.value * 16 + d.value)
  {
    assert b[pos..pos + i + 1][..i] == b[pos..pos + i];
  }

  /** A digit that is none spoils every number it is in. */
  lemma {:induction false} NumberStops(b: Bytes, pos: nat, i: nat, n: nat)
    requires i <= n && pos + n <= |b|
    ensures Number(b[pos..pos + i], 16).None? ==> Number(b[pos..pos + n], 16).None?
    decreases n - i
  {
    hide Number;
    if i < n {
      NumberPush(b, pos, i);
      NumberStops(b, pos, i + 1, n);
    }
  }

  method TakeField(b: Bytes, pos: nat, n: nat) returns (v: Option<nat>, next: nat)
    requires n <= 3
    ensures v == Field(b, pos, n) && next == if v.Some? then pos + n else pos
  {
    v := HexVal(b, pos, n);
    next := if v.Some? then pos + n else pos;
  }

  method TakeCell(b: Bytes, pos: nat, coord: nat, n: nat, avgMax: Option<nat>) returns (c: Option<Cell>, next: nat)
    requires n <= 3
    ensures c == CellAt(b, pos, coord, n, avgMax)
    ensures c.Some? ==> next == pos + n + 4
  {
    hide Field;
    var avg, x, y;
    avg, next := TakeField(b, pos, n);
    if avg.None? || (avgMax.Some? && avg.value > avgMax.value) { return None, next; }
    x, next := TakeField(b, next, 2);
    if x.None? || x.value > coord { return None, next; }
    y, next := TakeField(b, next, 2);
    if y.None? || y.value > coord { return None, next; }
    c := Some(Cell(avg.value, x.value, y.value));
  }

  method TakeCells(b: Bytes, pos: nat, coord: nat, n: nat, avgMax: Option<nat>) returns (r: Option<seq<Cell>>, next: nat)
    requires n <= 3
    ensures r == CellsAt(b, pos, coord, n, avgMax, 3)
    ensures r.Some? ==> next == pos + 3 * (n + 4)
  {
    hide CellAt;
    var cells: seq<Cell> := [];
    next := pos;
    AheadNone(CellsAt(b, pos, coord, n, avgMax, 3), cells);
    for i := 0 to 3
      invariant next == pos + i * (n + 4)
      invariant CellsAt(b, pos, coord, n, avgMax, 3) == Ahead(cells, CellsAt(b, next, coord, n, avgMax, 3 - i))
    {
      ghost var rest := CellsAt(b, next + n + 4, coord, n, avgMax, 2 - i);
      var c;
      c, next := TakeCell(b, next, coord, n, avgMax);
      if c.None? { return None, next; }
      AheadMore(cells, c.value, rest);
      cells := cells + [c.value];
    }
    AheadNone(None, cells);
    r := Some(cells);
  }

  function Ahead(first: seq<Cell>, rest: Option<seq<Cell>>): Option<seq<Cell>> {
    if rest.None? then None else Some(first + rest.value)
  }

  lemma AheadNone(rest: Option<seq<Cell>>, cells: seq<Cell>)
    ensures Ahead([], rest) == rest && Ahead(cells, Some([])) == Some(cells)
  {
    if rest.Some? { assert [] + rest.value == rest.value; }
    assert cells + [] == cells;
  }

  lemma AheadMore(first: seq<Cell>, c: Cell, rest: Option<seq<Cell>>)
    ensures Ahead(first + [c], rest) == Ahead(first, if rest.Some? then Some([c] + rest.value) else None)
  {
    if rest.Some? { assert first + [c] + rest.value == first + ([c] + rest.value); }
  }

  method ParseBlob(b: Bytes) returns (r: Option<Metric>)
    ensures r == Parse(b)
  {
    hide Field, CellsAt;
    if |b| != 124 { return None; }
    var side, pos := TakeField(b, 0, 2);
    if side.None? || !IconSide(side.value) { return None; }
    var coord := side.value - side.value / 8;
    var color, gray, bright, dark, edge, noedge;
    color, pos := TakeCells(b, pos, coord, 3, Some(4072));
    if color.None? { return None; }
    gray, pos := TakeCells(b, pos, coord, 3, Some(4072));
    if gray.None? { return None; }
    bright, pos := TakeCells(b, pos, coord, 2, None);
    if bright.None? { return None; }
    dark, pos := TakeCells(b, pos, coord, 2, None);
    if dark.None? { return None; }
    edge, pos := TakeCells(b, pos, coord, 2, None);
    if edge.None? { return None; }
    noedge, pos := TakeCells(b, pos, coord, 2, None);
    if noedge.None? { return None; }
    var rsum, gsum, bsum, ccount;
    rsum, pos := TakeField(b, pos, 2);
    if rsum.None? { return None; }
    gsum, pos := TakeField(b, pos, 2);
    if gsum.None? { return None; }
    bsum, pos := TakeField(b, pos, 2);
    if bsum.None? { return None; }
    ccount, pos := TakeField(b, pos, 2);
    if ccount.None? { return None; }
    if rsum.value + gsum.value + bsum.value > 103 || ccount.value > 100 { return None; }
    r := Some(Metric(side.value, color.value, gray.value, bright.value, dark.value, edge.value, noedge.value,
                     rsum.value, gsum.value, bsum.value, ccount.value));
  }

  // ---------------------------------------------------------------- matching

  /** How alike two cells are, at most 100, or None if they are too far apart. */
  function CellScore(a: Cell, b: Cell, distLim: nat, avgLim: nat): (r: Option<nat>)
    ensures r.Some? ==> r.value <= 100
  {
    var dist := Distance(Apart(a.x, b.x), Apart(a.y, b.y));
    if dist > distLim || Apart(a.avg, b.avg) > avgLim then None
    else Some(Max(100 - Penalty(dist, distLim), 0))
  }

  function Distance(dx: nat, dy: nat): nat { Root(dx * dx + dy * dy) }

  function Penalty(dist: nat, distLim: nat): nat { Div(dist * 60, Max(distLim, 1)) }

  /** The best score of a cell against any of `b`. */
  function BestScore(a: Cell, b: seq<Cell>, distLim: nat, avgLim: nat): (r: nat)
    ensures r <= 100
  {
    if b == [] then 0
    else
      var rest, s := BestScore(a, b[..|b| - 1], distLim, avgLim), CellScore(a, b[|b| - 1], distLim, avgLim);
      if s.Some? && s.value > rest then s.value else rest
  }

  function Scores(a: seq<Cell>, b: seq<Cell>, distLim: nat, avgLim: nat): (r: nat)
    ensures r <= 100 * |a|
  {
    if a == [] then 0 else Scores(a[..|a| - 1], b, distLim, avgLim) + BestScore(a[|a| - 1], b, distLim, avgLim)
  }

  method BestOf(a: Cell, b: seq<Cell>, distLim: nat, avgLim: nat) returns (best: nat)
    ensures best == BestScore(a, b, distLim, avgLim)
  {
    hide CellScore;
    best := 0;
    assert b[..|b|] == b;
    for j := 0 to |b|
      invariant best == BestScore(a, b[..j], distLim, avgLim)
    {
      assert b[..j + 1][..j] == b[..j];
      var score := CellScore(a, b[j], distLim, avgLim);
      if score.Some? && score.value > best { best := score.value; }
    }
  }

  method MatchPoint(side: nat, a: seq<Cell>, b: seq<Cell>, max: nat) returns (r: nat)
    requires a != []
    ensures r == Match(side, a, b, max)
  {
    hide BestScore, Div;
    var distLim, avgLim := side / 4 * 3 / 4, max / 5;
    var total := 0;
    assert a[..|a|] == a;
    for i := 0 to |a|
      invariant total == Scores(a[..i], b, distLim, avgLim)
    {
      assert a[..i + 1][..i] == a[..i];
      var best := BestOf(a[i], b, distLim, avgLim);
      total := total + best;
    }
    r := Div(total, |a|);
  }

  /** The mean over `a` of the best score against `b`. */
  function Match(side: nat, a: seq<Cell>, b: seq<Cell>, max: nat): nat
    requires a != []
  {
    Div(Scores(a, b, side / 4 * 3 / 4, max / 5), |a|)
  }

  lemma SameCell(c: Cell, distLim: nat, avgLim: nat)
    ensures CellScore(c, c, distLim, avgLim) == Some(100)
  {
    hide Distance, Penalty;
    NoDistance();
    NoPenalty(distLim);
  }

  lemma NoDistance()
    ensures Distance(0, 0) == 0
  {}

  lemma NoPenalty(distLim: nat)
    ensures Penalty(0, distLim) == 0
  {}

  lemma {:induction false} BestOfSame(c: Cell, b: seq<Cell>, distLim: nat, avgLim: nat)
    requires c in b
    ensures BestScore(c, b, distLim, avgLim) == 100
  {
    hide CellScore;
    var n := |b| - 1;
    if c == b[n] {
      SameCell(c, distLim, avgLim);
    } else {
      assert c in b[..n];
      BestOfSame(c, b[..n], distLim, avgLim);
    }
  }

  lemma {:induction false} ScoresOfSame(a: seq<Cell>, b: seq<Cell>, distLim: nat, avgLim: nat)
    requires forall c :: c in a ==> c in b
    ensures Scores(a, b, distLim, avgLim) == 100 * |a|
  {
    hide BestScore;
    if a != [] {
      ScoresOfSame(a[..|a| - 1], b, distLim, avgLim);
      BestOfSame(a[|a| - 1], b, distLim, avgLim);
    }
  }

  lemma MatchOfSame(side: nat, a: seq<Cell>, max: nat)
    requires a != []
    ensures Match(side, a, a, max) == 100
  {
    hide Scores, Div;
    ScoresOfSame(a, a, side / 4 * 3 / 4, max / 5);
    WholeShare(|a|);
    ShareAtMost(100, |a|, |a|);
  }

  function SpreadSub(x: nat, y: nat): nat { Max(100 - Min(10 * Apart(x, y), 100), 0) }

  predicate Shaped(m: Metric) {
    |m.color| == |m.gray| == |m.bright| == |m.dark| == |m.edge| == |m.noedge| == 3
  }

  /** What a colour icon of a side has to score: 32-bit arithmetic that wraps. */
  function PositiveMatch(side: nat): nat {
    var es := (side / 8 - 2) % U32;
    (64 + 4 * ((2 - es) % U32)) % U32
  }

  /** Whether icon `a` is the one signature `b` describes. */
  predicate Matches(a: Metric, b: Metric)
    requires Shaped(a) && Shaped(b)
  {
    var side := a.side;
    var bright, dark := Match(side, a.bright, b.bright, 255), Match(side, a.dark, b.dark, 255);
    if a.ccount == 0 && b.ccount == 0 then
      var edge6 := Match(side, a.edge + a.color, b.edge + b.color, 255);
      var noedge6 := Match(side, a.noedge + a.gray, b.noedge + b.gray, 255);
      (bright + dark + edge6 * 2 + noedge6) / 6 >= 70
    else
      var edge, noedge := Match(side, a.edge, b.edge, 255), Match(side, a.noedge, b.noedge, 255);
      var both := a.ccount != 0 && b.ccount != 0;
      var color := if both then Match(side, a.color, b.color, 4072) else 0;
      var gray := if both then Match(side, a.gray, b.gray, 4072) else 0;
      var colors := (SpreadSub(a.rsum, b.rsum) + SpreadSub(a.gsum, b.gsum) + SpreadSub(a.bsum, b.bsum) + SpreadSub(a.ccount, b.ccount)) / 4;
      (color + (gray + bright + noedge) * 2 / 3 + dark + edge + colors) / 6 >= PositiveMatch(side)
  }

  lemma EasyScores(side: nat, x: nat)
    ensures SpreadSub(x, x) == 100 && (IconSide(side) ==> PositiveMatch(side) <= 72)
  {}

  /** A metric matches itself, whatever is in it. */
  lemma SelfMatches(m: Metric)
    requires Shaped(m) && IconSide(m.side)
    ensures Matches(m, m)
  {
    hide Match, SpreadSub, PositiveMatch;
    MatchOfSame(m.side, m.bright, 255);
    MatchOfSame(m.side, m.dark, 255);
    EasyScores(m.side, m.rsum);
    EasyScores(m.side, m.gsum);
    EasyScores(m.side, m.bsum);
    EasyScores(m.side, m.ccount);
    if m.ccount == 0 {
      MatchOfSame(m.side, m.edge + m.color, 255);
      MatchOfSame(m.side, m.noedge + m.gray, 255);
    } else {
      MatchOfSame(m.side, m.edge, 255);
      MatchOfSame(m.side, m.noedge, 255);
      MatchOfSame(m.side, m.color, 4072);
      MatchOfSame(m.side, m.gray, 4072);
    }
  }

  /** Every icon matches the signature written from it. */
  lemma MatchesOwnSignature(side: nat, pixels: seq<nat>, edges: seq<nat>, m: Metric)
    requires IsMetric(side, pixels, edges, m)
    ensures Shaped(m) && Parse(Print(m)).Some? && Shaped(Parse(Print(m)).value) && Matches(m, Parse(Print(m)).value)
  {
    hide Parse, Print, IsMetric, Matches;
    MetricRoundTrip(side, pixels, edges, m);
    MetricInRange(side, pixels, edges, m);
    SelfMatches(m);
  }
}
