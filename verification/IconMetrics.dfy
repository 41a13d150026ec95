/** The metric of an icon: colour statistics, and for each of several quantities the windows of the
    icon where it is most or least, chosen one after the other so that none overlap. */
module IconMetrics {
  import opened ByteSeq
  import opened Arith

  // ---------------------------------------------------------------- one pixel

  function Red(px: nat): (r: nat) ensures r <= 255 { px / 65536 % 256 }
  function Green(px: nat): (r: nat) ensures r <= 255 { px / 256 % 256 }
  function Blue(px: nat): (r: nat) ensures r <= 255 { px % 256 }

  function Light(px: nat): (v: nat) ensures v <= 255 { Max(Max(Red(px), Green(px)), Blue(px)) }

  function Delta(px: nat): (d: nat)
    ensures d <= Light(px)
  {
    Light(px) - Min(Min(Red(px), Green(px)), Blue(px))
  }

  function Saturation(px: nat): (s: nat)
    ensures s <= 255
  {
    if Delta(px) == 0 then 0 else ShareAtMost(255, Delta(px), Light(px)); Div(255 * Delta(px), Light(px))
  }

  /** The integer square root. */
  function Root(n: nat): nat { RootFrom(n, 0) }

  function RootFrom(n: nat, r: nat): nat
    decreases n - r
  {
    if (r + 1) * (r + 1) > n then r
    else
      SquareAtLeast(r + 1);
      RootFrom(n, r + 1)
  }

  lemma SquareAtLeast(r: nat)
    ensures r <= r * r
  {}

  lemma {:induction false} RootIs(n: nat, r: nat)
    requires r * r <= n
    ensures var q := RootFrom(n, r); q * q <= n < (q + 1) * (q + 1)
    decreases n - r
  {
    if (r + 1) * (r + 1) <= n {
      SquareAtLeast(r + 1);
      RootIs(n, r + 1);
    }
  }

  /** How colourful a pixel is. */
  function Colour(px: nat): nat { Root(Energy(Saturation(px), Light(px))) }

  function Energy(s: nat, v: nat): nat { s * s * v }

  /** 4072 is the largest root of a saturation squared times a lightness. */
  lemma ColourAtMost(px: nat)
    ensures Colour(px) <= 4072
  {
    hide Saturation, Light, RootFrom;
    var s, v := Saturation(px), Light(px);
    assert s * s <= 255 * 255 by { MulMono(s, s, 255); MulMono(255, s, 255); }
    assert s * s * v <= 255 * 255 * 255 by { MulMono(s * s, v, 255); MulMono(255, s * s, 255 * 255); }
    RootIs(Energy(s, v), 0);
    Square(RootFrom(Energy(s, v), 0), 4073);
  }

  lemma Square(a: nat, b: nat)
    ensures a >= b ==> a * a >= b * b
  {
    if a >= b { MulMono(a, b, a); MulMono(b, b, a); }
  }

  predicate Vivid(px: nat) { Saturation(px) > 85 && Light(px) > 85 }

  function Apart(a: nat, b: nat): nat { if a <= b then b - a else a - b }

  /** The share of a hue in a vivid pixel, from how far apart the other two channels are. */
  function Hue(px: nat, a: nat, b: nat): int {
    if Vivid(px) && Delta(px) > 0 then 100 - Div(100 * Apart(a, b), Delta(px)) else 0
  }

  function RedHue(px: nat): (h: nat) { HueRange(px); Hue(px, Green(px), Blue(px)) }
  function GreenHue(px: nat): (h: nat) { HueRange(px); Hue(px, Red(px), Blue(px)) }
  function BlueHue(px: nat): (h: nat) { HueRange(px); Hue(px, Red(px), Green(px)) }

  lemma HueRange(px: nat)
    ensures Hue(px, Green(px), Blue(px)) >= 0 && Hue(px, Red(px), Blue(px)) >= 0 && Hue(px, Red(px), Green(px)) >= 0
    ensures Vivid(px) ==> Delta(px) > 0
  {
    hide Red, Green, Blue;
    if Vivid(px) && Delta(px) > 0 {
      ShareAtMost(100, Apart(Green(px), Blue(px)), Delta(px));
      ShareAtMost(100, Apart(Red(px), Blue(px)), Delta(px));
      ShareAtMost(100, Apart(Red(px), Green(px)), Delta(px));
    }
  }

  /** One pair of channels is the whole spread apart and the other two pairs make it up between them,
      so the three shares come to 100, or 101 when the divisions lose one. */
  lemma HuesOfPixel(px: nat)
    ensures RedHue(px) + GreenHue(px) + BlueHue(px) <= if Vivid(px) then 101 else 0
  {
    hide Red, Green, Blue, Saturation;
    HueRange(px);
    if Vivid(px) {
      var r, g, b, d := Red(px), Green(px), Blue(px), Delta(px);
      Shares(Apart(g, b), Apart(r, b), Apart(r, g), d);
    }
  }

  lemma Shares(a: nat, b: nat, c: nat, d: nat)
    requires d > 0 && ((a == d && b + c == d) || (b == d && a + c == d) || (c == d && a + b == d))
    ensures Div(100 * a, d) + Div(100 * b, d) + Div(100 * c, d) >= 199
  {
    hide Div;
    WholeShare(d);
    if a == d { SharePair(b, c, d); } else if b == d { SharePair(a, c, d); } else { SharePair(a, b, d); }
  }

  lemma WholeShare(d: nat)
    requires d > 0
    ensures Div(100 * d, d) >= 100
  {
    hide Div;
    var q := Div(100 * d, d);
    DivIs(100 * d, d);
    assert (q + 1) * d == q * d + d;
    Cancel(100, d, q + 1);
  }

  lemma SharePair(a: nat, b: nat, d: nat)
    requires d > 0 && a + b == d
    ensures Div(100 * a, d) + Div(100 * b, d) >= 99
  {
    hide Div;
    var p, q := Div(100 * a, d), Div(100 * b, d);
    DivIs(100 * a, d);
    DivIs(100 * b, d);
    assert (p + q + 2) * d == p * d + d + (q * d + d);
    Cancel(100, d, p + q + 2);
  }

  // ---------------------------------------------------------------- all pixels

  function Total(pixels: seq<nat>, f: nat -> nat): nat {
    if pixels == [] then 0 else Total(pixels[..|pixels| - 1], f) + f(pixels[|pixels| - 1])
  }

  lemma TotalPush(pixels: seq<nat>, f: nat -> nat, i: nat)
    requires i < |pixels|
    ensures Total(pixels[..i + 1], f) == Total(pixels[..i], f) + f(pixels[i])
  {
    assert pixels[..i + 1][..i] == pixels[..i];
  }

  function One(px: nat): nat { if Vivid(px) then 1 else 0 }

  lemma {:induction false} HuesOfAll(pixels: seq<nat>)
    ensures Total(pixels, RedHue) + Total(pixels, GreenHue) + Total(pixels, BlueHue) <= 101 * Total(pixels, One)
    ensures Total(pixels, One) <= |pixels|
  {
    hide RedHue, GreenHue, BlueHue, Vivid;
    if pixels != [] {
      HuesOfAll(pixels[..|pixels| - 1]);
      HuesOfPixel(pixels[|pixels| - 1]);
    }
  }

  /** The mean hues and the percentage of vivid pixels, nothing for an icon with few. */
  datatype Stats = Stats(rsum: nat, gsum: nat, bsum: nat, ccount: nat, bwonly: bool)

  function StatsOf(pixels: seq<nat>): Stats
    requires pixels != []
  {
    var n := Total(pixels, One);
    if n > 0 && Div(n * 100, |pixels|) > 5 then
      Stats(Div(Total(pixels, RedHue), n), Div(Total(pixels, GreenHue), n), Div(Total(pixels, BlueHue), n), Div(n * 100, |pixels|), false)
    else Stats(0, 0, 0, 0, true)
  }

  lemma StatsInRange(pixels: seq<nat>)
    requires pixels != []
    ensures var s := StatsOf(pixels); s.rsum + s.gsum + s.bsum <= 101 && s.ccount <= 100
  {
    hide Total, RedHue, GreenHue, BlueHue, One, Div;
    HuesOfAll(pixels);
    var n := Total(pixels, One);
    ShareAtMost(100, n, |pixels|);
    assert n * 100 == 100 * n;
    if n > 0 { MeansAtMost(Total(pixels, RedHue), Total(pixels, GreenHue), Total(pixels, BlueHue), n, 101); }
  }

  lemma MeansAtMost(a: nat, b: nat, c: nat, n: nat, m: nat)
    requires n > 0 && a + b + c <= m * n
    ensures Div(a, n) + Div(b, n) + Div(c, n) <= m
  {
    hide Div;
    var p, q, r := Div(a, n), Div(b, n), Div(c, n);
    DivIs(a, n);
    DivIs(b, n);
    DivIs(c, n);
    SumBelow(p, q, r, n, m);
  }

  lemma SumBelow(p: nat, q: nat, r: nat, n: nat, m: nat)
    requires n > 0 && p * n + q * n + r * n <= m * n
    ensures p + q + r <= m
  {
    assert (p + q + r) * n == p * n + q * n + r * n && (m + 1) * n == m * n + n;
    Cancel(p + q + r, n, m + 1);
  }

  // ---------------------------------------------------------------- windows

  /** Where row `y`, column `x` of an image `w` wide is kept. */
  function Flat(w: nat, x: nat, y: nat): nat { y * w + x }

  lemma FlatBound(w: nat, h: nat, x: nat, y: nat)
    requires x < w && y < h
    ensures Flat(w, x, y) < h * w
  {
    assert (y + 1) * w == y * w + w;
    MulMono(w, y + 1, h);
  }

  lemma FlatDistinct(w: nat, x: nat, y: nat, x': nat, y': nat)
    requires x < w && x' < w && (x != x' || y != y')
    ensures Flat(w, x, y) != Flat(w, x', y')
  {
    if y < y' { FlatBound(w, y', x, y); } else if y' < y { FlatBound(w, y, x', y'); }
  }

  function At(img: seq<nat>, w: nat, x: nat, y: nat): nat {
    if Flat(w, x, y) < |img| then img[Flat(w, x, y)] else 0
  }

  function RowSum(img: seq<nat>, side: nat, x: nat, y: nat, n: nat): nat {
    if n == 0 then 0 else RowSum(img, side, x, y, n - 1) + At(img, side, x + n - 1, y)
  }

  function BlockSum(img: seq<nat>, side: nat, x: nat, y: nat, k: nat, n: nat): nat {
    if n == 0 then 0 else BlockSum(img, side, x, y, k, n - 1) + RowSum(img, side, x, y + n - 1, k)
  }

  predicate AllAtMost(img: seq<nat>, m: nat) { forall i :: 0 <= i < |img| ==> img[i] <= m }

  lemma {:induction false} RowAtMost(img: seq<nat>, side: nat, x: nat, y: nat, n: nat, m: nat)
    requires AllAtMost(img, m)
    ensures RowSum(img, side, x, y, n) <= m * n
  {
    if n > 0 {
      RowAtMost(img, side, x, y, n - 1, m);
      assert m * n == m * (n - 1) + m;
    }
  }

  lemma {:induction false} BlockAtMost(img: seq<nat>, side: nat, x: nat, y: nat, k: nat, n: nat, m: nat)
    requires AllAtMost(img, m)
    ensures BlockSum(img, side, x, y, k, n) <= m * k * n
  {
    if n > 0 {
      BlockAtMost(img, side, x, y, k, n - 1, m);
      RowAtMost(img, side, x, y + n - 1, k, m);
      assert m * k * n == m * k * (n - 1) + m * k;
    }
  }

  /** The sum over each window, rows of windows one after the other. */
  ghost predicate IsField(field: seq<nat>, img: seq<nat>, side: nat, k: nat, span: nat) {
    |field| == span * span && forall x, y :: 0 <= x < span && 0 <= y < span ==> At(field, span, x, y) == BlockSum(img, side, x, y, k, k)
  }

  method WindowSum(img: seq<nat>, side: nat, k: nat, x: nat, y: nat) returns (sum: nat)
    requires |img| == side * side && x + k <= side && y + k <= side
    ensures sum == BlockSum(img, side, x, y, k, k)
  {
    hide Flat;
    sum := 0;
    for dy := 0 to k
      invariant sum == BlockSum(img, side, x, y, k, dy)
    {
      ghost var before := sum;
      for dx := 0 to k
        invariant sum == before + RowSum(img, side, x, y + dy, dx)
      {
        FlatBound(side, side, x + dx, y + dy);
        sum := sum + img[Flat(side, x + dx, y + dy)];
      }
    }
  }

  method WindowSums(img: seq<nat>, side: nat, k: nat) returns (field: seq<nat>)
    requires |img| == side * side && k <= side
    ensures IsField(field, img, side, k, side - k + 1)
  {
    hide BlockSum, Flat;
    var span := side - k + 1;
    var sums := new nat[span * span](i => 0);
    for wy := 0 to span
      invariant Filled(sums[..], img, side, k, span, 0, wy)
    {
      for wx := 0 to span
        invariant Filled(sums[..], img, side, k, span, wx, wy)
      {
        var s := WindowSum(img, side, k, wx, wy);
        FlatBound(span, span, wx, wy);
        FillOne(sums[..], img, side, k, span, wx, wy, s);
        sums[Flat(span, wx, wy)] := s;
      }
    }
    field := sums[..];
  }

  predicate Before(x: nat, y: nat, wx: nat, wy: nat) { y < wy || (y == wy && x < wx) }

  ghost predicate Filled(field: seq<nat>, img: seq<nat>, side: nat, k: nat, span: nat, wx: nat, wy: nat) {
    && |field| == span * span
    && forall x, y :: 0 <= x < span && 0 <= y < span && Before(x, y, wx, wy) ==> At(field, span, x, y) == BlockSum(img, side, x, y, k, k)
  }

  lemma FillOne(field: seq<nat>, img: seq<nat>, side: nat, k: nat, span: nat, wx: nat, wy: nat, s: nat)
    requires wx < span && wy < span && Filled(field, img, side, k, span, wx, wy) && s == BlockSum(img, side, wx, wy, k, k)
    ensures Flat(span, wx, wy) < |field|
    ensures Filled(field[Flat(span, wx, wy) := s], img, side, k, span, wx + 1, wy)
  {
    hide Flat, BlockSum;
    FlatBound(span, span, wx, wy);
    var more := field[Flat(span, wx, wy) := s];
    forall x, y | 0 <= x < span && 0 <= y < span && Before(x, y, wx + 1, wy)
      ensures At(more, span, x, y) == BlockSum(img, side, x, y, k, k)
    {
      FlatBound(span, span, x, y);
      if x != wx || y != wy { FlatDistinct(span, x, y, wx, wy); }
    }
  }

  // ---------------------------------------------------------------- greedy choice

  datatype Cell = Cell(avg: nat, x: nat, y: nat)

  const NO_CELL: Cell := Cell(0, 0, 0)

  /** Whether the windows of size `k` at `c` and at (`x`, `y`) share a pixel. */
  predicate Meets(k: nat, c: Cell, x: nat, y: nat) {
    x + k > c.x && x < c.x + k && y + k > c.y && y < c.y + k
  }

  predicate Overlaps(k: nat, chosen: seq<Cell>, x: nat, y: nat) {
    exists i :: 0 <= i < |chosen| && Meets(k, chosen[i], x, y)
  }

  /** A window that may still be chosen; the last column is never looked at. */
  predicate Candidate(span: nat, k: nat, chosen: seq<Cell>, x: nat, y: nat) {
    x + 1 < span && y < span && !Overlaps(k, chosen, x, y)
  }

  predicate Beats(max: bool, a: nat, b: nat) { if max then a > b else a < b }

  /** The candidate `c` is extreme among those before (`wx`, `wy`), the first of those as extreme. */
  ghost predicate BestBefore(field: seq<nat>, span: nat, k: nat, max: bool, chosen: seq<Cell>, c: Cell, wx: nat, wy: nat) {
    && Candidate(span, k, chosen, c.x, c.y) && Before(c.x, c.y, wx, wy) && c.avg == At(field, span, c.x, c.y)
    && forall x, y | Candidate(span, k, chosen, x, y) && Before(x, y, wx, wy) ::
         && !Beats(max, At(field, span, x, y), c.avg)
         && (Before(x, y, c.x, c.y) ==> At(field, span, x, y) != c.avg)
  }

  ghost predicate NoneBefore(span: nat, k: nat, chosen: seq<Cell>, wx: nat, wy: nat) {
    forall x, y :: Candidate(span, k, chosen, x, y) ==> !Before(x, y, wx, wy)
  }

  ghost predicate Scanned(field: seq<nat>, span: nat, k: nat, max: bool, chosen: seq<Cell>, best: Option<Cell>, wx: nat, wy: nat) {
    match best
    case None => NoneBefore(span, k, chosen, wx, wy)
    case Some(c) => BestBefore(field, span, k, max, chosen, c, wx, wy)
  }

  /** The cells one gets by taking, up to `n` times, the first most extreme window that overlaps none
      taken before. */
  ghost predicate Greedy(field: seq<nat>, span: nat, k: nat, max: bool, n: nat, cells: seq<Cell>) {
    && |cells| <= n
    && (forall i :: 0 <= i < |cells| ==> BestBefore(field, span, k, max, cells[..i], cells[i], 0, span))
    && (|cells| < n ==> NoneBefore(span, k, cells, 0, span))
  }

  lemma ScanOne(field: seq<nat>, span: nat, k: nat, max: bool, chosen: seq<Cell>, best: Option<Cell>, wx: nat, wy: nat)
    requires wx + 1 < span && wy < span && Scanned(field, span, k, max, chosen, best, wx, wy)
    ensures var val := At(field, span, wx, wy);
            var best' := if Overlaps(k, chosen, wx, wy) then best
                         else if best.None? || Beats(max, val, best.value.avg) then Some(Cell(val, wx, wy))
                         else best;
            Scanned(field, span, k, max, chosen, best', wx + 1, wy)
  {
    hide At, Overlaps;
  }

  lemma ScanRow(field: seq<nat>, span: nat, k: nat, max: bool, chosen: seq<Cell>, best: Option<Cell>, wx: nat, wy: nat)
    requires wx + 1 >= span && Scanned(field, span, k, max, chosen, best, wx, wy)
    ensures Scanned(field, span, k, max, chosen, best, 0, wy + 1)
  {
    hide At, Overlaps;
  }

  method PickExtreme(field: seq<nat>, span: nat, k: nat, max: bool, n: nat) returns (chosen: seq<Cell>)
    requires |field| == span * span
    ensures Greedy(field, span, k, max, n, chosen)
  {
    hide Scanned, BestBefore, NoneBefore, Flat;
    chosen := [];
    for i := 0 to n
      invariant |chosen| == i
      invariant forall j :: 0 <= j < |chosen| ==> BestBefore(field, span, k, max, chosen[..j], chosen[j], 0, span)
    {
      var best := ScanAll(field, span, k, max, chosen);
      ScannedIs(field, span, k, max, chosen, best);
      match best {
        case None => return;
        case Some(c) =>
          ghost var was := chosen;
          chosen := chosen + [c];
          assert chosen[..i] == was && forall j :: 0 <= j < i ==> chosen[..j] == was[..j];
      }
    }
  }

  lemma ScannedIs(field: seq<nat>, span: nat, k: nat, max: bool, chosen: seq<Cell>, best: Option<Cell>)
    requires Scanned(field, span, k, max, chosen, best, 0, span)
    ensures best.Some? ==> BestBefore(field, span, k, max, chosen, best.value, 0, span)
    ensures best.None? ==> NoneBefore(span, k, chosen, 0, span)
  {}

  method ScanAll(field: seq<nat>, span: nat, k: nat, max: bool, chosen: seq<Cell>) returns (best: Option<Cell>)
    requires |field| == span * span
    ensures Scanned(field, span, k, max, chosen, best, 0, span)
  {
    hide Scanned, Flat, Overlaps;
    best := None;
    ScanNone(field, span, k, max, chosen);
    for wy := 0 to span
      invariant Scanned(field, span, k, max, chosen, best, 0, wy)
    {
      for wx := 0 to Max(span - 1, 0)
        invariant Scanned(field, span, k, max, chosen, best, wx, wy)
      {
        ScanOne(field, span, k, max, chosen, best, wx, wy);
        if !Overlaps(k, chosen, wx, wy) {
          FlatBound(span, span, wx, wy);
          var val := field[Flat(span, wx, wy)];
          if best.None? || Beats(max, val, best.value.avg) { best := Some(Cell(val, wx, wy)); }
        }
      }
      ScanRow(field, span, k, max, chosen, best, Max(span - 1, 0), wy);
    }
  }

  lemma ScanNone(field: seq<nat>, span: nat, k: nat, max: bool, chosen: seq<Cell>)
    ensures Scanned(field, span, k, max, chosen, None, 0, 0)
  {}

  /** The greedy choice is determined by the field. */
  lemma {:induction false} GreedyUnique(field: seq<nat>, span: nat, k: nat, max: bool, n: nat, a: seq<Cell>, b: seq<Cell>)
    requires Greedy(field, span, k, max, n, a) && Greedy(field, span, k, max, n, b)
    ensures a == b
  {
    hide BestBefore, NoneBefore;
    SamePrefix(field, span, k, max, n, a, b, Min(|a|, |b|));
    if |a| < |b| {
      assert b[..|a|] == a;
      NotBoth(field, span, k, max, a, b[|a|]);
    } else if |b| < |a| {
      assert a[..|b|] == b;
      NotBoth(field, span, k, max, b, a[|b|]);
    }
  }

  lemma {:induction false} SamePrefix(field: seq<nat>, span: nat, k: nat, max: bool, n: nat, a: seq<Cell>, b: seq<Cell>, j: nat)
    requires Greedy(field, span, k, max, n, a) && Greedy(field, span, k, max, n, b) && j <= |a| && j <= |b|
    ensures a[..j] == b[..j]
  {
    hide BestBefore, NoneBefore;
    if j > 0 {
      SamePrefix(field, span, k, max, n, a, b, j - 1);
      BestUnique(field, span, k, max, a[..j - 1], a[j - 1], b[j - 1]);
      assert a[..j] == a[..j - 1] + [a[j - 1]] && b[..j] == b[..j - 1] + [b[j - 1]];
    }
  }

  lemma BestUnique(field: seq<nat>, span: nat, k: nat, max: bool, chosen: seq<Cell>, c: Cell, d: Cell)
    requires BestBefore(field, span, k, max, chosen, c, 0, span) && BestBefore(field, span, k, max, chosen, d, 0, span)
    ensures c == d
  {
    hide At, Overlaps;
    assert !Before(c.x, c.y, d.x, d.y) && !Before(d.x, d.y, c.x, c.y);
  }

  lemma NotBoth(field: seq<nat>, span: nat, k: nat, max: bool, chosen: seq<Cell>, c: Cell)
    requires BestBefore(field, span, k, max, chosen, c, 0, span)
    ensures !NoneBefore(span, k, chosen, 0, span)
  {}

  /** No two chosen windows overlap, and a later one is never more extreme. */
  lemma GreedyOrder(field: seq<nat>, span: nat, k: nat, max: bool, n: nat, cells: seq<Cell>, i: nat, j: nat)
    requires Greedy(field, span, k, max, n, cells) && i < j < |cells|
    ensures !Meets(k, cells[i], cells[j].x, cells[j].y) && !Beats(max, cells[j].avg, cells[i].avg)
  {
    hide At;
    var c := cells[j];
    assert BestBefore(field, span, k, max, cells[..j], c, 0, span) && cells[..j][i] == cells[i];
    assert BestBefore(field, span, k, max, cells[..i], cells[i], 0, span);
    assert Candidate(span, k, cells[..i], c.x, c.y) by {
      assert forall m :: 0 <= m < i ==> cells[..i][m] == cells[..j][m];
    }
  }

  // ---------------------------------------------------------------- the metric

  datatype Metric = Metric(
    side: nat,
    color: seq<Cell>,
    gray: seq<Cell>,
    bright: seq<Cell>,
    dark: seq<Cell>,
    edge: seq<Cell>,
    noedge: seq<Cell>,
    rsum: nat,
    gsum: nat,
    bsum: nat,
    ccount: nat)

  /** The windows chosen for each quantity. */
  datatype Picks = Picks(color: seq<Cell>, gray: seq<Cell>, bright: seq<Cell>, dark: seq<Cell>, edge: seq<Cell>, noedge: seq<Cell>)

  function Nth(cells: seq<Cell>, i: nat): Cell { if i < |cells| then cells[i] else NO_CELL }

  function Scaled(c: Cell, k2: nat): Cell
    requires k2 > 0
  {
    Cell(Div(c.avg, k2), c.x, c.y)
  }

  /** Three cells from the `from`-th on, sums made means. */
  function Three(cells: seq<Cell>, from: nat, k2: nat): seq<Cell>
    requires k2 > 0
  {
    [Scaled(Nth(cells, from), k2), Scaled(Nth(cells, from + 1), k2), Scaled(Nth(cells, from + 2), k2)]
  }

  /** The cells of `avgs` where those of `places` are. */
  function Placed(avgs: seq<Cell>, places: seq<Cell>): seq<Cell>
    requires |avgs| == |places| == 3
  {
    [places[0].(avg := avgs[0].avg), places[1].(avg := avgs[1].avg), places[2].(avg := avgs[2].avg)]
  }

  /** An icon with little colour has its fourth to sixth edge windows stand for colour and gray, gray
      where the edge windows are. */
  function Assemble(side: nat, s: Stats, p: Picks, k2: nat): Metric
    requires k2 > 0
  {
    var color := if s.bwonly then Three(p.edge, 3, k2) else Three(p.color, 0, k2);
    var gray := if s.bwonly then Placed(Three(p.noedge, 3, k2), Three(p.edge, 3, k2)) else Three(p.gray, 0, k2);
    Metric(side, color, gray, Three(p.bright, 0, k2), Three(p.dark, 0, k2), Three(p.edge, 0, k2), Three(p.noedge, 0, k2),
           s.rsum, s.gsum, s.bsum, s.ccount)
  }

  predicate IconSide(side: nat) { side == 16 || side == 24 || side == 32 }

  /** The pixels of a window. */
  function WindowArea(side: nat): (a: nat)
    requires IconSide(side)
    ensures a > 0
  {
    side / 4 * (side / 4)
  }

  function Mapped(pixels: seq<nat>, f: nat -> nat): seq<nat> { seq(|pixels|, i requires 0 <= i < |pixels| => f(pixels[i])) }

  function LowByte(v: nat): nat { v % 256 }

  /** The greedy choices for an image of `side`, both extremes. */
  ghost predicate Extremes(img: seq<nat>, side: nat, n: nat, most: seq<Cell>, least: seq<Cell>) {
    var k := side / 4;
    var span := side - k + 1;
    exists field :: IsField(field, img, side, k, span) && Greedy(field, span, k, true, n, most) && Greedy(field, span, k, false, n, least)
  }

  ghost predicate PicksOf(side: nat, pixels: seq<nat>, edges: seq<nat>, bwonly: bool, p: Picks) {
    && Extremes(Mapped(pixels, Colour), side, 3, p.color, p.gray)
    && Extremes(Mapped(pixels, Light), side, 3, p.bright, p.dark)
    && Extremes(Mapped(edges, LowByte), side, if bwonly then 6 else 3, p.edge, p.noedge)
  }

  /** `m` is the metric of the icon. */
  ghost predicate IsMetric(side: nat, pixels: seq<nat>, edges: seq<nat>, m: Metric) {
    && IconSide(side) && |pixels| == side * side
    && var s := StatsOf(pixels);
       exists p :: PicksOf(side, pixels, edges, s.bwonly, p) && m == Assemble(side, s, p, WindowArea(side))
  }

  /** Windows are fully determined, so an icon has one metric. */
  lemma MetricUnique(side: nat, pixels: seq<nat>, edges: seq<nat>, m: Metric, m': Metric)
    requires IsMetric(side, pixels, edges, m) && IsMetric(side, pixels, edges, m')
    ensures m == m'
  {
    hide Extremes, StatsOf, Mapped, Assemble;
    var s := StatsOf(pixels);
    var p :| PicksOf(side, pixels, edges, s.bwonly, p) && m == Assemble(side, s, p, WindowArea(side));
    var q :| PicksOf(side, pixels, edges, s.bwonly, q) && m' == Assemble(side, s, q, WindowArea(side));
    ExtremesUnique(Mapped(pixels, Colour), side, 3, p.color, p.gray, q.color, q.gray);
    ExtremesUnique(Mapped(pixels, Light), side, 3, p.bright, p.dark, q.bright, q.dark);
    ExtremesUnique(Mapped(edges, LowByte), side, if s.bwonly then 6 else 3, p.edge, p.noedge, q.edge, q.noedge);
  }

  lemma ExtremesUnique(img: seq<nat>, side: nat, n: nat, a: seq<Cell>, b: seq<Cell>, a': seq<Cell>, b': seq<Cell>)
    requires Extremes(img, side, n, a, b) && Extremes(img, side, n, a', b')
    ensures a == a' && b == b'
  {
    hide IsField, Greedy;
    var k := side / 4;
    var span := side - k + 1;
    var f :| IsField(f, img, side, k, span) && Greedy(f, span, k, true, n, a) && Greedy(f, span, k, false, n, b);
    var g :| IsField(g, img, side, k, span) && Greedy(g, span, k, true, n, a') && Greedy(g, span, k, false, n, b');
    FieldUnique(f, g, img, side, k, span);
    GreedyUnique(f, span, k, true, n, a, a');
    GreedyUnique(f, span, k, false, n, b, b');
  }

  lemma FieldUnique(f: seq<nat>, g: seq<nat>, img: seq<nat>, side: nat, k: nat, span: nat)
    requires IsField(f, img, side, k, span) && IsField(g, img, side, k, span) && span > 0
    ensures f == g
  {
    hide BlockSum;
    forall i | 0 <= i < |f| ensures f[i] == g[i] {
      Unflat(span, i);
      var x, y := i % span, i / span;
      assert At(f, span, x, y) == At(g, span, x, y);
    }
  }

  lemma Unflat(w: nat, i: nat)
    requires w > 0 && i < w * w
    ensures i / w < w && Flat(w, i % w, i / w) == i
  {
    DivBelow(i, w, w);
  }

  lemma DivBelow(i: nat, w: nat, h: nat)
    requires w > 0 && i < h * w
    ensures i / w < h && i / w * w + i % w == i
  {
    if i / w >= h { MulMono(w, h, i / w); }
  }

  method PixelPass(pixels: seq<nat>) returns (csqv: seq<nat>, vval: seq<nat>, s: Stats)
    requires pixels != []
    ensures csqv == Mapped(pixels, Colour) && vval == Mapped(pixels, Light) && s == StatsOf(pixels)
  {
    hide Colour, Total, RedHue, GreenHue, BlueHue, Light, Div;
    csqv, vval := [], [];
    var rsum, gsum, bsum, ccount := 0, 0, 0, 0;
    TotalNone(pixels);
    for i := 0 to |pixels|
      invariant csqv == Mapped(pixels[..i], Colour) && vval == Mapped(pixels[..i], Light)
      invariant rsum == Total(pixels[..i], RedHue) && gsum == Total(pixels[..i], GreenHue) && bsum == Total(pixels[..i], BlueHue)
      invariant ccount == Total(pixels[..i], One)
    {
      var px := pixels[i];
      TotalPush(pixels, RedHue, i);
      TotalPush(pixels, GreenHue, i);
      TotalPush(pixels, BlueHue, i);
      TotalPush(pixels, One, i);
      csqv, vval := csqv + [Colour(px)], vval + [Light(px)];
      if Vivid(px) {
        ccount := ccount + 1;
        rsum, gsum, bsum := rsum + RedHue(px), gsum + GreenHue(px), bsum + BlueHue(px);
      } else {
        HuesOfPixel(px);
      }
    }
    assert pixels[..|pixels|] == pixels;
    NonePercent(|pixels|);
    if Div(ccount * 100, |pixels|) > 5 {
      s := Stats(Div(rsum, ccount), Div(gsum, ccount), Div(bsum, ccount), Div(ccount * 100, |pixels|), false);
    } else {
      s := Stats(0, 0, 0, 0, true);
    }
  }

  lemma NonePercent(n: nat)
    requires n > 0
    ensures Div(0 * 100, n) == 0
  {}

  lemma TotalNone(pixels: seq<nat>)
    ensures forall f: nat -> nat :: Total(pixels[..0], f) == 0
  {}

  method BothExtremes(img: seq<nat>, side: nat, n: nat) returns (most: seq<Cell>, least: seq<Cell>)
    requires |img| == side * side
    ensures Extremes(img, side, n, most, least)
  {
    hide Greedy;
    var k := side / 4;
    var span := side - k + 1;
    var field := WindowSums(img, side, k);
    most := PickExtreme(field, span, k, true, n);
    least := PickExtreme(field, span, k, false, n);
  }

  /** `edges` is the edge image of the icon, one value a pixel. */
  method ComputeMetric(side: nat, pixels: seq<nat>, edges: seq<nat>) returns (m: Option<Metric>)
    requires |edges| == |pixels|
    ensures m.Some? <==> IconSide(side) && |pixels| == side * side
    ensures m.Some? ==> IsMetric(side, pixels, edges, m.value)
  {
    hide Extremes, StatsOf, Assemble;
    if !IconSide(side) || |pixels| != side * side { return None; }
    var csqv, vval, s := PixelPass(pixels);
    var color, gray := BothExtremes(csqv, side, 3);
    var bright, dark := BothExtremes(vval, side, 3);
    var edge, noedge := BothExtremes(Mapped(edges, LowByte), side, if s.bwonly then 6 else 3);
    var p := Picks(color, gray, bright, dark, edge, noedge);
    assert PicksOf(side, pixels, edges, s.bwonly, p);
    m := Some(Assemble(side, s, p, WindowArea(side)));
  }

  // ---------------------------------------------------------------- in range

  /** Three cells with bounded means, within the icon. */
  predicate CellsWithin(cells: seq<Cell>, avg: nat, coord: nat) {
    |cells| == 3 && forall i :: 0 <= i < 3 ==> cells[i].avg <= avg && cells[i].x <= coord && cells[i].y <= coord
  }

  predicate InRange(m: Metric) {
    var coord := m.side - m.side / 8;
    && IconSide(m.side)
    && CellsWithin(m.color, 4072, coord) && CellsWithin(m.gray, 4072, coord)
    && CellsWithin(m.bright, 255, coord) && CellsWithin(m.dark, 255, coord)
    && CellsWithin(m.edge, 255, coord) && CellsWithin(m.noedge, 255, coord)
    && m.rsum + m.gsum + m.bsum <= 103 && m.ccount <= 100
  }

  lemma GreedyWithin(field: seq<nat>, img: seq<nat>, side: nat, max: bool, n: nat, cells: seq<Cell>, bound: nat, i: nat)
    requires IconSide(side) && AllAtMost(img, bound)
    requires var k := side / 4; IsField(field, img, side, k, side - k + 1) && Greedy(field, side - k + 1, k, max, n, cells)
    ensures var c := Scaled(Nth(cells, i), WindowArea(side));
            c.avg <= bound && c.x <= side - side / 8 && c.y <= side - side / 8
  {
    hide BlockSum, At, Div;
    var k := side / 4;
    var span := side - k + 1;
    if i < |cells| {
      var c := cells[i];
      assert BestBefore(field, span, k, max, cells[..i], c, 0, span);
      BlockAtMost(img, side, c.x, c.y, k, k, bound);
      assert bound * k * k == bound * WindowArea(side);
      DivAtMost(c.avg, WindowArea(side), bound);
    } else {
      DivAtMost(0, WindowArea(side), bound);
    }
  }

  lemma ExtremesWithin(img: seq<nat>, side: nat, n: nat, most: seq<Cell>, least: seq<Cell>, bound: nat, from: nat)
    requires IconSide(side) && AllAtMost(img, bound) && Extremes(img, side, n, most, least)
    ensures var k2 := WindowArea(side); var coord := side - side / 8;
            CellsWithin(Three(most, from, k2), bound, coord) && CellsWithin(Three(least, from, k2), bound, coord)
  {
    hide IsField, Greedy;
    var k := side / 4;
    var span := side - k + 1;
    var f :| IsField(f, img, side, k, span) && Greedy(f, span, k, true, n, most) && Greedy(f, span, k, false, n, least);
    forall i | from <= i <= from + 2
      ensures var c, d := Scaled(Nth(most, i), WindowArea(side)), Scaled(Nth(least, i), WindowArea(side));
              c.avg <= bound && c.x <= side - side / 8 && c.y <= side - side / 8 && d.avg <= bound && d.x <= side - side / 8 && d.y <= side - side / 8
    {
      GreedyWithin(f, img, side, true, n, most, bound, i);
      GreedyWithin(f, img, side, false, n, least, bound, i);
    }
  }

  /** Every field of every metric is in the range a signature may have. */
  lemma MetricInRange(side: nat, pixels: seq<nat>, edges: seq<nat>, m: Metric)
    requires IsMetric(side, pixels, edges, m)
    ensures InRange(m) && m.rsum + m.gsum + m.bsum <= 101
  {
    hide Extremes, StatsOf, Three, CellsWithin;
    var s, k2, coord := StatsOf(pixels), WindowArea(side), side - side / 8;
    var p :| PicksOf(side, pixels, edges, s.bwonly, p) && m == Assemble(side, s, p, k2);
    StatsInRange(pixels);
    ImagesWithin(pixels, edges);
    ExtremesWithin(Mapped(pixels, Colour), side, 3, p.color, p.gray, 4072, 0);
    ExtremesWithin(Mapped(pixels, Light), side, 3, p.bright, p.dark, 255, 0);
    var n := if s.bwonly then 6 else 3;
    ExtremesWithin(Mapped(edges, LowByte), side, n, p.edge, p.noedge, 255, 0);
    ExtremesWithin(Mapped(edges, LowByte), side, n, p.edge, p.noedge, 255, 3);
    PlacedWithin(Three(p.noedge, 3, k2), Three(p.edge, 3, k2), coord);
  }

  lemma ImagesWithin(pixels: seq<nat>, edges: seq<nat>)
    ensures AllAtMost(Mapped(pixels, Colour), 4072) && AllAtMost(Mapped(pixels, Light), 255) && AllAtMost(Mapped(edges, LowByte), 255)
  {
    hide Colour;
    forall i | 0 <= i < |pixels| ensures Mapped(pixels, Colour)[i] <= 4072 { ColourAtMost(pixels[i]); }
    forall i | 0 <= i < |pixels| ensures Mapped(pixels, Light)[i] <= 255 { assert Light(pixels[i]) <= 255; }
    forall i | 0 <= i < |edges| ensures Mapped(edges, LowByte)[i] <= 255 { assert LowByte(edges[i]) <= 255; }
  }

  lemma PlacedWithin(avgs: seq<Cell>, places: seq<Cell>, coord: nat)
    requires CellsWithin(avgs, 255, coord) && CellsWithin(places, 255, coord)
    ensures CellsWithin(Placed(avgs, places), 4072, coord) && CellsWithin(places, 4072, coord)
  {}
}
