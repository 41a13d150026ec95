/** What it takes for two icons to match, and what is refused. */
module IconMatching {
  import opened ByteSeq
  import opened Arith
  import opened IconMetrics
  import opened IconReader

  // ---------------------------------------------------------------- one cell against another

  /** The square of how far apart two cells stand. */
  function Square(a: Cell, b: Cell): nat { Apart(a.x, b.x) * Apart(a.x, b.x) + Apart(a.y, b.y) * Apart(a.y, b.y) }

  /** The whole part of a square root. */
  predicate Roots(n: nat, r: nat) { r * r <= n < (r + 1) * (r + 1) }

  lemma OneRoot(n: nat, q: nat, r: nat)
    requires Roots(n, q) && Roots(n, r)
    ensures q == r
  {
    if q < r { Squares(q + 1, r); }
    if r < q { Squares(r + 1, q); }
  }

  lemma Squares(a: nat, b: nat)
    requires a <= b
    ensures a * a <= b * b
  {
    MulMono(a, a, b);
    MulMono(b, a, b);
  }

  lemma DistanceIs(a: Cell, b: Cell, r: nat)
    requires Roots(Square(a, b), r)
    ensures Distance(Apart(a.x, b.x), Apart(a.y, b.y)) == r
  {
    hide RootFrom;
    RootIs(Square(a, b), 0);
    OneRoot(Square(a, b), RootFrom(Square(a, b), 0), r);
  }

  /** Two cells compare if and only if they stand at most the limit apart, in whole pixels, and their averages
      differ by no more than theirs; the score is 100 at the same place and falls by 60 up to the limit. */
  lemma CellScoreIs(a: Cell, b: Cell, distLim: nat, avgLim: nat, r: nat)
    requires Roots(Square(a, b), r)
    ensures CellScore(a, b, distLim, avgLim).Some? <==> r <= distLim && a.avg <= b.avg + avgLim && b.avg <= a.avg + avgLim
    ensures CellScore(a, b, distLim, avgLim).Some? ==> CellScore(a, b, distLim, avgLim).value == 100 - Div(r * 60, Max(distLim, 1))
  {
    hide Distance, Div;
    DistanceIs(a, b, r);
    if r <= distLim {
      Lowered(60, r, Max(distLim, 1));
    }
  }

  lemma Lowered(k: nat, a: nat, b: nat)
    requires a <= b && b > 0
    ensures Div(a * k, b) <= k && a * k == k * a
  {
    hide Div;
    ShareAtMost(k, a, b);
  }

  /** The best score is the highest of all, or 0 where nothing compares. */
  lemma {:induction false} BestIs(a: Cell, b: seq<Cell>, distLim: nat, avgLim: nat)
    ensures var best := BestScore(a, b, distLim, avgLim);
            && (forall j :: 0 <= j < |b| && CellScore(a, b[j], distLim, avgLim).Some? ==> CellScore(a, b[j], distLim, avgLim).value <= best)
            && (best > 0 ==> exists j :: 0 <= j < |b| && CellScore(a, b[j], distLim, avgLim) == Some(best))
  {
    hide CellScore;
    if b != [] {
      var front := b[..|b| - 1];
      BestIs(a, front, distLim, avgLim);
      assert forall j :: 0 <= j < |front| ==> front[j] == b[j];
    }
  }

  // ---------------------------------------------------------------- gray icons

  /** The four means a comparison of two gray icons takes. */
  function GrayMeans(a: Metric, b: Metric): (r: (nat, nat, nat, nat))
    requires Shaped(a) && Shaped(b)
  {
    (Match(a.side, a.bright, b.bright, 255), Match(a.side, a.dark, b.dark, 255),
     Match(a.side, a.edge + a.color, b.edge + b.color, 255), Match(a.side, a.noedge + a.gray, b.noedge + b.gray, 255))
  }

  lemma MeanAtMost(side: nat, a: seq<Cell>, b: seq<Cell>, max: nat)
    requires a != []
    ensures Match(side, a, b, max) <= 100
  {
    hide Scores, Div;
    DivAtMost(Scores(a, b, side / 4 * 3 / 4, max / 5), |a|, 100);
  }

  /** No mean of a gray match is below 20, nor that of the edges below 60; and these bounds are met: with the
      other three perfect, that much is enough. */
  lemma GrayNeedsAll(a: Metric, b: Metric)
    requires Shaped(a) && Shaped(b) && a.ccount == 0 && b.ccount == 0
    ensures var (bright, dark, edge, noedge) := GrayMeans(a, b);
            && (Matches(a, b) ==> bright >= 20 && dark >= 20 && edge >= 60 && noedge >= 20)
            && (dark == edge == noedge == 100 ==> (Matches(a, b) <==> bright >= 20))
            && (bright == edge == noedge == 100 ==> (Matches(a, b) <==> dark >= 20))
            && (bright == dark == noedge == 100 ==> (Matches(a, b) <==> edge >= 60))
            && (bright == dark == edge == 100 ==> (Matches(a, b) <==> noedge >= 20))
  {
    hide Match;
    MeanAtMost(a.side, a.bright, b.bright, 255);
    MeanAtMost(a.side, a.dark, b.dark, 255);
    MeanAtMost(a.side, a.edge + a.color, b.edge + b.color, 255);
    MeanAtMost(a.side, a.noedge + a.gray, b.noedge + b.gray, 255);
  }

  // ---------------------------------------------------------------- colour icons

  /** What a colour match has to reach of 1800: more for a smaller icon. */
  function Needed(side: nat): nat { if side == 16 then 1296 else if side == 24 then 1224 else 1152 }

  /** How alike two shares are: 10 less for each by which they differ, but not below 0. */
  function Alike(x: nat, y: nat): nat { if x <= y + 10 && y <= x + 10 then 100 - 10 * Apart(x, y) else 0 }

  /** The means of seven comparisons and that of the four shares: those of colours, dark and edged windows and the
      shares count for three, those of gray, bright and edgeless windows for two. Colour and gray windows count only
      where both icons have colours. */
  lemma ColourMatches(a: Metric, b: Metric)
    requires Shaped(a) && Shaped(b) && IconSide(a.side) && !(a.ccount == 0 && b.ccount == 0)
    ensures var both := a.ccount != 0 && b.ccount != 0;
            var color := if both then Match(a.side, a.color, b.color, 4072) else 0;
            var gray := if both then Match(a.side, a.gray, b.gray, 4072) else 0;
            var threes := color + Match(a.side, a.dark, b.dark, 255) + Match(a.side, a.edge, b.edge, 255)
                          + (Alike(a.rsum, b.rsum) + Alike(a.gsum, b.gsum) + Alike(a.bsum, b.bsum) + Alike(a.ccount, b.ccount)) / 4;
            var twos := gray + Match(a.side, a.bright, b.bright, 255) + Match(a.side, a.noedge, b.noedge, 255);
            Matches(a, b) <==> 3 * threes + 2 * twos >= Needed(a.side)
  {
    hide Match;
    AlikeIs(a.rsum, b.rsum);
    AlikeIs(a.gsum, b.gsum);
    AlikeIs(a.bsum, b.bsum);
    AlikeIs(a.ccount, b.ccount);
    NeededIs(a.side);
  }

  lemma AlikeIs(x: nat, y: nat)
    ensures SpreadSub(x, y) == Alike(x, y) <= 100
  {}

  lemma NeededIs(side: nat)
    requires IconSide(side)
    ensures 18 * PositiveMatch(side) == Needed(side)
  {}

  // ---------------------------------------------------------------- what is refused

  /** How many pixels apart two windows may stand: 3, 4 or 6. */
  function Near(side: nat): nat { if side == 16 then 3 else if side == 24 then 4 else 6 }

  /** None of one icon's windows stands near any of the other's. */
  predicate FarApart(side: nat, a: seq<Cell>, b: seq<Cell>) {
    forall i, j :: 0 <= i < |a| && 0 <= j < |b| ==> Square(a[i], b[j]) >= (Near(side) + 1) * (Near(side) + 1)
  }

  lemma NotNear(side: nat, a: Cell, b: Cell, avgLim: nat)
    requires IconSide(side) && Square(a, b) >= (Near(side) + 1) * (Near(side) + 1)
    ensures CellScore(a, b, side / 4 * 3 / 4, avgLim) == None
  {
    hide RootFrom;
    RootIs(Square(a, b), 0);
    var r := RootFrom(Square(a, b), 0);
    CellScoreIs(a, b, side / 4 * 3 / 4, avgLim, r);
    if r <= Near(side) { Squares(r + 1, Near(side) + 1); }
  }

  lemma {:induction false} NoScores(side: nat, a: seq<Cell>, b: seq<Cell>, avgLim: nat)
    requires IconSide(side) && FarApart(side, a, b)
    ensures Scores(a, b, side / 4 * 3 / 4, avgLim) == 0
    decreases |a|
  {
    hide CellScore, BestScore, Near, Square;
    if a != [] {
      var c := a[|a| - 1];
      NoScores(side, a[..|a| - 1], b, avgLim);
      BestIs(c, b, side / 4 * 3 / 4, avgLim);
      forall j | 0 <= j < |b| ensures CellScore(c, b[j], side / 4 * 3 / 4, avgLim) == None { NotNear(side, c, b[j], avgLim); }
    }
  }

  lemma NoMean(side: nat, a: seq<Cell>, b: seq<Cell>, max: nat)
    requires a != [] && IconSide(side) && FarApart(side, a, b)
    ensures Match(side, a, b, max) == 0
  {
    hide Scores;
    NoScores(side, a, b, max / 5);
  }

  /** Two gray icons are refused where no bright window of one stands near one of the other's, whatever else agrees. */
  lemma FarGrayRefused(a: Metric, b: Metric)
    requires Shaped(a) && Shaped(b) && IconSide(a.side) && a.ccount == 0 && b.ccount == 0
    requires FarApart(a.side, a.bright, b.bright) || FarApart(a.side, a.dark, b.dark)
             || FarApart(a.side, a.edge + a.color, b.edge + b.color) || FarApart(a.side, a.noedge + a.gray, b.noedge + b.gray)
    ensures !Matches(a, b)
  {
    hide Match, Matches, FarApart;
    GrayNeedsAll(a, b);
    if FarApart(a.side, a.bright, b.bright) { NoMean(a.side, a.bright, b.bright, 255); }
    if FarApart(a.side, a.dark, b.dark) { NoMean(a.side, a.dark, b.dark, 255); }
    if FarApart(a.side, a.edge + a.color, b.edge + b.color) { NoMean(a.side, a.edge + a.color, b.edge + b.color, 255); }
    if FarApart(a.side, a.noedge + a.gray, b.noedge + b.gray) { NoMean(a.side, a.noedge + a.gray, b.noedge + b.gray, 255); }
  }

  /** Where either icon has colours they are refused when their colour, dark and edged windows all stand apart. */
  lemma FarColourRefused(a: Metric, b: Metric)
    requires Shaped(a) && Shaped(b) && IconSide(a.side) && !(a.ccount == 0 && b.ccount == 0)
    requires FarApart(a.side, a.color, b.color) && FarApart(a.side, a.dark, b.dark) && FarApart(a.side, a.edge, b.edge)
    ensures !Matches(a, b)
  {
    hide Match, Matches, FarApart;
    ColourMatches(a, b);
    NoMean(a.side, a.color, b.color, 4072);
    NoMean(a.side, a.dark, b.dark, 255);
    NoMean(a.side, a.edge, b.edge, 255);
    MeanAtMost(a.side, a.gray, b.gray, 4072);
    MeanAtMost(a.side, a.bright, b.bright, 255);
    MeanAtMost(a.side, a.noedge, b.noedge, 255);
  }
}
