/** What an icon's metric says of the icon: which hue is which, and where it is most and least. */
module IconLaws {
  import opened ByteSeq
  import opened Arith
  import opened IconMetrics

  // ---------------------------------------------------------------- a pixel from its channels

  /** A pixel: opacity, red, green and blue, a byte each, the highest first. */
  function Pixel(a: byte, r: byte, g: byte, b: byte): nat { ((a * 256 + r) * 256 + g) * 256 + b }

  lemma ChannelsRead(a: byte, r: byte, g: byte, b: byte)
    ensures var px := Pixel(a, r, g, b); Red(px) == r && Green(px) == g && Blue(px) == b
  {}

  /** How far the brightest channel is from the darkest. */
  function Spread(r: byte, g: byte, b: byte): nat { Max(Max(r, g), b) - Min(Min(r, g), b) }

  lemma SpreadIs(a: byte, r: byte, g: byte, b: byte)
    ensures var px := Pixel(a, r, g, b); Delta(px) == Spread(r, g, b) && Light(px) == Max(Max(r, g), b)
  {
    hide Pixel, Red, Green, Blue;
    ChannelsRead(a, r, g, b);
  }

  lemma DivAbove(x: nat, y: nat, q: nat)
    requires y > 0
    ensures Div(x, y) >= q <==> x >= q * y
  {
    hide Div;
    DivIs(x, y);
    var d := Div(x, y);
    assert (d + 1) * y == d * y + y;
    if d >= q { MulMono(y, q, d); } else { MulMono(y, d + 1, q); }
  }

  /** A pixel is vivid when its brightest channel is above 85 and the spread is above a third of it. */
  lemma VividIs(a: byte, r: byte, g: byte, b: byte)
    ensures var most := Max(Max(r, g), b); Vivid(Pixel(a, r, g, b)) <==> most > 85 && 255 * Spread(r, g, b) >= 86 * most
  {
    hide Pixel, Red, Green, Blue, Div, Light, Delta;
    SpreadIs(a, r, g, b);
    var most := Max(Max(r, g), b);
    if most > 0 { DivAbove(255 * Spread(r, g, b), most, 86); }
  }

  /** A share of the spread that two channels are apart. */
  lemma ShareIs(d: nat, s: nat)
    requires s > 0 && d <= s
    ensures 100 - Div(100 * d, s) == 100 <==> 100 * d < s
    ensures 100 - Div(100 * d, s) == 0 <==> d == s
  {
    hide Div;
    DivAbove(100 * d, s, 1);
    DivAbove(100 * d, s, 100);
    ShareAtMost(100, d, s);
  }

  /** A vivid pixel is wholly of a hue when the other two channels are less than a hundredth of the spread
      apart, and not at all when they are the whole spread apart. */
  lemma HuesAre(a: byte, r: byte, g: byte, b: byte)
    requires Vivid(Pixel(a, r, g, b))
    ensures var px, s := Pixel(a, r, g, b), Spread(r, g, b);
            && (RedHue(px) == 100 <==> 100 * Apart(g, b) < s) && (RedHue(px) == 0 <==> Apart(g, b) == s)
            && (GreenHue(px) == 100 <==> 100 * Apart(r, b) < s) && (GreenHue(px) == 0 <==> Apart(r, b) == s)
            && (BlueHue(px) == 100 <==> 100 * Apart(r, g) < s) && (BlueHue(px) == 0 <==> Apart(r, g) == s)
  {
    hide Pixel, Red, Green, Blue, Div, Saturation, Light, Vivid, Delta;
    var s := Spread(r, g, b);
    ChannelsRead(a, r, g, b);
    SpreadIs(a, r, g, b);
    HueRange(Pixel(a, r, g, b));
    ShareIs(Apart(g, b), s);
    ShareIs(Apart(r, b), s);
    ShareIs(Apart(r, g), s);
  }

  // ---------------------------------------------------------------- an icon of one colour

  predicate AllAre(pixels: seq<nat>, px: nat) { forall i :: 0 <= i < |pixels| ==> pixels[i] == px }

  lemma {:induction false} TotalOfOne(pixels: seq<nat>, px: nat, f: nat -> nat)
    requires AllAre(pixels, px)
    ensures Total(pixels, f) == |pixels| * f(px)
  {
    if pixels != [] {
      TotalOfOne(pixels[..|pixels| - 1], px, f);
      Distribute(|pixels| - 1, f(px));
    }
  }

  lemma Distribute(n: nat, k: nat)
    ensures (n + 1) * k == n * k + k
  {}

  lemma DivBack(n: nat, k: nat)
    requires n > 0
    ensures Div(n * k, n) == k && Div(n * 100, n) == 100
  {
    hide Div;
    DivAbove(n * k, n, k);
    DivAbove(n * k, n, k + 1);
    DivAbove(n * 100, n, 100);
    DivAbove(n * 100, n, 101);
    assert (k + 1) * n == n * k + n;
  }

  /** The hues of an icon of one vivid colour are that colour's. */
  lemma OneColour(side: nat, pixels: seq<nat>, edges: seq<nat>, m: Metric, px: nat)
    requires IsMetric(side, pixels, edges, m) && AllAre(pixels, px) && Vivid(px)
    ensures m.rsum == RedHue(px) && m.gsum == GreenHue(px) && m.bsum == BlueHue(px) && m.ccount == 100
  {
    hide Total, RedHue, GreenHue, BlueHue, Vivid, PicksOf, Three, Placed, Div;
    SizePositive(side, pixels);
    TotalOfOne(pixels, px, RedHue);
    TotalOfOne(pixels, px, GreenHue);
    TotalOfOne(pixels, px, BlueHue);
    TotalOfOne(pixels, px, One);
    var n := |pixels|;
    DivBack(n, RedHue(px));
    DivBack(n, GreenHue(px));
    DivBack(n, BlueHue(px));
  }

  lemma SizePositive(side: nat, pixels: seq<nat>)
    requires IconSide(side) && |pixels| == side * side
    ensures pixels != []
  {}

  /** A red icon is red, a green one green and a blue one blue. */
  lemma RedIsRed(side: nat, pixels: seq<nat>, edges: seq<nat>, m: Metric, a: byte, r: byte, g: byte, b: byte)
    requires IsMetric(side, pixels, edges, m) && AllAre(pixels, Pixel(a, r, g, b)) && Vivid(Pixel(a, r, g, b))
    ensures g == b ==> m.rsum == 100 && m.gsum == 0 && m.bsum == 0
    ensures r == b ==> m.gsum == 100 && m.rsum == 0 && m.bsum == 0
    ensures r == g ==> m.bsum == 100 && m.rsum == 0 && m.gsum == 0
  {
    hide IsMetric, RedHue, GreenHue, BlueHue, Pixel;
    OneColour(side, pixels, edges, m, Pixel(a, r, g, b));
    HuesAre(a, r, g, b);
    VividIs(a, r, g, b);
  }

  // ---------------------------------------------------------------- where the icon is most and least

  /** The mean of an image over the window at (`x`, `y`). */
  function Mean(img: seq<nat>, side: nat, x: nat, y: nat): nat
    requires IconSide(side)
  {
    Div(BlockSum(img, side, x, y, side / 4, side / 4), WindowArea(side))
  }

  /** A window that is looked at. */
  predicate Window(side: nat, x: nat, y: nat)
    requires IconSide(side)
  {
    x + 1 < side - side / 4 + 1 && y < side - side / 4 + 1
  }

  lemma DivMono(a: nat, b: nat, n: nat)
    requires n > 0 && a <= b
    ensures Div(a, n) <= Div(b, n)
  {
    hide Div;
    DivIs(a, n);
    DivAbove(b, n, Div(a, n));
  }

  /** The first cell of a greedy choice has its own window's mean, and no window a more extreme one. */
  lemma FirstIsExtreme(field: seq<nat>, img: seq<nat>, side: nat, max: bool, n: nat, cells: seq<Cell>, x: nat, y: nat)
    requires IconSide(side) && n > 0 && Window(side, x, y)
    requires var k := side / 4; IsField(field, img, side, k, side - k + 1) && Greedy(field, side - k + 1, k, max, n, cells)
    ensures cells != []
    ensures var c := Scaled(cells[0], WindowArea(side));
            && Window(side, c.x, c.y) && c.avg == Mean(img, side, c.x, c.y)
            && (if max then c.avg >= Mean(img, side, x, y) else c.avg <= Mean(img, side, x, y))
  {
    hide BlockSum, At, Div;
    var k := side / 4;
    var span := side - k + 1;
    assert Candidate(span, k, [], x, y);
    assert cells[..0] == [];
    var c := cells[0];
    assert BestBefore(field, span, k, max, [], c, 0, span);
    assert At(field, span, c.x, c.y) == BlockSum(img, side, c.x, c.y, k, k) && At(field, span, x, y) == BlockSum(img, side, x, y, k, k);
    var p, q := BlockSum(img, side, x, y, k, k), BlockSum(img, side, c.x, c.y, k, k);
    if max { DivMono(p, q, WindowArea(side)); } else { DivMono(q, p, WindowArea(side)); }
  }

  lemma ExtremesAre(img: seq<nat>, side: nat, n: nat, most: seq<Cell>, least: seq<Cell>, x: nat, y: nat)
    requires IconSide(side) && n > 0 && Window(side, x, y) && Extremes(img, side, n, most, least)
    ensures |Three(most, 0, WindowArea(side))| == |Three(least, 0, WindowArea(side))| == 3
    ensures var c, d := Three(most, 0, WindowArea(side))[0], Three(least, 0, WindowArea(side))[0];
            && Window(side, c.x, c.y) && c.avg == Mean(img, side, c.x, c.y) && c.avg >= Mean(img, side, x, y)
            && Window(side, d.x, d.y) && d.avg == Mean(img, side, d.x, d.y) && d.avg <= Mean(img, side, x, y)
  {
    hide IsField, Greedy, Mean;
    var k := side / 4;
    var span := side - k + 1;
    var f :| IsField(f, img, side, k, span) && Greedy(f, span, k, true, n, most) && Greedy(f, span, k, false, n, least);
    FirstIsExtreme(f, img, side, true, n, most, x, y);
    FirstIsExtreme(f, img, side, false, n, least, x, y);
  }

  /** The first cell of each kind stands where the icon is most, or least, of its quantity: lightness for
      bright and dark, the edge image for edge and noedge, colourfulness for color and gray in an icon
      with enough of it. */
  lemma MetricExtremes(side: nat, pixels: seq<nat>, edges: seq<nat>, m: Metric, x: nat, y: nat)
    requires IsMetric(side, pixels, edges, m) && Window(side, x, y)
    ensures var light, edge := Mapped(pixels, Light), Mapped(edges, LowByte);
            && m.bright != [] && m.bright[0].avg == Mean(light, side, m.bright[0].x, m.bright[0].y) && m.bright[0].avg >= Mean(light, side, x, y)
            && m.dark != [] && m.dark[0].avg == Mean(light, side, m.dark[0].x, m.dark[0].y) && m.dark[0].avg <= Mean(light, side, x, y)
            && m.edge != [] && m.edge[0].avg == Mean(edge, side, m.edge[0].x, m.edge[0].y) && m.edge[0].avg >= Mean(edge, side, x, y)
            && m.noedge != [] && m.noedge[0].avg == Mean(edge, side, m.noedge[0].x, m.noedge[0].y) && m.noedge[0].avg <= Mean(edge, side, x, y)
    ensures m.ccount > 0 ==>
              var col := Mapped(pixels, Colour);
              && m.color != [] && m.color[0].avg == Mean(col, side, m.color[0].x, m.color[0].y) && m.color[0].avg >= Mean(col, side, x, y)
              && m.gray != [] && m.gray[0].avg == Mean(col, side, m.gray[0].x, m.gray[0].y) && m.gray[0].avg <= Mean(col, side, x, y)
  {
    hide Extremes, Mean, Window, Mapped, Three, Placed, Total, RedHue, GreenHue, BlueHue, One, Div;
    SizePositive(side, pixels);
    var s, k2 := StatsOf(pixels), WindowArea(side);
    var p :| PicksOf(side, pixels, edges, s.bwonly, p) && m == Assemble(side, s, p, k2);
    ExtremesAre(Mapped(pixels, Light), side, 3, p.bright, p.dark, x, y);
    ExtremesAre(Mapped(edges, LowByte), side, if s.bwonly then 6 else 3, p.edge, p.noedge, x, y);
    ExtremesAre(Mapped(pixels, Colour), side, 3, p.color, p.gray, x, y);
  }

  /** In an icon of little colour gray stands where color does. */
  lemma GrayWithColor(side: nat, pixels: seq<nat>, edges: seq<nat>, m: Metric, i: nat)
    requires IsMetric(side, pixels, edges, m) && m.ccount == 0 && i < 3
    ensures |m.color| == |m.gray| == 3 && m.gray[i].x == m.color[i].x && m.gray[i].y == m.color[i].y
  {
    hide Extremes, Total, RedHue, GreenHue, BlueHue, One, Div, Mapped;
    SizePositive(side, pixels);
    CountOfColour(pixels);
  }

  /** The percentage is above five exactly when the icon has enough colour. */
  lemma CountOfColour(pixels: seq<nat>)
    requires pixels != []
    ensures StatsOf(pixels).bwonly <==> StatsOf(pixels).ccount == 0
  {
    hide Total, RedHue, GreenHue, BlueHue, One, Div;
  }

  // ---------------------------------------------------------------- colourfulness

  /** No colour without a spread, and a pixel with a dark channel is as colourful as it is light. */
  lemma ColourIs(a: byte, r: byte, g: byte, b: byte)
    ensures Spread(r, g, b) == 0 ==> Colour(Pixel(a, r, g, b)) == 0
    ensures Min(Min(r, g), b) == 0 && Spread(r, g, b) > 0 ==>
              var c, v := Colour(Pixel(a, r, g, b)), Max(Max(r, g), b); c * c <= 65025 * v < (c + 1) * (c + 1)
  {
    hide Pixel, Red, Green, Blue, Light, Delta, Div, RootFrom;
    SpreadIs(a, r, g, b);
    var px, v := Pixel(a, r, g, b), Max(Max(r, g), b);
    RootIs(Energy(Saturation(px), v), 0);
    if Spread(r, g, b) == 0 {
      NoRoot();
    } else if Min(Min(r, g), b) == 0 {
      DivBack(v, 255);
      assert 255 * v == v * 255 && 255 * 255 * v == 65025 * v;
    }
  }

  lemma NoRoot()
    ensures RootFrom(Energy(0, 0), 0) == 0 && forall v: nat :: Energy(0, v) == 0 && RootFrom(Energy(0, v), 0) == 0
  {
    forall v: nat ensures Energy(0, v) == 0 && RootFrom(Energy(0, v), 0) == 0 {}
  }
}
