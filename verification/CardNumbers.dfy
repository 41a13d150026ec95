/** Payment-card numbers in text: the mod-10 check of Annex B of ISO/IEC 7812-1, the issuer prefix
    table, and a count that looks at a bounded window. */
module CardNumbers {
  import opened ByteSeq

  // ---------------------------------------------------------------- the check

  predicate Digits(s: Bytes) { forall i :: 0 <= i < |s| ==> IsDigit(s[i]) }

  function Value(d: byte): nat
    requires IsDigit(d)
  {
    d - 48
  }

  /** Twice a digit, its own digits added. */
  function Doubled(v: nat): nat { if 2 * v > 9 then 2 * v - 9 else 2 * v }

  /** What a digit adds with `after` digits to its right. */
  function Weight(d: byte, after: nat): nat
    requires IsDigit(d)
  {
    if after % 2 == 1 then Doubled(Value(d)) else Value(d)
  }

  function Sum(s: Bytes): nat
    requires Digits(s)
  {
    if s == [] then 0 else Weight(s[0], |s| - 1) + Sum(s[1..])
  }

  predicate Luhn(s: Bytes)
    requires Digits(s)
  {
    Sum(s) % 10 == 0
  }

  method LuhnValid(s: Bytes) returns (ok: bool)
    requires Digits(s)
    ensures ok == Luhn(s)
  {
    var sum: nat, double := 0, false;
    assert s[0..] == s;
    for i := |s| downto 0
      invariant double == ((|s| - i) % 2 == 1) && sum == Sum(s[i..])
    {
      assert s[i..][1..] == s[i + 1..];
      var v := s[i] - 48;
      if double {
        v := v * 2;
        if v > 9 { v := v - 9; }
      }
      double := !double;
      sum := sum + v;
    }
    ok := sum % 10 == 0;
  }

  /** Changing a digit changes its share of the sum and nothing else. */
  lemma {:induction false} SumSplit(s: Bytes, i: nat, d: byte)
    requires Digits(s) && i < |s| && IsDigit(d)
    ensures Digits(s[i := d]) && Sum(s[i := d]) + Weight(s[i], |s| - 1 - i) == Sum(s) + Weight(d, |s| - 1 - i)
    decreases |s|
  {
    hide Weight;
    var t := s[i := d];
    if i == 0 {
      assert t[1..] == s[1..];
    } else {
      assert t[1..] == s[1..][i - 1 := d];
      SumSplit(s[1..], i - 1, d);
    }
  }

  /** In either kind of place the ten digits have the ten weights, each once. */
  function DigitFor(w: nat, after: nat): (d: byte)
    requires w < 10
    ensures IsDigit(d) && Weight(d, after) == w
    ensures forall e: byte :: IsDigit(e) && Weight(e, after) == w ==> e == d
  {
    if after % 2 == 0 then 48 + w else if w % 2 == 0 then 48 + w / 2 else 48 + (w + 9) / 2
  }

  /** Wherever it stands, exactly one digit makes a number pass. */
  lemma OneDigitPasses(s: Bytes, i: nat) returns (d: byte)
    requires Digits(s) && i < |s|
    ensures IsDigit(d)
    ensures forall e: byte :: IsDigit(e) ==> Digits(s[i := e]) && (Luhn(s[i := e]) <==> e == d)
  {
    hide Sum, DigitFor;
    var after := |s| - 1 - i;
    SumSplit(s, i, 48);
    var base := Sum(s[i := 48]);
    d := DigitFor((10 - base % 10) % 10, after);
    forall e: byte | IsDigit(e) ensures Digits(s[i := e]) && (Luhn(s[i := e]) <==> e == d) {
      SumSplit(s, i, e);
      OnlyWeight(base, Weight(e, after));
    }
  }

  lemma OnlyWeight(base: nat, w: nat)
    requires w < 10
    ensures (base + w) % 10 == 0 <==> w == (10 - base % 10) % 10
  {}

  /** A number that passes fails with any one digit changed. */
  lemma OneChangeCaught(s: Bytes, i: nat, d: byte)
    requires Digits(s) && Luhn(s) && i < |s| && IsDigit(d) && d != s[i]
    ensures Digits(s[i := d]) && !Luhn(s[i := d])
  {
    var only := OneDigitPasses(s, i);
    assert s[i := s[i]] == s;
  }

  /** Two neighbours changed places: caught unless they are alike or are 0 and 9. */
  lemma SwapCaught(s: Bytes, i: nat)
    requires Digits(s) && Luhn(s) && i + 1 < |s|
    ensures var a, b := s[i], s[i + 1]; var t := s[i := b][i + 1 := a];
            Digits(t) && (Luhn(t) <==> a == b || {Value(a), Value(b)} == {0, 9})
  {
    hide Sum, Weight;
    var a, b, after := s[i], s[i + 1], |s| - 1 - i;
    SumSplit(s, i, b);
    SumSplit(s[i := b], i + 1, a);
    SwapShares(a, b, after);
    var t := s[i := b][i + 1 := a];
    assert Sum(t) - Sum(s) == Weight(b, after) + Weight(a, after - 1) - Weight(a, after) - Weight(b, after - 1);
    TenApart(Sum(s), Sum(t));
  }

  lemma TenApart(x: nat, y: nat)
    requires x % 10 == 0 && -10 < y - x < 10
    ensures y % 10 == 0 <==> x == y
  {}

  /** What swapping adds to the sum: a multiple of ten only in the cases named. */
  lemma SwapShares(a: byte, b: byte, after: nat)
    requires IsDigit(a) && IsDigit(b) && after > 0
    ensures var change := Weight(b, after) + Weight(a, after - 1) - Weight(a, after) - Weight(b, after - 1);
            -10 < change < 10 && (change == 0 <==> a == b || {Value(a), Value(b)} == {0, 9})
  {
    var x, y := Value(a), Value(b);
    if x != y { assert {x, y} == {0, 9} <==> (x == 0 && y == 9) || (x == 9 && y == 0) by { Pair(x, y); } }
  }

  lemma Pair(x: nat, y: nat)
    ensures {x, y} == {0, 9} <==> (x == 0 && y == 9) || (x == 9 && y == 0)
  {
    if {x, y} == {0, 9} {
      assert 0 in {x, y} && 9 in {x, y};
    }
  }

  // ---------------------------------------------------------------- the check digit

  /** A number's digits added, from the right: every other one doubled first and the digits of the
      result added, the last one too if `double`. */
  function Alternate(s: Bytes, double: bool): nat
    requires Digits(s)
  {
    if s == [] then 0
    else
      var v: nat := Last(s) - 48;
      Alternate(Init(s), !double) + if double then 2 * v / 10 + 2 * v % 10 else v
  }

  /** What digits add with `after` more to their right. */
  function SumBefore(s: Bytes, after: nat): nat
    requires Digits(s)
  {
    if s == [] then 0 else Weight(s[0], |s| - 1 + after) + SumBefore(s[1..], after)
  }

  lemma {:induction false} SumIsBefore(s: Bytes)
    requires Digits(s)
    ensures Sum(s) == SumBefore(s, 0)
  {
    if s != [] { SumIsBefore(s[1..]); }
  }

  lemma {:induction false} SumBeforePush(s: Bytes, c: byte, after: nat)
    requires Digits(s) && IsDigit(c)
    ensures Digits(s + [c]) && SumBefore(s + [c], after) == SumBefore(s, after + 1) + Weight(c, after)
    decreases |s|
  {
    hide Weight;
    if s == [] {
      assert [c][1..] == [] && [] + [c] == [c];
    } else {
      assert (s + [c])[1..] == s[1..] + [c];
      SumBeforePush(s[1..], c, after);
    }
  }

  lemma {:induction false} AlternateIs(s: Bytes, after: nat)
    requires Digits(s)
    ensures SumBefore(s, after) == Alternate(s, after % 2 == 1)
    decreases |s|
  {
    hide SumBefore;
    if s == [] {
      SumOfNone(after);
    } else {
      AlternateIs(Init(s), after + 1);
      SumBeforePush(Init(s), Last(s), after);
      assert s == Init(s) + [Last(s)];
    }
  }

  lemma SumOfNone(after: nat)
    ensures SumBefore([], after) == 0
  {}

  /** A payload and a check digit pass if and only if the digit makes up to ten what the payload adds,
      its last digit doubled, the one before it not, and so on. */
  lemma CheckDigit(p: Bytes, c: byte)
    requires Digits(p) && IsDigit(c)
    ensures Digits(p + [c]) && (Luhn(p + [c]) <==> c - 48 == (10 - Alternate(p, true) % 10) % 10)
  {
    hide Sum, SumBefore, Alternate;
    SumBeforePush(p, c, 0);
    SumIsBefore(p + [c]);
    AlternateIs(p, 1);
    OnlyWeight(Alternate(p, true), Value(c));
  }

  /** So every payload has exactly one check digit. */
  lemma CheckDigitOf(p: Bytes) returns (c: byte)
    requires Digits(p)
    ensures IsDigit(c) && c - 48 == (10 - Alternate(p, true) % 10) % 10
    ensures forall e: byte :: IsDigit(e) ==> Digits(p + [e]) && (Luhn(p + [e]) <==> e == c)
  {
    hide Luhn, Alternate;
    c := 48 + (10 - Alternate(p, true) % 10) % 10;
    forall e: byte | IsDigit(e) ensures Digits(p + [e]) && (Luhn(p + [e]) <==> e == c) { CheckDigit(p, e); }
  }

  /** The last digit counts as it is: one more there is one more in all. */
  lemma LastCountsOnce(p: Bytes, c: byte)
    requires Digits(p) && IsDigit(c) && c < 57
    ensures Digits(p + [c]) && Digits(p + [c + 1]) && Sum(p + [c + 1]) == Sum(p + [c]) + 1
  {
    hide Sum, SumBefore;
    SumBeforePush(p, c, 0);
    SumBeforePush(p, c + 1, 0);
    SumIsBefore(p + [c]);
    SumIsBefore(p + [c + 1]);
  }

  // ---------------------------------------------------------------- issuers

  /** The issuers of a range of six-digit prefixes, and how long their numbers are. */
  datatype Bin = Bin(lo: nat, hi: nat, lenLo: nat, lenHi: nat, credit: bool)

  const BINS: seq<Bin> := [
    Bin(100_000, 199_999, 15, 15, false),
    Bin(222_100, 272_099, 16, 16, true),
    Bin(300_000, 305_999, 14, 16, true),
    Bin(309_500, 309_599, 14, 16, true),
    Bin(340_000, 349_999, 15, 15, true),
    Bin(352_800, 358_999, 16, 16, true),
    Bin(360_000, 369_999, 14, 16, true),
    Bin(370_000, 379_999, 15, 15, true),
    Bin(380_000, 399_999, 16, 16, true),
    Bin(400_000, 499_999, 16, 16, true),
    Bin(500_000, 509_999, 16, 16, false),
    Bin(510_000, 559_999, 16, 16, true),
    Bin(601_100, 601_199, 16, 16, true),
    Bin(620_000, 629_999, 16, 16, true),
    Bin(644_000, 659_999, 16, 16, true)]

  const LONGEST: nat := 19
  const MAX_SEPARATORS: nat := 8
  const CARD_REACH: nat := 28

  predicate Fits(b: Bin, prefix: nat, creditOnly: bool) { b.lo <= prefix <= b.hi && (!creditOnly || b.credit) }

  /** Ranges are in order and apart, so a prefix is in one at most and the search may stop early. */
  predicate InOrder(bins: seq<Bin>) {
    && (forall i :: 0 <= i < |bins| ==> bins[i].lo <= bins[i].hi && 6 <= bins[i].lenLo <= bins[i].lenHi <= LONGEST)
    && (forall i, j :: 0 <= i < j < |bins| ==> bins[i].hi < bins[j].lo)
  }

  lemma BinsInOrder()
    ensures InOrder(BINS)
  {
    forall i, j | 0 <= i < j < |BINS| ensures BINS[i].hi < BINS[j].lo { Ascending(i, j); }
  }

  lemma {:induction false} Ascending(i: nat, j: nat)
    requires i < j < |BINS|
    ensures BINS[i].hi < BINS[j].lo
    decreases j
  {
    if i < j - 1 { Ascending(i, j - 1); }
  }

  ghost predicate IsBin(r: Option<Bin>, prefix: nat, creditOnly: bool) {
    match r
    case Some(b) => b in BINS && Fits(b, prefix, creditOnly)
    case None => forall b :: b in BINS ==> !Fits(b, prefix, creditOnly)
  }

  function BinFrom(prefix: nat, creditOnly: bool, i: nat): Option<Bin>
    decreases |BINS| - i
  {
    if i >= |BINS| || prefix < BINS[i].lo then None
    else if Fits(BINS[i], prefix, creditOnly) then Some(BINS[i])
    else BinFrom(prefix, creditOnly, i + 1)
  }

  /** No range from one above the prefix on has it. */
  lemma NoneAbove(prefix: nat, creditOnly: bool, i: nat)
    requires i < |BINS| && prefix < BINS[i].lo && forall j :: 0 <= j < i ==> !Fits(BINS[j], prefix, creditOnly)
    ensures IsBin(None, prefix, creditOnly)
  {
    BinsInOrder();
    forall j | 0 <= j < |BINS| ensures !Fits(BINS[j], prefix, creditOnly) {
      if i < j { assert BINS[i].lo <= BINS[i].hi < BINS[j].lo; }
    }
  }

  lemma NoneAtAll(prefix: nat, creditOnly: bool)
    requires forall j :: 0 <= j < |BINS| ==> !Fits(BINS[j], prefix, creditOnly)
    ensures IsBin(None, prefix, creditOnly)
  {}

  /** Stopping at the first range above the prefix misses none. */
  lemma {:induction false} BinFound(prefix: nat, creditOnly: bool, i: nat)
    requires i <= |BINS| && forall j :: 0 <= j < i ==> !Fits(BINS[j], prefix, creditOnly)
    ensures IsBin(BinFrom(prefix, creditOnly, i), prefix, creditOnly)
    decreases |BINS| - i
  {
    hide Fits, IsBin;
    if i == |BINS| {
      NoneAtAll(prefix, creditOnly);
    } else if prefix < BINS[i].lo {
      NoneAbove(prefix, creditOnly, i);
    } else if Fits(BINS[i], prefix, creditOnly) {
      ThisOne(prefix, creditOnly, i);
    } else {
      BinFound(prefix, creditOnly, i + 1);
    }
  }

  lemma ThisOne(prefix: nat, creditOnly: bool, i: nat)
    requires i < |BINS| && Fits(BINS[i], prefix, creditOnly)
    ensures IsBin(Some(BINS[i]), prefix, creditOnly)
  {}

  /** A prefix is in one range at most, so what is found is determined. */
  lemma BinUnique(r: Option<Bin>, r': Option<Bin>, prefix: nat, creditOnly: bool)
    requires IsBin(r, prefix, creditOnly) && IsBin(r', prefix, creditOnly)
    ensures r == r'
  {
    BinsInOrder();
    if r.Some? && r'.Some? {
      var i :| 0 <= i < |BINS| && BINS[i] == r.value;
      var j :| 0 <= j < |BINS| && BINS[j] == r'.value;
      assert !(BINS[i].hi < BINS[j].lo) && !(BINS[j].hi < BINS[i].lo);
    }
  }

  // ---------------------------------------------------------------- a number in text

  /** The digits read so far, the separators passed, and where reading is. */
  datatype Scan = Scan(digits: Bytes, seps: nat, i: nat)

  const START: Scan := Scan([], 0, 0)

  predicate IsSeparator(c: byte) { c == 32 || c == 45 }

  predicate GoesOn(buf: Bytes, s: Scan, limit: nat) {
    && s.i < |buf| && |s.digits| < limit
    && (IsDigit(buf[s.i]) || (IsSeparator(buf[s.i]) && s.seps < MAX_SEPARATORS))
  }

  function Take(s: Scan, c: byte): Scan {
    if IsDigit(c) then Scan(s.digits + [c], s.seps, s.i + 1) else Scan(s.digits, s.seps + 1, s.i + 1)
  }

  function Collect(buf: Bytes, s: Scan, limit: nat): (r: Scan)
    ensures Digits(s.digits) ==> Digits(r.digits)
    decreases |buf| - s.i
  {
    if GoesOn(buf, s, limit) then Collect(buf, Take(s, buf[s.i]), limit) else s
  }

  method CollectDigits(buf: Bytes, s: Scan, limit: nat) returns (r: Scan)
    ensures r == Collect(buf, s, limit)
  {
    var digits, seps: nat, i: nat := s.digits, s.seps, s.i;
    while i < |buf| && |digits| < limit
      invariant Collect(buf, s, limit) == Collect(buf, Scan(digits, seps, i), limit)
      decreases |buf| - i
    {
      var c := buf[i];
      if IsDigit(c) {
        digits := digits + [c];
        i := i + 1;
      } else if IsSeparator(c) && seps < MAX_SEPARATORS {
        seps := seps + 1;
        i := i + 1;
      } else {
        break;
      }
    }
    r := Scan(digits, seps, i);
  }

  function Prefix(digits: Bytes): nat {
    var n := Number(digits, 10);
    if n.None? then 0 else n.value
  }

  predicate CardAt(buf: Bytes, creditOnly: bool) {
    var p := Collect(buf, START, 6);
    var bin := BinFrom(Prefix(p.digits), creditOnly, 0);
    |p.digits| >= 6 && bin.Some? && CardOf(buf, p, bin.value)
  }

  predicate CardOf(buf: Bytes, p: Scan, bin: Bin)
    requires Digits(p.digits)
  {
    var c := Collect(buf, p, bin.lenHi);
    |c.digits| >= bin.lenLo && !(c.i < |buf| && IsDigit(buf[c.i])) && Luhn(c.digits)
  }

  method ReadCard(buf: Bytes, creditOnly: bool) returns (found: bool)
    ensures found == CardAt(buf, creditOnly)
  {
    hide Collect, BinFrom, Number;
    var p := CollectDigits(buf, START, 6);
    if |p.digits| < 6 { return false; }
    var bin := BinFor(Prefix(p.digits), creditOnly);
    if bin.None? { return false; }
    var c := CollectDigits(buf, p, bin.value.lenHi);
    if |c.digits| < bin.value.lenLo || (c.i < |buf| && IsDigit(buf[c.i])) { return false; }
    found := LuhnValid(c.digits);
  }

  method BinFor(prefix: nat, creditOnly: bool) returns (r: Option<Bin>)
    ensures r == BinFrom(prefix, creditOnly, 0)
  {
    for i := 0 to |BINS|
      invariant BinFrom(prefix, creditOnly, 0) == BinFrom(prefix, creditOnly, i)
    {
      var b := BINS[i];
      if prefix < b.lo { return None; }
      if prefix <= b.hi && (!creditOnly || b.credit) { return Some(b); }
    }
    r := None;
  }

  /** Every byte read is a digit kept or a separator counted. */
  predicate Accounted(s: Scan, limit: nat) { s.i == |s.digits| + s.seps && s.seps <= MAX_SEPARATORS && |s.digits| <= limit }

  function OnlyDigits(s: Bytes): Bytes {
    if s == [] then [] else OnlyDigits(s[..|s| - 1]) + if IsDigit(s[|s| - 1]) then [s[|s| - 1]] else []
  }

  lemma OnlyDigitsPush(s: Bytes, i: nat)
    requires i < |s|
    ensures OnlyDigits(s[..i + 1]) == OnlyDigits(s[..i]) + if IsDigit(s[i]) then [s[i]] else []
  {
    assert s[..i + 1][..i] == s[..i];
  }

  /** Reading takes digits and separators in order, and only the beginning it has read decides it:
      a window that holds one byte more gives the same. */
  lemma {:induction false} CollectReach(buf: Bytes, w: nat, s: Scan, limit: nat)
    requires Accounted(s, limit) && s.i <= w <= |buf| && (w == |buf| || limit + MAX_SEPARATORS < w)
    requires s.digits == OnlyDigits(buf[..s.i])
    ensures var r := Collect(buf, s, limit);
            && Collect(buf[..w], s, limit) == r && Accounted(r, limit) && r.i <= w && (r.i < w || w == |buf|)
            && r.digits == OnlyDigits(buf[..r.i])
    decreases |buf| - s.i
  {
    hide OnlyDigits;
    if s.i < |buf| { assert s.i < w; }
    if GoesOn(buf, s, limit) {
      OnlyDigitsPush(buf, s.i);
      CollectReach(buf, w, Take(s, buf[s.i]), limit);
    }
  }

  /** The bytes a reader asks for are enough: the answer from the window is the answer from the text. */
  lemma ReachEnough(buf: Bytes, creditOnly: bool)
    requires |buf| >= CARD_REACH
    ensures CardAt(buf[..CARD_REACH], creditOnly) == CardAt(buf, creditOnly)
  {
    hide Collect, BinFrom, Number, OnlyDigits;
    var w := buf[..CARD_REACH];
    OnlyDigitsNone(buf);
    CollectReach(buf, CARD_REACH, START, 6);
    var p := Collect(buf, START, 6);
    var bin := BinFrom(Prefix(p.digits), creditOnly, 0);
    if |p.digits| >= 6 && bin.Some? {
      BinLengths(Prefix(p.digits), creditOnly);
      CollectReach(buf, CARD_REACH, p, bin.value.lenHi);
    }
  }

  lemma OnlyDigitsNone(buf: Bytes)
    ensures OnlyDigits(buf[..0]) == []
  {}

  lemma BinLengths(prefix: nat, creditOnly: bool)
    requires BinFrom(prefix, creditOnly, 0).Some?
    ensures var b := BinFrom(prefix, creditOnly, 0).value; 6 <= b.lenLo <= b.lenHi <= LONGEST && b in BINS && Fits(b, prefix, creditOnly)
  {
    hide BinFrom;
    BinFound(prefix, creditOnly, 0);
    BinsInOrder();
  }

  /** The beginning of the text that is read for a number of at most `limit` digits: digits and at
      most eight separators, no separator after the last digit allowed, and no more of either. */
  predicate Reads(buf: Bytes, i: nat, limit: nat) {
    && i <= |buf| && (forall j :: 0 <= j < i ==> IsDigit(buf[j]) || IsSeparator(buf[j]))
    && var n := |OnlyDigits(buf[..i])|;
       && n <= limit && n <= i <= n + MAX_SEPARATORS
       && (n == limit && i > 0 ==> IsDigit(buf[i - 1]))
       && (n < limit && i < |buf| ==> !IsDigit(buf[i]) && !(IsSeparator(buf[i]) && i < n + MAX_SEPARATORS))
  }

  /** A card number at the front of a text: the part read for an issuer whose range its first six digits
      are in is as long as that issuer's numbers are, ends there and passes the check. */
  predicate IsCard(buf: Bytes, creditOnly: bool, bin: Bin, i: nat) {
    && bin in BINS && i <= |buf| && Reads(buf, i, bin.lenHi)
    && var ds := OnlyDigits(buf[..i]);
       && |ds| >= 6 && Digits(ds) && Fits(bin, Prefix(ds[..6]), creditOnly)
       && bin.lenLo <= |ds| && (i < |buf| ==> !IsDigit(buf[i])) && Luhn(ds)
  }

  lemma {:induction false} OnlyDigitsAre(s: Bytes)
    ensures Digits(OnlyDigits(s)) && |OnlyDigits(s)| <= |s|
  {
    if s != [] { OnlyDigitsAre(s[..|s| - 1]); }
  }

  /** Reading stops at the one such place. */
  lemma {:induction false} CollectReads(buf: Bytes, s: Scan, limit: nat)
    requires Accounted(s, limit) && s.i <= |buf| && s.digits == OnlyDigits(buf[..s.i])
    requires forall j :: 0 <= j < s.i ==> IsDigit(buf[j]) || IsSeparator(buf[j])
    requires |s.digits| == limit && s.i > 0 ==> IsDigit(buf[s.i - 1])
    ensures var r := Collect(buf, s, limit); r.i <= |buf| && Reads(buf, r.i, limit) && r.digits == OnlyDigits(buf[..r.i])
    decreases |buf| - s.i
  {
    hide OnlyDigits;
    if GoesOn(buf, s, limit) {
      OnlyDigitsPush(buf, s.i);
      CollectReads(buf, Take(s, buf[s.i]), limit);
    }
  }

  lemma {:induction false} DigitsGrow(buf: Bytes, i: nat, j: nat)
    requires i <= j <= |buf|
    ensures |OnlyDigits(buf[..i])| <= |OnlyDigits(buf[..j])|
    ensures (exists k :: i <= k < j && IsDigit(buf[k])) ==> |OnlyDigits(buf[..i])| < |OnlyDigits(buf[..j])|
    ensures j - i <= |OnlyDigits(buf[..j])| - |OnlyDigits(buf[..i])| ==> forall k :: i <= k < j ==> IsDigit(buf[k])
    ensures |OnlyDigits(buf[..j])| - |OnlyDigits(buf[..i])| <= j - i
    decreases j
  {
    hide OnlyDigits;
    if i < j {
      DigitsGrow(buf, i, j - 1);
      OnlyDigitsPush(buf, j - 1);
    }
  }

  lemma ReadsOnce(buf: Bytes, i: nat, j: nat, limit: nat)
    requires Reads(buf, i, limit) && Reads(buf, j, limit)
    ensures i == j
  {
    if i < j { ReadsFirst(buf, i, j, limit); }
    if j < i { ReadsFirst(buf, j, i, limit); }
  }

  lemma ReadsFirst(buf: Bytes, i: nat, j: nat, limit: nat)
    requires Reads(buf, i, limit) && i < j <= |buf|
    ensures !Reads(buf, j, limit)
  {
    hide OnlyDigits;
    DigitsGrow(buf, i, j);
    DigitsGrow(buf, i, i + 1);
    DigitsGrow(buf, i + 1, j);
  }

  lemma {:induction false} CollectTwice(buf: Bytes, s: Scan, a: nat, b: nat)
    requires a <= b
    ensures Collect(buf, Collect(buf, s, a), b) == Collect(buf, s, b)
    decreases |buf| - s.i
  {
    if GoesOn(buf, s, a) { CollectTwice(buf, Take(s, buf[s.i]), a, b); }
  }

  lemma {:induction false} CollectKeeps(buf: Bytes, s: Scan, limit: nat)
    ensures var r := Collect(buf, s, limit); s.digits <= r.digits && (|s.digits| <= limit ==> |r.digits| <= limit)
    ensures var r := Collect(buf, s, limit); |r.digits| < limit ==> forall more :: more >= limit ==> Collect(buf, r, more) == r
    decreases |buf| - s.i
  {
    if GoesOn(buf, s, limit) { CollectKeeps(buf, Take(s, buf[s.i]), limit); }
  }

  /** The six digits looked up are the first six of the number. */
  lemma SixDigits(buf: Bytes, limit: nat)
    requires limit >= 6
    ensures var p, c := Collect(buf, START, 6), Collect(buf, START, limit);
            && Collect(buf, p, limit) == c && (|p.digits| >= 6 <==> |c.digits| >= 6)
            && (|p.digits| >= 6 ==> p.digits == c.digits[..6])
  {
    hide Collect;
    var p := Collect(buf, START, 6);
    CollectTwice(buf, START, 6, limit);
    CollectKeeps(buf, START, 6);
    CollectKeeps(buf, p, limit);
  }

  /** A card is found exactly where there is one, separators and all. */
  lemma CardIff(buf: Bytes, creditOnly: bool)
    ensures CardAt(buf, creditOnly) <==> exists bin, i :: IsCard(buf, creditOnly, bin, i)
  {
    hide Collect, BinFrom, Number, OnlyDigits, Reads;
    if CardAt(buf, creditOnly) { CardFound(buf, creditOnly); }
    if exists bin, i :: IsCard(buf, creditOnly, bin, i) {
      var bin, i :| IsCard(buf, creditOnly, bin, i);
      CardRead(buf, creditOnly, bin, i);
    }
  }

  lemma CardFound(buf: Bytes, creditOnly: bool)
    requires CardAt(buf, creditOnly)
    ensures exists bin, i :: IsCard(buf, creditOnly, bin, i)
  {
    hide Collect, BinFrom, Number, OnlyDigits, Reads;
    OnlyDigitsNone(buf);
    var p := Collect(buf, START, 6);
    BinLengths(Prefix(p.digits), creditOnly);
    var bin := BinFrom(Prefix(p.digits), creditOnly, 0).value;
    SixDigits(buf, bin.lenHi);
    CollectReads(buf, START, bin.lenHi);
    assert IsCard(buf, creditOnly, bin, Collect(buf, START, bin.lenHi).i);
  }

  lemma CardRead(buf: Bytes, creditOnly: bool, bin: Bin, i: nat)
    requires IsCard(buf, creditOnly, bin, i)
    ensures CardAt(buf, creditOnly)
  {
    hide Collect, BinFrom, Number, OnlyDigits, Reads;
    OnlyDigitsNone(buf);
    BinsInOrder();
    SixDigits(buf, bin.lenHi);
    CollectReads(buf, START, bin.lenHi);
    ReadsOnce(buf, i, Collect(buf, START, bin.lenHi).i, bin.lenHi);
    var ds := OnlyDigits(buf[..i]);
    var prefix := Prefix(ds[..6]);
    BinFound(prefix, creditOnly, 0);
    BinUnique(BinFrom(prefix, creditOnly, 0), Some(bin), prefix, creditOnly);
  }

  // ---------------------------------------------------------------- counting

  predicate StartsCard(data: Bytes, i: nat)
    requires i < |data|
  {
    IsDigit(data[i]) && (i == 0 || !IsDigit(data[i - 1])) && CardAt(data[i..], true)
  }

  /** The cards from `i` on, the bytes after one skipped so that it is not counted again. */
  function Cards(data: Bytes, i: nat): nat
    decreases |data| - i
  {
    if i >= |data| then 0
    else if StartsCard(data, i) then 1 + Cards(data, i + 14)
    else Cards(data, i + 1)
  }

  /** The count from bounded windows is the count from the whole text. */
  method CountCreditCards(data: Bytes) returns (count: nat)
    ensures count == Cards(data, 0)
  {
    hide CardAt;
    count := 0;
    var i := 0;
    while i < |data|
      invariant count + Cards(data, i) == Cards(data, 0)
    {
      WindowOfCard(data, i);
      if IsDigit(data[i]) && (i == 0 || !IsDigit(data[i - 1])) {
        var found := ReadCard(data[i..Min(i + CARD_REACH, |data|)], true);
        if found {
          count := count + 1;
          i := i + 13;
        }
      }
      i := i + 1;
    }
  }

  lemma WindowOfCard(data: Bytes, i: nat)
    requires i < |data|
    ensures CardAt(data[i..Min(i + CARD_REACH, |data|)], true) == CardAt(data[i..], true)
  {
    hide CardAt;
    var rest := data[i..];
    if i + CARD_REACH <= |data| {
      ReachEnough(rest, true);
      assert rest[..CARD_REACH] == data[i..i + CARD_REACH];
    } else {
      assert data[i..Min(i + CARD_REACH, |data|)] == rest;
    }
  }
}
