/** The magics carving looks for, and finding them: all at once in a window, or one offset at a time. */
module CarveMagics {
  import opened ByteSeq

  datatype Kind = Pe | Elf | MachoThin(bigEndian: bool) | MachoFat | Archive

  const COUNT: nat := 14

  /** Bytes each window must run into the next: one less than the longest magic. */
  const OVERLAP: nat := 5

  function Magic(k: nat): (m: Bytes)
    requires k < COUNT
    ensures 2 <= |m| <= OVERLAP + 1
  {
    match k
    case 0 => [0x4D, 0x5A]
    case 1 => [0x7F, 0x45, 0x4C, 0x46]
    case 2 => [0xCE, 0xFA, 0xED, 0xFE]
    case 3 => [0xCF, 0xFA, 0xED, 0xFE]
    case 4 => [0xFE, 0xED, 0xFA, 0xCE]
    case 5 => [0xFE, 0xED, 0xFA, 0xCF]
    case 6 => [0xCA, 0xFE, 0xBA, 0xBE]
    case 7 => [0x50, 0x4B, 0x03, 0x04]
    case 8 => [0x1F, 0x8B, 0x08]
    case 9 => [0x42, 0x5A, 0x68]
    case 10 => [0xFD, 0x37, 0x7A, 0x58, 0x5A, 0x00]
    case 11 => [0x37, 0x7A, 0xBC, 0xAF, 0x27, 0x1C]
    case 12 => [0x52, 0x61, 0x72, 0x21, 0x1A, 0x07]
    case _ => [0x4D, 0x53, 0x43, 0x46]
  }

  function KindOf(k: nat): Kind
    requires k < COUNT
  {
    match k
    case 0 => Pe
    case 1 => Elf
    case 2 => MachoThin(false)
    case 3 => MachoThin(false)
    case 4 => MachoThin(true)
    case 5 => MachoThin(true)
    case 6 => MachoFat
    case _ => Archive
  }

  predicate StartsAt(data: Bytes, off: nat, m: Bytes) { off + |m| <= |data| && data[off..off + |m|] == m }

  predicate MagicAt(data: Bytes, off: nat, k: nat)
    requires k < COUNT
  {
    StartsAt(data, off, Magic(k))
  }

  lemma MagicBytes(data: Bytes, off: nat, k: nat)
    requires k < COUNT && MagicAt(data, off, k)
    ensures forall i :: 0 <= i < |Magic(k)| ==> data[off + i] == Magic(k)[i]
  {
    forall i | 0 <= i < |Magic(k)| ensures data[off + i] == Magic(k)[i] {
      assert data[off..off + |Magic(k)|][i] == Magic(k)[i];
    }
  }

  /** At most one magic starts at an offset. */
  lemma MagicUnique(data: Bytes, off: nat, j: nat, k: nat)
    requires j < COUNT && k < COUNT && MagicAt(data, off, j) && MagicAt(data, off, k)
    ensures j == k
  {
    hide MagicAt;
    MagicBytes(data, off, j);
    MagicBytes(data, off, k);
    if j != k { MagicsApart(j, k); }
  }

  /** Two magics differ in the first two bytes, or in the fourth. */
  lemma MagicsApart(j: nat, k: nat)
    requires j < COUNT && k < COUNT && j != k
    ensures Magic(j)[0] != Magic(k)[0] || Magic(j)[1] != Magic(k)[1] || (|Magic(j)| == 4 && |Magic(k)| == 4 && Magic(j)[3] != Magic(k)[3])
  {
    Key(j);
    Key(k);
  }

  /** The first byte and the second, as a number of its own for all but one pair. */
  lemma Key(k: nat)
    requires k < COUNT
    ensures (Magic(k)[0] as int) * 256 + Magic(k)[1]
              == [0x4D5A, 0x7F45, 0xCEFA, 0xCFFA, 0xFEED, 0xFEED, 0xCAFE, 0x504B, 0x1F8B, 0x425A, 0xFD37, 0x377A, 0x5261, 0x4D53][k]
  {}

  /** A magic never overlaps itself. */
  lemma NoOverlap(data: Bytes, off: nat, d: nat, k: nat)
    requires k < COUNT && 0 < d < |Magic(k)| && MagicAt(data, off, k)
    ensures !MagicAt(data, off + d, k)
  {
    MagicBytes(data, off, k);
    if MagicAt(data, off + d, k) {
      MagicBytes(data, off + d, k);
      assert Magic(k)[d] == Magic(k)[0];
      Borderless(k, d);
    }
  }

  lemma Borderless(k: nat, d: nat)
    requires k < COUNT && 0 < d < |Magic(k)|
    ensures Magic(k)[d] != Magic(k)[0]
  {}

  // ---------------------------------------------------------------- one offset at a time

  datatype Hit = Hit(off: nat, kind: Kind)

  /** The magic that starts at an offset, if one does. */
  ghost function WhichAt(data: Bytes, off: nat): (r: Option<nat>)
    ensures r.Some? ==> r.value < COUNT && MagicAt(data, off, r.value)
    ensures r.None? ==> forall k :: 0 <= k < COUNT ==> !MagicAt(data, off, k)
  {
    if exists k :: 0 <= k < COUNT && MagicAt(data, off, k) then
      var k :| 0 <= k < COUNT && MagicAt(data, off, k); Some(k)
    else None
  }

  lemma WhichIs(data: Bytes, off: nat, k: nat)
    requires k < COUNT && MagicAt(data, off, k)
    ensures WhichAt(data, off) == Some(k)
  {
    hide MagicAt;
    MagicUnique(data, off, k, WhichAt(data, off).value);
  }

  /** Every magic that starts in a stretch, in order. */
  ghost function Hits(data: Bytes, from: nat, end: nat): seq<Hit>
    decreases end
  {
    if end <= from then []
    else Hits(data, from, end - 1)
         + (match WhichAt(data, end - 1)
            case Some(k) => [Hit(end - 1, KindOf(k))]
            case None => [])
  }

  lemma {:induction false} HitsJoin(data: Bytes, from: nat, mid: nat, end: nat)
    requires from <= mid <= end
    ensures Hits(data, from, end) == Hits(data, from, mid) + Hits(data, mid, end)
    decreases end
  {
    hide WhichAt, MagicAt;
    if mid < end {
      HitsJoin(data, from, mid, end - 1);
    }
  }

  /** In ascending order of offset, no two at one offset. */
  predicate Ascending(hits: seq<Hit>) {
    forall i, j :: 0 <= i < j < |hits| ==> hits[i].off < hits[j].off
  }

  ghost predicate HitIn(data: Bytes, from: nat, end: nat, h: Hit) {
    from <= h.off < end && WhichAt(data, h.off).Some? && h.kind == KindOf(WhichAt(data, h.off).value)
  }

  lemma {:induction false} HitsAre(data: Bytes, from: nat, end: nat)
    ensures Ascending(Hits(data, from, end))
    ensures forall h :: h in Hits(data, from, end) <==> HitIn(data, from, end, h)
    decreases end
  {
    hide WhichAt, MagicAt;
    if from < end {
      HitsAre(data, from, end - 1);
      var last := WhichAt(data, end - 1);
      var hits := Hits(data, from, end);
      forall h ensures h in hits <==> HitIn(data, from, end, h) {
        assert h in hits <==> h in Hits(data, from, end - 1) || (last.Some? && h == Hit(end - 1, KindOf(last.value)));
      }
      forall i, j | 0 <= i < j < |hits| ensures hits[i].off < hits[j].off {
        if j == |Hits(data, from, end - 1)| {
          assert hits[i] in Hits(data, from, end - 1);
        }
      }
    }
  }

  /** An ascending list is settled by what is in it. */
  lemma {:induction false} AscendingSame(a: seq<Hit>, b: seq<Hit>)
    requires Ascending(a) && Ascending(b) && forall h :: h in a <==> h in b
    ensures a == b
    decreases |a|
  {
    if b != [] { assert b[0] in b; }
    if a != [] {
      assert a[0] in b && b != [];
      assert b[0] in a;
      assert a[0] == b[0];
      var a', b' := a[1..], b[1..];
      forall h ensures h in a' <==> h in b' {
        assert h in a <==> h == a[0] || h in a';
        assert h in b <==> h == b[0] || h in b';
        if h in a' { var i :| 0 <= i < |a'| && a'[i] == h; assert a[i + 1] == h; }
        if h in b' { var i :| 0 <= i < |b'| && b'[i] == h; assert b[i + 1] == h; }
      }
      AscendingSame(a', b');
    }
  }

  // ---------------------------------------------------------------- a window at a time

  /** All the places a magic starts in `w`, found left to right without overlap. */
  method FindAll(w: Bytes, k: nat) returns (found: seq<nat>)
    requires k < COUNT
    ensures forall i, j :: 0 <= i < j < |found| ==> found[i] < found[j]
    ensures forall p: nat :: p in found <==> MagicAt(w, p, k)
  {
    hide MagicAt;
    found := [];
    var p := 0;
    while p + |Magic(k)| <= |w|
      invariant forall i :: 0 <= i < |found| ==> found[i] < p
      invariant forall i, j :: 0 <= i < j < |found| ==> found[i] < found[j]
      invariant forall q: nat :: q in found <==> q < p && MagicAt(w, q, k)
    {
      if MagicAt(w, p, k) {
        ghost var next := p + |Magic(k)|;
        forall q: nat | p < q < next ensures !MagicAt(w, q, k) { NoOverlap(w, p, q - p, k); }
        found := found + [p];
        p := p + |Magic(k)|;
      } else {
        p := p + 1;
      }
    }
    forall q: nat | p <= q ensures !MagicAt(w, q, k) { TooFar(w, q, k); }
  }

  lemma TooFar(w: Bytes, q: nat, k: nat)
    requires k < COUNT && q + |Magic(k)| > |w|
    ensures !MagicAt(w, q, k)
  {}

  /** A magic that starts in a window's own bytes is whole in the window. */
  lemma WindowMatch(data: Bytes, at: nat, w: Bytes, owned: nat, p: nat, k: nat)
    requires at + |w| <= |data| && w == data[at..at + |w|] && p < owned <= |w| && k < COUNT
    requires owned + OVERLAP <= |w| || at + |w| == |data|
    ensures MagicAt(w, p, k) <==> MagicAt(data, at + p, k)
  {
    hide Magic;
    var n := |Magic(k)|;
    if p + n <= |w| {
      SubSlice(data, at, at + |w|, p, p + n);
    }
  }

  predicate Distinct(hits: seq<Hit>) {
    forall i, j :: 0 <= i < j < |hits| ==> hits[i].off != hits[j].off
  }

  /** Hits put in order of offset. */
  method SortByOffset(hits: seq<Hit>) returns (sorted: seq<Hit>)
    requires Distinct(hits)
    ensures Ascending(sorted) && forall h :: h in sorted <==> h in hits
  {
    sorted := [];
    for n := 0 to |hits|
      invariant Ascending(sorted) && forall h :: h in sorted <==> h in hits[..n]
    {
      var i := 0;
      while i < |sorted| && sorted[i].off < hits[n].off
        invariant i <= |sorted| && forall j :: 0 <= j < i ==> sorted[j].off < hits[n].off
      {
        i := i + 1;
      }
      ghost var before := sorted;
      InsertAscending(before, hits, n, i);
      sorted := sorted[..i] + [hits[n]] + sorted[i..];
    }
    assert hits[..|hits|] == hits;
  }

  lemma InsertAscending(sorted: seq<Hit>, hits: seq<Hit>, n: nat, i: nat)
    requires Ascending(sorted) && Distinct(hits) && n < |hits| && i <= |sorted|
    requires forall h :: h in sorted <==> h in hits[..n]
    requires forall j :: 0 <= j < i ==> sorted[j].off < hits[n].off
    requires i < |sorted| ==> sorted[i].off >= hits[n].off
    ensures var s := sorted[..i] + [hits[n]] + sorted[i..]; Ascending(s) && forall h :: h in s <==> h in hits[..n + 1]
  {
    var s := sorted[..i] + [hits[n]] + sorted[i..];
    forall j | 0 <= j < |sorted| ensures sorted[j].off != hits[n].off {
      assert sorted[j] in hits[..n];
    }
    forall h ensures h in s <==> h in hits[..n + 1] {
      assert h in s <==> h in sorted[..i] || h == hits[n] || h in sorted[i..];
      assert h in sorted <==> h in sorted[..i] || h in sorted[i..] by { assert sorted == sorted[..i] + sorted[i..]; }
      assert hits[..n + 1] == hits[..n] + [hits[n]];
    }
  }

  /** The magics that start in the first `owned` bytes of a window, found magic by magic and put in
      order, are those found an offset at a time. */
  method WindowHits(data: Bytes, at: nat, w: Bytes, owned: nat) returns (hits: seq<Hit>)
    requires at + |w| <= |data| && w == data[at..at + |w|] && owned <= |w|
    requires owned + OVERLAP <= |w| || at + |w| == |data|
    ensures hits == Hits(data, at, at + owned)
  {
    hide WhichAt, MagicAt;
    var all: seq<Hit> := [];
    for k := 0 to COUNT
      invariant Distinct(all)
      invariant forall h :: h in all <==> HitIn(data, at, at + owned, h) && WhichAt(data, h.off).value < k
    {
      var found := FindAll(w, k);
      all := KeepOwned(data, at, w, owned, k, found, all);
    }
    HitsAre(data, at, at + owned);
    hits := SortByOffset(all);
    forall h ensures h in hits <==> h in Hits(data, at, at + owned) { WhichInTable(data, h.off); }
    AscendingSame(hits, Hits(data, at, at + owned));
  }

  lemma WhichInTable(data: Bytes, off: nat)
    ensures WhichAt(data, off).Some? ==> WhichAt(data, off).value < COUNT
  {}

  /** The places found for one magic, while they are in the window's own bytes. */
  method KeepOwned(data: Bytes, at: nat, w: Bytes, owned: nat, k: nat, found: seq<nat>, all: seq<Hit>) returns (more: seq<Hit>)
    requires at + |w| <= |data| && w == data[at..at + |w|] && owned <= |w| && k < COUNT
    requires owned + OVERLAP <= |w| || at + |w| == |data|
    requires forall i, j :: 0 <= i < j < |found| ==> found[i] < found[j]
    requires forall p: nat :: p in found <==> MagicAt(w, p, k)
    requires Distinct(all)
    requires forall h :: h in all <==> HitIn(data, at, at + owned, h) && WhichAt(data, h.off).value < k
    ensures Distinct(more)
    ensures forall h :: h in more <==> HitIn(data, at, at + owned, h) && WhichAt(data, h.off).value <= k
  {
    hide WhichAt, MagicAt;
    more := all;
    var i := 0;
    while i < |found| && found[i] < owned
      invariant i <= |found|
      invariant forall j :: 0 <= j < i ==> found[j] < owned
      invariant forall h :: h in more <==> h in all || (h.off >= at && h.off - at in found[..i] && h.kind == KindOf(k))
      invariant Distinct(more)
    {
      ghost var off := at + found[i];
      assert found[i] in found;
      WindowMatch(data, at, w, owned, found[i], k);
      WhichIs(data, off, k);
      forall h | h in more ensures h.off != off {
        if h in all { assert WhichAt(data, h.off).value < k; }
        else { var j :| 0 <= j < i && found[j] == h.off - at; }
      }
      more := more + [Hit(at + found[i], KindOf(k))];
      assert found[..i + 1] == found[..i] + [found[i]];
      i := i + 1;
    }
    KeptAre(data, at, w, owned, k, found, all, more, i);
  }

  lemma KeptAre(data: Bytes, at: nat, w: Bytes, owned: nat, k: nat, found: seq<nat>, all: seq<Hit>, more: seq<Hit>, i: nat)
    requires at + |w| <= |data| && w == data[at..at + |w|] && owned <= |w| && k < COUNT
    requires owned + OVERLAP <= |w| || at + |w| == |data|
    requires forall i, j :: 0 <= i < j < |found| ==> found[i] < found[j]
    requires forall p: nat :: p in found <==> MagicAt(w, p, k)
    requires forall h :: h in all <==> HitIn(data, at, at + owned, h) && WhichAt(data, h.off).value < k
    requires i <= |found| && (forall j :: 0 <= j < i ==> found[j] < owned) && (i < |found| ==> found[i] >= owned)
    requires forall h :: h in more <==> h in all || (h.off >= at && h.off - at in found[..i] && h.kind == KindOf(k))
    ensures forall h :: h in more <==> HitIn(data, at, at + owned, h) && WhichAt(data, h.off).value <= k
  {
    hide WhichAt, MagicAt;
    forall h ensures h in more <==> HitIn(data, at, at + owned, h) && WhichAt(data, h.off).value <= k {
      if at <= h.off < at + owned {
        var p := h.off - at;
        WindowMatch(data, at, w, owned, p, k);
        if MagicAt(data, h.off, k) { WhichIs(data, h.off, k); }
        WhichMatches(data, h.off);
        if p in found {
          var j :| 0 <= j < |found| && found[j] == p;
          assert j < i;
          assert found[..i][j] == p;
        }
      }
    }
  }

  lemma WhichMatches(data: Bytes, off: nat)
    ensures WhichAt(data, off).Some? ==> MagicAt(data, off, WhichAt(data, off).value)
  {}
}
