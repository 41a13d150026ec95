/** Whether the headers of a PE file describe an image a loader could map. */
module PeLayout {
  import opened ByteSeq
  import opened Arith

  datatype Section = Section(vsize: nat, va: nat, rawSize: nat, rawPtr: nat)

  /** What the headers say, with the length of the file. */
  datatype Layout = Layout(n: nat, entry: nat, salign: nat, falign: nat, headers: nat, sections: seq<Section>)

  /** Headers are absent or cut short, cannot be right, or describe a layout. */
  datatype Header = TooLittle | Wrong | Headed(l: Layout)

  datatype Verdict = NotJudged | Broken | Sound

  // ---------------------------------------------------------------- header fields

  function Slice(data: Bytes, off: nat, len: nat): (r: Option<Bytes>)
    ensures r.Some? ==> |r.value| == len
  {
    if off + len <= |data| then Some(data[off..off + len]) else None
  }

  /** Fields read through one window that is kept: `room` bytes, or as many as a field needs. */
  class Fields {
    const data: Bytes
    const room: nat
    var at: nat
    var buf: Bytes

    ghost predicate Valid()
      reads this
    {
      at + |buf| <= |data| && buf == data[at..at + |buf|]
    }

    constructor (data: Bytes, room: nat)
      ensures Valid() && this.data == data
    {
      this.data, this.room := data, room;
      at, buf := 0, [];
    }

    /** The object's own bytes, whatever the window held; nothing when the object ends first. */
    method Get(off: nat, len: nat) returns (r: Option<Bytes>)
      requires Valid()
      modifies this
      ensures Valid() && r == Slice(data, off, len)
    {
      var end := off + len;
      if end > |data| { return None; }
      if off < at || end > at + |buf| {
        at := off;
        buf := data[off..Min(off + Max(len, room), |data|)];
      }
      r := Some(buf[off - at..end - at]);
      SubSlice(data, at, at + |buf|, off - at, end - at);
    }
  }

  // ---------------------------------------------------------------- the layout

  /** The least multiple of `a` that is not below `x`, or `x` when `a` is 0. */
  function RoundUp(x: nat, a: nat): (r: nat)
    ensures r >= x && (a == 0 ==> r == x)
    ensures a > 0 ==> r % a == 0 && r - x < a
  {
    if a == 0 then x
    else
      RoundUpIs(x, a);
      (x + a - 1) / a * a
  }

  lemma RoundUpIs(x: nat, a: nat)
    requires a > 0
    ensures var r := (x + a - 1) / a * a; r >= x && r % a == 0 && r - x < a
  {
    var q := (x + a - 1) / a;
    assert q * a + (x + a - 1) % a == x + a - 1;
    Multiple(q, a);
  }

  /** The room a section takes in memory. */
  function Extent(s: Section, salign: nat): nat { RoundUp(if s.vsize != 0 then s.vsize else s.rawSize, salign) }

  predicate Listed(s: Section, n: nat) { s.rawSize == 0 || s.rawPtr < n }

  /** The sections that are laid out: one whose data starts past the end of the file is not. */
  function Kept(sections: seq<Section>, n: nat): seq<Section> {
    if sections == [] then []
    else Kept(sections[..|sections| - 1], n) + if Listed(sections[|sections| - 1], n) then [sections[|sections| - 1]] else []
  }

  /** Each section starts where the one before it ends. */
  predicate Chained(k: seq<Section>, salign: nat) {
    forall i :: 0 < i < |k| ==> k[i].va == k[i - 1].va + Extent(k[i - 1], salign)
  }

  predicate HoldsEntry(s: Section, entry: nat, falign: nat) { s.va <= entry < s.va + RoundUp(s.rawSize, falign) }

  /** The greatest multiple of `a` that is not above `x`, or `x` when `a` is 0. */
  function RoundDown(x: nat, a: nat): (r: nat)
    ensures r <= x && (a == 0 ==> r == x)
    ensures a > 0 ==> r % a == 0 && x - r < a
  {
    if a == 0 then x
    else
      RoundDownIs(x, a);
      x / a * a
  }

  lemma RoundDownIs(x: nat, a: nat)
    requires a > 0
    ensures var r := x / a * a; r <= x && r % a == 0 && x - r < a
  {
    assert x / a * a + x % a == x;
    Multiple(x / a, a);
  }

  /** Where in the file the entry point is: in the headers, or in the first section whose data has it. */
  function EntryOffset(l: Layout, k: seq<Section>, i: nat): Option<nat>
    decreases |k| - i
  {
    if k != [] && l.entry < k[0].va then Some(l.entry)
    else if i >= |k| then None
    else if HoldsEntry(k[i], l.entry, l.falign) then Some(RoundDown(k[i].rawPtr, l.falign) + (l.entry - k[i].va))
    else EntryOffset(l, k, i + 1)
  }

  predicate Mappable(l: Layout) {
    var k := Kept(l.sections, l.n);
    && k != [] && k[0].va == RoundUp(l.headers, l.salign) && Chained(k, l.salign)
    && EntryOffset(l, k, 0).Some? && EntryOffset(l, k, 0).value < l.n
  }

  /** The section header at a place in the table. */
  function SectionAt(table: Bytes, i: nat): Section
    requires 40 * i + 40 <= |table|
  {
    Section(FromLe(table[40 * i + 8..40 * i + 12]), FromLe(table[40 * i + 12..40 * i + 16]),
            FromLe(table[40 * i + 16..40 * i + 20]), FromLe(table[40 * i + 20..40 * i + 24]))
  }

  function Sections(table: Bytes): seq<Section> {
    seq(|table| / 40, i requires 0 <= i < |table| / 40 => SectionAt(table, i))
  }

  predicate PeMagic(coff: Bytes) { |coff| >= 4 && coff[..4] == [80, 69, 0, 0] }

  function HeaderOf(data: Bytes): Header {
    var lfanew := Slice(data, 0x3c, 4);
    if lfanew.None? then TooLittle
    else
      var e := FromLe(lfanew.value);
      var coff := Slice(data, e, 24);
      if coff.None? || !PeMagic(coff.value) then TooLittle
      else OptionalOf(data, e + 24, FromLe(coff.value[6..8]), FromLe(coff.value[20..22]))
  }

  function FixedSize(data: Bytes, opt: nat): nat {
    var magic := Slice(data, opt, 2);
    if magic.Some? && FromLe(magic.value) == 0x20b then 112 else 96
  }

  function OptionalOf(data: Bytes, opt: nat, nsec: nat, optsz: nat): Header {
    var fixed := FixedSize(data, opt);
    var h := Slice(data, opt, fixed);
    if optsz < fixed || h.None? then Wrong
    else
      var dirs := Min(FromLe(h.value[fixed - 4..fixed]), 16) * 8;
      if optsz < fixed + dirs then Wrong
      else if opt + fixed + dirs > |data| then TooLittle
      else if nsec == 0 || !Aligned(h.value) then Wrong
      else
        var table := Slice(data, opt + optsz, nsec * 40);
        if table.None? then Wrong
        else Headed(Layout(|data|, FromLe(h.value[16..20]), FromLe(h.value[32..36]), FromLe(h.value[36..40]), FromLe(h.value[60..64]),
                           Sections(table.value)))
  }

  /** Drivers may use any alignment in the file; everything has one in memory. */
  predicate Aligned(h: Bytes)
    requires |h| >= 70
  {
    var salign, falign := FromLe(h[32..36]), FromLe(h[36..40]);
    salign != 0 && (FromLe(h[68..70]) == 1 || (falign != 0 && falign % 0x200 == 0 && salign % 0x1000 == 0))
  }

  function Judge(data: Bytes): Verdict {
    match HeaderOf(data)
    case TooLittle => NotJudged
    case Wrong => Broken
    case Headed(l) => if Mappable(l) then Sound else Broken
  }

  // ---------------------------------------------------------------- the check

  method KeptSections(sections: seq<Section>, n: nat) returns (k: seq<Section>)
    ensures k == Kept(sections, n)
  {
    k := [];
    assert sections[..|sections|] == sections;
    for i := 0 to |sections|
      invariant k == Kept(sections[..i], n)
    {
      assert sections[..i + 1][..i] == sections[..i];
      if sections[i].rawSize == 0 || sections[i].rawPtr < n { k := k + [sections[i]]; }
    }
  }

  method LayoutBroken(l: Layout) returns (broken: bool)
    ensures broken <==> !Mappable(l)
  {
    hide RoundUp, RoundDown;
    var k := KeptSections(l.sections, l.n);
    if k == [] { return true; }
    var first := k[0].va;
    if first != RoundUp(l.headers, l.salign) { return true; }
    var end := first;
    for i := 0 to |k|
      invariant end == if i == 0 then first else k[i - 1].va + Extent(k[i - 1], l.salign)
      invariant forall j :: 0 < j < i ==> k[j].va == k[j - 1].va + Extent(k[j - 1], l.salign)
    {
      if k[i].va != end { return true; }
      end := k[i].va + RoundUp(if k[i].vsize != 0 then k[i].vsize else k[i].rawSize, l.salign);
    }
    if l.entry < first { return l.entry >= l.n; }
    var i := 0;
    while i < |k| && !(l.entry >= k[i].va && l.entry - k[i].va < RoundUp(k[i].rawSize, l.falign))
      invariant i <= |k| && EntryOffset(l, k, 0) == EntryOffset(l, k, i)
    {
      i := i + 1;
    }
    if i == |k| { return true; }
    return RoundDown(k[i].rawPtr, l.falign) + (l.entry - k[i].va) >= l.n;
  }

  /** The check over an object read through a window of any size. */
  method PeBroken(data: Bytes, room: nat) returns (v: Verdict)
    ensures v == Judge(data)
  {
    hide Mappable, FromLe, Slice, Sections;
    var f := new Fields(data, room);
    var lfanew := f.Get(0x3c, 4);
    if lfanew.None? { return NotJudged; }
    var e := FromLe(lfanew.value);
    var coff := f.Get(e, 24);
    if coff.None? { return NotJudged; }
    if coff.value[..4] != [80, 69, 0, 0] { return NotJudged; }
    v := OptionalBroken(f, e + 24, FromLe(coff.value[6..8]), FromLe(coff.value[20..22]));
  }

  method OptionalBroken(f: Fields, opt: nat, nsec: nat, optsz: nat) returns (v: Verdict)
    requires f.Valid()
    modifies f
    ensures v == match OptionalOf(f.data, opt, nsec, optsz)
                 case TooLittle => NotJudged
                 case Wrong => Broken
                 case Headed(l) => if Mappable(l) then Sound else Broken
  {
    hide Mappable, FromLe, Slice, Sections;
    var magic := f.Get(opt, 2);
    var fixed := if magic.Some? && FromLe(magic.value) == 0x20b then 112 else 96;
    if optsz < fixed { return Broken; }
    var got := f.Get(opt, fixed);
    if got.None? { return Broken; }
    var h := got.value;
    var dirs := Min(FromLe(h[fixed - 4..fixed]), 16) * 8;
    if optsz < fixed + dirs { return Broken; }
    if opt + fixed + dirs > |f.data| { return NotJudged; }
    if nsec == 0 { return Broken; }
    var entry, salign, falign, headers := FromLe(h[16..20]), FromLe(h[32..36]), FromLe(h[36..40]), FromLe(h[60..64]);
    var native := FromLe(h[68..70]) == 1;
    var aligned := falign != 0 && falign % 0x200 == 0 && salign != 0 && salign % 0x1000 == 0;
    if salign == 0 || !(native || aligned) { return Broken; }
    var table := f.Get(opt + optsz, nsec * 40);
    if table.None? { return Broken; }
    var broken := LayoutBroken(Layout(|f.data|, entry, salign, falign, headers, Sections(table.value)));
    return if broken then Broken else Sound;
  }

  // ---------------------------------------------------------------- what a sound layout is

  /** The addresses a section takes. */
  predicate Holds(s: Section, salign: nat, a: nat) { s.va <= a < s.va + Extent(s, salign) }

  function End(k: seq<Section>, salign: nat): nat
    requires k != []
  {
    k[|k| - 1].va + Extent(k[|k| - 1], salign)
  }

  lemma {:induction false} InOrder(k: seq<Section>, salign: nat, i: nat, j: nat)
    requires Chained(k, salign) && i < j < |k|
    ensures k[i].va + Extent(k[i], salign) <= k[j].va
    decreases j
  {
    hide Extent;
    if i < j - 1 { InOrder(k, salign, i, j - 1); }
  }

  lemma {:induction false} StartsAligned(k: seq<Section>, salign: nat, i: nat)
    requires salign > 0 && Chained(k, salign) && i < |k| && k[0].va % salign == 0
    ensures k[i].va % salign == 0
  {
    if i > 0 {
      StartsAligned(k, salign, i - 1);
      hide RoundUp;
      SumAligned(k[i - 1].va, Extent(k[i - 1], salign), salign);
    }
  }

  lemma SumAligned(a: nat, b: nat, n: nat)
    requires n > 0 && a % n == 0 && b % n == 0
    ensures (a + b) % n == 0
  {
    assert a == a / n * n && b == b / n * n;
    assert a + b == (a / n + b / n) * n;
    Multiple(a / n + b / n, n);
  }

  /** Every address of the image is in one section. */
  lemma {:induction false} Covered(k: seq<Section>, salign: nat, a: nat, j: nat) returns (i: nat)
    requires Chained(k, salign) && j < |k| && k[0].va <= a < k[j].va + Extent(k[j], salign)
    ensures i <= j && Holds(k[i], salign, a)
    decreases j
  {
    hide Extent;
    if k[j].va <= a {
      i := j;
    } else {
      i := Covered(k, salign, a, j - 1);
    }
  }

  /** A layout that passes tiles memory: the sections start right after the aligned headers, at
      aligned addresses, and every address up to the end of the image is in exactly one. */
  lemma SoundTiles(l: Layout, a: nat)
    requires Mappable(l) && l.salign > 0
    ensures var k := Kept(l.sections, l.n);
            && k[0].va >= l.headers && k[0].va - l.headers < l.salign
            && (forall i :: 0 <= i < |k| ==> k[i].va % l.salign == 0)
            && (k[0].va <= a < End(k, l.salign) <==> exists i :: 0 <= i < |k| && Holds(k[i], l.salign, a))
            && (forall i, j :: 0 <= i < j < |k| ==> !(Holds(k[i], l.salign, a) && Holds(k[j], l.salign, a)))
  {
    hide Extent, RoundUp;
    var k := Kept(l.sections, l.n);
    forall i | 0 <= i < |k| ensures k[i].va % l.salign == 0 { StartsAligned(k, l.salign, i); }
    forall i, j | 0 <= i < j < |k| ensures !(Holds(k[i], l.salign, a) && Holds(k[j], l.salign, a)) {
      InOrder(k, l.salign, i, j);
    }
    if k[0].va <= a < End(k, l.salign) {
      var i := Covered(k, l.salign, a, |k| - 1);
    }
    forall i | 0 <= i < |k| && Holds(k[i], l.salign, a) ensures k[0].va <= a < End(k, l.salign) {
      if i > 0 { InOrder(k, l.salign, 0, i); }
      if i < |k| - 1 { InOrder(k, l.salign, i, |k| - 1); }
    }
  }

  lemma {:induction false} EntryFound(l: Layout, k: seq<Section>, i: nat)
    requires EntryOffset(l, k, i).Some? && k != [] && l.entry >= k[0].va
    ensures exists j :: i <= j < |k| && HoldsEntry(k[j], l.entry, l.falign)
                        && EntryOffset(l, k, i).value == RoundDown(k[j].rawPtr, l.falign) + (l.entry - k[j].va)
    decreases |k| - i
  {
    hide HoldsEntry;
    if !HoldsEntry(k[i], l.entry, l.falign) { EntryFound(l, k, i + 1); }
  }

  lemma {:induction false} KeptListed(sections: seq<Section>, n: nat)
    ensures forall i :: 0 <= i < |Kept(sections, n)| ==> Kept(sections, n)[i] in sections && Listed(Kept(sections, n)[i], n)
  {
    if sections != [] { KeptListed(sections[..|sections| - 1], n); }
  }

  /** The entry point is in the data of a listed section, at an offset inside the file. */
  predicate EntersAt(s: Section, l: Layout) {
    && s in l.sections && Listed(s, l.n) && HoldsEntry(s, l.entry, l.falign)
    && RoundDown(s.rawPtr, l.falign) + (l.entry - s.va) < l.n
  }

  /** The entry point of a sound image is at an offset inside the file: in the headers, or in the data
      of a listed section that starts inside the file. */
  lemma SoundEntry(data: Bytes)
    requires Judge(data) == Sound
    ensures var l := HeaderOf(data).l; var k := Kept(l.sections, l.n);
            && l.n == |data| && l.salign > 0 && Mappable(l)
            && (l.entry < k[0].va ==> l.entry < |data|)
            && (l.entry >= k[0].va ==> exists j :: 0 <= j < |k| && EntersAt(k[j], l))
  {
    hide FromLe, RoundUp, RoundDown, Sections, Chained;
    var l := HeaderOf(data).l;
    var k := Kept(l.sections, l.n);
    KeptListed(l.sections, l.n);
    if l.entry >= k[0].va { EntryFound(l, k, 0); }
  }
}
