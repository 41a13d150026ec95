/** PE files written field by field, and what the check says of them: every header field is read back from its
    own place, and an image is sound exactly when it is laid out as a loader would map it. */
module PeImages {
  import opened ByteSeq
  import opened Numerals
  import opened Pieces
  import opened PeLayout

  // ---------------------------------------------------------------- records

  /** The file header, after its signature. */
  datatype Coff = Coff(machine: nat, nsec: nat, stamp: nat, symbols: nat, count: nat, optsz: nat, flags: nat)

  predicate CoffFits(c: Coff) {
    && c.machine < 0x1_0000 && c.nsec < 0x1_0000 && c.optsz < 0x1_0000 && c.flags < 0x1_0000
    && c.stamp < U32 && c.symbols < U32 && c.count < U32
  }

  function CoffParts(c: Coff): seq<Bytes> {
    [Ascii("PE") + [0, 0], ToLe(c.machine, 2), ToLe(c.nsec, 2), ToLe(c.stamp, 4), ToLe(c.symbols, 4), ToLe(c.count, 4),
     ToLe(c.optsz, 2), ToLe(c.flags, 2)]
  }

  /** The optional header up to its data directories; what is not judged is kept as bytes. */
  datatype Optional = Optional(
    magic: nat, linker: Bytes, code: nat, data: nat, bss: nat, entry: nat, codeBase: nat, base: Bytes, salign: nat, falign: nat,
    versions: Bytes, reserved: nat, imageSize: nat, headers: nat, checksum: nat, subsystem: nat, dll: nat, memory: Bytes, loader: nat,
    dirs: nat)

  const PE32_PLUS: nat := 0x20b

  predicate OptionalFits(o: Optional) {
    && o.magic < 0x1_0000 && |o.linker| == 2 && o.code < U32 && o.data < U32 && o.bss < U32 && o.entry < U32 && o.codeBase < U32
    && |o.base| == 8 && o.salign < U32 && o.falign < U32 && |o.versions| == 12 && o.reserved < U32 && o.imageSize < U32
    && o.headers < U32 && o.checksum < U32 && o.subsystem < 0x1_0000 && o.dll < 0x1_0000
    && |o.memory| == (if o.magic == PE32_PLUS then 32 else 16) && o.loader < U32 && o.dirs < U32
  }

  function OptionalParts(o: Optional): seq<Bytes> {
    [ToLe(o.magic, 2), o.linker, ToLe(o.code, 4), ToLe(o.data, 4), ToLe(o.bss, 4), ToLe(o.entry, 4), ToLe(o.codeBase, 4), o.base,
     ToLe(o.salign, 4), ToLe(o.falign, 4), o.versions, ToLe(o.reserved, 4), ToLe(o.imageSize, 4), ToLe(o.headers, 4),
     ToLe(o.checksum, 4), ToLe(o.subsystem, 2), ToLe(o.dll, 2), o.memory, ToLe(o.loader, 4), ToLe(o.dirs, 4)]
  }

  /** A section header: the name, the layout, and what is not judged. */
  datatype Record = Record(name: Bytes, s: Section, rest: Bytes)

  predicate RecordFits(r: Record) {
    |r.name| == 8 && r.s.vsize < U32 && r.s.va < U32 && r.s.rawSize < U32 && r.s.rawPtr < U32 && |r.rest| == 16
  }

  function RecordParts(r: Record): seq<Bytes> {
    [r.name, ToLe(r.s.vsize, 4), ToLe(r.s.va, 4), ToLe(r.s.rawSize, 4), ToLe(r.s.rawPtr, 4), r.rest]
  }

  /** A file: the DOS header up to the place of the PE header, a stub, the headers, the data directories with
      whatever pads them, the section table, and what follows. */
  datatype Image = Image(dos: Bytes, stub: Bytes, coff: Coff, opt: Optional, more: Bytes, records: seq<Record>, after: Bytes)

  function RecordBytes(records: seq<Record>): seq<Bytes> {
    seq(|records|, i requires 0 <= i < |records| => Concat(RecordParts(records[i])))
  }

  function Table(records: seq<Record>): Bytes { Concat(RecordBytes(records)) }

  function ImageParts(im: Image): seq<Bytes> {
    [im.dos, ToLe(64 + |im.stub|, 4), im.stub, Concat(CoffParts(im.coff)), Concat(OptionalParts(im.opt)), im.more, Table(im.records),
     im.after]
  }

  function Written(im: Image): Bytes { Concat(ImageParts(im)) }

  /** The data directories counted: no more than 16. */
  function DirBytes(o: Optional): nat { 8 * Min(o.dirs, 16) }

  predicate Legal(im: Image) {
    && |im.dos| == 60 && 64 + |im.stub| < U32 && CoffFits(im.coff) && OptionalFits(im.opt)
    && im.coff.nsec == |im.records| && im.coff.optsz == |Concat(OptionalParts(im.opt))| + |im.more| && DirBytes(im.opt) <= |im.more|
    && forall i :: 0 <= i < |im.records| ==> RecordFits(im.records[i])
  }

  // ---------------------------------------------------------------- fields read back

  lemma Limits()
    ensures Limit(2) == 0x1_0000 && Limit(4) == U32
  {
    assert Limit(1) == 256 && Limit(3) == 256 * Limit(2);
  }

  /** A word at a place is read back from it. */
  lemma WordAt(text: Bytes, i: nat, v: nat, n: nat)
    requires At(text, i, ToLe(v, n)) && v < Limit(n)
    ensures i + n <= |text| && FromLe(text[i..i + n]) == v
  {
    hide ToLe, FromLe;
    LeRoundTrip(v, n);
  }

  lemma CoffRead(c: Coff)
    requires CoffFits(c)
    ensures var b := Concat(CoffParts(c)); |b| == 24 && b[..4] == [80, 69, 0, 0] && FromLe(b[6..8]) == c.nsec && FromLe(b[20..22]) == c.optsz
  {
    hide ToLe, FromLe, Concat, Limit;
    var ps := CoffParts(c);
    CoffPlaces(c);
    ConcatLength(ps);
    PartAt(ps, 0);
    PartAt(ps, 2);
    PartAt(ps, 6);
    Limits();
    WordAt(Concat(ps), 6, c.nsec, 2);
    WordAt(Concat(ps), 20, c.optsz, 2);
    Signature();
  }

  lemma Signature()
    ensures Ascii("PE") + [0, 0] == [80, 69, 0, 0]
  {}

  lemma CoffPlaces(c: Coff)
    ensures var ps := CoffParts(c); Offset(ps, 0) == 0 && Offset(ps, 2) == 6 && Offset(ps, 6) == 20 && Offset(ps, 8) == 24
  {
    hide ToLe;
    var ps := CoffParts(c);
    assert Offset(ps, 1) == 4 && Offset(ps, 2) == 6 && Offset(ps, 3) == 8 && Offset(ps, 4) == 12;
    assert Offset(ps, 5) == 16 && Offset(ps, 6) == 20 && Offset(ps, 7) == 22 && Offset(ps, 8) == 24;
  }

  lemma OptionalPlaces(o: Optional)
    requires OptionalFits(o)
    ensures var ps := OptionalParts(o); var m := |o.memory|;
            && Offset(ps, 0) == 0 && Offset(ps, 5) == 16 && Offset(ps, 8) == 32 && Offset(ps, 9) == 36 && Offset(ps, 13) == 60
            && Offset(ps, 15) == 68 && Offset(ps, 19) == 76 + m && Offset(ps, 20) == 80 + m
  {
    hide ToLe;
    var ps, m := OptionalParts(o), |o.memory|;
    assert Offset(ps, 1) == 2 && Offset(ps, 2) == 4 && Offset(ps, 3) == 8 && Offset(ps, 4) == 12 && Offset(ps, 5) == 16;
    assert Offset(ps, 6) == 20 && Offset(ps, 7) == 24 && Offset(ps, 8) == 32 && Offset(ps, 9) == 36 && Offset(ps, 10) == 40;
    assert Offset(ps, 11) == 52 && Offset(ps, 12) == 56 && Offset(ps, 13) == 60 && Offset(ps, 14) == 64 && Offset(ps, 15) == 68;
    assert Offset(ps, 16) == 70 && Offset(ps, 17) == 72 && Offset(ps, 18) == 72 + m && Offset(ps, 19) == 76 + m;
  }

  /** Each field judged is where a reader of the optional header looks. */
  lemma OptionalRead(o: Optional)
    requires OptionalFits(o)
    ensures var b := Concat(OptionalParts(o)); var m := |o.memory|;
            && |b| == 80 + m && FromLe(b[..2]) == o.magic && FromLe(b[16..20]) == o.entry && FromLe(b[32..36]) == o.salign
            && FromLe(b[36..40]) == o.falign && FromLe(b[60..64]) == o.headers && FromLe(b[68..70]) == o.subsystem
            && FromLe(b[76 + m..80 + m]) == o.dirs
  {
    hide ToLe, FromLe, Concat, Limit, Offset, At;
    var ps := OptionalParts(o);
    var b, m := Concat(ps), |o.memory|;
    OptionalPlaces(o);
    ConcatLength(ps);
    Limits();
    PartAt(ps, 0);
    PartAt(ps, 5);
    PartAt(ps, 8);
    PartAt(ps, 9);
    PartAt(ps, 13);
    PartAt(ps, 15);
    PartAt(ps, 19);
    WordAt(b, 0, o.magic, 2);
    WordAt(b, 16, o.entry, 4);
    WordAt(b, 32, o.salign, 4);
    WordAt(b, 36, o.falign, 4);
    WordAt(b, 60, o.headers, 4);
    WordAt(b, 68, o.subsystem, 2);
    WordAt(b, 76 + m, o.dirs, 4);
  }

  lemma RecordPlaces(r: Record)
    requires |r.name| == 8 && |r.rest| == 16
    ensures var ps := RecordParts(r);
            Offset(ps, 1) == 8 && Offset(ps, 2) == 12 && Offset(ps, 3) == 16 && Offset(ps, 4) == 20 && Offset(ps, 5) == 24 && Offset(ps, 6) == 40
  {
    hide ToLe;
    var ps := RecordParts(r);
    assert Offset(ps, 0) == 0 && Offset(ps, 1) == 8;
  }

  lemma RecordRead(table: Bytes, i: nat, r: Record)
    requires RecordFits(r) && At(table, 40 * i, Concat(RecordParts(r)))
    ensures 40 * i + 40 <= |table| && SectionAt(table, i) == r.s
  {
    hide ToLe, FromLe, Concat, Limit, Offset, At;
    var ps := RecordParts(r);
    var b := Concat(ps);
    RecordPlaces(r);
    ConcatLength(ps);
    Limits();
    RecordWithin(table, 40 * i, r, 1, r.s.vsize);
    RecordWithin(table, 40 * i, r, 2, r.s.va);
    RecordWithin(table, 40 * i, r, 3, r.s.rawSize);
    RecordWithin(table, 40 * i, r, 4, r.s.rawPtr);
    assert 40 * i + 40 <= |table| by { AtFits(table, 40 * i, b); }
  }

  lemma AtFits(text: Bytes, i: nat, p: Bytes)
    requires At(text, i, p)
    ensures i + |p| <= |text|
  {}

  lemma RecordWithin(table: Bytes, at: nat, r: Record, k: nat, v: nat)
    requires At(table, at, Concat(RecordParts(r))) && k < 6 && RecordParts(r)[k] == ToLe(v, 4) && v < U32
    ensures at + Offset(RecordParts(r), k) + 4 <= |table|
    ensures FromLe(table[at + Offset(RecordParts(r), k)..at + Offset(RecordParts(r), k) + 4]) == v
  {
    hide ToLe, FromLe, Concat, Limit, Offset, At;
    var ps := RecordParts(r);
    PartAt(ps, k);
    AtWithin(table, at, Concat(ps), Offset(ps, k), ps[k]);
    Limits();
    WordAt(table, at + Offset(ps, k), v, 4);
  }

  // ---------------------------------------------------------------- the section table

  lemma RecordLength(r: Record)
    requires RecordFits(r)
    ensures |Concat(RecordParts(r))| == 40
  {
    hide Concat, Offset;
    RecordPlaces(r);
    ConcatLength(RecordParts(r));
  }

  lemma {:induction false} Forties(parts: seq<Bytes>, k: nat)
    requires k <= |parts| && forall i :: 0 <= i < |parts| ==> |parts[i]| == 40
    ensures Offset(parts, k) == 40 * k
  {
    if k > 0 { Forties(parts, k - 1); }
  }

  lemma TableRead(records: seq<Record>)
    requires forall i :: 0 <= i < |records| ==> RecordFits(records[i])
    ensures |Table(records)| == 40 * |records| && Sections(Table(records)) == seq(|records|, i requires 0 <= i < |records| => records[i].s)
  {
    hide RecordFits, SectionAt, Concat, Offset;
    var parts, table := RecordBytes(records), Table(records);
    forall i | 0 <= i < |parts| ensures |parts[i]| == 40 { RecordLength(records[i]); }
    ConcatLength(parts);
    Forties(parts, |parts|);
    forall i | 0 <= i < |records| ensures 40 * i + 40 <= |table| && SectionAt(table, i) == records[i].s {
      Forties(parts, i);
      PartAt(parts, i);
      RecordRead(table, i, records[i]);
    }
  }

  // ---------------------------------------------------------------- the whole file

  /** Where the optional header starts. */
  function OptAt(im: Image): nat { 88 + |im.stub| }

  function Fixed(im: Image): nat { 80 + |im.opt.memory| }

  lemma ImagePlaces(im: Image)
    requires Legal(im)
    ensures var ps := ImageParts(im); var o := |Concat(OptionalParts(im.opt))|;
            && o == Fixed(im) && Offset(ps, 1) == 60 && Offset(ps, 3) == 64 + |im.stub| && Offset(ps, 4) == OptAt(im)
            && Offset(ps, 5) == OptAt(im) + Fixed(im) && Offset(ps, 6) == OptAt(im) + im.coff.optsz
            && |Written(im)| == OptAt(im) + im.coff.optsz + 40 * |im.records| + |im.after|
  {
    hide ToLe, FromLe, Concat, CoffParts, OptionalParts, Table, RecordFits, CoffFits, OptionalFits;
    var ps := ImageParts(im);
    CoffRead(im.coff);
    OptionalRead(im.opt);
    TableRead(im.records);
    ConcatLength(ps);
    assert Offset(ps, 0) == 0 && Offset(ps, 1) == 60 && Offset(ps, 2) == 64 && Offset(ps, 3) == 64 + |im.stub|;
    assert Offset(ps, 4) == OptAt(im) && Offset(ps, 5) == OptAt(im) + Fixed(im) && Offset(ps, 6) == OptAt(im) + im.coff.optsz;
    assert Offset(ps, 7) == Offset(ps, 6) + 40 * |im.records| && Offset(ps, 8) == Offset(ps, 7) + |im.after|;
  }

  /** The parts of an image, each at its place. */
  lemma ImageRead(im: Image)
    requires Legal(im)
    ensures var d := Written(im);
            && At(d, 60, ToLe(64 + |im.stub|, 4)) && At(d, 64 + |im.stub|, Concat(CoffParts(im.coff)))
            && At(d, OptAt(im), Concat(OptionalParts(im.opt))) && At(d, OptAt(im) + im.coff.optsz, Table(im.records))
  {
    hide ToLe, FromLe, Concat, CoffParts, OptionalParts, Table, Legal, At, Offset;
    ImagePlaces(im);
    PartAt(ImageParts(im), 1);
    PartAt(ImageParts(im), 3);
    PartAt(ImageParts(im), 4);
    PartAt(ImageParts(im), 6);
  }

  // ---------------------------------------------------------------- what the check says of it

  /** What the headers of an image say of the first `n` bytes of the file. */
  function LayoutOf(im: Image, n: nat): Layout {
    Layout(n, im.opt.entry, im.opt.salign, im.opt.falign, im.opt.headers,
           seq(|im.records|, i requires 0 <= i < |im.records| => im.records[i].s))
  }

  /** Sections stand at multiples of something in memory, and but for drivers of whole pages there and of whole disk
      sectors in the file. */
  predicate Alignments(o: Optional) {
    o.salign != 0 && (o.subsystem == 1 || (o.falign != 0 && o.falign % 512 == 0 && o.salign % 4096 == 0))
  }

  /** Where the directories and the section table end. */
  function DirsEnd(im: Image): nat { OptAt(im) + Fixed(im) + DirBytes(im.opt) }

  function TableEnd(im: Image): nat { OptAt(im) + im.coff.optsz + 40 * |im.records| }

  /** What is found in the first `n` bytes of an image: too little while the file header or the directories are cut
      short, headers that cannot be right while the optional header or the section table is, and else what was written. */
  function Found(im: Image, n: nat): Header {
    if n < OptAt(im) || OptAt(im) + Fixed(im) <= n < DirsEnd(im) then TooLittle
    else if n < OptAt(im) + Fixed(im) || im.records == [] || !Alignments(im.opt) || n < TableEnd(im) then Wrong
    else Headed(LayoutOf(im, n))
  }

  lemma CutSlice(d: Bytes, n: nat, off: nat, p: Bytes)
    requires At(d, off, p) && n <= |d|
    ensures Slice(d[..n], off, |p|) == if off + |p| <= n then Some(p) else None
  {
    if off + |p| <= n {
      assert d[..n][off..off + |p|] == d[off..off + |p|];
    }
  }

  lemma CutPart(d: Bytes, n: nat, off: nat, p: Bytes, len: nat)
    requires At(d, off, p) && n <= |d| && len <= |p|
    ensures Slice(d[..n], off, len) == if off + len <= n then Some(p[..len]) else None
  {
    assert At(d, off, p[..len]) by { assert d[off..off + len] == d[off..off + |p|][..len]; }
    CutSlice(d, n, off, p[..len]);
  }

  lemma OptionalFound(im: Image, n: nat)
    requires Legal(im) && OptAt(im) <= n <= |Written(im)|
    ensures OptionalOf(Written(im)[..n], OptAt(im), im.coff.nsec, im.coff.optsz) == Found(im, n)
  {
    hide ToLe, FromLe, Concat, OptionalParts, CoffParts, Table, At, Slice, Sections, CoffFits, RecordFits;
    var d, b := Written(im), Concat(OptionalParts(im.opt));
    ImageRead(im);
    ImagePlaces(im);
    OptionalRead(im.opt);
    TableRead(im.records);
    CutPart(d, n, OptAt(im), b, 2);
    CutSlice(d, n, OptAt(im), b);
    CutPart(d, n, OptAt(im), b, 96);
    CutSlice(d, n, OptAt(im) + im.coff.optsz, Table(im.records));
  }

  lemma HeaderFound(im: Image, n: nat)
    requires Legal(im) && n <= |Written(im)|
    ensures HeaderOf(Written(im)[..n]) == Found(im, n)
  {
    hide ToLe, FromLe, Concat, OptionalParts, CoffParts, Table, At, Slice, OptionalOf, OptionalFits, RecordFits;
    var d := Written(im);
    ImageRead(im);
    CoffRead(im.coff);
    Limits();
    LeRoundTrip(64 + |im.stub|, 4);
    CutSlice(d, n, 60, ToLe(64 + |im.stub|, 4));
    CutSlice(d, n, 64 + |im.stub|, Concat(CoffParts(im.coff)));
    if n >= OptAt(im) { OptionalFound(im, n); }
  }

  // ---------------------------------------------------------------- what is sound

  /** Where the first `i` sections end when they are laid out one after another from the end of the headers. */
  function Filled(l: Layout, k: seq<Section>, i: nat): nat
    requires i <= |k|
  {
    if i == 0 then RoundUp(l.headers, l.salign) else Filled(l, k, i - 1) + Extent(k[i - 1], l.salign)
  }

  /** The entry point is on bytes of the file: in the headers, or in the data of the first section that has it. */
  predicate Enters(l: Layout, k: seq<Section>, j: nat)
    requires j < |k|
  {
    && HoldsEntry(k[j], l.entry, l.falign) && (forall i :: 0 <= i < j ==> !HoldsEntry(k[i], l.entry, l.falign))
    && RoundDown(k[j].rawPtr, l.falign) + (l.entry - k[j].va) < l.n
  }

  predicate EntryInside(l: Layout, k: seq<Section>) {
    if l.entry < RoundUp(l.headers, l.salign) then l.entry < l.n else exists j :: 0 <= j < |k| && Enters(l, k, j)
  }

  /** An image as a linker lays it out: every section listed starts where the ones before it end, and the entry point
      is inside. */
  predicate LaidOut(l: Layout) {
    var k := Kept(l.sections, l.n);
    k != [] && (forall i :: 0 <= i < |k| ==> k[i].va == Filled(l, k, i)) && EntryInside(l, k)
  }

  lemma {:induction false} ChainFills(l: Layout, k: seq<Section>, i: nat)
    requires i < |k| && k[0].va == RoundUp(l.headers, l.salign) && Chained(k, l.salign)
    ensures k[i].va == Filled(l, k, i)
  {
    hide RoundUp, Extent;
    if i > 0 { ChainFills(l, k, i - 1); }
  }

  lemma FillsChain(l: Layout, k: seq<Section>)
    requires k != [] && forall i :: 0 <= i < |k| ==> k[i].va == Filled(l, k, i)
    ensures k[0].va == RoundUp(l.headers, l.salign) && Chained(k, l.salign)
  {
    hide RoundUp, Extent;
    forall i | 0 < i < |k| ensures k[i].va == k[i - 1].va + Extent(k[i - 1], l.salign) {
      assert Filled(l, k, i) == Filled(l, k, i - 1) + Extent(k[i - 1], l.salign);
    }
  }

  /** Searching the sections one by one finds the first that has the entry point. */
  lemma {:induction false} EntryIs(l: Layout, k: seq<Section>, i: nat)
    requires k != [] && l.entry >= k[0].va && i <= |k| && forall j :: 0 <= j < i ==> !HoldsEntry(k[j], l.entry, l.falign)
    ensures EntryOffset(l, k, i).Some? && EntryOffset(l, k, i).value < l.n <==> exists j :: 0 <= j < |k| && Enters(l, k, j)
    decreases |k| - i
  {
    hide HoldsEntry, RoundDown;
    if i < |k| && !HoldsEntry(k[i], l.entry, l.falign) {
      EntryIs(l, k, i + 1);
    } else if i < |k| {
      forall j | 0 <= j < |k| && Enters(l, k, j) ensures j == i {}
      assert EntryOffset(l, k, i) == Some(RoundDown(k[i].rawPtr, l.falign) + (l.entry - k[i].va)) by { Reaches(k[i], l); }
      assert Enters(l, k, i) <==> EntryOffset(l, k, i).value < l.n;
    }
  }

  lemma Reaches(s: Section, l: Layout)
    requires HoldsEntry(s, l.entry, l.falign)
    ensures s.va <= l.entry
  {}

  /** The check is passed by the images that are laid out, and no others. */
  lemma MappableIff(l: Layout)
    ensures Mappable(l) <==> LaidOut(l)
  {
    hide Chained, RoundUp, EntryOffset, Enters, Filled, Kept;
    var k := Kept(l.sections, l.n);
    if k != [] && k[0].va == RoundUp(l.headers, l.salign) && Chained(k, l.salign) {
      forall i | 0 <= i < |k| ensures k[i].va == Filled(l, k, i) { ChainFills(l, k, i); }
    }
    if k != [] && forall i :: 0 <= i < |k| ==> k[i].va == Filled(l, k, i) {
      FillsChain(l, k);
      EntryIn(l, k);
    }
  }

  lemma EntryIn(l: Layout, k: seq<Section>)
    requires k != [] && k[0].va == RoundUp(l.headers, l.salign)
    ensures EntryOffset(l, k, 0).Some? && EntryOffset(l, k, 0).value < l.n <==> EntryInside(l, k)
  {
    hide RoundUp, Enters;
    if l.entry >= k[0].va { EntryIs(l, k, 0); }
  }

  /** Of the first `n` bytes of any image whose headers fit their fields: no judgement while the file header or the
      data directories are cut short, and sound if and only if the headers are whole and the image is laid out. */
  lemma ImageJudged(im: Image, n: nat)
    requires Legal(im) && n <= |Written(im)|
    ensures Judge(Written(im)[..n]) == NotJudged <==> n < OptAt(im) || OptAt(im) + Fixed(im) <= n < DirsEnd(im)
    ensures Judge(Written(im)[..n]) == Sound <==>
            n >= TableEnd(im) && im.records != [] && Alignments(im.opt) && LaidOut(LayoutOf(im, n))
  {
    hide HeaderOf, Mappable, LaidOut, Written;
    HeaderFound(im, n);
    MappableIff(LayoutOf(im, n));
    Ends(im);
  }

  lemma Ends(im: Image)
    requires Legal(im)
    ensures DirsEnd(im) <= TableEnd(im) && OptAt(im) + Fixed(im) <= DirsEnd(im)
  {
    hide Concat, OptionalParts, CoffFits, RecordFits;
    OptionalRead(im.opt);
  }
}
