/** Carving embedded images and archives: one read a window at a time, headers outside the window
    deferred, lists capped and the search stopped early, finds what looking at every offset finds. */
module Carving {
  import opened ByteSeq
  import opened CarveMagics

  const MAX_EMBEDDED_PE: nat := 16
  const MAX_EMBEDDED_ARCHIVES: nat := 32

  /** What the object holds at an offset, as the header checks answer it: where an `MZ` says its
      header is, whether a header there is sound, and where a ZIP entry says the next begins. */
  datatype Checks = Checks(
    peTarget: nat -> Option<nat>,
    peHeader: nat -> bool,
    elf: nat -> bool,
    machoThin: (nat, bool) -> bool,
    machoFat: nat -> bool,
    archive: nat -> bool,
    zipNext: nat -> Option<nat>)

  datatype Embedded = Embedded(
    pe: seq<nat>, elf: seq<nat>, macho: seq<nat>, archives: seq<nat>, peCapped: bool, othersCapped: bool)

  const NONE_YET: Embedded := Embedded([], [], [], [], false, false)

  predicate IsZip(data: Bytes, h: Hit) { h.kind.Archive? && StartsAt(data, h.off, [0x50, 0x4B, 0x03, 0x04]) }

  // ---------------------------------------------------------------- one ascending pass

  /** What the pass has found, and where the last ZIP entry says the next begins. */
  datatype Pass = Pass(found: Embedded, zipNext: Option<nat>)

  const START: Pass := Pass(NONE_YET, None)

  predicate SoundPe(ck: Checks, h: Hit) {
    h.kind.Pe? && h.off != 0 && ck.peTarget(h.off).Some? && ck.peHeader(ck.peTarget(h.off).value)
  }

  predicate Sound(ck: Checks, h: Hit) {
    match h.kind
    case Pe => SoundPe(ck, h)
    case Elf => ck.elf(h.off)
    case MachoThin(be) => ck.machoThin(h.off, be)
    case MachoFat => ck.machoFat(h.off)
    case Archive => ck.archive(h.off)
  }

  /** A sound candidate is listed while its kind has room, and otherwise remembered as left out. */
  function Listed(f: Embedded, h: Hit): Embedded {
    match h.kind
    case Pe => if |f.pe| < MAX_EMBEDDED_PE then f.(pe := f.pe + [h.off]) else f.(peCapped := true)
    case Elf => if |f.elf| < MAX_EMBEDDED_PE then f.(elf := f.elf + [h.off]) else f.(othersCapped := true)
    case Archive =>
      if |f.archives| < MAX_EMBEDDED_ARCHIVES then f.(archives := f.archives + [h.off]) else f.(othersCapped := true)
    case _ => if |f.macho| < MAX_EMBEDDED_PE then f.(macho := f.macho + [h.off]) else f.(othersCapped := true)
  }

  /** One magic, at its offset. The object's own image is not embedded, and neither is the next
      entry of a ZIP already taken. */
  function See(data: Bytes, ck: Checks, p: Pass, h: Hit): Pass {
    var zip := IsZip(data, h);
    if h.off == 0 then (if zip then p.(zipNext := ck.zipNext(0)) else p)
    else if zip && p.zipNext == Some(h.off) then p.(zipNext := ck.zipNext(h.off))
    else
      var found := if Sound(ck, h) then Listed(p.found, h) else p.found;
      var zipNext :=
        if !zip then p.zipNext
        else if Sound(ck, h) && |p.found.archives| < MAX_EMBEDDED_ARCHIVES then ck.zipNext(h.off)
        else None;
      Pass(found, zipNext)
  }

  function SeeAll(data: Bytes, ck: Checks, hits: seq<Hit>): Pass {
    if hits == [] then START else See(data, ck, SeeAll(data, ck, hits[..|hits| - 1]), hits[|hits| - 1])
  }

  /** Every magic of the object checked at its own offset, in ascending order. */
  ghost function Reference(data: Bytes, ck: Checks): Embedded { SeeAll(data, ck, Hits(data, 0, |data|)).found }

  lemma SeeSnoc(data: Bytes, ck: Checks, hits: seq<Hit>, h: Hit)
    ensures SeeAll(data, ck, hits + [h]) == See(data, ck, SeeAll(data, ck, hits), h)
  {
    assert (hits + [h])[..|hits|] == hits;
  }

  // ---------------------------------------------------------------- the lowest offsets, in any order

  predicate Strict(s: seq<nat>) { forall i, j :: 0 <= i < j < |s| ==> s[i] < s[j] }

  /** How many leading offsets are below `x`. */
  function PartitionPoint(s: seq<nat>, x: nat): (i: nat)
    ensures i <= |s| && (forall j :: 0 <= j < i ==> s[j] < x) && (i < |s| ==> s[i] >= x)
  {
    if s == [] || s[0] >= x then 0 else 1 + PartitionPoint(s[1..], x)
  }

  function Insert(s: seq<nat>, x: nat): seq<nat> {
    var i := PartitionPoint(s, x);
    s[..i] + [x] + s[i..]
  }

  lemma InsertStrict(s: seq<nat>, x: nat)
    requires Strict(s) && x !in s
    ensures Strict(Insert(s, x)) && |Insert(s, x)| == |s| + 1 && forall y :: y in Insert(s, x) <==> y == x || y in s
  {
    hide PartitionPoint;
    var i := PartitionPoint(s, x);
    if i < |s| { assert s[i] in s; }
    InsertMembers(s, x, i);
  }

  lemma InsertMembers(s: seq<nat>, x: nat, i: nat)
    requires i <= |s|
    ensures forall y :: y in s[..i] + [x] + s[i..] <==> y == x || y in s
  {
    assert s == s[..i] + s[i..];
  }

  /** The lowest of the offsets taken so far, and whether there were more. */
  ghost predicate Lowest(f: Embedded, all: seq<nat>) {
    Strict(all) && f.pe == Front(all, MAX_EMBEDDED_PE) && (f.peCapped <==> |all| > MAX_EMBEDDED_PE)
  }

  /** One more offset, wherever it falls: put in place, and the last dropped when the list is full. */
  function Accept(f: Embedded, off: nat): Embedded {
    var pe := Insert(f.pe, off);
    if |pe| > MAX_EMBEDDED_PE then f.(pe := pe[..|pe| - 1], peCapped := true) else f.(pe := pe)
  }

  lemma AcceptLowest(f: Embedded, all: seq<nat>, off: nat)
    requires Lowest(f, all) && off !in all
    ensures Lowest(Accept(f, off), Insert(all, off))
  {
    InsertStrict(all, off);
    var m := MAX_EMBEDDED_PE;
    var i, j := PartitionPoint(all, off), PartitionPoint(f.pe, off);
    assert j == Min(i, |f.pe|);
    InsertFront(all, f.pe, off, i, j);
  }

  lemma InsertFront(all: seq<nat>, pe: seq<nat>, off: nat, i: nat, j: nat)
    requires i <= |all| && pe == Front(all, MAX_EMBEDDED_PE) && j == Min(i, |pe|)
    ensures var s, t := all[..i] + [off] + all[i..], pe[..j] + [off] + pe[j..];
            (if |t| > MAX_EMBEDDED_PE then t[..|t| - 1] else t) == Front(s, MAX_EMBEDDED_PE)
  {
    var m := MAX_EMBEDDED_PE;
    var s, t := all[..i] + [off] + all[i..], pe[..j] + [off] + pe[j..];
    if |all| < m {
      assert pe == all;
    } else {
      assert |t| == m + 1;
      forall x | 0 <= x < m ensures t[x] == s[x] {
        if x < j { } else if x == j { } else { assert t[x] == pe[x - 1]; }
      }
      assert t[..m] == s[..m];
    }
  }

  lemma {:induction false} StrictSame(a: seq<nat>, b: seq<nat>)
    requires Strict(a) && Strict(b) && forall x :: x in a <==> x in b
    ensures a == b
    decreases |a|
  {
    if b != [] { assert b[0] in b; }
    if a != [] {
      assert a[0] in b && b != [];
      assert b[0] in a;
      var a', b' := a[1..], b[1..];
      forall x ensures x in a' <==> x in b' {
        assert x in a <==> x == a[0] || x in a';
        assert x in b <==> x == b[0] || x in b';
        if x in a' { var i :| 0 <= i < |a'| && a'[i] == x; assert a[i + 1] == x; }
        if x in b' { var i :| 0 <= i < |b'| && b'[i] == x; assert b[i + 1] == x; }
      }
      StrictSame(a', b');
    }
  }

  // ---------------------------------------------------------------- the sound images of a pass

  function PeOffsets(ck: Checks, hits: seq<Hit>): seq<nat> {
    if hits == [] then []
    else
      var last := hits[|hits| - 1];
      PeOffsets(ck, hits[..|hits| - 1]) + (if SoundPe(ck, last) then [last.off] else [])
  }

  lemma {:induction false} PeOffsetsAre(ck: Checks, hits: seq<Hit>)
    requires Ascending(hits)
    ensures Strict(PeOffsets(ck, hits))
    ensures forall x :: x in PeOffsets(ck, hits) <==> exists i :: 0 <= i < |hits| && hits[i].off == x && SoundPe(ck, hits[i])
    decreases |hits|
  {
    hide SoundPe;
    if hits != [] {
      var front, last := hits[..|hits| - 1], hits[|hits| - 1];
      PeOffsetsAre(ck, front);
      forall x ensures x in PeOffsets(ck, hits) <==> exists i :: 0 <= i < |hits| && hits[i].off == x && SoundPe(ck, hits[i]) {
        if x in PeOffsets(ck, front) { var i :| 0 <= i < |front| && front[i].off == x && SoundPe(ck, front[i]); assert hits[i] == front[i]; }
        if exists i :: 0 <= i < |hits| && hits[i].off == x && SoundPe(ck, hits[i]) {
          var i :| 0 <= i < |hits| && hits[i].off == x && SoundPe(ck, hits[i]);
          if i < |front| { assert front[i] == hits[i]; }
        }
      }
      forall i | 0 <= i < |PeOffsets(ck, front)| ensures PeOffsets(ck, front)[i] < last.off {
        assert PeOffsets(ck, front)[i] in PeOffsets(ck, front);
        var j :| 0 <= j < |front| && front[j].off == PeOffsets(ck, front)[i] && SoundPe(ck, front[j]);
        assert hits[j].off < hits[|hits| - 1].off;
      }
    }
  }

  /** The pass lists the lowest sound images. */
  lemma {:induction false} PassLowest(data: Bytes, ck: Checks, hits: seq<Hit>)
    requires Ascending(hits)
    ensures Lowest(SeeAll(data, ck, hits).found, PeOffsets(ck, hits))
    decreases |hits|
  {
    hide See, Sound;
    PeOffsetsAre(ck, hits);
    if hits != [] {
      var front, last := hits[..|hits| - 1], hits[|hits| - 1];
      PassLowest(data, ck, front);
      SeePe(data, ck, SeeAll(data, ck, front), last);
      FrontSnoc(PeOffsets(ck, front), last.off);
    }
  }

  /** A magic moves the list of images only when it is a sound one. */
  lemma SeePe(data: Bytes, ck: Checks, p: Pass, h: Hit)
    ensures var f := See(data, ck, p, h).found;
            if SoundPe(ck, h) then f == Listed(p.found, h) else f.pe == p.found.pe && f.peCapped == p.found.peCapped
  {
    hide StartsAt;
  }

  lemma FrontSnoc(all: seq<nat>, x: nat)
    ensures Front(all + [x], MAX_EMBEDDED_PE) == (if |all| < MAX_EMBEDDED_PE then all + [x] else Front(all, MAX_EMBEDDED_PE))
    ensures |all| < MAX_EMBEDDED_PE ==> Front(all, MAX_EMBEDDED_PE) == all
  {}

  /** What one more magic does to everything but the list of PE images. */
  predicate SameButPe(f: Embedded, g: Embedded) {
    f.elf == g.elf && f.macho == g.macho && f.archives == g.archives && f.othersCapped == g.othersCapped
  }

  lemma ZipIsArchive(data: Bytes, h: Hit)
    ensures IsZip(data, h) ==> h.kind.Archive?
  {}

  /** An image leaves everything but the list of images as it was. */
  lemma PeSeesNoZip(data: Bytes, ck: Checks, p: Pass, h: Hit)
    requires h.kind.Pe?
    ensures SameButPe(See(data, ck, p, h).found, p.found) && See(data, ck, p, h).zipNext == p.zipNext
  {
    hide StartsAt, Sound;
  }

  lemma LowestKept(f: Embedded, g: Embedded, all: seq<nat>)
    requires Lowest(f, all) && f.pe == g.pe && f.peCapped == g.peCapped
    ensures Lowest(g, all)
  {}

  /** One more magic does the same to two results that agree on everything but the PE images. */
  lemma SeeOthers(data: Bytes, ck: Checks, p: Pass, q: Pass, h: Hit)
    requires SameButPe(p.found, q.found) && p.zipNext == q.zipNext
    ensures SameButPe(See(data, ck, p, h).found, See(data, ck, q, h).found) && See(data, ck, p, h).zipNext == See(data, ck, q, h).zipNext
  {
    hide IsZip, Sound;
    ListedOthers(p.found, q.found, h);
  }

  lemma ListedOthers(f: Embedded, g: Embedded, h: Hit)
    requires SameButPe(f, g)
    ensures SameButPe(Listed(f, h), Listed(g, h))
  {
    match h.kind
    case _ =>
  }

  /** Every list full and something left out on both sides. */
  predicate IsFull(f: Embedded) {
    && f.peCapped && f.othersCapped && |f.pe| >= MAX_EMBEDDED_PE && |f.elf| >= MAX_EMBEDDED_PE
    && |f.macho| >= MAX_EMBEDDED_PE && |f.archives| >= MAX_EMBEDDED_ARCHIVES
  }

  /** Nothing further in the object changes a full result. */
  lemma {:induction false} FullStays(data: Bytes, ck: Checks, hits: seq<Hit>, more: seq<Hit>)
    requires IsFull(SeeAll(data, ck, hits).found)
    ensures SeeAll(data, ck, hits + more).found == SeeAll(data, ck, hits).found
    decreases |more|
  {
    hide IsZip, Sound;
    if more == [] {
      assert hits + more == hits;
    } else {
      var front, last := more[..|more| - 1], more[|more| - 1];
      assert hits + more == hits + front + [last];
      FullStays(data, ck, hits, front);
      SeeSnoc(data, ck, hits + front, last);
    }
  }

  // ---------------------------------------------------------------- the search

  /** A candidate whose header lies beyond its window, as (header, image). */
  type Far = (nat, nat)

  /** A sound candidate for this image waits. */
  ghost predicate Waits(ck: Checks, far: seq<Far>, x: nat) {
    exists i :: 0 <= i < |far| && far[i].1 == x && ck.peHeader(far[i].0)
  }

  ghost predicate WasMet(seen: seq<Hit>, x: nat) { exists j :: 0 <= j < |seen| && seen[j].off == x }

  lemma WaitsMore(ck: Checks, far: seq<Far>, f: Far, x: nat)
    ensures Waits(ck, far + [f], x) <==> Waits(ck, far, x) || (f.1 == x && ck.peHeader(f.0))
  {
    var more := far + [f];
    assert more[|far|] == f;
    if Waits(ck, far, x) {
      var i :| 0 <= i < |far| && far[i].1 == x && ck.peHeader(far[i].0);
      assert more[i] == far[i];
    }
  }

  lemma MetMore(seen: seq<Hit>, h: Hit, x: nat)
    ensures WasMet(seen + [h], x) <==> WasMet(seen, x) || h.off == x
  {
    var more := seen + [h];
    assert more[|seen|] == h;
    if WasMet(seen, x) {
      var j :| 0 <= j < |seen| && seen[j].off == x;
      assert more[j] == seen[j];
    }
  }

  lemma SameWaits(ck: Checks, a: seq<Far>, b: seq<Far>, x: nat)
    requires forall f :: f in a <==> f in b
    ensures Waits(ck, a, x) <==> Waits(ck, b, x)
  {
    if Waits(ck, a, x) {
      var i :| 0 <= i < |a| && a[i].1 == x && ck.peHeader(a[i].0);
      assert a[i] in b;
    }
    if Waits(ck, b, x) {
      var i :| 0 <= i < |b| && b[i].1 == x && ck.peHeader(b[i].0);
      assert b[i] in a;
    }
  }

  class Search {
    const data: Bytes
    const ck: Checks
    /** Whether the object is held in memory, so that a header anywhere costs nothing. */
    const inMemory: bool
    const farMax: nat
    var zipNext: Option<nat>
    var far: seq<Far>
    var found: Embedded
    /** The magics met so far, and the images accepted so far. */
    ghost var seen: seq<Hit>
    ghost var accepted: seq<nat>

    /** Every sound image met is accepted or still waits, and only one of these. */
    ghost predicate Accounted()
      reads this
    {
      && Lowest(found, accepted)
      && (forall i, j :: 0 <= i < j < |far| ==> far[i].1 != far[j].1)
      && (forall i :: 0 <= i < |far| ==> far[i].1 !in accepted)
      && (forall x :: x in PeOffsets(ck, seen) <==> x in accepted || Waits(ck, far, x))
    }

    /** Images accepted or waiting were met. */
    ghost predicate Met()
      reads this
    {
      && Ascending(seen)
      && (forall x :: x in accepted ==> WasMet(seen, x))
      && (forall i :: 0 <= i < |far| ==> WasMet(seen, far[i].1))
    }

    ghost predicate Valid()
      reads this
    {
      && Accounted() && Met()
      && SameButPe(found, SeeAll(data, ck, seen).found) && zipNext == SeeAll(data, ck, seen).zipNext
    }

    constructor (data: Bytes, ck: Checks, inMemory: bool, farMax: nat)
      ensures Valid() && seen == [] && far == []
      ensures this.data == data && this.ck == ck && this.inMemory == inMemory
    {
      this.data, this.ck, this.inMemory := data, ck, inMemory;
      this.farMax := Max(farMax, 1);
      zipNext, far, found := None, [], NONE_YET;
      seen, accepted := [], [];
    }

    /** The image at `off`: put in its place among the lowest, and one more makes the object capped. */
    method AcceptPe(off: nat)
      requires Lowest(found, accepted) && off !in accepted
      modifies `found, `accepted
      ensures Lowest(found, accepted) && SameButPe(found, old(found))
      ensures forall x :: x in accepted <==> x == off || x in old(accepted)
    {
      AcceptLowest(found, accepted, off);
      InsertStrict(accepted, off);
      accepted := Insert(accepted, off);
      var pe := Insert(found.pe, off);
      if |pe| > MAX_EMBEDDED_PE {
        found := found.(pe := pe[..|pe| - 1], peCapped := true);
      } else {
        found := found.(pe := pe);
      }
    }

    /** Check the candidates that wait, in the order of the headers they point at. */
    method Settle()
      requires Valid()
      modifies `found, `accepted, `far
      ensures Valid() && far == []
    {
      hide SeeAll, PeOffsets;
      var waiting := SortFar(far);
      ghost var was := far;
      far := [];
      ghost var before := accepted;
      assert waiting[..0] == [];
      for n := 0 to |waiting|
        invariant far == [] && seen == old(seen) && Lowest(found, accepted) && SameButPe(found, old(found))
        invariant forall x :: x in accepted <==> x in before || Waits(ck, waiting[..n], x)
      {
        var (pe, off) := waiting[n];
        assert waiting[n] in was;
        assert waiting[..n + 1] == waiting[..n] + [waiting[n]];
        forall x ensures Waits(ck, waiting[..n + 1], x) <==> Waits(ck, waiting[..n], x) || (off == x && ck.peHeader(pe)) {
          WaitsMore(ck, waiting[..n], waiting[n], x);
        }
        if ck.peHeader(pe) {
          AcceptPe(off);
        }
      }
      assert waiting[..|waiting|] == waiting;
      forall x ensures Waits(ck, waiting, x) <==> Waits(ck, was, x) { SameWaits(ck, waiting, was, x); }
    }

    /** A magic met in a window that ends at `held`: checked now, or kept for later when it is an
        image whose header lies beyond and reading there would cost a read of its own. */
    method Consider(h: Hit, held: nat)
      requires Valid() && forall i :: 0 <= i < |seen| ==> seen[i].off < h.off
      modifies this
      ensures Valid() && seen == old(seen) + [h]
    {
      hide SeeAll, PeOffsets, Lowest, SoundPe, See;
      SeeSnoc(data, ck, seen, h);
      SeeOthers(data, ck, Pass(found, zipNext), SeeAll(data, ck, seen), h);
      SeePe(data, ck, Pass(found, zipNext), h);
      NewHit(h);
      var zip := IsZip(data, h);
      if h.kind.Pe? {
        PeSeesNoZip(data, ck, Pass(found, zipNext), h);
        if h.off != 0 {
          ConsiderPe(h, held);
          if accepted == old(accepted) && far != old(far) {
            ghost var f := far[|far| - 1];
            assert far == old(far) + [f];
            forall x ensures Waits(ck, far, x) <==> Waits(ck, old(far), x) || (x == h.off && SoundPe(ck, h)) {
              WaitsMore(ck, old(far), f, x);
            }
          }
        } else {
          NotAtStart(h);
        }
      } else {
        NotPe(h);
        ConsiderOther(h, zip);
        LowestKept(old(found), found, accepted);
      }
      seen := seen + [h];
    }

    lemma NotAtStart(h: Hit)
      ensures h.off == 0 ==> !SoundPe(ck, h)
    {}

    lemma NotPe(h: Hit)
      ensures !h.kind.Pe? ==> !SoundPe(ck, h)
    {}

    /** An image: its header read now, or later. */
    method ConsiderPe(h: Hit, held: nat)
      requires h.kind.Pe? && h.off != 0 && Lowest(found, accepted) && h.off !in accepted
      modifies `found, `far, `accepted
      ensures Lowest(found, accepted) && SameButPe(found, old(found))
      ensures (far == old(far) && forall x :: x in accepted <==> x in old(accepted) || (x == h.off && SoundPe(ck, h)))
              || (accepted == old(accepted) && exists pe :: far == old(far) + [(pe, h.off)] && (ck.peHeader(pe) <==> SoundPe(ck, h)))
    {
      hide Lowest;
      var target := ck.peTarget(h.off);
      if target.Some? && target.value >= held && !inMemory {
        far := far + [(target.value, h.off)];
        assert ck.peHeader(target.value) <==> SoundPe(ck, h);
      } else if target.Some? && ck.peHeader(target.value) {
        AcceptPe(h.off);
      }
    }

    /** Anything else: listed while there is room, and the chain of a ZIP's entries followed. */
    method ConsiderOther(h: Hit, zip: bool)
      requires !h.kind.Pe? && zip == IsZip(data, h)
      modifies `found, `zipNext
      ensures Pass(found, zipNext) == See(data, ck, Pass(old(found), old(zipNext)), h)
    {
      hide IsZip;
      if h.off == 0 {
        if zip { zipNext := ck.zipNext(0); }
        return;
      }
      if zip && zipNext == Some(h.off) {
        zipNext := ck.zipNext(h.off);
        return;
      }
      ZipIsArchive(data, h);
      match h.kind {
        case Elf =>
          if ck.elf(h.off) {
            if |found.elf| < MAX_EMBEDDED_PE { found := found.(elf := found.elf + [h.off]); } else { found := found.(othersCapped := true); }
          }
        case MachoThin(be) =>
          if ck.machoThin(h.off, be) { ListMacho(h.off); }
        case MachoFat =>
          if ck.machoFat(h.off) { ListMacho(h.off); }
        case Archive =>
          if zip { zipNext := None; }
          if ck.archive(h.off) {
            if |found.archives| < MAX_EMBEDDED_ARCHIVES {
              found := found.(archives := found.archives + [h.off]);
              if zip { zipNext := ck.zipNext(h.off); }
            } else {
              found := found.(othersCapped := true);
            }
          }
      }
    }

    method ListMacho(off: nat)
      modifies `found
      ensures found == (if |old(found).macho| < MAX_EMBEDDED_PE then old(found).(macho := old(found).macho + [off]) else old(found).(othersCapped := true))
    {
      if |found.macho| < MAX_EMBEDDED_PE {
        found := found.(macho := found.macho + [off]);
      } else {
        found := found.(othersCapped := true);
      }
    }

    /** A magic past every one met: new to what is accepted and to what waits. */
    lemma NewHit(h: Hit)
      requires Accounted() && Met() && forall i :: 0 <= i < |seen| ==> seen[i].off < h.off
      ensures Ascending(seen + [h]) && h.off !in accepted && (forall i :: 0 <= i < |far| ==> far[i].1 != h.off)
      ensures forall x :: x in PeOffsets(ck, seen + [h]) <==> x in PeOffsets(ck, seen) || (x == h.off && SoundPe(ck, h))
      ensures forall x :: WasMet(seen, x) || x == h.off ==> WasMet(seen + [h], x)
    {
      hide Lowest, SoundPe;
      var more := seen + [h];
      assert more[..|seen|] == seen && more[|seen|] == h;
      forall x | WasMet(seen, x) || x == h.off ensures WasMet(more, x) { MetMore(seen, h, x); }
    }

    /** With nothing waiting the result is that of the pass over what was met. */
    lemma NothingWaits()
      requires Valid() && far == []
      ensures found == SeeAll(data, ck, seen).found
    {
      hide SeeAll;
      PeOffsetsAre(ck, seen);
      PassLowest(data, ck, seen);
      StrictSame(accepted, PeOffsets(ck, seen));
    }

    /** Search a window: the magics that start in its first `owned` bytes, in order of offset. */
    method Feed(at: nat, w: Bytes, owned: nat)
      requires Valid() && seen == Hits(data, 0, at)
      requires at + |w| <= |data| && w == data[at..at + |w|] && owned <= |w|
      requires owned + OVERLAP <= |w| || at + |w| == |data|
      modifies this
      ensures Valid() && seen == Hits(data, 0, at + owned)
    {
      hide Hits, Accounted, Met, SeeAll, HitIn;
      var hits := WindowHits(data, at, w, owned);
      ghost var before := seen;
      assert before + hits[..0] == before;
      for n := 0 to |hits|
        invariant Valid() && seen == before + hits[..n]
      {
        BeforeNext(data, at, at + owned, n);
        Consider(hits[n], at + |w|);
        assert before + hits[..n] + [hits[n]] == before + hits[..n + 1];
      }
      assert hits[..|hits|] == hits;
      HitsJoin(data, 0, at, at + owned);
      if |far| >= farMax {
        Settle();
      }
    }

    predicate Full()
      reads this
    {
      far == [] && IsFull(found)
    }
  }

  lemma BeforeNext(data: Bytes, at: nat, end: nat, n: nat)
    requires n < |Hits(data, at, end)|
    ensures var seen := Hits(data, 0, at) + Hits(data, at, end)[..n];
            forall i :: 0 <= i < |seen| ==> seen[i].off < Hits(data, at, end)[n].off
  {
    hide Hits, WhichAt;
    HitsAre(data, 0, at);
    HitsAre(data, at, end);
    var a, b := Hits(data, 0, at), Hits(data, at, end);
    assert b[n] in b;
    forall i | 0 <= i < |a| ensures a[i].off < at { assert a[i] in a; }
  }

  /** Everything carving looks for, found in one read of the object: for windows of any size above
      the overlap, in memory or not, however many headers wait, it is what checking every offset finds. */
  method EmbeddedIn(data: Bytes, ck: Checks, chunk: nat, inMemory: bool, farMax: nat) returns (found: Embedded)
    requires chunk > OVERLAP
    ensures found == Reference(data, ck)
  {
    hide Hits, SeeAll, IsFull;
    var s := new Search(data, ck, inMemory, farMax);
    var len := |data|;
    var at := 0;
    var done := false;
    NoHits(data);
    while at < len && !s.Full() && !done
      invariant at <= len && fresh(s) && s.Valid() && s.data == data && s.ck == ck
      invariant s.seen == Hits(data, 0, if done then len else at)
      decreases len - at, !done
    {
      var w := data[at..Min(at + chunk, len)];
      var last := at + |w| >= len;
      var owned := if last then |w| else Max(|w| - OVERLAP, 1);
      s.Feed(at, w, owned);
      if last {
        done := true;
      } else {
        at := at + owned;
      }
    }
    ghost var upto := if done then len else at;
    if upto < len {
      s.NothingWaits();
      HitsJoin(data, 0, upto, len);
      FullStays(data, ck, s.seen, Hits(data, upto, len));
    }
    s.Settle();
    s.NothingWaits();
    found := s.found;
  }

  lemma NoHits(data: Bytes)
    ensures Hits(data, 0, 0) == []
  {}

  predicate FarBefore(a: Far, b: Far) { a.0 < b.0 || (a.0 == b.0 && a.1 <= b.1) }

  /** Candidates put in order of header, then of image. */
  method SortFar(far: seq<Far>) returns (sorted: seq<Far>)
    requires forall i, j :: 0 <= i < j < |far| ==> far[i].1 != far[j].1
    ensures forall i, j :: 0 <= i < j < |sorted| ==> FarBefore(sorted[i], sorted[j])
    ensures forall i, j :: 0 <= i < j < |sorted| ==> sorted[i].1 != sorted[j].1
    ensures forall f :: f in sorted <==> f in far
  {
    sorted := [];
    for n := 0 to |far|
      invariant forall i, j :: 0 <= i < j < |sorted| ==> FarBefore(sorted[i], sorted[j])
      invariant forall i, j :: 0 <= i < j < |sorted| ==> sorted[i].1 != sorted[j].1
      invariant forall f :: f in sorted <==> f in far[..n]
    {
      var i := 0;
      while i < |sorted| && FarBefore(sorted[i], far[n])
        invariant i <= |sorted| && forall j :: 0 <= j < i ==> FarBefore(sorted[j], far[n])
      {
        i := i + 1;
      }
      assert forall j :: i <= j < |sorted| ==> FarBefore(far[n], sorted[j]);
      InsertFar(sorted, far, n, i);
      sorted := sorted[..i] + [far[n]] + sorted[i..];
    }
    assert far[..|far|] == far;
  }

  lemma InsertFar(sorted: seq<Far>, far: seq<Far>, n: nat, i: nat)
    requires n < |far| && i <= |sorted|
    requires forall i, j :: 0 <= i < j < |far| ==> far[i].1 != far[j].1
    requires forall i, j :: 0 <= i < j < |sorted| ==> sorted[i].1 != sorted[j].1
    requires forall f :: f in sorted <==> f in far[..n]
    ensures var s := sorted[..i] + [far[n]] + sorted[i..];
            && (forall i, j :: 0 <= i < j < |s| ==> s[i].1 != s[j].1)
            && forall f :: f in s <==> f in far[..n + 1]
  {
    var s := sorted[..i] + [far[n]] + sorted[i..];
    forall j | 0 <= j < |sorted| ensures sorted[j].1 != far[n].1 {
      assert sorted[j] in far[..n];
    }
    forall f ensures f in s <==> f in far[..n + 1] {
      assert f in sorted <==> f in sorted[..i] || f in sorted[i..] by { assert sorted == sorted[..i] + sorted[i..]; }
      assert far[..n + 1] == far[..n] + [far[n]];
    }
  }
}
