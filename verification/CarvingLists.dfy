/** What carving lists, said without a state: the first sound candidates of each kind, the archives
    without the entries of a ZIP that is followed. */
module CarvingLists {
  import opened ByteSeq
  import opened CarveMagics
  import opened Carving

  // ---------------------------------------------------------------- which ZIP entries are followed

  /** The magics up to the last ZIP entry among them, that entry included. */
  function UpToZip(data: Bytes, hits: seq<Hit>): (r: seq<Hit>)
    ensures |r| <= |hits| && (r != [] ==> IsZip(data, Last(r)))
  {
    if hits == [] || IsZip(data, Last(hits)) then hits else UpToZip(data, Init(hits))
  }

  /** `h` is where the ZIP entry right before it says the next one begins, and that entry was followed. */
  predicate NextEntry(data: Bytes, ck: Checks, before: seq<Hit>, h: Hit)
    decreases |before|, 1
  {
    var z := UpToZip(data, before);
    h.off != 0 && IsZip(data, h) && z != [] && Followed(data, ck, Init(z), Last(z)) && ck.zipNext(Last(z).off) == Some(h.off)
  }

  /** A ZIP entry is followed when it is the object's own, the next of one followed, or listed. */
  predicate Followed(data: Bytes, ck: Checks, before: seq<Hit>, h: Hit)
    decreases |before|, 2
  {
    h.off == 0 || NextEntry(data, ck, before, h) || (Sound(ck, h) && |Archives(data, ck, before)| < MAX_EMBEDDED_ARCHIVES)
  }

  /** A sound archive that is not the object's own nor an entry of a ZIP followed. */
  predicate StandsAlone(data: Bytes, ck: Checks, before: seq<Hit>, h: Hit)
    decreases |before|, 3
  {
    h.off != 0 && h.kind.Archive? && Sound(ck, h) && !NextEntry(data, ck, before, h)
  }

  function Archives(data: Bytes, ck: Checks, hits: seq<Hit>): seq<nat>
    decreases |hits|, 0
  {
    if hits == [] then []
    else Archives(data, ck, Init(hits)) + if StandsAlone(data, ck, Init(hits), Last(hits)) then [Last(hits).off] else []
  }

  // ---------------------------------------------------------------- the other kinds

  predicate IsMacho(h: Hit) { h.kind.MachoThin? || h.kind.MachoFat? }

  /** Sound images that are not the object's own. */
  function Elfs(ck: Checks, hits: seq<Hit>): seq<nat> {
    if hits == [] then []
    else Elfs(ck, Init(hits)) + if Last(hits).kind.Elf? && Last(hits).off != 0 && Sound(ck, Last(hits)) then [Last(hits).off] else []
  }

  function Machos(ck: Checks, hits: seq<Hit>): seq<nat> {
    if hits == [] then []
    else Machos(ck, Init(hits)) + if IsMacho(Last(hits)) && Last(hits).off != 0 && Sound(ck, Last(hits)) then [Last(hits).off] else []
  }

  // ---------------------------------------------------------------- what the pass lists

  /** Where the pass says the next ZIP entry begins. */
  function Expected(data: Bytes, ck: Checks, hits: seq<Hit>): Option<nat> {
    var z := UpToZip(data, hits);
    if z != [] && Followed(data, ck, Init(z), Last(z)) then ck.zipNext(Last(z).off) else None
  }

  ghost predicate Lists(data: Bytes, ck: Checks, hits: seq<Hit>, p: Pass) {
    && p.found.elf == Front(Elfs(ck, hits), MAX_EMBEDDED_PE)
    && p.found.macho == Front(Machos(ck, hits), MAX_EMBEDDED_PE)
    && p.found.archives == Front(Archives(data, ck, hits), MAX_EMBEDDED_ARCHIVES)
    && (p.found.othersCapped <==>
          |Elfs(ck, hits)| > MAX_EMBEDDED_PE || |Machos(ck, hits)| > MAX_EMBEDDED_PE || |Archives(data, ck, hits)| > MAX_EMBEDDED_ARCHIVES)
    && p.zipNext == Expected(data, ck, hits)
  }

  /** Everything the pass lists, and where it is in a ZIP. */
  lemma {:induction false} PassLists(data: Bytes, ck: Checks, hits: seq<Hit>)
    ensures Lists(data, ck, hits, SeeAll(data, ck, hits))
    decreases |hits|
  {
    hide See, Lists, IsZip;
    if hits == [] {
      NothingListed(data, ck);
    } else {
      PassLists(data, ck, Init(hits));
      assert hits == Init(hits) + [Last(hits)];
      SeeLists(data, ck, Init(hits), Last(hits), SeeAll(data, ck, Init(hits)));
    }
  }

  lemma NothingListed(data: Bytes, ck: Checks)
    ensures Lists(data, ck, [], START)
  {}

  lemma ZipPush(data: Bytes, hits: seq<Hit>, h: Hit)
    ensures UpToZip(data, hits + [h]) == if IsZip(data, h) then hits + [h] else UpToZip(data, hits)
    ensures Init(hits + [h]) == hits && Last(hits + [h]) == h
  {
    hide IsZip;
    assert Init(hits + [h]) == hits;
  }

  /** One more magic. */
  lemma SeeLists(data: Bytes, ck: Checks, hits: seq<Hit>, h: Hit, p: Pass)
    requires Lists(data, ck, hits, p)
    ensures Lists(data, ck, hits + [h], See(data, ck, p, h))
  {
    hide IsZip, Sound, UpToZip, Followed;
    ZipPush(data, hits, h);
    NextIsExpected(data, ck, hits, h);
    ListsPush(data, ck, hits, h);
    ZipIsArchive(data, h);
    SeeExpected(data, ck, hits, h, p);
    SeeFound(data, ck, hits, h, p);
  }

  lemma NextIsExpected(data: Bytes, ck: Checks, hits: seq<Hit>, h: Hit)
    ensures NextEntry(data, ck, hits, h) <==> h.off != 0 && IsZip(data, h) && Expected(data, ck, hits) == Some(h.off)
  {
    hide IsZip, UpToZip, Followed;
  }

  lemma ListsPush(data: Bytes, ck: Checks, hits: seq<Hit>, h: Hit)
    ensures Elfs(ck, hits + [h]) == Elfs(ck, hits) + (if h.kind.Elf? && h.off != 0 && Sound(ck, h) then [h.off] else [])
    ensures Machos(ck, hits + [h]) == Machos(ck, hits) + (if IsMacho(h) && h.off != 0 && Sound(ck, h) then [h.off] else [])
    ensures Archives(data, ck, hits + [h]) == Archives(data, ck, hits) + (if StandsAlone(data, ck, hits, h) then [h.off] else [])
  {
    hide Sound, StandsAlone;
    assert Init(hits + [h]) == hits;
  }

  lemma SeeExpected(data: Bytes, ck: Checks, hits: seq<Hit>, h: Hit, p: Pass)
    requires Lists(data, ck, hits, p)
    ensures See(data, ck, p, h).zipNext == Expected(data, ck, hits + [h])
  {
    hide IsZip, Sound, UpToZip, Archives, Elfs, Machos, Listed;
    ZipPush(data, hits, h);
    NextIsExpected(data, ck, hits, h);
  }

  lemma SeeFound(data: Bytes, ck: Checks, hits: seq<Hit>, h: Hit, p: Pass)
    requires Lists(data, ck, hits, p)
    ensures var f := See(data, ck, p, h).found;
            && f.elf == Front(Elfs(ck, hits + [h]), MAX_EMBEDDED_PE)
            && f.macho == Front(Machos(ck, hits + [h]), MAX_EMBEDDED_PE)
            && f.archives == Front(Archives(data, ck, hits + [h]), MAX_EMBEDDED_ARCHIVES)
            && (f.othersCapped <==>
                  || |Elfs(ck, hits + [h])| > MAX_EMBEDDED_PE || |Machos(ck, hits + [h])| > MAX_EMBEDDED_PE
                  || |Archives(data, ck, hits + [h])| > MAX_EMBEDDED_ARCHIVES)
  {
    hide IsZip, Sound, UpToZip, Archives, Elfs, Machos, Followed, NextEntry;
    ListsPush(data, ck, hits, h);
    NextIsExpected(data, ck, hits, h);
    ZipIsArchive(data, h);
    FrontPush(Elfs(ck, hits), h.off, MAX_EMBEDDED_PE);
    FrontPush(Machos(ck, hits), h.off, MAX_EMBEDDED_PE);
    FrontPush(Archives(data, ck, hits), h.off, MAX_EMBEDDED_ARCHIVES);
  }

  lemma FrontPush(s: seq<nat>, x: nat, n: nat)
    ensures Front(s + [x], n) == if |s| < n then Front(s, n) + [x] else Front(s, n)
    ensures |Front(s, n)| == Min(|s|, n) && s + [] == s
  {}

  /** So carving finds, in order: the lowest sound PE, ELF and Mach-O images and the lowest sound archives
      that are no entries of a ZIP followed, each up to its cap, and says whether any was left out. */
  lemma CarvingFinds(data: Bytes, ck: Checks)
    ensures var hits, f := Hits(data, 0, |data|), Reference(data, ck);
            && f.pe == Front(PeOffsets(ck, hits), MAX_EMBEDDED_PE) && (f.peCapped <==> |PeOffsets(ck, hits)| > MAX_EMBEDDED_PE)
            && f.elf == Front(Elfs(ck, hits), MAX_EMBEDDED_PE) && f.macho == Front(Machos(ck, hits), MAX_EMBEDDED_PE)
            && f.archives == Front(Archives(data, ck, hits), MAX_EMBEDDED_ARCHIVES)
            && (f.othersCapped <==>
                  || |Elfs(ck, hits)| > MAX_EMBEDDED_PE || |Machos(ck, hits)| > MAX_EMBEDDED_PE
                  || |Archives(data, ck, hits)| > MAX_EMBEDDED_ARCHIVES)
  {
    hide SeeAll, PeOffsets, Elfs, Machos, Archives, Hits;
    HitsAre(data, 0, |data|);
    PassLowest(data, ck, Hits(data, 0, |data|));
    PassLists(data, ck, Hits(data, 0, |data|));
  }

  // ---------------------------------------------------------------- a ZIP and its entries

  /** ZIP entries at the places `at` among the magics, no other ZIP entry between them, each saying where
      the next begins. */
  ghost predicate Chain(data: Bytes, ck: Checks, hits: seq<Hit>, at: seq<nat>) {
    && at != [] && (forall i :: 0 <= i < |at| ==> at[i] < |hits| && IsZip(data, hits[at[i]]))
    && (forall i, m :: 0 <= i < |at| - 1 && at[i] < m < at[i + 1] ==> !IsZip(data, hits[m]))
    && (forall i :: 0 <= i < |at| - 1 ==> at[i] < at[i + 1] && ck.zipNext(hits[at[i]].off) == Some(hits[at[i + 1]].off))
  }

  lemma {:induction false} UpToZipIs(data: Bytes, hits: seq<Hit>, a: nat, b: nat)
    requires a < b <= |hits| && IsZip(data, hits[a]) && forall m :: a < m < b ==> !IsZip(data, hits[m])
    ensures UpToZip(data, hits[..b]) == hits[..a + 1] && Last(hits[..a + 1]) == hits[a] && Init(hits[..a + 1]) == hits[..a]
    decreases b
  {
    hide IsZip;
    assert Init(hits[..a + 1]) == hits[..a];
    if b > a + 1 {
      assert Init(hits[..b]) == hits[..b - 1];
      UpToZipIs(data, hits, a, b - 1);
    }
  }

  /** If the first is followed, each of the others is the next entry of the one before it. */
  lemma {:induction false} ChainFollowed(data: Bytes, ck: Checks, hits: seq<Hit>, at: seq<nat>, i: nat)
    requires Ascending(hits) && Chain(data, ck, hits, at) && Followed(data, ck, hits[..at[0]], hits[at[0]]) && i < |at|
    ensures Followed(data, ck, hits[..at[i]], hits[at[i]])
    ensures i > 0 ==> NextEntry(data, ck, hits[..at[i]], hits[at[i]])
    decreases i
  {
    hide IsZip, Sound, Archives;
    if i > 0 {
      ChainFollowed(data, ck, hits, at, i - 1);
      UpToZipIs(data, hits, at[i - 1], at[i]);
      assert hits[at[i - 1]].off < hits[at[i]].off;
    }
  }

  lemma {:induction false} ArchivesAre(data: Bytes, ck: Checks, hits: seq<Hit>, m: nat)
    requires Ascending(hits) && m < |hits|
    ensures hits[m].off in Archives(data, ck, hits) <==> StandsAlone(data, ck, hits[..m], hits[m])
    ensures forall x :: x in Archives(data, ck, hits) ==> x <= Last(hits).off
    decreases |hits|
  {
    hide StandsAlone;
    var front, last := Init(hits), Last(hits);
    if m < |front| {
      ArchivesAre(data, ck, front, m);
      assert front[..m] == hits[..m];
    } else {
      assert hits[..m] == front;
      if |front| > 0 { ArchivesAre(data, ck, front, |front| - 1); }
    }
  }

  /** A sound ZIP listed below the cap, and none of its entries after it, however many. */
  lemma ZipListedOnce(data: Bytes, ck: Checks, hits: seq<Hit>, at: seq<nat>, i: nat)
    requires Ascending(hits) && Chain(data, ck, hits, at) && i < |at|
    requires StandsAlone(data, ck, hits[..at[0]], hits[at[0]]) && |Archives(data, ck, hits[..at[0]])| < MAX_EMBEDDED_ARCHIVES
    ensures hits[at[i]].off in SeeAll(data, ck, hits).found.archives <==> i == 0
  {
    hide IsZip, Sound, Archives, SeeAll, NextEntry;
    ChainFollowed(data, ck, hits, at, i);
    ArchivesAre(data, ck, hits, at[i]);
    PassLists(data, ck, hits);
    if i == 0 { ListedBelowCap(data, ck, hits, at[0]); }
  }

  /** The object's own ZIP: none of its entries is listed. */
  lemma OwnZipUnlisted(data: Bytes, ck: Checks, hits: seq<Hit>, at: seq<nat>, i: nat)
    requires Ascending(hits) && Chain(data, ck, hits, at) && i < |at| && hits[at[0]].off == 0
    ensures hits[at[i]].off !in SeeAll(data, ck, hits).found.archives
  {
    hide IsZip, Sound, Archives, SeeAll, NextEntry;
    ChainFollowed(data, ck, hits, at, i);
    ArchivesAre(data, ck, hits, at[i]);
    PassLists(data, ck, hits);
  }

  /** Conversely a sound archive below the cap that no ZIP entry followed names is listed. */
  lemma ListedBelowCap(data: Bytes, ck: Checks, hits: seq<Hit>, m: nat)
    requires Ascending(hits) && m < |hits| && StandsAlone(data, ck, hits[..m], hits[m])
    requires |Archives(data, ck, hits[..m])| < MAX_EMBEDDED_ARCHIVES
    ensures hits[m].off in SeeAll(data, ck, hits).found.archives
  {
    hide StandsAlone, SeeAll, Archives, Elfs, Machos;
    PassLists(data, ck, hits);
    ArchivesGrow(data, ck, hits, m);
    InFront(Archives(data, ck, hits), Archives(data, ck, hits[..m]), hits[m].off, MAX_EMBEDDED_ARCHIVES);
  }

  lemma InFront(all: seq<nat>, first: seq<nat>, x: nat, n: nat)
    requires first + [x] <= all && |first| < n
    ensures x in Front(all, n)
  {
    assert (first + [x])[|first|] == x;
    assert Front(all, n)[|first|] == x;
  }

  /** The archives of a beginning come first, and the next one right after them. */
  lemma {:induction false} ArchivesGrow(data: Bytes, ck: Checks, hits: seq<Hit>, m: nat)
    requires m < |hits| && StandsAlone(data, ck, hits[..m], hits[m])
    ensures Archives(data, ck, hits[..m]) + [hits[m].off] <= Archives(data, ck, hits)
    decreases |hits|
  {
    hide StandsAlone;
    var front := Init(hits);
    if m < |front| {
      assert front[..m] == hits[..m];
      ArchivesGrow(data, ck, front, m);
    } else {
      assert hits[..m] == front;
    }
  }
}
