/** Looking up an object by its digests. Digests no signature could match are not computed, and
    that changes no answer. */
module HashLookup {
  import opened ByteSeq
  import opened Numerals
  import opened HashTable
  import opened HashBlobs

  // ---------------------------------------------------------------- the keys

  /** Byte strings by their first difference, a prefix first. */
  predicate LexLeq(a: Bytes, b: Bytes)
    decreases |a|
  {
    if a == [] then true
    else if b == [] then false
    else if a[0] != b[0] then a[0] < b[0]
    else LexLeq(a[1..], b[1..])
  }

  lemma {:induction false} LexTotal(a: Bytes, b: Bytes)
    ensures LexLeq(a, b) || LexLeq(b, a)
    ensures LexLeq(a, b) && LexLeq(b, a) ==> a == b
    decreases |a|
  {
    if a != [] && b != [] && a[0] == b[0] {
      LexTotal(a[1..], b[1..]);
      assert a == [a[0]] + a[1..] && b == [b[0]] + b[1..];
    }
  }

  lemma {:induction false} LexTransitive(a: Bytes, b: Bytes, c: Bytes)
    requires LexLeq(a, b) && LexLeq(b, c)
    ensures LexLeq(a, c)
    decreases |a|
  {
    if a != [] && a[0] == b[0] && b[0] == c[0] { LexTransitive(a[1..], b[1..], c[1..]); }
  }

  /** Digests of `n` bytes. */
  function DigestOps(n: nat): KeyOps<Bytes> {
    KeyOps((d: Bytes) => |d| == n, LexLeq, n, (d: Bytes) => d, (b: Bytes) => b)
  }

  /** A signature of one size: the size, then the digest. */
  type SizedKey = (nat, Bytes)

  predicate SizedLeq(a: SizedKey, b: SizedKey) { a.0 < b.0 || (a.0 == b.0 && LexLeq(a.1, b.1)) }

  function PutSized(k: SizedKey): Bytes { ToLe(k.0, 8) + k.1 }

  function GetSized(b: Bytes): SizedKey { if |b| < 8 then (0, []) else (FromLe(b[..8]), b[8..]) }

  function SizedOps(n: nat): KeyOps<SizedKey> {
    KeyOps((k: SizedKey) => k.0 < U64 && |k.1| == n, SizedLeq, 8 + n, PutSized, GetSized)
  }

  lemma DigestOpsLawful(n: nat)
    requires n > 0
    ensures Lawful(DigestOps(n))
  {
    var ops := DigestOps(n);
    forall a, b ensures (ops.leq(a, b) || ops.leq(b, a)) && (ops.leq(a, b) && ops.leq(b, a) ==> a == b) { LexTotal(a, b); }
    forall a, b, c | ops.leq(a, b) && ops.leq(b, c) ensures ops.leq(a, c) { LexTransitive(a, b, c); }
  }

  lemma LimitEight()
    ensures Limit(8) == U64
  {
    assert Limit(2) == 0x1_0000;
    assert Limit(4) == 256 * (256 * Limit(2));
    assert Limit(6) == 256 * (256 * Limit(4));
    assert Limit(8) == 256 * (256 * Limit(6));
  }

  lemma SizedBack(k: SizedKey)
    requires k.0 < U64
    ensures |PutSized(k)| == 8 + |k.1| && GetSized(PutSized(k)) == k
  {
    hide ToLe, FromLe;
    LimitEight();
    LeRoundTrip(k.0, 8);
    assert PutSized(k)[..8] == ToLe(k.0, 8) && PutSized(k)[8..] == k.1;
  }

  lemma SizedOrder(a: SizedKey, b: SizedKey, c: SizedKey)
    ensures SizedLeq(a, b) || SizedLeq(b, a)
    ensures SizedLeq(a, b) && SizedLeq(b, a) ==> a == b
    ensures SizedLeq(a, b) && SizedLeq(b, c) ==> SizedLeq(a, c)
  {
    hide LexLeq;
    LexTotal(a.1, b.1);
    if SizedLeq(a, b) && SizedLeq(b, c) && a.0 == b.0 && b.0 == c.0 { LexTransitive(a.1, b.1, c.1); }
  }

  lemma SizedOpsLawful(n: nat)
    ensures Lawful(SizedOps(n))
  {
    hide SizedLeq, PutSized, GetSized;
    var ops := SizedOps(n);
    forall a, b ensures (ops.leq(a, b) || ops.leq(b, a)) && (ops.leq(a, b) && ops.leq(b, a) ==> a == b) { SizedOrder(a, b, b); }
    forall a, b, c | ops.leq(a, b) && ops.leq(b, c) ensures ops.leq(a, c) { SizedOrder(a, b, c); }
    forall k | ops.valid(k) ensures |ops.put(k)| == ops.width && ops.get(ops.put(k)) == k { SizedBack(k); }
    forall b: Bytes | |b| == ops.width ensures ops.valid(ops.get(b)) { SizedRead(b); }
  }

  lemma SizedRead(b: Bytes)
    requires |b| >= 8
    ensures GetSized(b).0 < U64 && |GetSized(b).1| == |b| - 8
  {
    hide FromLe;
    LimitEight();
    LeFits(b[..8]);
  }

  // ---------------------------------------------------------------- one digest's signatures

  /** Signatures of any size, and signatures of one size each. */
  datatype DigestTable = DigestTable(any: Packed<Bytes>, sized: Packed<SizedKey>)

  /** Finalized, or read back from blobs. */
  ghost predicate Usable(t: DigestTable, n: nat) {
    && n > 0 && InRange(t.any) && SortedKeys(DigestOps(n), t.any.keys)
    && InRange(t.sized) && SortedKeys(SizedOps(n), t.sized.keys)
  }

  function OrElse(a: Option<Answer>, b: Option<Answer>): Option<Answer> { if a.Some? then a else b }

  /** A signature of exactly this size, or else one of any size. */
  function Find(t: DigestTable, n: nat, key: Bytes, size: nat): (r: Option<Answer>)
    requires Usable(t, n)
    ensures r.Some? <==> (size, key) in t.sized.keys || key in t.any.keys
    ensures StrictKeys(SizedOps(n), t.sized.keys) && StrictKeys(DigestOps(n), t.any.keys) ==>
              r == OrElse(LastOf(Entries(t.sized), (size, key)), LastOf(Entries(t.any), key))
  {
    DigestOpsLawful(n); SizedOpsLawful(n);
    OrElse(Get(SizedOps(n), t.sized, (size, key)), Get(DigestOps(n), t.any, key))
  }

  /** One line of a signature file; no size is any size. */
  datatype Signature = Signature(key: Bytes, size: Option<nat>, name: Bytes, unofficial: bool)

  function AnyOf(sigs: seq<Signature>): seq<Entry<Bytes>> {
    if sigs == [] then []
    else
      var s := sigs[|sigs| - 1];
      AnyOf(sigs[..|sigs| - 1]) + if s.size.None? then [Entry(s.key, s.name, s.unofficial)] else []
  }

  function SizedOf(sigs: seq<Signature>): seq<Entry<SizedKey>> {
    if sigs == [] then []
    else
      var s := sigs[|sigs| - 1];
      SizedOf(sigs[..|sigs| - 1]) + if s.size.Some? then [Entry((s.size.value, s.key), s.name, s.unofficial)] else []
  }

  /** How many leading keys have a smaller size. */
  function FirstOfSize(keys: seq<SizedKey>, size: nat): (i: nat)
    ensures i <= |keys| && (forall j :: 0 <= j < i ==> keys[j].0 < size) && (i < |keys| ==> keys[i].0 >= size)
  {
    if keys == [] || keys[0].0 >= size then 0 else 1 + FirstOfSize(keys[1..], size)
  }

  /** Whether a signature could match an object of `size` bytes: one of any size, or one of exactly
      that size. */
  predicate Wants(t: DigestTable, size: nat) {
    var i := FirstOfSize(t.sized.keys, size);
    t.any.keys != [] || (i < |t.sized.keys| && t.sized.keys[i].0 == size)
  }

  /** In a table in order, `Wants` answers exactly that. */
  lemma WantsIs(t: DigestTable, n: nat, size: nat)
    requires Usable(t, n)
    ensures Wants(t, size) <==> t.any.keys != [] || exists i :: 0 <= i < |t.sized.keys| && t.sized.keys[i].0 == size
  {
    hide LexLeq;
    var keys := t.sized.keys;
    var i := FirstOfSize(keys, size);
    if j :| 0 <= j < |keys| && keys[j].0 == size {
      assert i <= j;
      if i < j { assert SizedOps(n).leq(keys[i], keys[j]); }
    }
  }

  /** What is not wanted is not found. */
  lemma UnwantedNotFound(t: DigestTable, n: nat, key: Bytes, size: nat)
    requires Usable(t, n) && !Wants(t, size)
    ensures Find(t, n, key, size) == None
  {
    hide FirstOfSize, LexLeq;
    WantsIs(t, n, size);
  }

  // ---------------------------------------------------------------- three digests

  const MD5: nat := 16
  const SHA1: nat := 20
  const SHA256: nat := 32

  datatype HashDb = HashDb(md5: DigestTable, sha1: DigestTable, sha256: DigestTable)

  ghost predicate UsableDb(db: HashDb) { Usable(db.md5, MD5) && Usable(db.sha1, SHA1) && Usable(db.sha256, SHA256) }

  datatype Digests = Digests(md5: Option<Bytes>, sha1: Option<Bytes>, sha256: Option<Bytes>)

  datatype Want = Want(md5: bool, sha1: bool, sha256: bool)

  function Union(a: Want, b: Want): Want { Want(a.md5 || b.md5, a.sha1 || b.sha1, a.sha256 || b.sha256) }

  function WantsOf(db: HashDb, size: nat): Want { Want(Wants(db.md5, size), Wants(db.sha1, size), Wants(db.sha256, size)) }

  /** The digests a want asks for, the others left empty. */
  function Only(d: Digests, w: Want): Digests {
    Digests(if w.md5 then d.md5 else None, if w.sha1 then d.sha1 else None, if w.sha256 then d.sha256 else None)
  }

  function FindIn(t: DigestTable, n: nat, d: Option<Bytes>, size: nat): Option<Answer>
    requires Usable(t, n)
  {
    match d
    case None => None
    case Some(key) => Find(t, n, key, size)
  }

  /** The first signature of the three tables that matches. */
  function Lookup(db: HashDb, d: Digests, size: nat): Option<Answer>
    requires UsableDb(db)
  {
    OrElse(FindIn(db.md5, MD5, d.md5, size),
           OrElse(FindIn(db.sha1, SHA1, d.sha1, size), FindIn(db.sha256, SHA256, d.sha256, size)))
  }

  lemma SkippedFindsSame(t: DigestTable, n: nat, d: Option<Bytes>, size: nat, wanted: bool)
    requires Usable(t, n) && (wanted || !Wants(t, size))
    ensures FindIn(t, n, if wanted then d else None, size) == FindIn(t, n, d, size)
  {
    hide Find, Wants;
    if !wanted && d.Some? { UnwantedNotFound(t, n, d.value, size); }
  }

  /** Skipping digests is harmless: asking for at least the digests the tables want for this size
      gives the answer all of them give. */
  lemma SkippingIsHarmless(db: HashDb, d: Digests, size: nat, more: Want)
    requires UsableDb(db)
    ensures Lookup(db, Only(d, Union(WantsOf(db, size), more)), size) == Lookup(db, d, size)
  {
    hide FindIn, Wants;
    var w := Union(WantsOf(db, size), more);
    SkippedFindsSame(db.md5, MD5, d.md5, size, w.md5);
    SkippedFindsSame(db.sha1, SHA1, d.sha1, size, w.sha1);
    SkippedFindsSame(db.sha256, SHA256, d.sha256, size, w.sha256);
  }

  // ---------------------------------------------------------------- what a lookup finds

  /** The digest is given and the table has it, at this size or for any. */
  predicate Has(t: DigestTable, d: Option<Bytes>, size: nat) {
    d.Some? && ((size, d.value) in t.sized.keys || d.value in t.any.keys)
  }

  /** Something is found exactly when one of the three digests is given and its table has it. */
  lemma LookupFinds(db: HashDb, d: Digests, size: nat)
    requires UsableDb(db)
    ensures Lookup(db, d, size).Some? <==> Has(db.md5, d.md5, size) || Has(db.sha1, d.sha1, size) || Has(db.sha256, d.sha256, size)
  {
    hide Usable;
  }

  /** What a table of distinct keys stands for at a digest: its entry of exactly the size, or of any. */
  ghost function Stands(t: DigestTable, key: Bytes, size: nat): Option<Answer>
    requires InRange(t.any) && InRange(t.sized)
  {
    if LastOf(Entries(t.sized), (size, key)).Some? then LastOf(Entries(t.sized), (size, key)) else LastOf(Entries(t.any), key)
  }

  ghost predicate Distinct(t: DigestTable, n: nat) {
    Usable(t, n) && StrictKeys(SizedOps(n), t.sized.keys) && StrictKeys(DigestOps(n), t.any.keys)
  }

  lemma FindStands(t: DigestTable, n: nat, key: Bytes, size: nat)
    requires Distinct(t, n)
    ensures Find(t, n, key, size) == Stands(t, key, size)
    ensures Stands(t, key, size).Some? <==> (size, key) in t.sized.keys || key in t.any.keys
  {
    hide LastOf, Entries, StrictKeys, SortedKeys;
  }

  /** And it is the answer of the first digest found, MD5 before SHA-1 before SHA-256. */
  lemma LookupFirst(db: HashDb, d: Digests, size: nat)
    requires Distinct(db.md5, MD5) && Distinct(db.sha1, SHA1) && Distinct(db.sha256, SHA256)
    ensures Has(db.md5, d.md5, size) ==> Lookup(db, d, size) == Stands(db.md5, d.md5.value, size)
    ensures !Has(db.md5, d.md5, size) && Has(db.sha1, d.sha1, size) ==> Lookup(db, d, size) == Stands(db.sha1, d.sha1.value, size)
    ensures !Has(db.md5, d.md5, size) && !Has(db.sha1, d.sha1, size) && Has(db.sha256, d.sha256, size) ==>
              Lookup(db, d, size) == Stands(db.sha256, d.sha256.value, size)
  {
    hide Usable, Find, Stands, StrictKeys;
    if d.md5.Some? { FindStands(db.md5, MD5, d.md5.value, size); }
    if d.sha1.Some? { FindStands(db.sha1, SHA1, d.sha1.value, size); }
    if d.sha256.Some? { FindStands(db.sha256, SHA256, d.sha256.value, size); }
  }

  // ---------------------------------------------------------------- from signatures to answers

  /** What signatures say of a digest: the last of exactly the size, or else the last of any. */
  function Said(sigs: seq<Signature>, d: Option<Bytes>, size: nat): Option<Answer> {
    if d.None? then None else OrElse(LastOf(SizedOf(sigs), (size, d.value)), LastOf(AnyOf(sigs), d.value))
  }

  predicate NamesFit(sigs: seq<Signature>) { NamesLen(AnyOf(sigs)) < U32 && NamesLen(SizedOf(sigs)) < U32 }

  /** Signatures inserted and both tables finalized. */
  method BuildTable(n: nat, sigs: seq<Signature>) returns (t: DigestTable)
    requires n > 0
    ensures Usable(t, n) && Speaks(t, n, sigs)
  {
    hide Lawful, LastOf, Entries, NamesLen, StrictKeys, SizedOps, DigestOps, InRange, SortedKeys;
    var any, sized := [], [];
    assert sigs[..|sigs|] == sigs;
    for i := 0 to |sigs|
      invariant any == AnyOf(sigs[..i]) && sized == SizedOf(sigs[..i])
    {
      assert sigs[..i + 1][..i] == sigs[..i];
      var s := sigs[i];
      match s.size {
        case Some(size) => sized := sized + [Entry((size, s.key), s.name, s.unofficial)];
        case None => any := any + [Entry(s.key, s.name, s.unofficial)];
      }
    }
    DigestOpsLawful(n);
    SizedOpsLawful(n);
    var a := Build(DigestOps(n), any);
    var b := Build(SizedOps(n), sized);
    t := DigestTable(a, b);
  }

  /** Signatures inserted, the tables finalized, and one lookup: the last signature of exactly the
      size, or else the last of any size, or nothing. */
  method BuildAndFind(n: nat, sigs: seq<Signature>, key: Bytes, size: nat) returns (r: Option<Answer>)
    requires n > 0
    ensures Answers(r, OrElse(LastOf(SizedOf(sigs), (size, key)), LastOf(AnyOf(sigs), key)),
                    NamesLen(AnyOf(sigs)) < U32 && NamesLen(SizedOf(sigs)) < U32)
  {
    hide Usable, Find, LastOf, NamesLen;
    var t := BuildTable(n, sigs);
    assert Answers(Find(t, n, key, size), Said(sigs, Some(key), size), NamesFit(sigs));
    r := Find(t, n, key, size);
  }

  /** A table that answers as its signatures say. */
  ghost predicate Speaks(t: DigestTable, n: nat, sigs: seq<Signature>)
    requires Usable(t, n)
  {
    forall key, size :: Answers(Find(t, n, key, size), Said(sigs, Some(key), size), NamesFit(sigs))
  }

  lemma FindInSaid(t: DigestTable, n: nat, sigs: seq<Signature>, d: Option<Bytes>, size: nat)
    requires Usable(t, n) && Speaks(t, n, sigs)
    ensures Answers(FindIn(t, n, d, size), Said(sigs, d, size), NamesFit(sigs))
  {
    hide Usable, Find, NamesFit;
    if d.Some? { assert Answers(Find(t, n, d.value, size), Said(sigs, Some(d.value), size), NamesFit(sigs)); }
  }

  lemma LookupSaid(db: HashDb, md5: seq<Signature>, sha1: seq<Signature>, sha256: seq<Signature>, d: Digests, size: nat)
    requires UsableDb(db) && Speaks(db.md5, MD5, md5) && Speaks(db.sha1, SHA1, sha1) && Speaks(db.sha256, SHA256, sha256)
    ensures var first, second, third := Said(md5, d.md5, size), Said(sha1, d.sha1, size), Said(sha256, d.sha256, size);
            Answers(Lookup(db, d, size), if first.Some? then first else if second.Some? then second else third,
                    NamesFit(md5) && NamesFit(sha1) && NamesFit(sha256))
  {
    hide Usable, Speaks, FindIn, Said, NamesFit;
    FindInSaid(db.md5, MD5, md5, d.md5, size);
    FindInSaid(db.sha1, SHA1, sha1, d.sha1, size);
    FindInSaid(db.sha256, SHA256, sha256, d.sha256, size);
  }

  /** Signatures of all three kinds inserted and finalized, and one lookup with only the digests wanted
      for the size: what is said of the MD5 digest, or else of SHA-1, or else of SHA-256. */
  method BuildAndLookup(md5: seq<Signature>, sha1: seq<Signature>, sha256: seq<Signature>, d: Digests, size: nat)
    returns (r: Option<Answer>)
    ensures var first, second, third := Said(md5, d.md5, size), Said(sha1, d.sha1, size), Said(sha256, d.sha256, size);
            Answers(r, if first.Some? then first else if second.Some? then second else third,
                    NamesFit(md5) && NamesFit(sha1) && NamesFit(sha256))
  {
    hide Usable, Speaks, Lookup, Said, NamesFit, Wants, Only;
    var a := BuildTable(MD5, md5);
    var b := BuildTable(SHA1, sha1);
    var c := BuildTable(SHA256, sha256);
    var db := HashDb(a, b, c);
    var want := WantsOf(db, size);
    WantedAnswers(db, d, size);
    LookupSaid(db, md5, sha1, sha256, d, size);
    r := Lookup(db, Only(d, want), size);
  }

  lemma WantedAnswers(db: HashDb, d: Digests, size: nat)
    requires UsableDb(db)
    ensures Lookup(db, Only(d, WantsOf(db, size)), size) == Lookup(db, d, size)
  {
    hide Usable, Lookup, Wants, Only;
    var want := WantsOf(db, size);
    SkippingIsHarmless(db, d, size, want);
    assert Union(want, want) == want;
  }
}
