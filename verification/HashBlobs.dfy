/** The hash table as four blobs, and back: fixed-width keys, spans as words, the names, and the
    provenance as bits. */
module HashBlobs {
  import opened ByteSeq
  import opened Numerals
  import opened HashTable

  // ---------------------------------------------------------------- words

  lemma {:induction false} LeFits(b: Bytes)
    ensures FromLe(b) < Limit(|b|)
    decreases |b|
  {
    if b != [] { LeFits(b[1..]); }
  }

  // ---------------------------------------------------------------- bits

  /** Whether bit `j` of a byte is set. */
  predicate TestBit(b: nat, j: nat)
    decreases j
  {
    if j == 0 then b % 2 == 1 else TestBit(b / 2, j - 1)
  }

  /** The byte with bit `j` set, the others as they were. */
  function SetBit(b: nat, j: nat): nat
    decreases j
  {
    if j == 0 then b / 2 * 2 + 1 else SetBit(b / 2, j - 1) * 2 + b % 2
  }

  lemma {:induction false} SetBitIs(b: nat, j: nat, k: nat)
    ensures TestBit(SetBit(b, j), k) <==> k == j || TestBit(b, k)
    decreases j
  {
    if j > 0 && k > 0 {
      SetBitIs(b / 2, j - 1, k - 1);
      assert SetBit(b, j) / 2 == SetBit(b / 2, j - 1);
    } else if j == 0 && k > 0 {
      assert SetBit(b, 0) / 2 == b / 2;
    }
  }

  function TwoTo(n: nat): nat { if n == 0 then 1 else 2 * TwoTo(n - 1) }

  lemma {:induction false} SetBitFits(b: nat, j: nat, n: nat)
    requires b < TwoTo(n) && j < n
    ensures SetBit(b, j) < TwoTo(n)
    decreases n
  {
    if j > 0 { SetBitFits(b / 2, j - 1, n - 1); }
  }

  lemma {:induction false} NoBits(k: nat)
    ensures !TestBit(0, k)
  {
    if k > 0 { NoBits(k - 1); }
  }

  function CeilDiv8(n: nat): nat { (n + 7) / 8 }

  /** Flag `k` among the first `i` is bit `k % 8` of byte `k / 8`. */
  predicate Packs(bits: Bytes, flags: seq<bool>, i: nat, k: nat)
    requires |bits| == CeilDiv8(|flags|) && k < |flags|
  {
    TestBit(bits[k / 8], k % 8) == (k < i && flags[k])
  }

  lemma PacksNext(bits: Bytes, flags: seq<bool>, i: nat, k: nat)
    requires |bits| == CeilDiv8(|flags|) && k < |flags| && i < |flags| && Packs(bits, flags, i, k)
    requires Packs(bits, flags, i, i)
    ensures SetBit(bits[i / 8], i % 8) < 256
    ensures Packs(if flags[i] then bits[i / 8 := SetBit(bits[i / 8], i % 8)] else bits, flags, i + 1, k)
  {
    hide TestBit, SetBit;
    assert TwoTo(8) == 256;
    SetBitFits(bits[i / 8], i % 8, 8);
    SetBitIs(bits[i / 8], i % 8, k % 8);
  }

  /** One bit for each flag, in order, and zeros to the end of the last byte. */
  method PackFlags(flags: seq<bool>) returns (bits: Bytes)
    ensures |bits| == CeilDiv8(|flags|)
    ensures forall k :: 0 <= k < |flags| ==> Packs(bits, flags, |flags|, k)
    ensures forall k :: |flags| <= k < 8 * |bits| ==> !TestBit(bits[k / 8], k % 8)
  {
    hide TestBit, SetBit;
    bits := seq(CeilDiv8(|flags|), i => 0);
    forall k | 0 <= k < |flags| ensures Packs(bits, flags, 0, k) { NoBits(k % 8); }
    forall k | |flags| <= k < 8 * |bits| ensures !TestBit(bits[k / 8], k % 8) { NoBits(k % 8); }
    for i := 0 to |flags|
      invariant |bits| == CeilDiv8(|flags|)
      invariant forall k :: 0 <= k < |flags| ==> Packs(bits, flags, i, k)
      invariant forall k :: |flags| <= k < 8 * |bits| ==> !TestBit(bits[k / 8], k % 8)
    {
      hide Packs;
      PacksNext(bits, flags, i, i);
      ghost var before := bits;
      if flags[i] {
        bits := bits[i / 8 := SetBit(bits[i / 8], i % 8)];
      }
      ghost var next := i + 1;
      forall k | 0 <= k < |flags| ensures Packs(bits, flags, next, k) { PacksNext(before, flags, i, k); }
      forall k | |flags| <= k < 8 * |bits| ensures !TestBit(bits[k / 8], k % 8) { SetBitIs(before[i / 8], i % 8, k % 8); }
    }
  }

  // ---------------------------------------------------------------- the blobs

  datatype Blobs = Blobs(keys: Bytes, spans: Bytes, names: Bytes, bits: Bytes)

  /** The fixed-width records of a blob, or nothing when bytes are left over. */
  function TakeKeys<K(!new)>(ops: KeyOps<K>, b: Bytes): (r: Option<seq<K>>)
    requires ops.width > 0
    decreases |b|
  {
    if b == [] then Some([])
    else if |b| < ops.width then None
    else match TakeKeys(ops, b[ops.width..])
      case None => None
      case Some(rest) => Some([ops.get(b[..ops.width])] + rest)
  }

  lemma {:induction false} TakeKeysSnoc<K(!new)>(ops: KeyOps<K>, b: Bytes, record: Bytes)
    requires ops.width > 0 && TakeKeys(ops, b).Some? && |record| == ops.width
    ensures TakeKeys(ops, b + record) == Some(TakeKeys(ops, b).value + [ops.get(record)])
    decreases |b|
  {
    var w := ops.width;
    if b == [] {
      assert b + record == record && record[..w] == record && record[w..] == [];
      assert TakeKeys(ops, record[w..]) == Some([]);
      assert [ops.get(record)] + [] == [] + [ops.get(record)];
    } else {
      assert (b + record)[..w] == b[..w] && (b + record)[w..] == b[w..] + record;
      TakeKeysSnoc(ops, b[w..], record);
      var head, rest := [ops.get(b[..w])], TakeKeys(ops, b[w..]).value;
      assert head + (rest + [ops.get(record)]) == head + rest + [ops.get(record)];
    }
  }

  lemma {:induction false} TakenValid<K(!new)>(ops: KeyOps<K>, b: Bytes)
    requires Lawful(ops) && TakeKeys(ops, b).Some?
    ensures forall i :: 0 <= i < |TakeKeys(ops, b).value| ==> ops.valid(TakeKeys(ops, b).value[i])
    decreases |b|
  {
    if b != [] { TakenValid(ops, b[ops.width..]); }
  }

  function TakeSpans(b: Bytes, n: nat): (r: seq<(nat, nat)>)
    requires |b| == 8 * n
    ensures |r| == n
  {
    seq(n, i requires 0 <= i < n => (FromLe(b[8 * i..8 * i + 4]), FromLe(b[8 * i + 4..8 * i + 8])))
  }

  function TakeFlags(bits: Bytes, n: nat): (r: seq<bool>)
    requires |bits| == CeilDiv8(n)
    ensures |r| == n
  {
    seq(n, i requires 0 <= i < n => TestBit(bits[i / 8], i % 8))
  }

  predicate AdjacentSorted<K(!new)>(ops: KeyOps<K>, keys: seq<K>) {
    forall i :: 0 <= i < |keys| - 1 ==> ops.leq(keys[i], keys[i + 1])
  }

  /** What the blobs hold, or nothing when their lengths disagree, the keys are out of order or a
      span leaves the names. */
  function Read<K(!new)>(ops: KeyOps<K>, b: Blobs): (r: Option<Packed<K>>)
    requires ops.width > 0
  {
    match TakeKeys(ops, b.keys)
    case None => None
    case Some(keys) =>
      if |b.spans| != 8 * |keys| || |b.bits| != CeilDiv8(|keys|) then None
      else
        var t := Packed(keys, TakeSpans(b.spans, |keys|), b.names, TakeFlags(b.bits, |keys|));
        if AdjacentSorted(ops, keys) && InRange(t) then Some(t) else None
  }

  // ---------------------------------------------------------------- writing and reading back

  /** What a reader of the blobs needs to be true of a table. */
  ghost predicate Storable<K(!new)>(ops: KeyOps<K>, t: Packed<K>) {
    && InRange(t) && SortedKeys(ops, t.keys)
    && (forall i :: 0 <= i < |t.keys| ==> ops.valid(t.keys[i]))
    && ShortSpans(t)
  }

  ghost predicate SpansAt(b: Bytes, spans: seq<(nat, nat)>) {
    && |b| == 8 * |spans|
    && forall i :: 0 <= i < |spans| ==> b[8 * i..8 * i + 4] == ToLe(spans[i].0, 4) && b[8 * i + 4..8 * i + 8] == ToLe(spans[i].1, 4)
  }

  lemma SpansGrow(b: Bytes, spans: seq<(nat, nat)>, s: (nat, nat))
    requires SpansAt(b, spans)
    ensures SpansAt(b + ToLe(s.0, 4) + ToLe(s.1, 4), spans + [s])
  {
    hide ToLe;
    var n := |spans|;
    var c := b + ToLe(s.0, 4) + ToLe(s.1, 4);
    assert c == b + (ToLe(s.0, 4) + ToLe(s.1, 4));
    forall i | 0 <= i < n + 1
      ensures c[8 * i..8 * i + 4] == ToLe((spans + [s])[i].0, 4) && c[8 * i + 4..8 * i + 8] == ToLe((spans + [s])[i].1, 4)
    {
      if i < n {
        SameSlice(b, c, 8 * i, 8 * i + 4);
        SameSlice(b, c, 8 * i + 4, 8 * i + 8);
      } else {
        assert c[8 * n..8 * n + 4] == ToLe(s.0, 4);
        assert c[8 * n + 4..8 * n + 8] == ToLe(s.1, 4);
      }
    }
  }

  lemma SpansBack(b: Bytes, spans: seq<(nat, nat)>)
    requires SpansAt(b, spans) && forall i :: 0 <= i < |spans| ==> spans[i].0 < U32 && spans[i].1 < U32
    ensures TakeSpans(b, |spans|) == spans
  {
    hide ToLe, FromLe;
    assert Limit(4) == U32 by { assert Limit(2) == 0x1_0000; assert Limit(3) == 256 * Limit(2); }
    forall i | 0 <= i < |spans| ensures TakeSpans(b, |spans|)[i] == spans[i] {
      LeRoundTrip(spans[i].0, 4);
      LeRoundTrip(spans[i].1, 4);
    }
  }

  lemma FlagsBack(bits: Bytes, flags: seq<bool>)
    requires |bits| == CeilDiv8(|flags|) && forall k :: 0 <= k < |flags| ==> Packs(bits, flags, |flags|, k)
    ensures TakeFlags(bits, |flags|) == flags
  {
    hide TestBit;
    forall k | 0 <= k < |flags| ensures TakeFlags(bits, |flags|)[k] == flags[k] { assert Packs(bits, flags, |flags|, k); }
  }

  /** A table written out reads back as itself. */
  method Write<K(!new)>(ops: KeyOps<K>, t: Packed<K>) returns (b: Blobs)
    requires Lawful(ops) && Storable(ops, t)
    ensures Read(ops, b) == Some(t)
  {
    hide Lawful, Packs, TakeKeys, TakeSpans, TakeFlags, SpansAt;
    var keys: Bytes, spans: Bytes := [], [];
    NoneYet(ops);
    for i := 0 to |t.keys|
      invariant ops.width > 0 && TakeKeys(ops, keys) == Some(t.keys[..i])
    {
      PutBack(ops, t.keys[i]);
      TakeKeysSnoc(ops, keys, ops.put(t.keys[i]));
      keys := keys + ops.put(t.keys[i]);
      assert t.keys[..i + 1] == t.keys[..i] + [t.keys[i]];
    }
    for i := 0 to |t.spans|
      invariant SpansAt(spans, t.spans[..i])
    {
      SpansGrow(spans, t.spans[..i], t.spans[i]);
      spans := spans + ToLe(t.spans[i].0, 4) + ToLe(t.spans[i].1, 4);
      assert t.spans[..i + 1] == t.spans[..i] + [t.spans[i]];
    }
    var bits := PackFlags(t.unofficial);
    b := Blobs(keys, spans, t.names, bits);
    assert t.keys[..|t.keys|] == t.keys && t.spans[..|t.spans|] == t.spans;
    ReadsBack(ops, t, b);
  }

  lemma NoneYet<K(!new)>(ops: KeyOps<K>)
    requires Lawful(ops)
    ensures ops.width > 0 && TakeKeys(ops, []) == Some([]) && SpansAt([], [])
  {}

  lemma PutBack<K(!new)>(ops: KeyOps<K>, k: K)
    requires Lawful(ops) && ops.valid(k)
    ensures |ops.put(k)| == ops.width && ops.get(ops.put(k)) == k
  {}

  lemma ReadsBack<K(!new)>(ops: KeyOps<K>, t: Packed<K>, b: Blobs)
    requires Lawful(ops) && Storable(ops, t) && b.names == t.names
    requires TakeKeys(ops, b.keys) == Some(t.keys) && SpansAt(b.spans, t.spans)
    requires |b.bits| == CeilDiv8(|t.unofficial|) && forall k :: 0 <= k < |t.unofficial| ==> Packs(b.bits, t.unofficial, |t.unofficial|, k)
    ensures ops.width > 0 && Read(ops, b) == Some(t)
  {
    hide Packs, TakeKeys, TakeSpans, TakeFlags;
    SpansBack(b.spans, t.spans);
    FlagsBack(b.bits, t.unofficial);
    forall i | 0 <= i < |t.keys| - 1 ensures ops.leq(t.keys[i], t.keys[i + 1]) {}
  }

  /** Whatever blobs the reader accepts, every later lookup is in range and by order. */
  lemma ReadIsUsable<K(!new)>(ops: KeyOps<K>, b: Blobs)
    requires Lawful(ops) && Read(ops, b).Some?
    ensures Storable(ops, Read(ops, b).value)
  {
    hide TestBit, FromLe, TakeKeys;
    var t := Read(ops, b).value;
    AdjacentIsSorted(ops, t.keys);
    TakenValid(ops, b.keys);
    WordsFit(b.spans, |t.keys|);
  }

  lemma WordsFit(b: Bytes, n: nat)
    requires |b| == 8 * n
    ensures forall i :: 0 <= i < n ==> TakeSpans(b, n)[i].0 < U32 && TakeSpans(b, n)[i].1 < U32
  {
    hide FromLe;
    assert Limit(4) == U32 by { assert Limit(2) == 0x1_0000; assert Limit(3) == 256 * Limit(2); }
    forall i | 0 <= i < n ensures TakeSpans(b, n)[i].0 < U32 && TakeSpans(b, n)[i].1 < U32 {
      LeFits(b[8 * i..8 * i + 4]);
      LeFits(b[8 * i + 4..8 * i + 8]);
    }
  }

  lemma {:induction false} AdjacentIsSorted<K(!new)>(ops: KeyOps<K>, keys: seq<K>)
    requires Lawful(ops) && AdjacentSorted(ops, keys)
    ensures SortedKeys(ops, keys)
    decreases |keys|
  {
    if |keys| > 1 {
      var n := |keys| - 1;
      AdjacentIsSorted(ops, keys[..n]);
      forall i, j | 0 <= i < j < |keys| ensures ops.leq(keys[i], keys[j]) {
        if j < n {
          assert keys[..n][i] == keys[i] && keys[..n][j] == keys[j];
        } else if i < n - 1 {
          assert keys[..n][i] == keys[i] && keys[..n][n - 1] == keys[n - 1];
          assert ops.leq(keys[n - 1], keys[n - 1 + 1]);
        }
      }
    }
  }

  // ---------------------------------------------------------------- from insertions to answers

  ghost predicate ValidKeys<K(!new)>(ops: KeyOps<K>, entries: seq<Entry<K>>) {
    forall i :: 0 <= i < |entries| ==> ops.valid(entries[i].key)
  }

  /** A built table has no key that was not inserted, so it can be stored. */
  lemma BuiltIsStorable<K(!new)>(ops: KeyOps<K>, entries: seq<Entry<K>>, p: Packed<K>)
    requires ValidKeys(ops, entries) && InRange(p) && SortedKeys(ops, p.keys) && ShortSpans(p)
    requires forall k :: Answers(LastOf(Entries(p), k), LastOf(entries, k), |p.names| < U32)
    ensures Storable(ops, p)
  {
    hide LastOf;
    forall i | 0 <= i < |p.keys| ensures ops.valid(p.keys[i]) {
      var k := p.keys[i];
      assert Entries(p)[i].key == k;
      LastOfSome(Entries(p), k);
      LastOfSome(entries, k);
      assert Answers(LastOf(Entries(p), k), LastOf(entries, k), |p.names| < U32);
    }
  }

  /** Insert, finalize, write, read and look up: the last insertion of the key, or nothing. */
  method BuildWriteReadGet<K(==,!new)>(ops: KeyOps<K>, entries: seq<Entry<K>>, key: K) returns (r: Option<Answer>)
    requires Lawful(ops) && ValidKeys(ops, entries)
    ensures Answers(r, LastOf(entries, key), NamesLen(entries) < U32)
  {
    hide Lawful, LastOf, Entries, NamesLen, StrictKeys, Read, Storable, InRange, SortedKeys;
    var p := Build(ops, entries);
    BuiltIsStorable(ops, entries, p);
    var b := Write(ops, p);
    WidthOf(ops);
    var t := Read(ops, b).value;
    r := Get(ops, t, key);
  }

  lemma WidthOf<K(!new)>(ops: KeyOps<K>)
    requires Lawful(ops)
    ensures ops.width > 0
  {}
}
