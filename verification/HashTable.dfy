/** The sorted, interned hash table: after one finalize it answers exactly as a map in which the
    last insertion of a key wins. */
module HashTable {
  import opened ByteSeq

  /** How keys are compared and stored. `valid` singles out the keys of the table's own width. */
  datatype KeyOps<!K(!new)> = KeyOps(
    valid: K -> bool,
    leq: (K, K) -> bool,
    width: nat,
    put: K -> Bytes,
    get: Bytes -> K)

  ghost predicate Lawful<K(!new)>(ops: KeyOps<K>) {
    && (forall a, b :: ops.leq(a, b) || ops.leq(b, a))
    && (forall a, b :: ops.leq(a, b) && ops.leq(b, a) ==> a == b)
    && (forall a, b, c :: ops.leq(a, b) && ops.leq(b, c) ==> ops.leq(a, c))
    && ops.width > 0
    && (forall k :: ops.valid(k) ==> |ops.put(k)| == ops.width && ops.get(ops.put(k)) == k)
    && (forall b: Bytes :: |b| == ops.width ==> ops.valid(ops.get(b)))
  }

  predicate Below<K(!new)>(ops: KeyOps<K>, a: K, b: K) { !ops.leq(b, a) }

  datatype Entry<K> = Entry(key: K, name: Bytes, unofficial: bool)

  /** What a lookup answers: a name and its provenance. */
  datatype Answer = Answer(name: Bytes, unofficial: bool)

  /** The last entry of a key: what a map that overwrites would hold. */
  function LastOf<K(==)>(p: seq<Entry<K>>, k: K): Option<Answer> {
    if p == [] then None
    else if p[|p| - 1].key == k then Some(Answer(p[|p| - 1].name, p[|p| - 1].unofficial))
    else LastOf(p[..|p| - 1], k)
  }

  lemma LastOfSnoc<K>(p: seq<Entry<K>>, e: Entry<K>, k: K)
    ensures LastOf(p + [e], k) == (if e.key == k then Some(Answer(e.name, e.unofficial)) else LastOf(p, k))
  {
    assert (p + [e])[..|p|] == p;
  }

  lemma {:induction false} LastOfNone<K>(p: seq<Entry<K>>, k: K)
    requires forall i :: 0 <= i < |p| ==> p[i].key != k
    ensures LastOf(p, k) == None
    decreases |p|
  {
    if p != [] { LastOfNone(p[..|p| - 1], k); }
  }

  /** Entries after the last of a key do not change it. */
  lemma {:induction false} LastOfAppend<K>(p: seq<Entry<K>>, q: seq<Entry<K>>, k: K)
    requires forall i :: 0 <= i < |q| ==> q[i].key != k
    ensures LastOf(p + q, k) == LastOf(p, k)
    decreases |q|
  {
    if q == [] {
      assert p + q == p;
    } else {
      assert p + q == p + q[..|q| - 1] + [q[|q| - 1]];
      LastOfSnoc(p + q[..|q| - 1], q[|q| - 1], k);
      LastOfAppend(p, q[..|q| - 1], k);
    }
  }

  // ---------------------------------------------------------------- the stable sort

  ghost predicate Sorted<K(!new)>(ops: KeyOps<K>, p: seq<Entry<K>>) {
    forall i, j :: 0 <= i < j < |p| ==> ops.leq(p[i].key, p[j].key)
  }

  /** After every entry whose key is not above it. */
  function Place<K(!new)>(ops: KeyOps<K>, p: seq<Entry<K>>, e: Entry<K>): (i: nat)
    ensures i <= |p| && (i > 0 ==> ops.leq(p[i - 1].key, e.key))
    ensures forall j :: i <= j < |p| ==> !ops.leq(p[j].key, e.key)
  {
    if p == [] then 0
    else if ops.leq(p[|p| - 1].key, e.key) then |p|
    else Place(ops, p[..|p| - 1], e)
  }

  function InsertSorted<K(!new)>(ops: KeyOps<K>, p: seq<Entry<K>>, e: Entry<K>): seq<Entry<K>> {
    var i := Place(ops, p, e);
    p[..i] + [e] + p[i..]
  }

  /** Sorted by key, entries of one key kept in the order they were inserted. */
  function StableSort<K(!new)>(ops: KeyOps<K>, p: seq<Entry<K>>): seq<Entry<K>> {
    if p == [] then [] else InsertSorted(ops, StableSort(ops, p[..|p| - 1]), p[|p| - 1])
  }

  lemma InsertIsSorted<K(!new)>(ops: KeyOps<K>, p: seq<Entry<K>>, e: Entry<K>)
    requires Lawful(ops) && Sorted(ops, p)
    ensures Sorted(ops, InsertSorted(ops, p, e))
  {
    hide Place;
    var i := Place(ops, p, e);
    forall j | 0 <= j < i ensures ops.leq(p[j].key, e.key) {
      if j < i - 1 { assert ops.leq(p[j].key, p[i - 1].key); }
    }
    forall j | i <= j < |p| ensures ops.leq(e.key, p[j].key) {}
  }

  lemma InsertIsLast<K(!new)>(ops: KeyOps<K>, p: seq<Entry<K>>, e: Entry<K>, k: K)
    requires Lawful(ops)
    ensures LastOf(InsertSorted(ops, p, e), k) == (if e.key == k then Some(Answer(e.name, e.unofficial)) else LastOf(p, k))
  {
    hide Place, LastOf;
    var i := Place(ops, p, e);
    assert p == p[..i] + p[i..];
    LastOfSnoc(p[..i], e, k);
    if e.key == k {
      forall j | 0 <= j < |p[i..]| ensures p[i..][j].key != k { assert !ops.leq(p[i + j].key, e.key); Reflexive(ops, k); }
      LastOfAppend(p[..i] + [e], p[i..], k);
    } else {
      LastOfAround(p[..i], e, p[i..], k);
    }
  }

  lemma Reflexive<K(!new)>(ops: KeyOps<K>, k: K)
    requires Lawful(ops)
    ensures ops.leq(k, k)
  {
    assert ops.leq(k, k) || ops.leq(k, k);
  }

  /** An entry of another key takes no part. */
  lemma {:induction false} LastOfAround<K>(p: seq<Entry<K>>, e: Entry<K>, q: seq<Entry<K>>, k: K)
    requires e.key != k
    ensures LastOf(p + [e] + q, k) == LastOf(p + q, k)
    decreases |q|
  {
    if q == [] {
      assert p + [e] + q == p + [e] && p + q == p;
      LastOfSnoc(p, e, k);
    } else {
      var f, l := q[..|q| - 1], q[|q| - 1];
      assert p + [e] + q == p + [e] + f + [l] && p + q == p + f + [l];
      LastOfSnoc(p + [e] + f, l, k);
      LastOfSnoc(p + f, l, k);
      LastOfAround(p, e, f, k);
    }
  }

  /** Sorting keeps the last entry of every key the last. */
  lemma {:induction false} StableSortIs<K(!new)>(ops: KeyOps<K>, p: seq<Entry<K>>)
    requires Lawful(ops)
    ensures Sorted(ops, StableSort(ops, p))
    ensures forall k :: LastOf(StableSort(ops, p), k) == LastOf(p, k)
    decreases |p|
  {
    hide Lawful, Sorted, InsertSorted;
    if p == [] {
      NothingSorted(ops);
    } else {
      var f, e := p[..|p| - 1], p[|p| - 1];
      StableSortIs(ops, f);
      InsertIsSorted(ops, StableSort(ops, f), e);
      forall k ensures LastOf(StableSort(ops, p), k) == LastOf(p, k) {
        InsertIsLast(ops, StableSort(ops, f), e, k);
        assert f + [e] == p;
        LastOfSnoc(f, e, k);
      }
    }
  }

  lemma NothingSorted<K(!new)>(ops: KeyOps<K>)
    ensures Sorted(ops, [])
  {}

  // ---------------------------------------------------------------- names, one after another

  /** How many bytes the names take. */
  function NamesLen<K>(p: seq<Entry<K>>): nat {
    if p == [] then 0 else NamesLen(p[..|p| - 1]) + |p[|p| - 1].name|
  }

  lemma {:induction false} NamesLenAppend<K>(p: seq<Entry<K>>, q: seq<Entry<K>>)
    ensures NamesLen(p + q) == NamesLen(p) + NamesLen(q)
    decreases |q|
  {
    if q == [] {
      assert p + q == p;
    } else {
      assert (p + q)[..|p + q| - 1] == p + q[..|q| - 1];
      NamesLenAppend(p, q[..|q| - 1]);
    }
  }

  lemma NamesLenOne<K>(e: Entry<K>)
    ensures NamesLen([e]) == |e.name|
  {
    assert [e][..0] == [];
  }

  lemma {:induction false} NamesLenSorted<K(!new)>(ops: KeyOps<K>, p: seq<Entry<K>>)
    ensures NamesLen(StableSort(ops, p)) == NamesLen(p)
    decreases |p|
  {
    hide Place;
    if p != [] {
      var s, e := StableSort(ops, p[..|p| - 1]), p[|p| - 1];
      NamesLenSorted(ops, p[..|p| - 1]);
      var i := Place(ops, s, e);
      assert s == s[..i] + s[i..];
      NamesLenAppend(s[..i], s[i..]);
      NamesLenAppend(s[..i] + [e], s[i..]);
      NamesLenAppend(s[..i], [e]);
      NamesLenOne(e);
    }
  }

  // ---------------------------------------------------------------- the packed table

  /** Keys, where each name is, the names in one run, and the provenance. */
  datatype Packed<K> = Packed(keys: seq<K>, spans: seq<(nat, nat)>, names: Bytes, unofficial: seq<bool>)

  /** Every key has a span within the names and a provenance. */
  predicate InRange<K>(t: Packed<K>) {
    && |t.spans| == |t.keys| && |t.unofficial| == |t.keys|
    && forall i :: 0 <= i < |t.spans| ==> t.spans[i].0 + t.spans[i].1 <= |t.names|
  }

  function NameAt<K>(t: Packed<K>, i: nat): Bytes
    requires InRange(t) && i < |t.keys|
  {
    t.names[t.spans[i].0..t.spans[i].0 + t.spans[i].1]
  }

  /** The entries a table stands for. */
  function Entries<K>(t: Packed<K>): (r: seq<Entry<K>>)
    requires InRange(t)
    ensures |r| == |t.keys|
  {
    seq(|t.keys|, i requires 0 <= i < |t.keys| => Entry(t.keys[i], NameAt(t, i), t.unofficial[i]))
  }

  ghost predicate StrictKeys<K(!new)>(ops: KeyOps<K>, keys: seq<K>) {
    forall i, j :: 0 <= i < j < |keys| ==> Below(ops, keys[i], keys[j])
  }

  ghost predicate SortedKeys<K(!new)>(ops: KeyOps<K>, keys: seq<K>) {
    forall i, j :: 0 <= i < j < |keys| ==> ops.leq(keys[i], keys[j])
  }

  /** One more name at the end, its place and length kept in 32 bits each. */
  function AddEntry<K>(t: Packed<K>, e: Entry<K>): Packed<K> {
    Packed(t.keys + [e.key], t.spans + [(|t.names| % U32, |e.name| % U32)], t.names + e.name, t.unofficial + [e.unofficial])
  }

  /** What is read back as that name. */
  function Wrapped(names: Bytes, name: Bytes): Bytes {
    (names + name)[|names| % U32..|names| % U32 + |name| % U32]
  }

  lemma AddEntryIs<K>(t: Packed<K>, e: Entry<K>)
    requires InRange(t)
    ensures InRange(AddEntry(t, e)) && Entries(AddEntry(t, e)) == Entries(t) + [Entry(e.key, Wrapped(t.names, e.name), e.unofficial)]
    ensures |t.names + e.name| < U32 ==> Wrapped(t.names, e.name) == e.name
  {
    hide Wrapped;
    var u := AddEntry(t, e);
    WrappedFits(t.names, e.name);
    forall i | 0 <= i < |t.keys| ensures NameAt(u, i) == NameAt(t, i) {
      assert u.spans[i] == t.spans[i];
      assert u.names[..|t.names|] == t.names;
      SameSlice(t.names, u.names, t.spans[i].0, t.spans[i].0 + t.spans[i].1);
    }
    assert NameAt(u, |t.keys|) == Wrapped(t.names, e.name);
  }

  lemma WrappedFits(names: Bytes, name: Bytes)
    ensures |names| % U32 + |name| % U32 <= |names + name|
    ensures Wrapped(names, name) == (names + name)[|names| % U32..|names| % U32 + |name| % U32]
    ensures |names + name| < U32 ==> Wrapped(names, name) == name
  {
    assert (names + name)[|names|..|names| + |name|] == name;
  }

  /** A name that starts where 32 bits are used up is read back from the beginning. */
  lemma NamesWrap(names: Bytes, name: Bytes)
    requires |names| == U32 && 0 < |name| < U32
    ensures Wrapped(names, name) == names[..|name|]
  {}

  /** An answer as it was inserted, but for the name where names do not fit. */
  predicate Answers(got: Option<Answer>, want: Option<Answer>, fits: bool) {
    if want.None? then got.None?
    else got.Some? && got.value.unofficial == want.value.unofficial && (fits ==> got.value.name == want.value.name)
  }

  lemma SameSlice(a: Bytes, b: Bytes, i: nat, j: nat)
    requires |a| <= |b| && b[..|a|] == a && i <= j <= |a|
    ensures b[i..j] == a[i..j]
  {
    var x, y := b[i..j], a[i..j];
    forall n | 0 <= n < |x| ensures x[n] == y[n] { assert b[..|a|][i + n] == a[i + n]; }
  }

  /** In a table of distinct keys the entry at a key's place is its last. */
  lemma {:induction false} OnlyEntry<K(!new)>(ops: KeyOps<K>, t: Packed<K>, i: nat)
    requires Lawful(ops) && InRange(t) && StrictKeys(ops, t.keys) && i < |t.keys|
    ensures LastOf(Entries(t), t.keys[i]) == Some(Answer(NameAt(t, i), t.unofficial[i]))
  {
    hide LastOf, NameAt;
    var es := Entries(t);
    assert es == es[..i] + [es[i]] + es[i + 1..];
    LastOfSnoc(es[..i], es[i], t.keys[i]);
    var tail := es[i + 1..];
    forall j | 0 <= j < |tail| ensures tail[j].key != t.keys[i] {
      assert Below(ops, t.keys[i], t.keys[i + 1 + j]);
      Reflexive(ops, t.keys[i]);
    }
    LastOfAppend(es[..i] + [es[i]], tail, t.keys[i]);
  }

  class SortedTable<K(==,!new)> {
    const ops: KeyOps<K>
    var keys: seq<K>
    var spans: seq<(nat, nat)>
    var names: Bytes
    var unofficial: seq<bool>
    var pending: seq<Entry<K>>

    ghost function Value(): Packed<K>
      reads this
    {
      Packed(keys, spans, names, unofficial)
    }

    constructor (ops: KeyOps<K>)
      ensures this.ops == ops && Value() == Packed([], [], [], []) && pending == []
    {
      this.ops := ops;
      keys, spans, names, unofficial, pending := [], [], [], [], [];
    }

    method Insert(key: K, name: Bytes, from: bool)
      modifies `pending
      ensures pending == old(pending) + [Entry(key, name, from)]
    {
      pending := pending + [Entry(key, name, from)];
    }

    /** Sort what was inserted and intern the names. Of the entries of one key the last is kept, with
        its name as long as the names kept fit in 32 bits; a table finalized before is replaced. */
    method Finalize()
      requires Lawful(ops)
      modifies this
      ensures pending == []
      ensures old(pending) == [] ==> Value() == old(Value())
      ensures old(pending) != [] ==> InRange(Value()) && StrictKeys(ops, keys) && ShortSpans(Value())
      ensures old(pending) != [] ==> |names| <= NamesLen(old(pending))
      ensures old(pending) != [] ==> forall k :: Answers(LastOf(Entries(Value()), k), LastOf(old(pending), k), |names| < U32)
    {
      hide Lawful, Sorted, LastOf, Entries, NamesLen, StrictKeys, StableSort, Wrapped;
      if pending == [] { return; }
      var p := StableSort(ops, pending);
      StableSortIs(ops, pending);
      NamesLenSorted(ops, pending);
      pending := [];
      keys, spans, unofficial, names := [], [], [], [];
      var i := 0;
      NothingKept(ops, p);
      while i < |p|
        invariant 0 <= i <= |p| && pending == [] && Kept(ops, p, i, Value())
        invariant forall k :: Answers(LastOf(Entries(Value()), k), LastOf(p[..i], k), |names| < U32)
      {
        var j := RunEnd(p, i);
        ghost var before := Value();
        AddEntryIs(before, p[j]);
        NamesSoFar(p, i, j);
        assert |AddEntry(before, p[j]).names| == |before.names + p[j].name|;
        Keep(p[j]);
        NextKey(ops, p, before.keys, i, j);
        forall k ensures Answers(LastOf(Entries(Value()), k), LastOf(p[..j + 1], k), |names| < U32) {
          OneMoreAnswers(p, i, j, before, k);
        }
        i := j + 1;
      }
      assert p[..|p|] == p;
    }

    method Keep(e: Entry<K>)
      modifies this
      ensures Value() == AddEntry(old(Value()), e) && pending == old(pending)
    {
      var off := |names| % U32;
      names := names + e.name;
      spans := spans + [(off, |e.name| % U32)];
      unofficial := unofficial + [e.unofficial];
      keys := keys + [e.key];
    }
  }

  /** Places and lengths are 32-bit numbers. */
  predicate ShortSpans<K>(t: Packed<K>) { forall i :: 0 <= i < |t.spans| ==> t.spans[i].0 < U32 && t.spans[i].1 < U32 }

  /** The table of the runs before `i`. */
  ghost predicate Kept<K(!new)>(ops: KeyOps<K>, p: seq<Entry<K>>, i: nat, t: Packed<K>)
    requires i <= |p|
  {
    && InRange(t) && StrictKeys(ops, t.keys) && ShortSpans(t) && |t.names| <= NamesLen(p[..i])
    && (t.keys != [] ==> i > 0 && t.keys[|t.keys| - 1] == p[i - 1].key)
    && (0 < i < |p| ==> p[i - 1].key != p[i].key)
  }

  lemma NothingKept<K(!new)>(ops: KeyOps<K>, p: seq<Entry<K>>)
    ensures var t := Packed([], [], [], []);
            Kept(ops, p, 0, t) && forall k :: Answers(LastOf(Entries(t), k), LastOf(p[..0], k), true)
  {
    assert p[..0] == [];
  }

  /** The last entry with the key of entry `i`, in a run of that key. */
  method RunEnd<K(==)>(p: seq<Entry<K>>, i: nat) returns (j: nat)
    requires i < |p|
    ensures i <= j < |p| && (forall n :: i <= n <= j ==> p[n].key == p[i].key) && (j + 1 < |p| ==> p[j + 1].key != p[j].key)
  {
    j := i;
    while j + 1 < |p| && p[j + 1].key == p[i].key
      invariant i <= j < |p| && forall n :: i <= n <= j ==> p[n].key == p[i].key
    {
      j := j + 1;
    }
  }

  /** The answers with the last entry of the next run. */
  lemma OneMoreAnswers<K>(p: seq<Entry<K>>, i: nat, j: nat, t: Packed<K>, k: K)
    requires InRange(t) && i <= j < |p| && forall n :: i <= n <= j ==> p[n].key == p[i].key
    requires Answers(LastOf(Entries(t), k), LastOf(p[..i], k), |t.names| < U32)
    ensures InRange(AddEntry(t, p[j]))
    ensures Answers(LastOf(Entries(AddEntry(t, p[j])), k), LastOf(p[..j + 1], k), |t.names + p[j].name| < U32)
  {
    hide LastOf, Entries, Wrapped, AddEntry;
    AddEntryIs(t, p[j]);
    LastOfSnoc(Entries(t), Entry(p[j].key, Wrapped(t.names, p[j].name), p[j].unofficial), k);
    LastOfRun(p, i, j, k);
  }

  /** The names of a part, and one of the next run's. */
  lemma NamesSoFar<K>(p: seq<Entry<K>>, i: nat, j: nat)
    requires i <= j < |p|
    ensures NamesLen(p[..i]) + |p[j].name| <= NamesLen(p[..j + 1])
  {
    assert p[..j + 1] == p[..i] + p[i..j] + [p[j]];
    NamesLenAppend(p[..i] + p[i..j], [p[j]]);
    NamesLenAppend(p[..i], p[i..j]);
    NamesLenOne(p[j]);
  }

  /** The key of the next run is above every key kept. */
  lemma NextKey<K(!new)>(ops: KeyOps<K>, p: seq<Entry<K>>, keys: seq<K>, i: nat, j: nat)
    requires Lawful(ops) && Sorted(ops, p) && StrictKeys(ops, keys) && i <= j < |p| && p[j].key == p[i].key
    requires keys != [] ==> i > 0 && keys[|keys| - 1] == p[i - 1].key && p[i - 1].key != p[i].key
    ensures StrictKeys(ops, keys + [p[j].key])
  {
    var more := keys + [p[j].key];
    forall a, b | 0 <= a < b < |more| ensures Below(ops, more[a], more[b]) {
      if b == |keys| {
        assert ops.leq(p[i - 1].key, p[i].key);
        if a < |keys| - 1 { assert Below(ops, keys[a], keys[|keys| - 1]); }
      }
    }
  }

  /** Of a run of one key the last entry counts. */
  lemma LastOfRun<K>(p: seq<Entry<K>>, i: nat, j: nat, k: K)
    requires i <= j < |p| && forall n :: i <= n <= j ==> p[n].key == p[i].key
    ensures LastOf(p[..j + 1], k) == (if p[j].key == k then Some(Answer(p[j].name, p[j].unofficial)) else LastOf(p[..i], k))
  {
    hide LastOf;
    assert p[..j + 1] == p[..j] + [p[j]];
    LastOfSnoc(p[..j], p[j], k);
    if p[j].key != k {
      assert p[..j] == p[..i] + p[i..j];
      LastOfAppend(p[..i], p[i..j], k);
    }
  }

  // ---------------------------------------------------------------- looking up

  lemma StrictIsSorted<K(!new)>(ops: KeyOps<K>, keys: seq<K>)
    requires Lawful(ops) && StrictKeys(ops, keys)
    ensures SortedKeys(ops, keys)
  {
    forall i, j | 0 <= i < j < |keys| ensures ops.leq(keys[i], keys[j]) { assert Below(ops, keys[i], keys[j]); }
  }

  /** A place of `key` between `lo` and `hi`, found by halving. */
  function BinarySearch<K(==,!new)>(ops: KeyOps<K>, keys: seq<K>, key: K, lo: nat, hi: nat): (r: Option<nat>)
    requires Lawful(ops) && SortedKeys(ops, keys) && lo <= hi <= |keys|
    requires forall i :: 0 <= i < lo ==> Below(ops, keys[i], key)
    requires forall i :: hi <= i < |keys| ==> Below(ops, key, keys[i])
    ensures r.Some? ==> r.value < |keys| && keys[r.value] == key
    ensures r.None? ==> key !in keys
    decreases hi - lo
  {
    if lo == hi then
      assert key !in keys by { NotBetween(ops, keys, key, lo); }
      None
    else
      var mid := lo + (hi - lo) / 2;
      if keys[mid] == key then Some(mid)
      else if ops.leq(keys[mid], key) then
        assert forall i :: 0 <= i < mid + 1 ==> Below(ops, keys[i], key) by { AllBelow(ops, keys, key, mid); }
        BinarySearch(ops, keys, key, mid + 1, hi)
      else
        assert forall i :: mid <= i < |keys| ==> Below(ops, key, keys[i]) by { AllAbove(ops, keys, key, mid); }
        BinarySearch(ops, keys, key, lo, mid)
  }

  lemma NotBetween<K(!new)>(ops: KeyOps<K>, keys: seq<K>, key: K, lo: nat)
    requires Lawful(ops) && lo <= |keys|
    requires forall i :: 0 <= i < lo ==> Below(ops, keys[i], key)
    requires forall i :: lo <= i < |keys| ==> Below(ops, key, keys[i])
    ensures key !in keys
  {
    Reflexive(ops, key);
  }

  lemma AllBelow<K(!new)>(ops: KeyOps<K>, keys: seq<K>, key: K, mid: nat)
    requires Lawful(ops) && SortedKeys(ops, keys) && mid < |keys| && keys[mid] != key && ops.leq(keys[mid], key)
    ensures forall i :: 0 <= i <= mid ==> Below(ops, keys[i], key)
  {
    forall i | 0 <= i <= mid ensures Below(ops, keys[i], key) {
      if i < mid { assert ops.leq(keys[i], keys[mid]); }
    }
  }

  lemma AllAbove<K(!new)>(ops: KeyOps<K>, keys: seq<K>, key: K, mid: nat)
    requires Lawful(ops) && SortedKeys(ops, keys) && mid < |keys| && !ops.leq(keys[mid], key)
    ensures forall i :: mid <= i < |keys| ==> Below(ops, key, keys[i])
  {
    forall i | mid <= i < |keys| ensures Below(ops, key, keys[i]) {
      if mid < i { assert ops.leq(keys[mid], keys[i]); }
    }
  }

  /** The name and provenance of a key: of a table of distinct keys, exactly its entry's. */
  function Get<K(==,!new)>(ops: KeyOps<K>, t: Packed<K>, key: K): (r: Option<Answer>)
    requires Lawful(ops) && InRange(t) && SortedKeys(ops, t.keys)
    ensures r.None? <==> key !in t.keys
    ensures StrictKeys(ops, t.keys) ==> r == LastOf(Entries(t), key)
  {
    match BinarySearch(ops, t.keys, key, 0, |t.keys|)
    case None =>
      assert LastOf(Entries(t), key) == None by { LastOfNone(Entries(t), key); }
      None
    case Some(i) =>
      assert StrictKeys(ops, t.keys) ==> LastOf(Entries(t), key) == Some(Answer(NameAt(t, i), t.unofficial[i])) by {
        if StrictKeys(ops, t.keys) { OnlyEntry(ops, t, i); }
      }
      Some(Answer(NameAt(t, i), t.unofficial[i]))
  }

  /** Insertions and one finalize: a table of distinct keys in order that stands for the last
      insertion of each, name and all when the names fit in 32 bits. */
  method Build<K(==,!new)>(ops: KeyOps<K>, entries: seq<Entry<K>>) returns (p: Packed<K>)
    requires Lawful(ops)
    ensures InRange(p) && StrictKeys(ops, p.keys) && SortedKeys(ops, p.keys) && ShortSpans(p) && |p.names| <= NamesLen(entries)
    ensures forall k :: Answers(LastOf(Entries(p), k), LastOf(entries, k), |p.names| < U32)
  {
    hide Lawful, LastOf, Entries, NamesLen, StrictKeys;
    var t := new SortedTable<K>(ops);
    for i := 0 to |entries|
      invariant fresh(t) && t.ops == ops && t.pending == entries[..i] && t.Value() == Packed([], [], [], [])
    {
      t.Insert(entries[i].key, entries[i].name, entries[i].unofficial);
      assert entries[..i + 1] == entries[..i] + [entries[i]];
    }
    assert entries[..|entries|] == entries;
    t.Finalize();
    if entries == [] {
      forall k ensures LastOf(Entries(t.Value()), k) == LastOf(entries, k) { NothingStored(k); }
      NothingInOrder(ops);
    } else {
      StrictIsSorted(ops, t.keys);
    }
    p := Packed(t.keys, t.spans, t.names, t.unofficial);
  }

  /** Insertions, one finalize, and a lookup: the last insertion of the key, or nothing. */
  method BuildAndGet<K(==,!new)>(ops: KeyOps<K>, entries: seq<Entry<K>>, key: K) returns (r: Option<Answer>)
    requires Lawful(ops)
    ensures Answers(r, LastOf(entries, key), NamesLen(entries) < U32)
  {
    hide Lawful, LastOf, Entries, NamesLen, StrictKeys;
    var t := Build(ops, entries);
    r := Get(ops, t, key);
  }

  /** Entries of a key there are, or none. */
  lemma {:induction false} LastOfSome<K>(p: seq<Entry<K>>, k: K)
    ensures LastOf(p, k).Some? <==> exists i :: 0 <= i < |p| && p[i].key == k
  {
    if p != [] { LastOfSome(p[..|p| - 1], k); }
  }

  lemma NothingInOrder<K(!new)>(ops: KeyOps<K>)
    ensures var t: Packed<K> := Packed([], [], [], []); InRange(t) && StrictKeys(ops, t.keys) && SortedKeys(ops, t.keys)
  {}

  function Nothing<K>(): Packed<K> { Packed([], [], [], []) }

  lemma NothingStored<K>(key: K)
    ensures LastOf(Entries(Nothing<K>()), key) == None && LastOf<K>([], key) == None
  {}
}
