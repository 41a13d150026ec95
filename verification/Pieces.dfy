/** Pieces of a byte sequence, and where they stand. */
module Pieces {
  import opened ByteSeq

  predicate At(text: Bytes, i: nat, p: Bytes) { i + |p| <= |text| && text[i..i + |p|] == p }

  lemma AtBytes(text: Bytes, i: nat, p: Bytes)
    requires At(text, i, p)
    ensures i + |p| <= |text| && forall k :: 0 <= k < |p| ==> text[i + k] == p[k]
  {
    forall k | 0 <= k < |p| ensures text[i + k] == p[k] { assert text[i..i + |p|][k] == p[k]; }
  }

  lemma ByteAt(text: Bytes, i: nat, p: Bytes, k: nat)
    requires At(text, i, p) && k < |p|
    ensures i + |p| <= |text| && text[i + k] == p[k]
  {
    AtBytes(text, i, p);
  }

  lemma AtParts(text: Bytes, i: nat, gap: Bytes, piece: Bytes)
    requires At(text, i, gap + piece)
    ensures At(text, i, gap) && At(text, i + |gap|, piece) && i + |gap| + |piece| <= |text| && (gap != [] ==> text[i] == gap[0])
  {
    AtBytes(text, i, gap + piece);
    assert gap != [] ==> text[i + 0] == (gap + piece)[0];
    assert text[i..i + |gap|] == text[i..i + |gap + piece|][..|gap|];
    assert text[i + |gap|..i + |gap| + |piece|] == text[i..i + |gap + piece|][|gap|..];
  }

  // ---------------------------------------------------------------- pieces in a row

  /** How far into a row of pieces one starts. */
  function Offset(parts: seq<Bytes>, k: nat): nat
    requires k <= |parts|
  {
    if k == 0 then 0 else Offset(parts, k - 1) + |parts[k - 1]|
  }

  lemma {:induction false} OffsetTail(parts: seq<Bytes>, k: nat)
    requires k < |parts|
    ensures Offset(parts, k + 1) == |parts[0]| + Offset(parts[1..], k)
  {
    if k > 0 {
      OffsetTail(parts, k - 1);
      assert parts[1..][k - 1] == parts[k];
    }
  }

  /** Each piece of a row stands where the ones before it end. */
  lemma {:induction false} PartAt(parts: seq<Bytes>, k: nat)
    requires k < |parts|
    ensures At(Concat(parts), Offset(parts, k), parts[k])
    decreases |parts|
  {
    var first, rest := parts[0], Concat(parts[1..]);
    assert Concat(parts) == first + rest;
    if k > 0 {
      PartAt(parts[1..], k - 1);
      OffsetTail(parts, k - 1);
      AtLater(first, rest, Offset(parts[1..], k - 1), parts[k]);
    }
  }

  lemma AtLater(first: Bytes, rest: Bytes, i: nat, p: Bytes)
    requires At(rest, i, p)
    ensures At(first + rest, |first| + i, p)
  {
    assert (first + rest)[|first| + i..|first| + i + |p|] == rest[i..i + |p|];
  }

  /** A piece of a piece. */
  lemma AtWithin(text: Bytes, i: nat, p: Bytes, j: nat, q: Bytes)
    requires At(text, i, p) && At(p, j, q)
    ensures At(text, i + j, q)
  {
    SubSlice(text, i, i + |p|, j, j + |q|);
  }

  lemma {:induction false} ConcatLength(parts: seq<Bytes>)
    ensures |Concat(parts)| == Offset(parts, |parts|)
    decreases |parts|
  {
    if parts != [] {
      ConcatLength(parts[1..]);
      OffsetTail(parts, |parts| - 1);
    }
  }
}
