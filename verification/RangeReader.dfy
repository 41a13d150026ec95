/** A seekable view of an HTTP object read by range requests, the last answer kept. Whatever the
    order of seeks, reads and failures, what it hands over is the object's own bytes. */
module RangeReader {
  import opened ByteSeq
  import opened Arith

  /** What came back for a range request: nothing, or a status, the range it says it sent with the
      total if it named one, and the body, which may break off. */
  datatype Response =
    | NoAnswer
    | Answered(status: nat, range: Option<(nat, Option<nat>)>, body: Bytes, broken: bool)

  datatype Error = RequestFailed | BadStatus | WrongRange | BodyFailed | NoData | BeforeStart | PastLargest

  datatype Result<T> = Ok(value: T) | Err(error: Error)

  /** The object's declared length, what a request that does not continue the last fetches, and the
      most one request fetches. */
  datatype Config = Config(len: nat, first: nat, most: nat)

  predicate Proper(c: Config) { 1 <= c.first <= c.most && c.len < U64 }

  datatype State = State(pos: nat, block: Bytes, blockStart: nat, fetched: nat, requests: nat)

  const FRESH: State := State(0, [], 0, 0, 0)

  predicate Cached(s: State, pos: nat) { s.blockStart <= pos < s.blockStart + |s.block| }

  /** How much the next request from `start` asks for. */
  function AskSize(c: Config, s: State, start: nat): nat {
    if s.block != [] && start == s.blockStart + |s.block| then Min(2 * |s.block|, c.most) else c.first
  }

  /** The last byte asked for. */
  function AskLast(c: Config, s: State, start: nat): nat
    requires Proper(c) && start < c.len
  {
    Min(Min(start + AskSize(c, s, start), U64 - 1), c.len) - 1
  }

  predicate RightRange(c: Config, start: nat, r: Response)
    requires r.Answered?
  {
    r.range.Some? && r.range.value.0 == start && (r.range.value.1.None? || r.range.value.1 == Some(c.len))
  }

  /** One range request from `start`, answered by `r`. */
  function Fetch(c: Config, s: State, start: nat, r: Response): (State, Option<Error>) {
    var size := AskSize(c, s, start);
    var cleared := s.(block := [], blockStart := start);
    if start >= c.len then (cleared, None)
    else if r.NoAnswer? then (cleared, Some(RequestFailed))
    else if r.status != 206 then (cleared, Some(BadStatus))
    else if !RightRange(c, start, r) then (cleared, Some(WrongRange))
    else if r.broken then (cleared, Some(BodyFailed))
    else
      var got := Front(r.body, size);
      (State(s.pos, got, start, s.fetched + |got|, s.requests + 1), None)
  }

  /** Where a read that is not cached starts its request. */
  function FetchStart(c: Config, s: State): nat
    requires Proper(c)
  {
    if s.pos == s.blockStart + |s.block| then s.pos else s.pos / c.first * c.first
  }

  /** A read of at most `want` bytes. */
  function Read(c: Config, s: State, want: nat, r: Response): (State, Result<Bytes>)
    requires Proper(c)
  {
    if want == 0 || s.pos >= c.len then (s, Ok([]))
    else
      var (s', e) := if Cached(s, s.pos) then (s, None) else Fetch(c, s, FetchStart(c, s), r);
      if e.Some? then (s', Err(e.value)) else Serve(s', want)
  }

  /** What the block kept has of the bytes wanted. */
  function Serve(s: State, want: nat): (State, Result<Bytes>) {
    if !Cached(s, s.pos) then (s, Err(NoData))
    else
      var off := s.pos - s.blockStart;
      var n := Min(want, |s.block| - off);
      (s.(pos := s.pos + n), Ok(s.block[off..off + n]))
  }

  datatype SeekFrom = FromStart(o: nat) | FromEnd(d: int) | FromCurrent(d: int)

  function Seek(c: Config, s: State, to: SeekFrom): (State, Result<nat>) {
    var target := match to
      case FromStart(o) => o
      case FromEnd(d) => c.len + d
      case FromCurrent(d) => s.pos + d;
    if target < 0 then (s, Err(BeforeStart))
    else if target >= U64 then (s, Err(PastLargest))
    else (s.(pos := target), Ok(target))
  }

  // ---------------------------------------------------------------- faithful in every run

  /** The block kept is the object's own bytes. */
  ghost predicate Faithful(whole: Bytes, s: State) {
    s.block == [] || (s.blockStart + |s.block| <= |whole| && s.block == whole[s.blockStart..s.blockStart + |s.block|])
  }

  /** An answer that would be accepted carries the object's bytes from where it was asked. */
  ghost predicate Honest(c: Config, whole: Bytes, start: nat, r: Response) {
    r.Answered? && r.status == 206 && start <= |whole| && RightRange(c, start, r) ==> r.body <= whole[start..]
  }

  lemma FetchFaithful(c: Config, whole: Bytes, s: State, start: nat, r: Response)
    requires Faithful(whole, s) && |whole| == c.len && Honest(c, whole, start, r)
    ensures Faithful(whole, Fetch(c, s, start, r).0)
  {
    if start < c.len && Fetch(c, s, start, r).1.None? {
      var got := Front(r.body, AskSize(c, s, start));
      assert got == whole[start..][..|got|] == whole[start..start + |got|];
    }
  }

  /** Every read hands over the object's bytes at the position and moves past them, hands over
      nothing only when nothing was asked or the end is reached, and otherwise fails in place. */
  lemma ReadFaithful(c: Config, whole: Bytes, s: State, want: nat, r: Response)
    requires Proper(c) && |whole| == c.len && Faithful(whole, s) && Honest(c, whole, FetchStart(c, s), r)
    ensures var (s', out) := Read(c, s, want, r);
            && Faithful(whole, s')
            && (out.Ok? ==> s.pos + |out.value| <= Max(c.len, s.pos) && s'.pos == s.pos + |out.value|)
            && (out.Ok? && out.value != [] ==> |out.value| <= want && out.value == whole[s.pos..s.pos + |out.value|])
            && (out == Ok([]) <==> want == 0 || s.pos >= c.len)
            && (out.Err? ==> s'.pos == s.pos)
  {
    hide Fetch, FetchStart, Serve, Faithful;
    if want > 0 && s.pos < c.len {
      FetchFaithful(c, whole, s, FetchStart(c, s), r);
      FetchKeepsPos(c, s, FetchStart(c, s), r);
      var (s', e) := if Cached(s, s.pos) then (s, None) else Fetch(c, s, FetchStart(c, s), r);
      ServeFaithful(whole, s', want);
    }
  }

  lemma ServeFaithful(whole: Bytes, s: State, want: nat)
    requires Faithful(whole, s) && want > 0
    ensures var (s', out) := Serve(s, want);
            && Faithful(whole, s')
            && (out.Ok? ==> 0 < |out.value| <= want && s.pos + |out.value| <= |whole| && s'.pos == s.pos + |out.value|)
            && (out.Ok? ==> out.value == whole[s.pos..s.pos + |out.value|])
            && (out.Err? ==> s'.pos == s.pos)
  {
    if Cached(s, s.pos) {
      var off := s.pos - s.blockStart;
      SubSlice(whole, s.blockStart, s.blockStart + |s.block|, off, off + Min(want, |s.block| - off));
    }
  }

  lemma FetchKeepsPos(c: Config, s: State, start: nat, r: Response)
    ensures Fetch(c, s, start, r).0.pos == s.pos
  {}

  datatype Op = DoRead(want: nat, r: Response) | DoSeek(to: SeekFrom)

  function After(c: Config, s: State, op: Op): State
    requires Proper(c)
  {
    match op
    case DoRead(want, r) => Read(c, s, want, r).0
    case DoSeek(to) => Seek(c, s, to).0
  }

  function Run(c: Config, s: State, ops: seq<Op>): State
    requires Proper(c)
  {
    if ops == [] then s else After(c, Run(c, s, ops[..|ops| - 1]), ops[|ops| - 1])
  }

  /** Every answer a run accepts is honest. */
  ghost predicate HonestRun(c: Config, whole: Bytes, s: State, ops: seq<Op>)
    requires Proper(c)
  {
    forall i :: 0 <= i < |ops| && ops[i].DoRead? ==> Honest(c, whole, FetchStart(c, Run(c, s, ops[..i])), ops[i].r)
  }

  /** In any interleaving of seeks, reads, failed requests and short bodies the block kept is the
      object's own, so `ReadFaithful` speaks of every read of every run. */
  lemma {:induction false} RunFaithful(c: Config, whole: Bytes, s: State, ops: seq<Op>)
    requires Proper(c) && |whole| == c.len && Faithful(whole, s) && HonestRun(c, whole, s, ops)
    ensures Faithful(whole, Run(c, s, ops))
    decreases |ops|
  {
    hide Read, Honest, Faithful;
    if ops != [] {
      var front, last := ops[..|ops| - 1], ops[|ops| - 1];
      forall i | 0 <= i < |front| && front[i].DoRead? ensures Honest(c, whole, FetchStart(c, Run(c, s, front[..i])), front[i].r) {
        assert front[..i] == ops[..i] && front[i] == ops[i];
      }
      RunFaithful(c, whole, s, front);
      match last {
        case DoRead(want, r) => ReadFaithful(c, whole, Run(c, s, front), want, r);
        case DoSeek(to) => SeekFaithful(c, whole, Run(c, s, front), to);
      }
    }
  }

  lemma SeekFaithful(c: Config, whole: Bytes, s: State, to: SeekFrom)
    requires Faithful(whole, s)
    ensures Faithful(whole, Seek(c, s, to).0)
  {}

  // ---------------------------------------------------------------- the reader itself

  class HttpRangeReader {
    const c: Config
    var pos: nat
    var block: Bytes
    var blockStart: nat
    var bytesFetched: nat
    var requests: nat

    ghost function Value(): State
      reads this
    {
      State(pos, block, blockStart, bytesFetched, requests)
    }

    /** A request size of at least one, and a largest never below it. */
    constructor (len: nat, first: nat, most: nat)
      requires len < U64
      ensures Value() == FRESH && Proper(c) && c.len == len
      ensures c.first == Max(first, 1) && c.most == Max(most, c.first)
    {
      c := Config(len, Max(first, 1), Max(most, Max(first, 1)));
      pos, block, blockStart, bytesFetched, requests := 0, [], 0, 0, 0;
    }

    method FetchBlock(start: nat, r: Response) returns (e: Option<Error>)
      requires Proper(c)
      modifies this
      ensures (Value(), e) == Fetch(c, old(Value()), start, r)
    {
      var continues := block != [] && start == blockStart + |block|;
      var size := if continues then Min(|block| * 2, c.most) else c.first;
      block := [];
      blockStart := start;
      if start >= c.len { return None; }
      if r.NoAnswer? { return Some(RequestFailed); }
      if r.status != 206 { return Some(BadStatus); }
      if !RightRange(c, start, r) { return Some(WrongRange); }
      if r.broken { return Some(BodyFailed); }
      var got := Front(r.body, size);
      bytesFetched := bytesFetched + |got|;
      requests := requests + 1;
      block := got;
      return None;
    }

    /** At most `want` bytes from the position; `r` answers the request, if one is made. */
    method ReadBytes(want: nat, r: Response) returns (out: Result<Bytes>)
      requires Proper(c)
      modifies this
      ensures (Value(), out) == Read(c, old(Value()), want, r)
    {
      hide Fetch, FetchStart;
      if want == 0 || pos >= c.len { return Ok([]); }
      if !(blockStart <= pos < blockStart + |block|) {
        var start := StartOfFetch();
        FetchKeepsPos(c, Value(), start, r);
        var e := FetchBlock(start, r);
        if e.Some? { return Err(e.value); }
        if !(blockStart <= pos < blockStart + |block|) { return Err(NoData); }
      }
      var off := pos - blockStart;
      var n := Min(want, |block| - off);
      out := Ok(block[off..off + n]);
      pos := pos + n;
    }

    /** Read on from the previous request, or from the aligned block holding a position elsewhere. */
    method StartOfFetch() returns (start: nat)
      requires Proper(c)
      ensures start == FetchStart(c, Value())
    {
      var next := blockStart + |block|;
      start := if pos == next then next else pos / c.first * c.first;
    }

    method SeekTo(to: SeekFrom) returns (out: Result<nat>)
      modifies `pos
      ensures (Value(), out) == Seek(c, old(Value()), to)
    {
      var target := match to
        case FromStart(o) => o
        case FromEnd(d) => c.len + d
        case FromCurrent(d) => pos + d;
      if target < 0 { return Err(BeforeStart); }
      if target >= U64 { return Err(PastLargest); }
      pos := target;
      return Ok(target);
    }
  }

  // ---------------------------------------------------------------- a pass from front to back

  /** A number doubled `k` times. */
  function Doubled(a: nat, k: nat): nat { if k == 0 then a else 2 * Doubled(a, k - 1) }

  /** What the k-th request of a pass asks for: twice the one before, up to the most. */
  function Asked(c: Config, k: nat): nat { Min(Doubled(c.first, k), c.most) }

  /** The bytes the first `k` requests of a pass bring. */
  function Brought(c: Config, k: nat): nat { if k == 0 then 0 else Min(Brought(c, k - 1) + Asked(c, k - 1), c.len) }

  /** How often `first` has to double to reach `most`. */
  function Doublings(first: nat, most: nat): (k: nat)
    requires first >= 1
    ensures Doubled(first, k) >= most
    ensures k > 0 ==> Doubled(first, k - 1) < most
    decreases most - first
  {
    if first >= most then 0
    else
      var k := Doublings(2 * first, most);
      DoubledFirst(first, k);
      if k > 0 then DoubledFirst(first, k - 1); k + 1 else k + 1
  }

  lemma {:induction false} DoubledFirst(a: nat, k: nat)
    ensures Doubled(2 * a, k) == Doubled(a, k + 1)
  {
    if k > 0 { DoubledFirst(a, k - 1); }
  }

  function CeilDiv(a: nat, b: nat): nat
    requires b > 0
  {
    (a + b - 1) / b
  }

  /** The whole of what is asked. */
  function FullAnswer(c: Config, whole: Bytes, s: State): Response
    requires Proper(c) && |whole| == c.len
  {
    var start := FetchStart(c, s);
    if start >= c.len then NoAnswer
    else Answered(206, Some((start, Some(c.len))), whole[start..AskLast(c, s, start) + 1], false)
  }

  /** Where a front-to-back pass is after `k` requests. */
  ghost predicate OnPass(c: Config, whole: Bytes, s: State, k: nat)
    requires |whole| == c.len
  {
    && s.requests == k && s.fetched == Brought(c, k) && s.pos <= Brought(c, k) <= c.len
    && (k == 0 ==> s.block == [] && s.blockStart == 0)
    && (k > 0 ==>
          && Brought(c, k - 1) < c.len
          && s.blockStart == Brought(c, k - 1) <= s.pos
          && s.block == whole[Brought(c, k - 1)..Brought(c, k)])
  }

  lemma {:induction false} DoubledPositive(a: nat, k: nat)
    requires a >= 1
    ensures Doubled(a, k) >= 1
  {
    if k > 0 { DoubledPositive(a, k - 1); }
  }

  lemma AskedIs(c: Config, k: nat)
    requires Proper(c)
    ensures Asked(c, k) >= 1
    ensures Asked(c, 0) == c.first
    ensures Asked(c, k + 1) == Min(2 * Asked(c, k), c.most)
  {
    DoubledPositive(c.first, k);
  }

  /** The request a pass makes when its block is used up: the next, and all of it new. */
  lemma NextRequest(c: Config, whole: Bytes, s: State, k: nat)
    requires Proper(c) && |whole| == c.len && OnPass(c, whole, s, k) && s.pos == Brought(c, k) < c.len
    ensures FetchStart(c, s) == s.pos && AskSize(c, s, s.pos) == Asked(c, k) && !Cached(s, s.pos)
    ensures OnPass(c, whole, Fetch(c, s, s.pos, FullAnswer(c, whole, s)).0, k + 1)
    ensures Fetch(c, s, s.pos, FullAnswer(c, whole, s)).1.None? && Brought(c, k + 1) > Brought(c, k)
  {
    hide Asked;
    AskedIs(c, k);
    if k > 0 {
      AskedIs(c, k - 1);
      assert s.pos == s.blockStart + |s.block|;
      assert |s.block| == Asked(c, k - 1);
    }
    var r := FullAnswer(c, whole, s);
    var last := AskLast(c, s, s.pos);
    assert last + 1 == Brought(c, k + 1);
    assert Front(r.body, AskSize(c, s, s.pos)) == r.body;
  }

  /** One read of a pass: more of the object, and a request only when the block is used up. */
  lemma PassReads(c: Config, whole: Bytes, s: State, k: nat, want: nat)
    requires Proper(c) && |whole| == c.len && OnPass(c, whole, s, k) && s.pos < c.len && want > 0
    ensures var (s', out) := Read(c, s, want, FullAnswer(c, whole, s));
            && out.Ok? && out.value != [] && s.pos + |out.value| <= c.len && out.value == whole[s.pos..s.pos + |out.value|]
            && s'.pos == s.pos + |out.value|
            && OnPass(c, whole, s', if s.pos < Brought(c, k) then k else k + 1)
  {
    hide Fetch, FullAnswer, Brought, FetchStart, AskSize, Serve, OnPass;
    var r := FullAnswer(c, whole, s);
    if s.pos < Brought(c, k) {
      PassServes(c, whole, s, k, want);
    } else {
      OnPassUpTo(c, whole, s, k);
      NextRequest(c, whole, s, k);
      var s1 := Fetch(c, s, s.pos, r).0;
      FetchKeepsPos(c, s, s.pos, r);
      PassServes(c, whole, s1, k + 1, want);
    }
  }

  lemma OnPassUpTo(c: Config, whole: Bytes, s: State, k: nat)
    requires |whole| == c.len && OnPass(c, whole, s, k)
    ensures s.pos <= Brought(c, k) <= c.len
  {}

  lemma PassServes(c: Config, whole: Bytes, s: State, k: nat, want: nat)
    requires |whole| == c.len && OnPass(c, whole, s, k) && s.pos < Brought(c, k) && want > 0
    ensures Cached(s, s.pos)
    ensures var (s', out) := Serve(s, want);
            && out.Ok? && out.value != [] && s.pos + |out.value| <= c.len && out.value == whole[s.pos..s.pos + |out.value|]
            && s'.pos == s.pos + |out.value| && OnPass(c, whole, s', k)
  {
    hide Brought;
    BroughtNone(c);
    BlockSlice(whole, s.block, s.blockStart, Brought(c, k), s.pos, want);
  }

  lemma BroughtNone(c: Config)
    ensures Brought(c, 0) == 0
  {}

  lemma BlockSlice(whole: Bytes, block: Bytes, a: nat, b: nat, pos: nat, want: nat)
    requires a <= pos < b <= |whole| && block == whole[a..b] && want > 0
    ensures |block| == b - a
    ensures var n := Min(want, |block| - (pos - a)); n > 0 && block[pos - a..pos - a + n] == whole[pos..pos + n]
  {
    SubSlice(whole, a, b, pos - a, pos - a + Min(want, |block| - (pos - a)));
  }

  // ---------------------------------------------------------------- how many requests

  lemma {:induction false} AskedMost(c: Config, j: nat)
    requires Proper(c) && j >= Doublings(c.first, c.most)
    ensures Asked(c, j) == c.most
    decreases j
  {
    hide Doublings;
    if j > Doublings(c.first, c.most) {
      AskedMost(c, j - 1);
      AskedIs(c, j - 1);
    } else {
      DoublingsReach(c);
    }
  }

  lemma DoublingsReach(c: Config)
    requires Proper(c)
    ensures Doubled(c.first, Doublings(c.first, c.most)) >= c.most
  {}

  /** Once the requests are at their largest, each one before the end brings that much. */
  lemma {:induction false} BroughtMost(c: Config, j: nat)
    requires Proper(c) && j >= Doublings(c.first, c.most) && Brought(c, j) < c.len
    ensures (j - Doublings(c.first, c.most)) * c.most <= Brought(c, j)
    decreases j
  {
    hide Doublings, Asked;
    var d := Doublings(c.first, c.most);
    if j > d {
      AskedMost(c, j - 1);
      BroughtMost(c, j - 1);
      assert (j - d) * c.most == (j - 1 - d) * c.most + c.most;
    }
  }

  lemma FewRequests(c: Config, k: nat)
    requires Proper(c) && (k > 0 ==> Brought(c, k - 1) < c.len)
    ensures k <= Doublings(c.first, c.most) + CeilDiv(c.len, c.most)
  {
    hide Doublings, Asked, Brought;
    var d := Doublings(c.first, c.most);
    if k > d + 1 || (k == d + 1 && k > 0) {
      BroughtMost(c, k - 1);
      CeilAbove(c.len, c.most, k - 1 - d);
    }
  }

  lemma CeilAbove(a: nat, b: nat, n: nat)
    requires b > 0 && n * b < a
    ensures n + 1 <= CeilDiv(a, b)
  {
    assert (n + 1) * b == n * b + b;
    assert (n + 1) * b <= a + b - 1;
    DivAtLeast(a + b - 1, b, n + 1);
  }

  lemma DivAtLeast(a: nat, b: nat, n: nat)
    requires b > 0 && n * b <= a
    ensures n <= a / b
  {
    assert (a / b + 1) * b == a / b * b + b;
    if a / b < n { MulMono(b, a / b + 1, n); }
  }

  /** A pass from front to back with full answers: the object, every byte fetched once, and no more
      requests than it takes to double up to the largest and then go through the object in those. */
  method ReadThrough(whole: Bytes, first: nat, most: nat, want: nat) returns (all: Bytes, fetched: nat, requests: nat)
    requires |whole| < U64 && want > 0
    ensures all == whole && fetched == |whole|
    ensures requests <= Doublings(Max(first, 1), Max(most, Max(first, 1))) + CeilDiv(|whole|, Max(most, Max(first, 1)))
    ensures requests > 0 ==> Brought(Config(|whole|, Max(first, 1), Max(most, Max(first, 1))), requests - 1) < |whole|
  {
    hide Read, Brought, Doublings, FullAnswer;
    var reader := new HttpRangeReader(|whole|, first, most);
    BroughtNone(reader.c);
    all := [];
    ghost var k := 0;
    while reader.pos < |whole|
      invariant fresh(reader) && Proper(reader.c) && reader.c == Config(|whole|, Max(first, 1), Max(most, Max(first, 1)))
      invariant reader.pos <= |whole| && all == whole[..reader.pos]
      invariant OnPass(reader.c, whole, reader.Value(), k)
    {
      ghost var s := reader.Value();
      PassReads(reader.c, whole, s, k, want);
      var r := FullAnswer(reader.c, whole, State(reader.pos, reader.block, reader.blockStart, reader.bytesFetched, reader.requests));
      var out := reader.ReadBytes(want, r);
      all := all + out.value;
      assert whole[..s.pos] + whole[s.pos..reader.pos] == whole[..reader.pos];
      k := if s.pos < Brought(reader.c, k) then k else k + 1;
    }
    fetched, requests := reader.bytesFetched, reader.requests;
    FewRequests(reader.c, requests);
  }
}
