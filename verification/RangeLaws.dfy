/** Where seeks land, what is asked for, and which answers are refused. */
module RangeLaws {
  import opened ByteSeq
  import opened Arith
  import opened RangeReader

  /** A target is reached alike from the start, from the end and from the position: inside the offsets the
      position is the target and nothing else changes, and outside them nothing changes at all. */
  lemma SeekLands(c: Config, s: State, t: int)
    ensures Seek(c, s, FromEnd(t - c.len)) == Seek(c, s, FromCurrent(t - s.pos))
    ensures t >= 0 ==> Seek(c, s, FromStart(t)) == Seek(c, s, FromCurrent(t - s.pos))
    ensures Seek(c, s, FromCurrent(t - s.pos)) == if t < 0 then (s, Err(BeforeStart))
                                                  else if t >= 0x1_0000_0000_0000_0000 then (s, Err(PastLargest))
                                                  else (State(t, s.block, s.blockStart, s.fetched, s.requests), Ok(t))
  {}

  lemma DownTo(pos: nat, first: nat)
    requires first > 0
    ensures var start := pos / first * first; start <= pos < start + first && start % first == 0
  {
    var q := pos / first;
    assert pos == q * first + pos % first;
    Multiple(q, first);
  }

  lemma FetchNear(c: Config, s: State)
    requires Proper(c)
    ensures var start := FetchStart(c, s);
            start <= s.pos < start + c.first && (start % c.first == 0 || start == s.pos == s.blockStart + |s.block|)
  {
    DownTo(s.pos, c.first);
  }

  /** A request is for bytes of the object, at most `most`, the one at the position among them unless the block
      before it was too short, and starts at a multiple of `first` or where the last one ended. */
  lemma AskInside(c: Config, s: State)
    requires Proper(c) && s.pos < c.len && !Cached(s, s.pos) && |s.block| <= c.most
    ensures var start := FetchStart(c, s);
            && start <= s.pos && start <= AskLast(c, s, start) < c.len && AskLast(c, s, start) - start < c.most
            && (s.pos <= AskLast(c, s, start) <==> !FallsShort(c, s))
            && (start % c.first == 0 || start == s.pos == s.blockStart + |s.block|)
  {
    hide FetchStart, FallsShort;
    FetchNear(c, s);
    AskReaches(c, s);
  }

  /** A block so short that twice its length, asked for from its end, stops before the position: this is asked
      when the aligned start of a read elsewhere happens to be where the block ends. */
  predicate FallsShort(c: Config, s: State)
    requires Proper(c)
  {
    var next := s.blockStart + |s.block|;
    s.block != [] && next == FetchStart(c, s) && next + 2 * |s.block| <= s.pos
  }

  lemma AskReaches(c: Config, s: State)
    requires Proper(c) && !Cached(s, s.pos)
    ensures FetchStart(c, s) + AskSize(c, s, FetchStart(c, s)) > s.pos <==> !FallsShort(c, s)
    ensures |s.block| <= c.most ==> AskSize(c, s, FetchStart(c, s)) <= c.most
  {
    hide FetchStart;
    FetchNear(c, s);
  }

  /** No block is ever larger than `most`. */
  lemma {:induction false} BlockWithin(c: Config, s: State, ops: seq<Op>)
    requires Proper(c) && |s.block| <= c.most
    ensures |Run(c, s, ops).block| <= c.most
    decreases |ops|
  {
    hide FetchStart;
    if ops != [] { BlockWithin(c, s, ops[..|ops| - 1]); }
  }

  // ---------------------------------------------------------------- what is read

  /** Where every answer has been full, no block is too short. */
  predicate Ample(c: Config, s: State) { s.block == [] || |s.block| >= c.first || s.blockStart + |s.block| >= c.len }

  /** A read inside the object that is answered in full hands over at least one byte, the object's own, if and
      only if the position is cached or the block before it was not too short. */
  lemma ReadServes(c: Config, whole: Bytes, s: State, want: nat)
    requires Proper(c) && |whole| == c.len && Faithful(whole, s) && s.pos < c.len && want > 0
    ensures var out := Read(c, s, want, FullAnswer(c, whole, s)).1;
            && (out.Ok? <==> Cached(s, s.pos) || !FallsShort(c, s)) && (out.Err? ==> out.error == NoData)
            && (out.Ok? ==> out.value != [] && s.pos + |out.value| <= c.len && out.value == whole[s.pos..s.pos + |out.value|])
  {
    hide Fetch, FullAnswer, FetchStart, Serve, Faithful, FallsShort;
    if Cached(s, s.pos) {
      ServeFaithful(whole, s, want);
      ServesCached(s, want);
    } else {
      FullFetch(c, whole, s);
      var s' := Fetch(c, s, FetchStart(c, s), FullAnswer(c, whole, s)).0;
      ServeFaithful(whole, s', want);
      ServesCached(s', want);
    }
  }

  lemma ServesCached(s: State, want: nat)
    ensures Cached(s, s.pos) <==> Serve(s, want).1.Ok?
    ensures Serve(s, want).1.Err? ==> Serve(s, want).1.error == NoData
  {}

  lemma FullFetch(c: Config, whole: Bytes, s: State)
    requires Proper(c) && |whole| == c.len && s.pos < c.len && !Cached(s, s.pos)
    ensures var (s', e) := Fetch(c, s, FetchStart(c, s), FullAnswer(c, whole, s));
            && e.None? && s'.pos == s.pos && Faithful(whole, s') && (Cached(s', s.pos) <==> !FallsShort(c, s))
            && (Ample(c, s) ==> Ample(c, s'))
  {
    hide FetchStart, FallsShort;
    FetchNear(c, s);
    AskReaches(c, s);
  }

  predicate Full(c: Config, whole: Bytes, s: State, op: Op)
    requires Proper(c) && |whole| == c.len
  {
    op.DoRead? ==> op.r == FullAnswer(c, whole, s)
  }

  predicate FullRun(c: Config, whole: Bytes, s: State, ops: seq<Op>)
    requires Proper(c) && |whole| == c.len
  {
    forall i :: 0 <= i < |ops| ==> Full(c, whole, Run(c, s, ops[..i]), ops[i])
  }

  lemma AmpleReaches(c: Config, s: State)
    requires Proper(c) && Ample(c, s) && s.pos < c.len
    ensures !FallsShort(c, s)
  {
    hide FetchStart;
    FetchNear(c, s);
  }

  lemma AmpleStep(c: Config, whole: Bytes, s: State, op: Op)
    requires Proper(c) && |whole| == c.len && Ample(c, s) && Full(c, whole, s, op)
    ensures Ample(c, After(c, s, op))
  {
    hide FetchStart, FullAnswer, Fetch, FallsShort;
    if op.DoRead? && op.want > 0 && s.pos < c.len && !Cached(s, s.pos) {
      AmpleReaches(c, s);
      FullFetch(c, whole, s);
      FetchNear(c, s);
    }
  }

  lemma {:induction false} AmpleRun(c: Config, whole: Bytes, s: State, ops: seq<Op>)
    requires Proper(c) && |whole| == c.len && Ample(c, s) && FullRun(c, whole, s, ops)
    ensures Ample(c, Run(c, s, ops))
    decreases |ops|
  {
    hide Ample, Full, After;
    if ops != [] {
      var front := ops[..|ops| - 1];
      assert ops[..|ops| - 1] == front;
      forall i | 0 <= i < |front| ensures Full(c, whole, Run(c, s, front[..i]), front[i]) { assert front[..i] == ops[..i]; }
      AmpleRun(c, whole, s, front);
      AmpleStep(c, whole, Run(c, s, front), ops[|ops| - 1]);
    }
  }

  lemma FullIsHonest(c: Config, whole: Bytes, ops: seq<Op>)
    requires Proper(c) && |whole| == c.len && FullRun(c, whole, FRESH, ops)
    ensures HonestRun(c, whole, FRESH, ops)
  {
    hide FetchStart, Run;
    forall i | 0 <= i < |ops| && ops[i].DoRead? ensures Honest(c, whole, FetchStart(c, Run(c, FRESH, ops[..i])), ops[i].r) {
      assert Full(c, whole, Run(c, FRESH, ops[..i]), ops[i]);
      HonestFull(c, whole, Run(c, FRESH, ops[..i]));
    }
  }

  lemma HonestFull(c: Config, whole: Bytes, s: State)
    requires Proper(c) && |whole| == c.len
    ensures Honest(c, whole, FetchStart(c, s), FullAnswer(c, whole, s))
  {
    hide FetchStart, AskSize;
    var start := FetchStart(c, s);
    if start < c.len {
      assert whole[start..AskLast(c, s, start) + 1] == whole[start..][..AskLast(c, s, start) + 1 - start];
    }
  }

  /** However a run has sought and read, where every answer was full a seek to any place in the object and a
      read give the bytes there. */
  lemma SeekThenRead(c: Config, whole: Bytes, ops: seq<Op>, t: nat, want: nat)
    requires Proper(c) && |whole| == c.len && FullRun(c, whole, FRESH, ops)
    requires t < c.len && want > 0
    ensures var s := Seek(c, Run(c, FRESH, ops), FromEnd(t - c.len)).0; var out := Read(c, s, want, FullAnswer(c, whole, s)).1;
            s.pos == t && out.Ok? && out.value != [] && t + |out.value| <= c.len && out.value == whole[t..t + |out.value|]
  {
    hide Read, FullAnswer, FallsShort, Run, FullRun;
    var s := Run(c, FRESH, ops);
    AmpleRun(c, whole, FRESH, ops);
    FullIsHonest(c, whole, ops);
    RunFaithful(c, whole, FRESH, ops);
    SeekLands(c, s, t);
    var s' := Seek(c, s, FromEnd(t - c.len)).0;
    AmpleReaches(c, s');
    ReadServes(c, whole, s', want);
  }

  function Answer(start: nat, body: Bytes): Response { Answered(206, Some((start, Some(16))), body, false) }

  /** A read answered in full that hands over nothing: the answer before was cut to one byte. */
  lemma ShortThenSeek(whole: Bytes)
    requires |whole| == 16
    ensures var c := Config(16, 4, 8);
            var s := After(c, After(c, After(c, FRESH, DoRead(3, Answer(0, whole[..3]))), DoRead(1, Answer(3, whole[3..4]))), DoSeek(FromStart(6)));
            && Faithful(whole, s) && s.pos == 6 && s.requests == 2 && FallsShort(c, s)
            && Read(c, s, 1, FullAnswer(c, whole, s)).1 == Err(NoData)
  {
    hide Read;
    var c := Config(16, 4, 8);
    ShortReads(whole);
    var s := State(6, whole[3..4], 3, 4, 2);
    ReadServes(c, whole, s, 1);
  }

  lemma ShortReads(whole: Bytes)
    requires |whole| == 16
    ensures Read(Config(16, 4, 8), FRESH, 3, Answer(0, whole[..3])).0 == State(3, whole[..3], 0, 3, 1)
    ensures Read(Config(16, 4, 8), State(3, whole[..3], 0, 3, 1), 1, Answer(3, whole[3..4])).0 == State(4, whole[3..4], 3, 4, 2)
  {}

  // ---------------------------------------------------------------- what is refused

  /** A read that needs a request fails on no answer, on any status but 206, on a range that starts elsewhere
      or belongs to an object of another length, and on a body that breaks off: in place, and keeping nothing. */
  lemma ReadRefuses(c: Config, s: State, want: nat, r: Response)
    requires Proper(c) && want > 0 && s.pos < c.len && !Cached(s, s.pos)
    requires r.Answered? && r.status == 206 && !r.broken && r.range.Some? ==>
               r.range.value.0 != FetchStart(c, s) || (r.range.value.1.Some? && r.range.value.1.value != c.len)
    ensures var (s', out) := Read(c, s, want, r);
            && out.Err? && s'.pos == s.pos && s'.block == [] && s'.fetched == s.fetched && s'.requests == s.requests
            && (out.error == RequestFailed <==> r.NoAnswer?)
            && (out.error == BadStatus <==> r.Answered? && r.status != 206)
            && (r.Answered? && r.status == 206 ==> out.error == WrongRange || out.error == BodyFailed)
  {
    hide FetchStart;
    FetchNear(c, s);
  }

  /** And only then, or when the body ends before the position. */
  lemma ReadAccepts(c: Config, s: State, want: nat, start: nat, total: Option<nat>, body: Bytes)
    requires Proper(c) && want > 0 && s.pos < c.len && !Cached(s, s.pos) && start == FetchStart(c, s)
    requires total.None? || total.value == c.len
    requires |body| <= AskSize(c, s, start)
    ensures var (s', out) := Read(c, s, want, Answered(206, Some((start, total)), body, false));
            && (out.Ok? <==> s.pos < start + |body|) && (out.Err? ==> out.error == NoData)
            && s'.requests == s.requests + 1
  {
    hide FetchStart, AskSize;
    FetchNear(c, s);
  }
}
