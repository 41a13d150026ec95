/** Runs by tokens rather than by bytes: reading a text that lexes to a given list. */
module JsReading {
  import opened ByteSeq
  import opened JsLexer
  import opened JsReducer
  import opened JsInvariant
  import opened JsRun

  function Lexes(src: Source): seq<Tok>
    requires src.i <= |src.data|
  {
    LexAll(src.data, src.i, src.valuePos)
  }

  /** The turn that reads the first of a text's tokens. */
  lemma ReadOne(st: State, rest: seq<Source>, src: Source, t: Tok, more: seq<Tok>, p: Policy) returns (src': Source)
    requires Good(Config(st, rest + [src])) && src.i <= |src.data| && Lexes(src) == [t] + more
    ensures src'.i <= |src'.data| && src'.depth == src.depth && Lexes(src') == more
    ensures var d := Config(Push(st, Held(t, src.depth), p.keep, p.batch).st,
                            rest + [src'] + Opened(Push(st, Held(t, src.depth), p.keep, p.batch).inner));
            Good(d) && Advance(Config(st, rest + [src]), p) == d && RunAll(Config(st, rest + [src]), p) == RunAll(d, p)
    ensures NextToken(src.data, src.i, src.valuePos).Some? && NextToken(src.data, src.i, src.valuePos).value.tok == t
  {
    hide Ok, Push, NextToken, Potential, Unread;
    var c := Config(st, rest + [src]);
    assert Last(c.sources) == src && Init(c.sources) == rest;
    var l := NextToken(src.data, src.i, src.valuePos).value;
    src' := src.(i := l.next, valuePos := l.valuePos);
    assert Lexes(src)[1..] == Lexes(src') && Lexes(src)[0] == l.tok;
    AdvanceGood(c, p);
    AdvanceDecreases(c, p);
  }

  /** The turn that ends a text. */
  lemma ReadEnd(st: State, rest: seq<Source>, src: Source, p: Policy)
    requires Good(Config(st, rest + [src])) && src.i <= |src.data| && Lexes(src) == []
    ensures Good(Config(st, rest)) && RunAll(Config(st, rest + [src]), p) == RunAll(Config(st, rest), p)
    ensures NextToken(src.data, src.i, src.valuePos) == None && Advance(Config(st, rest + [src]), p) == Config(st, rest)
  {
    hide Ok, Push, NextToken, Potential, Unread;
    var c := Config(st, rest + [src]);
    assert Last(c.sources) == src && Init(c.sources) == rest;
    AdvanceGood(c, p);
    AdvanceDecreases(c, p);
  }

  /** Tokens of one depth pushed one after another. */
  function PushAll(st: State, ts: seq<Tok>, d: nat, p: Policy): State
    decreases |ts|
  {
    if ts == [] then st else PushAll(Push(st, Held(ts[0], d), p.keep, p.batch).st, ts[1..], d, p)
  }

  ghost predicate Quiet(st: State, ts: seq<Tok>, d: nat, p: Policy)
    decreases |ts|
  {
    ts != [] ==>
      var q := Push(st, Held(ts[0], d), p.keep, p.batch);
      q.inner == None && Quiet(q.st, ts[1..], d, p)
  }

  lemma PushFirst(st: State, t: Tok, ts: seq<Tok>, d: nat, p: Policy)
    ensures var q := Push(st, Held(t, d), p.keep, p.batch);
            && PushAll(st, [t] + ts, d, p) == PushAll(q.st, ts, d, p)
            && (Quiet(st, [t] + ts, d, p) <==> q.inner == None && Quiet(q.st, ts, d, p))
    ensures PushAll(st, [], d, p) == st && Quiet(st, [], d, p)
  {
    hide Push;
    assert ([t] + ts)[1..] == ts;
  }

  /** Reading tokens that unroll nothing pushes them. */
  lemma {:induction false} ReadAll(st: State, rest: seq<Source>, src: Source, ts: seq<Tok>, more: seq<Tok>, p: Policy) returns (src': Source)
    requires Good(Config(st, rest + [src])) && src.i <= |src.data| && Lexes(src) == ts + more && Quiet(st, ts, src.depth, p)
    ensures src'.i <= |src'.data| && src'.depth == src.depth && Lexes(src') == more
    ensures var d := Config(PushAll(st, ts, src.depth, p), rest + [src']);
            Good(d) && RunAll(Config(st, rest + [src]), p) == RunAll(d, p)
    decreases |ts|
  {
    hide Ok, Push, Lexes, RunAll, Reading;
    if ts == [] {
      assert ts + more == more;
      src' := src;
    } else {
      assert ts + more == [ts[0]] + (ts[1..] + more);
      var next := ReadOne(st, rest, src, ts[0], ts[1..] + more, p);
      assert rest + [next] + [] == rest + [next];
      src' := ReadAll(Push(st, Held(ts[0], src.depth), p.keep, p.batch).st, rest, next, ts[1..], more, p);
    }
  }
}
