/** What a whole script comes out as, read again. */
module JsRendered {
  import opened ByteSeq
  import opened JsText
  import opened JsLexer
  import opened JsReducer
  import opened JsRewrite
  import opened JsEmit
  import opened JsRun
  import opened JsReadBack

  /** Whether a text reads as tokens under their canonical names. */
  predicate ReadsAs(out: Bytes, toks: seq<Tok>) { LexAll(out, 0, true) == CanonAll(EmitAll(NOTHING, toks).names, toks) }

  lemma WholeIsWritten(e: Emitted)
    requires !Clip(e).1
    ensures Clip(e).0 == e.out && !e.cut
  {}

  /** What a script comes out as whole reads as tokens that derive from the script's own, if and only if
      no dot stands beside a number in them. */
  lemma RenderedReadsBack(data: Bytes, p: Policy)
    requires Good(Start(data)) && NeverMisplaces(Start(data), p) && !Normalize(data, p).1
    ensures exists toks :: Derives(LexAll(data, 0, true), toks)
                           && (AllLegible(toks) ==> (ReadsAs(Normalize(data, p).0, toks) <==> DotsApart(toks)))
  {
    hide Derives, EmitAll, LexAll, NeverMisplaces, AllLegible, DotsApart, CanonAll, Clip, Normalize;
    NormalizeSound(data, p);
    var toks :| Derives(LexAll(data, 0, true), toks) && Normalize(data, p) == Clip(EmitAll(NOTHING, toks));
    WholeIsWritten(EmitAll(NOTHING, toks));
    if AllLegible(toks) { WrittenReadsBack(toks); }
  }
}
