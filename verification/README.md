# A model of the exav scanning core

exav scans objects for malware signatures. Much of its core is a fast, streaming or stateful form of
something simple: a one-pass rewriting of scripts, a windowed search, a packed table, a cached reader,
a fused normaliser. This project models those forms as they work, states the simple form beside each,
and proves that they agree on every input, in every run and in every interleaving.

Check it with `dafny verify dfyconfig.toml`.

**Scripts** (`Js*.dfy`). A lexer feeds a reducer that holds a short tail of tokens and a stack of open
calls, joins strings, evaluates `unescape(...)` and `fromCharCode(...)`, and hands the text of
`eval("...")` back to be read as a source of its own. `JsText` and `JsLexer` are the text level,
`JsReducer` the steps as functions, `JsNormalizer` and `JsEmit` the objects that take them in place.
`JsInvariant` bounds the tail, `JsRewrite` gives the five rewrite rules, `JsSound` and `JsRun` prove
that every run is a derivation by them and ends (the measure is `JsLoad`'s), `JsFold` and `JsScript`
that constant expressions come out as their values, `JsBatch` that batching is invisible, `JsLayers`
that unrolling is, `JsDepth` that it stops, `JsReadBack` and `JsRendered` that what is written reads
back, `JsSpellings` that a value reads as itself however it is written. `JsReading` follows runs token by token.
`JsReach` and `JsCap`, with `JsCorners`, hold the two scripts on which the code does not meet those
properties, `JsShallow` a condition on the text for one.

**Carving** (`CarveMagics.dfy`, `Carving.dfy`, `CarvingLists.dfy`) and **PE layout** (`PeLayout.dfy`,
`PeImages.dfy`). A search by windows, with checks put off, caps and an early stop, against one ascending
pass over all offsets, and what that pass lists; the check whether PE headers describe an image that can be
mapped, and files written field by field to say when it is passed.

**Icons** (`Icon*.dfy`). The metric of an icon by greedy choice of windows and what it says of the icon
(`IconLaws`), its 124-digit blob, and matching and what it takes (`IconMatching`).

**Hash signatures** (`Hash*.dfy`). The sorted, interned, bit-packed table as a map in which the last
entry wins, its blobs, the lookup by three digests, and the filter that skips digests.

**Views and spill** (`TextViews.dfy`, `TextLaws.dfy`, `ScriptComments.dfy`, `TextNormalizers.dfy`,
`Spill.dfy`). `TextViews` has the views as separate passes over whole sequences, `TextLaws` what becomes of
each byte in them, `ScriptComments` what comments do to them, `TextNormalizers` the single passes, `Spill`
what they write to.

**Ranges** (`RangeReader.dfy`, `RangeLaws.dfy`). A seekable reader of an HTTP object with one block kept,
over the range semantics of section 14.4 of RFC 9110; where seeks land and which answers are refused.

**Driver** (`Collector.dfy`, `CollectorRows.dfy`, `ScanCache.dfy`). Worker threads and a collector over two
queues, as atomic steps taken in any order, the rows they write, and the results file as a cache between runs.

**Card numbers** (`CardNumbers.dfy`). The check of Annex B of ISO/IEC 7812-1 and the count over bounded
windows.

`ByteSeq`, `Pieces`, `Numerals` and `Arith` are shared: bytes, pieces of a sequence, numbers in digits and
in bytes, quotients.

Where the code and its comments disagree the model follows the code. The comment on `KEEP_BEHIND`
(crates/exav-core/src/jsnorm.rs:57-59) says how far a reduction looks back; before an open call `flush`
keeps three tokens (crates/exav-core/src/jsnorm.rs:693), which is not enough where an `eval` with no call
around it reduces right after a callee or part of one. `JsBatch.UncoversIff` says that this is exactly the
step at which a token already beyond reach comes back within it, `JsReach.EvalSeesBatches` is a script on
which the shipped batch shows, and `JsBatch.BatchingInvisible` holds for all scripts that never take that
step. `open` takes the place of the callee before the outermost call may be given up
(crates/exav-core/src/jsnorm.rs:576-592); `JsSound.PlacedIff` says exactly when that goes wrong, from
the open calls and the tokens held alone, `JsCap.CapIsNoDerivation` is a script on which it does, and
`JsRun.NormalizeSound` holds for all runs that never take that step. The driver's comment says that a
worker always posts a row (scripts/difftest-scan.py:242-247), but the message it prints before that, of
the first five failures, may raise: `Collector.DeadIsMissed` says what follows and `Collector.RunEnds`
that all is well exactly where none does. The places and lengths of names are
cut to 32 bits (crates/exav-core/src/hashes.rs:171-173); `HashTable.NamesWrap` is what is read back past
them. The writer puts a space only between two bytes of words (crates/exav-core/src/jsnorm.rs:857-862). Words,
integers, plain strings and punctuation are kept apart by that but for a dot and a number
(`JsReadBack.WrittenReadsBack` says so both ways), and a slash before a regular expression makes a comment of it
(`JsReadBack.SlashesRunTogether`). The reader
doubles its block when a request starts where the block ends (crates/exav-core/src/source.rs:109-114); after a
short answer that start can be the aligned one of a place further on, and twice a short block may not reach it:
`RangeLaws.ShortThenSeek` is such a run, whose read fails on a full answer, and `RangeLaws.ReadServes` says
exactly when that happens.

## Model

| member | source | states |
|---|---|---|
| `JsRun.NormalizeSound` | crates/exav-core/src/jsnorm.rs:93-117 | Every script, while no step is the open-call corner: the bytes written are the writing of tokens that derive from the script's own tokens by joining strings, reducing a decode or char-code call, splicing the text of an `eval`, and writing integers in decimal; nothing else is lost, made up or moved |
| `JsRun.RunSound` | crates/exav-core/src/jsnorm.rs:93-117 | The same from any point of a run: what is written and held, then what is unread in every source on the stack, derives the final tokens |
| `JsRun.AdvanceSound` | crates/exav-core/src/jsnorm.rs:93-117 | One turn of the loop keeps that, with the text an `eval` hands back taking the place of its call |
| `JsRun.AdvanceDecreases` | crates/exav-core/src/jsnorm.rs:93-117 | The loop ends on every input: what could still be read (unread bytes, held string bytes, encoded stored codes), then unread bytes, then the number of sources, falls lexicographically with every turn |
| `JsRun.StopEarly` | crates/exav-core/src/jsnorm.rs:93-117 | Leaving the loop once the output is cut gives what the whole loop would have given |
| `JsRun.NormalizeIsWhole` | crates/exav-core/src/jsnorm.rs:80-117 | So the result is the clipped writing of the tokens the whole loop ends with |
| `JsLoad.PushLoad` | crates/exav-core/src/jsnorm.rs:475-494 | A token adds no more to what could still be read than it cost to read, and the text an `eval` hands back is given up by the tokens held |
| `JsLexer.TokenPaidFor` | crates/exav-core/src/jsnorm.rs:189-371 | A string token is shorter than the text it was read from, a number no longer |
| `JsText.CodeNoLongerThanLiteral` | crates/exav-core/src/jsnorm.rs:375-387 | A character code is never longer encoded than the literal it was read from |
| `JsSound.PushSound` | crates/exav-core/src/jsnorm.rs:475-494 | Pushing a token: what was written and held, and the token, derive what is then written and held, and each open call still says where its callee is |
| `JsSound.StepSound` | crates/exav-core/src/jsnorm.rs:475-494 | The same without writing anything out |
| `JsSound.TakeSound` | crates/exav-core/src/jsnorm.rs:496-547 | The same for a token that neither opens nor closes a call: joined, stored as a code, held, or giving up |
| `JsSound.CloseSound` | crates/exav-core/src/jsnorm.rs:612-658 | The same for a closing bracket, whether the call reduces, hands back text or is given up |
| `JsSound.CallReduced` | crates/exav-core/src/jsnorm.rs:612-658 | A reducible call's tokens derive its value, and what is left beneath it is as before |
| `JsSound.OpenSound` | crates/exav-core/src/jsnorm.rs:574-608 | Opening a call changes no token, and leaves every call's callee where it says exactly when the step is not the open-call corner |
| `JsSound.PlacedIff` | crates/exav-core/src/jsnorm.rs:576-592 | The new call's start is its callee's place if and only if not: at the cap, with a `fromCharCode` outermost, unless exactly two tokens go and the callee is dotted |
| `JsRewrite.GiveUpAllView` | crates/exav-core/src/jsnorm.rs:662-675 | Giving up every call puts each stored code back where it was read and changes no token |
| `JsRewrite.GiveUpOutermostView` | crates/exav-core/src/jsnorm.rs:677-687 | Giving up the outermost call changes no token |
| `JsRewrite.WriteFrontView` | crates/exav-core/src/jsnorm.rs:702-711 | Writing out tokens before every open call changes no token |
| `JsInvariant.PushOk` | crates/exav-core/src/jsnorm.rs:475-494 | Every push keeps the calls well nested: start at most open, each after the one before, each argument one that could still be a string |
| `JsInvariant.StepOk` | crates/exav-core/src/jsnorm.rs:475-723 | Every step keeps it |
| `JsInvariant.WriteFrontOk` | crates/exav-core/src/jsnorm.rs:689-711 | What may be written out lies before every open call, so no index underflows |
| `JsInvariant.TailBounded` | crates/exav-core/src/jsnorm.rs:475-494 | After every push the tokens held are at most the batch and five, and four for each open call |
| `JsFold.Folds` | crates/exav-core/src/jsnorm.rs:475-658 | Anywhere a string may come, feeding the tokens of an expression of literals, `+`, decode calls and char-code calls does what feeding one literal of its value does, as long as the open calls stay within the cap |
| `JsFold.FoldsWhole` | crates/exav-core/src/jsnorm.rs:475-658 | Fed to an empty normaliser it leaves exactly one held string, the expression's value |
| `JsScript.ExpressionRendered` | crates/exav-core/src/jsnorm.rs:80-117 | Every script that lexes to such an expression, however spaced, commented and quoted, comes out as its value in quotes, clipped at the output cap, whatever the batch |
| `JsScript.SpelledRendered` | crates/exav-core/src/jsnorm.rs:80-117 | Every such expression whose codes are words of digits and letters has such a script |
| `JsScript.LexSpelled` | crates/exav-core/src/jsnorm.rs:189-279 | Lexing the text of an expression gives its tokens, whatever follows |
| `JsScript.ExprNoEval` | crates/exav-core/src/jsnorm.rs:612-658 | Its tokens never reduce an `eval` |
| `JsBatch.BatchingInvisible` | crates/exav-core/src/jsnorm.rs:689-723 | For every script of whose `eval` calls none, reduced with no call around it, leaves a callee or part of one at the end of what is held, any two batch sizes, including one never reached, give the same output and the same cut flag |
| `JsBatch.UncoversIff` | crates/exav-core/src/jsnorm.rs:612-658 | For a reduced `eval` that is the only open call, everything beyond reach before stays beyond reach if and only if no callee or part of one is left at the end |
| `JsBatch.NormalizeIsLate` | crates/exav-core/src/jsnorm.rs:689-723 | That output is the writing of what the loop over all sources leaves when nothing is written early |
| `JsBatch.NormalizeIsFeed` | crates/exav-core/src/jsnorm.rs:689-723 | Where no `eval` reduces it is the writing of what feeding the script's tokens leaves |
| `JsBatch.RunAhead` | crates/exav-core/src/jsnorm.rs:93-117 | A run over the stack of sources that writes early stays, to its end, the other run with its front written out |
| `JsBatch.StepInStep` | crates/exav-core/src/jsnorm.rs:475-658 | Any token but such an `eval`'s bracket keeps the two runs in step: nothing written could still have been joined or reduced |
| `JsReach.EvalSeesBatches` | crates/exav-core/src/jsnorm.rs:689-700 | A script, 1023 semicolons and `"a"+string.eval("fromcharcode")(66)`, that is rendered differently as shipped and with any batch that is not reached, and so is not one of those |
| `JsCorners.CapLosesBrackets` | crates/exav-core/src/jsnorm.rs:576-608 | One decode call more than the cap, inside a `fromCharCode`: its brackets are lost and its callee kept |
| `JsCorners.CapDerives` | crates/exav-core/src/jsnorm.rs:576-608 | All that derives from those tokens: themselves, and the last call reduced |
| `JsCap.CapIsNoDerivation` | crates/exav-core/src/jsnorm.rs:576-608 | A script whose rendering, whatever the batch, is the writing of no tokens that derive from it, so that its run takes the step soundness excludes |
| `JsCap.ScriptRendered` | crates/exav-core/src/jsnorm.rs:80-117 | What is written for that script |
| `JsShallow.ShallowSound` | crates/exav-core/src/jsnorm.rs:576-592 | A script without an `eval` whose brackets nest no deeper than the cap never takes that step, whatever the batch |
| `JsLayers.LayersInvisible` | crates/exav-core/src/jsnorm.rs:93-117 | A script wrapped in any number of `eval("...")` is rendered exactly as itself, as long as the layers and those its own `eval` calls are in come to at most 32 |
| `JsLayers.LayerRun` | crates/exav-core/src/jsnorm.rs:93-117 | The run of a wrapped script is, token for token, the run of the script one layer further in |
| `JsLayers.StepUp` | crates/exav-core/src/jsnorm.rs:475-658 | A token one layer further in does what it does, as long as no `eval` passes the bound |
| `JsLayers.PlainLayers` | crates/exav-core/src/jsnorm.rs:50-53 | A script without an `eval` of its own is rendered the same in up to 32 layers |
| `JsDepth.NeverDeeper` | crates/exav-core/src/jsnorm.rs:50-53 | At every point of every run no text is read more than 32 layers in, and every open `eval` call is less than that |
| `JsDepth.PushWithin` | crates/exav-core/src/jsnorm.rs:475-494 | A push keeps the open calls so, and hands back no text further in |
| `JsReadBack.WrittenReadsBack` | crates/exav-core/src/jsnorm.rs:866-908 | For every uncut stream of words, integer literals, strings that need no escape and punctuation other than a slash: lexing what is written gives the stream, each renamed identifier as its canonical name and each number in decimal, if and only if no dot stands beside a number |
| `JsReadBack.ReadsFrom` | crates/exav-core/src/jsnorm.rs:866-908 | The same from any token on |
| `JsReadBack.TokenReads` | crates/exav-core/src/jsnorm.rs:866-908 | Where no dot and number meet, the token read where one was written is that one |
| `JsReadBack.ClashMisread` | crates/exav-core/src/jsnorm.rs:901-904 | Where a dot and a number meet, what is read there is another token |
| `JsReadBack.SpacesNeeded` | crates/exav-core/src/jsnorm.rs:901-904 | Outside strings a space stands only between two bytes of words |
| `JsReadBack.DotsRunTogether` | crates/exav-core/src/jsnorm.rs:901-904 | A number that ends in a dot and a number after it are written, and read, as one |
| `JsReadBack.SlashesRunTogether` | crates/exav-core/src/jsnorm.rs:901-904 | A slash and a regular expression after it are written as a comment |
| `JsRendered.RenderedReadsBack` | crates/exav-core/src/jsnorm.rs:80-117 | What a script comes out as whole, while no step is the open-call corner, reads as tokens that derive from the script's own, under the same condition |
| `JsEmit.RenamingInvariant` | crates/exav-core/src/jsnorm.rs:857-934 | Streams that differ by an injective renaming of identifiers that are not kept are written byte for byte the same, with the same cut flag, however long |
| `JsEmit.NamesInOrder` | crates/exav-core/src/jsnorm.rs:857-908 | For every stream, a renamed identifier's number is its place among first appearances in what is written before any cut |
| `JsEmit.DistinctNames` | crates/exav-core/src/jsnorm.rs:857-908 | Different identifiers written before any cut get different canonical names |
| `JsEmit.CanonicalInjective` | crates/exav-core/src/jsnorm.rs:880-908 | Different numbers are written differently |
| `JsEmit.NamesFit` | crates/exav-core/src/jsnorm.rs:857-908 | The numbers never outgrow 32 bits, because the output is bounded |
| `JsEmit.CutIsFinal` | crates/exav-core/src/jsnorm.rs:866-908 | Once cut, nothing further changes the output |
| `JsEmit.Emitter.Write` | crates/exav-core/src/jsnorm.rs:866-908 | Writing one token, with separators, quoting, canonical names and the output cap |
| `JsEmit.Emitter.CharCodes` | crates/exav-core/src/jsnorm.rs:910-922 | Stored codes are written exactly as the tokens they came from would be |
| `JsText.PercentRoundTrip` | crates/exav-core/src/jsnorm.rs:784-817 | Decoding what is percent-encoded byte by byte gives it back |
| `JsText.DecodePercent` | crates/exav-core/src/jsnorm.rs:784-817 | The decoding loop computes the recursive definition, wide escapes included |
| `JsText.DecRoundTrip` | crates/exav-core/src/jsnorm.rs:821-853 | A 32-bit value written in decimal parses back to itself |
| `JsLexer.StringRoundTrip` | crates/exav-core/src/jsnorm.rs:281-371 | A string written in escapes reads back as itself, whatever surrounds it |
| `JsSpellings.LiteralReads` | crates/exav-core/src/jsnorm.rs:281-371 | However the characters of a literal are written, as themselves, in hexadecimal, octal, `\u` or `\u{}` escapes, as single letters of section 12.9.4 of ECMA-262, behind a needless backslash or across a continued line, it reads as what they mean, whatever surrounds it |
| `JsSpellings.EscapeIs` | crates/exav-core/src/jsnorm.rs:309-371 | Each escape is read as what it means, and to its end |
| `JsSpellings.EncodesUtf8` | crates/exav-core/src/jsnorm.rs:375-387 | A scalar value above 0xFF is written as the one UTF-8 sequence (section 3 of RFC 3629) that decodes to it |
| `JsSpellings.PercentSpelled` | crates/exav-core/src/jsnorm.rs:784-817 | However each byte is written, as itself, `%XX` or in `%uXXXX`, in either letter case of the `u`, decoding gives the bytes |
| `JsSpellings.LiteralValue` | crates/exav-core/src/jsnorm.rs:821-846 | An integer in decimal or behind `0x`, `0o` or `0b`, with as many zeros in front as one likes, has its value, and none at 32 bits or more |
| `JsSpellings.SeparatorInvisible` | crates/exav-core/src/jsnorm.rs:821-846 | An underscore anywhere in a literal changes nothing |
| `JsSpellings.CharsOfBytes` | crates/exav-core/src/jsnorm.rs:612-658 | Character codes up to 255 come out as those bytes, in order |
| `JsSpellings.CharsAppend` | crates/exav-core/src/jsnorm.rs:612-658 | The characters of a list of codes are those of its parts, in order |
| `JsSpellings.SlashAfter` | crates/exav-core/src/jsnorm.rs:189-279 | A slash after a name that is no keyword, a literal, `)` or `]` divides; after anything else it opens a regular expression, unless it opens a comment |
| `JsLexer.Lexer.Next` | crates/exav-core/src/jsnorm.rs:189-279 | The next token, where it ends and whether a value may follow, with progress |
| `JsLexer.Lexer.SkipToToken` | crates/exav-core/src/jsnorm.rs:189-279 | Whitespace and comments are passed over, unterminated ones to the end |
| `JsLexer.Lexer.ReadString` | crates/exav-core/src/jsnorm.rs:281-307 | The body of a literal with its escapes decoded, and where it ends |
| `JsLexer.Lexer.ReadRegex` | crates/exav-core/src/jsnorm.rs:396-427 | A regular expression literal ends where its unescaped closing slash, outside a class, does |
| `JsLexer.Lexer.ReadNumber` | crates/exav-core/src/jsnorm.rs:189-279 | The extent of a number literal, exponents included |
| `JsLexer.Lexer.ReadIdent` | crates/exav-core/src/jsnorm.rs:189-279 | The extent of an identifier and whether it is a keyword |
| `JsNormalizer.Normalizer.Push` | crates/exav-core/src/jsnorm.rs:475-494 | The in-place push has the specified effect on held tokens, calls and output, and keeps the bound on the tail |
| `JsNormalizer.Normalizer.Take` | crates/exav-core/src/jsnorm.rs:496-516 | In place, a token that neither opens nor closes a call |
| `JsNormalizer.Normalizer.AbsorbCharCode` | crates/exav-core/src/jsnorm.rs:518-547 | In place, a number or comma stored as a code of the innermost call, or nothing changed |
| `JsNormalizer.Normalizer.Append` | crates/exav-core/src/jsnorm.rs:549-572 | In place, a token held or joined to the string before it |
| `JsNormalizer.Normalizer.Open` | crates/exav-core/src/jsnorm.rs:574-608 | In place, a bracket held and a call opened, at the cap too |
| `JsNormalizer.Normalizer.Close` | crates/exav-core/src/jsnorm.rs:612-658 | In place, the innermost call reduced, handed back or given up |
| `JsNormalizer.Normalizer.GiveUpAll` | crates/exav-core/src/jsnorm.rs:662-675 | In place, all calls given up, outermost first |
| `JsNormalizer.Normalizer.GiveUpOutermost` | crates/exav-core/src/jsnorm.rs:677-687 | In place, the outermost call given up and every index moved |
| `JsNormalizer.Normalizer.Flush` | crates/exav-core/src/jsnorm.rs:689-700 | In place, a full batch written out up to what must be kept |
| `JsNormalizer.Normalizer.WriteFront` | crates/exav-core/src/jsnorm.rs:702-711 | In place, the first tokens written and every index moved |
| `JsNormalizer.Normalizer.Finish` | crates/exav-core/src/jsnorm.rs:713-723 | The clipped output and the cut flag |
| `JsNormalizer.Turn` | crates/exav-core/src/jsnorm.rs:93-117 | One turn of the loop over the stack of lexers is one step of the run |
| `JsNormalizer.NormalizeScript` | crates/exav-core/src/jsnorm.rs:80-117 | The loop ends and computes the specified rendering |
| `Carving.EmbeddedIn` | crates/exav-core/src/pe.rs:912-931 | For windows of any size above the overlap, in memory or not, and however many headers wait: exactly what one ascending pass over every offset finds, lists and capped flags alike |
| `Carving.Search.Feed` | crates/exav-core/src/pe.rs:1016-1081 | A window's own magics are met in order of offset, and what is found together with what waits stands for the pass so far |
| `Carving.Search.Consider` | crates/exav-core/src/pe.rs:1030-1077 | One magic met: the object's own, the next entry of a ZIP taken, checked now or kept for later |
| `Carving.Search.Settle` | crates/exav-core/src/pe.rs:1085-1092 | Checking what waits, in order of header, leaves nothing waiting |
| `Carving.Search.AcceptPe` | crates/exav-core/src/pe.rs:1097-1104 | The images listed stay the lowest of all accepted, in order, and capped says whether one was left out |
| `Carving.Search.ListMacho` | crates/exav-core/src/pe.rs:1059-1076 | A Mach-O image is listed below its cap, or the object is capped |
| `Carving.Search.NothingWaits` | crates/exav-core/src/pe.rs:1085-1092 | With nothing waiting the result is that of the pass over everything met |
| `Carving.AcceptLowest` | crates/exav-core/src/pe.rs:1097-1104 | Accepting an image in any order keeps the lowest sixteen |
| `Carving.PassLowest` | crates/exav-core/src/pe.rs:1049-1077 | The ascending pass lists the lowest sixteen sound images and no other |
| `Carving.FullStays` | crates/exav-core/src/pe.rs:1002-1011 | Once full, nothing further in the object changes the result, so stopping drops nothing |
| `Carving.SortFar` | crates/exav-core/src/pe.rs:1085-1087 | What waits is put in order of header and image, none lost |
| `CarvingLists.CarvingFinds` | crates/exav-core/src/pe.rs:1030-1077 | What carving finds, in order: the lowest sound PE, ELF and Mach-O images and the lowest sound archives that are no entries of a ZIP followed, each up to its cap, with exactly when a list was capped |
| `CarvingLists.PassLists` | crates/exav-core/src/pe.rs:1030-1077 | The same of the pass over any ascending magics |
| `CarvingLists.ZipListedOnce` | crates/exav-core/src/pe.rs:1036-1048 | Of a sound ZIP below the cap, each entry naming where the next begins, the first is listed and no other, however many |
| `CarvingLists.OwnZipUnlisted` | crates/exav-core/src/pe.rs:1036-1048 | Of the object's own ZIP no entry is listed |
| `CarvingLists.ListedBelowCap` | crates/exav-core/src/pe.rs:1036-1048 | A sound archive below the cap that no entry followed names is listed |
| `CarvingLists.ChainFollowed` | crates/exav-core/src/pe.rs:1036-1048 | Each entry of a chain is the next entry of the one before it |
| `CarveMagics.WindowHits` | crates/exav-core/src/pe.rs:1016-1029 | Searching a window magic by magic and sorting gives what looking at each offset gives, with none lost at a seam |
| `CarveMagics.FindAll` | crates/exav-core/src/pe.rs:1026-1028 | All places of one magic in a window, in order |
| `CarveMagics.SortByOffset` | crates/exav-core/src/pe.rs:1029-1029 | Hits put in order of offset, none lost |
| `CarveMagics.MagicUnique` | crates/exav-core/src/pe.rs:891-906 | At most one magic starts at an offset |
| `CarveMagics.NoOverlap` | crates/exav-core/src/pe.rs:891-906 | No magic overlaps itself, so a search that skips past a match misses none |
| `PeLayout.PeBroken` | crates/exav-core/src/pe.rs:304-391 | The whole check, fields read through a cached window of any size, gives the specified verdict |
| `PeLayout.OptionalBroken` | crates/exav-core/src/pe.rs:320-391 | The same from the optional header on: sizes, directories, alignment, section table |
| `PeLayout.LayoutBroken` | crates/exav-core/src/pe.rs:354-391 | A layout is broken if and only if its listed sections do not chain from the aligned header size or its entry point has no offset inside the file |
| `PeLayout.SoundTiles` | crates/exav-core/src/pe.rs:368-379 | A layout that passes tiles memory: starts are aligned, the first right after the headers, and every address up to the end of the image is in exactly one section |
| `PeLayout.SoundEntry` | crates/exav-core/src/pe.rs:380-390 | A file that passes has its entry point at an offset inside it, in the headers or in the data of a listed section |
| `PeLayout.Fields.Get` | crates/exav-core/src/pe.rs:255-266 | A field is the object's own bytes whatever the window held, and nothing exactly when the object ends first |
| `PeLayout.RoundUp` | crates/exav-core/src/pe.rs:296-302 | The least multiple not below, or the number itself for alignment 0 |
| `PeLayout.KeptSections` | crates/exav-core/src/pe.rs:354-364 | Sections whose data starts past the end of the file are left out |
| `PeLayout.RoundDown` | crates/exav-core/src/pe.rs:388-390 | The greatest multiple not above, or the number itself for alignment 0 |
| `PeImages.ImageJudged` | crates/exav-core/src/pe.rs:304-391 | Every file written field by field from a DOS header, a file header, an optional header of either kind, directories and a section table, and cut anywhere: not judged exactly where the file header or the directories are cut short, and sound if and only if the headers are whole, the alignments are allowed and the image is laid out |
| `PeImages.HeaderFound` | crates/exav-core/src/pe.rs:304-367 | What is found in the first bytes of such a file: the very fields written, or too little, or wrong |
| `PeImages.OptionalRead` | crates/exav-core/src/pe.rs:320-353 | Each field judged is read from its own place in the optional header |
| `PeImages.RecordRead` | crates/exav-core/src/pe.rs:354-364 | Size, address, data size and data place are read from their own places in a section header |
| `PeImages.MappableIff` | crates/exav-core/src/pe.rs:354-391 | The check is passed if and only if every listed section starts where the headers and the ones before it, rounded up, end, and the entry point is in the headers or in the data of the first section that has it, inside the file |
| `IconReader.MatchesOwnSignature` | crates/exav-core/src/icon.rs:1379-1417 | Every icon of side 16, 24 or 32, whatever its pixels and edge image, matches the signature written from its metric |
| `IconBlob.MetricRoundTrip` | crates/exav-core/src/icon.rs:1208-1317 | Every computed metric comes back from the blob it is written as |
| `IconBlob.RoundTripIff` | crates/exav-core/src/icon.rs:1208-1317 | Any metric comes back if and only if it is in range |
| `IconBlob.PrintParse` | crates/exav-core/src/icon.rs:1208-1317 | Every metric in range comes back, each of its eighteen cells and five counts in place |
| `IconBlob.ParsePrint` | crates/exav-core/src/icon.rs:1280-1317 | A blob that parses is in range and is, but for the case of letters, what its metric is written as |
| `IconMetrics.MetricInRange` | crates/exav-core/src/icon.rs:1049-1184 | Every computed metric is in range: means at most 4072 and 255, coordinates within the icon, hues together at most 101, the percentage at most 100 |
| `IconMetrics.MetricUnique` | crates/exav-core/src/icon.rs:1049-1184 | Pixels and edge image determine the metric |
| `IconMetrics.ComputeMetric` | crates/exav-core/src/icon.rs:1049-1184 | A metric is computed exactly for the three sides with all pixels given, and is the one defined by greedy windows |
| `IconMetrics.PixelPass` | crates/exav-core/src/icon.rs:1061-1097 | One pass gives each pixel's colourfulness and lightness and the statistics |
| `IconMetrics.HuesOfPixel` | crates/exav-core/src/icon.rs:1069-1085 | The three hue shares of a pixel come to at most 101, for all colours |
| `IconLaws.ChannelsRead` | crates/exav-core/src/icon.rs:1069-1074 | Red, green and blue are the third, second and first lowest bytes of a pixel |
| `IconLaws.VividIs` | crates/exav-core/src/icon.rs:1075-1080 | A pixel is vivid exactly when its brightest channel is above 85 and the spread is above a third of it |
| `IconLaws.HuesAre` | crates/exav-core/src/icon.rs:1079-1085 | A vivid pixel has red hue 100 exactly when green and blue are less than a hundredth of the spread apart and 0 exactly when they are the whole spread apart, and so for green and blue |
| `IconLaws.OneColour` | crates/exav-core/src/icon.rs:1061-1097 | The hue sums of an icon of one colour are that colour's |
| `IconLaws.RedIsRed` | crates/exav-core/src/icon.rs:1061-1097 | An icon of one vivid colour has rsum 100 when its green and blue are equal, and so for gsum and bsum |
| `IconLaws.MetricExtremes` | crates/exav-core/src/icon.rs:1099-1184 | The first bright window is the lightest of all, the first dark one the darkest, the first edge and edgeless ones those with most and least edges, the first colour and gray ones of a colour icon those with most and least colour, each with the mean of its own window |
| `IconLaws.GrayWithColor` | crates/exav-core/src/icon.rs:1099-1184 | In an icon of little colour the gray windows stand where the colour ones do |
| `IconLaws.ColourIs` | crates/exav-core/src/icon.rs:1075-1078 | No colour without a spread, and a pixel with a dark channel is as colourful as it is light |
| `IconMetrics.StatsInRange` | crates/exav-core/src/icon.rs:1087-1097 | So the means do, after their own truncated divisions |
| `IconMetrics.ColourAtMost` | crates/exav-core/src/icon.rs:1075-1078 | No pixel's colourfulness is above 4072 |
| `IconMetrics.WindowSums` | crates/exav-core/src/icon.rs:1099-1116 | The sum over every window, each at its place |
| `IconMetrics.PickExtreme` | crates/exav-core/src/icon.rs:992-1032 | Each cell chosen is the first most extreme window that overlaps none chosen before, and fewer are chosen only when none is left |
| `IconMetrics.GreedyUnique` | crates/exav-core/src/icon.rs:992-1032 | The choice is determined |
| `IconMetrics.GreedyOrder` | crates/exav-core/src/icon.rs:992-1032 | No two chosen overlap and a later one is never more extreme |
| `IconBlob.PushHex` | crates/exav-core/src/icon.rs:1198-1203 | The digits written, highest first, are the number's last digits |
| `IconReader.MetricToHex` | crates/exav-core/src/icon.rs:1208-1233 | Writing field by field gives the specified blob |
| `IconReader.ParseBlob` | crates/exav-core/src/icon.rs:1280-1317 | Reading with a moving position is reading each field at its fixed place, with every refusal |
| `IconReader.TakeCells` | crates/exav-core/src/icon.rs:1251-1276 | Three cells from the position, or nothing when a field is missing or above its limit |
| `IconReader.HexVal` | crates/exav-core/src/icon.rs:1235-1243 | The number digits spell, or nothing for a digit that is none or missing |
| `IconReader.MatchPoint` | crates/exav-core/src/icon.rs:1338-1354 | The mean over the first icon's cells of the best score against the other's |
| `IconReader.SelfMatches` | crates/exav-core/src/icon.rs:1379-1417 | A metric of the three sides matches itself |
| `IconMatching.CellScoreIs` | crates/exav-core/src/icon.rs:1327-1336 | Two cells compare if and only if they stand within the limit, in whole pixels, and their averages do; the score is 100 at the same place and falls by 60 up to the limit |
| `IconMatching.BestIs` | crates/exav-core/src/icon.rs:1338-1354 | The best score is the highest of all |
| `IconMatching.GrayNeedsAll` | crates/exav-core/src/icon.rs:1379-1417 | A gray match needs means of 20, and of 60 for the edges, and with the other three perfect that much is enough |
| `IconMatching.ColourMatches` | crates/exav-core/src/icon.rs:1379-1417 | A colour match weighs colour, dark and edged windows and the shares at three and the rest at two, against a bound for each side |
| `IconMatching.FarGrayRefused` | crates/exav-core/src/icon.rs:1379-1417 | Gray icons none of whose windows of a kind come near are refused, whatever else agrees |
| `IconMatching.FarColourRefused` | crates/exav-core/src/icon.rs:1379-1417 | Colour icons none of whose colour, dark and edged windows come near are refused |
| `HashTable.BuildAndGet` | crates/exav-core/src/hashes.rs:143-186 | After any insertions and one finalize, a lookup answers exactly the last name and provenance inserted for the key, and nothing for other keys; when the names come to 4 GiB or more, all of that but the name |
| `HashTable.Build` | crates/exav-core/src/hashes.rs:143-178 | After any insertions and one finalize, a table of distinct keys in order, its places and lengths 32-bit numbers, that stands for the last insertion of each key, its name too while the names kept fit in 32 bits |
| `HashTable.SortedTable.Finalize` | crates/exav-core/src/hashes.rs:154-178 | The sorted, packed table stands for the last entry of each key, its name too while the names kept fit in 32 bits; a table finalized before is replaced, and with nothing pending nothing changes |
| `HashTable.NamesWrap` | crates/exav-core/src/hashes.rs:171-173 | A name that starts where 32 bits are used up is read back from the first names |
| `HashTable.SortedTable.Insert` | crates/exav-core/src/hashes.rs:144-146 | An entry is pending |
| `HashTable.StableSortIs` | crates/exav-core/src/hashes.rs:154-178 | Sorting keeps the last entry of every key the last |
| `HashTable.RunEnd` | crates/exav-core/src/hashes.rs:154-178 | Of a run of one key the last is kept |
| `HashTable.BinarySearch` | crates/exav-core/src/hashes.rs:181-186 | Halving finds a key exactly when it is there |
| `HashTable.Get` | crates/exav-core/src/hashes.rs:181-186 | The answer is the key's own entry, in range |
| `HashBlobs.Write` | crates/exav-core/src/hashes.rs:74-88 | Every table the reader would allow, written as keys, spans, names and bit-packed flags, reads back as itself |
| `HashBlobs.BuildWriteReadGet` | crates/exav-core/src/hashes.rs:74-186 | Insert, finalize, write, read and look up: exactly the last name and provenance inserted for the key, and nothing for other keys; when the names come to 4 GiB or more, all of that but the name |
| `HashBlobs.BuiltIsStorable` | crates/exav-core/src/hashes.rs:154-178 | Every table finalize builds of keys of the table's width is one the reader allows |
| `HashBlobs.ReadIsUsable` | crates/exav-core/src/hashes.rs:90-129 | Whatever blobs the reader accepts, the table is in order and every span within the names |
| `HashBlobs.PackFlags` | crates/exav-core/src/hashes.rs:74-88 | Flag k is bit k % 8 of byte k / 8, and every bit past the last flag is zero |
| `Numerals.LeRoundTrip` | crates/exav-core/src/hashes.rs:60-72 | A number that fits, written lowest byte first, reads back |
| `HashLookup.SkippingIsHarmless` | crates/exav-core/src/hashes.rs:344-357 | For every size and every set of digests, looking up with the digests wanted for the size, or any more, answers as with all three |
| `HashLookup.UnwantedNotFound` | crates/exav-core/src/hashes.rs:219-231 | A table that does not want a size finds nothing of that size |
| `HashLookup.BuildAndFind` | crates/exav-core/src/hashes.rs:204-222 | After any insertions and one finalize of both tables, a lookup answers the last signature of exactly the size, or else the last of any size, or nothing; when the names of a table come to 4 GiB or more, all of that but the name |
| `HashLookup.WantsIs` | crates/exav-core/src/hashes.rs:224-231 | A table wants a size exactly when it has a signature of any size or one of that size |
| `HashLookup.Find` | crates/exav-core/src/hashes.rs:219-223 | Something is found exactly when either table has it, and in tables of distinct keys it is the entry of exactly the size, or else the one of any size |
| `HashLookup.LookupFinds` | crates/exav-core/src/hashes.rs:462-474 | A lookup finds something if and only if one of the three digests is given and its table has it at that size or for any |
| `HashLookup.LookupFirst` | crates/exav-core/src/hashes.rs:462-474 | In tables of distinct keys it is the answer of the first such digest, MD5 before SHA-1 before SHA-256 |
| `HashLookup.BuildTable` | crates/exav-core/src/hashes.rs:204-222 | Signatures inserted and finalized: for every digest and size the table answers the last of exactly the size, or else the last of any |
| `HashLookup.BuildAndLookup` | crates/exav-core/src/hashes.rs:344-357 | Signatures of all three kinds inserted and finalized, and a lookup with only the digests wanted for the size: what is said of the MD5 digest, or else of SHA-1, or else of SHA-256; when the names of a table come to 4 GiB or more, all of that but the name |
| `HashLookup.DigestOpsLawful` | crates/exav-core/src/hashes.rs:50-58 | Digests are ordered byte by byte, totally, and read back as written |
| `HashLookup.SizedOpsLawful` | crates/exav-core/src/hashes.rs:60-72 | Sized keys are ordered by size and then digest, and read back as written |
| `RangeReader.ReadFaithful` | crates/exav-core/src/source.rs:175-208 | Every read hands over the object's bytes at the position and moves past them, reports the end only at or past the declared length, and otherwise fails in place |
| `RangeReader.RunFaithful` | crates/exav-core/src/source.rs:104-228 | In every interleaving of seeks, reads, failed requests and short bodies the block kept is the object's own |
| `RangeReader.FetchFaithful` | crates/exav-core/src/source.rs:108-171 | Whatever comes back, what is kept is the object's own or nothing |
| `RangeReader.HttpRangeReader.constructor` | crates/exav-core/src/source.rs:59-93 | A reader at the start with nothing cached, sizes made at least one and in order |
| `RangeReader.HttpRangeReader.FetchBlock` | crates/exav-core/src/source.rs:108-171 | In place, one request: doubled when it continues the last, refused for another status, range or total |
| `RangeReader.HttpRangeReader.ReadBytes` | crates/exav-core/src/source.rs:175-208 | In place, a read from the cached block or from one request |
| `RangeReader.HttpRangeReader.SeekTo` | crates/exav-core/src/source.rs:212-228 | In place, a seek, refused before the start and past the largest offset, the position unchanged |
| `RangeReader.ReadThrough` | crates/exav-core/src/source.rs:175-208 | A front-to-back pass with full answers reads the object, fetches each byte once, and makes at most as many requests as doublings from first to most plus the length over most, rounded up |
| `RangeReader.NextRequest` | crates/exav-core/src/source.rs:108-120 | The k-th request of a pass asks for first times two to the k, at most most, clipped to the end, and all of it is new |
| `RangeReader.PassReads` | crates/exav-core/src/source.rs:175-208 | One read of a pass makes a request only when the block is used up |
| `RangeReader.FewRequests` | crates/exav-core/src/source.rs:108-120 | The bound on the number of requests |
| `RangeLaws.SeekLands` | crates/exav-core/src/source.rs:212-228 | A target is reached alike from the start, the end and the position, is refused before the start and past the largest offset, and moves nothing but the position |
| `RangeLaws.AskInside` | crates/exav-core/src/source.rs:108-120 | A request is for bytes of the object, at most `most`, from a multiple of `first` or where the last one ended, and covers the position unless the block before it was too short |
| `RangeLaws.ReadServes` | crates/exav-core/src/source.rs:175-208 | A read inside the object answered in full hands over at least one byte if and only if the position is cached or the block before was not so short that twice its length, asked for from its end, stops before the position |
| `RangeLaws.SeekThenRead` | crates/exav-core/src/source.rs:104-228 | However a run has sought and read, where every answer was full a seek to any place and a read give the bytes there |
| `RangeLaws.ShortThenSeek` | crates/exav-core/src/source.rs:177-184 | A read answered in full that fails, after an answer cut to one byte |
| `RangeLaws.ReadRefuses` | crates/exav-core/src/source.rs:121-162 | No answer, another status, another start, another total and a body that breaks off each fail the read in place with nothing kept |
| `RangeLaws.ReadAccepts` | crates/exav-core/src/source.rs:121-171 | Any other answer is accepted, and serves the read unless it ends before the position |
| `TextNormalizers.Spilled` | crates/exav-core/src/normalize.rs:97-165 | A view written through a file in batches of any size is the two-pass view, whole, or an error, the error exactly when a write was lost or the file cannot be read |
| `TextNormalizers.InMemory` | crates/exav-core/src/normalize.rs:91-145 | A view made in memory is the two-pass view |
| `TextNormalizers.HtmlInto` | crates/exav-core/src/normalize.rs:98-107 | One pass over HTML writes what decoding, then lowering, then collapsing gives |
| `TextNormalizers.TextInto` | crates/exav-core/src/normalize.rs:117-128 | One pass over text writes what dropping controls, then lowering, then collapsing gives |
| `TextNormalizers.JavascriptInto` | crates/exav-core/src/normalize.rs:148-165 | Stripping comments and squeezing at once writes what stripping and then squeezing gives |
| `TextNormalizers.Keep` | crates/exav-core/src/normalize.rs:150-164 | A byte kept by stripping is squeezed by looking at the last byte written |
| `TextNormalizers.DecodeEntityAt` | crates/exav-core/src/normalize.rs:172-187 | A reference the window holds whole, or the byte itself |
| `TextNormalizers.DecodeReference` | crates/exav-core/src/normalize.rs:190-222 | The byte a numeric or named reference stands for, or nothing |
| `TextNormalizers.CodePoint` | crates/exav-core/src/normalize.rs:202-209 | Giving up as soon as a digit is none, 32 bits do not hold the number, or it passes the last code point is refusing exactly what spells no code point |
| `TextNormalizers.CheckedEnough` | crates/exav-core/src/normalize.rs:205-208 | A code point and one more digit always fit in 32 bits, so the checked arithmetic refuses nothing |
| `TextNormalizers.PushCollapsed` | crates/exav-core/src/normalize.rs:77-87 | A run of whitespace becomes one space |
| `TextNormalizers.SkipBlock` | crates/exav-core/src/normalize.rs:252-259 | A block comment ends after its first closing mark, or at the end |
| `TextNormalizers.SkipLine` | crates/exav-core/src/normalize.rs:260-265 | A line comment ends at its newline, which is kept |
| `TextViews.TextIdempotent` | crates/exav-core/src/normalize.rs:117-128 | The text view of a text view is itself |
| `TextViews.TextFixed` | crates/exav-core/src/normalize.rs:117-128 | A sequence is its own text view if and only if it has no control, no capital, and single spaces |
| `TextViews.SpellingInvisible` | crates/exav-core/src/normalize.rs:172-222 | However each byte of HTML is written, as itself or as any short enough reference to it, the view is the same |
| `TextViews.HexReference` | crates/exav-core/src/normalize.rs:194-212 | Every byte is the reference of its two hexadecimal digits |
| `TextViews.NamedReference` | crates/exav-core/src/normalize.rs:213-221 | Each of the six names, in any letter case, stands for its byte |
| `TextLaws.NumericReference` | crates/exav-core/src/normalize.rs:194-212 | A decimal or hexadecimal reference, zeros in front or not, stands for its code point's low byte, and past the last code point for nothing |
| `TextLaws.NamedIs` | crates/exav-core/src/normalize.rs:213-221 | Which byte each name stands for, in any letter case, and that no other name stands for any |
| `TextLaws.TextGrows` | crates/exav-core/src/normalize.rs:117-128 | What becomes of each byte in a text view: capitals made small, whitespace one space, other bytes below 32 dropped, the rest kept |
| `TextLaws.SqueezeGrows` | crates/exav-core/src/normalize.rs:148-165 | Squeezing drops whitespace but for one space where it kept two letters, digits, `_` or `$` apart |
| `TextViews.HtmlShape` | crates/exav-core/src/normalize.rs:98-107 | The HTML view never has two spaces together nor other whitespace |
| `TextViews.SqueezeFixed` | crates/exav-core/src/normalize.rs:148-165 | Squeezing changes nothing exactly where a space stands only between two words and there is no capital; squeezing twice is squeezing |
| `TextViews.PaddingInvisible` | crates/exav-core/src/normalize.rs:148-165 | How much whitespace stands at a place, and of what kind, does not change the view |
| `ScriptComments.BlockInvisible` | crates/exav-core/src/normalize.rs:252-259 | A block comment anywhere outside a literal, after any text, gives the view that any whitespace in its place gives |
| `ScriptComments.LineInvisible` | crates/exav-core/src/normalize.rs:260-265 | So does a line comment with its newline |
| `ScriptComments.LiteralKept` | crates/exav-core/src/normalize.rs:233-251 | A literal is kept as it is, comment marks and all, and what follows it is stripped as if it stood alone |
| `Spill.Out.Push` | crates/exav-core/src/spill.rs:85-98 | In place, one byte batched; what the file has and the batch are everything handed over, unless a write was lost |
| `Spill.Out.Append` | crates/exav-core/src/spill.rs:56-61 | In place, a run of bytes batched |
| `Spill.Out.Flush` | crates/exav-core/src/spill.rs:63-71 | In place, the batch handed to the file, dropped after a failure |
| `Spill.Out.Finish` | crates/exav-core/src/spill.rs:74-82 | What is read back is every byte handed over, or an error exactly when a write was lost or the file cannot be read |
| `Spill.SpillStream` | crates/exav-core/src/spill.rs:110-129 | A stream spilled is the whole stream, or an error: a reading one only if the stream has one, a spilling one only if the host lost a write or cannot make or read the file |
| `Collector.RunEnds` | scripts/difftest-scan.py:225-289 | However the threads are scheduled, a run has at most eight steps a file and two a worker, and where nothing can move every file has exactly one row, every worker has left and the failure counter is exact if no message printed in the handler raised, and some file has none if one did |
| `Collector.CollectorDone` | scripts/difftest-scan.py:274-302 | When the collector has counted all rows, whatever the workers are doing, the rows are exactly one for each file and no failure is uncounted |
| `CollectorRows.RowsConserved` | scripts/difftest-scan.py:225-289 | However the threads are scheduled, the rows written and waiting are those posted, in order, and each row a scan ended with, its own verdict or an error, is posted once or still in its worker's hands |
| `CollectorRows.WrittenIsMade` | scripts/difftest-scan.py:274-302 | When the collector has counted all rows, what is written is exactly the rows the scans ended with, in the order posted |
| `Collector.NeverWaitsInVain` | scripts/difftest-scan.py:277-278 | While a row is missing and none is posted some worker can move, so the collector never waits for a row that cannot come, unless a worker has died |
| `Collector.DeadIsMissed` | scripts/difftest-scan.py:254-262 | A worker whose message raised takes its file with it: its row is never written, and the collector waits for ever |
| `Collector.DeathsAreDies` | scripts/difftest-scan.py:254-262 | That is the only way a worker dies |
| `Collector.RunKeeps` | scripts/difftest-scan.py:225-289 | Every reachable state keeps conservation, the lock, the counter, and workers gone only when the queue is empty for good |
| `Collector.StepConserves` | scripts/difftest-scan.py:232-280 | No step loses, repeats or makes up an item: waiting, in hand, posted and written always come to the files to do |
| `Collector.StepLeaves` | scripts/difftest-scan.py:233-237 | A worker leaves only when the work queue is empty, and it stays empty |
| `Collector.StepCounts` | scripts/difftest-scan.py:254-255 | The counter read and written in two steps under the lock loses no failure |
| `Collector.StepNearer` | scripts/difftest-scan.py:232-280 | Every step lowers the steps left |
| `Collector.StuckIsDone` | scripts/difftest-scan.py:225-289 | A state in which nothing can move has every file written once if and only if no worker has died, and then it is the end of the run |
| `ScanCache.RerunRepairs` | scripts/difftest-scan.py:191-223 | After a run, the next scans exactly the files whose every row failed |
| `ScanCache.LoadDone` | scripts/difftest-scan.py:201-208 | The cache holds, for each path, the size of its last row that is a result |
| `ScanCache.MakeTodo` | scripts/difftest-scan.py:213-223 | The files to scan are those listed, measurable and not cached at their size, as often and in the order listed; skipped counts the listed, measurable and cached ones |
| `CardNumbers.OneChangeCaught` | crates/exav-core/src/dlp.rs:172-187 | Any one digit of a passing number changed makes it fail, at any length |
| `CardNumbers.OneDigitPasses` | crates/exav-core/src/dlp.rs:172-187 | At every place exactly one digit makes a number pass |
| `CardNumbers.SwapCaught` | crates/exav-core/src/dlp.rs:172-187 | Two neighbours swapped make a passing number fail, unless and only unless they are alike or are 0 and 9 |
| `CardNumbers.CheckDigit` | crates/exav-core/src/dlp.rs:172-187 | A payload and a check digit pass if and only if the digit makes up to ten what the payload adds from the right, its last digit doubled, the one before not, and so on |
| `CardNumbers.CheckDigitOf` | crates/exav-core/src/dlp.rs:172-187 | Every payload has exactly one check digit |
| `CardNumbers.LastCountsOnce` | crates/exav-core/src/dlp.rs:172-187 | The last digit counts as it is |
| `CardNumbers.LuhnValid` | crates/exav-core/src/dlp.rs:172-187 | The right-to-left loop computes the weighted sum's check |
| `CardNumbers.ReachEnough` | crates/exav-core/src/dlp.rs:251-253 | The bytes the reader asks for decide the answer: more text changes nothing |
| `CardNumbers.CardIff` | crates/exav-core/src/dlp.rs:198-244 | A card is found if and only if the text starts with one: the part read, digits and at most eight separators, has six digits or more, the first six in the range of an issuer with numbers of that length, is not followed by a digit, and passes the check |
| `CardNumbers.CollectReads` | crates/exav-core/src/dlp.rs:199-238 | The two collecting loops stop at the first place where the digits are enough or the next byte is neither digit nor allowed separator |
| `CardNumbers.ReadsOnce` | crates/exav-core/src/dlp.rs:199-238 | There is one such place |
| `CardNumbers.ReadCard` | crates/exav-core/src/dlp.rs:198-244 | The two collecting loops and the tests compute it |
| `CardNumbers.BinFound` | crates/exav-core/src/dlp.rs:159-169 | Stopping at the first range above the prefix misses none |
| `CardNumbers.BinUnique` | crates/exav-core/src/dlp.rs:44-169 | A prefix is in one range at most |
| `CardNumbers.CountCreditCards` | crates/exav-core/src/dlp.rs:256-271 | The count from bounded windows is the count from the whole text |

## Left out

- The floating-point image work of icon.rs (decoding bitmaps, scaling, the Lab distance, the Sobel edge field): the edge image is an arbitrary sequence, and square roots are integer square roots.
- The header checks behind carving (`pe_target`, `pe_header_at`, `elf_at`, `macho_thin_at`, `macho_fat_at`, `archive_at`, `zip_next_header`): arbitrary functions of the offset, so the result holds for any such checks. Substring search is modelled as finding every occurrence from left to right.
- The ELF and Mach-O layout checks beside the PE one: the same walk over header fields, without the tiling.
- Digest computation (`Hashing`, md5, sha1, sha256) and signature line parsing in hashes.rs: digests are given.
- Names as text: a name is a byte sequence.
- The HTTP transport and the text of `Content-Range`: a response is a status, a parsed range, a body and whether it broke off. That an accepted partial response carries the object's bytes from the offset asked for is an assumption of `RangeReader.ReadFaithful` and `RangeReader.RunFaithful`, since no reader could check it.
- The block cache and stepper under `ByteSource`: an object is its bytes, and a window is a slice clipped to the end. The host's file in `Spill` is a sequence of answers to writes, any of which may be a refusal that kept part.
- `Out` for memory and for a spill file is one class with the file optional, in place of a trait with two implementations; the two window-sum loops of the icon metric share one method.
- In the driver, what a scan answers, timing, the collector's progress output and the parsing of result lines: a scan returns any verdict or raises, and rows are records. Steps are atomic where the queue, the lock or the interpreter makes them so; the failure counter is read and written in two steps.
- The 32-bit sum of the Luhn check is unbounded here: a card has at most 19 digits, for which it cannot overflow. The count of social security numbers is not part of this model.
- `is_textual`, the MessagePack database, streamed regular expressions, containers, fuzzy hashes, phishing, the loader: first-match tables, I/O routing or libraries.
- JsRun.NormalizeSound: says nothing of runs that open a call at the cap while a `fromCharCode` is outermost, because there the property fails (`JsCap.CapIsNoDerivation`).
- JsReadBack.WrittenReadsBack: says nothing of regular expressions, slashes, strings that hold a quote, a backslash or a line break, and numbers that are no integers: the code writes all of these as they are, so that some run together with what follows (`JsReadBack.DotsRunTogether`, `JsReadBack.SlashesRunTogether`).
- JsBatch.BatchingInvisible: says nothing of scripts in which an `eval` with no call around it reduces right after a callee or part of one, because there the property fails (`JsReach.EvalSeesBatches`).
- JsLayers.LayersInvisible: stops at the 32 layers the code unrolls.
