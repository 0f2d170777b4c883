# normalizeCivetMap, modelled in Dafny

This project models `normalizeCivetMap` from the Civet Svelte preprocessor fork. The function takes the line-segment map that the Civet compiler produces for a `<script lang="civet">` snippet. It turns that map into mappings from the generated TypeScript snippet back into the host `.svelte` file. It works in four stages:

1. **Collection** (`loop_analysis.dfy`). This stage runs only when the compiled code contains `for\s*(`. A walk over the TypeScript syntax tree records three things:
   - the protected column ranges;
   - the loop "anchors": the variables declared by `for..of`/`for..in` loops, the loop iterables, and the variables declared directly in the loop body;
   - the compiler-generated index names, `^i\d*$`.
2. **Consolidation** (`range_merge.dfy`). Each protected range is widened into the first span on its line that it overlaps or touches. If it touches none, it is appended.
3. **Coalescing** (`coalescer.dfy`). Each generated line's segments are walked in order. A running column pointer and one pending mapping are kept:
   - segments strictly inside a protected span are skipped;
   - segments named after an index variable are skipped;
   - snippet coordinates are translated to host coordinates, including the comma-space adjustment;
   - a four-rule tie-break settles candidates at the same generated column.
4. **Overrides** (`overrides.dfy`). An anchor gets no mapping when any of these holds:
   - its name is an index name;
   - its TS line has no first segment, or that segment has fewer than 4 fields;
   - the host line has no whole-word match for `\b<name>\b`, which is always the case for a store name such as `$items`.

   Otherwise the anchor gets a start and an end mapping on the host line of that first segment. The start points at the leftmost match. The end points at that column plus the name's length.

The remaining files hold shared pieces:
- `host_text.dfy`: what the function uses of JavaScript strings and regular expressions. This covers `split('\n')`, out-of-range indexing, `\s`, `\b`, `for\s*\(`, and the pasted `\b<name>\b` pattern, in which `$` is an end anchor.
- `civet_types.dfy`: the map's shape.
- `normalize.dfy`: the whole function.

Each stage the source runs step by step has two parts:
- **A specification function.** It folds over the input, for example `WalkFrom`, `ConsolidateFrom`, `RunFrom`, `CoalesceFrom` and `OverridesFrom`.
- **A method with the source's loops.** These are `CollectLoopConstructs`, `ConsolidateRanges`, `CoalesceLine` and `NormalizeCivetMap`. Each method is proved equal to its function.

The properties are lemmas about the functions.

### Behaviour of the code worth knowing

- **Comma-space adjustment.** A column that lands on the space of `", "` moves back onto the comma, not forward to the next token. In `"foo(a, b)"`, column 6 becomes 5 (`HostColumnSeparatorExample`).
- **Consolidated spans.** The spans of a line are neither sorted nor guaranteed disjoint. Ranges (0,1), (5,6), (1,5) leave the touching spans (0,5) and (5,6), so column 5 stays unprotected (`TouchingSpansCanRemain`).
- **Parser exceptions.** An exception in the syntax-tree walk does not empty the collected ranges and anchors. Only the identifier-length cache is reset, so the output is the same as for a walk that completed over the same nodes (`ParseFailureSameOutput`).
- **Synthetic-name segments.** A mapping segment with a synthetic name is dropped after the pending-flush check. At a new column, it still flushes the pending mapping.
- **One-field skip segments.** A one-field segment with delta > 1 emits an extra mapping at the advanced column and keeps the pending mapping. It does not close the pending mapping (`SkipSegmentIsMapped`).
- **Emission order.** Mappings are emitted in an order that is not column order (`SkipMappingPrecedesPending`). Sorting is left to the source-map library.
- **Store names.** An anchor named like a Svelte store (`$items`) never gets an override. The `$` is pasted into the regular expression unescaped, where it asserts the end of the line (`StoreNamedAnchorSkipped`).

## Model

| member | source | states |
|---|---|---|
| HostText.SplitLines | builtin-civetman-fork/src/oldMapGen/civetMapToV3.ts:169 | splitting on `'\n'` yields at least one line and no line contains `'\n'` |
| HostText.JoinSplitLines | builtin-civetman-fork/src/oldMapGen/civetMapToV3.ts:169 | joining the split lines with `'\n'` gives back the host text |
| HostText.SplitJoinLines | builtin-civetman-fork/src/oldMapGen/civetMapToV3.ts:169 | splitting the join of newline-free lines gives back those lines |
| HostText.ParenAfterSpacesMeaning | builtin-civetman-fork/src/oldMapGen/civetMapToV3.ts:40 | the scan for `\s*\(` succeeds exactly when some later `(` is preceded only by white space |
| HostText.HasForParen | builtin-civetman-fork/src/oldMapGen/civetMapToV3.ts:40 | the test `/for\s*\(/` on the compiled code, as a scan for `for` followed by white space and `(` |
| HostText.IsJsWhitespace | builtin-civetman-fork/src/oldMapGen/civetMapToV3.ts:275 | the characters that `\s` matches |
| HostText.MatchFrom | builtin-civetman-fork/src/oldMapGen/civetMapToV3.ts:339 | matching the pasted pattern from a position consumes at most the pattern's length and never runs past the end of the line |
| HostText.WholeWordIndexFrom | builtin-civetman-fork/src/oldMapGen/civetMapToV3.ts:339 | the search returns the leftmost position at or after the start where `\b<name>\b` matches, or nothing when no position matches |
| HostText.WholeWordIndex | builtin-civetman-fork/src/oldMapGen/civetMapToV3.ts:339 | `exec` of `\b<name>\b`: a reported index lies within the line and the pattern matches there |
| HostText.WholeWordIndexLiteral | builtin-civetman-fork/src/oldMapGen/civetMapToV3.ts:339 | for a name without `$`, a match is exactly the name's characters with a word boundary on both sides |
| HostText.DollarNameNeverMatches | builtin-civetman-fork/src/oldMapGen/civetMapToV3.ts:339 | a name `$x...` (second character not `$`) matches nowhere in any line |
| HostText.HostColumn | builtin-civetman-fork/src/oldMapGen/civetMapToV3.ts:240-254 | the host column is snippet column plus indent, reduced by exactly one precisely when it is positive, the host character before it is `,` and the one at it is a space |
| HostText.HostColumnSeparatorExample | builtin-civetman-fork/src/oldMapGen/civetMapToV3.ts:249-252 | in `foo(a, b)` column 6 moves to the comma at 5, while column 7 stays |
| LoopAnalysis.ProtectAndAnchorAllAppends | builtin-civetman-fork/src/oldMapGen/civetMapToV3.ts:73-83 | a declaration list appends each identifier, in order, both as a protected range and as an anchor, and changes nothing else |
| LoopAnalysis.ProtectAndAnchorAll | builtin-civetman-fork/src/oldMapGen/civetMapToV3.ts:73-83 | a declaration list only extends the protected ranges and the anchors, and leaves the index names and the length cache alone |
| LoopAnalysis.IsIndexName | builtin-civetman-fork/src/oldMapGen/civetMapToV3.ts:57 | the test `/^i\d*$/` on an identifier's text |
| LoopAnalysis.VisitNode | builtin-civetman-fork/src/oldMapGen/civetMapToV3.ts:51-118 | visiting a node only extends the ranges, the anchors and the index names, and keeps the length cache present or absent |
| LoopAnalysis.WalkFrom | builtin-civetman-fork/src/oldMapGen/civetMapToV3.ts:51-119 | the walk only extends the ranges, the anchors and the index names, and keeps the length cache present or absent |
| LoopAnalysis.Collect | builtin-civetman-fork/src/oldMapGen/civetMapToV3.ts:38-126 | the length cache is absent exactly when the compiled code is missing, lacks `for\s*(`, or the walk threw |
| LoopAnalysis.VisitIdentifierAppends | builtin-civetman-fork/src/oldMapGen/civetMapToV3.ts:52-66 | an identifier adds its range and its name to the index names exactly when it matches `^i\d*$`, and never adds an anchor |
| LoopAnalysis.VisitLoopAppends | builtin-civetman-fork/src/oldMapGen/civetMapToV3.ts:68-116 | a for-of/for-in node appends its initializer declarations, then its iterable, then its body declarations, each as range and anchor |
| LoopAnalysis.VisitNodeAppends | builtin-civetman-fork/src/oldMapGen/civetMapToV3.ts:51-118 | visiting a node appends exactly that node's ranges and anchors and adds exactly its index names |
| LoopAnalysis.WalkFromRanges | builtin-civetman-fork/src/oldMapGen/civetMapToV3.ts:51-119 | the walk's protected ranges are those of the visited nodes, concatenated in visit order |
| LoopAnalysis.WalkFromAnchors | builtin-civetman-fork/src/oldMapGen/civetMapToV3.ts:51-119 | the walk's anchors are the loop identifiers of the visited nodes, in visit order |
| LoopAnalysis.WalkFromIndexNames | builtin-civetman-fork/src/oldMapGen/civetMapToV3.ts:51-119 | the walk's index names are exactly the visited identifiers matching `^i\d*$` |
| LoopAnalysis.LoopIdentsAreProtected | builtin-civetman-fork/src/oldMapGen/civetMapToV3.ts:68-116 | every loop identifier's range is among the protected ranges |
| LoopAnalysis.CollectMeaning | builtin-civetman-fork/src/oldMapGen/civetMapToV3.ts:38-126 | without code containing `for\s*(` nothing is collected; otherwise ranges, anchors and index names are those of the visited nodes, every anchor is protected, and the length cache is absent exactly when the walk threw |
| LoopAnalysis.CollectedIndexNamesMatch | builtin-civetman-fork/src/oldMapGen/civetMapToV3.ts:57-58 | every collected index name matches `^i\d*$`; the empty name is never one |
| LoopAnalysis.ParseFailureKeepsCollected | builtin-civetman-fork/src/oldMapGen/civetMapToV3.ts:120-123 | a walk that threw keeps the ranges, anchors and index names of the same walk completing, and only loses the length cache |
| LoopAnalysis.PushLoopIdents | builtin-civetman-fork/src/oldMapGen/civetMapToV3.ts:73-83 | the push loop extends the ranges and the anchors by exactly the declarations, in order |
| LoopAnalysis.CollectLoopConstructs | builtin-civetman-fork/src/oldMapGen/civetMapToV3.ts:40-126 | the guarded walk with its `catch` computes exactly the collection phase |
| RangeMerge.MergeInto | builtin-civetman-fork/src/oldMapGen/civetMapToV3.ts:136-146 | a merge keeps the span count or adds one span; it adds one exactly when the range touches no span, and the added span is the range itself |
| RangeMerge.Record | builtin-civetman-fork/src/oldMapGen/civetMapToV3.ts:130-147 | recording a range gives its line an entry and leaves every other line's spans unchanged |
| RangeMerge.ConsolidateFrom | builtin-civetman-fork/src/oldMapGen/civetMapToV3.ts:130-147 | the `forEach` over the recorded ranges as a fold: each range is recorded into the table in order |
| RangeMerge.Consolidate | builtin-civetman-fork/src/oldMapGen/civetMapToV3.ts:129-147 | the consolidated table: the fold of every recorded range, in order, from an empty table |
| RangeMerge.IsProtected | builtin-civetman-fork/src/oldMapGen/civetMapToV3.ts:205-208 | a column is protected exactly when it lies strictly inside some span of its line (`start < col < end`); the first and the last column of a span are not |
| RangeMerge.ConsolidateFromPerLine | builtin-civetman-fork/src/oldMapGen/civetMapToV3.ts:129-147 | each line's spans depend only on that line's ranges, merged in recording order; a line has an entry exactly when it had one or gets a range |
| RangeMerge.ConsolidatePerLine | builtin-civetman-fork/src/oldMapGen/civetMapToV3.ts:129-147 | a line's consolidated spans are its own ranges merged in order, and the line has an entry exactly when some range lies on it |
| RangeMerge.MergeIntoCovers | builtin-civetman-fork/src/oldMapGen/civetMapToV3.ts:136-146 | after one merge some span covers the new range and every earlier span lies inside some span |
| RangeMerge.MergeAllCovers | builtin-civetman-fork/src/oldMapGen/civetMapToV3.ts:130-147 | every range merged into a line stays covered by some span after all later merges |
| RangeMerge.ConsolidateCoversRecorded | builtin-civetman-fork/src/oldMapGen/civetMapToV3.ts:129-147 | every recorded range's line has an entry, and the range is contained in one of that line's consolidated spans |
| RangeMerge.ProtectionSurvivesConsolidation | builtin-civetman-fork/src/oldMapGen/civetMapToV3.ts:129-147 | a column strictly inside a recorded range is strictly inside a consolidated span of its line |
| RangeMerge.TouchingSpansCanRemain | builtin-civetman-fork/src/oldMapGen/civetMapToV3.ts:136-146 | the single pass can leave touching spans: (0,1),(5,6),(1,5) give (0,5),(5,6), and column 5 is unprotected |
| RangeMerge.MergeIntoFirstTouching | builtin-civetman-fork/src/oldMapGen/civetMapToV3.ts:136-146 | when `j` is the first span the range touches, the merge widens exactly span `j`; when none touches, it appends the range |
| RangeMerge.MergeIntoOnlyWidens | builtin-civetman-fork/src/oldMapGen/civetMapToV3.ts:136-146 | a merge never narrows a span: the span at each existing position afterwards contains the span that was there |
| RangeMerge.ConsolidateRanges | builtin-civetman-fork/src/oldMapGen/civetMapToV3.ts:129-147 | the `forEach` with its inner scan and in-place widening builds exactly the consolidated table |
| Coalescer.OnSpace | builtin-civetman-fork/src/oldMapGen/civetMapToV3.ts:273-276 | a mapping's host character exists and is matched by `\s`; a position past the line's end counts as not white space |
| Coalescer.SegmentName | builtin-civetman-fork/src/oldMapGen/civetMapToV3.ts:255 | a segment has a name exactly when it has a fifth field, the map has names and the index is in range; the name is one of the map's names |
| Coalescer.Candidate | builtin-civetman-fork/src/oldMapGen/civetMapToV3.ts:240-257 | a mapping segment proposes generated line `tsLine + 1` at the pointer column, host line `startLine + seg[2]`, host column `seg[3] + indent` or one less, and the segment's name |
| Coalescer.Preferred | builtin-civetman-fork/src/oldMapGen/civetMapToV3.ts:271-296 | the new candidate replaces the pending mapping exactly when it is lexicographically smaller on: white space (no before yes), then host line, then host column, then named before unnamed |
| Coalescer.Admit | builtin-civetman-fork/src/oldMapGen/civetMapToV3.ts:255-302 | a candidate with an index name changes nothing; without a pending mapping any other candidate itself, with its generated line and column, becomes pending; a pending mapping keeps its generated position and is replaced exactly when the candidate's name is not an index name and the tie-break prefers the candidate, taking the candidate's host position and name |
| Coalescer.SkipMapping | builtin-civetman-fork/src/oldMapGen/civetMapToV3.ts:215-224 | the extra mapping a multi-column skip emits: the pending mapping's generated line, origin line and name, the new generated column, and the original column advanced by the delta |
| Coalescer.Step | builtin-civetman-fork/src/oldMapGen/civetMapToV3.ts:197-305 | one segment advances the pointer by its delta (empty segments excepted), only appends, at most one mapping and only when the segment's column is unprotected, an empty or protected segment changes neither output nor pending mapping, and a segment with fewer than four fields never changes the pending mapping |
| Coalescer.RunFrom | builtin-civetman-fork/src/oldMapGen/civetMapToV3.ts:197-305 | the segment loop as a fold of `Step` over the segments, in order |
| Coalescer.Finish | builtin-civetman-fork/src/oldMapGen/civetMapToV3.ts:307-315 | the end-of-line flush: the pending mapping, if any, is emitted after everything else |
| Coalescer.WalkedSegments | builtin-civetman-fork/src/oldMapGen/civetMapToV3.ts:179-185 | on a line holding a loop anchor only the first segment is walked; on any other line every segment |
| Coalescer.LineMappings | builtin-civetman-fork/src/oldMapGen/civetMapToV3.ts:175-316 | the mappings one generated line contributes: the walked segments run from the initial state, then flushed |
| Coalescer.RankLessIsStrictOrder | builtin-civetman-fork/src/oldMapGen/civetMapToV3.ts:278-296 | that order is irreflexive, transitive and total on distinct ranks |
| Coalescer.TieBreakKeepsBest | builtin-civetman-fork/src/oldMapGen/civetMapToV3.ts:270-302 | a mapping segment at the pending column emits nothing, keeps the pending column, and leaves a mapping ranked no worse than the old pending mapping and than an admissible candidate |
| Coalescer.StepSound | builtin-civetman-fork/src/oldMapGen/civetMapToV3.ts:197-305 | one segment keeps every emitted and pending mapping on line `tsLine + 1`, outside protected interiors, and without an index name |
| Coalescer.RunSound | builtin-civetman-fork/src/oldMapGen/civetMapToV3.ts:197-305 | the whole segment walk keeps that invariant |
| Coalescer.LineMappingsSound | builtin-civetman-fork/src/oldMapGen/civetMapToV3.ts:175-316 | every mapping of a line has generated line `tsLine + 1`, a column not strictly inside a protected span, and no index name |
| Coalescer.PointerTracksDeltas | builtin-civetman-fork/src/oldMapGen/civetMapToV3.ts:195-237 | the column pointer ends at the sum of the deltas of the non-empty segments, whether they were protected or not |
| Coalescer.StepKeepsPending | builtin-civetman-fork/src/oldMapGen/civetMapToV3.ts:214-235 | a segment never removes emitted mappings; a pending mapping either stays pending at its generated line and column or has been emitted |
| Coalescer.PendingIsEmitted | builtin-civetman-fork/src/oldMapGen/civetMapToV3.ts:226-315 | a pending mapping always reaches the output at its own generated line and column, by a flush or at the end of the line |
| Coalescer.EverySegmentIsMapped | builtin-civetman-fork/src/oldMapGen/civetMapToV3.ts:197-315 | every mapping segment at an unprotected column with a non-index name yields an output mapping at its column (the running delta sum) |
| Coalescer.SkipSegmentIsMapped | builtin-civetman-fork/src/oldMapGen/civetMapToV3.ts:214-224 | a one-field segment skipping more than one column to an unprotected column, with a mapping pending, puts into the line's output the pending mapping moved to that column with its host column advanced by the skip, and the pending mapping stays pending |
| Coalescer.RunAround | builtin-civetman-fork/src/oldMapGen/civetMapToV3.ts:197-305 | the run through segment `i` is one `Step` after the run before it, and the rest of the line continues from that state |
| Coalescer.EmptyLineEmitsNothing | builtin-civetman-fork/src/oldMapGen/civetMapToV3.ts:181-185 | a line without segments contributes no mapping |
| Coalescer.AnchorLineAtMostOne | builtin-civetman-fork/src/oldMapGen/civetMapToV3.ts:179-185 | a line holding an anchor yields at most one mapping, and none when its first segment carries no position |
| Coalescer.AnchorLineKeepsFirstSegment | builtin-civetman-fork/src/oldMapGen/civetMapToV3.ts:179-184 | on a line holding a loop anchor, a position-carrying first segment at an unprotected column and not named after an index variable yields exactly the mapping it proposes |
| Coalescer.SkipMappingPrecedesPending | builtin-civetman-fork/src/oldMapGen/civetMapToV3.ts:214-224 | segments `[0,0,0,0]`, `[3]` emit the skip mapping at column 3 before the pending mapping at column 0 |
| Coalescer.CoalesceLine | builtin-civetman-fork/src/oldMapGen/civetMapToV3.ts:175-316 | the source's segment loop with its `continue`s emits exactly the line's specified mappings |
| Overrides.AnchorHostLine | builtin-civetman-fork/src/oldMapGen/civetMapToV3.ts:329-335 | the host line an anchor's TS line maps to, from its first raw segment |
| Overrides.AnchorMappings | builtin-civetman-fork/src/oldMapGen/civetMapToV3.ts:321-353 | an anchor yields no mapping or exactly two, both named after it on line `line + 1`: the start at the anchor's start column and the end at its end column, `|name|` host columns apart |
| Overrides.AnchorMappingsMeaning | builtin-civetman-fork/src/oldMapGen/civetMapToV3.ts:321-353 | an anchor yields nothing exactly when its name is an index name, its line's first segment has no position, or no whole-word occurrence exists; otherwise the mappings target that host line at the leftmost whole-word occurrence |
| Overrides.StoreNamedAnchorSkipped | builtin-civetman-fork/src/oldMapGen/civetMapToV3.ts:339 | an anchor named `$x...` never yields an override |
| Overrides.OverridesFrom | builtin-civetman-fork/src/oldMapGen/civetMapToV3.ts:321-353 | the override pass only appends to the mappings already there |
| Overrides.OverridesFromAppends | builtin-civetman-fork/src/oldMapGen/civetMapToV3.ts:321-353 | the override pass appends exactly every remaining anchor's mappings, in anchor order |
| Overrides.AnchorsMappingsMembers | builtin-civetman-fork/src/oldMapGen/civetMapToV3.ts:321-353 | a mapping is among the anchors' mappings exactly when it belongs to one anchor's pair |
| Overrides.PairInAnchorsMappings | builtin-civetman-fork/src/oldMapGen/civetMapToV3.ts:321-353 | each anchor's start and end mappings are among the anchors' mappings |
| Normalize.IsAnchorLine | builtin-civetman-fork/src/oldMapGen/civetMapToV3.ts:179 | a generated line holds a loop anchor exactly when some collected anchor lies on it |
| Normalize.CoalesceFrom | builtin-civetman-fork/src/oldMapGen/civetMapToV3.ts:174-317 | the line pass only appends to the mappings already there |
| Normalize.CoalesceFromAppends | builtin-civetman-fork/src/oldMapGen/civetMapToV3.ts:174-317 | the line pass appends exactly every remaining line's mappings, in line order |
| Normalize.LinesMappingsMembers | builtin-civetman-fork/src/oldMapGen/civetMapToV3.ts:174-317 | a mapping is among the lines' mappings exactly when it belongs to one line's mappings |
| Normalize.CoalescedSound | builtin-civetman-fork/src/oldMapGen/civetMapToV3.ts:174-317 | every coalesced mapping lies on a generated line of the map, has no index name, and is not strictly inside any recorded protected range of its line |
| Normalize.NormalizeShape | builtin-civetman-fork/src/oldMapGen/civetMapToV3.ts:163-358 | the file and only source is the host file with its content; the mappings are exactly every line's mappings in line order followed by every anchor's override mappings in anchor order |
| Normalize.NormalizeMap | builtin-civetman-fork/src/oldMapGen/civetMapToV3.ts:163-358 | the file and only source are the host file with its content, and the coalesced mappings come first |
| Normalize.EverySegmentReachesOutput | builtin-civetman-fork/src/oldMapGen/civetMapToV3.ts:197-316 | every mapping segment on a line without anchors, at an unprotected column and not named after an index variable, yields an output mapping on that line at its column |
| Normalize.AnchorLineFirstSegmentReachesOutput | builtin-civetman-fork/src/oldMapGen/civetMapToV3.ts:179-316 | on a line holding a loop anchor, the mapping proposed by an admissible first segment (position-carrying, unprotected, not an index name) is among the output mappings |
| Normalize.OverridesFollowCoalesced | builtin-civetman-fork/src/oldMapGen/civetMapToV3.ts:319-353 | the mappings after the coalesced ones are exactly the anchors' override mappings |
| Normalize.EveryAnchorOverridden | builtin-civetman-fork/src/oldMapGen/civetMapToV3.ts:321-353 | every mapping an anchor yields is in the output, after the coalesced mappings |
| Normalize.NoIndexNamesInOutput | builtin-civetman-fork/src/oldMapGen/civetMapToV3.ts:255-325 | no output mapping, coalesced or override, carries a compiler-generated index name |
| Normalize.ParseFailureSameOutput | builtin-civetman-fork/src/oldMapGen/civetMapToV3.ts:120-123 | a syntax-tree walk that threw gives the same output as the same walk completing |
| Normalize.NoLoopNoSyntaxTree | builtin-civetman-fork/src/oldMapGen/civetMapToV3.ts:38-126 | without code containing `for\s*(` the output is every line coalesced with no protection, and there are no overrides |
| Normalize.NormalizeCivetMap | builtin-civetman-fork/src/oldMapGen/civetMapToV3.ts:20-359 | collecting, consolidating, coalescing every line and injecting the overrides in the source's loops gives exactly the specified output |

## Left out

- **The TypeScript parser.** `ts.createSourceFile`, node kind tests and `getLineAndCharacterOfPosition` are not modelled. The walk is an input: the nodes visited in pre-order, already reduced to identifiers and for-of/for-in loops, with (line, character) positions. An exception is a flag saying the walk stopped after those nodes.
- **The source-map library.** `@jridgewell/gen-mapping` (`GenMapping`, `setSourceContent`, `addMapping`, `toEncodedMap`) is not part of this model. Its sorting, deduplication, `names` table, `version` field and Base64-VLQ `mappings` string are not modelled. The model stops at the ordered list of mappings handed to `addMapping`.
- **Console output.** All `console.log`/`console.warn`/`console.error` calls are dropped, including the block for one fixture file (civetMapToV3.ts:149-161). They only print.
- **The identifier-length cache.** `tsIdentifierLengths` is written but never read. It is modelled only as present or absent.
- **Number semantics.** JavaScript numbers are modelled as unbounded integers. Segment fields are assumed to be integers, with no `NaN`, fractions or sparse arrays. Array holes skipped by `forEach` are not modelled.
- **String indexing.** Strings are sequences of characters. UTF-16 surrogate pairs are not distinguished.
- **Other repository files.** `civetMapLines.ts`, `typescript-plugin-civet.cjs`, the Vite plugin `index.ts`, the worker scripts, `postbuild.mjs` and the configuration files are not part of this model. They are compiler invocation, file-system work and tool configuration around the core.
- **TieBreakKeepsBest:** this covers one segment only. The model does not prove that the mapping finally emitted at a column is the best-ranked of all candidates seen at that column.
