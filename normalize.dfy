/**
 * `normalizeCivetMap`: from the Civet compiler's line-segment map of a snippet
 * to the mappings from the generated TS snippet back into the host `.svelte`
 * file, in the order they are handed to the source-map generator.
 */
module Normalize {
  import opened Wrappers
  import opened CivetTypes
  import opened HostText
  import opened LoopAnalysis
  import opened RangeMerge
  import opened Coalescer
  import opened Overrides

  /** What the function hands back, short of the encoding of `mappings`. */
  datatype NormalizedMap = NormalizedMap(file: string, sources: seq<string>, sourcesContent: seq<string>, mappings: seq<Mapping>)

  /** What every line of the coalescing phase shares. */
  datatype Setting = Setting(
    table: RangeTable,
    anchors: seq<IdentSpan>,
    hostLines: seq<string>,
    startLine: int,
    indent: int,
    names: Option<seq<string>>,
    indexNames: set<string>)

  /** `astLoopPositions.some(pos => pos.line === tsLine)`. */
  predicate IsAnchorLine(anchors: seq<IdentSpan>, tsLine: int) {
    exists k | 0 <= k < |anchors| :: anchors[k].line == tsLine
  }

  function ContextOf(s: Setting, tsLine: int): LineContext {
    LineContext(tsLine, SpansOn(s.table, tsLine), s.hostLines, s.startLine, s.indent, s.names, s.indexNames)
  }

  /** The mappings of generated line `tsLine`. */
  function MappingsOfLine(s: Setting, lines: seq<seq<Segment>>, tsLine: nat): seq<Mapping>
    requires tsLine < |lines|
  {
    LineMappings(ContextOf(s, tsLine), lines[tsLine], IsAnchorLine(s.anchors, tsLine))
  }

  /** `civetMap.lines.forEach(...)` from line `k` on, appending to `acc`. */
  function CoalesceFrom(acc: seq<Mapping>, lines: seq<seq<Segment>>, k: nat, s: Setting): (all: seq<Mapping>)
    ensures acc <= all
    decreases |lines| - k
  {
    if k >= |lines| then acc else CoalesceFrom(acc + MappingsOfLine(s, lines, k), lines, k + 1, s)
  }

  /** The setting the inputs and the collected analysis give. */
  function SettingOf(civetMap: LinesMap, content: string, startLine: int, indent: int, a: Analysis): Setting {
    Setting(Consolidate(a.protectedRanges), a.anchors, SplitLines(content), startLine, indent, civetMap.names, a.indexNames)
  }

  /** The coalesced mappings of all generated lines, in line order. */
  function Coalesced(civetMap: LinesMap, content: string, startLine: int, indent: int, a: Analysis): seq<Mapping> {
    CoalesceFrom([], civetMap.lines, 0, SettingOf(civetMap, content, startLine, indent, a))
  }

  /**
   * The whole function: collect, consolidate, coalesce every line, then add the
   * anchor overrides; `sources` and `sourcesContent` name only the host file.
   */
  function NormalizeMap(civetMap: LinesMap, content: string, startLine: int, indent: int, path: string,
                        code: Option<string>, parse: ParseResult): (r: NormalizedMap)
    ensures r.file == path && r.sources == [path] && r.sourcesContent == [content]
    ensures Coalesced(civetMap, content, startLine, indent, Collect(code, parse)) <= r.mappings
  {
    var a := Collect(code, parse);
    var coalesced := Coalesced(civetMap, content, startLine, indent, a);
    var all := OverridesFrom(coalesced, a.anchors, 0, civetMap.lines, SplitLines(content), startLine, a.indexNames);
    NormalizedMap(path, [path], [content], all)
  }

  // ---------------------------------------------------------------------------
  // Properties
  // ---------------------------------------------------------------------------

  /** The mappings of lines `k` on, concatenated in line order. */
  function LinesMappings(s: Setting, lines: seq<seq<Segment>>, k: nat): seq<Mapping>
    decreases |lines| - k
  {
    if k >= |lines| then [] else MappingsOfLine(s, lines, k) + LinesMappings(s, lines, k + 1)
  }

  /** The line pass appends, after what is already there, every remaining line's mappings in line order. */
  lemma {:induction false} CoalesceFromAppends(acc: seq<Mapping>, lines: seq<seq<Segment>>, k: nat, s: Setting)
    ensures CoalesceFrom(acc, lines, k, s) == acc + LinesMappings(s, lines, k)
    decreases |lines| - k
  {
    if k < |lines| {
      var here := MappingsOfLine(s, lines, k);
      CoalesceFromAppends(acc + here, lines, k + 1, s);
      ConcatAssoc(acc, here, LinesMappings(s, lines, k + 1));
    } else {
      assert acc + [] == acc;
    }
  }

  /** A mapping is among the mappings of lines `k` on exactly when one of those lines emits it. */
  lemma {:induction false} LinesMappingsMembers(s: Setting, lines: seq<seq<Segment>>, k: nat, m: Mapping)
    ensures m in LinesMappings(s, lines, k) <==> exists j: nat | k <= j < |lines| :: m in MappingsOfLine(s, lines, j)
    decreases |lines| - k
  {
    if k < |lines| {
      LinesMappingsMembers(s, lines, k + 1, m);
    }
  }

  /**
   * Every coalesced mapping lies on a generated line of the map, carries no
   * compiler-generated index name, and does not fall strictly inside any
   * protected range recorded for its line.
   */
  lemma CoalescedSound(civetMap: LinesMap, content: string, startLine: int, indent: int, a: Analysis, m: Mapping)
    requires m in Coalesced(civetMap, content, startLine, indent, a)
    ensures 1 <= m.genLine <= |civetMap.lines|
    ensures !IsSyntheticName(a.indexNames, m.name)
    ensures forall r | r in a.protectedRanges && r.line == m.genLine - 1 :: !(r.start < m.genCol < r.end)
  {
    var s := SettingOf(civetMap, content, startLine, indent, a);
    CoalesceFromAppends([], civetMap.lines, 0, s);
    LinesMappingsMembers(s, civetMap.lines, 0, m);
    var j: nat :| j < |civetMap.lines| && m in MappingsOfLine(s, civetMap.lines, j);
    LineMappingsSound(ContextOf(s, j), civetMap.lines[j], IsAnchorLine(s.anchors, j));
    forall r | r in a.protectedRanges && r.line == m.genLine - 1 ensures !(r.start < m.genCol < r.end) {
      if r.start < m.genCol < r.end {
        ProtectionSurvivesConsolidation(a.protectedRanges, r, m.genCol);
        assert false;
      }
    }
  }

  /**
   * The output: the host file is the only source, and the mappings are every
   * line's coalesced mappings in line order followed by every anchor's override
   * mappings in anchor order.
   */
  lemma NormalizeShape(civetMap: LinesMap, content: string, startLine: int, indent: int, path: string,
                       code: Option<string>, parse: ParseResult)
    ensures var out := NormalizeMap(civetMap, content, startLine, indent, path, code, parse);
      && out.file == path && out.sources == [path] && out.sourcesContent == [content]
    ensures var a := Collect(code, parse);
      && Coalesced(civetMap, content, startLine, indent, a)
         == LinesMappings(SettingOf(civetMap, content, startLine, indent, a), civetMap.lines, 0)
      && NormalizeMap(civetMap, content, startLine, indent, path, code, parse).mappings
         == Coalesced(civetMap, content, startLine, indent, a)
            + AnchorsMappings(a.anchors, civetMap.lines, SplitLines(content), startLine, a.indexNames)
  {
    var a := Collect(code, parse);
    CoalesceFromAppends([], civetMap.lines, 0, SettingOf(civetMap, content, startLine, indent, a));
    OverridesFromAppends(Coalesced(civetMap, content, startLine, indent, a), a.anchors, 0, civetMap.lines,
                         SplitLines(content), startLine, a.indexNames);
    assert a.anchors[0..] == a.anchors;
  }

  /**
   * Every mapping segment of a line without anchors, at a column outside the
   * line's protected spans and not named after an index variable, reaches the
   * output as a mapping on that line at its column (the running delta sum).
   */
  lemma EverySegmentReachesOutput(civetMap: LinesMap, content: string, startLine: int, indent: int, path: string,
                                  code: Option<string>, parse: ParseResult, k: nat, i: nat)
    requires k < |civetMap.lines| && i < |civetMap.lines[k]| && |civetMap.lines[k][i]| >= 4
    requires !IsAnchorLine(Collect(code, parse).anchors, k)
    requires !IsProtected(SpansOn(Consolidate(Collect(code, parse).protectedRanges), k), DeltaSum(civetMap.lines[k][..i + 1]))
    requires !IsSyntheticName(Collect(code, parse).indexNames, SegmentName(civetMap.names, civetMap.lines[k][i]))
    ensures exists m | m in NormalizeMap(civetMap, content, startLine, indent, path, code, parse).mappings ::
      m.genLine == k + 1 && m.genCol == DeltaSum(civetMap.lines[k][..i + 1])
  {
    var a := Collect(code, parse);
    var s := SettingOf(civetMap, content, startLine, indent, a);
    var ctx := ContextOf(s, k);
    var col := DeltaSum(civetMap.lines[k][..i + 1]);
    EverySegmentIsMapped(ctx, civetMap.lines[k], i);
    LineMappingsSound(ctx, civetMap.lines[k], false);
    var m :| m in MappingsOfLine(s, civetMap.lines, k) && m.genCol == col;
    LinesMappingsMembers(s, civetMap.lines, 0, m);
    NormalizeShape(civetMap, content, startLine, indent, path, code, parse);
    assert m in NormalizeMap(civetMap, content, startLine, indent, path, code, parse).mappings;
  }

  /**
   * On a line holding a loop anchor, the first segment still reaches the output
   * when it carries a position, lies outside the line's protected spans and is not
   * named after an index variable: the mapping it proposes is among the output
   * mappings.
   */
  lemma AnchorLineFirstSegmentReachesOutput(civetMap: LinesMap, content: string, startLine: int, indent: int, path: string,
                                            code: Option<string>, parse: ParseResult, k: nat)
    requires k < |civetMap.lines| && civetMap.lines[k] != [] && |civetMap.lines[k][0]| >= 4
    requires IsAnchorLine(Collect(code, parse).anchors, k)
    requires !IsProtected(SpansOn(Consolidate(Collect(code, parse).protectedRanges), k), civetMap.lines[k][0][0])
    requires !IsSyntheticName(Collect(code, parse).indexNames, SegmentName(civetMap.names, civetMap.lines[k][0]))
    ensures Candidate(ContextOf(SettingOf(civetMap, content, startLine, indent, Collect(code, parse)), k),
                      civetMap.lines[k][0], civetMap.lines[k][0][0])
            in NormalizeMap(civetMap, content, startLine, indent, path, code, parse).mappings
  {
    var a := Collect(code, parse);
    var s := SettingOf(civetMap, content, startLine, indent, a);
    var cand := Candidate(ContextOf(s, k), civetMap.lines[k][0], civetMap.lines[k][0][0]);
    AnchorLineKeepsFirstSegment(ContextOf(s, k), civetMap.lines[k]);
    assert cand in MappingsOfLine(s, civetMap.lines, k);
    LinesMappingsMembers(s, civetMap.lines, 0, cand);
    NormalizeShape(civetMap, content, startLine, indent, path, code, parse);
  }

  /**
   * Every mapping an anchor yields reaches the output, among the override
   * mappings that follow the coalesced ones. `AnchorMappingsMeaning` says when an
   * anchor yields its start and end pair and where they point.
   */
  lemma EveryAnchorOverridden(civetMap: LinesMap, content: string, startLine: int, indent: int, path: string,
                              code: Option<string>, parse: ParseResult, j: nat)
    requires j < |Collect(code, parse).anchors|
    ensures var a := Collect(code, parse);
      var out := NormalizeMap(civetMap, content, startLine, indent, path, code, parse).mappings;
      var n := |Coalesced(civetMap, content, startLine, indent, a)|;
      && n <= |out|
      && forall m | m in AnchorMappings(a.anchors[j], civetMap.lines, SplitLines(content), startLine, a.indexNames) ::
           m in out[n..]
  {
    var a := Collect(code, parse);
    OverridesFollowCoalesced(civetMap, content, startLine, indent, path, code, parse);
    forall m | m in AnchorMappings(a.anchors[j], civetMap.lines, SplitLines(content), startLine, a.indexNames)
      ensures m in AnchorsMappings(a.anchors, civetMap.lines, SplitLines(content), startLine, a.indexNames)
    {
      PairInAnchorsMappings(a.anchors, j, civetMap.lines, SplitLines(content), startLine, a.indexNames, m);
    }
  }

  /** The mappings after the coalesced ones are exactly the anchors' override mappings. */
  lemma OverridesFollowCoalesced(civetMap: LinesMap, content: string, startLine: int, indent: int, path: string,
                                 code: Option<string>, parse: ParseResult)
    ensures var a := Collect(code, parse);
      var n := |Coalesced(civetMap, content, startLine, indent, a)|;
      var out := NormalizeMap(civetMap, content, startLine, indent, path, code, parse).mappings;
      n <= |out| && out[n..] == AnchorsMappings(a.anchors, civetMap.lines, SplitLines(content), startLine, a.indexNames)
  {
    NormalizeShape(civetMap, content, startLine, indent, path, code, parse);
  }

  /** No emitted mapping, coalesced or override, carries a compiler-generated index name. */
  lemma NoIndexNamesInOutput(civetMap: LinesMap, content: string, startLine: int, indent: int, path: string,
                             code: Option<string>, parse: ParseResult)
    ensures var a := Collect(code, parse);
      forall m | m in NormalizeMap(civetMap, content, startLine, indent, path, code, parse).mappings ::
        !IsSyntheticName(a.indexNames, m.name)
  {
    var a := Collect(code, parse);
    var coalesced := Coalesced(civetMap, content, startLine, indent, a);
    var out := NormalizeMap(civetMap, content, startLine, indent, path, code, parse).mappings;
    NormalizeShape(civetMap, content, startLine, indent, path, code, parse);
    forall m | m in out ensures !IsSyntheticName(a.indexNames, m.name) {
      if m in coalesced {
        CoalescedSound(civetMap, content, startLine, indent, a, m);
      } else {
        AnchorsMappingsMembers(a.anchors, civetMap.lines, SplitLines(content), startLine, a.indexNames, m);
      }
    }
  }

  /** A walk that threw gives exactly the output of the same walk completing: only the unused length cache differs. */
  lemma ParseFailureSameOutput(civetMap: LinesMap, content: string, startLine: int, indent: int, path: string,
                               code: Option<string>, visited: seq<TsNode>)
    ensures NormalizeMap(civetMap, content, startLine, indent, path, code, ParseResult(visited, true))
         == NormalizeMap(civetMap, content, startLine, indent, path, code, ParseResult(visited, false))
  {
    ParseFailureKeepsCollected(code, visited);
  }

  /**
   * Without compiled code containing `for\s*\(` the syntax tree is not consulted:
   * there are no overrides, nothing is protected, and every line is coalesced in full.
   */
  lemma NoLoopNoSyntaxTree(civetMap: LinesMap, content: string, startLine: int, indent: int, path: string,
                           code: Option<string>, parse: ParseResult)
    requires !(code.Some? && HasForParen(code.value))
    ensures NormalizeMap(civetMap, content, startLine, indent, path, code, parse).mappings
         == CoalesceFrom([], civetMap.lines, 0, Setting(map[], [], SplitLines(content), startLine, indent, civetMap.names, {}))
  {
    CollectMeaning(code, parse);
    assert Consolidate([]) == map[];
  }

  // ---------------------------------------------------------------------------
  // The function as the source runs it
  // ---------------------------------------------------------------------------

  method NormalizeCivetMap(civetMap: LinesMap, content: string, startLine: int, indent: int, path: string,
                           code: Option<string>, parse: ParseResult)
    returns (result: NormalizedMap)
    ensures result == NormalizeMap(civetMap, content, startLine, indent, path, code, parse)
  {
    var analysis := CollectLoopConstructs(code, parse);
    var table := ConsolidateRanges(analysis.protectedRanges);
    var hostLines := SplitLines(content);
    var s := Setting(table, analysis.anchors, hostLines, startLine, indent, civetMap.names, analysis.indexNames);
    assert s == SettingOf(civetMap, content, startLine, indent, analysis);
    var out: seq<Mapping> := [];
    for k := 0 to |civetMap.lines|
      invariant CoalesceFrom(out, civetMap.lines, k, s) == Coalesced(civetMap, content, startLine, indent, analysis)
    {
      var anchorLine := IsAnchorLine(analysis.anchors, k);
      var ctx := LineContext(k, SpansOn(table, k), hostLines, startLine, indent, civetMap.names, analysis.indexNames);
      var lineOut := CoalesceLine(ctx, civetMap.lines[k], anchorLine);
      out := out + lineOut;
    }
    ghost var coalesced := out;
    var anchors := analysis.anchors;
    for k := 0 to |anchors|
      invariant OverridesFrom(out, anchors, k, civetMap.lines, hostLines, startLine, analysis.indexNames)
             == OverridesFrom(coalesced, anchors, 0, civetMap.lines, hostLines, startLine, analysis.indexNames)
    {
      out := out + AnchorMappings(anchors[k], civetMap.lines, hostLines, startLine, analysis.indexNames);
    }
    result := NormalizedMap(path, [path], [content], out);
  }
}
