/**
 * The anchor overrides of `normalizeCivetMap`: for each loop identifier found in
 * the syntax tree, a start and an end mapping to the identifier's whole-word
 * occurrence in the host line that the first raw segment of its TS line points at.
 */
module Overrides {
  import opened Wrappers
  import opened CivetTypes
  import opened HostText
  import opened LoopAnalysis

  /** `civetMap.lines[tsLine] || []`. */
  function RawSegments(lines: seq<seq<Segment>>, tsLine: int): seq<Segment> {
    if 0 <= tsLine < |lines| then lines[tsLine] else []
  }

  /** The host line (1-based) an anchor's TS line maps to, when its first raw segment carries a position. */
  function AnchorHostLine(lines: seq<seq<Segment>>, tsLine: int, startLine: int): Option<int> {
    var raw := RawSegments(lines, tsLine);
    if |raw| == 0 || |raw[0]| < 4 then None else Some(startLine + raw[0][2])
  }

  /** The mappings one anchor contributes: none, or its start and its end, in that order. */
  function AnchorMappings(anchor: IdentSpan, lines: seq<seq<Segment>>, hostLines: seq<string>,
                          startLine: int, indexNames: set<string>): (r: seq<Mapping>)
    ensures |r| == 0 || |r| == 2
    ensures |r| == 2 ==>
      && r[0] == Mapping(anchor.line + 1, anchor.start, r[0].origLine, r[0].origCol, Some(anchor.name))
      && r[1] == Mapping(anchor.line + 1, anchor.end, r[0].origLine, r[0].origCol + |anchor.name|, Some(anchor.name))
  {
    if anchor.name in indexNames then []
    else
      var hostLine := AnchorHostLine(lines, anchor.line, startLine);
      if hostLine.None? then []
      else
        var text := LineAt(hostLines, hostLine.value - 1);
        var found := WholeWordIndex(text, anchor.name);
        if found.None? then []
        else
          var origLine := hostLine.value;
          var origCol := found.value;
          [Mapping(anchor.line + 1, anchor.start, origLine, origCol, Some(anchor.name)),
           Mapping(anchor.line + 1, anchor.end, origLine, origCol + |anchor.name|, Some(anchor.name))]
  }

  /**
   * An anchor is skipped exactly when its name is an index name, its TS line has
   * no position-carrying first segment, or the name has no whole-word occurrence
   * in the host line; otherwise both mappings point at that host line and at the
   * leftmost whole-word occurrence, which for a plain name (no `$`) is the name
   * itself delimited by word boundaries.
   */
  lemma AnchorMappingsMeaning(anchor: IdentSpan, lines: seq<seq<Segment>>, hostLines: seq<string>,
                              startLine: int, indexNames: set<string>)
    ensures var r := AnchorMappings(anchor, lines, hostLines, startLine, indexNames);
      var hostLine := AnchorHostLine(lines, anchor.line, startLine);
      r == [] <==>
        anchor.name in indexNames || hostLine.None?
        || WholeWordIndex(LineAt(hostLines, hostLine.value - 1), anchor.name).None?
    ensures var r := AnchorMappings(anchor, lines, hostLines, startLine, indexNames);
      var hostLine := AnchorHostLine(lines, anchor.line, startLine);
      r != [] ==>
        var text := LineAt(hostLines, hostLine.value - 1);
        && r[0].origLine == hostLine.value
        && WholeWordAt(text, anchor.name, r[0].origCol)
        && (forall j: nat :: j < r[0].origCol ==> !WholeWordAt(text, anchor.name, j))
        && ('$' !in anchor.name ==>
             r[1].origCol <= |text| && text[r[0].origCol..r[1].origCol] == anchor.name
             && IsBoundary(text, r[0].origCol) && IsBoundary(text, r[1].origCol))
  {
    var hostLine := AnchorHostLine(lines, anchor.line, startLine);
    if anchor.name !in indexNames && hostLine.Some? && '$' !in anchor.name {
      WholeWordIndexLiteral(LineAt(hostLines, hostLine.value - 1), anchor.name);
    }
  }

  /** A Svelte store name such as `$items` never gets an override: the pasted `$` anchors the pattern at the line end. */
  lemma StoreNamedAnchorSkipped(anchor: IdentSpan, lines: seq<seq<Segment>>, hostLines: seq<string>,
                                startLine: int, indexNames: set<string>)
    requires |anchor.name| >= 2 && anchor.name[0] == '$' && anchor.name[1] != '$'
    ensures AnchorMappings(anchor, lines, hostLines, startLine, indexNames) == []
  {
    var hostLine := AnchorHostLine(lines, anchor.line, startLine);
    if anchor.name !in indexNames && hostLine.Some? {
      DollarNameNeverMatches(LineAt(hostLines, hostLine.value - 1), anchor.name);
    }
  }

  /** `astLoopPositions.forEach(...)` from the `k`-th anchor on, appending to `acc`. */
  function OverridesFrom(acc: seq<Mapping>, anchors: seq<IdentSpan>, k: nat, lines: seq<seq<Segment>>,
                         hostLines: seq<string>, startLine: int, indexNames: set<string>): (all: seq<Mapping>)
    ensures acc <= all
    decreases |anchors| - k
  {
    if k >= |anchors| then acc
    else OverridesFrom(acc + AnchorMappings(anchors[k], lines, hostLines, startLine, indexNames),
                       anchors, k + 1, lines, hostLines, startLine, indexNames)
  }

  /** Every anchor's mappings, concatenated in anchor order. */
  function AnchorsMappings(anchors: seq<IdentSpan>, lines: seq<seq<Segment>>, hostLines: seq<string>,
                           startLine: int, indexNames: set<string>): seq<Mapping>
    decreases |anchors|
  {
    if anchors == [] then []
    else AnchorMappings(anchors[0], lines, hostLines, startLine, indexNames)
         + AnchorsMappings(anchors[1..], lines, hostLines, startLine, indexNames)
  }

  /** The override pass appends, after what is already there, every remaining anchor's mappings in anchor order. */
  lemma {:induction false} OverridesFromAppends(acc: seq<Mapping>, anchors: seq<IdentSpan>, k: nat, lines: seq<seq<Segment>>,
                                                hostLines: seq<string>, startLine: int, indexNames: set<string>)
    requires k <= |anchors|
    ensures OverridesFrom(acc, anchors, k, lines, hostLines, startLine, indexNames)
         == acc + AnchorsMappings(anchors[k..], lines, hostLines, startLine, indexNames)
    decreases |anchors| - k
  {
    if k < |anchors| {
      var pair := AnchorMappings(anchors[k], lines, hostLines, startLine, indexNames);
      OverridesFromAppends(acc + pair, anchors, k + 1, lines, hostLines, startLine, indexNames);
      assert anchors[k..][0] == anchors[k] && anchors[k..][1..] == anchors[k + 1..];
      ConcatAssoc(acc, pair, AnchorsMappings(anchors[k + 1..], lines, hostLines, startLine, indexNames));
    } else {
      assert anchors[k..] == [];
      assert acc + [] == acc;
    }
  }

  /** A mapping is among the anchors' mappings exactly when it belongs to the pair of one of them. */
  lemma {:induction false} AnchorsMappingsMembers(anchors: seq<IdentSpan>, lines: seq<seq<Segment>>, hostLines: seq<string>,
                                                  startLine: int, indexNames: set<string>, m: Mapping)
    ensures m in AnchorsMappings(anchors, lines, hostLines, startLine, indexNames) <==>
      exists j | 0 <= j < |anchors| :: m in AnchorMappings(anchors[j], lines, hostLines, startLine, indexNames)
    decreases |anchors|
  {
    if anchors != [] {
      AnchorsMappingsMembers(anchors[1..], lines, hostLines, startLine, indexNames, m);
      if exists j | 0 <= j < |anchors| :: m in AnchorMappings(anchors[j], lines, hostLines, startLine, indexNames) {
        var j :| 0 <= j < |anchors| && m in AnchorMappings(anchors[j], lines, hostLines, startLine, indexNames);
        if j > 0 {
          assert anchors[1..][j - 1] == anchors[j];
        }
      }
      if m in AnchorsMappings(anchors[1..], lines, hostLines, startLine, indexNames) {
        var j :| 0 <= j < |anchors[1..]| && m in AnchorMappings(anchors[1..][j], lines, hostLines, startLine, indexNames);
        assert anchors[j + 1] == anchors[1..][j];
      }
    }
  }

  /** The pair of the `j`-th anchor is among the anchors' mappings. */
  lemma {:induction false} PairInAnchorsMappings(anchors: seq<IdentSpan>, j: nat, lines: seq<seq<Segment>>, hostLines: seq<string>,
                                                 startLine: int, indexNames: set<string>, m: Mapping)
    requires j < |anchors| && m in AnchorMappings(anchors[j], lines, hostLines, startLine, indexNames)
    ensures m in AnchorsMappings(anchors, lines, hostLines, startLine, indexNames)
    decreases j
  {
    if j > 0 {
      assert anchors[1..][j - 1] == anchors[j];
      PairInAnchorsMappings(anchors[1..], j - 1, lines, hostLines, startLine, indexNames, m);
    }
  }
}
