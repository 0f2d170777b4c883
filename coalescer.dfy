/**
 * The per-line coalescer of `normalizeCivetMap`: the segments of one generated
 * TS line are walked left to right with a running column pointer and at most
 * one pending mapping; the pending mapping is emitted when a mapping segment
 * arrives at another column and at the end of the line.
 */
module Coalescer {
  import opened Wrappers
  import opened CivetTypes
  import opened HostText
  import opened RangeMerge

  /** What stays fixed while one generated line is coalesced. */
  datatype LineContext = LineContext(
    tsLine: int,                 // 0-based generated TS line
    spans: seq<Span>,            // consolidated protected spans of that line
    hostLines: seq<string>,      // the host file split on '\n'
    startLine: int,              // 1-based host line where the snippet starts
    indent: int,                 // indentation removed from the snippet
    names: Option<seq<string>>,  // the map's `names` table, when present
    indexNames: set<string>)     // compiler-generated index names

  /** The column pointer, the pending mapping, and the mappings emitted so far on this line. */
  datatype LineState = LineState(pointer: int, pending: Option<Mapping>, out: seq<Mapping>)

  const Start := LineState(0, None, [])

  /** `civetSeg.length >= 5 && civetMap.names ? civetMap.names[civetSeg[4]] : undefined`. */
  function SegmentName(names: Option<seq<string>>, seg: Segment): (name: Option<string>)
    ensures name.Some? <==> |seg| >= 5 && names.Some? && 0 <= seg[4] < |names.value|
    ensures name.Some? ==> name.value in names.value
  {
    if |seg| >= 5 && names.Some? && 0 <= seg[4] < |names.value| then Some(names.value[seg[4]]) else None
  }

  /** The mapping a position-carrying segment proposes at generated column `col`. */
  function Candidate(ctx: LineContext, seg: Segment, col: int): (cand: Mapping)
    requires |seg| >= 4
    ensures cand.genLine == ctx.tsLine + 1 && cand.genCol == col
    ensures cand.origLine == ctx.startLine + seg[2]
    ensures cand.origCol == seg[3] + ctx.indent || cand.origCol == seg[3] + ctx.indent - 1
    ensures cand.name == SegmentName(ctx.names, seg)
  {
    var origLine := ctx.startLine + seg[2];
    Mapping(ctx.tsLine + 1, col, origLine,
            HostColumn(LineAt(ctx.hostLines, origLine - 1), seg[3], ctx.indent),
            SegmentName(ctx.names, seg))
  }

  /** The host character at a mapping's original position is white space (out of range is not). */
  predicate OnSpace(hostLines: seq<string>, m: Mapping) {
    var c := CharAt(LineAt(hostLines, m.origLine - 1), m.origCol);
    c.Some? && IsJsWhitespace(c.value)
  }

  /**
   * The tie-break between a new candidate and the pending mapping at the same
   * generated column: the candidate wins exactly when it ranks strictly lower.
   */
  predicate Preferred(hostLines: seq<string>, cand: Mapping, pending: Mapping): (preferred: bool)
    ensures preferred <==> RankLess(RankOf(hostLines, cand), RankOf(hostLines, pending))
  {
    var newSpace := OnSpace(hostLines, cand);
    var pendingSpace := OnSpace(hostLines, pending);
    if pendingSpace && !newSpace then true
    else if !pendingSpace && newSpace then false
    else if cand.origLine == pending.origLine then
      cand.origCol < pending.origCol || (cand.origCol == pending.origCol && Truthy(cand.name) && !Truthy(pending.name))
    else cand.origLine < pending.origLine
  }

  /** A candidate is admitted unless its name is synthetic; against a pending mapping the tie-break decides. */
  function Admit(ctx: LineContext, pending: Option<Mapping>, cand: Mapping): (kept: Option<Mapping>)
    ensures pending.None? ==> (kept.Some? <==> !IsSyntheticName(ctx.indexNames, cand.name))
    ensures pending.Some? ==>
      kept.Some? && kept.value.genLine == pending.value.genLine && kept.value.genCol == pending.value.genCol
    ensures kept != pending ==>
      && kept.Some? && !IsSyntheticName(ctx.indexNames, kept.value.name)
      && kept.value.origLine == cand.origLine && kept.value.origCol == cand.origCol && kept.value.name == cand.name
    ensures pending.None? && !IsSyntheticName(ctx.indexNames, cand.name) ==> kept == Some(cand)
    ensures pending.Some? ==>
      (kept != pending <==> !IsSyntheticName(ctx.indexNames, cand.name) && Preferred(ctx.hostLines, cand, pending.value))
  {
    if IsSyntheticName(ctx.indexNames, cand.name) then pending
    else if pending.None? then Some(cand)
    else if Preferred(ctx.hostLines, cand, pending.value) then
      Some(pending.value.(origLine := cand.origLine, origCol := cand.origCol, name := cand.name))
    else pending
  }

  /** The extra mapping a one-field segment skipping more than one column emits for the pending mapping. */
  function SkipMapping(p: Mapping, col: int, delta: int): Mapping {
    Mapping(p.genLine, col, p.origLine, p.origCol + delta, p.name)
  }

  /** One iteration of the segment loop. */
  function Step(ctx: LineContext, st: LineState, seg: Segment): (next: LineState)
    ensures next.pointer == st.pointer + (if |seg| == 0 then 0 else seg[0])
    ensures st.out <= next.out && |next.out| <= |st.out| + 1
    ensures |next.out| > |st.out| ==> !IsProtected(ctx.spans, next.pointer)
    ensures |seg| == 0 || IsProtected(ctx.spans, next.pointer) ==> next.out == st.out && next.pending == st.pending
    ensures |seg| < 4 ==> next.pending == st.pending
  {
    if |seg| == 0 then st
    else
      var col := st.pointer + seg[0];
      if IsProtected(ctx.spans, col) then st.(pointer := col)
      else
        var out1 := if st.pending.Some? && |seg| == 1 && seg[0] > 1
          then st.out + [SkipMapping(st.pending.value, col, seg[0])] else st.out;
        if |seg| < 4 then LineState(col, st.pending, out1)
        else
          var flush := st.pending.Some? && col != st.pending.value.genCol;
          var out2 := if flush then out1 + [st.pending.value] else out1;
          var pending := if flush then None else st.pending;
          LineState(col, Admit(ctx, pending, Candidate(ctx, seg, col)), out2)
  }

  function RunFrom(ctx: LineContext, st: LineState, segs: seq<Segment>): LineState
    decreases |segs|
  {
    if segs == [] then st else RunFrom(ctx, Step(ctx, st, segs[0]), segs[1..])
  }

  /** The end-of-line flush. */
  function Finish(st: LineState): seq<Mapping> {
    if st.pending.Some? then st.out + [st.pending.value] else st.out
  }

  /** The segments actually walked: only the first one on a line that holds a loop anchor. */
  function WalkedSegments(lineSegs: seq<Segment>, anchorLine: bool): seq<Segment> {
    if anchorLine && |lineSegs| > 0 then [lineSegs[0]] else lineSegs
  }

  /** The mappings one generated line contributes, in emission order. */
  function LineMappings(ctx: LineContext, lineSegs: seq<Segment>, anchorLine: bool): seq<Mapping> {
    Finish(RunFrom(ctx, Start, WalkedSegments(lineSegs, anchorLine)))
  }

  // ---------------------------------------------------------------------------
  // The tie-break is a lexicographic order
  // ---------------------------------------------------------------------------

  /** The key the tie-break compares: white space last, then earlier line, smaller column, named first. */
  datatype Rank = Rank(space: int, line: int, col: int, unnamed: int)

  function RankOf(hostLines: seq<string>, m: Mapping): Rank {
    Rank(if OnSpace(hostLines, m) then 1 else 0, m.origLine, m.origCol, if Truthy(m.name) then 0 else 1)
  }

  predicate RankLess(a: Rank, b: Rank) {
    a.space < b.space
    || (a.space == b.space && a.line < b.line)
    || (a.space == b.space && a.line == b.line && a.col < b.col)
    || (a.space == b.space && a.line == b.line && a.col == b.col && a.unnamed < b.unnamed)
  }

  /** `RankLess` is a strict total order on ranks. */
  lemma RankLessIsStrictOrder(a: Rank, b: Rank, c: Rank)
    ensures !RankLess(a, a)
    ensures RankLess(a, b) && RankLess(b, c) ==> RankLess(a, c)
    ensures a != b ==> RankLess(a, b) || RankLess(b, a)
  {
  }

  /**
   * At the column of the pending mapping, a position-carrying segment never makes
   * the pending mapping worse: the kept mapping ranks no worse than the old
   * pending mapping, and no worse than the candidate unless the candidate's
   * name is synthetic.
   */
  lemma TieBreakKeepsBest(ctx: LineContext, st: LineState, seg: Segment)
    requires |seg| >= 4 && st.pending.Some?
    requires st.pointer + seg[0] == st.pending.value.genCol
    requires !IsProtected(ctx.spans, st.pointer + seg[0])
    ensures Step(ctx, st, seg).pending.Some?
    ensures Step(ctx, st, seg).pending.value.genCol == st.pending.value.genCol
    ensures Step(ctx, st, seg).out == st.out
    ensures var kept := RankOf(ctx.hostLines, Step(ctx, st, seg).pending.value);
      !RankLess(RankOf(ctx.hostLines, st.pending.value), kept)
    ensures var cand := Candidate(ctx, seg, st.pointer + seg[0]);
      !IsSyntheticName(ctx.indexNames, cand.name) ==>
      !RankLess(RankOf(ctx.hostLines, cand), RankOf(ctx.hostLines, Step(ctx, st, seg).pending.value))
  {
    var p := st.pending.value;
    var cand := Candidate(ctx, seg, st.pointer + seg[0]);
    if !IsSyntheticName(ctx.indexNames, cand.name) && Preferred(ctx.hostLines, cand, p) {
      var q := p.(origLine := cand.origLine, origCol := cand.origCol, name := cand.name);
      assert RankOf(ctx.hostLines, q) == RankOf(ctx.hostLines, cand);
      RankLessIsStrictOrder(RankOf(ctx.hostLines, cand), RankOf(ctx.hostLines, p), RankOf(ctx.hostLines, p));
    }
  }

  // ---------------------------------------------------------------------------
  // Soundness: what every emitted mapping satisfies
  // ---------------------------------------------------------------------------

  /** On the current line, outside every protected interior, and not named after an index variable. */
  predicate Sound(ctx: LineContext, m: Mapping) {
    m.genLine == ctx.tsLine + 1 && !IsProtected(ctx.spans, m.genCol) && !IsSyntheticName(ctx.indexNames, m.name)
  }

  predicate StateSound(ctx: LineContext, st: LineState) {
    (forall m | m in st.out :: Sound(ctx, m)) && (st.pending.Some? ==> Sound(ctx, st.pending.value))
  }

  lemma StepSound(ctx: LineContext, st: LineState, seg: Segment)
    requires StateSound(ctx, st)
    ensures StateSound(ctx, Step(ctx, st, seg))
  {
  }

  lemma {:induction false} RunSound(ctx: LineContext, st: LineState, segs: seq<Segment>)
    requires StateSound(ctx, st)
    ensures StateSound(ctx, RunFrom(ctx, st, segs))
    decreases |segs|
  {
    if segs != [] {
      StepSound(ctx, st, segs[0]);
      RunSound(ctx, Step(ctx, st, segs[0]), segs[1..]);
    }
  }

  /**
   * Every mapping of a line is on generated line `tsLine + 1`, lies at no column
   * strictly inside a protected span, and does not carry a compiler-generated
   * index name.
   */
  lemma LineMappingsSound(ctx: LineContext, lineSegs: seq<Segment>, anchorLine: bool)
    ensures forall m | m in LineMappings(ctx, lineSegs, anchorLine) :: Sound(ctx, m)
  {
    RunSound(ctx, Start, WalkedSegments(lineSegs, anchorLine));
  }

  // ---------------------------------------------------------------------------
  // The column pointer is the running sum of the deltas
  // ---------------------------------------------------------------------------

  /** The sum of the column deltas of the non-empty segments. */
  function DeltaSum(segs: seq<Segment>): int
    decreases |segs|
  {
    if segs == [] then 0 else (if |segs[0]| == 0 then 0 else segs[0][0]) + DeltaSum(segs[1..])
  }

  lemma {:induction false} DeltaSumConcat(a: seq<Segment>, b: seq<Segment>)
    ensures DeltaSum(a + b) == DeltaSum(a) + DeltaSum(b)
    decreases |a|
  {
    if a != [] {
      assert (a + b)[1..] == a[1..] + b;
      DeltaSumConcat(a[1..], b);
    } else {
      assert a + b == b;
    }
  }

  /** Protected or not, mapping or not, every non-empty segment advances the pointer by its delta. */
  lemma {:induction false} PointerTracksDeltas(ctx: LineContext, st: LineState, segs: seq<Segment>)
    ensures RunFrom(ctx, st, segs).pointer == st.pointer + DeltaSum(segs)
    decreases |segs|
  {
    if segs != [] {
      PointerTracksDeltas(ctx, Step(ctx, st, segs[0]), segs[1..]);
    }
  }

  // ---------------------------------------------------------------------------
  // Completeness: every admitted segment is represented in the output
  // ---------------------------------------------------------------------------

  lemma {:induction false} RunSplit(ctx: LineContext, st: LineState, a: seq<Segment>, b: seq<Segment>)
    ensures RunFrom(ctx, st, a + b) == RunFrom(ctx, RunFrom(ctx, st, a), b)
    decreases |a|
  {
    if a != [] {
      assert (a + b)[1..] == a[1..] + b;
      RunSplit(ctx, Step(ctx, st, a[0]), a[1..], b);
    } else {
      assert a + b == b;
    }
  }

  /** Emitted mappings are never taken back, and a pending mapping is either still pending or emitted. */
  lemma StepKeepsPending(ctx: LineContext, st: LineState, seg: Segment)
    ensures st.out <= Step(ctx, st, seg).out
    ensures st.pending.Some? ==>
      (&& Step(ctx, st, seg).pending.Some?
       && Step(ctx, st, seg).pending.value.genLine == st.pending.value.genLine
       && Step(ctx, st, seg).pending.value.genCol == st.pending.value.genCol)
      || st.pending.value in Step(ctx, st, seg).out
  {
  }

  lemma {:induction false} OutGrows(ctx: LineContext, st: LineState, segs: seq<Segment>)
    ensures st.out <= RunFrom(ctx, st, segs).out
    decreases |segs|
  {
    if segs != [] {
      StepKeepsPending(ctx, st, segs[0]);
      OutGrows(ctx, Step(ctx, st, segs[0]), segs[1..]);
    }
  }

  /** A pending mapping leaves the line as a mapping at its own generated line and column. */
  lemma {:induction false} PendingIsEmitted(ctx: LineContext, st: LineState, segs: seq<Segment>)
    requires st.pending.Some?
    ensures exists m | m in Finish(RunFrom(ctx, st, segs)) ::
      m.genLine == st.pending.value.genLine && m.genCol == st.pending.value.genCol
    decreases |segs|
  {
    if segs == [] {
      assert RunFrom(ctx, st, segs) == st;
      assert st.pending.value in Finish(st);
    } else {
      var next := Step(ctx, st, segs[0]);
      StepKeepsPending(ctx, st, segs[0]);
      if next.pending.Some? && next.pending.value.genLine == st.pending.value.genLine
         && next.pending.value.genCol == st.pending.value.genCol {
        PendingIsEmitted(ctx, next, segs[1..]);
      } else {
        OutGrows(ctx, next, segs[1..]);
        assert st.pending.value in RunFrom(ctx, next, segs[1..]).out;
        assert st.pending.value in Finish(RunFrom(ctx, next, segs[1..]));
      }
    }
  }

  /**
   * Every position-carrying segment at an unprotected column whose name is not
   * synthetic yields a mapping at its generated column, the running sum of the
   * deltas up to and including it.
   */
  lemma EverySegmentIsMapped(ctx: LineContext, segs: seq<Segment>, i: int)
    requires 0 <= i < |segs| && |segs[i]| >= 4
    requires !IsProtected(ctx.spans, DeltaSum(segs[..i + 1]))
    requires !IsSyntheticName(ctx.indexNames, SegmentName(ctx.names, segs[i]))
    ensures exists m | m in Finish(RunFrom(ctx, Start, segs)) :: m.genCol == DeltaSum(segs[..i + 1])
  {
    var before := RunFrom(ctx, Start, segs[..i]);
    PointerTracksDeltas(ctx, Start, segs[..i]);
    assert segs[..i + 1] == segs[..i] + [segs[i]];
    DeltaSumConcat(segs[..i], [segs[i]]);
    assert DeltaSum([segs[i]]) == segs[i][0];
    var after := Step(ctx, before, segs[i]);
    assert after.pending.Some? && after.pending.value.genCol == DeltaSum(segs[..i + 1]);
    assert segs == segs[..i] + ([segs[i]] + segs[i + 1..]);
    RunSplit(ctx, Start, segs[..i], [segs[i]] + segs[i + 1..]);
    assert RunFrom(ctx, before, [segs[i]] + segs[i + 1..]) == RunFrom(ctx, after, segs[i + 1..]);
    PendingIsEmitted(ctx, after, segs[i + 1..]);
  }

  /**
   * A one-field segment that skips more than one column to an unprotected
   * column, while a mapping is pending, emits the pending mapping extended to
   * that column: same generated line, origin and name, the generated column
   * the running delta sum, the original column advanced by the skip.
   */
  lemma SkipSegmentIsMapped(ctx: LineContext, segs: seq<Segment>, i: int)
    requires 0 <= i < |segs| && |segs[i]| == 1 && segs[i][0] > 1
    requires !IsProtected(ctx.spans, DeltaSum(segs[..i + 1]))
    requires RunFrom(ctx, Start, segs[..i]).pending.Some?
    ensures SkipMapping(RunFrom(ctx, Start, segs[..i]).pending.value, DeltaSum(segs[..i + 1]), segs[i][0])
            in Finish(RunFrom(ctx, Start, segs))
    ensures RunFrom(ctx, Start, segs[..i + 1]).pending == RunFrom(ctx, Start, segs[..i]).pending
  {
    var before := RunFrom(ctx, Start, segs[..i]);
    var col := DeltaSum(segs[..i + 1]);
    var skip := SkipMapping(before.pending.value, col, segs[i][0]);
    PointerTracksDeltas(ctx, Start, segs[..i]);
    assert segs[..i + 1] == segs[..i] + [segs[i]];
    DeltaSumConcat(segs[..i], [segs[i]]);
    assert DeltaSum([segs[i]]) == segs[i][0];
    var after := Step(ctx, before, segs[i]);
    assert skip in after.out;
    RunAround(ctx, segs, i);
    OutGrows(ctx, after, segs[i + 1..]);
    assert skip in RunFrom(ctx, after, segs[i + 1..]).out;
  }

  /** The run up to and including segment `i` is one step after the run before it, and the rest of the run continues from there. */
  lemma RunAround(ctx: LineContext, segs: seq<Segment>, i: int)
    requires 0 <= i < |segs|
    ensures RunFrom(ctx, Start, segs[..i + 1]) == Step(ctx, RunFrom(ctx, Start, segs[..i]), segs[i])
    ensures RunFrom(ctx, Start, segs) == RunFrom(ctx, Step(ctx, RunFrom(ctx, Start, segs[..i]), segs[i]), segs[i + 1..])
  {
    var before := RunFrom(ctx, Start, segs[..i]);
    var after := Step(ctx, before, segs[i]);
    assert segs[..i + 1] == segs[..i] + [segs[i]];
    RunSplit(ctx, Start, segs[..i], [segs[i]]);
    assert RunFrom(ctx, before, [segs[i]]) == RunFrom(ctx, after, []) == after;
    assert segs == segs[..i] + ([segs[i]] + segs[i + 1..]);
    RunSplit(ctx, Start, segs[..i], [segs[i]] + segs[i + 1..]);
    assert RunFrom(ctx, before, [segs[i]] + segs[i + 1..]) == RunFrom(ctx, after, segs[i + 1..]);
  }

  /** A line without segments contributes nothing. */
  lemma EmptyLineEmitsNothing(ctx: LineContext, anchorLine: bool)
    ensures LineMappings(ctx, [], anchorLine) == []
  {
  }

  /** On a line holding a loop anchor only the first segment is walked: at most one mapping. */
  lemma AnchorLineAtMostOne(ctx: LineContext, lineSegs: seq<Segment>)
    ensures |LineMappings(ctx, lineSegs, true)| <= 1
    ensures lineSegs != [] && |lineSegs[0]| < 4 ==> LineMappings(ctx, lineSegs, true) == []
  {
    if lineSegs != [] {
      var walked := WalkedSegments(lineSegs, true);
      assert walked == [lineSegs[0]] && walked[1..] == [];
      var st := Step(ctx, Start, lineSegs[0]);
      assert RunFrom(ctx, Start, walked) == RunFrom(ctx, st, []) == st;
      assert st.out == [];
      assert |lineSegs[0]| < 4 ==> st.pending.None?;
    }
  }

  /**
   * On a line holding a loop anchor the first segment is still coalesced: when it
   * carries a position, lies outside the protected spans and is not named after an
   * index variable, the line yields exactly the mapping that segment proposes.
   */
  lemma AnchorLineKeepsFirstSegment(ctx: LineContext, lineSegs: seq<Segment>)
    requires lineSegs != [] && |lineSegs[0]| >= 4
    requires !IsProtected(ctx.spans, lineSegs[0][0])
    requires !IsSyntheticName(ctx.indexNames, SegmentName(ctx.names, lineSegs[0]))
    ensures LineMappings(ctx, lineSegs, true) == [Candidate(ctx, lineSegs[0], lineSegs[0][0])]
  {
    var walked := WalkedSegments(lineSegs, true);
    assert walked == [lineSegs[0]] && walked[1..] == [];
    var st := Step(ctx, Start, lineSegs[0]);
    assert RunFrom(ctx, Start, walked) == RunFrom(ctx, st, []) == st;
  }

  /**
   * Emission order is not generated-column order: a one-field segment skipping three
   * columns emits its extra mapping (column 3) before the pending mapping it
   * extends (column 0) is flushed at the end of the line.
   */
  lemma SkipMappingPrecedesPending()
    ensures LineMappings(LineContext(0, [], [], 1, 0, None, {}), [[0, 0, 0, 0], [3]], false)
         == [Mapping(1, 3, 1, 3, None), Mapping(1, 0, 1, 0, None)]
  {
    var ctx := LineContext(0, [], [], 1, 0, None, {});
    var segs: seq<Segment> := [[0, 0, 0, 0], [3]];
    assert HostColumn("", 0, 0) == 0;
    var st1 := Step(ctx, Start, segs[0]);
    assert st1 == LineState(0, Some(Mapping(1, 0, 1, 0, None)), []);
    var st2 := Step(ctx, st1, segs[1]);
    assert st2 == LineState(3, Some(Mapping(1, 0, 1, 0, None)), [Mapping(1, 3, 1, 3, None)]);
    assert segs[1..] == [[3]] && segs[1..][1..] == [];
    assert RunFrom(ctx, Start, segs) == RunFrom(ctx, st1, [[3]]) == RunFrom(ctx, st2, []);
  }

  // ---------------------------------------------------------------------------
  // The segment loop as the source runs it
  // ---------------------------------------------------------------------------

  /** Walking the segments from `i` on is one step on segment `i`, then the walk from `i + 1`. */
  lemma RunFromNext(ctx: LineContext, st: LineState, segs: seq<Segment>, i: nat)
    requires i < |segs|
    ensures RunFrom(ctx, st, segs[i..]) == RunFrom(ctx, Step(ctx, st, segs[i]), segs[i + 1..])
  {
    assert segs[i..][0] == segs[i] && segs[i..][1..] == segs[i + 1..];
  }

  /** The body of `civetMap.lines.forEach` for one line. */
  method CoalesceLine(ctx: LineContext, lineSegs: seq<Segment>, anchorLine: bool) returns (out: seq<Mapping>)
    ensures out == LineMappings(ctx, lineSegs, anchorLine)
  {
    var segments := lineSegs;
    if anchorLine {
      if |segments| == 0 {
        return [];
      }
      segments := [segments[0]];
    }
    if |segments| == 0 {
      return [];
    }
    var pending: Option<Mapping> := None;
    var pointer := 0;
    out := [];
    for i := 0 to |segments|
      invariant Finish(RunFrom(ctx, LineState(pointer, pending, out), segments[i..])) == LineMappings(ctx, lineSegs, anchorLine)
    {
      var seg := segments[i];
      ghost var before := LineState(pointer, pending, out);
      RunFromNext(ctx, before, segments, i);
      if |seg| == 0 {
        assert before == Step(ctx, before, seg);
        continue;
      }
      var delta := seg[0];
      var col := pointer + delta;
      var isActualMapping := |seg| >= 4;
      if IsProtected(ctx.spans, col) {
        pointer := col;
        assert LineState(pointer, pending, out) == Step(ctx, before, seg);
        continue;
      }
      if pending.Some? && |seg| == 1 && delta > 1 {
        out := out + [SkipMapping(pending.value, col, delta)];
      }
      if pending.Some? && col != pending.value.genCol && isActualMapping {
        out := out + [pending.value];
        pending := None;
      }
      pointer := col;
      if isActualMapping {
        var origLine := ctx.startLine + seg[2];
        var origText := LineAt(ctx.hostLines, origLine - 1);
        var origCol := HostColumn(origText, seg[3], ctx.indent);
        var name := SegmentName(ctx.names, seg);
        var cand := Mapping(ctx.tsLine + 1, col, origLine, origCol, name);
        assert cand == Candidate(ctx, seg, col);
        ghost var flushed := pending;
        if IsSyntheticName(ctx.indexNames, name) {
          assert LineState(pointer, pending, out) == Step(ctx, before, seg);
          continue;
        }
        if pending.None? {
          pending := Some(cand);
        } else if Preferred(ctx.hostLines, cand, pending.value) {
          pending := Some(pending.value.(origLine := origLine, origCol := origCol, name := name));
        }
        assert pending == Admit(ctx, flushed, cand);
      }
      assert LineState(pointer, pending, out) == Step(ctx, before, seg);
    }
    if pending.Some? {
      out := out + [pending.value];
    }
  }
}
