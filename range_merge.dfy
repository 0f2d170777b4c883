/**
 * Consolidation of the protected ranges, per generated TS line, and the
 * strict-interior protection test the coalescer applies to each segment.
 */
module RangeMerge {
  import opened LoopAnalysis

  /** A column range of a line held in the consolidated table. */
  datatype Span = Span(start: int, end: int)

  /** `consolidatedRanges`: generated TS line to its consolidated spans, in insertion order. */
  type RangeTable = map<int, seq<Span>>

  function Min(x: int, y: int): int { if x <= y then x else y }
  function Max(x: int, y: int): int { if x >= y then x else y }

  /** `range.start <= existing.end && existing.start <= range.end`: overlapping or touching. */
  predicate Touches(e: Span, r: LineRange) {
    r.start <= e.end && e.start <= r.end
  }

  /** The widened span: minimum start, maximum end. */
  function Hull(e: Span, r: LineRange): Span {
    Span(Min(e.start, r.start), Max(e.end, r.end))
  }

  /** `s` covers the columns of `r`. */
  predicate Covers(s: Span, r: LineRange) {
    s.start <= r.start && r.end <= s.end
  }

  /** Merge one range into a line's spans: widen the first span it touches, else append it. */
  function MergeInto(spans: seq<Span>, r: LineRange): (merged: seq<Span>)
    ensures |merged| == |spans| || |merged| == |spans| + 1
    ensures |merged| == |spans| + 1 <==> forall k | 0 <= k < |spans| :: !Touches(spans[k], r)
    ensures |merged| == |spans| + 1 ==> merged[|spans|] == Span(r.start, r.end)
    decreases |spans|
  {
    if spans == [] then [Span(r.start, r.end)]
    else if Touches(spans[0], r) then [Hull(spans[0], r)] + spans[1..]
    else [spans[0]] + MergeInto(spans[1..], r)
  }

  /** The spans recorded for a line, `[]` when the line has none yet. */
  function SpansOn(table: RangeTable, line: int): seq<Span> {
    if line in table then table[line] else []
  }

  /** One iteration of `protectedForVars.forEach(range => ...)`. */
  function Record(table: RangeTable, r: LineRange): (recorded: RangeTable)
    ensures recorded.Keys == table.Keys + {r.line}
    ensures forall line | line != r.line :: SpansOn(recorded, line) == SpansOn(table, line)
  {
    table[r.line := MergeInto(SpansOn(table, r.line), r)]
  }

  function ConsolidateFrom(table: RangeTable, ranges: seq<LineRange>): RangeTable
    decreases |ranges|
  {
    if ranges == [] then table else ConsolidateFrom(Record(table, ranges[0]), ranges[1..])
  }

  /** The consolidated table built from the recorded ranges, in order. */
  function Consolidate(ranges: seq<LineRange>): RangeTable {
    ConsolidateFrom(map[], ranges)
  }

  /**
   * The protection test: `col` lies strictly inside one of the spans
   * (`start < col < end`); the first and last column of a span are not protected.
   */
  predicate IsProtected(spans: seq<Span>, col: int) {
    exists k | 0 <= k < |spans| :: spans[k].start < col < spans[k].end
  }

  // ---------------------------------------------------------------------------
  // Properties of the merge
  // ---------------------------------------------------------------------------

  /** Merging a line's ranges one after another into its spans. */
  function MergeAll(spans: seq<Span>, ranges: seq<LineRange>): seq<Span>
    decreases |ranges|
  {
    if ranges == [] then spans else MergeAll(MergeInto(spans, ranges[0]), ranges[1..])
  }

  /** The recorded ranges that lie on `line`, in order. */
  function OnLine(ranges: seq<LineRange>, line: int): seq<LineRange> {
    if ranges == [] then []
    else if ranges[0].line == line then [ranges[0]] + OnLine(ranges[1..], line)
    else OnLine(ranges[1..], line)
  }

  /** Each line is consolidated on its own: its spans are its own ranges merged in order. */
  lemma {:induction false} ConsolidateFromPerLine(table: RangeTable, ranges: seq<LineRange>, line: int)
    ensures SpansOn(ConsolidateFrom(table, ranges), line) == MergeAll(SpansOn(table, line), OnLine(ranges, line))
    ensures line in ConsolidateFrom(table, ranges) <==> line in table || OnLine(ranges, line) != []
    decreases |ranges|
  {
    if ranges != [] {
      ConsolidateFromPerLine(Record(table, ranges[0]), ranges[1..], line);
    }
  }

  /** The spans of a line come from merging exactly the ranges recorded for that line, in order. */
  lemma ConsolidatePerLine(ranges: seq<LineRange>, line: int)
    ensures SpansOn(Consolidate(ranges), line) == MergeAll([], OnLine(ranges, line))
    ensures line in Consolidate(ranges) <==> exists r | r in ranges :: r.line == line
  {
    ConsolidateFromPerLine(map[], ranges, line);
    OnLineMembers(ranges, line);
  }

  lemma {:induction false} OnLineMembers(ranges: seq<LineRange>, line: int)
    ensures forall r :: r in OnLine(ranges, line) <==> r in ranges && r.line == line
    decreases |ranges|
  {
    if ranges != [] {
      OnLineMembers(ranges[1..], line);
      assert forall r :: r in ranges <==> r == ranges[0] || r in ranges[1..];
    }
  }

  /** Merging covers the new range and keeps every earlier span inside a (possibly widened) span. */
  lemma {:induction false} MergeIntoCovers(spans: seq<Span>, r: LineRange)
    ensures exists s | s in MergeInto(spans, r) :: Covers(s, r)
    ensures forall p | p in spans :: exists s | s in MergeInto(spans, r) :: s.start <= p.start && p.end <= s.end
    decreases |spans|
  {
    var merged := MergeInto(spans, r);
    if spans == [] {
      assert Covers(merged[0], r);
    } else if Touches(spans[0], r) {
      assert Covers(merged[0], r);
      forall p | p in spans ensures exists s | s in merged :: s.start <= p.start && p.end <= s.end {
        if p == spans[0] {
          assert merged[0].start <= p.start && p.end <= merged[0].end;
        } else {
          assert p in spans[1..];
          assert p in merged;
        }
      }
    } else {
      MergeIntoCovers(spans[1..], r);
      var s :| s in MergeInto(spans[1..], r) && Covers(s, r);
      assert s in merged;
      forall p | p in spans ensures exists s | s in merged :: s.start <= p.start && p.end <= s.end {
        if p == spans[0] {
          assert p in merged;
        } else {
          assert p in spans[1..];
          var t :| t in MergeInto(spans[1..], r) && t.start <= p.start && p.end <= t.end;
          assert t in merged;
        }
      }
    }
  }

  /** A merge only widens: each earlier span keeps its place and lies inside the span now there. */
  lemma {:induction false} MergeIntoOnlyWidens(spans: seq<Span>, r: LineRange)
    ensures forall k | 0 <= k < |spans| ::
      MergeInto(spans, r)[k].start <= spans[k].start && spans[k].end <= MergeInto(spans, r)[k].end
    decreases |spans|
  {
    if spans != [] && !Touches(spans[0], r) {
      MergeIntoOnlyWidens(spans[1..], r);
      var merged := MergeInto(spans, r);
      forall k | 0 < k < |spans| ensures merged[k].start <= spans[k].start && spans[k].end <= merged[k].end {
        assert merged[k] == MergeInto(spans[1..], r)[k - 1] && spans[k] == spans[1..][k - 1];
      }
    }
  }

  /** Further merges keep a covered range covered. */
  lemma {:induction false} MergeAllKeepsCover(spans: seq<Span>, ranges: seq<LineRange>, r: LineRange)
    requires exists s | s in spans :: Covers(s, r)
    ensures exists s | s in MergeAll(spans, ranges) :: Covers(s, r)
    decreases |ranges|
  {
    if ranges != [] {
      var s :| s in spans && Covers(s, r);
      MergeIntoCovers(spans, ranges[0]);
      var t :| t in MergeInto(spans, ranges[0]) && t.start <= s.start && s.end <= t.end;
      assert Covers(t, r);
      MergeAllKeepsCover(MergeInto(spans, ranges[0]), ranges[1..], r);
    }
  }

  /** Every range merged in is covered by a span of the result. */
  lemma {:induction false} MergeAllCovers(spans: seq<Span>, ranges: seq<LineRange>, r: LineRange)
    requires r in ranges
    ensures exists s | s in MergeAll(spans, ranges) :: Covers(s, r)
    decreases |ranges|
  {
    if r == ranges[0] {
      MergeIntoCovers(spans, r);
      MergeAllKeepsCover(MergeInto(spans, r), ranges[1..], r);
    } else {
      MergeAllCovers(MergeInto(spans, ranges[0]), ranges[1..], r);
    }
  }

  /**
   * Consolidation loses no protection: the table has an entry exactly for the lines
   * that have recorded ranges, and every recorded range is contained in a
   * consolidated span of its own line.
   */
  lemma ConsolidateCoversRecorded(ranges: seq<LineRange>, r: LineRange)
    requires r in ranges
    ensures r.line in Consolidate(ranges)
    ensures exists s | s in Consolidate(ranges)[r.line] :: Covers(s, r)
  {
    ConsolidatePerLine(ranges, r.line);
    OnLineMembers(ranges, r.line);
    MergeAllCovers([], OnLine(ranges, r.line), r);
  }

  /** A column strictly inside a recorded range is protected on that line after consolidation. */
  lemma ProtectionSurvivesConsolidation(ranges: seq<LineRange>, r: LineRange, col: int)
    requires r in ranges && r.start < col < r.end
    ensures IsProtected(SpansOn(Consolidate(ranges), r.line), col)
  {
    ConsolidateCoversRecorded(ranges, r);
    var spans := Consolidate(ranges)[r.line];
    var s :| s in spans && Covers(s, r);
    var k :| 0 <= k < |spans| && spans[k] == s;
  }

  /**
   * The merge is one pass and does not revisit: ranges (0,1), (5,6), (1,5) on one line
   * end as the two spans (0,5) and (5,6), which touch; column 5, inside the
   * union (0,6), stays unprotected.
   */
  lemma TouchingSpansCanRemain()
    ensures MergeAll([], [LineRange(0, 0, 1), LineRange(0, 5, 6), LineRange(0, 1, 5)]) == [Span(0, 5), Span(5, 6)]
    ensures !IsProtected([Span(0, 5), Span(5, 6)], 5)
  {
    var r1, r2, r3 := LineRange(0, 0, 1), LineRange(0, 5, 6), LineRange(0, 1, 5);
    assert MergeInto([], r1) == [Span(0, 1)];
    assert MergeInto([], r2) == [Span(5, 6)];
    assert MergeInto([Span(0, 1)], r2) == [Span(0, 1), Span(5, 6)];
    assert MergeInto([Span(0, 1), Span(5, 6)], r3) == [Span(0, 5), Span(5, 6)];
    assert MergeAll([], [r1, r2, r3]) == MergeAll([Span(0, 1)], [r2, r3]);
    assert [r1, r2, r3][1..] == [r2, r3];
    assert [r2, r3][1..] == [r3];
    assert MergeAll([Span(0, 1)], [r2, r3]) == MergeAll([Span(0, 1), Span(5, 6)], [r3]);
    assert MergeAll([Span(0, 1), Span(5, 6)], [r3]) == MergeAll([Span(0, 5), Span(5, 6)], []);
  }

  // ---------------------------------------------------------------------------
  // The consolidation as the source runs it
  // ---------------------------------------------------------------------------

  /** `MergeInto` at the first touching span `j`: widen that span in place. */
  lemma {:induction false} MergeIntoFirstTouching(spans: seq<Span>, r: LineRange, j: nat)
    requires j <= |spans|
    requires forall k :: 0 <= k < j ==> !Touches(spans[k], r)
    ensures j < |spans| && Touches(spans[j], r) ==> MergeInto(spans, r) == spans[j := Hull(spans[j], r)]
    ensures j == |spans| ==> MergeInto(spans, r) == spans + [Span(r.start, r.end)]
    decreases j
  {
    if j > 0 {
      MergeIntoFirstTouching(spans[1..], r, j - 1);
      if j < |spans| && Touches(spans[j], r) {
        assert spans[j := Hull(spans[j], r)] == [spans[0]] + spans[1..][j - 1 := Hull(spans[j], r)];
      }
      if j == |spans| {
        assert spans + [Span(r.start, r.end)] == [spans[0]] + (spans[1..] + [Span(r.start, r.end)]);
      }
    }
  }

  /**
   * The loop of the source: for each recorded range, get or create its line's list,
   * scan for the first span it touches, widen that span in place, or append the range.
   */
  method ConsolidateRanges(ranges: seq<LineRange>) returns (table: RangeTable)
    ensures table == Consolidate(ranges)
  {
    table := map[];
    for i := 0 to |ranges|
      invariant ConsolidateFrom(table, ranges[i..]) == Consolidate(ranges)
    {
      var range := ranges[i];
      assert ranges[i..] == [range] + ranges[i + 1..];
      ghost var before := table;
      if range.line !in table {
        table := table[range.line := []];
      }
      var lineRanges := table[range.line];
      assert lineRanges == SpansOn(before, range.line);
      var j := 0;
      while j < |lineRanges| && !Touches(lineRanges[j], range)
        invariant 0 <= j <= |lineRanges|
        invariant forall k :: 0 <= k < j ==> !Touches(lineRanges[k], range)
      {
        j := j + 1;
      }
      MergeIntoFirstTouching(lineRanges, range, j);
      if j < |lineRanges| {
        var existing := lineRanges[j];
        lineRanges := lineRanges[j := Span(Min(existing.start, range.start), Max(existing.end, range.end))];
      } else {
        lineRanges := lineRanges + [Span(range.start, range.end)];
      }
      assert lineRanges == MergeInto(SpansOn(before, range.line), range);
      table := table[range.line := lineRanges];
      assert table == before[range.line := lineRanges];
      assert table == Record(before, range);
    }
  }
}
