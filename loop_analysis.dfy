/**
 * Collection of protected column ranges, loop anchors and compiler-generated
 * index names from the TypeScript syntax tree of the compiled snippet
 * (the `visit` walk of `normalizeCivetMap`).
 *
 * The TypeScript parser is not part of this model: its output is an input here,
 * the nodes `visit` reaches in pre-order, each reduced to what `visit` reads,
 * with positions already converted to (0-based line, 0-based character).
 */
module LoopAnalysis {
  import opened Wrappers
  import opened HostText

  /** An identifier's name and span in the generated TS code. Also the shape of a loop anchor. */
  datatype IdentSpan = IdentSpan(name: string, line: int, start: int, end: int)

  /** A column range of one generated TS line that raw mappings must not land inside. */
  datatype LineRange = LineRange(line: int, start: int, end: int)

  /**
   * What `visit` sees of a node:
   *  - an `Identifier`;
   *  - a `for..of` / `for..in` statement with the identifier-named declarations of its
   *    initializer (empty when the initializer is not a declaration list), its iterable
   *    when that is an identifier, and the identifier-named declarations of the variable
   *    statements directly inside its body block (empty when the body is not a block);
   *  - any other node.
   */
  datatype TsNode =
    | Identifier(id: IdentSpan)
    | ForOfIn(initDecls: seq<IdentSpan>, iterable: Option<IdentSpan>, bodyDecls: seq<IdentSpan>)
    | OtherNode

  /**
   * The walk as it happened: the nodes visited, and whether an exception ended it
   * after them (`threw`), which sends control to the `catch` block.
   */
  datatype ParseResult = ParseResult(visited: seq<TsNode>, threw: bool)

  /**
   * The collections the walk fills: `protectedForVars`, `astLoopPositions`,
   * `indexVarNames` and the identifier-length cache `tsIdentifierLengths`
   * (`None` for `null`).
   */
  datatype Analysis = Analysis(
    protectedRanges: seq<LineRange>,
    anchors: seq<IdentSpan>,
    indexNames: set<string>,
    identifierLengths: Option<map<string, int>>)

  /** `/^i\d*$/`: the names the Civet compiler gives its loop counters (`i`, `i0`, `i12`, ...). */
  predicate IsIndexName(name: string) {
    |name| >= 1 && name[0] == 'i' && forall k :: 1 <= k < |name| ==> '0' <= name[k] <= '9'
  }

  function RangeOf(id: IdentSpan): LineRange {
    LineRange(id.line, id.start, id.end)
  }

  function RangesOf(ids: seq<IdentSpan>): seq<LineRange> {
    seq(|ids|, k requires 0 <= k < |ids| => RangeOf(ids[k]))
  }

  /** One loop identifier becomes both a protected range and an anchor. */
  function ProtectAndAnchor(a: Analysis, id: IdentSpan): Analysis {
    a.(protectedRanges := a.protectedRanges + [RangeOf(id)], anchors := a.anchors + [id])
  }

  /** `declarations.forEach(...)` over identifier-named declarations. */
  function ProtectAndAnchorAll(a: Analysis, ids: seq<IdentSpan>): (next: Analysis)
    ensures a.protectedRanges <= next.protectedRanges && a.anchors <= next.anchors
    ensures next.indexNames == a.indexNames && next.identifierLengths == a.identifierLengths
    decreases |ids|
  {
    if ids == [] then a else ProtectAndAnchorAll(ProtectAndAnchor(a, ids[0]), ids[1..])
  }

  /** The body of `visit` for one node, before it descends into the children. */
  function VisitNode(a: Analysis, node: TsNode): (next: Analysis)
    ensures a.protectedRanges <= next.protectedRanges && a.anchors <= next.anchors && a.indexNames <= next.indexNames
    ensures next.identifierLengths.Some? == a.identifierLengths.Some?
  {
    match node
    case Identifier(id) =>
      var cached := match a.identifierLengths
        case Some(m) => Some(m[id.name := |id.name|])
        case None => None;
      var a1 := a.(identifierLengths := cached);
      if IsIndexName(id.name) then
        a1.(indexNames := a1.indexNames + {id.name}, protectedRanges := a1.protectedRanges + [RangeOf(id)])
      else a1
    case ForOfIn(initDecls, iterable, bodyDecls) =>
      var a1 := ProtectAndAnchorAll(a, initDecls);
      var a2 := if iterable.Some? then ProtectAndAnchor(a1, iterable.value) else a1;
      ProtectAndAnchorAll(a2, bodyDecls)
    case OtherNode => a
  }

  /** The pre-order walk from state `a` over the remaining `nodes`. */
  function WalkFrom(a: Analysis, nodes: seq<TsNode>): (walked: Analysis)
    ensures a.protectedRanges <= walked.protectedRanges && a.anchors <= walked.anchors && a.indexNames <= walked.indexNames
    ensures walked.identifierLengths.Some? == a.identifierLengths.Some?
    decreases |nodes|
  {
    if nodes == [] then a else WalkFrom(VisitNode(a, nodes[0]), nodes[1..])
  }

  /** The state at the top of the `try` block. */
  const WalkStart := Analysis([], [], {}, Some(map[]))

  /** The state when the AST is not consulted. */
  const NoAnalysis := Analysis([], [], {}, None)

  /**
   * The collection phase: only when there is compiled code containing `for\s*\(`.
   * A walk cut short by an exception keeps every range and anchor pushed so far;
   * the `catch` block resets only the identifier-length cache.
   */
  function Collect(code: Option<string>, parse: ParseResult): (a: Analysis)
    ensures a.identifierLengths.None? <==> !(code.Some? && HasForParen(code.value)) || parse.threw
  {
    if code.Some? && HasForParen(code.value) then
      var walked := WalkFrom(WalkStart, parse.visited);
      if parse.threw then walked.(identifierLengths := None) else walked
    else NoAnalysis
  }

  // ---------------------------------------------------------------------------
  // Reference definitions: what each node contributes, in walk order
  // ---------------------------------------------------------------------------

  /** The loop identifiers of one node, in the order `visit` pushes them. */
  function NodeLoopIdents(node: TsNode): seq<IdentSpan> {
    match node
    case ForOfIn(initDecls, iterable, bodyDecls) =>
      initDecls + (if iterable.Some? then [iterable.value] else []) + bodyDecls
    case _ => []
  }

  /** The ranges one node protects: its loop identifiers, or itself when it is an index identifier. */
  function NodeRanges(node: TsNode): seq<LineRange> {
    match node
    case Identifier(id) => if IsIndexName(id.name) then [RangeOf(id)] else []
    case _ => RangesOf(NodeLoopIdents(node))
  }

  function LoopIdents(nodes: seq<TsNode>): seq<IdentSpan> {
    if nodes == [] then [] else NodeLoopIdents(nodes[0]) + LoopIdents(nodes[1..])
  }

  function ProtectedBy(nodes: seq<TsNode>): seq<LineRange> {
    if nodes == [] then [] else NodeRanges(nodes[0]) + ProtectedBy(nodes[1..])
  }

  /** The index names among the identifiers visited. */
  function IndexNamesIn(nodes: seq<TsNode>): set<string> {
    set k, name | 0 <= k < |nodes| && nodes[k].Identifier? && name == nodes[k].id.name && IsIndexName(name) :: name
  }

  // ---------------------------------------------------------------------------
  // The walk agrees with the reference definitions
  // ---------------------------------------------------------------------------

  lemma {:induction false} ProtectAndAnchorAllAppends(a: Analysis, ids: seq<IdentSpan>)
    ensures ProtectAndAnchorAll(a, ids).protectedRanges == a.protectedRanges + RangesOf(ids)
    ensures ProtectAndAnchorAll(a, ids).anchors == a.anchors + ids
    ensures ProtectAndAnchorAll(a, ids).indexNames == a.indexNames
    ensures ProtectAndAnchorAll(a, ids).identifierLengths == a.identifierLengths
    decreases |ids|
  {
    if ids != [] {
      ProtectAndAnchorAllAppends(ProtectAndAnchor(a, ids[0]), ids[1..]);
      assert a.protectedRanges + [RangeOf(ids[0])] + RangesOf(ids[1..]) == a.protectedRanges + RangesOf(ids);
      assert a.anchors + [ids[0]] + ids[1..] == a.anchors + ids;
    }
  }

  lemma RangesOfConcat(xs: seq<IdentSpan>, ys: seq<IdentSpan>)
    ensures RangesOf(xs + ys) == RangesOf(xs) + RangesOf(ys)
  {
  }

  lemma RangesOfContains(ids: seq<IdentSpan>, id: IdentSpan)
    requires id in ids
    ensures RangeOf(id) in RangesOf(ids)
  {
    var k :| 0 <= k < |ids| && ids[k] == id;
    assert RangesOf(ids)[k] == RangeOf(id);
  }

  lemma VisitIdentifierAppends(a: Analysis, id: IdentSpan)
    ensures VisitNode(a, Identifier(id)).protectedRanges == a.protectedRanges + NodeRanges(Identifier(id))
    ensures VisitNode(a, Identifier(id)).anchors == a.anchors
    ensures VisitNode(a, Identifier(id)).indexNames == a.indexNames + (if IsIndexName(id.name) then {id.name} else {})
    ensures VisitNode(a, Identifier(id)).identifierLengths.Some? == a.identifierLengths.Some?
  {
  }

  lemma VisitLoopAppends(a: Analysis, initDecls: seq<IdentSpan>, iterable: Option<IdentSpan>, bodyDecls: seq<IdentSpan>)
    ensures var node := ForOfIn(initDecls, iterable, bodyDecls);
      && VisitNode(a, node).protectedRanges == a.protectedRanges + NodeRanges(node)
      && VisitNode(a, node).anchors == a.anchors + NodeLoopIdents(node)
      && VisitNode(a, node).indexNames == a.indexNames
      && VisitNode(a, node).identifierLengths == a.identifierLengths
  {
    var node := ForOfIn(initDecls, iterable, bodyDecls);
    var mid := if iterable.Some? then [iterable.value] else [];
    var a1 := ProtectAndAnchorAll(a, initDecls);
    var a2 := if iterable.Some? then ProtectAndAnchor(a1, iterable.value) else a1;
    ProtectAndAnchorAllAppends(a, initDecls);
    ProtectAndAnchorAllAppends(a2, bodyDecls);
    assert VisitNode(a, node) == ProtectAndAnchorAll(a2, bodyDecls);
    var ri, rm, rb := RangesOf(initDecls), RangesOf(mid), RangesOf(bodyDecls);
    assert a2.protectedRanges == a.protectedRanges + ri + rm;
    assert a2.anchors == a.anchors + initDecls + mid;
    RangesOfConcat(initDecls, mid);
    RangesOfConcat(initDecls + mid, bodyDecls);
    assert NodeLoopIdents(node) == initDecls + mid + bodyDecls;
    assert NodeRanges(node) == ri + rm + rb;
    ConcatAssoc(a.protectedRanges, ri + rm, rb);
    ConcatAssoc(a.protectedRanges, ri, rm);
    ConcatAssoc(a.anchors, initDecls + mid, bodyDecls);
    ConcatAssoc(a.anchors, initDecls, mid);
  }

  lemma VisitNodeAppends(a: Analysis, node: TsNode)
    ensures VisitNode(a, node).protectedRanges == a.protectedRanges + NodeRanges(node)
    ensures VisitNode(a, node).anchors == a.anchors + NodeLoopIdents(node)
    ensures VisitNode(a, node).indexNames ==
      a.indexNames + (if node.Identifier? && IsIndexName(node.id.name) then {node.id.name} else {})
    ensures VisitNode(a, node).identifierLengths.Some? == a.identifierLengths.Some?
  {
    match node
    case Identifier(id) => VisitIdentifierAppends(a, id);
    case OtherNode =>
      assert a.protectedRanges + [] == a.protectedRanges;
      assert a.anchors + [] == a.anchors;
    case ForOfIn(initDecls, iterable, bodyDecls) => VisitLoopAppends(a, initDecls, iterable, bodyDecls);
  }

  lemma IndexNamesInCons(nodes: seq<TsNode>)
    requires nodes != []
    ensures IndexNamesIn(nodes) ==
      (if nodes[0].Identifier? && IsIndexName(nodes[0].id.name) then {nodes[0].id.name} else {}) + IndexNamesIn(nodes[1..])
  {
    var head := if nodes[0].Identifier? && IsIndexName(nodes[0].id.name) then {nodes[0].id.name} else {};
    forall name | name in IndexNamesIn(nodes) ensures name in head + IndexNamesIn(nodes[1..]) {
      var k :| 0 <= k < |nodes| && nodes[k].Identifier? && name == nodes[k].id.name && IsIndexName(name);
      if k > 0 {
        assert nodes[1..][k - 1] == nodes[k];
      }
    }
    forall name | name in IndexNamesIn(nodes[1..]) ensures name in IndexNamesIn(nodes) {
      var k :| 0 <= k < |nodes[1..]| && nodes[1..][k].Identifier? && name == nodes[1..][k].id.name && IsIndexName(name);
      assert nodes[k + 1] == nodes[1..][k];
    }
  }

  lemma {:induction false} WalkFromRanges(a: Analysis, nodes: seq<TsNode>)
    ensures WalkFrom(a, nodes).protectedRanges == a.protectedRanges + ProtectedBy(nodes)
    decreases |nodes|
  {
    if nodes == [] {
      assert a.protectedRanges + [] == a.protectedRanges;
    } else {
      var a1 := VisitNode(a, nodes[0]);
      var r0, rs := NodeRanges(nodes[0]), ProtectedBy(nodes[1..]);
      VisitNodeAppends(a, nodes[0]);
      assert a1.protectedRanges == a.protectedRanges + r0;
      WalkFromRanges(a1, nodes[1..]);
      assert WalkFrom(a, nodes).protectedRanges == a1.protectedRanges + rs;
      assert ProtectedBy(nodes) == r0 + rs;
      ConcatAssoc(a.protectedRanges, r0, rs);
    }
  }

  lemma {:induction false} WalkFromAnchors(a: Analysis, nodes: seq<TsNode>)
    ensures WalkFrom(a, nodes).anchors == a.anchors + LoopIdents(nodes)
    decreases |nodes|
  {
    if nodes == [] {
      assert a.anchors + [] == a.anchors;
    } else {
      var a1 := VisitNode(a, nodes[0]);
      VisitNodeAppends(a, nodes[0]);
      WalkFromAnchors(a1, nodes[1..]);
      assert WalkFrom(a, nodes) == WalkFrom(a1, nodes[1..]);
      var l0, ls := NodeLoopIdents(nodes[0]), LoopIdents(nodes[1..]);
      assert LoopIdents(nodes) == l0 + ls;
      ConcatAssoc(a.anchors, l0, ls);
    }
  }

  lemma {:induction false} WalkFromIndexNames(a: Analysis, nodes: seq<TsNode>)
    ensures WalkFrom(a, nodes).indexNames == a.indexNames + IndexNamesIn(nodes)
    ensures WalkFrom(a, nodes).identifierLengths.Some? == a.identifierLengths.Some?
    decreases |nodes|
  {
    if nodes == [] {
      assert IndexNamesIn(nodes) == {};
    } else {
      var a1 := VisitNode(a, nodes[0]);
      VisitNodeAppends(a, nodes[0]);
      WalkFromIndexNames(a1, nodes[1..]);
      assert WalkFrom(a, nodes) == WalkFrom(a1, nodes[1..]);
      IndexNamesInCons(nodes);
    }
  }

  /** Each loop identifier's span is in the protected ranges of the node list. */
  lemma {:induction false} LoopIdentsAreProtected(nodes: seq<TsNode>, id: IdentSpan)
    requires id in LoopIdents(nodes)
    ensures RangeOf(id) in ProtectedBy(nodes)
    decreases |nodes|
  {
    if id in NodeLoopIdents(nodes[0]) {
      assert !nodes[0].Identifier?;
      RangesOfContains(NodeLoopIdents(nodes[0]), id);
      assert RangeOf(id) in NodeRanges(nodes[0]);
    } else {
      LoopIdentsAreProtected(nodes[1..], id);
    }
  }

  /**
   * What the collection phase promises: without compiled code containing `for\s*\(`
   * nothing is collected; otherwise the anchors are the loop identifiers of the visited
   * nodes in walk order, every anchor is also protected, the index names are exactly
   * the visited identifiers matching `^i\d*$`, and the identifier-length cache is reset
   * exactly when the walk threw.
   */
  lemma CollectMeaning(code: Option<string>, parse: ParseResult)
    ensures !(code.Some? && HasForParen(code.value)) ==> Collect(code, parse) == NoAnalysis
    ensures code.Some? && HasForParen(code.value) ==>
      var a := Collect(code, parse);
      && a.anchors == LoopIdents(parse.visited)
      && a.protectedRanges == ProtectedBy(parse.visited)
      && a.indexNames == IndexNamesIn(parse.visited)
      && (a.identifierLengths.None? <==> parse.threw)
    ensures forall id :: id in Collect(code, parse).anchors ==> RangeOf(id) in Collect(code, parse).protectedRanges
  {
    if code.Some? && HasForParen(code.value) {
      WalkFromRanges(WalkStart, parse.visited);
      WalkFromAnchors(WalkStart, parse.visited);
      WalkFromIndexNames(WalkStart, parse.visited);
      assert [] + LoopIdents(parse.visited) == LoopIdents(parse.visited);
      assert [] + ProtectedBy(parse.visited) == ProtectedBy(parse.visited);
      forall id | id in Collect(code, parse).anchors ensures RangeOf(id) in Collect(code, parse).protectedRanges {
        LoopIdentsAreProtected(parse.visited, id);
      }
    }
  }

  /** Every collected index name matches `^i\d*$`; in particular the empty name is never one. */
  lemma CollectedIndexNamesMatch(code: Option<string>, parse: ParseResult)
    ensures forall name :: name in Collect(code, parse).indexNames ==> IsIndexName(name)
    ensures "" !in Collect(code, parse).indexNames
  {
    CollectMeaning(code, parse);
  }

  /**
   * The failure path: an exception after some nodes leaves the ranges, anchors and
   * index names exactly as a walk over the same nodes that did not throw.
   */
  lemma ParseFailureKeepsCollected(code: Option<string>, visited: seq<TsNode>)
    ensures var failed := Collect(code, ParseResult(visited, true));
      var clean := Collect(code, ParseResult(visited, false));
      && failed.protectedRanges == clean.protectedRanges
      && failed.anchors == clean.anchors
      && failed.indexNames == clean.indexNames
      && failed.identifierLengths.None?
  {
  }

  // ---------------------------------------------------------------------------
  // The walk as the source runs it: loops pushing into the collections
  // ---------------------------------------------------------------------------

  /** `declarations.forEach(decl => { protectedForVars.push(...); astLoopPositions.push(...) })`. */
  method PushLoopIdents(ranges0: seq<LineRange>, anchors0: seq<IdentSpan>, ids: seq<IdentSpan>)
    returns (ranges: seq<LineRange>, anchors: seq<IdentSpan>)
    ensures ranges == ranges0 + RangesOf(ids)
    ensures anchors == anchors0 + ids
  {
    ranges, anchors := ranges0, anchors0;
    for j := 0 to |ids|
      invariant ranges == ranges0 + RangesOf(ids[..j])
      invariant anchors == anchors0 + ids[..j]
    {
      var id := ids[j];
      ranges := ranges + [LineRange(id.line, id.start, id.end)];
      anchors := anchors + [id];
      assert ids[..j + 1] == ids[..j] + [id];
      RangesOfConcat(ids[..j], [id]);
    }
    assert ids[..|ids|] == ids;
  }

  /**
   * The collection phase as the source runs it: the `for\s*\(` guard, then the
   * walk pushing into `protectedForVars`, `astLoopPositions` and `indexVarNames`,
   * then the `catch` that resets only the identifier-length cache.
   */
  method CollectLoopConstructs(code: Option<string>, parse: ParseResult) returns (a: Analysis)
    ensures a == Collect(code, parse)
  {
    var ranges: seq<LineRange> := [];
    var anchors: seq<IdentSpan> := [];
    var indexNames: set<string> := {};
    var lengths: Option<map<string, int>> := None;
    if code.Some? && HasForParen(code.value) {
      lengths := Some(map[]);
      var nodes := parse.visited;
      for i := 0 to |nodes|
        invariant lengths.Some?
        invariant WalkFrom(Analysis(ranges, anchors, indexNames, lengths), nodes[i..]) == WalkFrom(WalkStart, nodes)
      {
        ghost var before := Analysis(ranges, anchors, indexNames, lengths);
        assert nodes[i..] == [nodes[i]] + nodes[i + 1..];
        match nodes[i] {
          case Identifier(id) =>
            lengths := Some(lengths.value[id.name := |id.name|]);
            if IsIndexName(id.name) {
              indexNames := indexNames + {id.name};
              ranges := ranges + [LineRange(id.line, id.start, id.end)];
            }
          case ForOfIn(initDecls, iterable, bodyDecls) =>
            ProtectAndAnchorAllAppends(before, initDecls);
            ranges, anchors := PushLoopIdents(ranges, anchors, initDecls);
            ghost var mid := Analysis(ranges, anchors, indexNames, lengths);
            if iterable.Some? {
              var id := iterable.value;
              ranges := ranges + [LineRange(id.line, id.start, id.end)];
              anchors := anchors + [id];
            }
            ProtectAndAnchorAllAppends(Analysis(ranges, anchors, indexNames, lengths), bodyDecls);
            ranges, anchors := PushLoopIdents(ranges, anchors, bodyDecls);
          case OtherNode =>
        }
        assert Analysis(ranges, anchors, indexNames, lengths) == VisitNode(before, nodes[i]);
      }
      assert nodes[|nodes|..] == [];
      if parse.threw {
        lengths := None;
      }
    }
    a := Analysis(ranges, anchors, indexNames, lengths);
  }
}
