/**
 * The shapes exchanged by the normaliser: the Civet compiler's line-segment
 * map (`CivetLinesSourceMap`) and the mappings it hands to the source-map
 * generator.
 */
module CivetTypes {
  import opened Wrappers

  /**
   * One raw segment of the Civet map:
   * `[generatedColumnDelta, sourceIndex, originalLine, originalColumn, nameIndex?]`.
   * Only a segment with at least four fields carries a position; shorter ones
   * only advance the generated column.
   */
  type Segment = seq<int>

  /** `CivetLinesSourceMap`: per generated TS line, its segments; plus the optional `names` table. */
  datatype LinesMap = LinesMap(lines: seq<seq<Segment>>, names: Option<seq<string>>)

  /**
   * One call of `addMapping`: generated position (1-based line, 0-based column)
   * to original position in the host `.svelte` file (1-based line, 0-based
   * column), with an optional name.
   */
  datatype Mapping = Mapping(genLine: int, genCol: int, origLine: int, origCol: int, name: Option<string>)

  /** JavaScript truthiness of an optional string: present and non-empty. */
  predicate Truthy(name: Option<string>) {
    name.Some? && name.value != ""
  }

  /** The test `name && indexVarNames.has(name)`: a compiler-generated index name. */
  predicate IsSyntheticName(indexNames: set<string>, name: Option<string>) {
    Truthy(name) && name.value in indexNames
  }
}
