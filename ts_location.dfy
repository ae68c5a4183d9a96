/** Source spans: what every AST node carries and every error points at. */
module Locations {
  import opened Cst

  /** `miette::SourceSpan`: a byte offset and a length. */
  datatype Span = Span(offset: nat, len: nat)

  /** `location`: the span covering a node's byte range. */
  function Location(n: Node): (s: Span)
    ensures s.offset == n.range.start
    ensures s.offset + s.len == n.range.end
  {
    Span(n.range.start, n.range.end - n.range.start)
  }
}
