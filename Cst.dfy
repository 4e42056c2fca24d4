/**
 * The concrete syntax tree the external parser hands to the builder, as an
 * immutable value.  A node has the grammar's kind name, byte offsets into
 * the source text and its children in order.  The original walks this tree
 * with a single mutable cursor; here a cursor position among siblings is an
 * index into a parent's `children`, and moving to the next sibling past the
 * last one leaves the index where it is, as the cursor does.
 */
module Cst {
  import Js

  datatype Node = Node(kind: string, from: nat, to: nat, children: seq<Node>)

  /** The text being compiled and the file identifier every Location carries. */
  datatype Source = Source(text: string, fileId: int)

  /** The source text a node spans (`s.substring(c.from, c.to)`). */
  function Text(src: Source, n: Node): string
  {
    Js.Substring(src.text, n.from, n.to)
  }

  /** The position `nextSibling()` leaves the cursor at: one further, or unchanged at the last sibling. */
  function Next(kids: seq<Node>, i: nat): (j: nat)
    requires i < |kids|
    ensures j < |kids|
    ensures j == i + 1 || (j == i && i == |kids| - 1)
  {
    if i + 1 < |kids| then i + 1 else i
  }

  /** Whether `nextSibling()` succeeds from position `i`. */
  predicate Moves(kids: seq<Node>, i: nat)
  {
    i + 1 < |kids|
  }
}
