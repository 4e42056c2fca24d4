/**
 * The loops of the expression builder (parser.ts, traverseExpr and
 * traverseArguments), each walking the children of one node with the cursor
 * and proved to compute the corresponding part of `Exprs.ExprOf`.
 */
module ExprLoops {
  import opened Ast
  import opened Cst
  import opened Exprs

  /**
   * The loop over a comma-separated list: parse an item, step over the
   * comma, stop at the closing child.  A cursor that can no longer move
   * would repeat the last item forever.
   */
  method TraverseItems(src: Source, p: Node, start: nat, closer: Closer) returns (r: Result<seq<Expr>>)
    requires start < |p.children|
    ensures r == ItemsFrom(src, p, start, closer)
  {
    var kids := p.children;
    var items: seq<Expr> := [];
    var i := start;
    PrependNothing(ItemsFrom(src, p, start, closer));
    while !Closes(src, kids[i], closer)
      invariant i < |kids|
      invariant Prepend(items, ItemsFrom(src, p, i, closer)) == ItemsFrom(src, p, start, closer)
      decreases |kids| - i
    {
      var item := ExprOf(src, kids[i]);
      if item.Fail? {
        return Fail(item.err);
      }
      var j := Next(kids, Next(kids, i));
      if j == i {
        return Stuck();
      }
      PrependCons(items, item.value, ItemsFrom(src, p, j, closer));
      items := items + [item.value];
      i := j;
    }
    PrependToEmpty(items);
    return Ok(items);
  }

  /** `traverseArguments`: the items after the opening parenthesis, up to the closing one. */
  method TraverseArguments(src: Source, a: Node) returns (r: Result<seq<Expr>>)
    ensures r == ArgumentsOf(src, a)
  {
    if a.children == [] {
      return NoChild();
    }
    r := TraverseItems(src, a, Next(a.children, 0), CloseParen);
  }

  /** The loop over a dictionary display: key, colon, value, comma, until `}` or the last child. */
  method TraverseDict(src: Source, n: Node) returns (r: Result<seq<(Expr, Expr)>>)
    requires n.children != []
    ensures r == DictFrom(src, n, 0)
  {
    var kids := n.children;
    var entries: seq<(Expr, Expr)> := [];
    var i := 0;
    PrependNothing(DictFrom(src, n, 0));
    while Moves(kids, i)
      invariant i < |kids|
      invariant Prepend(entries, DictFrom(src, n, i)) == DictFrom(src, n, 0)
      decreases |kids| - i
    {
      var k := i + 1;
      if Text(src, kids[k]) == "}" {
        break;
      }
      var key := ExprOf(src, kids[k]);
      if key.Fail? {
        return Fail(key.err);
      }
      var v := Next(kids, Next(kids, k));
      var value := ExprOf(src, kids[v]);
      if value.Fail? {
        return Fail(value.err);
      }
      PrependCons(entries, (key.value, value.value), DictFrom(src, n, Next(kids, v)));
      entries := entries + [(key.value, value.value)];
      i := Next(kids, v);
    }
    PrependToEmpty(entries);
    return Ok(entries);
  }

  /** The loop over a lambda's parameter list, keeping the names of its `VariableName` children. */
  method CollectLambdaParams(src: Source, paramList: Node) returns (names: seq<string>)
    ensures names == ParamNames(src, paramList.children)
  {
    var kids := paramList.children;
    names := [];
    var i := 0;
    while i < |kids|
      invariant i <= |kids|
      invariant names + ParamNames(src, kids[i..]) == ParamNames(src, kids)
    {
      assert kids[i..][1..] == kids[i + 1..];
      assert ParamNames(src, kids[i..])
          == (if kids[i].kind == "VariableName" then [Text(src, kids[i])] else []) + ParamNames(src, kids[i + 1..]);
      if kids[i].kind == "VariableName" {
        names := names + [Text(src, kids[i])];
      }
      i := i + 1;
    }
    assert kids[i..] == [];
  }
}
