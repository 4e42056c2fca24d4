/**
 * Expressions (parser.ts, traverseExpr and traverseArguments): the
 * expression a syntax node denotes, defined by recursion over the tree.
 * Where the original enters a node with `firstChild()` the node must have a
 * child; where one of its loops would run forever on the tree it is given
 * the result is the `Diverges` error.
 */
module Exprs {
  import Js
  import opened Ast
  import opened Cst
  import opened SourcePos
  import Literals
  import Operators
  import Calls
  import Slices

  /** How a comma-separated list ends: arguments at a `)` node, list displays at a `]` text. */
  datatype Closer = CloseParen | CloseBracket

  predicate Closes(src: Source, n: Node, closer: Closer)
  {
    match closer
    case CloseParen => n.kind == ")"
    case CloseBracket => Js.Trim(Text(src, n)) == "]"
  }

  /** The node kinds whose expression is built from their children. */
  predicate IsCompoundKind(kind: string)
  {
    kind == "CallExpression" || kind == "BinaryExpression" || kind == "ParenthesizedExpression"
    || kind == "UnaryExpression" || kind == "MemberExpression" || kind == "ArrayExpression"
    || kind == "DictionaryExpression" || kind == "LambdaExpression"
  }

  /** The expression node `n` denotes. */
  function ExprOf(src: Source, n: Node): Result<Expr>
    decreases n, 3, 0
  {
    var loc := Pos(src, n);
    if Literals.IsLiteralKind(n.kind) then
      var v :- Literals.LiteralOf(src, n);
      Ok(Lit(loc, v))
    else if n.kind == "VariableName" then Ok(Id(loc, Text(src, n)))
    else if n.kind == "self" then Ok(Id(loc, "self"))
    else if !IsCompoundKind(n.kind) then ErrAt(loc, UnknownExpr)
    else if n.children == [] then NoChild()
    else if n.kind == "CallExpression" then CallOf(src, n)
    else if n.kind == "BinaryExpression" then BinaryOf(src, n)
    else if n.kind == "ParenthesizedExpression" then ExprOf(src, n.children[Next(n.children, 0)])
    else if n.kind == "UnaryExpression" then UnaryOf(src, n)
    else if n.kind == "MemberExpression" then MemberOf(src, n)
    else if n.kind == "ArrayExpression" then
      var items :- ItemsFrom(src, n, Next(n.children, 0), CloseBracket);
      Ok(ListExpr(loc, items))
    else if n.kind == "DictionaryExpression" then
      var entries :- DictFrom(src, n, 0);
      Ok(Dict(loc, entries))
    else LambdaOf(src, n)
  }

  /** A call: the callee, then the argument list, then the rewriting by the callee's shape. */
  function CallOf(src: Source, n: Node): Result<Expr>
    requires n.children != []
    decreases n, 2, 0
  {
    var kids := n.children;
    var callee :- ExprOf(src, kids[0]);
    var args :- ArgumentsOf(src, kids[Next(kids, 0)]);
    Calls.RewriteCall(Pos(src, n), callee, args)
  }

  /** The arguments between the parentheses of an argument list. */
  function ArgumentsOf(src: Source, a: Node): Result<seq<Expr>>
    decreases a, 2, 0
  {
    if a.children == [] then NoChild()
    else ItemsFrom(src, a, Next(a.children, 0), CloseParen)
  }

  /**
   * The items of a comma-separated list from position `i` on: an item, then
   * (past the comma) the rest, until the closing child.
   */
  function ItemsFrom(src: Source, p: Node, i: nat, closer: Closer): Result<seq<Expr>>
    requires i < |p.children|
    decreases p, 1, |p.children| - i
  {
    var kids := p.children;
    if Closes(src, kids[i], closer) then Ok([])
    else
      var item :- ExprOf(src, kids[i]);
      if i + 1 == |kids| then Stuck()
      else Cons(item, ItemsFrom(src, p, Next(kids, i + 1), closer))
  }

  function BinaryOf(src: Source, n: Node): Result<Expr>
    requires n.children != []
    decreases n, 2, 0
  {
    var kids := n.children;
    var loc := Pos(src, n);
    var lhs :- ExprOf(src, kids[0]);
    var i := Next(kids, 0);
    var op := Operators.BinOpOf(Text(src, kids[i]));
    if op.None? then ErrAt(loc, UnknownOp)
    else
      var rhs :- ExprOf(src, kids[Next(kids, i)]);
      Ok(Binary(loc, op.value, lhs, rhs))
  }

  function UnaryOf(src: Source, n: Node): Result<Expr>
    requires n.children != []
    decreases n, 2, 0
  {
    var kids := n.children;
    var loc := Pos(src, n);
    var op := Operators.UniOpOf(Text(src, kids[0]));
    if op.None? then ErrAt(loc, UnknownOp)
    else
      var e :- ExprOf(src, kids[Next(kids, 0)]);
      Ok(Unary(loc, op.value, e))
  }

  /** A member expression: a field lookup after `.`, an element access or slice after `[`. */
  function MemberOf(src: Source, n: Node): Result<Expr>
    requires n.children != []
    decreases n, 2, 0
  {
    var kids := n.children;
    var obj :- ExprOf(src, kids[0]);
    var i := Next(kids, 0);
    if Text(src, kids[i]) == "[" then BracketOf(src, n, obj, false)
    else Ok(Lookup(Pos(src, n), obj, Text(src, kids[Next(kids, i)])))
  }

  /**
   * An element access or slice.  The contents start two children in;
   * `asWritten` selects how they are cut into parts: on every `:` character
   * of their text, as the original does, or on `:` tokens only.
   */
  function BracketOf(src: Source, n: Node, obj: Expr, asWritten: bool): Result<Expr>
    requires n.children != []
    decreases n, 1, 2
  {
    var kids := n.children;
    var loc := Pos(src, n);
    var start := Next(kids, Next(kids, 0));
    var close := Slices.CloseFrom(src, kids, start);
    if close.None? then Stuck()
    else if Slices.Texts(src, kids, start, close.value) == "" then ErrAt(loc, EmptyBracket)
    else
      var parts := if asWritten then Slices.PartsAsWritten(src, kids, start, close.value)
                   else Slices.Parts(src, kids, start, close.value);
      if |parts| > 3 then ErrAt(loc, TooManySliceParts)
      else SliceWalk(src, n, obj, parts)
  }

  /** Whether the original parses part `k`: it does unless the part exists and is empty. */
  predicate Written(parts: seq<string>, k: nat)
  {
    k >= |parts| || parts[k] != ""
  }

  /**
   * The walk over the contents once the parts are known: a start expression
   * when the first part is written (alone, an element access), then an end
   * and a stride when the cursor can move on to them and their part is
   * written; missing ones are the literals 0, -1 and 1.
   */
  function SliceWalk(src: Source, n: Node, obj: Expr, parts: seq<string>): Result<Expr>
    requires n.children != [] && |parts| >= 1
    decreases n, 1, 1
  {
    var kids := n.children;
    var loc := Pos(src, n);
    var pos := Next(kids, Next(kids, 0));
    if parts[0] != "" then
      var start :- ExprOf(src, kids[pos]);
      if |parts| == 1 then Ok(BracketLookup(loc, obj, start))
      else SliceRest(src, n, obj, parts, start, Next(kids, pos))
    else SliceRest(src, n, obj, parts, Lit(loc, NumLit(0)), pos)
  }

  function SliceRest(src: Source, n: Node, obj: Expr, parts: seq<string>, start: Expr, pos: nat): Result<Expr>
    requires pos < |n.children|
    decreases n, 1, 0
  {
    var kids := n.children;
    var loc := Pos(src, n);
    var pos1 := Next(kids, pos);
    var readEnd := Moves(kids, pos) && Written(parts, 1);
    var end :- if readEnd then ExprOf(src, kids[pos1]) else Ok(Lit(loc, NumLit(-1)));
    var pos2 := if readEnd then Next(kids, pos1) else pos1;
    var readStride := Moves(kids, pos2) && Written(parts, 2);
    var stride :- if readStride then ExprOf(src, kids[Next(kids, pos2)]) else Ok(Lit(loc, NumLit(1)));
    Ok(Slicing(loc, obj, start, end, stride))
  }

  /** The key/value pairs of a dictionary display after position `i`. */
  function DictFrom(src: Source, n: Node, i: nat): Result<seq<(Expr, Expr)>>
    requires i < |n.children|
    decreases n, 1, |n.children| - i
  {
    var kids := n.children;
    if !Moves(kids, i) then Ok([])
    else
      var k := i + 1;
      if Text(src, kids[k]) == "}" then Ok([])
      else
        var key :- ExprOf(src, kids[k]);
        var v := Next(kids, Next(kids, k));
        var value :- ExprOf(src, kids[v]);
        Cons((key, value), DictFrom(src, n, Next(kids, v)))
  }

  /** The texts of the `VariableName` children of a lambda's parameter list, in order. */
  function ParamNames(src: Source, params: seq<Node>): (names: seq<string>)
    ensures |names| <= |params|
  {
    if params == [] then []
    else (if params[0].kind == "VariableName" then [Text(src, params[0])] else [])
         + ParamNames(src, params[1..])
  }

  function LambdaOf(src: Source, n: Node): Result<Expr>
    requires n.children != []
    decreases n, 2, 0
  {
    var kids := n.children;
    var loc := Pos(src, n);
    var p := Next(kids, 0);
    if kids[p].kind != "ParamList" then ErrAt(loc, InvalidLambda)
    else
      var ret :- ExprOf(src, kids[Next(kids, Next(kids, p))]);
      Ok(Lambda(loc, ParamNames(src, kids[p].children), ret))
  }
}
