/**
 * What the expression builder promises about the shapes it produces: the
 * items of a comma-separated list come from every other child in order, a
 * call is rewritten by its callee, element accesses and slices follow the
 * `:` tokens between the brackets, dictionary entries come in order.
 */
module ExprFacts {
  import opened Ast
  import opened Cst
  import opened SourcePos
  import Calls
  import Slices
  import opened Exprs

  /**
   * Where the closing child of a list with `m` items starting at `i` sits:
   * two children after the last item, or the last child when that is the
   * one right after the last item.
   */
  function CloserAt(i: nat, m: nat, len: nat): int
  {
    if i + 2 * m < len then i + 2 * m else len - 1
  }

  /** What each of the nodes `kids` parses to, in order. */
  function Parsed(src: Source, kids: seq<Node>): (rs: seq<Result<Expr>>)
    ensures |rs| == |kids|
  {
    if kids == [] then [] else Parsed(src, kids[..|kids| - 1]) + [ExprOf(src, kids[|kids| - 1])]
  }

  lemma {:induction false} ParsedAt(src: Source, kids: seq<Node>, k: nat)
    requires k < |kids|
    ensures Parsed(src, kids)[k] == ExprOf(src, kids[k])
  {
    if k < |kids| - 1 {
      ParsedAt(src, kids[..|kids| - 1], k);
    }
  }

  /** Which of the nodes `kids` close a list, in order. */
  function Closings(src: Source, kids: seq<Node>, closer: Closer): (cl: seq<bool>)
    ensures |cl| == |kids|
  {
    if kids == [] then [] else Closings(src, kids[..|kids| - 1], closer) + [Closes(src, kids[|kids| - 1], closer)]
  }

  lemma {:induction false} ClosingsAt(src: Source, kids: seq<Node>, closer: Closer, k: nat)
    requires k < |kids|
    ensures Closings(src, kids, closer)[k] == Closes(src, kids[k], closer)
  {
    if k < |kids| - 1 {
      ClosingsAt(src, kids[..|kids| - 1], closer, k);
    }
  }

  /** Child `k` is not the closing child (per `cl`) and parses (per `rs`) to `x`. */
  predicate ItemAt(p: Node, rs: seq<Result<Expr>>, cl: seq<bool>, k: nat, x: Expr)
  {
    k < |p.children| && k < |rs| && k < |cl| && !cl[k] && rs[k] == Ok(x)
  }

  /**
   * The list items `xs` start at child `i`: item `j` is what child `i + 2j`
   * parses to (per `rs`), none of them is the closing child (per `cl`), and
   * the closing child follows the last one.
   */
  predicate InterleavedIn(p: Node, rs: seq<Result<Expr>>, cl: seq<bool>, i: nat, xs: seq<Expr>)
  {
    && (forall j :: 0 <= j < |xs| ==> ItemAt(p, rs, cl, i + 2 * j, xs[j]))
    && (|xs| > 0 ==> i + 2 * |xs| - 1 < |p.children|)
    && 0 <= CloserAt(i, |xs|, |p.children|) < |p.children| == |cl|
    && cl[CloserAt(i, |xs|, |p.children|)]
  }

  /** `InterleavedIn` for what the children actually parse to and which of them close the list. */
  predicate Interleaved(src: Source, p: Node, i: nat, closer: Closer, xs: seq<Expr>)
  {
    InterleavedIn(p, Parsed(src, p.children), Closings(src, p.children, closer), i, xs)
  }

  /**
   * The list walk of `ItemsFrom` over children whose parses and closings are
   * already known: child `k` parses to `rs[k]` and closes the list when `cl[k]`.
   */
  function ItemsOver(p: Node, rs: seq<Result<Expr>>, cl: seq<bool>, i: nat): Result<seq<Expr>>
    requires i < |p.children| == |rs| == |cl|
    decreases |p.children| - i
  {
    var kids := p.children;
    if cl[i] then Ok([])
    else
      var item :- rs[i];
      if i + 1 == |kids| then Stuck()
      else Cons(item, ItemsOver(p, rs, cl, Next(kids, i + 1)))
  }

  /** Parsing the children first and walking afterwards gives the same list. */
  lemma {:induction false} ItemsFromOver(src: Source, p: Node, i: nat, closer: Closer)
    requires i < |p.children|
    ensures ItemsFrom(src, p, i, closer) == ItemsOver(p, Parsed(src, p.children), Closings(src, p.children, closer), i)
    decreases |p.children| - i
  {
    var kids := p.children;
    ParsedAt(src, kids, i);
    ClosingsAt(src, kids, closer, i);
    if !Closes(src, kids[i], closer) && i + 1 < |kids| {
      ItemsFromOver(src, p, Next(kids, i + 1), closer);
    }
  }

  /** From the last child a list is either empty at once or never closes. */
  lemma ItemsOverLast(p: Node, rs: seq<Result<Expr>>, cl: seq<bool>, ys: seq<Expr>)
    requires 0 < |p.children| == |rs| == |cl|
    requires ItemsOver(p, rs, cl, |p.children| - 1) == Ok(ys)
    ensures ys == [] && cl[|p.children| - 1]
  {
  }

  /** One more item in front of an interleaved list, two children earlier. */
  lemma ShiftItems(p: Node, rs: seq<Result<Expr>>, cl: seq<bool>, i: nat, xs: seq<Expr>)
    requires xs != []
    requires ItemAt(p, rs, cl, i, xs[0])
    requires forall j :: 0 <= j < |xs| - 1 ==> ItemAt(p, rs, cl, i + 2 + 2 * j, xs[1..][j])
    ensures forall j :: 0 <= j < |xs| ==> ItemAt(p, rs, cl, i + 2 * j, xs[j])
  {
    forall j | 0 <= j < |xs|
      ensures ItemAt(p, rs, cl, i + 2 * j, xs[j])
    {
      if j > 0 {
        assert xs[j] == xs[1..][j - 1];
        assert i + 2 * j == i + 2 + 2 * (j - 1);
      }
    }
  }

  /** One item fewer in front of an interleaved list, two children later. */
  lemma UnshiftItems(p: Node, rs: seq<Result<Expr>>, cl: seq<bool>, i: nat, xs: seq<Expr>)
    requires xs != []
    requires forall j :: 0 <= j < |xs| ==> ItemAt(p, rs, cl, i + 2 * j, xs[j])
    ensures forall j :: 0 <= j < |xs| - 1 ==> ItemAt(p, rs, cl, i + 2 + 2 * j, xs[1..][j])
  {
    forall j | 0 <= j < |xs| - 1
      ensures ItemAt(p, rs, cl, i + 2 + 2 * j, xs[1..][j])
    {
      assert xs[1..][j] == xs[j + 1];
      assert i + 2 + 2 * j == i + 2 * (j + 1);
    }
  }

  /** A walk that succeeds from a child other than the closer took an item there. */
  lemma ItemsOverTook(p: Node, rs: seq<Result<Expr>>, cl: seq<bool>, i: nat, xs: seq<Expr>)
    requires i < |p.children| == |rs| == |cl|
    requires ItemsOver(p, rs, cl, i) == Ok(xs)
    requires !cl[i]
    ensures xs != [] && i + 1 < |p.children|
    ensures ItemAt(p, rs, cl, i, xs[0])
    ensures ItemsOver(p, rs, cl, Next(p.children, i + 1)) == Ok(xs[1..])
  {
  }

  /** After a taken item, the rest of an interleaved list two children later extends it. */
  lemma ItemsStep(p: Node, rs: seq<Result<Expr>>, cl: seq<bool>, i: nat, xs: seq<Expr>)
    requires i + 2 < |p.children| == |cl|
    requires xs != [] && ItemAt(p, rs, cl, i, xs[0])
    requires InterleavedIn(p, rs, cl, i + 2, xs[1..])
    ensures InterleavedIn(p, rs, cl, i, xs)
  {
    ShiftItems(p, rs, cl, i, xs);
    assert CloserAt(i + 2, |xs| - 1, |p.children|) == CloserAt(i, |xs|, |p.children|);
  }

  lemma {:induction false} ItemsAreInterleaved(p: Node, rs: seq<Result<Expr>>, cl: seq<bool>, i: nat, xs: seq<Expr>)
    requires i < |p.children| == |rs| == |cl|
    requires ItemsOver(p, rs, cl, i) == Ok(xs)
    ensures InterleavedIn(p, rs, cl, i, xs)
    decreases |p.children| - i
  {
    var kids := p.children;
    if !cl[i] {
      ItemsOverTook(p, rs, cl, i, xs);
      var i' := Next(kids, i + 1);
      ItemsAreInterleaved(p, rs, cl, i', xs[1..]);
      if i' == i + 2 {
        ItemsStep(p, rs, cl, i, xs);
      } else {
        ItemsOverLast(p, rs, cl, xs[1..]);
      }
    }
  }

  /** An item that is not the closing child is put in front of the rest of the walk. */
  lemma ItemsOverCons(p: Node, rs: seq<Result<Expr>>, cl: seq<bool>, i: nat, x: Expr)
    requires i + 1 < |p.children| == |rs| == |cl|
    requires ItemAt(p, rs, cl, i, x)
    ensures ItemsOver(p, rs, cl, i) == Cons(x, ItemsOver(p, rs, cl, Next(p.children, i + 1)))
  {
  }

  lemma {:induction false} InterleavedAreItems(p: Node, rs: seq<Result<Expr>>, cl: seq<bool>, i: nat, xs: seq<Expr>)
    requires i < |p.children| == |rs| == |cl|
    requires InterleavedIn(p, rs, cl, i, xs)
    ensures ItemsOver(p, rs, cl, i) == Ok(xs)
    decreases |p.children| - i
  {
    var kids := p.children;
    if xs != [] {
      assert ItemAt(p, rs, cl, i + 2 * 0, xs[0]);
      var ys := xs[1..];
      assert xs == [xs[0]] + ys;
      assert i + 1 < |kids|;
      ItemsOverCons(p, rs, cl, i, xs[0]);
      if i + 2 < |kids| {
        UnshiftItems(p, rs, cl, i, xs);
        assert CloserAt(i + 2, |ys|, |kids|) == CloserAt(i, |xs|, |kids|);
        InterleavedAreItems(p, rs, cl, i + 2, ys);
      } else {
        assert |xs| == 1 && ys == [];
        assert CloserAt(i, |xs|, |kids|) == i + 1;
        assert ItemsOver(p, rs, cl, i + 1) == Ok([]);
      }
    }
  }

  /** A list parses to `xs` exactly when its items are interleaved with separators as described. */
  lemma ItemsIffInterleaved(src: Source, p: Node, i: nat, closer: Closer, xs: seq<Expr>)
    requires i < |p.children|
    ensures ItemsFrom(src, p, i, closer) == Ok(xs) <==> Interleaved(src, p, i, closer, xs)
  {
    var rs := Parsed(src, p.children);
    var cl := Closings(src, p.children, closer);
    ItemsFromOver(src, p, i, closer);
    if ItemsFrom(src, p, i, closer) == Ok(xs) {
      ItemsAreInterleaved(p, rs, cl, i, xs);
    }
    if Interleaved(src, p, i, closer, xs) {
      InterleavedAreItems(p, rs, cl, i, xs);
    }
  }

  /** A call is its callee rewritten with its arguments, whatever the callee's node. */
  lemma CallRewritesCallee(src: Source, n: Node, callee: Expr, args: seq<Expr>)
    requires n.kind == "CallExpression" && n.children != []
    requires ExprOf(src, n.children[0]) == Ok(callee)
    requires ArgumentsOf(src, n.children[Next(n.children, 0)]) == Ok(args)
    ensures ExprOf(src, n) == Calls.RewriteCall(Pos(src, n), callee, args)
    ensures callee.Id? ==> ExprOf(src, n) == Ok(Calls.CallTo(Pos(src, n), callee.name, args))
    ensures callee.Lookup? ==> ExprOf(src, n) == Ok(MethodCall(Pos(src, n), callee.obj, callee.field, args))
    ensures !callee.CallExpr? && !callee.MethodCall? && !callee.Lookup? && !callee.Id? ==>
              ExprOf(src, n) == ErrAt(Pos(src, n), UnknownCallee)
  {
  }

  /** `e` carries `loc`, unless it is the one expression built without a Location (a `range` call). */
  predicate LocatedAt(e: Expr, loc: Location)
  {
    e.Call? || e.a == loc
  }

  /**
   * Every expression built for a node carries that node's location, except
   * a parenthesized expression, which is its inner expression unchanged.
   */
  lemma ExprLocated(src: Source, n: Node)
    requires n.kind != "ParenthesizedExpression" && ExprOf(src, n).Ok?
    ensures LocatedAt(ExprOf(src, n).value, Pos(src, n))
  {
    if n.kind == "CallExpression" && n.children != [] {
      CallLocated(src, n);
    } else if n.kind == "MemberExpression" && n.children != [] {
      MemberLocated(src, n);
    }
  }

  lemma CallLocated(src: Source, n: Node)
    requires n.kind == "CallExpression" && n.children != [] && ExprOf(src, n).Ok?
    ensures LocatedAt(ExprOf(src, n).value, Pos(src, n))
  {
    var callee := ExprOf(src, n.children[0]).value;
    var args := ArgumentsOf(src, n.children[Next(n.children, 0)]).value;
    CallRewritesCallee(src, n, callee, args);
  }

  lemma MemberLocated(src: Source, n: Node)
    requires n.kind == "MemberExpression" && n.children != [] && ExprOf(src, n).Ok?
    ensures LocatedAt(ExprOf(src, n).value, Pos(src, n))
  {
    var kids := n.children;
    var obj := ExprOf(src, kids[0]).value;
    assert ExprOf(src, n) == MemberOf(src, n);
    if Text(src, kids[Next(kids, 0)]) == "[" {
      var start := ContentStart(n);
      var close := Slices.CloseFrom(src, kids, start).value;
      var parts := Slices.Parts(src, kids, start, close);
      assert MemberOf(src, n) == BracketOf(src, n, obj, false) == SliceWalk(src, n, obj, parts);
      if parts[0] != "" && |parts| > 1 {
        var first := ExprOf(src, kids[start]).value;
        SliceRestDefaults(src, n, obj, parts, first, Next(kids, start));
      } else if parts[0] == "" {
        SliceRestDefaults(src, n, obj, parts, Lit(Pos(src, n), NumLit(0)), start);
      }
    }
  }

  /** A parenthesized expression `( e )` is the expression `e`, location included. */
  lemma ParenthesizedIsInner(src: Source, n: Node)
    requires n.kind == "ParenthesizedExpression" && |n.children| >= 2
    ensures ExprOf(src, n) == ExprOf(src, n.children[1])
  {
  }

  /**
   * A binary expression `l op r` is the operation of the operator `op`
   * spells applied to `l` and `r`, at the node; an operator that spells
   * none is `Could not parse op` at the node once `l` has parsed.
   */
  lemma BinaryShape(src: Source, n: Node)
    requires n.kind == "BinaryExpression" && |n.children| == 3
    ensures var kids := n.children;
            var op := Operators.BinOpOf(Text(src, kids[1]));
            && (ExprOf(src, n).Ok? <==> ExprOf(src, kids[0]).Ok? && op.Some? && ExprOf(src, kids[2]).Ok?)
            && (ExprOf(src, n).Ok? ==>
                  ExprOf(src, n).value == Binary(Pos(src, n), op.value, ExprOf(src, kids[0]).value, ExprOf(src, kids[2]).value))
            && (ExprOf(src, kids[0]).Ok? && op.None? ==> ExprOf(src, n) == ErrAt(Pos(src, n), UnknownOp))
  {
    assert ExprOf(src, n) == BinaryOf(src, n);
  }

  /**
   * A unary expression `op e` is the operation `op` spells applied to `e`,
   * at the node; an operator that spells none is rejected at the node before
   * `e` is read.
   */
  lemma UnaryShape(src: Source, n: Node)
    requires n.kind == "UnaryExpression" && |n.children| == 2
    ensures var kids := n.children;
            var op := Operators.UniOpOf(Text(src, kids[0]));
            && (ExprOf(src, n).Ok? <==> op.Some? && ExprOf(src, kids[1]).Ok?)
            && (ExprOf(src, n).Ok? ==> ExprOf(src, n).value == Unary(Pos(src, n), op.value, ExprOf(src, kids[1]).value))
            && (op.None? ==> ExprOf(src, n) == ErrAt(Pos(src, n), UnknownOp))
  {
    assert ExprOf(src, n) == UnaryOf(src, n);
  }

  /** `o.f` is the lookup of the field named by the text of `f` on the object `o`, at the node. */
  lemma FieldLookup(src: Source, n: Node)
    requires n.kind == "MemberExpression" && |n.children| == 3 && Text(src, n.children[1]) != "["
    ensures var kids := n.children;
            && (ExprOf(src, n).Ok? <==> ExprOf(src, kids[0]).Ok?)
            && (ExprOf(src, n).Ok? ==> ExprOf(src, n).value == Lookup(Pos(src, n), ExprOf(src, kids[0]).value, Text(src, kids[2])))
  {
    assert ExprOf(src, n) == MemberOf(src, n);
  }

  /**
   * `lambda ps: e` is a lambda at the node whose parameters are the names in
   * `ps` (see `ParamNamesMeaning`) and whose result is `e`; without a
   * parameter list after `lambda` it is `Invalid Lambda Expression`.
   */
  lemma LambdaShape(src: Source, n: Node)
    requires n.kind == "LambdaExpression" && |n.children| == 4
    ensures var kids := n.children;
            && (kids[1].kind != "ParamList" ==> ExprOf(src, n) == ErrAt(Pos(src, n), InvalidLambda))
            && (kids[1].kind == "ParamList" && ExprOf(src, kids[3]).Ok? ==>
                  ExprOf(src, n) == Ok(Lambda(Pos(src, n), ParamNames(src, kids[1].children), ExprOf(src, kids[3]).value)))
            && (kids[1].kind == "ParamList" && ExprOf(src, kids[3]).Fail? ==> ExprOf(src, n) == ExprOf(src, kids[3]))
  {
    assert ExprOf(src, n) == LambdaOf(src, n);
    LambdaOfShape(src, n);
  }

  lemma LambdaOfShape(src: Source, n: Node)
    requires |n.children| == 4
    ensures var kids := n.children;
            && (kids[1].kind != "ParamList" ==> LambdaOf(src, n) == ErrAt(Pos(src, n), InvalidLambda))
            && (kids[1].kind == "ParamList" ==>
                  LambdaOf(src, n) == (var ret :- ExprOf(src, kids[3]); Ok(Lambda(Pos(src, n), ParamNames(src, kids[1].children), ret))))
  {
    assert Next(n.children, 0) == 1 && Next(n.children, 1) == 2 && Next(n.children, 2) == 3;
  }

  /** A node of a kind that is not an expression kind is `Could not parse expr` at the node. */
  lemma UnknownKindRejected(src: Source, n: Node)
    requires !Literals.IsLiteralKind(n.kind) && n.kind != "VariableName" && n.kind != "self"
    requires !IsCompoundKind(n.kind)
    ensures ExprOf(src, n) == ErrAt(Pos(src, n), UnknownExpr)
  {
  }

  /** The first child after `[`, where the contents of an element access begin. */
  function ContentStart(n: Node): nat
    requires n.children != []
  {
    Next(n.children, Next(n.children, 0))
  }

  /** The shape of an element access whose brackets close. */
  predicate IsBracketAccess(src: Source, n: Node, obj: Expr)
  {
    && n.kind == "MemberExpression" && n.children != []
    && ExprOf(src, n.children[0]) == Ok(obj)
    && Text(src, n.children[Next(n.children, 0)]) == "["
    && Slices.CloseFrom(src, n.children, ContentStart(n)).Some?
  }

  function Contents(src: Source, n: Node): string
    requires n.children != [] && Slices.CloseFrom(src, n.children, ContentStart(n)).Some?
  {
    Slices.Texts(src, n.children, ContentStart(n), Slices.CloseFrom(src, n.children, ContentStart(n)).value)
  }

  function Colons(src: Source, n: Node): nat
    requires n.children != [] && Slices.CloseFrom(src, n.children, ContentStart(n)).Some?
  {
    Slices.ColonTokens(src, n.children, ContentStart(n), Slices.CloseFrom(src, n.children, ContentStart(n)).value)
  }

  /** An element access is built by `BracketOf` from the object expression. */
  lemma BracketAccess(src: Source, n: Node, obj: Expr)
    requires IsBracketAccess(src, n, obj)
    ensures ExprOf(src, n) == BracketOf(src, n, obj, false)
  {
    assert ExprOf(src, n) == MemberOf(src, n);
  }

  /** Nothing between the brackets, or more than two `:` tokens, is an error at the access. */
  lemma BracketErrors(src: Source, n: Node, obj: Expr)
    requires IsBracketAccess(src, n, obj)
    ensures Contents(src, n) == "" ==> ExprOf(src, n) == ErrAt(Pos(src, n), EmptyBracket)
    ensures Contents(src, n) != "" && Colons(src, n) > 2 ==> ExprOf(src, n) == ErrAt(Pos(src, n), TooManySliceParts)
  {
    BracketAccess(src, n, obj);
    var kids := n.children;
    var close := Slices.CloseFrom(src, kids, ContentStart(n)).value;
    Slices.PartsCount(src, kids, ContentStart(n), close);
  }

  /** Without a `:` token the access is an element lookup with the first content child as key. */
  lemma BracketLookupWithoutColon(src: Source, n: Node, obj: Expr, key: Expr)
    requires IsBracketAccess(src, n, obj)
    requires Contents(src, n) != "" && Colons(src, n) == 0
    requires ExprOf(src, n.children[ContentStart(n)]) == Ok(key)
    ensures ExprOf(src, n) == Ok(BracketLookup(Pos(src, n), obj, key))
  {
    BracketAccess(src, n, obj);
    var kids := n.children;
    var close := Slices.CloseFrom(src, kids, ContentStart(n)).value;
    NoColonOnePart(src, kids, ContentStart(n), close);
  }

  lemma {:induction false} NoColonOnePart(src: Source, kids: seq<Node>, i: nat, j: nat)
    requires i <= j <= |kids|
    requires Slices.ColonTokens(src, kids, i, j) == 0
    ensures Slices.Parts(src, kids, i, j) == [Slices.Texts(src, kids, i, j)]
    decreases j - i
  {
    if i < j {
      NoColonOnePart(src, kids, i + 1, j);
    }
  }

  /**
   * With one or two `:` tokens the access is a slice of the object; a start
   * or end left empty is the literal 0 or -1, an empty stride the literal 1.
   */
  lemma SliceDefaults(src: Source, n: Node, obj: Expr)
    requires IsBracketAccess(src, n, obj)
    requires Contents(src, n) != "" && 1 <= Colons(src, n) <= 2
    requires ExprOf(src, n).Ok?
    ensures var e := ExprOf(src, n).value;
            var parts := Slices.Parts(src, n.children, ContentStart(n), Slices.CloseFrom(src, n.children, ContentStart(n)).value);
            && |parts| == Colons(src, n) + 1
            && e.Slicing? && e.obj == obj && e.a == Pos(src, n)
            && (parts[0] == "" ==> e.start == Lit(Pos(src, n), NumLit(0)))
            && (parts[1] == "" ==> e.end == Lit(Pos(src, n), NumLit(-1)))
            && (|parts| == 3 && parts[2] == "" ==> e.stride == Lit(Pos(src, n), NumLit(1)))
  {
    BracketAccess(src, n, obj);
    var kids := n.children;
    var loc := Pos(src, n);
    var close := Slices.CloseFrom(src, kids, ContentStart(n)).value;
    var parts := Slices.Parts(src, kids, ContentStart(n), close);
    Slices.PartsCount(src, kids, ContentStart(n), close);
    assert BracketOf(src, n, obj, false) == SliceWalk(src, n, obj, parts);
    var pos := ContentStart(n);
    if parts[0] != "" {
      var start := ExprOf(src, kids[pos]).value;
      assert SliceWalk(src, n, obj, parts) == SliceRest(src, n, obj, parts, start, Next(kids, pos));
      SliceRestDefaults(src, n, obj, parts, start, Next(kids, pos));
    } else {
      assert SliceWalk(src, n, obj, parts) == SliceRest(src, n, obj, parts, Lit(loc, NumLit(0)), pos);
      SliceRestDefaults(src, n, obj, parts, Lit(loc, NumLit(0)), pos);
    }
  }

  /** After the start, an empty end or stride part leaves the default literal in place. */
  lemma SliceRestDefaults(src: Source, n: Node, obj: Expr, parts: seq<string>, start: Expr, pos: nat)
    requires pos < |n.children|
    requires SliceRest(src, n, obj, parts, start, pos).Ok?
    ensures var e := SliceRest(src, n, obj, parts, start, pos).value;
            && e.Slicing? && e.a == Pos(src, n) && e.obj == obj && e.start == start
            && (|parts| >= 2 && parts[1] == "" ==> e.end == Lit(Pos(src, n), NumLit(-1)))
            && (|parts| >= 3 && parts[2] == "" ==> e.stride == Lit(Pos(src, n), NumLit(1)))
  {
  }

  /** Children taken by a part: its one child, if written, and the `:` token or `]` after it. */
  function Span(written: bool): nat
  {
    if written then 2 else 1
  }

  /**
   * Where part `k` of a slice begins among the access's children when every
   * part is one child or none (`w[k]` says which): the object and `[` come
   * first, then each part with the token after it.
   */
  function PartAt(w: seq<bool>, k: nat): (p: nat)
    requires k <= |w| <= 3
    ensures p >= 2 + k
  {
    2 + (if k > 0 then Span(w[0]) else 0) + (if k > 1 then Span(w[1]) else 0) + (if k > 2 then Span(w[2]) else 0)
  }

  /**
   * Children from the third on cut into `|w|` parts, part `k` written as
   * exactly one child when `w[k]` and left empty otherwise, the parts
   * separated by `:` tokens, and one child after the last part.
   */
  predicate PartsLayout(src: Source, kids: seq<Node>, w: seq<bool>)
  {
    && 2 <= |w| <= 3
    && |kids| == PartAt(w, |w|)
    && forall k :: 0 <= k < |w| ==> PartShape(src, kids, w, k)
  }

  /** Part `k`'s child, when written, is neither empty nor a `:`; a `:` token ends the part before. */
  predicate PartShape(src: Source, kids: seq<Node>, w: seq<bool>, k: nat)
    requires k < |w| <= 3 && |kids| == PartAt(w, |w|)
  {
    && (w[k] ==> Text(src, kids[PartAt(w, k)]) != "" && Text(src, kids[PartAt(w, k)]) != ":")
    && (k > 0 ==> Text(src, kids[PartAt(w, k) - 1]) == ":")
  }

  /** An element access laid out as a slice: the child after the last part is the first `]`. */
  predicate SliceLayout(src: Source, n: Node, w: seq<bool>)
  {
    && PartsLayout(src, n.children, w)
    && Slices.CloseFrom(src, n.children, 2) == Some(|n.children| - 1)
  }

  /** The text of part `k`: its child's text, or empty. */
  function PartText(src: Source, kids: seq<Node>, w: seq<bool>, k: nat): string
    requires PartsLayout(src, kids, w) && k < |w|
  {
    if w[k] then Text(src, kids[PartAt(w, k)]) else ""
  }

  function LayoutTexts(src: Source, kids: seq<Node>, w: seq<bool>): (ps: seq<string>)
    requires PartsLayout(src, kids, w)
    ensures |ps| == |w|
    ensures forall k :: 0 <= k < |w| ==> ps[k] == PartText(src, kids, w, k)
  {
    seq(|w|, k requires 0 <= k < |w| => PartText(src, kids, w, k))
  }

  /** A part's text is empty exactly when the part is left empty. */
  lemma LayoutTextWritten(src: Source, kids: seq<Node>, w: seq<bool>, k: nat)
    requires PartsLayout(src, kids, w) && k < |w|
    ensures PartText(src, kids, w, k) != "" <==> w[k]
  {
    assert PartShape(src, kids, w, k);
  }

  /** Cutting the contents at `:` tokens recovers the layout's parts from part `k` on. */
  lemma {:induction false} LayoutParts(src: Source, kids: seq<Node>, w: seq<bool>, k: nat)
    requires PartsLayout(src, kids, w) && k < |w|
    ensures Slices.Parts(src, kids, PartAt(w, k), |kids| - 1) == LayoutTexts(src, kids, w)[k..]
    decreases |w| - k
  {
    var ps := LayoutTexts(src, kids, w);
    if k + 1 < |w| {
      LayoutInnerStep(src, kids, w, k);
      LayoutParts(src, kids, w, k + 1);
      assert ps[k..] == [ps[k]] + ps[k + 1..];
    } else {
      LayoutLastStep(src, kids, w, k);
      assert ps[k..] == [ps[k]];
    }
  }

  /** A part before the last is one part of its own; the `:` token after it starts the next. */
  lemma LayoutInnerStep(src: Source, kids: seq<Node>, w: seq<bool>, k: nat)
    requires PartsLayout(src, kids, w) && k + 1 < |w|
    ensures Slices.Parts(src, kids, PartAt(w, k), |kids| - 1)
            == [PartText(src, kids, w, k)] + Slices.Parts(src, kids, PartAt(w, k + 1), |kids| - 1)
  {
    var q := PartAt(w, k);
    assert PartShape(src, kids, w, k) && PartShape(src, kids, w, k + 1);
    if w[k] {
      PartsAtChild(src, kids, q, |kids| - 1);
    } else {
      PartsAtColon(src, kids, q, |kids| - 1);
    }
  }

  /** The last part runs up to the closing child. */
  lemma LayoutLastStep(src: Source, kids: seq<Node>, w: seq<bool>, k: nat)
    requires PartsLayout(src, kids, w) && k + 1 == |w|
    ensures Slices.Parts(src, kids, PartAt(w, k), |kids| - 1) == [PartText(src, kids, w, k)]
  {
    assert PartShape(src, kids, w, k);
    if w[k] {
      PartsAtChild(src, kids, PartAt(w, k), |kids| - 1);
    }
  }

  lemma PartsAtColon(src: Source, kids: seq<Node>, i: nat, j: nat)
    requires i < j <= |kids| && Text(src, kids[i]) == ":"
    ensures Slices.Parts(src, kids, i, j) == [""] + Slices.Parts(src, kids, i + 1, j)
  {
  }

  /** A child that is not a `:` token, followed by one or by the end, is a part of its own. */
  lemma PartsAtChild(src: Source, kids: seq<Node>, i: nat, j: nat)
    requires i < j <= |kids| && Text(src, kids[i]) != ":"
    requires i + 1 == j || Text(src, kids[i + 1]) == ":"
    ensures i + 1 == j ==> Slices.Parts(src, kids, i, j) == [Text(src, kids[i])]
    ensures i + 1 < j ==> Slices.Parts(src, kids, i, j) == [Text(src, kids[i])] + Slices.Parts(src, kids, i + 2, j)
  {
    if i + 1 == j {
      assert Text(src, kids[i]) + "" == Text(src, kids[i]);
    } else {
      PartsAtColon(src, kids, i + 1, j);
      assert Text(src, kids[i]) + "" == Text(src, kids[i]);
    }
  }

  /** Part `k`'s expression when it is written, otherwise the default literal `dflt`. */
  function Component(src: Source, n: Node, w: seq<bool>, k: nat, dflt: Expr): Result<Expr>
    requires SliceLayout(src, n, w)
  {
    if k < |w| && w[k] then ExprOf(src, n.children[PartAt(w, k)]) else Ok(dflt)
  }

  /** The slice of `obj` from a start, an end and a stride, the first failure among them winning. */
  function Assemble(loc: Location, obj: Expr, start: Result<Expr>, end: Result<Expr>, stride: Result<Expr>): Result<Expr>
  {
    var s :- start;
    var e :- end;
    var t :- stride;
    Ok(Slicing(loc, obj, s, e, t))
  }

  /**
   * The slice a layout denotes: the start, end and stride are the expressions
   * of the first, second and third parts, in that order, and the literals 0,
   * -1 and 1 for a part left empty or (the stride) not there at all.
   */
  function SliceFrom(src: Source, n: Node, obj: Expr, w: seq<bool>): Result<Expr>
    requires SliceLayout(src, n, w)
  {
    var loc := Pos(src, n);
    Assemble(loc, obj, Component(src, n, w, 0, Lit(loc, NumLit(0))),
             Component(src, n, w, 1, Lit(loc, NumLit(-1))), Component(src, n, w, 2, Lit(loc, NumLit(1))))
  }

  /**
   * A slice whose parts are one child or none is the slice its layout
   * denotes: `a[1:2:3]` has components 1, 2 and 3, `a[1:2]` and `a[:]` the
   * stride 1, and the first part that does not parse is the error.
   */
  lemma SliceComponents(src: Source, n: Node, obj: Expr, w: seq<bool>)
    requires n.kind == "MemberExpression" && SliceLayout(src, n, w)
    requires ExprOf(src, n.children[0]) == Ok(obj) && Text(src, n.children[1]) == "["
    ensures ExprOf(src, n) == SliceFrom(src, n, obj, w)
  {
    SliceContents(src, n, obj, w);
    SliceWalkLayout(src, n, obj, w, Slices.Parts(src, n.children, 2, |n.children| - 1));
  }

  /** The contents of a slice layout run from child 2 to the last child and are walked as its parts. */
  lemma SliceContents(src: Source, n: Node, obj: Expr, w: seq<bool>)
    requires n.kind == "MemberExpression" && SliceLayout(src, n, w)
    requires ExprOf(src, n.children[0]) == Ok(obj) && Text(src, n.children[1]) == "["
    ensures var parts := Slices.Parts(src, n.children, 2, |n.children| - 1);
            && ExprOf(src, n) == SliceWalk(src, n, obj, parts)
            && |parts| == |w| && forall k :: 0 <= k < |w| ==> (parts[k] != "" <==> w[k])
  {
    var kids := n.children;
    assert ContentStart(n) == 2;
    LayoutCut(src, kids, w);
    BracketWalk(src, n, obj, |kids| - 1);
  }

  /** Contents cut into at most three parts are walked as a slice or an element access. */
  lemma BracketWalk(src: Source, n: Node, obj: Expr, close: nat)
    requires IsBracketAccess(src, n, obj) && Slices.CloseFrom(src, n.children, ContentStart(n)) == Some(close)
    requires Slices.Texts(src, n.children, ContentStart(n), close) != ""
    requires |Slices.Parts(src, n.children, ContentStart(n), close)| <= 3
    ensures ExprOf(src, n) == SliceWalk(src, n, obj, Slices.Parts(src, n.children, ContentStart(n), close))
  {
    BracketAccess(src, n, obj);
  }

  /** With one `:` token and `]` right after the second part, the stride is the literal 1. */
  lemma OneColonStride(src: Source, n: Node, obj: Expr, w: seq<bool>)
    requires n.kind == "MemberExpression" && SliceLayout(src, n, w) && |w| == 2
    requires ExprOf(src, n.children[0]) == Ok(obj) && Text(src, n.children[1]) == "["
    requires ExprOf(src, n).Ok?
    ensures ExprOf(src, n).value.Slicing?
    ensures ExprOf(src, n).value.stride == Lit(Pos(src, n), NumLit(1))
  {
    SliceComponents(src, n, obj, w);
  }

  /** The contents of a layout are not empty and cut into its parts, written where `w` says. */
  lemma LayoutCut(src: Source, kids: seq<Node>, w: seq<bool>)
    requires PartsLayout(src, kids, w)
    ensures var parts := Slices.Parts(src, kids, 2, |kids| - 1);
            && Slices.Texts(src, kids, 2, |kids| - 1) != ""
            && |parts| == |w| && forall k :: 0 <= k < |w| ==> (parts[k] != "" <==> w[k])
  {
    LayoutParts(src, kids, w, 0);
    var parts := Slices.Parts(src, kids, 2, |kids| - 1);
    assert parts == LayoutTexts(src, kids, w);
    forall k | 0 <= k < |w|
      ensures parts[k] != "" <==> w[k]
    {
      LayoutTextWritten(src, kids, w, k);
    }
    Slices.SeveralPartsSomeText(src, kids, 2, |kids| - 1);
  }

  lemma SliceWalkLayout(src: Source, n: Node, obj: Expr, w: seq<bool>, parts: seq<string>)
    requires SliceLayout(src, n, w)
    requires |parts| == |w| && forall k :: 0 <= k < |w| ==> (parts[k] != "" <==> w[k])
    ensures SliceWalk(src, n, obj, parts) == SliceFrom(src, n, obj, w)
  {
    var kids := n.children;
    var loc := Pos(src, n);
    var q := PartAt(w, 1) - 1;
    if w[0] {
      assert q == 3;
      var start := ExprOf(src, kids[2]);
      if start.Ok? {
        SliceRestLayout(src, n, obj, w, parts, start.value);
      }
    } else {
      assert q == 2;
      SliceRestLayout(src, n, obj, w, parts, Lit(loc, NumLit(0)));
    }
  }

  /** From the first `:` token on, the end and stride follow the layout. */
  lemma SliceRestLayout(src: Source, n: Node, obj: Expr, w: seq<bool>, parts: seq<string>, start: Expr)
    requires SliceLayout(src, n, w)
    requires |parts| == |w| && forall k :: 0 <= k < |w| ==> (parts[k] != "" <==> w[k])
    ensures var loc := Pos(src, n);
            SliceRest(src, n, obj, parts, start, PartAt(w, 1) - 1)
            == Assemble(loc, obj, Ok(start), Component(src, n, w, 1, Lit(loc, NumLit(-1))),
                        Component(src, n, w, 2, Lit(loc, NumLit(1))))
  {
    var kids := n.children;
    var q, p2 := PartAt(w, 1) - 1, PartAt(w, 2) - 1;
    SliceRestAfterColon(src, n, obj, parts, start, q);
    assert (if Written(parts, 1) then Next(kids, q + 1) else q + 1) == p2;
    if |w| == 3 {
      assert Moves(kids, p2) && Next(kids, p2) == PartAt(w, 2);
    }
  }

  /** The cursor walk after a `:` token that is not the last child. */
  lemma SliceRestAfterColon(src: Source, n: Node, obj: Expr, parts: seq<string>, start: Expr, q: nat)
    requires q + 1 < |n.children|
    ensures var kids := n.children;
            var loc := Pos(src, n);
            var p2 := if Written(parts, 1) then Next(kids, q + 1) else q + 1;
            SliceRest(src, n, obj, parts, start, q)
            == Assemble(loc, obj, Ok(start),
                        if Written(parts, 1) then ExprOf(src, kids[q + 1]) else Ok(Lit(loc, NumLit(-1))),
                        if Moves(kids, p2) && Written(parts, 2) then ExprOf(src, kids[Next(kids, p2)]) else Ok(Lit(loc, NumLit(1))))
  {
  }

  /** A lambda's parameter names are the texts of its `VariableName` parameters and no others. */
  lemma {:induction false} ParamNamesMeaning(src: Source, params: seq<Node>)
    ensures forall x :: x in ParamNames(src, params) <==>
              exists i :: 0 <= i < |params| && params[i].kind == "VariableName" && Text(src, params[i]) == x
  {
    if params != [] {
      ParamNamesMeaning(src, params[1..]);
      forall x | x in ParamNames(src, params[1..])
        ensures exists i :: 0 <= i < |params| && params[i].kind == "VariableName" && Text(src, params[i]) == x
      {
        var i :| 0 <= i < |params[1..]| && params[1..][i].kind == "VariableName" && Text(src, params[1..][i]) == x;
        assert params[i + 1] == params[1..][i];
      }
      forall i | 1 <= i < |params| && params[i].kind == "VariableName"
        ensures Text(src, params[i]) in ParamNames(src, params[1..])
      {
        assert params[1..][i - 1] == params[i];
      }
    }
  }

  /** Names are taken in the order of the parameters: one more parameter adds its name at the end. */
  lemma {:induction false} ParamNamesSnoc(src: Source, params: seq<Node>, p: Node)
    ensures ParamNames(src, params + [p])
            == ParamNames(src, params) + (if p.kind == "VariableName" then [Text(src, p)] else [])
  {
    if params != [] {
      assert (params + [p])[1..] == params[1..] + [p];
      ParamNamesSnoc(src, params[1..], p);
    } else {
      assert ParamNames(src, [p][1..]) == [];
    }
  }

  /** Child `k` is an entry's key and the child two further (or the last) its value (per `rs`). */
  predicate EntryAt(n: Node, rs: seq<Result<Expr>>, k: nat, e: (Expr, Expr))
  {
    && k < |n.children| && |rs| == |n.children|
    && rs[k] == Ok(e.0)
    && rs[Next(n.children, Next(n.children, k))] == Ok(e.1)
  }

  lemma ShiftEntries(n: Node, rs: seq<Result<Expr>>, i: nat, e: (Expr, Expr), rest: seq<(Expr, Expr)>)
    requires EntryAt(n, rs, i + 1, e)
    requires forall j :: 0 <= j < |rest| ==> EntryAt(n, rs, i + 4 + 1 + 4 * j, rest[j])
    ensures forall j :: 0 <= j < |[e] + rest| ==> EntryAt(n, rs, i + 1 + 4 * j, ([e] + rest)[j])
  {
    var es := [e] + rest;
    forall j | 0 <= j < |es|
      ensures EntryAt(n, rs, i + 1 + 4 * j, es[j])
    {
      if j > 0 {
        var k := i + 4 + 1 + 4 * (j - 1);
        assert EntryAt(n, rs, k, rest[j - 1]);
        assert k == i + 1 + 4 * j && es[j] == rest[j - 1];
      }
    }
  }

  /** The entry walk of `DictFrom` over children whose parses are already known. */
  function DictOver(src: Source, n: Node, rs: seq<Result<Expr>>, i: nat): Result<seq<(Expr, Expr)>>
    requires i < |n.children| == |rs|
    decreases |n.children| - i
  {
    var kids := n.children;
    if !Moves(kids, i) then Ok([])
    else
      var k := i + 1;
      if Text(src, kids[k]) == "}" then Ok([])
      else
        var key :- rs[k];
        var v := Next(kids, Next(kids, k));
        var value :- rs[v];
        Cons((key, value), DictOver(src, n, rs, Next(kids, v)))
  }

  /** One entry in front of the rest, failing with the first failure among key, value and rest. */
  function EntryThen(key: Result<Expr>, value: Result<Expr>, rest: Result<seq<(Expr, Expr)>>): Result<seq<(Expr, Expr)>>
  {
    var k :- key;
    var v :- value;
    Cons((k, v), rest)
  }

  /** Parsing the children first and walking afterwards gives the same entries. */
  lemma {:induction false} DictFromOver(src: Source, n: Node, i: nat)
    requires i < |n.children|
    ensures DictFrom(src, n, i) == DictOver(src, n, Parsed(src, n.children), i)
    decreases |n.children| - i
  {
    var kids := n.children;
    var rs := Parsed(src, kids);
    if Moves(kids, i) && Text(src, kids[i + 1]) != "}" {
      var k := i + 1;
      var v := Next(kids, Next(kids, k));
      var i' := Next(kids, v);
      ParsedAt(src, kids, k);
      ParsedAt(src, kids, v);
      DictFromOver(src, n, i');
      assert DictFrom(src, n, i) == EntryThen(ExprOf(src, kids[k]), ExprOf(src, kids[v]), DictFrom(src, n, i'));
      assert DictOver(src, n, rs, i) == EntryThen(rs[k], rs[v], DictOver(src, n, rs, i'));
    }
  }

  /** Another entry follows only when the cursor moved over all four children of the previous one. */
  lemma DictStep(src: Source, n: Node, rs: seq<Result<Expr>>, i: nat, rest: seq<(Expr, Expr)>)
    requires i + 1 < |n.children| == |rs|
    requires var kids := n.children; DictOver(src, n, rs, Next(kids, Next(kids, Next(kids, i + 1)))) == Ok(rest)
    requires rest != []
    ensures Next(n.children, Next(n.children, Next(n.children, i + 1))) == i + 4
  {
  }

  lemma {:induction false} DictOverInOrder(src: Source, n: Node, rs: seq<Result<Expr>>, i: nat, es: seq<(Expr, Expr)>)
    requires i < |n.children| == |rs|
    requires DictOver(src, n, rs, i) == Ok(es)
    ensures forall j :: 0 <= j < |es| ==> EntryAt(n, rs, i + 1 + 4 * j, es[j])
    decreases |n.children| - i
  {
    var kids := n.children;
    if es != [] {
      var k := i + 1;
      var v := Next(kids, Next(kids, k));
      var i' := Next(kids, v);
      var rest := es[1..];
      assert es == [es[0]] + rest;
      assert DictOver(src, n, rs, i') == Ok(rest);
      assert EntryAt(n, rs, k, es[0]);
      DictOverInOrder(src, n, rs, i', rest);
      if rest != [] {
        DictStep(src, n, rs, i, rest);
      }
      ShiftEntries(n, rs, i, es[0], rest);
    }
  }

  /**
   * Dictionary entries in order: the key of entry `j` is the child `4j + 1`
   * places after the opening position, and its value two children further
   * (or the last child, where the display ends early).
   */
  lemma DictEntriesInOrder(src: Source, n: Node, i: nat, es: seq<(Expr, Expr)>)
    requires i < |n.children|
    requires DictFrom(src, n, i) == Ok(es)
    ensures forall j :: 0 <= j < |es| ==> EntryAt(n, Parsed(src, n.children), i + 1 + 4 * j, es[j])
  {
    DictFromOver(src, n, i);
    DictOverInOrder(src, n, Parsed(src, n.children), i, es);
  }
}
