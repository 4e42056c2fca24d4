/**
 * Statements (parser.ts, traverseStmt): the statement a syntax node denotes,
 * defined by recursion over the tree.  A block is the body node of an `if`,
 * `while` or `for`: its first child is the `:` token and every later child
 * is a statement.
 */
module Stmts {
  import opened Ast
  import opened Cst
  import opened SourcePos
  import opened Exprs
  import opened Targets

  /** The statement node `n` denotes. */
  function StmtOf(src: Source, n: Node): Result<Stmt>
    decreases n, 2, 0
  {
    var loc := Pos(src, n);
    if n.kind == "ReturnStatement" then ReturnOf(src, n)
    else if n.kind == "AssignStatement" then AssignOf(src, n)
    else if n.kind == "ExpressionStatement" then
      if n.children == [] then NoChild()
      else
        var e :- ExprOf(src, n.children[0]);
        Ok(ExprStmt(loc, e))
    else if n.kind == "IfStatement" then IfOf(src, n)
    else if n.kind == "WhileStatement" then WhileOf(src, n)
    else if n.kind == "PassStatement" then Ok(Pass(loc))
    else if n.kind == "ContinueStatement" then Ok(Continue(loc))
    else if n.kind == "BreakStatement" then Ok(Break(loc))
    else if n.kind == "ForStatement" then ForOf(src, n)
    else ErrAt(loc, UnknownStmt)
  }

  /** A `return` with the expression after the keyword, or the literal `None` when there is none. */
  function ReturnOf(src: Source, n: Node): Result<Stmt>
  {
    var loc := Pos(src, n);
    var kids := n.children;
    if kids == [] then NoChild()
    else if Moves(kids, 0) then
      var e :- ExprOf(src, kids[1]);
      Ok(Return(loc, e))
    else Ok(Return(loc, Lit(loc, NoneLit)))
  }

  /**
   * An assignment: the left-hand side, then the value two children after
   * the position the left-hand side leaves the cursor at, one before the
   * `AssignOp` (`prevSibling`).
   */
  function AssignOf(src: Source, n: Node): Result<Stmt>
  {
    var kids := n.children;
    if kids == [] then NoChild()
    else
      var (d, a) :- DestructureOf(src, kids);
      var back := if a > 0 then a - 1 else a;
      var value :- ExprOf(src, kids[Next(kids, Next(kids, back))]);
      Ok(Assignment(Pos(src, n), d, value))
  }

  /**
   * An `if`: keyword, condition, the then-block, then `else` and the
   * else-block; the then-block is parsed before the `else` is looked for.
   */
  function IfOf(src: Source, n: Node): Result<Stmt>
    decreases n, 1, 0
  {
    var loc := Pos(src, n);
    var kids := n.children;
    if kids == [] then NoChild()
    else
      var c := Next(kids, 0);
      var cond :- ExprOf(src, kids[c]);
      var b := Next(kids, c);
      var thn :- BlockOf(src, kids[b]);
      if !Moves(kids, b) || kids[b + 1].kind != "else" then ErrAt(loc, MissingElse)
      else
        var els :- BlockOf(src, kids[Next(kids, b + 1)]);
        Ok(If(loc, cond, thn, els))
  }

  function WhileOf(src: Source, n: Node): Result<Stmt>
    decreases n, 1, 0
  {
    var kids := n.children;
    if kids == [] then NoChild()
    else
      var c := Next(kids, 0);
      var cond :- ExprOf(src, kids[c]);
      var body :- BlockOf(src, kids[Next(kids, c)]);
      Ok(While(Pos(src, n), cond, body))
  }

  /**
   * A `for`: keyword, a name, then either `in` or `,` followed by a second
   * name and `in`; with two names the first is the index and the second the
   * element.  Then the iterable and the block.
   */
  function ForOf(src: Source, n: Node): Result<Stmt>
    decreases n, 1, 0
  {
    var kids := n.children;
    if kids == [] then NoChild()
    else
      var p1 := Next(kids, 0);
      var p2 := Next(kids, p1);
      var twoNames := Text(src, kids[p2]) == ",";
      var name := if twoNames then Text(src, kids[Next(kids, p2)]) else Text(src, kids[p1]);
      var index := if twoNames then Some(Text(src, kids[p1])) else None;
      var inPos := if twoNames then Next(kids, Next(kids, p2)) else p2;
      var it := Next(kids, inPos);
      var iter :- ExprOf(src, kids[it]);
      var body :- BlockOf(src, kids[Next(kids, it)]);
      Ok(For(Pos(src, n), name, index, iter, body))
  }

  /** The statements of a block: every child after the leading `:`. */
  function BlockOf(src: Source, b: Node): Result<seq<Stmt>>
    decreases b, 1, 0
  {
    if b.children == [] then NoChild() else StmtsFrom(src, b, 1)
  }

  /** The statements of the children of `p` from position `i` on, in order. */
  function StmtsFrom(src: Source, p: Node, i: nat): Result<seq<Stmt>>
    requires i <= |p.children|
    decreases p, 0, |p.children| - i
  {
    if i == |p.children| then Ok([])
    else
      var s :- StmtOf(src, p.children[i]);
      Cons(s, StmtsFrom(src, p, i + 1))
  }

  /** What each of the nodes parses to as a statement, in order. */
  function StmtResults(src: Source, nodes: seq<Node>): (rs: seq<Result<Stmt>>)
    ensures |rs| == |nodes|
  {
    if nodes == [] then [] else [StmtOf(src, nodes[0])] + StmtResults(src, nodes[1..])
  }

  lemma {:induction false} StmtResultsAt(src: Source, nodes: seq<Node>, k: nat)
    requires k < |nodes|
    ensures StmtResults(src, nodes)[k] == StmtOf(src, nodes[k])
  {
    if k > 0 {
      StmtResultsAt(src, nodes[1..], k - 1);
    }
  }

  /** The statements from position `i` on are the statements of those children, collected in order. */
  lemma {:induction false} StmtsFromCollect(src: Source, p: Node, i: nat)
    requires i <= |p.children|
    ensures StmtsFrom(src, p, i) == Collect(StmtResults(src, p.children[i..]))
    decreases |p.children| - i
  {
    var kids := p.children;
    if i < |kids| {
      StmtsFromCollect(src, p, i + 1);
      assert kids[i..][0] == kids[i] && kids[i..][1..] == kids[i + 1..];
      var rs := StmtResults(src, kids[i..]);
      assert rs[0] == StmtOf(src, kids[i]) && rs[1..] == StmtResults(src, kids[i + 1..]);
    } else {
      assert kids[i..] == [];
    }
  }

  /**
   * A block parses to `ss` exactly when it has one statement for each child
   * after the `:`, each what its child parses to, in order; otherwise the
   * error is the first failing child's (`StmtsFromCollect`, `Collect`).
   */
  lemma BlockInOrder(src: Source, b: Node, ss: seq<Stmt>)
    requires b.children != []
    ensures BlockOf(src, b) == Ok(ss) <==>
              && |ss| == |b.children| - 1
              && forall k :: 0 <= k < |ss| ==> StmtResults(src, b.children[1..])[k] == Ok(ss[k])
  {
    StmtsFromCollect(src, b, 1);
    CollectOk(StmtResults(src, b.children[1..]), ss);
  }

  /** An `if` whose then-block parses but is not followed by `else` is rejected at the `if`. */
  lemma IfWithoutElse(src: Source, n: Node, cond: Expr, thn: seq<Stmt>)
    requires n.kind == "IfStatement" && n.children != []
    requires ExprOf(src, n.children[Next(n.children, 0)]) == Ok(cond)
    requires var b := Next(n.children, Next(n.children, 0));
             && BlockOf(src, n.children[b]) == Ok(thn)
             && (!Moves(n.children, b) || n.children[b + 1].kind != "else")
    ensures StmtOf(src, n) == ErrAt(Pos(src, n), MissingElse)
  {
    assert StmtOf(src, n) == IfOf(src, n);
  }

  /** A `return` without an expression returns the literal `None`, located at the statement. */
  lemma ReturnNone(src: Source, n: Node)
    requires n.kind == "ReturnStatement" && |n.children| == 1
    ensures StmtOf(src, n) == Ok(Return(Pos(src, n), Lit(Pos(src, n), NoneLit)))
  {
    assert StmtOf(src, n) == ReturnOf(src, n);
  }

  /** A `for` over two names binds the first as the index and the second as the element. */
  lemma ForTwoNames(src: Source, n: Node)
    requires n.kind == "ForStatement" && |n.children| >= 4
    requires Text(src, n.children[2]) == ","
    requires StmtOf(src, n).Ok?
    ensures StmtOf(src, n).value.For?
    ensures StmtOf(src, n).value.index == Some(Text(src, n.children[1]))
    ensures StmtOf(src, n).value.name == Text(src, n.children[3])
  {
    var kids := n.children;
    assert Next(kids, 0) == 1 && Next(kids, 1) == 2 && Next(kids, 2) == 3;
    assert StmtOf(src, n) == ForOf(src, n);
  }

  /** Every statement built for a node carries that node's location. */
  lemma StmtLocated(src: Source, n: Node)
    requires StmtOf(src, n).Ok?
    ensures StmtOf(src, n).value.a == Pos(src, n)
  {
    if n.kind in {"ReturnStatement", "AssignStatement"} {
      SimpleLocated(src, n);
    } else if n.kind in {"IfStatement", "WhileStatement", "ForStatement"} {
      CompoundLocated(src, n);
    }
  }

  lemma SimpleLocated(src: Source, n: Node)
    requires n.kind in {"ReturnStatement", "AssignStatement"} && StmtOf(src, n).Ok?
    ensures StmtOf(src, n).value.a == Pos(src, n)
  {
    if n.kind == "ReturnStatement" {
      assert StmtOf(src, n) == ReturnOf(src, n);
    } else {
      assert StmtOf(src, n) == AssignOf(src, n);
    }
  }

  lemma CompoundLocated(src: Source, n: Node)
    requires n.kind in {"IfStatement", "WhileStatement", "ForStatement"} && StmtOf(src, n).Ok?
    ensures StmtOf(src, n).value.a == Pos(src, n)
  {
    if n.kind == "IfStatement" {
      IfLocated(src, n);
    } else if n.kind == "WhileStatement" {
      assert StmtOf(src, n) == WhileOf(src, n);
    } else {
      ForLocated(src, n);
    }
  }

  lemma IfLocated(src: Source, n: Node)
    requires n.kind == "IfStatement" && StmtOf(src, n).Ok?
    ensures StmtOf(src, n).value.a == Pos(src, n)
  {
    assert StmtOf(src, n) == IfOf(src, n);
  }

  lemma ForLocated(src: Source, n: Node)
    requires n.kind == "ForStatement" && StmtOf(src, n).Ok?
    ensures StmtOf(src, n).value.a == Pos(src, n)
  {
    assert StmtOf(src, n) == ForOf(src, n);
  }

  /**
   * `pass`, `continue` and `break` are those statements at the node; a node
   * of any kind that is not a statement kind is `Could not parse stmt`.
   */
  lemma SimpleStatements(src: Source, n: Node)
    ensures n.kind == "PassStatement" ==> StmtOf(src, n) == Ok(Pass(Pos(src, n)))
    ensures n.kind == "ContinueStatement" ==> StmtOf(src, n) == Ok(Continue(Pos(src, n)))
    ensures n.kind == "BreakStatement" ==> StmtOf(src, n) == Ok(Break(Pos(src, n)))
    ensures n.kind !in {"ReturnStatement", "AssignStatement", "ExpressionStatement", "IfStatement",
                        "WhileStatement", "PassStatement", "ContinueStatement", "BreakStatement", "ForStatement"}
            ==> StmtOf(src, n) == ErrAt(Pos(src, n), UnknownStmt)
  {
  }

  /** An expression statement is its one expression, at the statement. */
  lemma ExprStmtShape(src: Source, n: Node)
    requires n.kind == "ExpressionStatement" && n.children != []
    ensures var e := ExprOf(src, n.children[0]);
            && (e.Ok? ==> StmtOf(src, n) == Ok(ExprStmt(Pos(src, n), e.value)))
            && (e.Fail? ==> StmtOf(src, n) == Fail(e.err))
  {
  }

  /** `return e` returns the expression `e`, at the statement. */
  lemma ReturnValue(src: Source, n: Node)
    requires n.kind == "ReturnStatement" && |n.children| == 2
    ensures var e := ExprOf(src, n.children[1]);
            && (e.Ok? ==> StmtOf(src, n) == Ok(Return(Pos(src, n), e.value)))
            && (e.Fail? ==> StmtOf(src, n) == Fail(e.err))
  {
    assert StmtOf(src, n) == ReturnOf(src, n);
  }

  /**
   * The value of an assignment is the child right after its `AssignOp`,
   * which comes after at least one target; an assignment whose left-hand
   * side fails to parse fails the same way.
   */
  lemma AssignValue(src: Source, n: Node)
    requires n.kind == "AssignStatement" && n.children != []
    ensures var kids := n.children;
            var lhs := DestructureOf(src, kids);
            && (lhs.Fail? ==> StmtOf(src, n) == Fail(lhs.err))
            && (lhs.Ok? ==> 0 < lhs.value.1)
            && (lhs.Ok? && lhs.value.1 + 1 < |kids| && ExprOf(src, kids[lhs.value.1 + 1]).Ok? ==>
                  StmtOf(src, n) == Ok(Assignment(Pos(src, n), lhs.value.0, ExprOf(src, kids[lhs.value.1 + 1]).value)))
            && (lhs.Ok? && lhs.value.1 + 1 < |kids| && ExprOf(src, kids[lhs.value.1 + 1]).Fail? ==>
                  StmtOf(src, n) == Fail(ExprOf(src, kids[lhs.value.1 + 1]).err))
  {
    assert StmtOf(src, n) == AssignOf(src, n);
    AssignOfValue(src, n);
  }

  lemma AssignOfValue(src: Source, n: Node)
    requires n.children != []
    ensures var kids := n.children;
            var lhs := DestructureOf(src, kids);
            && (lhs.Fail? ==> AssignOf(src, n) == Fail(lhs.err))
            && (lhs.Ok? ==> 0 < lhs.value.1)
            && (lhs.Ok? && lhs.value.1 + 1 < |kids| ==>
                  AssignOf(src, n) == (var e :- ExprOf(src, kids[lhs.value.1 + 1]); Ok(Assignment(Pos(src, n), lhs.value.0, e))))
  {
    var kids := n.children;
    if DestructureOf(src, kids).Ok? {
      FirstTargetNotAssignOp(src, kids);
      var a := DestructureOf(src, kids).value.1;
      assert Next(kids, a - 1) == a;
    }
  }

  /** A left-hand side that parses starts with a target, so its `AssignOp` is not the first child. */
  lemma FirstTargetNotAssignOp(src: Source, kids: seq<Node>)
    requires kids != [] && DestructureOf(src, kids).Ok?
    ensures DestructureOf(src, kids).value.1 > 0
  {
    TargetMeaning(src, kids, 0);
  }

  /**
   * `while c: b` loops over the block `b` while `c` holds, at the statement;
   * the condition is parsed before the block.
   */
  lemma WhileShape(src: Source, n: Node)
    requires n.kind == "WhileStatement" && |n.children| == 3
    ensures var c := ExprOf(src, n.children[1]);
            var b := BlockOf(src, n.children[2]);
            && (c.Ok? && b.Ok? ==> StmtOf(src, n) == Ok(While(Pos(src, n), c.value, b.value)))
            && (c.Fail? ==> StmtOf(src, n) == Fail(c.err))
            && (c.Ok? && b.Fail? ==> StmtOf(src, n) == Fail(b.err))
  {
    assert StmtOf(src, n) == WhileOf(src, n);
  }

  /** `if c: b1 else: b2` chooses between the two blocks on `c`, at the statement. */
  lemma IfElseShape(src: Source, n: Node)
    requires n.kind == "IfStatement" && |n.children| == 5 && n.children[3].kind == "else"
    ensures var kids := n.children;
            var c := ExprOf(src, kids[1]);
            var b1 := BlockOf(src, kids[2]);
            var b2 := BlockOf(src, kids[4]);
            && (StmtOf(src, n).Ok? <==> c.Ok? && b1.Ok? && b2.Ok?)
            && (StmtOf(src, n).Ok? ==> StmtOf(src, n).value == If(Pos(src, n), c.value, b1.value, b2.value))
  {
    assert StmtOf(src, n) == IfOf(src, n);
  }

  /** `for x in e: b` binds the element to `x` with no index, iterating over `e`. */
  lemma ForOneName(src: Source, n: Node)
    requires n.kind == "ForStatement" && |n.children| == 5 && Text(src, n.children[2]) != ","
    ensures var kids := n.children;
            var it := ExprOf(src, kids[3]);
            var b := BlockOf(src, kids[4]);
            && (StmtOf(src, n).Ok? <==> it.Ok? && b.Ok?)
            && (StmtOf(src, n).Ok? ==> StmtOf(src, n).value == For(Pos(src, n), Text(src, kids[1]), None, it.value, b.value))
  {
    var kids := n.children;
    assert Next(kids, 0) == 1 && Next(kids, 1) == 2 && Next(kids, 2) == 3 && Next(kids, 3) == 4;
    assert StmtOf(src, n) == ForOf(src, n);
  }

  /** `traverseStmt`: the statements with loops are built by the methods below. */
  method TraverseStmt(src: Source, n: Node) returns (r: Result<Stmt>)
    ensures r == StmtOf(src, n)
    decreases n, 2
  {
    if n.kind == "AssignStatement" {
      r := TraverseAssign(src, n);
    } else if n.kind == "IfStatement" {
      r := TraverseIf(src, n);
    } else if n.kind == "WhileStatement" {
      r := TraverseWhile(src, n);
    } else if n.kind == "ForStatement" {
      r := TraverseFor(src, n);
    } else {
      r := StmtOf(src, n);
    }
  }

  method TraverseAssign(src: Source, n: Node) returns (r: Result<Stmt>)
    requires n.kind == "AssignStatement"
    ensures r == StmtOf(src, n)
  {
    assert StmtOf(src, n) == AssignOf(src, n);
    var kids := n.children;
    if kids == [] {
      return NoChild();
    }
    var d := TraverseDestructure(src, kids);
    if d.Fail? {
      return Fail(d.err);
    }
    var a := d.value.1;
    var back := if a > 0 then a - 1 else a;
    var value := ExprOf(src, kids[Next(kids, Next(kids, back))]);
    if value.Fail? {
      return Fail(value.err);
    }
    return Ok(Assignment(Pos(src, n), d.value.0, value.value));
  }

  method TraverseIf(src: Source, n: Node) returns (r: Result<Stmt>)
    requires n.kind == "IfStatement"
    ensures r == StmtOf(src, n)
    decreases n, 1
  {
    assert StmtOf(src, n) == IfOf(src, n);
    var loc := Pos(src, n);
    var kids := n.children;
    if kids == [] {
      return NoChild();
    }
    var c := Next(kids, 0);
    var cond := ExprOf(src, kids[c]);
    if cond.Fail? {
      return Fail(cond.err);
    }
    var b := Next(kids, c);
    var thn := TraverseBlock(src, kids[b]);
    if thn.Fail? {
      return Fail(thn.err);
    }
    if !Moves(kids, b) || kids[b + 1].kind != "else" {
      return ErrAt(loc, MissingElse);
    }
    var els := TraverseBlock(src, kids[Next(kids, b + 1)]);
    if els.Fail? {
      return Fail(els.err);
    }
    return Ok(If(loc, cond.value, thn.value, els.value));
  }

  method TraverseWhile(src: Source, n: Node) returns (r: Result<Stmt>)
    requires n.kind == "WhileStatement"
    ensures r == StmtOf(src, n)
    decreases n, 1
  {
    assert StmtOf(src, n) == WhileOf(src, n);
    var kids := n.children;
    if kids == [] {
      return NoChild();
    }
    var c := Next(kids, 0);
    var cond := ExprOf(src, kids[c]);
    if cond.Fail? {
      return Fail(cond.err);
    }
    var body := TraverseBlock(src, kids[Next(kids, c)]);
    if body.Fail? {
      return Fail(body.err);
    }
    return Ok(While(Pos(src, n), cond.value, body.value));
  }

  method TraverseFor(src: Source, n: Node) returns (r: Result<Stmt>)
    requires n.kind == "ForStatement"
    ensures r == StmtOf(src, n)
    decreases n, 1
  {
    assert StmtOf(src, n) == ForOf(src, n);
    var kids := n.children;
    if kids == [] {
      return NoChild();
    }
    var p := Next(kids, 0);
    var name := Text(src, kids[p]);
    p := Next(kids, p);
    var index: Option<string> := None;
    if Text(src, kids[p]) == "," {
      index := Some(name);
      p := Next(kids, p);
      name := Text(src, kids[p]);
      p := Next(kids, p);
    }
    p := Next(kids, p);
    var iter := ExprOf(src, kids[p]);
    if iter.Fail? {
      return Fail(iter.err);
    }
    var body := TraverseBlock(src, kids[Next(kids, p)]);
    if body.Fail? {
      return Fail(body.err);
    }
    return Ok(For(Pos(src, n), name, index, iter.value, body.value));
  }

  /** The loop over a block: enter at the `:`, then a statement for every further child. */
  method TraverseBlock(src: Source, b: Node) returns (r: Result<seq<Stmt>>)
    ensures r == BlockOf(src, b)
    decreases b, 0
  {
    var kids := b.children;
    if kids == [] {
      return NoChild();
    }
    var stmts: seq<Stmt> := [];
    var i := 0;
    PrependNothing(StmtsFrom(src, b, 1));
    while Moves(kids, i)
      invariant i < |kids|
      invariant Prepend(stmts, StmtsFrom(src, b, i + 1)) == StmtsFrom(src, b, 1)
      decreases |kids| - i
    {
      i := i + 1;
      var s := TraverseStmt(src, kids[i]);
      if s.Fail? {
        return Fail(s.err);
      }
      PrependCons(stmts, s.value, StmtsFrom(src, b, i + 1));
      stmts := stmts + [s.value];
    }
    PrependToEmpty(stmts);
    return Ok(stmts);
  }
}
