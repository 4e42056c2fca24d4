/**
 * Type annotations (parser.ts, traverseType, traverseBracketType and
 * traverseCallable): a name, a bracketed list or dictionary type, or a
 * `Callable[[argument types], return type]`.
 */
module Types {
  import Js
  import opened Ast
  import opened Cst
  import opened SourcePos

  /** The type the annotation node `n` denotes. */
  function TypeOf(src: Source, n: Node): Result<Type>
    decreases n, 2, 0
  {
    var name := Text(src, n);
    if n.kind == "ArrayExpression" then BracketTypeOf(src, n)
    else if name == "int" then Ok(NumT)
    else if name == "str" then Ok(StringT)
    else if name == "bool" then Ok(BoolT)
    else if n.kind == "MemberExpression" then CallableOf(src, n)
    else Ok(ClassT(name))
  }

  /** A bracketed type: one inner type is a list type, two a dictionary type, any other number an error. */
  function BracketTypeOf(src: Source, n: Node): Result<Type>
    decreases n, 1, 0
  {
    if n.children == [] then NoChild()
    else
      var ts :- BracketTypesFrom(src, n, 0);
      if |ts| == 1 then Ok(ListT(ts[0]))
      else if |ts| == 2 then Ok(DictT(ts[0], ts[1]))
      else ErrAt(Pos(src, n), BadBracketType)
  }

  /**
   * The loop of `traverseBracketType` from position `i`: move to the next
   * child, take its type unless it is a comma, and move once more.
   */
  function BracketTypesFrom(src: Source, n: Node, i: nat): Result<seq<Type>>
    requires i < |n.children|
    decreases n, 0, |n.children| - i
  {
    var kids := n.children;
    if !Moves(kids, i) then Ok([])
    else
      var k := i + 1;
      if Text(src, kids[k]) != "," then
        var t :- TypeOf(src, kids[k]);
        Cons(t, BracketTypesFrom(src, n, Next(kids, k)))
      else BracketTypesFrom(src, n, Next(kids, k))
  }

  /**
   * `Callable[[a1, ..., ak], r]`: the children are the name `Callable`, `[`,
   * the argument list and the return type; errors are located at the name.
   * A missing return type or `None` is the `None` type; after the return
   * type the cursor must rest on `]`.
   */
  function CallableOf(src: Source, n: Node): Result<Type>
    decreases n, 1, 0
  {
    var kids := n.children;
    if kids == [] then NoChild()
    else
      var loc := Pos(src, kids[0]);
      var a := Next(kids, Next(kids, 0));
      if Text(src, kids[0]) != "Callable" then ErrAt(loc, InvalidCallable)
      else if kids[a].kind != "ArrayExpression" then ErrAt(loc, InvalidCallable)
      else if kids[a].children == [] then NoChild()
      else
        var args :- CallableArgsFrom(src, kids[a], Next(kids[a].children, 0), loc);
        var r := Next(kids, Next(kids, a));
        var ret :- if kids[r].kind == "]" || kids[r].kind == "None" then Ok(NoneT) else TypeOf(src, kids[r]);
        var e := if kids[r].kind == "]" then r else Next(kids, r);
        if kids[e].kind != "]" then ErrAt(loc, InvalidCallableRet)
        else Ok(CallableT(CallableParams(args), ret))
  }

  /**
   * The argument types of a `Callable` from position `j` of the argument
   * list up to its `]`: each must be a name or a member expression.  A
   * cursor stuck on the last child would read the same argument forever.
   */
  function CallableArgsFrom(src: Source, p: Node, j: nat, loc: Location): Result<seq<Type>>
    requires j < |p.children|
    decreases p, 0, |p.children| - j
  {
    var kids := p.children;
    if kids[j].kind == "]" then Ok([])
    else if kids[j].kind != "VariableName" && kids[j].kind != "MemberExpression" then ErrAt(loc, InvalidCallableArg)
    else
      var t :- TypeOf(src, kids[j]);
      var j' := Next(kids, Next(kids, j));
      if j' == j then Stuck()
      else Cons(t, CallableArgsFrom(src, p, j', loc))
  }

  /** The name of the `i`-th parameter of a callable type. */
  function CallableName(i: nat): string
  {
    "callable_" + Js.NatToString(i)
  }

  /** The parameters of a callable type: argument type `i` named `callable_i`, without a default. */
  function CallableParams(ts: seq<Type>): (ps: seq<Parameter>)
    ensures |ps| == |ts|
    ensures forall i :: 0 <= i < |ts| ==> ps[i] == Parameter(CallableName(i), ts[i], None)
  {
    if ts == [] then []
    else CallableParams(ts[..|ts| - 1]) + [Parameter(CallableName(|ts| - 1), ts[|ts| - 1], None)]
  }

  /** The parameters of a callable type have pairwise distinct names. */
  lemma CallableNamesDistinct(ts: seq<Type>, i: nat, j: nat)
    requires i < j < |ts|
    ensures CallableParams(ts)[i].name != CallableParams(ts)[j].name
  {
    if CallableName(i) == CallableName(j) {
      assert Js.NatToString(i) == CallableName(i)[9..];
      assert Js.NatToString(j) == CallableName(j)[9..];
      Js.NatToStringInjective(i, j);
    }
  }

  /**
   * A plain (non-bracket, non-member) annotation is a primitive type for
   * `int`, `str` and `bool` and the class of that name otherwise.
   */
  lemma NamedTypes(src: Source, n: Node)
    requires n.kind != "ArrayExpression" && n.kind != "MemberExpression"
    ensures var name := Text(src, n);
            && (name == "int" <==> TypeOf(src, n) == Ok(NumT))
            && (name == "str" <==> TypeOf(src, n) == Ok(StringT))
            && (name == "bool" <==> TypeOf(src, n) == Ok(BoolT))
            && (name != "int" && name != "str" && name != "bool" <==> TypeOf(src, n) == Ok(ClassT(name)))
  {
  }

  /** A bracketed annotation is a list type exactly for one inner type and a dictionary type exactly for two. */
  lemma BracketArity(src: Source, n: Node, ts: seq<Type>)
    requires n.kind == "ArrayExpression" && n.children != []
    requires BracketTypesFrom(src, n, 0) == Ok(ts)
    ensures TypeOf(src, n).Ok? <==> |ts| == 1 || |ts| == 2
    ensures |ts| == 1 ==> TypeOf(src, n) == Ok(ListT(ts[0]))
    ensures |ts| == 2 ==> TypeOf(src, n) == Ok(DictT(ts[0], ts[1]))
    ensures |ts| != 1 && |ts| != 2 ==> TypeOf(src, n) == ErrAt(Pos(src, n), BadBracketType)
  {
    assert TypeOf(src, n) == BracketTypeOf(src, n);
  }

  /** `[t]` is the list of `t`. */
  lemma ListShape(src: Source, n: Node)
    requires n.kind == "ArrayExpression" && |n.children| == 3
    requires Text(src, n.children[1]) != "," && TypeOf(src, n.children[1]).Ok?
    ensures TypeOf(src, n) == Ok(ListT(TypeOf(src, n.children[1]).value))
  {
    var t := TypeOf(src, n.children[1]).value;
    assert BracketTypesFrom(src, n, 2) == Ok([]);
    assert [t] + [] == [t];
    assert BracketTypesFrom(src, n, 0) == Ok([t]);
    BracketArity(src, n, [t]);
  }

  /** `[k, v]` is the dictionary from `k` to `v`. */
  lemma DictShape(src: Source, n: Node)
    requires n.kind == "ArrayExpression" && |n.children| == 5
    requires Text(src, n.children[1]) != "," && TypeOf(src, n.children[1]).Ok?
    requires Text(src, n.children[3]) != "," && TypeOf(src, n.children[3]).Ok?
    ensures TypeOf(src, n) == Ok(DictT(TypeOf(src, n.children[1]).value, TypeOf(src, n.children[3]).value))
  {
    var k := TypeOf(src, n.children[1]).value;
    var v := TypeOf(src, n.children[3]).value;
    assert BracketTypesFrom(src, n, 4) == Ok([]);
    assert [v] + [] == [v] && [k] + [v] == [k, v];
    assert BracketTypesFrom(src, n, 2) == Ok([v]);
    assert BracketTypesFrom(src, n, 0) == Ok([k, v]);
    BracketArity(src, n, [k, v]);
  }

  /** A parsed callable type has a parameter `callable_i` for the `i`-th argument type, in order. */
  lemma CallableShape(src: Source, n: Node, args: seq<Type>)
    requires n.kind == "MemberExpression" && n.children != []
    requires Text(src, n) != "int" && Text(src, n) != "str" && Text(src, n) != "bool"
    requires var a := n.children[Next(n.children, Next(n.children, 0))];
             && a.children != []
             && CallableArgsFrom(src, a, Next(a.children, 0), Pos(src, n.children[0])) == Ok(args)
    requires TypeOf(src, n).Ok?
    ensures TypeOf(src, n).value.CallableT?
    ensures TypeOf(src, n).value.params == CallableParams(args)
  {
    assert TypeOf(src, n) == CallableOf(src, n);
  }

  /** Without a return type, or with `None`, a callable returns the `None` type. */
  lemma CallableReturnsNone(src: Source, n: Node)
    requires n.kind == "MemberExpression" && n.children != []
    requires Text(src, n) != "int" && Text(src, n) != "str" && Text(src, n) != "bool"
    requires var kids := n.children;
             var r := Next(kids, Next(kids, Next(kids, Next(kids, 0))));
             kids[r].kind == "]" || kids[r].kind == "None"
    requires TypeOf(src, n).Ok?
    ensures TypeOf(src, n).value.CallableT? && TypeOf(src, n).value.ret == NoneT
  {
    assert TypeOf(src, n) == CallableOf(src, n);
  }

  /** The loop of `traverseBracketType`. */
  method TraverseBracketType(src: Source, n: Node) returns (r: Result<Type>)
    ensures r == BracketTypeOf(src, n)
  {
    var kids := n.children;
    if kids == [] {
      return NoChild();
    }
    var types: seq<Type> := [];
    var i := 0;
    PrependNothing(BracketTypesFrom(src, n, 0));
    while Moves(kids, i)
      invariant i < |kids|
      invariant Prepend(types, BracketTypesFrom(src, n, i)) == BracketTypesFrom(src, n, 0)
      decreases |kids| - i
    {
      i := i + 1;
      if Text(src, kids[i]) != "," {
        var t := TypeOf(src, kids[i]);
        if t.Fail? {
          return Fail(t.err);
        }
        PrependCons(types, t.value, BracketTypesFrom(src, n, Next(kids, i)));
        types := types + [t.value];
      }
      i := Next(kids, i);
    }
    PrependToEmpty(types);
    if |types| == 1 {
      return Ok(ListT(types[0]));
    } else if |types| == 2 {
      return Ok(DictT(types[0], types[1]));
    }
    return ErrAt(Pos(src, n), BadBracketType);
  }

  /** The loop over the argument types of `traverseCallable`. */
  method TraverseCallableArgs(src: Source, p: Node, start: nat, loc: Location) returns (r: Result<seq<Type>>)
    requires start < |p.children|
    ensures r == CallableArgsFrom(src, p, start, loc)
  {
    var kids := p.children;
    var args: seq<Type> := [];
    var j := start;
    PrependNothing(CallableArgsFrom(src, p, start, loc));
    while kids[j].kind != "]"
      invariant j < |kids|
      invariant Prepend(args, CallableArgsFrom(src, p, j, loc)) == CallableArgsFrom(src, p, start, loc)
      decreases |kids| - j
    {
      if kids[j].kind != "VariableName" && kids[j].kind != "MemberExpression" {
        return ErrAt(loc, InvalidCallableArg);
      }
      var t := TypeOf(src, kids[j]);
      if t.Fail? {
        return Fail(t.err);
      }
      var j' := Next(kids, Next(kids, j));
      if j' == j {
        return Stuck();
      }
      PrependCons(args, t.value, CallableArgsFrom(src, p, j', loc));
      args := args + [t.value];
      j := j';
    }
    PrependToEmpty(args);
    return Ok(args);
  }

  /** `traverseCallable`: the name, the argument list, the optional return type and the closing `]`. */
  method TraverseCallable(src: Source, n: Node) returns (r: Result<Type>)
    ensures r == CallableOf(src, n)
  {
    var kids := n.children;
    if kids == [] {
      return NoChild();
    }
    var loc := Pos(src, kids[0]);
    if Text(src, kids[0]) != "Callable" {
      return ErrAt(loc, InvalidCallable);
    }
    var a := Next(kids, Next(kids, 0));
    if kids[a].kind != "ArrayExpression" {
      return ErrAt(loc, InvalidCallable);
    }
    if kids[a].children == [] {
      return NoChild();
    }
    var args := TraverseCallableArgs(src, kids[a], Next(kids[a].children, 0), loc);
    if args.Fail? {
      return Fail(args.err);
    }
    var ret := NoneT;
    var e := Next(kids, Next(kids, a));
    if kids[e].kind != "]" {
      if kids[e].kind != "None" {
        var t := TypeOf(src, kids[e]);
        if t.Fail? {
          return Fail(t.err);
        }
        ret := t.value;
      }
      e := Next(kids, e);
    }
    if kids[e].kind != "]" {
      return ErrAt(loc, InvalidCallableRet);
    }
    return Ok(CallableT(CallableParams(args.value), ret));
  }
}
