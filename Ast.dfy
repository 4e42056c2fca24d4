/**
 * The abstract syntax tree the builder produces: every expression, statement,
 * variable init and definition carries the Location of the syntax node it was
 * built from.  Field names follow the original records, except where two
 * constructors of one datatype would give one field name two types (the
 * callee of a generic call, the object of a slice, the arguments of a
 * two-argument built-in) or where the name is a Dafny keyword (`method`).
 */
module Ast {

  datatype Option<+T> = None | Some(value: T)

  /** Line and column (1-based), byte length of the span, and the file identifier. */
  datatype Location = Location(line: int, col: int, length: int, fileId: int)

  datatype Literal =
    | NumLit(num: int)
    | StrLit(str: string)
    | BoolLit(b: bool)
    | NoneLit

  datatype BinOp = Plus | Minus | Mul | IDiv | Mod | Eq | Neq | Lte | Gte | Lt | Gt | Is | And | Or

  datatype UniOp = Neg | Not

  datatype Expr =
    | Lit(a: Location, value: Literal)
    | Id(a: Location, name: string)
    | CallExpr(a: Location, callee: Expr, arguments: seq<Expr>)
    | MethodCall(a: Location, obj: Expr, methodName: string, arguments: seq<Expr>)
      /** `print` and `abs`; the argument is absent when the call has none (JavaScript `undefined`). */
    | Builtin1(a: Location, name: string, arg: Option<Expr>)
      /** `max`, `min` and `pow`; either argument is absent when the call has too few. */
    | Builtin2(a: Location, name: string, arg1: Option<Expr>, arg2: Option<Expr>)
      /** The special `range` call: the only expression built without a Location. */
    | Call(name: string, arguments: seq<Expr>)
    | Binary(a: Location, op: BinOp, left: Expr, right: Expr)
    | Unary(a: Location, uop: UniOp, expr: Expr)
    | Lookup(a: Location, obj: Expr, field: string)
    | BracketLookup(a: Location, obj: Expr, key: Expr)
    | Slicing(a: Location, obj: Expr, start: Expr, end: Expr, stride: Expr)
    | ListExpr(a: Location, contents: seq<Expr>)
    | Dict(a: Location, entries: seq<(Expr, Expr)>)
    | Lambda(a: Location, params: seq<string>, ret: Expr)

  /** One left-hand side of an assignment. */
  datatype AssignTarget = AssignTarget(target: Expr, ignore: bool, starred: bool)

  /** The whole left-hand side of an assignment. */
  datatype Destructure = Destructure(valueType: Location, targets: seq<AssignTarget>, isDestructured: bool)

  datatype Stmt =
    | Return(a: Location, value: Expr)
    | Assignment(a: Location, destruct: Destructure, value: Expr)
    | ExprStmt(a: Location, expr: Expr)
    | If(a: Location, cond: Expr, thn: seq<Stmt>, els: seq<Stmt>)
    | While(a: Location, cond: Expr, body: seq<Stmt>)
    | Pass(a: Location)
    | Continue(a: Location)
    | Break(a: Location)
    | For(a: Location, name: string, index: Option<string>, iterable: Expr, body: seq<Stmt>)

  datatype Type =
    | NumT
    | BoolT
    | NoneT
    | StringT
    | ClassT(className: string)
    | ListT(elem: Type)
    | DictT(key: Type, val: Type)
    | CallableT(params: seq<Parameter>, ret: Type)

  /** A typed parameter; `value` is its default literal, if it has one. */
  datatype Parameter = Parameter(name: string, typ: Type, value: Option<Literal>)

  /** A typed variable declaration with its mandatory literal initializer. */
  datatype VarInit = VarInit(a: Location, name: string, typ: Type, value: Literal)

  /** A scope declaration; only `nonlocal` is ever built. */
  datatype Scope = Nonlocal(a: Location, name: string)

  datatype FunDef = FunDef(
    a: Location,
    name: string,
    parameters: seq<Parameter>,
    ret: Type,
    inits: seq<VarInit>,
    decls: seq<Scope>,
    funs: seq<FunDef>,
    body: seq<Stmt>)

  datatype Class = Class(a: Location, name: string, fields: seq<VarInit>, methods: seq<FunDef>)

  /** `closures` is reserved for the downstream compiler; the builder always leaves it empty. */
  datatype Program = Program(
    a: Location,
    funs: seq<FunDef>,
    inits: seq<VarInit>,
    classes: seq<Class>,
    stmts: seq<Stmt>,
    closures: seq<FunDef>)

  /** What went wrong; the message texts of the original are not modelled. */
  datatype ErrKind =
    | NotLiteral          // a literal was expected
    | BadNumber           // number text that is not a decimal digit string
    | UnknownExpr         // node kind with no expression rule
    | UnknownOp           // operator token outside the operator tables
    | UnknownCallee       // callee that is neither a name, a field lookup nor a call
    | EmptyBracket        // nothing between `[` and `]`
    | TooManySliceParts   // more than three `:`-separated parts
    | InvalidLambda       // lambda without a parameter list node
    | ExpectedTarget      // assignment target that is not an expression
    | NotAssignable       // assignment target that is not a name, field or element
    | MultipleStarred     // two starred targets
    | LoneStarred         // a starred target alone, without a trailing comma
    | UnknownStmt         // node kind with no statement rule
    | MissingElse         // `if` without `else`
    | BadBracketType      // generic type with other than one or two parameters
    | InvalidCallable     // member-expression type that is not `Callable[[...], ...]`
    | InvalidCallableArg  // Callable argument type that is neither a name nor a member expression
    | InvalidCallableRet  // Callable not closed after its return type
    | MissingParamType    // parameter without a type annotation
    | MissingDefault      // parameter without a default after one with a default
    | InvalidVarInit      // variable init without a type annotation
    | GlobalUnsupported   // `global` declaration
    | InvalidScope        // scope keyword other than `global` or `nonlocal`
    | BadClassBody        // class member that is neither a field nor a method
    | NotAScript          // the root node is not a script
    | Malformed           // the tree lacks a child that the traversal enters
    | Diverges            // the traversal would loop forever on this tree

  /** A parse error; parameter errors carry no location, as in the original. */
  datatype Err = Err(at: Option<Location>, kind: ErrKind)

  /** The outcome of a traversal step: a value, or the error the original throws. */
  datatype Result<+T> = Ok(value: T) | Fail(err: Err)
  {
    predicate IsFailure() { Fail? }

    function PropagateFailure<U>(): Result<U>
      requires Fail?
    {
      Fail(err)
    }

    function Extract(): T
      requires Ok?
    {
      value
    }
  }

  function ErrAt<T>(loc: Location, kind: ErrKind): Result<T>
  {
    Fail(Err(Some(loc), kind))
  }

  /** A node the traversal enters has no children. */
  function NoChild<T>(): Result<T> { Fail(Err(None, Malformed)) }

  /** A loop of the traversal would never end on this tree. */
  function Stuck<T>(): Result<T> { Fail(Err(None, Diverges)) }

  /** `r` with `x` put in front of its value, or the same failure. */
  function Cons<T>(x: T, r: Result<seq<T>>): (r': Result<seq<T>>)
    ensures r'.Ok? <==> r.Ok?
    ensures r.Ok? ==> r'.value == [x] + r.value
    ensures r.Fail? ==> r'.err == r.err
  {
    match r
    case Ok(xs) => Ok([x] + xs)
    case Fail(e) => Fail(e)
  }

  /** `r` with `xs` put in front of its value, or the same failure. */
  function Prepend<T>(xs: seq<T>, r: Result<seq<T>>): Result<seq<T>>
  {
    match r
    case Ok(ys) => Ok(xs + ys)
    case Fail(e) => Fail(e)
  }

  lemma PrependNothing<T>(r: Result<seq<T>>)
    ensures Prepend([], r) == r
  {
    if r.Ok? {
      assert [] + r.value == r.value;
    }
  }

  lemma PrependToEmpty<T>(xs: seq<T>)
    ensures Prepend(xs, Ok([])) == Ok(xs)
  {
    assert xs + [] == xs;
  }

  /** Moving one element from the front of the rest to the end of the prefix. */
  lemma PrependCons<T>(xs: seq<T>, x: T, r: Result<seq<T>>)
    ensures Prepend(xs, Cons(x, r)) == Prepend(xs + [x], r)
  {
    if r.Ok? {
      assert xs + ([x] + r.value) == (xs + [x]) + r.value;
    }
  }

  /** The values of `rs` in order, or the first failure among them. */
  function Collect<T>(rs: seq<Result<T>>): Result<seq<T>>
  {
    if rs == [] then Ok([])
    else
      var x :- rs[0];
      Cons(x, Collect(rs[1..]))
  }

  /** Collecting succeeds with `xs` exactly when every result succeeds with the matching element of `xs`. */
  lemma {:induction false} CollectOk<T>(rs: seq<Result<T>>, xs: seq<T>)
    ensures Collect(rs) == Ok(xs) <==> |xs| == |rs| && forall k :: 0 <= k < |rs| ==> rs[k] == Ok(xs[k])
  {
    if rs != [] {
      if rs[0].Ok? {
        if xs != [] {
          CollectOk(rs[1..], xs[1..]);
          assert [xs[0]] + xs[1..] == xs;
          if |xs| == |rs| && forall k :: 0 <= k < |rs| ==> rs[k] == Ok(xs[k]) {
            assert forall k :: 0 <= k < |rs| - 1 ==> rs[1..][k] == Ok(xs[1..][k]) by {
              forall k | 0 <= k < |rs| - 1
                ensures rs[1..][k] == Ok(xs[1..][k])
              {
                assert rs[1..][k] == rs[k + 1];
              }
            }
          }
        }
      } else {
        assert !(|xs| == |rs| && rs[0] == Ok(xs[0]));
      }
    }
  }

  /** The first failing result is the failure of the whole. */
  lemma {:induction false} CollectFirstFailure<T>(rs: seq<Result<T>>, k: nat)
    requires k < |rs| && rs[k].Fail?
    requires forall m :: 0 <= m < k ==> rs[m].Ok?
    ensures Collect(rs) == Fail(rs[k].err)
  {
    if k > 0 {
      assert forall m :: 0 <= m < k - 1 ==> rs[1..][m].Ok? by {
        forall m | 0 <= m < k - 1
          ensures rs[1..][m].Ok?
        {
          assert rs[1..][m] == rs[m + 1];
        }
      }
      CollectFirstFailure(rs[1..], k - 1);
    }
  }
}
