/**
 * The rewriting of a parsed call according to the shape of its callee
 * (parser.ts, traverseExpr, case CallExpression): calls through another call
 * or a method call stay generic calls, a field lookup becomes a method call,
 * and a plain name becomes a built-in, the special `range` call or a generic
 * call of that name.
 */
module Calls {
  import opened Ast

  /** `args[k]`, absent (JavaScript `undefined`) past the end. */
  function At(args: seq<Expr>, k: nat): (r: Option<Expr>)
    ensures r.Some? <==> k < |args|
    ensures k < |args| ==> r.value == args[k]
  {
    if k < |args| then Some(args[k]) else None
  }

  predicate IsBuiltin1(name: string) { name == "print" || name == "abs" }

  predicate IsBuiltin2(name: string) { name == "max" || name == "min" || name == "pow" }

  /** The call of a plain name with the arguments already parsed. */
  function CallTo(loc: Location, name: string, args: seq<Expr>): Expr
  {
    if IsBuiltin1(name) then Builtin1(loc, name, At(args, 0))
    else if IsBuiltin2(name) then Builtin2(loc, name, At(args, 0), At(args, 1))
    else if name == "range" then Call(name, args)
    else CallExpr(loc, Id(loc, name), args)
  }

  /** The call expression for a callee and its arguments; other callees are rejected. */
  function RewriteCall(loc: Location, callee: Expr, args: seq<Expr>): (r: Result<Expr>)
    ensures r.Ok? <==> callee.CallExpr? || callee.MethodCall? || callee.Lookup? || callee.Id?
    ensures r.Fail? ==> r.err == Err(Some(loc), UnknownCallee)
  {
    match callee
    case CallExpr(_, _, _) => Ok(CallExpr(loc, callee, args))
    case MethodCall(_, _, _, _) => Ok(CallExpr(loc, callee, args))
    case Lookup(_, obj, field) => Ok(MethodCall(loc, obj, field, args))
    case Id(_, name) => Ok(CallTo(loc, name, args))
    case _ => ErrAt(loc, UnknownCallee)
  }

  /** How many arguments a call of `name` keeps: one, two, or all of them. */
  function Arity(name: string, args: seq<Expr>): nat
  {
    if IsBuiltin1(name) then 1 else if IsBuiltin2(name) then 2 else |args|
  }

  function Present(o: Option<Expr>): seq<Expr>
  {
    if o.Some? then [o.value] else []
  }

  /**
   * The called name and the argument list a call expression stands for,
   * read back from any of the shapes a call of a plain name can take.
   */
  function CalledName(e: Expr): Option<(string, seq<Expr>)>
  {
    match e
    case Builtin1(_, name, arg) => Some((name, Present(arg)))
    case Builtin2(_, name, arg1, arg2) =>
      if arg1.None? && arg2.Some? then None else Some((name, Present(arg1) + Present(arg2)))
    case Call(name, args) => Some((name, args))
    case CallExpr(_, Id(_, name), args) => Some((name, args))
    case _ => None
  }

  /**
   * Rewriting the call of a name keeps the name and the arguments, except
   * that a one-argument built-in keeps only its first argument and a
   * two-argument built-in only its first two.
   */
  lemma CallToKeepsCall(loc: Location, name: string, args: seq<Expr>)
    ensures var k := if Arity(name, args) < |args| then Arity(name, args) else |args|;
            CalledName(CallTo(loc, name, args)) == Some((name, args[..k]))
  {
    if IsBuiltin1(name) {
      if |args| >= 1 { assert args[..1] == [args[0]]; }
    } else if IsBuiltin2(name) {
      if |args| >= 2 { assert args[..2] == [args[0]] + [args[1]]; }
      else if |args| == 1 { assert args[..1] == [args[0]] + []; }
      else { assert args[..0] == [] + []; }
    } else {
      assert args[..|args|] == args;
    }
  }

  /** Which shape the call of each name takes. */
  lemma CallToShape(loc: Location, name: string, args: seq<Expr>)
    ensures CallTo(loc, name, args).Builtin1? <==> name == "print" || name == "abs"
    ensures CallTo(loc, name, args).Builtin2? <==> name == "max" || name == "min" || name == "pow"
    ensures CallTo(loc, name, args).Call? <==> name == "range"
    ensures CallTo(loc, name, args).CallExpr? <==> !IsBuiltin1(name) && !IsBuiltin2(name) && name != "range"
  {
  }
}
