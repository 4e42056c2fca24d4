/**
 * The operator tokens of binary and unary expressions (parser.ts,
 * traverseExpr, cases BinaryExpression and UnaryExpression).  Each table is
 * a bijection between its tokens and its operators; any other token is
 * rejected.
 */
module Operators {
  import opened Ast

  /** The token that spells a binary operator. */
  function BinOpToken(op: BinOp): string
  {
    match op
    case Plus => "+"
    case Minus => "-"
    case Mul => "*"
    case IDiv => "//"
    case Mod => "%"
    case Eq => "=="
    case Neq => "!="
    case Lte => "<="
    case Gte => ">="
    case Lt => "<"
    case Gt => ">"
    case Is => "is"
    case And => "and"
    case Or => "or"
  }

  /** The binary operator a token spells, if any. */
  function BinOpOf(token: string): (r: Option<BinOp>)
    ensures r.Some? ==> BinOpToken(r.value) == token
  {
    if token == "+" then Some(Plus)
    else if token == "-" then Some(Minus)
    else if token == "*" then Some(Mul)
    else if token == "//" then Some(IDiv)
    else if token == "%" then Some(Mod)
    else if token == "==" then Some(Eq)
    else if token == "!=" then Some(Neq)
    else if token == "<=" then Some(Lte)
    else if token == ">=" then Some(Gte)
    else if token == "<" then Some(Lt)
    else if token == ">" then Some(Gt)
    else if token == "is" then Some(Is)
    else if token == "and" then Some(And)
    else if token == "or" then Some(Or)
    else None
  }

  /**
   * The binary table is one-to-one and onto its tokens: a token denotes an
   * operator exactly when it is that operator's spelling.
   */
  lemma BinOpTable(token: string, op: BinOp)
    ensures BinOpOf(token) == Some(op) <==> token == BinOpToken(op)
  {
    match op
    case Plus => case Minus => case Mul => case IDiv => case Mod =>
    case Eq => case Neq => case Lte => case Gte => case Lt => case Gt =>
    case Is => case And => case Or =>
  }

  /** A token that spells no binary operator is rejected. */
  lemma BinOpUnknown(token: string)
    requires forall op: BinOp :: token != BinOpToken(op)
    ensures BinOpOf(token) == None
  {
  }

  function UniOpToken(op: UniOp): string
  {
    match op
    case Neg => "-"
    case Not => "not"
  }

  /** The unary operator a token spells, if any. */
  function UniOpOf(token: string): (r: Option<UniOp>)
    ensures r.Some? ==> UniOpToken(r.value) == token
    ensures r.None? ==> token != "-" && token != "not"
  {
    if token == "-" then Some(Neg)
    else if token == "not" then Some(Not)
    else None
  }

  /** The unary table is one-to-one and onto its tokens. */
  lemma UniOpTable(token: string, op: UniOp)
    ensures UniOpOf(token) == Some(op) <==> token == UniOpToken(op)
  {
  }
}
