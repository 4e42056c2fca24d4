/**
 * Literal nodes: numbers, quoted strings, `True`/`False` and `None`
 * (parser.ts, traverseLiteral).
 */
module Literals {
  import Js
  import opened Ast
  import opened Cst
  import opened SourcePos

  /** The node kinds that denote a literal. */
  predicate IsLiteralKind(kind: string)
  {
    kind == "Number" || kind == "String" || kind == "Boolean" || kind == "None"
  }

  /**
   * The literal a node denotes.  A number is read as a decimal digit string
   * (`BigInt` of the text); a string drops its first and last character (the
   * quotes); a boolean is true exactly when its text is `True`.
   */
  function LiteralOf(src: Source, n: Node): (r: Result<Literal>)
    ensures r.Ok? ==> IsLiteralKind(n.kind)
    ensures !IsLiteralKind(n.kind) ==> r.Fail? && r.err == Err(Some(Pos(src, n)), NotLiteral)
    ensures r.Fail? && r.err.kind != NotLiteral ==> n.kind == "Number" && !Js.IsDigits(Text(src, n))
  {
    var text := Text(src, n);
    if n.kind == "Number" then
      if Js.IsDigits(text) then Ok(NumLit(Js.DecimalValue(text))) else Fail(Err(None, BadNumber))
    else if n.kind == "String" then
      Ok(StrLit(Js.Substring(text, 1, |text| - 1)))
    else if n.kind == "Boolean" then
      Ok(BoolLit(text == "True"))
    else if n.kind == "None" then
      Ok(NoneLit)
    else
      ErrAt(Pos(src, n), NotLiteral)
  }

  /** A number written in decimal is read back as that number. */
  lemma NumberRoundTrip(src: Source, n: Node, k: nat)
    requires n.kind == "Number" && Text(src, n) == Js.NatToString(k)
    ensures LiteralOf(src, n) == Ok(NumLit(k))
  {
    Js.DecimalOfNatToString(k);
  }

  /** A string literal between any two quote characters is read as the text between them. */
  lemma StringRoundTrip(src: Source, n: Node, quote: char, body: string)
    requires n.kind == "String" && Text(src, n) == [quote] + body + [quote]
    ensures LiteralOf(src, n) == Ok(StrLit(body))
  {
    var text := Text(src, n);
    assert text[1..|text| - 1] == body;
  }

  /** A boolean literal is true for the text `True` and false for every other text. */
  lemma BooleanReading(src: Source, n: Node)
    requires n.kind == "Boolean"
    ensures LiteralOf(src, n) == Ok(BoolLit(true)) <==> Text(src, n) == "True"
    ensures LiteralOf(src, n) == Ok(BoolLit(false)) <==> Text(src, n) != "True"
  {
  }
}
