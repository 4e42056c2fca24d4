/**
 * Two kinds of input on which the original builder, as written, does not
 * do what the code around it evidently expects, each evaluated with the
 * as-written and with the corrected definition.
 */
module Findings {
  import Js
  import opened Ast
  import opened Cst
  import opened SourcePos
  import Literals
  import opened Exprs
  import opened Stack

  /**
   * A node on the first line of a file: the original's location has a
   * column one too small, so the stack trace cuts the snippet one
   * character early (for `f(1)` at the start of a file it shows `f(1`);
   * the corrected location gives the node's text.
   */
  lemma FirstLineSnippetShifted(source: seq<string>, fileId: int, from: nat, to: nat)
    requires 0 <= fileId < |source| && from < to <= |source[fileId]|
    requires forall k :: 0 <= k < to ==> source[fileId][k] != '\n'
    ensures SnippetOf(source, GetSourcePosAsWritten(source[fileId], from, to, fileId))
            == Some(if from == 0 then source[fileId][..to - 1] else source[fileId][from - 1..to - 1])
    ensures SnippetOf(source, GetSourcePos(source[fileId], from, to, fileId)) == Some(source[fileId][from..to])
  {
    var s := source[fileId];
    Js.NoneCounted(s[..from], '\n');
    FirstLineColumnIsZeroBased(s, from, to, fileId);
    Js.FirstPiecePrefix(s, to, '\n');
    var first := Js.Split(s, '\n')[0];
    assert first[..to] == s[..to];
    assert first[from..to] == s[from..to];
    if from == 0 {
      assert first[..to - 1] == s[..to - 1];
    } else {
      assert first[from - 1..to - 1] == s[from - 1..to - 1];
    }
  }

  /**
   * An element access whose key is a single string literal with one colon
   * in its text (`a["x:y"]`): split on every `:` character, as written, the
   * contents have two parts and the access becomes a slice from the string
   * to -1 by 1; split on `:` tokens it is the element access with that key.
   */
  lemma ColonInStringKeyMakesSlice(src: Source, n: Node, obj: Expr)
    requires |n.children| == 4 && n.children[2].kind == "String" && Text(src, n.children[3]) == "]"
    requires var t := Text(src, n.children[2]); |t| >= 1 && t[0] != ':' && t != "]" && Js.Count(':', t) == 1
    ensures var kids := n.children;
            var key := Lit(Pos(src, kids[2]), Literals.LiteralOf(src, kids[2]).value);
            && Literals.LiteralOf(src, kids[2]).Ok?
            && BracketOf(src, n, obj, true)
               == Ok(Slicing(Pos(src, n), obj, key, Lit(Pos(src, n), NumLit(-1)), Lit(Pos(src, n), NumLit(1))))
            && BracketOf(src, n, obj, false) == Ok(BracketLookup(Pos(src, n), obj, key))
  {
    var kids := n.children;
    var t := Text(src, kids[2]);
    assert Next(kids, Next(kids, 0)) == 2 && Next(kids, 2) == 3 && !Moves(kids, 3);
    assert Slices.CloseFrom(src, kids, 2) == Some(3);
    assert Slices.Texts(src, kids, 2, 3) == t + "" == t;
    assert Slices.Parts(src, kids, 2, 3) == [t + ""] == [t];
    Js.SplitCount(t, ':');
    Js.FirstPiecePrefix(t, 1, ':');
    var parts := Slices.PartsAsWritten(src, kids, 2, 3);
    assert |parts| == 2 && parts[0] != "";
    var loc := Pos(src, n);
    var key := Lit(Pos(src, kids[2]), Literals.LiteralOf(src, kids[2]).value);
    assert ExprOf(src, kids[2]) == Ok(key);
    assert BracketOf(src, n, obj, true) == SliceWalk(src, n, obj, parts);
    assert SliceWalk(src, n, obj, parts) == SliceRest(src, n, obj, parts, key, 3);
    assert BracketOf(src, n, obj, false) == SliceWalk(src, n, obj, [t]);
  }
}
