/**
 * The text between the brackets of an element access or slice
 * (parser.ts, traverseExpr, case MemberExpression): the builder walks the
 * siblings after `[` up to the first one whose text is `]`, and splits what
 * it saw into at most three `:`-separated parts.
 */
module Slices {
  import Js
  import opened Ast
  import opened Cst

  /** The index of the first sibling at or after `i` whose text is `]`, if there is one. */
  function CloseFrom(src: Source, kids: seq<Node>, i: nat): (j: Option<nat>)
    requires i < |kids|
    ensures j.Some? ==> i <= j.value < |kids| && Text(src, kids[j.value]) == "]"
    ensures j.Some? ==> forall k :: i <= k < j.value ==> Text(src, kids[k]) != "]"
    ensures j.None? ==> forall k :: i <= k < |kids| ==> Text(src, kids[k]) != "]"
    decreases |kids| - i
  {
    if Text(src, kids[i]) == "]" then Some(i)
    else if i + 1 < |kids| then CloseFrom(src, kids, i + 1)
    else None
  }

  /** The texts of siblings `i` up to (not including) `j`, concatenated. */
  function Texts(src: Source, kids: seq<Node>, i: nat, j: nat): string
    requires i <= j <= |kids|
    decreases j - i
  {
    if i == j then "" else Text(src, kids[i]) + Texts(src, kids, i + 1, j)
  }

  lemma {:induction false} TextsSnoc(src: Source, kids: seq<Node>, i: nat, j: nat)
    requires i <= j < |kids|
    ensures Texts(src, kids, i, j + 1) == Texts(src, kids, i, j) + Text(src, kids[j])
    decreases j - i
  {
    if i < j {
      TextsSnoc(src, kids, i + 1, j);
    }
  }

  /**
   * The walk over the bracket's contents: the concatenated text of the
   * siblings from `start` up to the first `]`, and the index of that `]`.
   * The walk never ends when no such sibling follows (the cursor stays on
   * the last sibling), which the result reports as absent.
   */
  method CollectSliceItems(src: Source, kids: seq<Node>, start: nat) returns (r: Option<(string, nat)>)
    requires start < |kids|
    ensures r.None? <==> CloseFrom(src, kids, start).None?
    ensures r.Some? ==> r.value.1 == CloseFrom(src, kids, start).value
    ensures r.Some? ==> r.value.0 == Texts(src, kids, start, r.value.1)
  {
    var items := "";
    var i := start;
    while Text(src, kids[i]) != "]"
      invariant start <= i < |kids|
      invariant items == Texts(src, kids, start, i)
      invariant CloseFrom(src, kids, start) == CloseFrom(src, kids, i)
      decreases |kids| - i
    {
      TextsSnoc(src, kids, start, i);
      items := items + Text(src, kids[i]);
      var j := Next(kids, i);
      if j == i {
        return None;
      }
      i := j;
    }
    return Some((items, i));
  }

  /** The parts as the original forms them: the concatenated text split on every `:` character. */
  function PartsAsWritten(src: Source, kids: seq<Node>, i: nat, j: nat): (parts: seq<string>)
    requires i <= j <= |kids|
    ensures |parts| >= 1
  {
    Js.Split(Texts(src, kids, i, j), ':')
  }

  /**
   * The parts split only at `:` tokens among the bracket's own children: a
   * `:` inside a string literal or a nested slice stays inside its part.
   */
  function Parts(src: Source, kids: seq<Node>, i: nat, j: nat): (parts: seq<string>)
    requires i <= j <= |kids|
    ensures |parts| >= 1
    decreases j - i
  {
    if i == j then [""]
    else
      var rest := Parts(src, kids, i + 1, j);
      if Text(src, kids[i]) == ":" then [""] + rest
      else [Text(src, kids[i]) + rest[0]] + rest[1..]
  }

  /** No child other than a `:` token has a `:` in its text. */
  predicate ColonsAreTokens(src: Source, kids: seq<Node>, i: nat, j: nat)
    requires i <= j <= |kids|
  {
    forall k :: i <= k < j ==> Text(src, kids[k]) == ":" || Js.Count(':', Text(src, kids[k])) == 0
  }

  /** Where every `:` is a token of its own, both ways of splitting agree. */
  lemma {:induction false} PartsAgree(src: Source, kids: seq<Node>, i: nat, j: nat)
    requires i <= j <= |kids|
    requires ColonsAreTokens(src, kids, i, j)
    ensures Parts(src, kids, i, j) == PartsAsWritten(src, kids, i, j)
    decreases j - i
  {
    if i < j {
      var t := Text(src, kids[i]);
      var rest := Texts(src, kids, i + 1, j);
      var parts := Parts(src, kids, i + 1, j);
      assert ColonsAreTokens(src, kids, i + 1, j);
      PartsAgree(src, kids, i + 1, j);
      assert parts == Js.Split(rest, ':');
      assert Texts(src, kids, i, j) == t + rest;
      if t == ":" {
        assert Parts(src, kids, i, j) == [""] + parts;
        Js.SplitAfterSeparator(rest, ':');
        assert [':'] == t;
      } else {
        assert Js.Count(':', t) == 0;
        assert Parts(src, kids, i, j) == [t + parts[0]] + parts[1..];
        Js.SplitAfterPlain(t, rest, ':');
      }
    }
  }

  /** The number of `:` tokens among siblings `i` up to (not including) `j`. */
  function ColonTokens(src: Source, kids: seq<Node>, i: nat, j: nat): nat
    requires i <= j <= |kids|
    decreases j - i
  {
    if i == j then 0 else (if Text(src, kids[i]) == ":" then 1 else 0) + ColonTokens(src, kids, i + 1, j)
  }

  /** Each `:` token opens one more part. */
  lemma {:induction false} PartsCount(src: Source, kids: seq<Node>, i: nat, j: nat)
    requires i <= j <= |kids|
    ensures |Parts(src, kids, i, j)| == 1 + ColonTokens(src, kids, i, j)
    decreases j - i
  {
    if i < j {
      PartsCount(src, kids, i + 1, j);
    }
  }

  /** Contents cut into two parts or more are not empty. */
  lemma SeveralPartsSomeText(src: Source, kids: seq<Node>, i: nat, j: nat)
    requires i <= j <= |kids| && |Parts(src, kids, i, j)| >= 2
    ensures Texts(src, kids, i, j) != ""
  {
    if Texts(src, kids, i, j) == "" {
      EmptyTextEmptyParts(src, kids, i, j);
    }
  }

  /** The bracket's contents are empty exactly when every part is. */
  lemma {:induction false} EmptyTextEmptyParts(src: Source, kids: seq<Node>, i: nat, j: nat)
    requires i <= j <= |kids|
    requires Texts(src, kids, i, j) == ""
    ensures Parts(src, kids, i, j) == [""]
    decreases j - i
  {
    if i < j {
      assert Text(src, kids[i]) == "";
      EmptyTextEmptyParts(src, kids, i + 1, j);
    }
  }
}
