/**
 * The left-hand side of an assignment (parser.ts, traverseAssignment and
 * traverseDestructure).  The children of an assignment statement are the
 * targets separated by commas, possibly a trailing comma, the `AssignOp`
 * and the value; a target may be preceded by a `*` node.
 */
module Targets {
  import opened Ast
  import opened Cst
  import opened SourcePos
  import opened Exprs

  /** The expressions an assignment may store to: a name, a field, an element. */
  predicate Assignable(e: Expr)
  {
    e.Id? || e.Lookup? || e.BracketLookup?
  }

  /** Where the expression of the target that starts at child `k` is: one further after a `*`. */
  function TargetExprAt(kids: seq<Node>, k: nat): (j: nat)
    requires k < |kids|
    ensures k <= j < |kids|
  {
    if kids[k].kind == "*" then Next(kids, k) else k
  }

  /**
   * The target that starts at child `k` and the position of its expression.
   * An expression that does not parse is reported as a missing target at the
   * target's start, whatever its own error was, except an expression whose
   * traversal would never end: no error is caught then.
   */
  function TargetAt(src: Source, kids: seq<Node>, k: nat): (r: Result<(AssignTarget, nat)>)
    requires k < |kids|
    ensures r.Ok? ==> r.value.1 == TargetExprAt(kids, k)
  {
    var loc := Pos(src, kids[k]);
    var j := TargetExprAt(kids, k);
    var e := ExprOf(src, kids[j]);
    if e.Fail? then (if e.err.kind == Diverges then Fail(e.err) else ErrAt(loc, ExpectedTarget))
    else if !Assignable(e.value) then ErrAt(loc, NotAssignable)
    else Ok((AssignTarget(e.value, e.value.Id? && e.value.name == "_", kids[k].kind == "*"), j))
  }

  /**
   * A target is found exactly when its expression parses to an assignable
   * expression; it is that expression, ignored exactly when it is the name
   * `_`, and starred exactly when a `*` node comes first.
   */
  lemma TargetMeaning(src: Source, kids: seq<Node>, k: nat)
    requires k < |kids|
    ensures var r := TargetAt(src, kids, k);
            var e := ExprOf(src, kids[TargetExprAt(kids, k)]);
            && (r.Ok? <==> e.Ok? && Assignable(e.value))
            && (e.Fail? && e.err.kind != Diverges ==> r == ErrAt(Pos(src, kids[k]), ExpectedTarget))
            && (e.Fail? && e.err.kind == Diverges ==> r == Fail(e.err))
            && (e.Ok? && !Assignable(e.value) ==> r == ErrAt(Pos(src, kids[k]), NotAssignable))
            && (r.Ok? ==> && r.value.0.target == e.value
                          && (r.value.0.ignore <==> e.value.Id? && e.value.name == "_")
                          && (r.value.0.starred <==> kids[k].kind == "*"))
  {
  }

  /** The targets after the first one and the position of the `AssignOp`. */
  datatype Targets = Targets(targets: seq<AssignTarget>, assignOp: nat)

  /** `r` with `ts` put in front of its targets, or the same failure. */
  function PrependTargets(ts: seq<AssignTarget>, r: Result<Targets>): Result<Targets>
  {
    match r
    case Ok(rest) => Ok(Targets(ts + rest.targets, rest.assignOp))
    case Fail(e) => Fail(e)
  }

  lemma PrependNoTargets(r: Result<Targets>)
    ensures PrependTargets([], r) == r
  {
    if r.Ok? {
      assert [] + r.value.targets == r.value.targets;
    }
  }

  lemma PrependTargetsCons(ts: seq<AssignTarget>, t: AssignTarget, r: Result<Targets>)
    ensures PrependTargets(ts, PrependTargets([t], r)) == PrependTargets(ts + [t], r)
  {
    if r.Ok? {
      assert ts + ([t] + r.value.targets) == (ts + [t]) + r.value.targets;
    }
  }

  /**
   * The loop of `traverseDestructure` from its head at child `i`: until the
   * `AssignOp`, step over a comma, stop at a trailing comma, read a target
   * (a second starred one is an error at `loc`) and step past it.  A cursor
   * stuck on the last child would read the same target forever, unless it
   * is starred, when the repetition is the second starred target.
   */
  function MoreTargets(src: Source, kids: seq<Node>, i: nat, haveStarred: bool, loc: Location): (r: Result<Targets>)
    requires i < |kids|
    ensures r.Ok? ==> i <= r.value.assignOp < |kids| && kids[r.value.assignOp].kind == "AssignOp"
    decreases |kids| - i
  {
    if kids[i].kind == "AssignOp" then Ok(Targets([], i))
    else
      var k := Next(kids, i);
      if kids[k].kind == "AssignOp" then Ok(Targets([], k))
      else
        var (t, j) :- TargetAt(src, kids, k);
        if t.starred && haveStarred then ErrAt(loc, MultipleStarred)
        else
          var i' := Next(kids, j);
          if i' == i then (if t.starred then ErrAt(loc, MultipleStarred) else Stuck())
          else PrependTargets([t], MoreTargets(src, kids, i', haveStarred || t.starred, loc))
  }

  /**
   * `traverseDestructure` from the first child of an assignment statement:
   * the first target, then the loop; a starred target alone is an error.
   * Also gives the position of the `AssignOp`.
   */
  function DestructureOf(src: Source, kids: seq<Node>): (r: Result<(Destructure, nat)>)
    requires kids != []
    ensures r.Ok? ==> r.value.1 < |kids| && kids[r.value.1].kind == "AssignOp"
    ensures r.Ok? ==> r.value.0.valueType == Pos(src, kids[0]) && r.value.0.targets != []
  {
    var loc := Pos(src, kids[0]);
    var (first, j) :- TargetAt(src, kids, 0);
    var i := Next(kids, j);
    var isSimple := kids[i].kind == "AssignOp";
    var rest :- MoreTargets(src, kids, i, first.starred, loc);
    if isSimple && first.starred then ErrAt(loc, LoneStarred)
    else Ok((Destructure(loc, [first] + rest.targets, !isSimple), rest.assignOp))
  }

  /** The number of starred targets. */
  function StarredCount(ts: seq<AssignTarget>): nat
  {
    if ts == [] then 0 else (if ts[0].starred then 1 else 0) + StarredCount(ts[1..])
  }

  lemma {:induction false} StarredCountAppend(ts: seq<AssignTarget>, us: seq<AssignTarget>)
    ensures StarredCount(ts + us) == StarredCount(ts) + StarredCount(us)
  {
    if ts != [] {
      assert (ts + us)[0] == ts[0] && (ts + us)[1..] == ts[1..] + us;
      StarredCountAppend(ts[1..], us);
    } else {
      assert ts + us == us;
    }
  }

  /** A round of the loop that did not stop read a target one child on and moved past it. */
  lemma MoreTargetsTook(src: Source, kids: seq<Node>, i: nat, haveStarred: bool, loc: Location)
    requires i < |kids| && MoreTargets(src, kids, i, haveStarred, loc).Ok?
    requires kids[i].kind != "AssignOp" && kids[Next(kids, i)].kind != "AssignOp"
    ensures i + 1 < |kids| && TargetAt(src, kids, i + 1).Ok?
    ensures var (t, j) := TargetAt(src, kids, i + 1).value;
            && i < Next(kids, j)
            && !(t.starred && haveStarred)
            && MoreTargets(src, kids, Next(kids, j), haveStarred || t.starred, loc).Ok?
            && MoreTargets(src, kids, i, haveStarred, loc).value.targets
               == [t] + MoreTargets(src, kids, Next(kids, j), haveStarred || t.starred, loc).value.targets
  {
  }

  /** The loop lets through at most one starred target, and none once one was seen. */
  lemma {:induction false} MoreTargetsStarred(src: Source, kids: seq<Node>, i: nat, haveStarred: bool, loc: Location)
    requires i < |kids|
    requires MoreTargets(src, kids, i, haveStarred, loc).Ok?
    ensures var ts := MoreTargets(src, kids, i, haveStarred, loc).value.targets;
            StarredCount(ts) <= (if haveStarred then 0 else 1)
    decreases |kids| - i
  {
    var k := Next(kids, i);
    if kids[i].kind != "AssignOp" && kids[k].kind != "AssignOp" {
      MoreTargetsTook(src, kids, i, haveStarred, loc);
      var (t, j) := TargetAt(src, kids, k).value;
      var i' := Next(kids, j);
      MoreTargetsStarred(src, kids, i', haveStarred || t.starred, loc);
      var rest := MoreTargets(src, kids, i', haveStarred || t.starred, loc).value.targets;
      StarredCountAppend([t], rest);
    }
  }

  /**
   * A parsed left-hand side has at most one starred target, and none when it
   * is a single target without a trailing comma; any other input is an
   * error.  It is destructured exactly when the child after the first target
   * is not the `AssignOp`, and a single target otherwise.
   */
  lemma DestructureRules(src: Source, kids: seq<Node>)
    requires kids != [] && DestructureOf(src, kids).Ok?
    ensures var d := DestructureOf(src, kids).value.0;
            var j := TargetExprAt(kids, 0);
            && StarredCount(d.targets) <= 1
            && (!d.isDestructured ==> StarredCount(d.targets) == 0 && |d.targets| == 1)
            && (d.isDestructured <==> kids[Next(kids, j)].kind != "AssignOp")
  {
    var loc := Pos(src, kids[0]);
    var (first, j) := TargetAt(src, kids, 0).value;
    var i := Next(kids, j);
    MoreTargetsStarred(src, kids, i, first.starred, loc);
    var rest := MoreTargets(src, kids, i, first.starred, loc).value;
    StarredCountAppend([first], rest.targets);
  }

  /** A second starred target in the loop is an error at the first target. */
  lemma SecondStarredRejected(src: Source, kids: seq<Node>, i: nat, loc: Location)
    requires i + 1 < |kids| && kids[i].kind != "AssignOp" && kids[i + 1].kind != "AssignOp"
    requires TargetAt(src, kids, i + 1).Ok? && TargetAt(src, kids, i + 1).value.0.starred
    ensures MoreTargets(src, kids, i, true, loc) == ErrAt(loc, MultipleStarred)
  {
  }

  /** A starred target alone, directly followed by the `AssignOp`, is an error. */
  lemma LoneStarredRejected(src: Source, kids: seq<Node>)
    requires kids != [] && TargetAt(src, kids, 0).Ok? && TargetAt(src, kids, 0).value.0.starred
    requires kids[Next(kids, TargetExprAt(kids, 0))].kind == "AssignOp"
    ensures DestructureOf(src, kids) == ErrAt(Pos(src, kids[0]), LoneStarred)
  {
  }

  /** What reading a target from each of the first `n` children would give, in order. */
  function TargetsRead(src: Source, kids: seq<Node>, n: nat): (rs: seq<Result<(AssignTarget, nat)>>)
    requires n <= |kids|
    ensures |rs| == n
  {
    if n == 0 then [] else TargetsRead(src, kids, n - 1) + [TargetAt(src, kids, n - 1)]
  }

  lemma {:induction false} TargetsReadAt(src: Source, kids: seq<Node>, n: nat, k: nat)
    requires k < n <= |kids|
    ensures TargetsRead(src, kids, n)[k] == TargetAt(src, kids, k)
  {
    if k < n - 1 {
      TargetsReadAt(src, kids, n - 1, k);
    }
  }

  /**
   * Target `m` was read starting at child `ps[m]` (per `rs`), and the
   * positions increase: the targets are in the order of the source.
   */
  predicate ReadAt(rs: seq<Result<(AssignTarget, nat)>>, ps: seq<nat>, ts: seq<AssignTarget>)
  {
    && |ps| == |ts|
    && (forall m :: 0 <= m < |ps| ==> ps[m] < |rs| && rs[ps[m]].Ok? && rs[ps[m]].value.0 == ts[m])
    && (forall m, m' :: 0 <= m < m' < |ps| ==> ps[m] < ps[m'])
  }

  lemma ReadAtCons(rs: seq<Result<(AssignTarget, nat)>>, k: nat, t: AssignTarget, ps: seq<nat>, ts: seq<AssignTarget>)
    requires k < |rs| && rs[k].Ok? && rs[k].value.0 == t
    requires ReadAt(rs, ps, ts)
    requires forall m :: 0 <= m < |ps| ==> k < ps[m]
    ensures ReadAt(rs, [k] + ps, [t] + ts)
  {
    var ps', ts' := [k] + ps, [t] + ts;
    forall m | 0 < m < |ps'|
      ensures ps'[m] < |rs| && rs[ps'[m]].Ok? && rs[ps'[m]].value.0 == ts'[m]
    {
      assert ps'[m] == ps[m - 1] && ts'[m] == ts[m - 1];
    }
    forall m, m' | 0 <= m < m' < |ps'|
      ensures ps'[m] < ps'[m']
    {
      assert ps'[m'] == ps[m' - 1];
      if m > 0 {
        assert ps'[m] == ps[m - 1];
      }
    }
  }

  lemma {:induction false} MoreTargetsInOrder(src: Source, kids: seq<Node>, i: nat, haveStarred: bool, loc: Location)
    requires i < |kids|
    requires MoreTargets(src, kids, i, haveStarred, loc).Ok?
    ensures var ts := MoreTargets(src, kids, i, haveStarred, loc).value.targets;
            exists ps :: ReadAt(TargetsRead(src, kids, |kids|), ps, ts) && (forall m :: 0 <= m < |ps| ==> i < ps[m])
    decreases |kids| - i
  {
    var rs := TargetsRead(src, kids, |kids|);
    var ts := MoreTargets(src, kids, i, haveStarred, loc).value.targets;
    var k := Next(kids, i);
    if kids[i].kind == "AssignOp" || kids[k].kind == "AssignOp" {
      assert ts == [];
      assert ReadAt(rs, [], ts);
    } else {
      MoreTargetsTook(src, kids, i, haveStarred, loc);
      var (t, j) := TargetAt(src, kids, k).value;
      var i' := Next(kids, j);
      MoreTargetsInOrder(src, kids, i', haveStarred || t.starred, loc);
      var rest := MoreTargets(src, kids, i', haveStarred || t.starred, loc).value.targets;
      TargetsReadAt(src, kids, |kids|, k);
      ReadAfter(rs, i, k, i', t, rest);
    }
  }

  /** One more target read at `k`, between `i` and the reads of the rest after `i'`. */
  lemma ReadAfter(rs: seq<Result<(AssignTarget, nat)>>, i: nat, k: nat, i': nat, t: AssignTarget, rest: seq<AssignTarget>)
    requires i < k < |rs| && k <= i' && rs[k].Ok? && rs[k].value.0 == t
    requires exists ps :: ReadAt(rs, ps, rest) && (forall m :: 0 <= m < |ps| ==> i' < ps[m])
    ensures exists ps :: ReadAt(rs, ps, [t] + rest) && (forall m :: 0 <= m < |ps| ==> i < ps[m])
  {
    var ps :| ReadAt(rs, ps, rest) && (forall m :: 0 <= m < |ps| ==> i' < ps[m]);
    ReadAtCons(rs, k, t, ps, rest);
    assert forall m :: 0 <= m < |[k] + ps| ==> i < ([k] + ps)[m];
  }

  /**
   * The targets of a parsed left-hand side are read in the order of the
   * source, the first at child 0 (`TargetsReadAt` says what each read is).
   */
  lemma DestructureInOrder(src: Source, kids: seq<Node>)
    requires kids != [] && DestructureOf(src, kids).Ok?
    ensures exists ps :: ReadAt(TargetsRead(src, kids, |kids|), ps, DestructureOf(src, kids).value.0.targets) && ps[0] == 0
  {
    var loc := Pos(src, kids[0]);
    var (first, j) := TargetAt(src, kids, 0).value;
    var i := Next(kids, j);
    MoreTargetsInOrder(src, kids, i, first.starred, loc);
    var rs := TargetsRead(src, kids, |kids|);
    var rest := MoreTargets(src, kids, i, first.starred, loc).value.targets;
    var ps :| ReadAt(rs, ps, rest) && (forall m :: 0 <= m < |ps| ==> i < ps[m]);
    TargetsReadAt(src, kids, |kids|, 0);
    ReadAtCons(rs, 0, first, ps, rest);
    assert ([0] + ps)[0] == 0;
  }

  /** One round of the loop that reads a target and moves on. */
  lemma MoreTargetsStep(src: Source, kids: seq<Node>, i: nat, haveStarred: bool, loc: Location, t: AssignTarget, j: nat)
    requires i + 1 < |kids| && kids[i].kind != "AssignOp" && kids[i + 1].kind != "AssignOp"
    requires TargetAt(src, kids, i + 1) == Ok((t, j))
    requires !(t.starred && haveStarred) && Next(kids, j) != i
    ensures MoreTargets(src, kids, i, haveStarred, loc)
            == PrependTargets([t], MoreTargets(src, kids, Next(kids, j), haveStarred || t.starred, loc))
  {
  }

  /** The first target read and the loop run give the left-hand side. */
  lemma DestructureStart(src: Source, kids: seq<Node>, first: AssignTarget, j: nat, rest: Targets)
    requires kids != [] && TargetAt(src, kids, 0) == Ok((first, j))
    requires MoreTargets(src, kids, Next(kids, j), first.starred, Pos(src, kids[0])) == Ok(rest)
    ensures var isSimple := kids[Next(kids, j)].kind == "AssignOp";
            DestructureOf(src, kids)
            == if isSimple && first.starred then ErrAt(Pos(src, kids[0]), LoneStarred)
               else Ok((Destructure(Pos(src, kids[0]), [first] + rest.targets, !isSimple), rest.assignOp))
  {
  }

  /**
   * The loop of `traverseDestructure` from its head at child `i0`, with the
   * flag that a starred target was seen; also reports whether the list
   * stayed simple, that is whether the loop body never ran.
   */
  method TraverseMoreTargets(src: Source, kids: seq<Node>, i0: nat, starredFirst: bool, loc: Location)
    returns (r: Result<Targets>, isSimple: bool)
    requires i0 < |kids|
    ensures r == MoreTargets(src, kids, i0, starredFirst, loc)
    ensures isSimple <==> kids[i0].kind == "AssignOp"
  {
    var targets: seq<AssignTarget> := [];
    var i := i0;
    isSimple := true;
    var haveStarred := starredFirst;
    PrependNoTargets(MoreTargets(src, kids, i0, starredFirst, loc));
    while kids[i].kind != "AssignOp"
      invariant i0 <= i < |kids|
      invariant PrependTargets(targets, MoreTargets(src, kids, i, haveStarred, loc))
                == MoreTargets(src, kids, i0, starredFirst, loc)
      invariant isSimple ==> i == i0
      invariant !isSimple ==> kids[i0].kind != "AssignOp"
      decreases |kids| - i
    {
      isSimple := false;
      var k := Next(kids, i);
      if kids[k].kind == "AssignOp" {
        i := k;
        break;
      }
      var t := TargetAt(src, kids, k);
      if t.Fail? {
        return Fail(t.err), isSimple;
      }
      var target := t.value.0;
      if target.starred {
        if haveStarred {
          return ErrAt(loc, MultipleStarred), isSimple;
        }
      }
      var i' := Next(kids, t.value.1);
      if i' == i {
        if target.starred {
          return ErrAt(loc, MultipleStarred), isSimple;
        }
        return Stuck(), isSimple;
      }
      MoreTargetsStep(src, kids, i, haveStarred, loc, target, t.value.1);
      PrependTargetsCons(targets, target, MoreTargets(src, kids, i', haveStarred || target.starred, loc));
      haveStarred := haveStarred || target.starred;
      targets := targets + [target];
      i := i';
    }
    assert MoreTargets(src, kids, i, haveStarred, loc) == Ok(Targets([], i));
    assert targets + [] == targets;
    return Ok(Targets(targets, i)), isSimple;
  }

  /**
   * `traverseDestructure`: the first target, the loop over the others, and
   * the check that a starred target is not alone.
   */
  method TraverseDestructure(src: Source, kids: seq<Node>) returns (r: Result<(Destructure, nat)>)
    requires kids != []
    ensures r == DestructureOf(src, kids)
  {
    var loc := Pos(src, kids[0]);
    var t0 := TargetAt(src, kids, 0);
    if t0.Fail? {
      return Fail(t0.err);
    }
    var first := t0.value.0;
    var rest, isSimple := TraverseMoreTargets(src, kids, Next(kids, t0.value.1), first.starred, loc);
    if rest.Fail? {
      return Fail(rest.err);
    }
    DestructureStart(src, kids, first, t0.value.1, rest.value);
    if isSimple && first.starred {
      return ErrAt(loc, LoneStarred);
    }
    return Ok((Destructure(loc, [first] + rest.value.targets, !isSimple), rest.value.assignOp));
  }
}
