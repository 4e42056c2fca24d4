/**
 * Definitions (parser.ts, traverseParameters, traverseVarInit,
 * traverseScope, traverseFunDef, traverseClass, traverseDefs, the `is*`
 * classifiers and traverse): the declarations that open a function body or
 * a program, the statements after them, and class bodies.
 */
module Defs {
  import opened Ast
  import opened Cst
  import opened SourcePos
  import Literals
  import opened Types
  import opened Stmts

  /**
   * The parameters of a parameter list from position `i` on: a name, its
   * `TypeDef`, and optionally `=` and a default literal.  Once a parameter
   * had a default (`defaulted`), every later one needs one.  Parameter
   * errors carry no location.  A cursor stuck on the last child would read
   * the same parameter forever.
   */
  function ParamsFrom(src: Source, pl: Node, i: nat, defaulted: bool): Result<seq<Parameter>>
    requires i < |pl.children|
    decreases |pl.children| - i
  {
    var kids := pl.children;
    if kids[i].kind == ")" then Ok([])
    else
      var name := Text(src, kids[i]);
      var t := Next(kids, i);
      if kids[t].kind != "TypeDef" then Fail(Err(None, MissingParamType))
      else if kids[t].children == [] then NoChild()
      else
        var typ :- TypeOf(src, kids[t].children[Next(kids[t].children, 0)]);
        var q := Next(kids, t);
        if kids[q].kind == "AssignOp" then
          var v := Next(kids, q);
          var value :- Literals.LiteralOf(src, kids[v]);
          var i' := Next(kids, Next(kids, v));
          if i' == i then Stuck()
          else Cons(Parameter(name, typ, Some(value)), ParamsFrom(src, pl, i', true))
        else if defaulted then Fail(Err(None, MissingDefault))
        else
          var i' := Next(kids, q);
          if i' == i then Stuck()
          else Cons(Parameter(name, typ, None), ParamsFrom(src, pl, i', false))
  }

  /** `traverseParameters`: the parameters after the opening parenthesis. */
  function ParamsOf(src: Source, pl: Node): Result<seq<Parameter>>
  {
    if pl.children == [] then NoChild() else ParamsFrom(src, pl, Next(pl.children, 0), false)
  }

  /** Parameters with defaults come last. */
  predicate DefaultsLast(ps: seq<Parameter>)
  {
    forall p, q :: 0 <= p < q < |ps| && ps[p].value.Some? ==> ps[q].value.Some?
  }

  predicate AllDefaulted(ps: seq<Parameter>)
  {
    forall p :: 0 <= p < |ps| ==> ps[p].value.Some?
  }

  lemma DefaultsLastCons(x: Parameter, ps: seq<Parameter>)
    requires DefaultsLast(ps) && (x.value.Some? ==> AllDefaulted(ps))
    ensures DefaultsLast([x] + ps)
    ensures AllDefaulted(ps) && x.value.Some? ==> AllDefaulted([x] + ps)
  {
    var xs := [x] + ps;
    forall p, q | 0 <= p < q < |xs| && xs[p].value.Some?
      ensures xs[q].value.Some?
    {
      assert xs[q] == ps[q - 1];
      if p > 0 {
        assert xs[p] == ps[p - 1];
      }
    }
    if AllDefaulted(ps) && x.value.Some? {
      forall p | 0 <= p < |xs|
        ensures xs[p].value.Some?
      {
        if p > 0 {
          assert xs[p] == ps[p - 1];
        }
      }
    }
  }

  /**
   * A parameter list that parses has its defaulted parameters last, all of
   * them once one was seen: a parameter without a default after one with a
   * default is rejected.
   */
  lemma {:induction false} ParamsDefaultsLast(src: Source, pl: Node, i: nat, defaulted: bool)
    requires i < |pl.children|
    requires ParamsFrom(src, pl, i, defaulted).Ok?
    ensures DefaultsLast(ParamsFrom(src, pl, i, defaulted).value)
    ensures defaulted ==> AllDefaulted(ParamsFrom(src, pl, i, defaulted).value)
    decreases |pl.children| - i
  {
    var kids := pl.children;
    var ps := ParamsFrom(src, pl, i, defaulted).value;
    if kids[i].kind == ")" {
      assert ps == [];
    } else {
      var t := Next(kids, i);
      var q := Next(kids, t);
      if kids[q].kind == "AssignOp" {
        var v := Next(kids, q);
        var i' := Next(kids, Next(kids, v));
        ParamsDefaultsLast(src, pl, i', true);
        var rest := ParamsFrom(src, pl, i', true).value;
        assert ps == [ps[0]] + rest && ps[0].value.Some?;
        DefaultsLastCons(ps[0], rest);
      } else {
        var i' := Next(kids, q);
        ParamsDefaultsLast(src, pl, i', false);
        var rest := ParamsFrom(src, pl, i', false).value;
        assert ps == [ps[0]] + rest && ps[0].value.None? && !defaulted;
        DefaultsLastCons(ps[0], rest);
      }
    }
  }

  /** A parameter whose name is not followed by a `TypeDef` is rejected. */
  lemma MissingTypeRejected(src: Source, pl: Node, i: nat, defaulted: bool)
    requires i < |pl.children| && pl.children[i].kind != ")"
    requires pl.children[Next(pl.children, i)].kind != "TypeDef"
    ensures ParamsFrom(src, pl, i, defaulted) == Fail(Err(None, MissingParamType))
  {
  }

  /** After a default, a parameter whose type is not followed by `=` is rejected. */
  lemma MissingDefaultRejected(src: Source, pl: Node, i: nat)
    requires i < |pl.children| && pl.children[i].kind != ")"
    requires var kids := pl.children; var t := Next(kids, i);
             && kids[t].kind == "TypeDef" && kids[t].children != []
             && TypeOf(src, kids[t].children[Next(kids[t].children, 0)]).Ok?
             && kids[Next(kids, t)].kind != "AssignOp"
    ensures ParamsFrom(src, pl, i, true) == Fail(Err(None, MissingDefault))
  {
  }

  /** `traverseVarInit`: name, `TypeDef`, `=` and a literal initializer. */
  function VarInitOf(src: Source, n: Node): Result<VarInit>
  {
    var loc := Pos(src, n);
    var kids := n.children;
    if kids == [] then NoChild()
    else
      var t := Next(kids, 0);
      if kids[t].kind != "TypeDef" then ErrAt(loc, InvalidVarInit)
      else if kids[t].children == [] then NoChild()
      else
        var typ :- TypeOf(src, kids[t].children[Next(kids[t].children, 0)]);
        var value :- Literals.LiteralOf(src, kids[Next(kids, Next(kids, t))]);
        Ok(VarInit(loc, Text(src, kids[0]), typ, value))
  }

  /**
   * A variable init is its first child's name, the type inside the
   * `TypeDef` after it and the literal two children further on; without
   * the `TypeDef` it is rejected at the statement.
   */
  lemma VarInitRules(src: Source, n: Node)
    requires n.children != []
    ensures var kids := n.children;
            var t := Next(kids, 0);
            kids[t].kind != "TypeDef" ==> VarInitOf(src, n) == ErrAt(Pos(src, n), InvalidVarInit)
    ensures var kids := n.children;
            var t := Next(kids, 0);
            VarInitOf(src, n).Ok? ==>
              && kids[t].kind == "TypeDef" && kids[t].children != []
              && TypeOf(src, kids[t].children[Next(kids[t].children, 0)]) == Ok(VarInitOf(src, n).value.typ)
              && Literals.LiteralOf(src, kids[Next(kids, Next(kids, t))]) == Ok(VarInitOf(src, n).value.value)
              && VarInitOf(src, n).value.name == Text(src, kids[0])
              && VarInitOf(src, n).value.a == Pos(src, n)
  {
  }

  /** `traverseScope`: only `nonlocal` declarations are accepted. */
  function ScopeOf(src: Source, n: Node): (r: Result<Scope>)
    ensures r.Ok? ==> n.children != [] && Text(src, n.children[0]) == "nonlocal"
    ensures n.children != [] && Text(src, n.children[0]) == "global" ==> r == ErrAt(Pos(src, n), GlobalUnsupported)
    ensures n.children != [] && Text(src, n.children[0]) == "nonlocal"
            ==> r == Ok(Nonlocal(Pos(src, n), Text(src, n.children[Next(n.children, 0)])))
    ensures n.children != [] && Text(src, n.children[0]) != "global" && Text(src, n.children[0]) != "nonlocal"
            ==> r == ErrAt(Pos(src, n), InvalidScope)
  {
    var loc := Pos(src, n);
    var kids := n.children;
    if kids == [] then NoChild()
    else
      var scope := Text(src, kids[0]);
      var name := Text(src, kids[Next(kids, 0)]);
      if scope == "global" then ErrAt(loc, GlobalUnsupported)
      else if scope == "nonlocal" then Ok(Nonlocal(loc, name))
      else ErrAt(loc, InvalidScope)
  }

  /** An assignment statement whose second child is a `TypeDef` is a variable init. */
  predicate IsVarInit(n: Node)
  {
    n.kind == "AssignStatement" && n.children != [] && n.children[Next(n.children, 0)].kind == "TypeDef"
  }

  predicate IsScope(n: Node) { n.kind == "ScopeStatement" }

  predicate IsFunDef(n: Node) { n.kind == "FunctionDefinition" }

  predicate IsClassDef(n: Node) { n.kind == "ClassDefinition" }

  /**
   * The four classifiers look at the node's kind, and at most one of them
   * holds; an assignment is a variable init exactly when the child after its
   * target is a `TypeDef`.
   */
  lemma DefKindsExclusive(n: Node)
    ensures IsVarInit(n) ==> n.kind == "AssignStatement" && !IsScope(n) && !IsFunDef(n) && !IsClassDef(n)
    ensures IsScope(n) <==> n.kind == "ScopeStatement"
    ensures IsFunDef(n) <==> n.kind == "FunctionDefinition"
    ensures IsClassDef(n) <==> n.kind == "ClassDefinition"
    ensures n.kind == "AssignStatement" && |n.children| >= 2
            ==> (IsVarInit(n) <==> n.children[1].kind == "TypeDef")
  {
  }

  /** What may open a function body. */
  predicate IsLocalDecl(n: Node) { IsVarInit(n) || IsScope(n) || IsFunDef(n) }

  /** What may open a program. */
  predicate IsTopDef(n: Node) { IsVarInit(n) || IsFunDef(n) || IsClassDef(n) }

  /** The declarations of a function body, each kind in its own list. */
  datatype Decls = Decls(inits: seq<VarInit>, decls: seq<Scope>, funs: seq<FunDef>)

  function Size(d: Decls): nat { |d.inits| + |d.decls| + |d.funs| }

  /** `r` with the declarations of `d` put in front of its own, or the same failure. */
  function PrependDecls(d: Decls, r: Result<Decls>): Result<Decls>
  {
    match r
    case Ok(e) => Ok(Decls(d.inits + e.inits, d.decls + e.decls, d.funs + e.funs))
    case Fail(err) => Fail(err)
  }

  lemma PrependDeclsNothing(r: Result<Decls>)
    ensures PrependDecls(Decls([], [], []), r) == r
  {
    if r.Ok? {
      var e := r.value;
      assert [] + e.inits == e.inits && [] + e.decls == e.decls && [] + e.funs == e.funs;
    }
  }

  lemma PrependDeclsTwice(d: Decls, d': Decls, r: Result<Decls>)
    ensures PrependDecls(d, PrependDecls(d', r))
            == PrependDecls(Decls(d.inits + d'.inits, d.decls + d'.decls, d.funs + d'.funs), r)
  {
    if r.Ok? {
      var e := r.value;
      assert d.inits + (d'.inits + e.inits) == (d.inits + d'.inits) + e.inits;
      assert d.decls + (d'.decls + e.decls) == (d.decls + d'.decls) + e.decls;
      assert d.funs + (d'.funs + e.funs) == (d.funs + d'.funs) + e.funs;
    }
  }

  lemma PrependDeclsToEmpty(d: Decls)
    ensures PrependDecls(d, Ok(Decls([], [], []))) == Ok(d)
  {
    assert d.inits + [] == d.inits && d.decls + [] == d.decls && d.funs + [] == d.funs;
  }

  /** The position of the first child at or after `j` that is not a local declaration, or the end. */
  function DeclEnd(kids: seq<Node>, j: nat): (e: nat)
    requires j <= |kids|
    ensures j <= e <= |kids|
    ensures forall k :: j <= k < e ==> IsLocalDecl(kids[k])
    ensures e < |kids| ==> !IsLocalDecl(kids[e])
    decreases |kids| - j
  {
    if j == |kids| || !IsLocalDecl(kids[j]) then j else DeclEnd(kids, j + 1)
  }

  /** `traverseFunDef`: name, parameters, optional return type, then the body. */
  function FunDefOf(src: Source, n: Node): Result<FunDef>
    decreases n, 2, 0
  {
    var loc := Pos(src, n);
    var kids := n.children;
    if kids == [] then NoChild()
    else
      var p1 := Next(kids, 0);
      var pl := Next(kids, p1);
      var params :- ParamsOf(src, kids[pl]);
      var b := Next(kids, pl);
      var hasRet := kids[b].kind == "TypeDef";
      if hasRet && kids[b].children == [] then NoChild()
      else
        var ret :- if hasRet then TypeOf(src, kids[b].children[0]) else Ok(NoneT);
        var body := kids[if hasRet then Next(kids, b) else b];
        if body.children == [] then NoChild()
        else
          var ds :- DeclsFrom(src, body, 1);
          var stmts :- StmtsFrom(src, body, DeclEnd(body.children, 1));
          Ok(FunDef(loc, Text(src, kids[p1]), params, ret, ds.inits, ds.decls, ds.funs, stmts))
  }

  /**
   * The first loop of `traverseFunDef` from position `j` of the body: each
   * leading declaration goes into its list, in order; it stops at the
   * first other child.
   */
  function DeclsFrom(src: Source, b: Node, j: nat): Result<Decls>
    requires j <= |b.children|
    decreases b, 1, |b.children| - j
  {
    var kids := b.children;
    if j == |kids| || !IsLocalDecl(kids[j]) then Ok(Decls([], [], []))
    else if IsVarInit(kids[j]) then
      var v :- VarInitOf(src, kids[j]);
      PrependDecls(Decls([v], [], []), DeclsFrom(src, b, j + 1))
    else if IsScope(kids[j]) then
      var s :- ScopeOf(src, kids[j]);
      PrependDecls(Decls([], [s], []), DeclsFrom(src, b, j + 1))
    else
      var f :- FunDefOf(src, kids[j]);
      PrependDecls(Decls([], [], [f]), DeclsFrom(src, b, j + 1))
  }

  /** Each leading declaration lands in exactly one list. */
  lemma {:induction false} DeclsCount(src: Source, b: Node, j: nat)
    requires j <= |b.children| && DeclsFrom(src, b, j).Ok?
    ensures Size(DeclsFrom(src, b, j).value) == DeclEnd(b.children, j) - j
    decreases |b.children| - j
  {
    var kids := b.children;
    if j < |kids| && IsLocalDecl(kids[j]) {
      DeclsCount(src, b, j + 1);
    }
  }

  /**
   * A function body is partitioned: its leading declarations give the
   * inits, scope declarations and nested functions, one each, and every
   * later child is a statement, in order (`StmtsFromCollect`).
   */
  lemma FunBodyPartition(src: Source, body: Node)
    requires body.children != []
    requires DeclsFrom(src, body, 1).Ok?
    requires StmtsFrom(src, body, DeclEnd(body.children, 1)).Ok?
    ensures var e := DeclEnd(body.children, 1);
            && Size(DeclsFrom(src, body, 1).value) == e - 1
            && |StmtsFrom(src, body, e).value| == |body.children| - e
            && (e < |body.children| ==> !IsLocalDecl(body.children[e]))
  {
    var e := DeclEnd(body.children, 1);
    DeclsCount(src, body, 1);
    StmtsFromCollect(src, body, e);
    CollectOk(StmtResults(src, body.children[e..]), StmtsFrom(src, body, e).value);
  }

  /** The members of a class body: fields and methods. */
  datatype Members = Members(fields: seq<VarInit>, methods: seq<FunDef>)

  function PrependMembers(m: Members, r: Result<Members>): Result<Members>
  {
    match r
    case Ok(e) => Ok(Members(m.fields + e.fields, m.methods + e.methods))
    case Fail(err) => Fail(err)
  }

  lemma PrependMembersNothing(r: Result<Members>)
    ensures PrependMembers(Members([], []), r) == r
  {
    if r.Ok? {
      assert [] + r.value.fields == r.value.fields && [] + r.value.methods == r.value.methods;
    }
  }

  lemma PrependMembersTwice(m: Members, m': Members, r: Result<Members>)
    ensures PrependMembers(m, PrependMembers(m', r))
            == PrependMembers(Members(m.fields + m'.fields, m.methods + m'.methods), r)
  {
    if r.Ok? {
      var e := r.value;
      assert m.fields + (m'.fields + e.fields) == (m.fields + m'.fields) + e.fields;
      assert m.methods + (m'.methods + e.methods) == (m.methods + m'.methods) + e.methods;
    }
  }

  lemma PrependMembersToEmpty(m: Members)
    ensures PrependMembers(m, Ok(Members([], []))) == Ok(m)
  {
    assert m.fields + [] == m.fields && m.methods + [] == m.methods;
  }

  /** The member at child `j` of a class body: a field or a method; anything else is rejected at `loc`. */
  function MemberAt(src: Source, kids: seq<Node>, j: nat, loc: Location): Result<Members>
    requires j < |kids|
  {
    if IsVarInit(kids[j]) then
      var v :- VarInitOf(src, kids[j]);
      Ok(Members([v], []))
    else if IsFunDef(kids[j]) then
      var f :- FunDefOf(src, kids[j]);
      Ok(Members([], [f]))
    else ErrAt(loc, BadClassBody)
  }

  /** `r` after the member result `m`, failing with `m`'s failure first. */
  function MemberThen(m: Result<Members>, r: Result<Members>): Result<Members>
  {
    if m.Fail? then Fail(m.err) else PrependMembers(m.value, r)
  }

  /** The loop over a class body from position `j`: every child is a member, in order. */
  function MembersFrom(src: Source, b: Node, j: nat, loc: Location): Result<Members>
    requires j <= |b.children|
    decreases |b.children| - j
  {
    if j == |b.children| then Ok(Members([], []))
    else MemberThen(MemberAt(src, b.children, j, loc), MembersFrom(src, b, j + 1, loc))
  }

  /** The constructor a class gets when it defines none: `self` only, returning `None`, empty. */
  function DefaultInit(loc: Location, className: string): FunDef
  {
    FunDef(loc, "__init__", [Parameter("self", ClassT(className), None)], NoneT, [], [], [], [])
  }

  /** The number of methods named `__init__`. */
  function InitCount(ms: seq<FunDef>): nat
  {
    if ms == [] then 0 else InitCount(ms[..|ms| - 1]) + (if ms[|ms| - 1].name == "__init__" then 1 else 0)
  }

  /** The count is zero exactly when no method is named `__init__` (what the original's `find` looks for). */
  lemma {:induction false} NoInit(ms: seq<FunDef>)
    ensures InitCount(ms) == 0 <==> forall k :: 0 <= k < |ms| ==> ms[k].name != "__init__"
  {
    if ms != [] {
      var front := ms[..|ms| - 1];
      NoInit(front);
      assert forall k :: 0 <= k < |front| ==> front[k] == ms[k];
    }
  }

  /** The methods of a class: the parsed ones, and the default constructor after them when none is named `__init__`. */
  function WithInit(loc: Location, className: string, ms: seq<FunDef>): seq<FunDef>
  {
    if InitCount(ms) == 0 then ms + [DefaultInit(loc, className)] else ms
  }

  /** `traverseClass`: name, superclass list, then the body. */
  function ClassOf(src: Source, n: Node): Result<Class>
  {
    var loc := Pos(src, n);
    var kids := n.children;
    if kids == [] then NoChild()
    else
      var p1 := Next(kids, 0);
      var className := Text(src, kids[p1]);
      var body := kids[Next(kids, Next(kids, p1))];
      if body.children == [] then NoChild()
      else
        var members :- MembersFrom(src, body, 1, loc);
        Ok(Class(loc, className, members.fields, WithInit(loc, className, members.methods)))
  }

  /**
   * A class has at least one constructor: the parsed methods stay in
   * order, and the default constructor is added exactly when none of them
   * is named `__init__`, so a class defining at most one has exactly one.
   */
  lemma InitSynthesis(loc: Location, className: string, ms: seq<FunDef>)
    ensures var ms' := WithInit(loc, className, ms);
            && ms'[..|ms|] == ms
            && InitCount(ms') == (if InitCount(ms) == 0 then 1 else InitCount(ms))
            && (InitCount(ms) == 0 <==> |ms'| == |ms| + 1)
            && (InitCount(ms) == 0 ==> ms'[|ms|] == DefaultInit(loc, className))
  {
    var ms' := WithInit(loc, className, ms);
    if InitCount(ms) == 0 {
      assert ms'[..|ms'| - 1] == ms;
    }
    assert ms'[..|ms|] == ms;
  }

  /** Every child of a class body after the colon is a field or a method. */
  lemma {:induction false} MembersOnly(src: Source, b: Node, j: nat, loc: Location)
    requires j <= |b.children| && MembersFrom(src, b, j, loc).Ok?
    ensures forall k :: j <= k < |b.children| ==> IsVarInit(b.children[k]) || IsFunDef(b.children[k])
    decreases |b.children| - j
  {
    if j < |b.children| {
      MembersStepOk(src, b, j, loc);
      MembersOnly(src, b, j + 1, loc);
      forall k | j <= k < |b.children|
        ensures IsVarInit(b.children[k]) || IsFunDef(b.children[k])
      {
        if k == j {
          MemberAtIsMember(src, b.children, j, loc);
        }
      }
    }
  }

  lemma MembersStepOk(src: Source, b: Node, j: nat, loc: Location)
    requires j < |b.children| && MembersFrom(src, b, j, loc).Ok?
    ensures MemberAt(src, b.children, j, loc).Ok? && MembersFrom(src, b, j + 1, loc).Ok?
  {
    MemberThenOk(MemberAt(src, b.children, j, loc), MembersFrom(src, b, j + 1, loc));
  }

  lemma MemberAtIsMember(src: Source, kids: seq<Node>, j: nat, loc: Location)
    requires j < |kids| && MemberAt(src, kids, j, loc).Ok?
    ensures IsVarInit(kids[j]) || IsFunDef(kids[j])
  {
  }

  lemma MemberThenOk(m: Result<Members>, r: Result<Members>)
    requires MemberThen(m, r).Ok?
    ensures m.Ok? && r.Ok?
  {
  }

  /**
   * A class keeps its parsed methods first, in order, and has a
   * constructor: the default one is appended exactly when no parsed method
   * is named `__init__`.
   */
  lemma ClassConstructor(src: Source, n: Node)
    requires ClassOf(src, n).Ok?
    ensures var kids := n.children;
            var body := kids[Next(kids, Next(kids, Next(kids, 0)))];
            var c := ClassOf(src, n).value;
            var parsed := MembersFrom(src, body, 1, Pos(src, n)).value.methods;
            && c.methods[..|parsed|] == parsed
            && InitCount(c.methods) == (if InitCount(parsed) == 0 then 1 else InitCount(parsed))
            && (InitCount(parsed) == 0 <==> c.methods == parsed + [DefaultInit(Pos(src, n), c.name)])
  {
    var kids := n.children;
    var body := kids[Next(kids, Next(kids, Next(kids, 0)))];
    var c := ClassOf(src, n).value;
    var parsed := MembersFrom(src, body, 1, Pos(src, n)).value.methods;
    InitSynthesis(Pos(src, n), c.name, parsed);
  }

  /** The definitions that open a program. */
  datatype TopDefs = TopDefs(inits: seq<VarInit>, funs: seq<FunDef>, classes: seq<Class>)

  function PrependTop(d: TopDefs, r: Result<TopDefs>): Result<TopDefs>
  {
    match r
    case Ok(e) => Ok(TopDefs(d.inits + e.inits, d.funs + e.funs, d.classes + e.classes))
    case Fail(err) => Fail(err)
  }

  lemma PrependTopNothing(r: Result<TopDefs>)
    ensures PrependTop(TopDefs([], [], []), r) == r
  {
    if r.Ok? {
      var e := r.value;
      assert [] + e.inits == e.inits && [] + e.funs == e.funs && [] + e.classes == e.classes;
    }
  }

  lemma PrependTopTwice(d: TopDefs, d': TopDefs, r: Result<TopDefs>)
    ensures PrependTop(d, PrependTop(d', r))
            == PrependTop(TopDefs(d.inits + d'.inits, d.funs + d'.funs, d.classes + d'.classes), r)
  {
    if r.Ok? {
      var e := r.value;
      assert d.inits + (d'.inits + e.inits) == (d.inits + d'.inits) + e.inits;
      assert d.funs + (d'.funs + e.funs) == (d.funs + d'.funs) + e.funs;
      assert d.classes + (d'.classes + e.classes) == (d.classes + d'.classes) + e.classes;
    }
  }

  lemma PrependTopToEmpty(d: TopDefs)
    ensures PrependTop(d, Ok(TopDefs([], [], []))) == Ok(d)
  {
    assert d.inits + [] == d.inits && d.funs + [] == d.funs && d.classes + [] == d.classes;
  }

  /** The definition at child `j` of a program, in the list it belongs to. */
  function TopDefAt(src: Source, kids: seq<Node>, j: nat): Result<TopDefs>
    requires j < |kids| && IsTopDef(kids[j])
  {
    if IsVarInit(kids[j]) then
      var v :- VarInitOf(src, kids[j]);
      Ok(TopDefs([v], [], []))
    else if IsFunDef(kids[j]) then
      var f :- FunDefOf(src, kids[j]);
      Ok(TopDefs([], [f], []))
    else
      var c :- ClassOf(src, kids[j]);
      Ok(TopDefs([], [], [c]))
  }

  /** `r` after the definition result `d`, failing with `d`'s failure first. */
  function TopThen(d: Result<TopDefs>, r: Result<TopDefs>): Result<TopDefs>
  {
    if d.Fail? then Fail(d.err) else PrependTop(d.value, r)
  }

  /** The first loop of `traverse` from position `j`: the leading definitions, in order. */
  function TopDefsFrom(src: Source, kids: seq<Node>, j: nat): Result<TopDefs>
    requires j <= |kids|
    decreases |kids| - j
  {
    if j == |kids| || !IsTopDef(kids[j]) then Ok(TopDefs([], [], []))
    else TopThen(TopDefAt(src, kids, j), TopDefsFrom(src, kids, j + 1))
  }

  /** The position of the first child at or after `j` that is not a definition, or the end. */
  function TopEnd(kids: seq<Node>, j: nat): (e: nat)
    requires j <= |kids|
    ensures j <= e <= |kids|
    ensures forall k :: j <= k < e ==> IsTopDef(kids[k])
    ensures e < |kids| ==> !IsTopDef(kids[e])
    decreases |kids| - j
  {
    if j == |kids| || !IsTopDef(kids[j]) then j else TopEnd(kids, j + 1)
  }

  /** `traverse`: a script is its leading definitions followed by its statements. */
  function ProgramOf(src: Source, n: Node): Result<Program>
  {
    var loc := Pos(src, n);
    if n.kind != "Script" then ErrAt(loc, NotAScript)
    else
      var defs :- TopDefsFrom(src, n.children, 0);
      var stmts :- StmtsFrom(src, n, TopEnd(n.children, 0));
      Ok(Program(loc, defs.funs, defs.inits, defs.classes, stmts, []))
  }

  function TopSize(d: TopDefs): nat { |d.inits| + |d.funs| + |d.classes| }

  /** A definition lands in exactly one list. */
  lemma TopDefAtOne(src: Source, kids: seq<Node>, j: nat)
    requires j < |kids| && IsTopDef(kids[j]) && TopDefAt(src, kids, j).Ok?
    ensures TopSize(TopDefAt(src, kids, j).value) == 1
  {
  }

  lemma TopThenSize(d: Result<TopDefs>, r: Result<TopDefs>)
    requires TopThen(d, r).Ok?
    ensures d.Ok? && r.Ok? && TopSize(TopThen(d, r).value) == TopSize(d.value) + TopSize(r.value)
  {
  }

  lemma {:induction false} TopDefsCount(src: Source, kids: seq<Node>, j: nat)
    requires j <= |kids| && TopDefsFrom(src, kids, j).Ok?
    ensures TopSize(TopDefsFrom(src, kids, j).value) == TopEnd(kids, j) - j
    decreases |kids| - j
  {
    if j < |kids| && IsTopDef(kids[j]) {
      TopThenSize(TopDefAt(src, kids, j), TopDefsFrom(src, kids, j + 1));
      TopDefAtOne(src, kids, j);
      TopDefsCount(src, kids, j + 1);
    }
  }

  /**
   * A program is partitioned: each leading definition lands in exactly one
   * of its lists, every later child is one of its statements, and no
   * closures are built.
   */
  lemma ProgramPartition(src: Source, n: Node)
    requires ProgramOf(src, n).Ok?
    ensures var p := ProgramOf(src, n).value;
            var e := TopEnd(n.children, 0);
            && n.kind == "Script"
            && |p.inits| + |p.funs| + |p.classes| == e
            && |p.stmts| == |n.children| - e
            && p.closures == []
  {
    var e := TopEnd(n.children, 0);
    TopDefsCount(src, n.children, 0);
    StmtsFromCollect(src, n, e);
    CollectOk(StmtResults(src, n.children[e..]), StmtsFrom(src, n, e).value);
  }

  /**
   * `traverseDefs`: the same classification as the first loop of
   * `traverse`, but the move to the next child is not checked, so a
   * definition that is the last child is read again and again.
   */
  function DefsFrom(src: Source, kids: seq<Node>, i: nat): Result<TopDefs>
    requires i < |kids|
    decreases |kids| - i
  {
    if !IsTopDef(kids[i]) then Ok(TopDefs([], [], []))
    else if i + 1 == |kids| then TopThen(TopDefAt(src, kids, i), Stuck())
    else TopThen(TopDefAt(src, kids, i), DefsFrom(src, kids, i + 1))
  }

  /** `traverseDefs` never returns when every child from `i` on is a definition. */
  lemma {:induction false} DefsToTheEnd(src: Source, kids: seq<Node>, i: nat)
    requires i < |kids| && forall k :: i <= k < |kids| ==> IsTopDef(kids[k])
    ensures DefsFrom(src, kids, i).Fail?
    decreases |kids| - i
  {
    if i + 1 < |kids| {
      DefsToTheEnd(src, kids, i + 1);
    }
  }

  /** Before a child that is not a definition, `traverseDefs` reads what the first loop of `traverse` reads. */
  lemma {:induction false} DefsAgree(src: Source, kids: seq<Node>, i: nat)
    requires i < |kids| && TopEnd(kids, i) < |kids|
    ensures DefsFrom(src, kids, i) == TopDefsFrom(src, kids, i)
    decreases |kids| - i
  {
    if IsTopDef(kids[i]) {
      DefsAgree(src, kids, i + 1);
    }
  }

  /** The loop of `traverseParameters`. */
  method TraverseParameters(src: Source, pl: Node) returns (r: Result<seq<Parameter>>)
    ensures r == ParamsOf(src, pl)
  {
    var kids := pl.children;
    if kids == [] {
      return NoChild();
    }
    var parameters: seq<Parameter> := [];
    var i := Next(kids, 0);
    ghost var i0 := i;
    var traversedDefault := false;
    PrependNothing(ParamsFrom(src, pl, i0, false));
    while kids[i].kind != ")"
      invariant i < |kids|
      invariant Prepend(parameters, ParamsFrom(src, pl, i, traversedDefault)) == ParamsFrom(src, pl, i0, false)
      decreases |kids| - i
    {
      var name := Text(src, kids[i]);
      var j := Next(kids, i);
      if kids[j].kind != "TypeDef" {
        return Fail(Err(None, MissingParamType));
      }
      var td := kids[j].children;
      if td == [] {
        return NoChild();
      }
      var typ := TypeOf(src, td[Next(td, 0)]);
      if typ.Fail? {
        return Fail(typ.err);
      }
      j := Next(kids, j);
      var p: Parameter;
      var wasDefault := traversedDefault;
      if kids[j].kind == "AssignOp" {
        traversedDefault := true;
        j := Next(kids, j);
        var value := Literals.LiteralOf(src, kids[j]);
        if value.Fail? {
          return Fail(value.err);
        }
        p := Parameter(name, typ.value, Some(value.value));
        j := Next(kids, j);
      } else {
        if traversedDefault {
          return Fail(Err(None, MissingDefault));
        }
        p := Parameter(name, typ.value, None);
      }
      j := Next(kids, j);
      if j == i {
        return Stuck();
      }
      assert ParamsFrom(src, pl, i, wasDefault) == Cons(p, ParamsFrom(src, pl, j, traversedDefault));
      PrependCons(parameters, p, ParamsFrom(src, pl, j, traversedDefault));
      parameters := parameters + [p];
      i := j;
    }
    PrependToEmpty(parameters);
    return Ok(parameters);
  }

  /**
   * `traverseFunDef`: the first loop sorts the leading declarations, the
   * second builds a statement from every later child of the body.
   */
  method TraverseFunDef(src: Source, n: Node) returns (r: Result<FunDef>)
    ensures r == FunDefOf(src, n)
  {
    var kids := n.children;
    if kids == [] {
      return NoChild();
    }
    var p1 := Next(kids, 0);
    var pl := Next(kids, p1);
    var params := TraverseParameters(src, kids[pl]);
    if params.Fail? {
      return Fail(params.err);
    }
    var b := Next(kids, pl);
    var ret := NoneT;
    if kids[b].kind == "TypeDef" {
      if kids[b].children == [] {
        return NoChild();
      }
      var t := TypeOf(src, kids[b].children[0]);
      if t.Fail? {
        return Fail(t.err);
      }
      ret := t.value;
      b := Next(kids, b);
    }
    var bk := kids[b].children;
    if bk == [] {
      return NoChild();
    }
    var ds, j := TraverseDecls(src, kids[b]);
    if ds.Fail? {
      return Fail(ds.err);
    }
    var body := TraverseStmtsFrom(src, kids[b], j);
    if body.Fail? {
      return Fail(body.err);
    }
    return Ok(FunDef(Pos(src, n), Text(src, kids[p1]), params.value, ret,
                     ds.value.inits, ds.value.decls, ds.value.funs, body.value));
  }

  /** The first loop of `traverseFunDef`. */
  method TraverseDecls(src: Source, b: Node) returns (r: Result<Decls>, j: nat)
    requires b.children != []
    ensures r == DeclsFrom(src, b, 1)
    ensures r.Ok? ==> j == DeclEnd(b.children, 1)
  {
    var kids := b.children;
    var inits: seq<VarInit> := [];
    var decls: seq<Scope> := [];
    var funs: seq<FunDef> := [];
    j := 1;
    var hasChild := j < |kids|;
    PrependDeclsNothing(DeclsFrom(src, b, 1));
    while hasChild
      invariant 1 <= j <= |kids| && (hasChild <==> j < |kids|)
      invariant j <= DeclEnd(kids, 1) && DeclEnd(kids, j) == DeclEnd(kids, 1)
      invariant PrependDecls(Decls(inits, decls, funs), DeclsFrom(src, b, j)) == DeclsFrom(src, b, 1)
      decreases |kids| - j
    {
      var d: Decls;
      if IsVarInit(kids[j]) {
        var v := VarInitOf(src, kids[j]);
        if v.Fail? {
          return Fail(v.err), j;
        }
        d := Decls([v.value], [], []);
      } else if IsScope(kids[j]) {
        var s := ScopeOf(src, kids[j]);
        if s.Fail? {
          return Fail(s.err), j;
        }
        d := Decls([], [s.value], []);
      } else if IsFunDef(kids[j]) {
        var f := TraverseFunDef(src, kids[j]);
        if f.Fail? {
          return Fail(f.err), j;
        }
        d := Decls([], [], [f.value]);
      } else {
        break;
      }
      PrependDeclsTwice(Decls(inits, decls, funs), d, DeclsFrom(src, b, j + 1));
      inits, decls, funs := inits + d.inits, decls + d.decls, funs + d.funs;
      hasChild := Moves(kids, j);
      j := j + 1;
    }
    PrependDeclsToEmpty(Decls(inits, decls, funs));
    return Ok(Decls(inits, decls, funs)), j;
  }

  /** The second loop of `traverseFunDef` and of `traverse`: a statement for every child from `j` on. */
  method TraverseStmtsFrom(src: Source, p: Node, j0: nat) returns (r: Result<seq<Stmt>>)
    requires j0 <= |p.children|
    ensures r == StmtsFrom(src, p, j0)
  {
    var kids := p.children;
    var stmts: seq<Stmt> := [];
    var j := j0;
    var hasChild := j < |kids|;
    PrependNothing(StmtsFrom(src, p, j0));
    while hasChild
      invariant j0 <= j <= |kids| && (hasChild <==> j < |kids|)
      invariant Prepend(stmts, StmtsFrom(src, p, j)) == StmtsFrom(src, p, j0)
      decreases |kids| - j
    {
      var s := TraverseStmt(src, kids[j]);
      if s.Fail? {
        return Fail(s.err);
      }
      PrependCons(stmts, s.value, StmtsFrom(src, p, j + 1));
      stmts := stmts + [s.value];
      hasChild := Moves(kids, j);
      j := j + 1;
    }
    PrependToEmpty(stmts);
    return Ok(stmts);
  }

  /** `traverseClass`: the loop over the body, then the default constructor when needed. */
  method TraverseClass(src: Source, n: Node) returns (r: Result<Class>)
    ensures r == ClassOf(src, n)
  {
    var loc := Pos(src, n);
    var kids := n.children;
    if kids == [] {
      return NoChild();
    }
    var p1 := Next(kids, 0);
    var className := Text(src, kids[p1]);
    var b := kids[Next(kids, Next(kids, p1))];
    var bk := b.children;
    if bk == [] {
      return NoChild();
    }
    var fields: seq<VarInit> := [];
    var methods: seq<FunDef> := [];
    var j := 1;
    PrependMembersNothing(MembersFrom(src, b, 1, loc));
    while j < |bk|
      invariant 1 <= j <= |bk|
      invariant PrependMembers(Members(fields, methods), MembersFrom(src, b, j, loc)) == MembersFrom(src, b, 1, loc)
      decreases |bk| - j
    {
      var m := TraverseMember(src, bk, j, loc);
      if m.Fail? {
        return Fail(m.err);
      }
      PrependMembersTwice(Members(fields, methods), m.value, MembersFrom(src, b, j + 1, loc));
      fields, methods := fields + m.value.fields, methods + m.value.methods;
      j := j + 1;
    }
    PrependMembersToEmpty(Members(fields, methods));
    if InitCount(methods) == 0 {
      methods := methods + [DefaultInit(loc, className)];
    }
    return Ok(Class(loc, className, fields, methods));
  }

  /** The member at child `j` of a class body, built by the methods. */
  method TraverseMember(src: Source, kids: seq<Node>, j: nat, loc: Location) returns (r: Result<Members>)
    requires j < |kids|
    ensures r == MemberAt(src, kids, j, loc)
  {
    if IsVarInit(kids[j]) {
      var v := VarInitOf(src, kids[j]);
      if v.Fail? {
        return Fail(v.err);
      }
      return Ok(Members([v.value], []));
    } else if IsFunDef(kids[j]) {
      var f := TraverseFunDef(src, kids[j]);
      if f.Fail? {
        return Fail(f.err);
      }
      return Ok(Members([], [f.value]));
    } else {
      return ErrAt(loc, BadClassBody);
    }
  }

  /** The definition at child `j`, built by the methods. */
  method TraverseTopDef(src: Source, kids: seq<Node>, j: nat) returns (r: Result<TopDefs>)
    requires j < |kids| && IsTopDef(kids[j])
    ensures r == TopDefAt(src, kids, j)
  {
    if IsVarInit(kids[j]) {
      var v := VarInitOf(src, kids[j]);
      if v.Fail? {
        return Fail(v.err);
      }
      return Ok(TopDefs([v.value], [], []));
    } else if IsFunDef(kids[j]) {
      var f := TraverseFunDef(src, kids[j]);
      if f.Fail? {
        return Fail(f.err);
      }
      return Ok(TopDefs([], [f.value], []));
    } else {
      var c := TraverseClass(src, kids[j]);
      if c.Fail? {
        return Fail(c.err);
      }
      return Ok(TopDefs([], [], [c.value]));
    }
  }

  /** `traverseDefs`: an endless loop left only at a child that is not a definition. */
  method TraverseDefs(src: Source, kids: seq<Node>, start: nat) returns (r: Result<TopDefs>)
    requires start < |kids|
    ensures r == DefsFrom(src, kids, start)
  {
    var acc := TopDefs([], [], []);
    var i := start;
    PrependTopNothing(DefsFrom(src, kids, start));
    while true
      invariant i < |kids|
      invariant PrependTop(acc, DefsFrom(src, kids, i)) == DefsFrom(src, kids, start)
      decreases |kids| - i
    {
      if !IsTopDef(kids[i]) {
        PrependTopToEmpty(acc);
        return Ok(acc);
      }
      var d := TraverseTopDef(src, kids, i);
      if d.Fail? {
        return Fail(d.err);
      }
      if i + 1 == |kids| {
        return Stuck();
      }
      PrependTopTwice(acc, d.value, DefsFrom(src, kids, i + 1));
      acc := TopDefs(acc.inits + d.value.inits, acc.funs + d.value.funs, acc.classes + d.value.classes);
      i := i + 1;
    }
  }

  /** `traverse`: the definitions loop, then the statements loop, over the children of a script. */
  method Traverse(src: Source, n: Node) returns (r: Result<Program>)
    ensures r == ProgramOf(src, n)
  {
    var loc := Pos(src, n);
    if n.kind != "Script" {
      return ErrAt(loc, NotAScript);
    }
    var kids := n.children;
    var acc := TopDefs([], [], []);
    var j := 0;
    var hasChild := kids != [];
    PrependTopNothing(TopDefsFrom(src, kids, 0));
    while hasChild
      invariant j <= |kids| && (hasChild <==> j < |kids|)
      invariant j <= TopEnd(kids, 0) && TopEnd(kids, j) == TopEnd(kids, 0)
      invariant PrependTop(acc, TopDefsFrom(src, kids, j)) == TopDefsFrom(src, kids, 0)
      decreases |kids| - j
    {
      if !IsTopDef(kids[j]) {
        break;
      }
      var d := TraverseTopDef(src, kids, j);
      if d.Fail? {
        return Fail(d.err);
      }
      PrependTopTwice(acc, d.value, TopDefsFrom(src, kids, j + 1));
      acc := TopDefs(acc.inits + d.value.inits, acc.funs + d.value.funs, acc.classes + d.value.classes);
      hasChild := Moves(kids, j);
      j := j + 1;
    }
    PrependTopToEmpty(acc);
    var stmts := TraverseStmtsFrom(src, n, j);
    if stmts.Fail? {
      return Fail(stmts.err);
    }
    return Ok(Program(loc, acc.funs, acc.inits, acc.classes, stmts.value, []));
  }
}
