/**
 * The run-time call-stack tracker (stack.ts): compiled code pushes the
 * location of every call and pops it on return; the tracker raises a
 * recursion error past 200 frames, a division error on a zero divisor,
 * and renders the innermost frames as a trace.
 */
module Stack {
  import Js
  import opened Ast
  import opened Cst
  import opened SourcePos

  /** The errors the tracker raises; `TypeError` is what rendering a frame that names no source line runs into. */
  datatype StackError =
    | RecursionError(source: seq<string>, callStack: seq<Location>, message: string)
    | ZeroDivisionError(source: seq<string>, callStack: seq<Location>)
    | TypeError

  /** The call stack after a pop: the last frame removed, nothing when it is empty. */
  function Popped(cs: seq<Location>): (r: seq<Location>)
    ensures cs == [] ==> r == []
    ensures cs != [] ==> r + [cs[|cs| - 1]] == cs
  {
    if cs == [] then [] else cs[..|cs| - 1]
  }

  /** Popping undoes a push. */
  lemma PopUndoesPush(cs: seq<Location>, loc: Location)
    ensures Popped(cs + [loc]) == cs
  {
    assert (cs + [loc])[..|cs|] == cs;
  }

  /** The stack is too deep from 200 frames on. */
  predicate Overflows(cs: seq<Location>) { |cs| >= 200 }

  /**
   * The text a frame points at: the `col`-th character on, `length` long, of
   * line `line` of the source file `fileId`; nothing when the file or the
   * line does not exist.
   */
  function SnippetOf(source: seq<string>, loc: Location): (r: Option<string>)
    ensures r.Some? <==> 0 <= loc.fileId < |source| && 1 <= loc.line <= |Js.Split(source[loc.fileId], '\n')|
  {
    if !(0 <= loc.fileId < |source|) then None
    else
      var lines := Js.Split(source[loc.fileId], '\n');
      if !(1 <= loc.line <= |lines|) then None
      else Some(Js.Substring(lines[loc.line - 1], loc.col - 1, loc.length + loc.col - 1))
  }

  /**
   * A frame pushed with the location the parser gives a node on one line
   * points back at that node's text.
   */
  lemma SnippetOfNode(source: seq<string>, src: Source, n: Node)
    requires 0 <= src.fileId < |source| && source[src.fileId] == src.text
    requires n.from <= n.to <= |src.text| && OneLine(src.text, n.from, n.to)
    ensures SnippetOf(source, Pos(src, n)) == Some(Text(src, n))
  {
    PosLocatesText(src.text, n.from, n.to, src.fileId);
  }

  /** One frame of the trace: the line called from, the label of its caller, and the snippet. */
  function Entry(loc: Location, caller: string, snippet: string): string
  {
    "line " + Js.IntToString(loc.line) + " in " + caller + " \n" + "\t " + snippet + " \n"
  }

  /** Where the rendered frames start: at most the last four are shown. */
  function WindowStart(n: nat): (s: nat)
    ensures s <= n && n - s == (if n < 4 then n else 4)
  {
    if n >= 4 then n - 4 else 0
  }

  /** The label of the oldest frame shown: "..." when frames are hidden above it. */
  function FirstLabel(n: nat): string
  {
    if n >= 5 then "..." else "main"
  }

  /** `t` after `s`, or nothing. */
  function Then(s: string, t: Option<string>): Option<string>
  {
    if t.None? then None else Some(s + t.value)
  }

  /**
   * The loop of `toString` from frame `i` on, where `caller` is the label of
   * the caller of frame `i`: each frame's entry, each later frame labelled by the
   * snippet of the one before.
   */
  function FramesFrom(source: seq<string>, cs: seq<Location>, i: nat, caller: string): Option<string>
    requires i <= |cs|
    decreases |cs| - i
  {
    if i == |cs| then Some("")
    else
      var s := SnippetOf(source, cs[i]);
      if s.None? then None
      else Then(Entry(cs[i], caller, s.value), FramesFrom(source, cs, i + 1, s.value))
  }

  /** `toString`: the innermost frames, oldest first. */
  function Trace(source: seq<string>, cs: seq<Location>): Option<string>
  {
    FramesFrom(source, cs, WindowStart(|cs|), FirstLabel(|cs|))
  }

  /** The frames shown. */
  function Window(cs: seq<Location>): seq<Location>
  {
    cs[WindowStart(|cs|)..]
  }

  predicate Resolved(source: seq<string>, w: seq<Location>)
  {
    forall k :: 0 <= k < |w| ==> SnippetOf(source, w[k]).Some?
  }

  /** The entries of frames `w` directly: entry `k` is labelled by `first` or by the snippet of entry `k - 1`. */
  function Entries(source: seq<string>, w: seq<Location>, first: string): (es: seq<string>)
    requires Resolved(source, w)
    ensures |es| == |w|
  {
    seq(|w|, k requires 0 <= k < |w| =>
      Entry(w[k], if k == 0 then first else SnippetOf(source, w[k - 1]).value, SnippetOf(source, w[k]).value))
  }

  function Concat(ss: seq<string>): string
  {
    if ss == [] then "" else ss[0] + Concat(ss[1..])
  }

  lemma EntriesCons(source: seq<string>, w: seq<Location>, first: string)
    requires w != [] && Resolved(source, w)
    ensures Resolved(source, w[1..])
    ensures Entries(source, w, first)
            == [Entry(w[0], first, SnippetOf(source, w[0]).value)] + Entries(source, w[1..], SnippetOf(source, w[0]).value)
  {
    var es := Entries(source, w, first);
    var s := SnippetOf(source, w[0]).value;
    var rest := Entries(source, w[1..], s);
    assert Resolved(source, w[1..]) by {
      forall k | 0 <= k < |w| - 1
        ensures SnippetOf(source, w[1..][k]).Some?
      {
        assert w[1..][k] == w[k + 1];
      }
    }
    forall k | 0 <= k < |es|
      ensures es[k] == ([Entry(w[0], first, s)] + rest)[k]
    {
      if k > 0 {
        assert w[1..][k - 1] == w[k];
        if k > 1 {
          assert w[1..][k - 2] == w[k - 1];
        }
      }
    }
  }

  lemma {:induction false} FramesFromEntries(source: seq<string>, cs: seq<Location>, i: nat, caller: string)
    requires i <= |cs|
    ensures FramesFrom(source, cs, i, caller).Some? <==> Resolved(source, cs[i..])
    ensures FramesFrom(source, cs, i, caller).Some? ==>
              FramesFrom(source, cs, i, caller).value == Concat(Entries(source, cs[i..], caller))
    decreases |cs| - i
  {
    if i < |cs| {
      var w := cs[i..];
      assert w[0] == cs[i] && w[1..] == cs[i + 1..];
      var s := SnippetOf(source, cs[i]);
      if s.Some? {
        FramesFromEntries(source, cs, i + 1, s.value);
        if Resolved(source, w) {
          EntriesCons(source, w, caller);
        } else {
          var k :| 0 <= k < |w| && SnippetOf(source, w[k]).None?;
          assert w[1..][k - 1] == w[k];
        }
      } else {
        assert SnippetOf(source, w[0]).None?;
      }
    } else {
      assert cs[i..] == [];
    }
  }

  /**
   * The trace shows the last `min(n, 4)` frames, oldest first; the oldest
   * is labelled "..." when there are at least 5 frames and "main"
   * otherwise, every later one by the snippet of the frame before it.  It
   * exists exactly when every shown frame names an existing source line.
   */
  lemma TraceShape(source: seq<string>, cs: seq<Location>)
    ensures |Window(cs)| == (if |cs| < 4 then |cs| else 4) && cs == cs[..|cs| - |Window(cs)|] + Window(cs)
    ensures Trace(source, cs).Some? <==> Resolved(source, Window(cs))
    ensures Trace(source, cs).Some? ==>
              Trace(source, cs).value == Concat(Entries(source, Window(cs), if |cs| >= 5 then "..." else "main"))
  {
    FramesFromEntries(source, cs, WindowStart(|cs|), FirstLabel(|cs|));
  }

  /** What `checkStackOverFlow` raises: the recursion error with the trace, or the error rendering it runs into. */
  function OverflowError(source: seq<string>, cs: seq<Location>): StackError
  {
    var t := Trace(source, cs);
    if t.None? then TypeError else RecursionError(source, cs, "maximum recursion depth exceeded\n" + t.value)
  }

  /** `deepcopy`: a new list holding a copy of every location. */
  method DeepCopy(a: seq<Location>) returns (r: seq<Location>)
    ensures |r| == |a| && forall k :: 0 <= k < |a| ==> r[k] == a[k]
  {
    r := [];
    var i := 0;
    while i < |a|
      invariant i <= |a| && |r| == i
      invariant forall k :: 0 <= k < i ==> r[k] == a[k]
    {
      var s := a[i];
      r := r + [Location(s.line, s.col, s.length, s.fileId)];
      i := i + 1;
    }
  }

  class StackManager {
    var source: seq<string>
    var callStack: seq<Location>

    constructor()
      ensures source == [] && callStack == []
    {
      source := [];
      callStack := [];
    }

    method PushStack(line: int, col: int, length: int, id: int)
      modifies this
      ensures callStack == old(callStack) + [Location(line, col, length, id)]
      ensures source == old(source)
    {
      callStack := callStack + [Location(line, col, length, id)];
    }

    method PopStack()
      modifies this
      ensures callStack == Popped(old(callStack))
      ensures source == old(source)
    {
      if callStack != [] {
        callStack := callStack[..|callStack| - 1];
      }
    }

    /** Raises (returns) an error exactly when the stack holds 200 frames or more. */
    method CheckStackOverFlow() returns (e: Option<StackError>)
      ensures e.Some? <==> Overflows(callStack)
      ensures e.Some? ==> e.value == OverflowError(source, callStack)
    {
      if |callStack| >= 200 {
        var copy := DeepCopy(callStack);
        var t := ToString();
        if t.None? {
          return Some(TypeError);
        }
        return Some(RecursionError(source, copy, "maximum recursion depth exceeded\n" + t.value));
      }
      return None;
    }

    /** Raises (returns) a division error exactly when the divisor is zero. */
    method CheckZeroDivision(denum: int) returns (e: Option<StackError>)
      ensures e.Some? <==> denum == 0
      ensures e.Some? ==> e.value == ZeroDivisionError(source, callStack)
    {
      if denum == 0 {
        var copy := DeepCopy(callStack);
        return Some(ZeroDivisionError(source, copy));
      }
      return None;
    }

    /** `toString`: the last frames, each snippet read from the frame's line by `SnippetOf`. */
    method ToString() returns (r: Option<string>)
      ensures r == Trace(source, callStack)
    {
      var files, cs := source, callStack;
      var ret := "";
      var previous := if |cs| >= 5 then "..." else "main";
      var i := if |cs| - 4 > 0 then |cs| - 4 else 0;
      ThenNothing(Trace(files, cs));
      while i < |cs|
        invariant i <= |cs|
        invariant Then(ret, FramesFrom(files, cs, i, previous)) == Trace(files, cs)
        decreases |cs| - i
      {
        var snippet := SnippetOf(files, cs[i]);
        if snippet.None? {
          return None;
        }
        ThenTwice(ret, Entry(cs[i], previous, snippet.value), FramesFrom(files, cs, i + 1, snippet.value));
        ret := ret + Entry(cs[i], previous, snippet.value);
        previous := snippet.value;
        i := i + 1;
      }
      assert ret + "" == ret;
      return Some(ret);
    }
  }

  lemma ThenNothing(t: Option<string>)
    ensures Then("", t) == t
  {
    if t.Some? {
      assert "" + t.value == t.value;
    }
  }

  lemma ThenTwice(s: string, s': string, t: Option<string>)
    ensures Then(s, Then(s', t)) == Then(s + s', t)
  {
    if t.Some? {
      assert s + (s' + t.value) == (s + s') + t.value;
    }
  }
}
