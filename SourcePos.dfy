/**
 * Location tracker: turns a node's byte offsets into a Location (line,
 * column, length, file identifier) by looking at the source text before the
 * node's start.
 */
module SourcePos {
  import Js
  import opened Ast
  import opened Cst

  /**
   * The position computation exactly as the original writes it: the line is
   * the number of pieces when the text before `from` is split on newlines,
   * and the column is `from` minus the length of the text before the last
   * of those newlines.  On the first line this column is 0-based, on every
   * other line 1-based (see `FirstLineColumnIsZeroBased`).
   */
  function GetSourcePosAsWritten(s: string, from: nat, to: nat, fileId: int): Location
  {
    var substring := Js.Substring(s, 0, from);
    var pieces := Js.Split(substring, '\n');
    var line := |pieces|;
    var prevContent := Js.Join(pieces[..line - 1], '\n');
    Location(line, from - |prevContent|, to - from, fileId)
  }

  /** The text before offset `from` (all of `s` when `from` lies beyond it). */
  function Prefix(s: string, from: nat): (p: string)
    ensures |p| <= from && |p| <= |s|
    ensures from <= |s| ==> p == s[..from]
  {
    Js.Substring(s, 0, from)
  }

  /**
   * Scanning the first `k` characters of `s`: the number of the line
   * offset `k` lies on (counting from 1) and the offset where that line starts.
   */
  function LineStart(s: string, k: nat): (r: (nat, nat))
    requires k <= |s|
    ensures r.0 >= 1 && r.1 <= k
  {
    if k == 0 then (1, 0)
    else
      var r := LineStart(s, k - 1);
      if s[k - 1] == '\n' then (r.0 + 1, k) else r
  }

  /**
   * The position computation with a 1-based column on every line: the column
   * is one more than the distance from the start of the line to `from`.
   * This is the definition the builders use.
   */
  function GetSourcePos(s: string, from: nat, to: nat, fileId: int): (loc: Location)
    ensures loc.line >= 1 && loc.col >= 1
    ensures loc.length == to - from && loc.fileId == fileId
  {
    var r := LineStart(s, if from <= |s| then from else |s|);
    Location(r.0, from - r.1 + 1, to - from, fileId)
  }

  /**
   * The scan agrees with the split of the text before `k` on newlines: the
   * line is the number of pieces, and the line starts where the last piece does.
   */
  lemma {:induction false} LineStartSplit(s: string, k: nat)
    requires k <= |s|
    ensures LineStart(s, k).0 == |Js.Split(s[..k], '\n')|
    ensures LineStart(s, k).1 == k - |Js.LastPiece(s[..k], '\n')|
  {
    if k > 0 {
      LineStartSplit(s, k - 1);
      var t := s[..k - 1];
      var ch := s[k - 1];
      assert s[..k] == t + [ch];
      Js.SplitSnocPieces(t, ch, '\n');
    }
  }

  /** Both position computations in terms of the text before `from`. */
  lemma PrefixPosition(s: string, from: nat, to: nat, fileId: int)
    ensures var p := Prefix(s, from);
            && GetSourcePos(s, from, to, fileId).line == |Js.Split(p, '\n')|
            && GetSourcePos(s, from, to, fileId).col == from - (|p| - |Js.LastPiece(p, '\n')|) + 1
  {
    var k := if from <= |s| then from else |s|;
    LineStartSplit(s, k);
    assert Prefix(s, from) == s[..k];
  }

  /** The Location of a node of the source being compiled. */
  function Pos(src: Source, n: Node): (loc: Location)
    ensures loc.line >= 1 && loc.col >= 1
    ensures loc.length == n.to - n.from && loc.fileId == src.fileId
  {
    GetSourcePos(src.text, n.from, n.to, src.fileId)
  }

  /**
   * What the original computes: the line is one more than the number of
   * newlines before `from`; the column is `from` minus the length of the text
   * up to the last of those newlines, or `from` itself when there is none;
   * the length is the span's and the file identifier is passed through.
   */
  lemma AsWrittenPosition(s: string, from: nat, to: nat, fileId: int)
    ensures var loc := GetSourcePosAsWritten(s, from, to, fileId);
            var p := Prefix(s, from);
            && loc.line == 1 + Js.Count('\n', p)
            && loc.line >= 1
            && loc.col == (if loc.line > 1 then from - (|p| - |Js.LastPiece(p, '\n')| - 1) else from)
            && loc.length == to - from
            && loc.fileId == fileId
  {
    var p := Prefix(s, from);
    Js.SplitCount(p, '\n');
    if Js.Count('\n', p) > 0 {
      Js.JoinInit(p, '\n');
    } else {
      Js.SplitWithout(p, '\n');
    }
  }

  /**
   * The corrected position differs from the original only on the first line,
   * where its column is one larger.
   */
  lemma CorrectedAgreesAfterFirstLine(s: string, from: nat, to: nat, fileId: int)
    ensures var fixed := GetSourcePos(s, from, to, fileId);
            var orig := GetSourcePosAsWritten(s, from, to, fileId);
            && fixed.line == orig.line
            && fixed.length == orig.length
            && fixed.fileId == orig.fileId
            && fixed.col == (if orig.line > 1 then orig.col else orig.col + 1)
  {
    AsWrittenPosition(s, from, to, fileId);
    PrefixPosition(s, from, to, fileId);
    var p := Prefix(s, from);
    Js.LastPieceSuffix(p, '\n');
    if Js.Count('\n', p) == 0 {
      Js.SplitWithout(p, '\n');
    }
  }

  /**
   * On the first line the original's column is the offset itself, counted
   * from 0, where the corrected one counts from 1.
   */
  lemma FirstLineColumnIsZeroBased(s: string, from: nat, to: nat, fileId: int)
    requires from <= |s| && Js.Count('\n', s[..from]) == 0
    ensures GetSourcePosAsWritten(s, from, to, fileId).line == 1
    ensures GetSourcePosAsWritten(s, from, to, fileId).col == from
    ensures GetSourcePos(s, from, to, fileId).line == 1
    ensures GetSourcePos(s, from, to, fileId).col == from + 1
  {
    AsWrittenPosition(s, from, to, fileId);
    CorrectedAgreesAfterFirstLine(s, from, to, fileId);
  }

  /** Within the text, the line is counted and the column measured on the text before `from`. */
  lemma PosInPrefix(s: string, from: nat, to: nat, fileId: int)
    requires from <= |s|
    ensures GetSourcePos(s, from, to, fileId).line == |Js.Split(s[..from], '\n')|
    ensures GetSourcePos(s, from, to, fileId).col == |Js.LastPiece(s[..from], '\n')| + 1
  {
    LineStartSplit(s, from);
    Js.LastPieceSuffix(s[..from], '\n');
  }

  /** Cutting `m` characters after a prefix `lp` gives the first `m` characters of the rest. */
  lemma CutAfter(lp: string, rest: string, m: nat)
    requires m <= |rest|
    ensures Js.Substring(lp + rest, |lp|, |lp| + m) == rest[..m]
  {
    assert (lp + rest)[|lp|..|lp| + m] == rest[..m];
  }

  /** No newline lies between offsets `from` and `to`. */
  predicate OneLine(s: string, from: nat, to: nat)
    requires from <= to <= |s|
  {
    forall k :: from <= k < to ==> s[k] != '\n'
  }

  /** The text of a one-line span starts the first line of the text from its start on. */
  lemma FirstLineStarts(s: string, from: nat, to: nat)
    requires from <= to <= |s|
    requires OneLine(s, from, to)
    ensures to - from <= |Js.Split(s[from..], '\n')[0]|
    ensures Js.Split(s[from..], '\n')[0][..to - from] == s[from..to]
  {
    var q := s[from..];
    assert q[..to - from] == s[from..to];
    forall k | 0 <= k < to - from ensures q[k] != '\n' {
      assert q[k] == s[from + k];
    }
    Js.FirstPiecePrefix(q, to - from, '\n');
  }

  /**
   * Line `line` of `lines` (counting from 1), cut from column `col`
   * (counting from 1) for `length` characters, is `text`.
   */
  predicate Locates(lines: seq<string>, line: int, col: int, length: int, text: string)
  {
    1 <= line <= |lines| && Js.Substring(lines[line - 1], col - 1, col - 1 + length) == text
  }

  /**
   * The line holding offset `from` is the last line of the text before it
   * continued by the first line of the text from it on, so a one-line span
   * is cut from it right after that last line.
   */
  lemma LineHolds(s: string, from: nat, to: nat)
    requires from <= to <= |s|
    requires OneLine(s, from, to)
    ensures Locates(Js.Split(s, '\n'), |Js.Split(s[..from], '\n')|, |Js.LastPiece(s[..from], '\n')| + 1,
                    to - from, s[from..to])
  {
    Js.SplitAt(s, from, '\n');
    FirstLineStarts(s, from, to);
    CutAfter(Js.LastPiece(s[..from], '\n'), Js.Split(s[from..], '\n')[0], to - from);
  }

  /**
   * A node that lies on one line is found again from its Location: line
   * `line` of the source (counting from 1), cut from column `col` (counting
   * from 1) for `length` characters, is exactly the node's text.
   */
  lemma PosLocatesText(s: string, from: nat, to: nat, fileId: int)
    requires from <= to <= |s|
    requires OneLine(s, from, to)
    ensures var loc := GetSourcePos(s, from, to, fileId);
            Locates(Js.Split(s, '\n'), loc.line, loc.col, loc.length, s[from..to])
  {
    PosInPrefix(s, from, to, fileId);
    LineHolds(s, from, to);
  }
}
