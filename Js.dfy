/**
 * The few JavaScript string primitives that the syntax-tree builder and the
 * stack manager rely on: `substring` (with its clamping and swapping of
 * out-of-range or reversed bounds), `split` and `join` on a single-character
 * separator, `trim`, the decimal rendering of numbers in template strings,
 * and the decimal reading of digit strings.
 */
module Js {

  function Clamp(x: int, len: nat): (r: nat)
    ensures r <= len
    ensures 0 <= x <= len ==> r == x
    ensures x < 0 ==> r == 0
    ensures x > len ==> r == len
  {
    if x < 0 then 0 else if x > len then len else x
  }

  /** `s.substring(start, end)`: both bounds are clamped into [0, |s|], then swapped if reversed. */
  function Substring(s: string, start: int, end: int): (r: string)
    ensures 0 <= start <= end <= |s| ==> r == s[start..end]
    ensures |r| <= |s|
  {
    var a := Clamp(start, |s|);
    var b := Clamp(end, |s|);
    if a <= b then s[a..b] else s[b..a]
  }

  /** Number of occurrences of `c` in `s`. */
  function Count(c: char, s: string): nat
  {
    if s == [] then 0 else Count(c, s[..|s| - 1]) + (if s[|s| - 1] == c then 1 else 0)
  }

  /** The piece list after one more character: a new empty piece, or a longer last piece. */
  function Extend(parts: seq<string>, ch: char, c: char): (r: seq<string>)
    requires |parts| >= 1
    ensures |r| >= |parts|
  {
    if ch == c then parts + [""]
    else parts[..|parts| - 1] + [parts[|parts| - 1] + [ch]]
  }

  /**
   * `s.split(c)`: the maximal pieces of `s` between occurrences of `c`, in
   * order.  Read from the right: a separator opens a new empty piece, any
   * other character extends the last piece.
   */
  function Split(s: string, c: char): (parts: seq<string>)
    ensures |parts| >= 1
  {
    if s == [] then [""] else Extend(Split(s[..|s| - 1], c), s[|s| - 1], c)
  }

  /** `parts.join(sep)`. */
  function Join(parts: seq<string>, sep: char): string
  {
    if |parts| == 0 then ""
    else if |parts| == 1 then parts[0]
    else Join(parts[..|parts| - 1], sep) + [sep] + parts[|parts| - 1]
  }

  /** The last piece of `s.split(c)`: the text after the last `c`, or all of `s`. */
  function LastPiece(s: string, c: char): string
  {
    Split(s, c)[|Split(s, c)| - 1]
  }

  /** A string without the separator is a single piece. */
  lemma {:induction false} SplitWithout(s: string, c: char)
    requires Count(c, s) == 0
    ensures Split(s, c) == [s]
  {
    if s != [] {
      var t := s[..|s| - 1];
      SplitWithout(t, c);
      assert t + [s[|s| - 1]] == s;
    }
  }

  /** The last piece is a suffix of the string. */
  lemma {:induction false} LastPieceSuffix(s: string, c: char)
    ensures |LastPiece(s, c)| <= |s|
    ensures LastPiece(s, c) == s[|s| - |LastPiece(s, c)|..]
  {
    if s != [] {
      var t := s[..|s| - 1];
      var ch := s[|s| - 1];
      LastPieceSuffix(t, c);
      var lp := LastPiece(t, c);
      if ch != c {
        assert LastPiece(s, c) == lp + [ch];
        assert s[|s| - |lp| - 1..] == t[|t| - |lp|..] + [ch];
      }
    }
  }

  /** `s.split(c)` has one more piece than `s` has occurrences of `c`. */
  lemma {:induction false} SplitCount(s: string, c: char)
    ensures |Split(s, c)| == Count(c, s) + 1
  {
    if s != [] {
      SplitCount(s[..|s| - 1], c);
    }
  }

  /** Joining the pieces of a split with the same separator gives back the string. */
  lemma {:induction false} JoinSplit(s: string, c: char)
    ensures Join(Split(s, c), c) == s
  {
    if s != [] {
      var t := s[..|s| - 1];
      var ch := s[|s| - 1];
      var init := Split(t, c);
      JoinSplit(t, c);
      assert t + [ch] == s;
      if ch == c {
        assert (init + [""])[..|init|] == init;
      } else {
        var parts := Split(s, c);
        assert parts[..|parts| - 1] == init[..|init| - 1];
        if |init| >= 2 {
          assert Join(init, c) == Join(init[..|init| - 1], c) + [c] + init[|init| - 1];
        }
      }
    }
  }

  /**
   * Everything before the last piece, joined back, is the text up to (not
   * including) the last separator.
   */
  lemma JoinInit(s: string, c: char)
    requires Count(c, s) > 0
    ensures Join(Split(s, c)[..|Split(s, c)| - 1], c) + [c] + LastPiece(s, c) == s
  {
    var parts := Split(s, c);
    SplitCount(s, c);
    assert |parts| >= 2;
    assert Join(parts, c) == Join(parts[..|parts| - 1], c) + [c] + parts[|parts| - 1];
    JoinSplit(s, c);
  }

  /** The pieces of `p + q` laid out from those of `p` and `q`. */
  function Fused(front: seq<string>, lp: string, sq: seq<string>): seq<string>
    requires |sq| >= 1
  {
    front + [lp + sq[0]] + sq[1..]
  }

  /** Splitting a string extended by one character extends the split of the string. */
  lemma SplitSnoc(s: string, ch: char, c: char)
    ensures Split(s + [ch], c) == Extend(Split(s, c), ch, c)
  {
    assert (s + [ch])[..|s + [ch]| - 1] == s;
  }

  /** One more character: a separator adds an empty last piece, any other character ends the last piece. */
  lemma SplitSnocPieces(s: string, ch: char, c: char)
    ensures |Split(s + [ch], c)| == |Split(s, c)| + (if ch == c then 1 else 0)
    ensures LastPiece(s + [ch], c) == if ch == c then "" else LastPiece(s, c) + [ch]
  {
    SplitSnoc(s, ch, c);
  }

  /** Extending commutes with fusing: the new character lands in the pieces of `q`. */
  lemma FusedExtend(front: seq<string>, lp: string, sq: seq<string>, ch: char, c: char)
    requires |sq| >= 1
    ensures Extend(Fused(front, lp, sq), ch, c) == Fused(front, lp, Extend(sq, ch, c))
  {
    var x := Fused(front, lp, sq);
    var sq2 := Extend(sq, ch, c);
    if ch == c {
      assert sq2[1..] == sq[1..] + [""];
    } else if |sq| == 1 {
      assert sq2 == [sq[0] + [ch]];
      assert (lp + sq[0]) + [ch] == lp + (sq[0] + [ch]);
    } else {
      assert x[..|x| - 1] == front + [lp + sq[0]] + sq[1..|sq| - 1];
      assert sq2[1..] == sq[1..|sq| - 1] + [sq[|sq| - 1] + [ch]];
    }
  }

  /** Splitting a concatenation: the last piece of `p` fuses with the first piece of `q`. */
  lemma {:induction false} SplitConcat(p: string, q: string, c: char)
    ensures Split(p + q, c) == Fused(Split(p, c)[..|Split(p, c)| - 1], LastPiece(p, c), Split(q, c))
  {
    var sp := Split(p, c);
    var front := sp[..|sp| - 1];
    var lp := LastPiece(p, c);
    if q == [] {
      assert p + q == p;
      assert lp + "" == lp;
      assert sp == front + [lp];
    } else {
      var q' := q[..|q| - 1];
      var ch := q[|q| - 1];
      SplitConcat(p, q', c);
      assert q' + [ch] == q;
      assert (p + q') + [ch] == p + q;
      SplitSnoc(q', ch, c);
      SplitSnoc(p + q', ch, c);
      FusedExtend(front, lp, Split(q', c), ch, c);
    }
  }

  /**
   * In the split of `p + q`, the piece that holds the boundary between `p`
   * and `q` sits where the last piece of `p` sat, and carries on with the
   * first piece of `q`.
   */
  lemma SplitConcatBoundary(p: string, q: string, c: char)
    ensures |Split(p + q, c)| == |Split(p, c)| + |Split(q, c)| - 1
    ensures Split(p + q, c)[|Split(p, c)| - 1] == LastPiece(p, c) + Split(q, c)[0]
  {
    SplitConcat(p, q, c);
  }

  /** `SplitConcatBoundary` for a string cut at offset `k`. */
  lemma SplitAt(s: string, k: nat, c: char)
    requires k <= |s|
    ensures |Split(s, c)| == |Split(s[..k], c)| + |Split(s[k..], c)| - 1
    ensures Split(s, c)[|Split(s[..k], c)| - 1] == LastPiece(s[..k], c) + Split(s[k..], c)[0]
  {
    assert s == s[..k] + s[k..];
    SplitConcatBoundary(s[..k], s[k..], c);
  }

  /** A leading separator opens an empty first piece. */
  lemma SplitAfterSeparator(rest: string, c: char)
    ensures Split([c] + rest, c) == [""] + Split(rest, c)
  {
    var sr := Split(rest, c);
    SplitConcat([c], rest, c);
    SplitSnoc([], c, c);
    assert [] + [c] == [c];
    assert Split([c], c) == ["", ""];
    assert "" + sr[0] == sr[0] && [sr[0]] + sr[1..] == sr;
  }

  /** A separator-free head joins the first piece of the rest. */
  lemma SplitAfterPlain(t: string, rest: string, c: char)
    requires Count(c, t) == 0
    ensures Split(t + rest, c) == [t + Split(rest, c)[0]] + Split(rest, c)[1..]
  {
    SplitConcat(t, rest, c);
    SplitWithout(t, c);
    assert LastPiece(t, c) == t;
  }

  /** A string none of whose characters is `c` has no occurrence of it. */
  lemma {:induction false} NoneCounted(s: string, c: char)
    requires forall k :: 0 <= k < |s| ==> s[k] != c
    ensures Count(c, s) == 0
  {
    if s != [] {
      var t := s[..|s| - 1];
      assert forall k :: 0 <= k < |t| ==> t[k] == s[k];
      NoneCounted(t, c);
    }
  }

  /** The first piece of a split begins with any separator-free prefix of the string. */
  lemma {:induction false} FirstPiecePrefix(q: string, n: nat, c: char)
    requires n <= |q|
    requires forall k :: 0 <= k < n ==> q[k] != c
    ensures n <= |Split(q, c)[0]| && Split(q, c)[0][..n] == q[..n]
  {
    if n == |q| {
      assert q[..n] == q;
      NoneCounted(q, c);
      SplitWithout(q, c);
    } else {
      var q' := q[..|q| - 1];
      assert q'[..n] == q[..n];
      FirstPiecePrefix(q', n, c);
      var sq' := Split(q', c);
      if q[|q| - 1] != c && |sq'| == 1 {
        assert Split(q, c)[0] == sq'[0] + [q[|q| - 1]];
      }
    }
  }

  predicate IsDigit(ch: char) { '0' <= ch <= '9' }

  predicate IsDigits(s: string) { forall k :: 0 <= k < |s| ==> IsDigit(s[k]) }

  function DigitValue(ch: char): nat requires IsDigit(ch) { (ch as int) - ('0' as int) }

  function DigitChar(d: nat): (ch: char)
    requires d < 10
    ensures IsDigit(ch) && DigitValue(ch) == d
  {
    ('0' as int + d) as char
  }

  /** The value of a string of decimal digits (`BigInt(text)` for such text; empty text is 0). */
  function DecimalValue(s: string): nat
    requires IsDigits(s)
  {
    if s == [] then 0 else 10 * DecimalValue(s[..|s| - 1]) + DigitValue(s[|s| - 1])
  }

  /** The decimal rendering of a natural number, as a template string prints it. */
  function NatToString(n: nat): (r: string)
    ensures |r| >= 1 && IsDigits(r)
  {
    if n < 10 then [DigitChar(n)] else NatToString(n / 10) + [DigitChar(n % 10)]
  }

  function IntToString(i: int): string
  {
    if i < 0 then "-" + NatToString(-i) else NatToString(i)
  }

  /** Reading back a rendered number gives the number. */
  lemma {:induction false} DecimalOfNatToString(n: nat)
    ensures DecimalValue(NatToString(n)) == n
  {
    if n >= 10 {
      DecimalOfNatToString(n / 10);
      var r := NatToString(n);
      assert r[..|r| - 1] == NatToString(n / 10);
    }
  }

  /** Distinct numbers render differently. */
  lemma NatToStringInjective(m: nat, n: nat)
    requires NatToString(m) == NatToString(n)
    ensures m == n
  {
    DecimalOfNatToString(m);
    DecimalOfNatToString(n);
  }

  /** The white-space and line-terminator characters `String.prototype.trim` removes. */
  predicate IsSpace(ch: char)
  {
    || ch == ' ' || ch == '\t' || ch == '\n' || ch == '\r' || ch == '\U{000B}' || ch == '\U{000C}'
    || ch == '\U{00A0}' || ch == '\U{FEFF}' || ch == '\U{1680}' || '\U{2000}' <= ch <= '\U{200A}'
    || ch == '\U{2028}' || ch == '\U{2029}' || ch == '\U{202F}' || ch == '\U{205F}' || ch == '\U{3000}'
  }

  /** `s.trim()`: `s` without its leading and trailing white space. */
  function Trim(s: string): (r: string)
    ensures |r| <= |s|
    ensures r != [] ==> !IsSpace(r[0]) && !IsSpace(r[|r| - 1])
  {
    if s == [] then s
    else if IsSpace(s[0]) then Trim(s[1..])
    else if IsSpace(s[|s| - 1]) then Trim(s[..|s| - 1])
    else s
  }
}
