/** Line splitting of a response body, as Python's `bytes.splitlines()` does
    it: a line ends at a line feed, a carriage return, or a carriage return
    followed by a line feed; the terminator is not part of the line, and a
    final terminator does not open an empty last line. */
module Lines {

  newtype byte = x: int | 0 <= x < 256

  const LF: byte := 10
  const CR: byte := 13

  predicate IsBreak(b: byte) {
    b == LF || b == CR
  }

  /** A line as `splitlines` returns it never holds a terminator byte. */
  predicate NoBreaks(s: seq<byte>) {
    forall i :: 0 <= i < |s| ==> !IsBreak(s[i])
  }

  /** Position of the first terminator byte of `s`, or `|s|` if there is none. */
  function FirstBreak(s: seq<byte>): (r: nat)
    ensures r <= |s|
    ensures NoBreaks(s[..r])
    ensures r < |s| ==> IsBreak(s[r])
  {
    if s == [] then 0
    else if IsBreak(s[0]) then 0
    else
      var r' := FirstBreak(s[1..]);
      assert s[..1 + r'] == [s[0]] + s[1..][..r'];
      1 + r'
  }

  /** Number of bytes the terminator starting at `s[i]` occupies: two for
      CR LF, one otherwise. */
  function BreakWidth(s: seq<byte>, i: nat): (w: nat)
    requires i < |s| && IsBreak(s[i])
    ensures 1 <= w <= 2 && i + w <= |s|
    ensures w == 2 <==> s[i] == CR && i + 1 < |s| && s[i + 1] == LF
  {
    if s[i] == CR && i + 1 < |s| && s[i + 1] == LF then 2 else 1
  }

  /** `bytes.splitlines()`: the lines of `s`, in order, without terminators. */
  function SplitLines(s: seq<byte>): (lines: seq<seq<byte>>)
    ensures forall k :: 0 <= k < |lines| ==> NoBreaks(lines[k])
    ensures |lines| <= |s|
    ensures lines == [] <==> s == []
    decreases |s|
  {
    if s == [] then []
    else
      var i := FirstBreak(s);
      if i == |s| then [s]
      else [s[..i]] + SplitLines(s[i + BreakWidth(s, i)..])
  }

  /** The three line terminators `splitlines` recognises. */
  datatype Newline = LineFeed | CarriageReturn | CrLf

  function NewlineBytes(t: Newline): (b: seq<byte>)
    ensures 1 <= |b| <= 2 && IsBreak(b[0])
    ensures b[0] == LF <==> t == LineFeed
  {
    match t
    case LineFeed => [LF]
    case CarriageReturn => [CR]
    case CrLf => [CR, LF]
  }

  /** A body made of `lines`, line `k` followed by the terminator `ts[k]`. */
  function JoinLines(lines: seq<seq<byte>>, ts: seq<Newline>): (s: seq<byte>)
    requires |ts| == |lines|
  {
    if lines == [] then [] else lines[0] + NewlineBytes(ts[0]) + JoinLines(lines[1..], ts[1..])
  }

  /** Lines and terminators that can be told apart again: no line holds a
      terminator byte, and a lone carriage return is never followed by an
      empty line ended by a line feed (the two bytes would read as one
      CR LF terminator). */
  predicate Separable(lines: seq<seq<byte>>, ts: seq<Newline>)
  {
    && |ts| == |lines|
    && (forall k :: 0 <= k < |lines| ==> NoBreaks(lines[k]))
    && (forall k :: 0 <= k < |lines| - 1 && ts[k] == CarriageReturn && lines[k + 1] == [] ==> ts[k + 1] != LineFeed)
  }

  /** The first terminator of a line followed by a terminator is the one
      right after the line. */
  lemma FirstBreakOfLine(line: seq<byte>, rest: seq<byte>)
    requires NoBreaks(line)
    requires rest == [] || IsBreak(rest[0])
    ensures FirstBreak(line + rest) == |line|
  {
    var s := line + rest;
    assert s[..|line|] == line;
    assert |line| < |s| ==> s[|line|] == rest[0];
  }

  /** Separable lines stay separable when the first one is taken off. */
  lemma SeparableTail(lines: seq<seq<byte>>, ts: seq<Newline>)
    requires lines != [] && Separable(lines, ts)
    ensures Separable(lines[1..], ts[1..])
  {
    forall k | 0 <= k < |lines| - 2 && ts[1..][k] == CarriageReturn && lines[1..][k + 1] == []
      ensures ts[1..][k + 1] != LineFeed
    {
      assert ts[1..][k] == ts[k + 1] && lines[1..][k + 1] == lines[k + 2];
    }
  }

  /** What follows a lone carriage return in a body of separable lines never
      starts with a line feed, so the carriage return is a one-byte terminator. */
  lemma NoLineFeedAfterCarriageReturn(lines: seq<seq<byte>>, ts: seq<Newline>, tail: seq<byte>)
    requires Separable(lines, ts) && NoBreaks(tail)
    requires lines != [] && lines[0] == [] ==> ts[0] != LineFeed
    ensures var s := JoinLines(lines, ts) + tail; s != [] ==> s[0] != LF
  {
    if lines != [] {
      assert JoinLines(lines, ts) + tail == lines[0] + NewlineBytes(ts[0]) + (JoinLines(lines[1..], ts[1..]) + tail);
    }
  }

  /** A line followed by its terminator is split off as the first line. */
  lemma SplitFirstLine(line: seq<byte>, t: Newline, rest: seq<byte>)
    requires NoBreaks(line)
    requires t == CarriageReturn && rest != [] ==> rest[0] != LF
    ensures SplitLines(line + NewlineBytes(t) + rest) == [line] + SplitLines(rest)
  {
    var nl := NewlineBytes(t);
    var s := line + nl + rest;
    assert s == line + (nl + rest);
    FirstBreakOfLine(line, nl + rest);
    var i := |line|;
    assert BreakWidth(s, i) == |nl|;
    assert s[..i] == line;
    assert s[i + |nl|..] == rest;
  }

  /** A body without terminators is a single line (or none, when empty). */
  lemma SplitOneLine(tail: seq<byte>)
    requires NoBreaks(tail)
    ensures SplitLines(tail) == if tail == [] then [] else [tail]
  {
    if tail != [] {
      FirstBreakOfLine(tail, []);
      assert tail + [] == tail;
    }
  }

  /** One step of SplitJoin: the first joined line comes off first. */
  lemma SplitJoinStep(lines: seq<seq<byte>>, ts: seq<Newline>, tail: seq<byte>)
    requires lines != [] && Separable(lines, ts) && NoBreaks(tail)
    ensures SplitLines(JoinLines(lines, ts) + tail) == [lines[0]] + SplitLines(JoinLines(lines[1..], ts[1..]) + tail)
  {
    var rest := JoinLines(lines[1..], ts[1..]) + tail;
    assert JoinLines(lines, ts) + tail == lines[0] + NewlineBytes(ts[0]) + rest;
    if ts[0] == CarriageReturn {
      SeparableTail(lines, ts);
      assert 0 < |lines| - 1 && lines[1] == [] ==> ts[1] != LineFeed;
      NoLineFeedAfterCarriageReturn(lines[1..], ts[1..], tail);
    }
    SplitFirstLine(lines[0], ts[0], rest);
  }

  /** Splitting undoes joining, whatever terminator ends each line: the
      joined lines come back first, followed by the lines of whatever comes
      after them. */
  lemma {:induction false} SplitJoin(lines: seq<seq<byte>>, ts: seq<Newline>, tail: seq<byte>)
    requires Separable(lines, ts) && NoBreaks(tail)
    ensures SplitLines(JoinLines(lines, ts) + tail) == lines + SplitLines(tail)
    decreases |lines|
  {
    if lines == [] {
      assert JoinLines(lines, ts) + tail == tail;
    } else {
      SplitJoinStep(lines, ts, tail);
      SeparableTail(lines, ts);
      SplitJoin(lines[1..], ts[1..], tail);
      PrependHead(SplitLines(JoinLines(lines, ts) + tail), SplitLines(JoinLines(lines[1..], ts[1..]) + tail),
                  lines, SplitLines(tail));
    }
  }

  /** Proof helper, not modelled behaviour: from `x == [xs[0]] + y` and
      `y == xs[1..] + z`, `x == xs + z`. Kept apart so the solver takes the
      step without unfolding what `x`, `y` and `z` stand for. */
  lemma PrependHead<T>(x: seq<T>, y: seq<T>, xs: seq<T>, z: seq<T>)
    requires xs != [] && x == [xs[0]] + y && y == xs[1..] + z
    ensures x == xs + z
  {
    assert xs == [xs[0]] + xs[1..];
  }

  /** In particular a body of terminated lines followed by an unterminated
      last line splits into exactly those lines, the last one included when
      it is not empty. */
  lemma SplitJoinLast(lines: seq<seq<byte>>, ts: seq<Newline>, last: seq<byte>)
    requires Separable(lines, ts) && NoBreaks(last)
    ensures SplitLines(JoinLines(lines, ts) + last) == lines + (if last == [] then [] else [last])
  {
    SplitJoin(lines, ts, last);
    SplitOneLine(last);
  }

  /** A body mixing terminators, `a LF b CR LF c`, splits into `a`, `b`, `c`. */
  lemma MixedTerminators()
    ensures SplitLines([97, LF, 98, CR, LF, 99]) == [[97], [98], [99]]
  {
    var lines: seq<seq<byte>>, ts := [[97], [98]], [LineFeed, CrLf];
    assert JoinLines(lines, ts) + [99] == [97, LF, 98, CR, LF, 99];
    SplitJoinLast(lines, ts, [99]);
  }

  /** `n` line feeds as terminators. */
  function LineFeeds(n: nat): (ts: seq<Newline>)
    ensures |ts| == n && forall k :: 0 <= k < n ==> ts[k] == LineFeed
  {
    if n == 0 then [] else [LineFeed] + LineFeeds(n - 1)
  }

  /** The converse for bodies that use line feeds only: joining the lines
      again with line feeds gives back the body, with a final line feed
      added when the body did not end with one. */
  lemma {:induction false} JoinSplit(s: seq<byte>)
    requires CR !in s
    ensures var lines := SplitLines(s); JoinLines(lines, LineFeeds(|lines|)) == Terminated(s)
    decreases |s|
  {
    if s != [] {
      var i := FirstBreak(s);
      if i == |s| {
        JoinSplitOneLine(s);
      } else {
        NoCarriageReturnAfter(s, i);
        JoinSplit(s[i + 1..]);
        JoinSplitStep(s, i);
      }
    }
  }

  lemma NoCarriageReturnAfter(s: seq<byte>, i: nat)
    requires CR !in s && i < |s|
    ensures CR !in s[i + 1..]
  {
    var s' := s[i + 1..];
    assert forall j :: 0 <= j < |s'| ==> s'[j] == s[i + 1 + j];
  }

  /** One step of JoinSplit: the first line and its line feed come off first. */
  lemma JoinSplitStep(s: seq<byte>, i: nat)
    requires i < |s| && s[i] == LF && NoBreaks(s[..i])
    requires var lines' := SplitLines(s[i + 1..]); JoinLines(lines', LineFeeds(|lines'|)) == Terminated(s[i + 1..])
    ensures var lines := SplitLines(s); JoinLines(lines, LineFeeds(|lines|)) == Terminated(s)
  {
    var line, s' := s[..i], s[i + 1..];
    var lines, lines' := SplitLines(s), SplitLines(s');
    assert JoinLines(lines, LineFeeds(|lines|)) == line + [LF] + JoinLines(lines', LineFeeds(|lines'|)) by {
      SplitAtLineFeed(s, i);
      JoinLinesCons(line, lines');
    }
    TerminatedAfterLineFeed(s, i);
    Rewrite(JoinLines(lines, LineFeeds(|lines|)), line + [LF], JoinLines(lines', LineFeeds(|lines'|)),
            Terminated(s'), Terminated(s));
  }

  /** Proof helper, not modelled behaviour: from `x == p + y`, `y == z` and
      `p + z == w`, `x == w`, taken without unfolding what the arguments
      stand for. */
  lemma Rewrite<T>(x: seq<T>, p: seq<T>, y: seq<T>, z: seq<T>, w: seq<T>)
    requires x == p + y && y == z && p + z == w
    ensures x == w
  {
  }

  /** `s` with a line feed appended unless it is empty or already ends with one. */
  function Terminated(s: seq<byte>): seq<byte>
  {
    if s == [] || s[|s| - 1] == LF then s else s + [LF]
  }

  lemma TerminatedAfterLineFeed(s: seq<byte>, i: nat)
    requires i < |s| && s[i] == LF
    ensures s[..i] + [LF] + Terminated(s[i + 1..]) == Terminated(s)
  {
    var s' := s[i + 1..];
    assert s == s[..i] + [LF] + s';
    if s' != [] {
      assert s[|s| - 1] == s'[|s'| - 1];
    }
  }

  /** Unfolding of SplitLines at a line feed. */
  lemma SplitAtLineFeed(s: seq<byte>, i: nat)
    requires i < |s| && s[i] == LF && NoBreaks(s[..i])
    ensures SplitLines(s) == [s[..i]] + SplitLines(s[i + 1..])
  {
    var line, rest := s[..i], s[i + 1..];
    assert NewlineBytes(LineFeed) == [LF];
    assert s == line + [LF] + rest;
    SplitFirstLine(line, LineFeed, rest);
  }

  /** JoinSplit for a body without terminators. */
  lemma JoinSplitOneLine(s: seq<byte>)
    requires s != [] && NoBreaks(s)
    ensures JoinLines(SplitLines(s), LineFeeds(|SplitLines(s)|)) == s + [LF]
  {
    FirstBreakOfLine(s, []);
    assert s + [] == s;
    assert LineFeeds(1) == [LineFeed];
    assert JoinLines([s], [LineFeed]) == s + [LF] + JoinLines([], []);
  }

  /** Unfolding of JoinLines with line feeds for a list given as head and tail. */
  lemma JoinLinesCons(line: seq<byte>, lines: seq<seq<byte>>)
    ensures JoinLines([line] + lines, LineFeeds(|lines| + 1)) == line + [LF] + JoinLines(lines, LineFeeds(|lines|))
  {
    assert ([line] + lines)[1..] == lines;
    assert LineFeeds(|lines| + 1)[1..] == LineFeeds(|lines|);
  }
}
