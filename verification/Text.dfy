/** The string operations of Python that the peer config editor is written with. */
module Text {

  /** The boundaries at which str.splitlines breaks a line. */
  predicate IsBreak(c: char) {
    c in {'\n', '\r', '\U{0B}', '\U{0C}', '\U{1C}', '\U{1D}', '\U{1E}', '\U{85}', '\U{2028}', '\U{2029}'}
  }

  /** The characters that str.strip and str.rstrip remove. */
  predicate IsSpace(c: char) {
    IsBreak(c) || c in {'\t', ' ', '\U{1F}', '\U{A0}', '\U{1680}', '\U{202F}', '\U{205F}', '\U{3000}'}
    || '\U{2000}' <= c <= '\U{200A}'
  }

  predicate BreakFree(s: string) {
    forall i :: 0 <= i < |s| ==> !IsBreak(s[i])
  }

  function RStrip(s: string): (r: string)
    ensures r <= s
    ensures r != "" ==> !IsSpace(r[|r| - 1])
  {
    if s != "" && IsSpace(s[|s| - 1]) then RStrip(s[..|s| - 1]) else s
  }

  function LStrip(s: string): (r: string)
    ensures |r| <= |s| && r == s[|s| - |r|..]
    ensures r != "" ==> !IsSpace(r[0])
  {
    if s != "" && IsSpace(s[0]) then LStrip(s[1..]) else s
  }

  function Strip(s: string): string {
    RStrip(LStrip(s))
  }

  /** No white space at either end. */
  predicate Unpadded(s: string) {
    s == "" || (!IsSpace(s[0]) && !IsSpace(s[|s| - 1]))
  }

  lemma StripOfUnpadded(s: string)
    requires Unpadded(s)
    ensures Strip(s) == s && LStrip(s) == s && RStrip(s) == s
  {
    hide IsSpace;
  }

  /** str.lower as far as a comparison with an ASCII literal can see it:
      besides A-Z only the Kelvin sign has an ASCII lower case. */
  function LowerChar(c: char): char {
    if 'A' <= c <= 'Z' then 'a' + (c - 'A') else if c == '\U{212A}' then 'k' else c
  }

  function Lower(s: string): (r: string)
    ensures |r| == |s|
  {
    seq(|s|, i requires 0 <= i < |s| => LowerChar(s[i]))
  }

  /** str.split(sep, 1): the part before the first separator, and the part after it. */
  function Before(s: string, sep: char): (r: string)
    ensures r <= s && sep !in r
    ensures |r| < |s| ==> s[|r|] == sep
    ensures sep !in s ==> r == s
  {
    if s == "" || s[0] == sep then "" else [s[0]] + Before(s[1..], sep)
  }

  function After(s: string, sep: char): string {
    var n := |Before(s, sep)|;
    if n < |s| then s[n + 1..] else ""
  }

  function LineEnd(s: string): (n: nat)
    ensures n <= |s| && BreakFree(s[..n])
    ensures n < |s| ==> IsBreak(s[n])
  {
    if s == "" || IsBreak(s[0]) then 0 else LineEnd(s[1..]) + 1
  }

  /** A carriage return followed by a line feed is one boundary. */
  function BreakWidth(s: string, n: nat): (w: nat)
    requires n < |s|
    ensures 1 <= w && n + w <= |s|
  {
    if s[n] == '\r' && n + 1 < |s| && s[n + 1] == '\n' then 2 else 1
  }

  /** str.splitlines() */
  function SplitLines(s: string): (ls: seq<string>)
    ensures forall l :: l in ls ==> BreakFree(l)
    decreases |s|
  {
    if s == "" then []
    else
      var n := LineEnd(s);
      if n == |s| then [s] else [s[..n]] + SplitLines(s[n + BreakWidth(s, n)..])
  }

  /** "\n".join(ls) */
  function JoinLines(ls: seq<string>): string {
    if |ls| == 0 then "" else if |ls| == 1 then ls[0] else ls[0] + "\n" + JoinLines(ls[1..])
  }

  lemma {:induction false} BeforeIs(a: string, sep: char, b: string)
    requires sep !in a
    ensures Before(a + [sep] + b, sep) == a && After(a + [sep] + b, sep) == b
  {
    var s := a + [sep] + b;
    if a != "" {
      assert s[1..] == a[1..] + [sep] + b;
      BeforeIs(a[1..], sep, b);
    }
    assert s[|a| + 1..] == b;
  }

  // ----- Laws of splitting and joining -----

  lemma {:induction false} LineEndAt(s: string, n: nat)
    requires n < |s| && BreakFree(s[..n]) && IsBreak(s[n])
    ensures LineEnd(s) == n
  {
    if n > 0 {
      assert s[0] == s[..n][0];
      assert s[1..][..n - 1] == s[..n][1..];
      LineEndAt(s[1..], n - 1);
    }
  }

  lemma {:induction false} JoinAppend(a: seq<string>, b: seq<string>)
    requires a != [] && b != []
    ensures JoinLines(a + b) == JoinLines(a) + "\n" + JoinLines(b)
  {
    if |a| == 1 {
      assert (a + b)[1..] == b;
    } else {
      assert (a + b)[1..] == a[1..] + b;
      JoinAppend(a[1..], b);
      assert JoinLines(a + b) == a[0] + "\n" + (JoinLines(a[1..]) + "\n" + JoinLines(b));
    }
  }

  lemma SplitFirst(line: string, rest: string)
    requires BreakFree(line)
    ensures SplitLines(line + "\n" + rest) == [line] + SplitLines(rest)
  {
    EveryBreakSplits(line, "\n", rest);
  }

  /** Splitting undoes joining with a final newline, whatever the lines are. */
  lemma {:induction false} SplitOfJoined(ls: seq<string>)
    requires ls != [] && forall l :: l in ls ==> BreakFree(l)
    ensures SplitLines(JoinLines(ls) + "\n") == ls
  {
    hide SplitLines, BreakFree;
    assert ls[0] in ls;
    if |ls| == 1 {
      assert ls[0] + "\n" + "" == ls[0] + "\n";
      SplitFirst(ls[0], "");
      SplitNothing();
    } else {
      SplitFirst(ls[0], JoinLines(ls[1..]) + "\n");
      assert JoinLines(ls) + "\n" == ls[0] + "\n" + (JoinLines(ls[1..]) + "\n");
      assert forall l :: l in ls[1..] ==> l in ls;
      SplitOfJoined(ls[1..]);
    }
  }

  lemma SplitNothing()
    ensures SplitLines("") == []
  {
  }

  /** Concatenation of line lists. */
  function Flatten(bs: seq<seq<string>>): seq<string> {
    if bs == [] then [] else bs[0] + Flatten(bs[1..])
  }

  function Joined(bs: seq<seq<string>>): (r: seq<string>)
    ensures |r| == |bs|
  {
    if bs == [] then [] else [JoinLines(bs[0])] + Joined(bs[1..])
  }

  lemma {:induction false} JoinOfJoined(bs: seq<seq<string>>)
    requires forall b :: b in bs ==> b != []
    ensures bs != [] ==> Flatten(bs) != []
    ensures JoinLines(Joined(bs)) == JoinLines(Flatten(bs))
  {
    if |bs| > 0 {
      assert bs[0] in bs;
      assert forall b :: b in bs[1..] ==> b in bs;
      JoinOfJoined(bs[1..]);
      if |bs| == 1 {
        assert Flatten(bs) == bs[0];
      } else {
        JoinAppend(bs[0], Flatten(bs[1..]));
        assert Joined(bs)[1..] == Joined(bs[1..]);
      }
    }
  }

  // ----- Laws of stripping -----

  lemma {:induction false} RStripIs(s: string, r: string)
    requires r <= s && (r != "" ==> !IsSpace(r[|r| - 1]))
    requires forall i :: |r| <= i < |s| ==> IsSpace(s[i])
    ensures RStrip(s) == r
  {
    if |r| < |s| {
      RStripIs(s[..|s| - 1], r);
    }
  }

  lemma {:induction false} StripDropLast(s: string)
    requires s != "" && IsSpace(s[|s| - 1])
    ensures Strip(s[..|s| - 1]) == Strip(s)
  {
    var t := s[..|s| - 1];
    if !IsSpace(s[0]) {
      assert LStrip(s) == s && LStrip(t) == t;
    } else if t != "" {
      assert t[1..] == s[1..][..|s[1..]| - 1];
      StripDropLast(s[1..]);
      assert LStrip(s) == LStrip(s[1..]) && LStrip(t) == LStrip(t[1..]);
    } else {
      assert LStrip(s) == s[1..] == "";
    }
  }

  /** Stripping the right end first makes no difference to a full strip. */
  lemma {:induction false} StripOfRStrip(s: string)
    ensures Strip(RStrip(s)) == Strip(s)
  {
    if s != "" && IsSpace(s[|s| - 1]) {
      StripDropLast(s);
      StripOfRStrip(s[..|s| - 1]);
    }
  }

  lemma {:induction false} StripEmpty(s: string)
    ensures Strip(s) == "" <==> RStrip(s) == ""
  {
    hide IsSpace;
    if s != "" {
      if IsSpace(s[|s| - 1]) {
        StripDropLast(s);
        StripEmpty(s[..|s| - 1]);
      } else {
        LStripKeepsLast(s);
      }
    }
  }

  lemma {:induction false} LStripKeepsLast(s: string)
    requires s != "" && !IsSpace(s[|s| - 1])
    ensures LStrip(s) != "" && LStrip(s)[|LStrip(s)| - 1] == s[|s| - 1]
  {
    if IsSpace(s[0]) {
      LStripKeepsLast(s[1..]);
    }
  }

  lemma {:induction false} RStripAppend(x: string, y: string)
    ensures RStrip(x + y) == if RStrip(y) == "" then RStrip(x) else x + RStrip(y)
  {
    if y != "" && IsSpace(y[|y| - 1]) {
      assert (x + y)[..|x + y| - 1] == x + y[..|y| - 1];
      RStripAppend(x, y[..|y| - 1]);
    } else if y == "" {
      assert x + y == x;
    }
  }

  /** Each boundary breaks the line once, a carriage return with a line feed too. */
  lemma {:induction false} EveryBreakSplits(line: string, mark: string, rest: string)
    requires BreakFree(line)
    requires mark == "\r\n" || (|mark| == 1 && IsBreak(mark[0]) && (mark[0] == '\r' ==> rest == "" || rest[0] != '\n'))
    ensures SplitLines(line + mark + rest) == [line] + SplitLines(rest)
  {
    hide BreakFree, IsBreak;
    var s := line + mark + rest;
    var n := |line|;
    assert s[..n] == line && s[n] == mark[0];
    CarriageReturnBreaks();
    LineEndAt(s, n);
    assert BreakWidth(s, n) == |mark|;
    assert s[n + |mark|..] == rest;
  }

  lemma CarriageReturnBreaks()
    ensures IsBreak('\r')
  {
  }
}
