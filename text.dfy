/** The Python string operations the bounding-box frame is built from. */
module Text {

  /** The length of `s * n`, per unit of `s`: Python treats a negative count as zero. */
  function Count(n: int): nat {
    if n <= 0 then 0 else n
  }

  /** `c * n` for a one-character string `c`: empty when n <= 0. */
  function Repeat(c: char, n: int): (s: string)
    ensures |s| == Count(n)
    ensures forall i :: 0 <= i < |s| ==> s[i] == c
  {
    if n <= 0 then "" else [c] + Repeat(c, n - 1)
  }

  /** `'\n'.join(lines)`. */
  function JoinLines(lines: seq<string>): (s: string)
    ensures |lines| >= 1 ==> lines[0] <= s
    ensures |lines| >= 2 ==> |lines[0]| < |s| && s[|lines[0]|] == '\n'
  {
    if |lines| == 0 then ""
    else if |lines| == 1 then lines[0]
    else lines[0] + "\n" + JoinLines(lines[1..])
  }

  /** `s.split('\n')`: the pieces between line breaks, always at least one. */
  function SplitLines(s: string): (lines: seq<string>)
    ensures |lines| >= 1
    ensures forall i :: 0 <= i < |lines| ==> '\n' !in lines[i]
  {
    if s == [] then [""]
    else
      var rest := SplitLines(s[1..]);
      if s[0] == '\n' then [""] + rest
      else [[s[0]] + rest[0]] + rest[1..]
  }

  /** A line without a break splits to itself. */
  lemma {:induction false} SplitSingle(line: string)
    requires '\n' !in line
    ensures SplitLines(line) == [line]
  {
    if line != [] {
      assert '\n' !in line[1..];
      SplitSingle(line[1..]);
      assert [line[0]] + line[1..] == line;
    }
  }

  /** Splitting after a break-free prefix and one break yields the prefix first. */
  lemma {:induction false} SplitAfterBreak(line: string, rest: string)
    requires '\n' !in line
    ensures SplitLines(line + "\n" + rest) == [line] + SplitLines(rest)
  {
    if line == [] {
      assert line + "\n" + rest == "\n" + rest;
      assert ("\n" + rest)[1..] == rest;
    } else {
      var s := line + "\n" + rest;
      assert s[0] == line[0];
      assert s[1..] == line[1..] + "\n" + rest;
      assert '\n' !in line[1..];
      SplitAfterBreak(line[1..], rest);
      assert [line[0]] + line[1..] == line;
    }
  }

  /** Joining break-free lines and splitting the result gives the lines back. */
  lemma {:induction false} SplitJoin(lines: seq<string>)
    requires |lines| >= 1
    requires forall i :: 0 <= i < |lines| ==> '\n' !in lines[i]
    ensures SplitLines(JoinLines(lines)) == lines
  {
    if |lines| == 1 {
      SplitSingle(lines[0]);
    } else {
      assert '\n' !in lines[0];
      SplitAfterBreak(lines[0], JoinLines(lines[1..]));
      SplitJoin(lines[1..]);
      assert [lines[0]] + lines[1..] == lines;
    }
  }
}
