/** Python's notions of whitespace, lines, stripping, splitting and joining, on characters. */
module TextLines {

  /** `str.isspace`, which is also what `\s` matches. */
  predicate IsSpace(c: char) {
    || '\t' <= c <= '\r' || '\U{1c}' <= c <= ' ' || c == '\U{85}' || c == '\U{a0}' || c == '\U{1680}'
    || '\U{2000}' <= c <= '\U{200a}' || c == '\U{2028}' || c == '\U{2029}' || c == '\U{202f}'
    || c == '\U{205f}' || c == '\U{3000}'
  }

  /** Where `str.splitlines` ends a line. */
  predicate IsBreak(c: char) {
    '\n' <= c <= '\r' || '\U{1c}' <= c <= '\U{1e}' || c == '\U{85}' || c == '\U{2028}' || c == '\U{2029}'
  }

  predicate OneLine(s: string) {
    forall i :: 0 <= i < |s| ==> !IsBreak(s[i])
  }

  ghost predicate OneLineEach(lines: seq<string>) {
    forall k :: 0 <= k < |lines| ==> OneLine(lines[k])
  }

  function FirstBreak(s: string): (n: nat)
    ensures n <= |s|
    ensures OneLine(s[..n])
    ensures n < |s| ==> IsBreak(s[n])
  {
    if s == "" || IsBreak(s[0]) then 0
    else
      var n := FirstBreak(s[1..]);
      assert s[..n + 1] == [s[0]] + s[1..][..n];
      n + 1
  }

  function SplitLines(s: string): (lines: seq<string>)
    ensures OneLineEach(lines)
    decreases |s|
  {
    if s == "" then []
    else
      var n := FirstBreak(s);
      if n == |s| then [s]
      else
        var skip := if s[n] == '\r' && n + 1 < |s| && s[n + 1] == '\n' then 2 else 1;
        [s[..n]] + SplitLines(s[n + skip..])
  }

  /** Lines, each with its end. */
  function Text(lines: seq<string>, eol: string): string {
    if lines == [] then "" else lines[0] + eol + Text(lines[1..], eol)
  }

  function Join(lines: seq<string>): string {
    if lines == [] then ""
    else if |lines| == 1 then lines[0]
    else lines[0] + "\n" + Join(lines[1..])
  }

  function StripLeft(s: string): string {
    if s != "" && IsSpace(s[0]) then StripLeft(s[1..]) else s
  }

  function StripRight(s: string): string {
    if s != "" && IsSpace(s[|s| - 1]) then StripRight(s[..|s| - 1]) else s
  }

  function Strip(s: string): string {
    StripRight(StripLeft(s))
  }

  predicate OccursAt(needle: string, s: string, i: nat) {
    i + |needle| <= |s| && s[i..i + |needle|] == needle
  }

  predicate Occurs(needle: string, s: string) {
    exists i | 0 <= i <= |s| :: OccursAt(needle, s, i)
  }

  // ------------------------------------------------------------------ lemmas

  lemma {:induction false} FirstBreakIs(line: string, rest: string)
    requires OneLine(line)
    requires rest != "" && IsBreak(rest[0])
    ensures FirstBreak(line + rest) == |line|
  {
    var s := line + rest;
    assert forall n | 0 <= n < |line| :: s[n] == line[n] && !IsBreak(s[n]);
    assert forall n | |line| < n <= |s| :: s[..n][|line|] == rest[0];
  }

  predicate IsEol(eol: string) {
    eol == "\n" || eol == "\r\n"
  }

  lemma SplitFirstLine(line: string, eol: string, rest: string)
    requires OneLine(line) && IsEol(eol)
    ensures SplitLines(line + (eol + rest)) == [line] + SplitLines(rest)
  {
    var s := line + (eol + rest);
    FirstBreakIs(line, eol + rest);
    assert s[..|line|] == line;
    assert s[|line| + |eol|..] == rest;
    assert s[|line|] == eol[0];
    if eol == "\r\n" {
      assert s[|line| + 1] == '\n';
    }
  }

  lemma {:induction false} SplitLinesOfText(lines: seq<string>, eol: string)
    requires OneLineEach(lines) && IsEol(eol)
    ensures SplitLines(Text(lines, eol)) == lines
  {
    hide SplitLines, OneLine, IsEol;
    if lines != [] {
      var rest := Text(lines[1..], eol);
      assert OneLine(lines[0]);
      assert Text(lines, eol) == lines[0] + (eol + rest);
      SplitFirstLine(lines[0], eol, rest);
      SplitLinesOfText(lines[1..], eol);
    } else {
      assert SplitLines("") == [] by { NoLines(); }
    }
  }

  lemma NoLines()
    ensures SplitLines("") == []
  {
  }

  lemma {:induction false} JoinIsText(lines: seq<string>)
    requires lines != []
    ensures Join(lines) + "\n" == Text(lines, "\n")
  {
    if |lines| > 1 {
      JoinIsText(lines[1..]);
      assert Join(lines) + "\n" == lines[0] + "\n" + (Join(lines[1..]) + "\n");
    } else {
      assert lines[1..] == [];
    }
  }

  /** A joined list has no break but newlines unless a line of it has one. */
  lemma {:induction false} JoinHolds(lines: seq<string>, k: nat, c: char)
    requires k < |lines| && c in lines[k]
    ensures c in Join(lines)
  {
    if k > 0 {
      JoinHolds(lines[1..], k - 1, c);
    }
  }

  lemma {:induction false} JoinBreaks(lines: seq<string>)
    requires OneLineEach(lines)
    ensures forall c :: c in Join(lines) && IsBreak(c) ==> c == '\n'
  {
    if |lines| > 1 {
      JoinBreaks(lines[1..]);
      forall c | c in Join(lines) && IsBreak(c) ensures c == '\n' {
        assert Join(lines) == lines[0] + "\n" + Join(lines[1..]);
      }
    }
  }

  lemma {:induction false} JoinGrows(lines: seq<string>, i: nat)
    requires i < |lines| && lines[i] != ""
    ensures |Join(lines[..i])| < |Join(lines)|
  {
    if i == 0 {
      assert lines[..i] == [];
    } else {
      JoinGrows(lines[1..], i - 1);
      assert lines[1..][..i - 1] == lines[..i][1..];
      if i == 1 {
        assert lines[..i] == [lines[0]];
      }
    }
  }

  lemma {:induction false} StripLeftCuts(s: string) returns (a: string)
    ensures s == a + StripLeft(s)
    ensures forall i :: 0 <= i < |a| ==> IsSpace(a[i])
  {
    if s != "" && IsSpace(s[0]) {
      var b := StripLeftCuts(s[1..]);
      a := [s[0]] + b;
    } else {
      a := "";
    }
  }

  lemma {:induction false} StripRightCuts(s: string) returns (b: string)
    ensures s == StripRight(s) + b
    ensures forall i :: 0 <= i < |b| ==> IsSpace(b[i])
  {
    if s != "" && IsSpace(s[|s| - 1]) {
      var c := StripRightCuts(s[..|s| - 1]);
      b := c + [s[|s| - 1]];
    } else {
      b := "";
    }
  }

  /** What starts with no space keeps its start when stripped. */
  lemma StripKeepsStart(s: string)
    requires s != "" && !IsSpace(s[0])
    ensures Strip(s) != "" && Strip(s) <= s
  {
    var b := StripRightCuts(s);
    assert Strip(s) == "" ==> s == b;
  }

  lemma StripOfTight(s: string)
    requires s == "" || (!IsSpace(s[0]) && !IsSpace(s[|s| - 1]))
    ensures Strip(s) == s
  {
  }

  lemma StripOccurs(s: string)
    ensures Occurs(Strip(s), s)
  {
    var a := StripLeftCuts(s);
    var b := StripRightCuts(StripLeft(s));
    assert s == a + Strip(s) + b;
    assert OccursAt(Strip(s), s, |a|);
  }

  lemma OccursAmong(needle: string, a: string, s: string, b: string)
    requires Occurs(needle, s)
    ensures Occurs(needle, a + s + b)
  {
    var i :| 0 <= i <= |s| && OccursAt(needle, s, i);
    assert (a + s + b)[|a| + i..|a| + i + |needle|] == s[i..i + |needle|];
    assert OccursAt(needle, a + s + b, |a| + i);
  }

  lemma {:induction false} OccursInText(needle: string, lines: seq<string>, k: nat, eol: string)
    requires k < |lines| && Occurs(needle, lines[k])
    ensures Occurs(needle, Text(lines, eol))
  {
    var rest := Text(lines[1..], eol);
    if k == 0 {
      OccursAmong(needle, "", lines[0], eol + rest);
      assert "" + lines[0] + (eol + rest) == Text(lines, eol);
    } else {
      OccursInText(needle, lines[1..], k - 1, eol);
      OccursAmong(needle, lines[0] + eol, rest, "");
      assert lines[0] + eol + rest + "" == Text(lines, eol);
    }
  }

  // ------------------------------------------------------------------ what the notions are

  /** The characters, one by one; a line never ends at a tab, a unit separator or a wide blank. */
  lemma BlanksAre(c: char)
    ensures IsSpace(c) <==>
            c in "\t\n\U{b}\U{c}\r\U{1c}\U{1d}\U{1e}\U{1f} \U{85}\U{a0}\U{1680}"
            || c in "\U{2000}\U{2001}\U{2002}\U{2003}\U{2004}\U{2005}\U{2006}\U{2007}\U{2008}\U{2009}\U{200a}"
            || c in "\U{2028}\U{2029}\U{202f}\U{205f}\U{3000}"
    ensures IsBreak(c) <==> c in "\n\U{b}\U{c}\r\U{1c}\U{1d}\U{1e}\U{85}\U{2028}\U{2029}"
  {
  }

  /** Stripping takes blanks off both ends until none is left there. */
  lemma StripIs(s: string) returns (a: string, b: string)
    ensures s == a + Strip(s) + b
    ensures forall c :: c in a || c in b ==> IsSpace(c)
    ensures Strip(s) != "" ==> !IsSpace(Strip(s)[0]) && !IsSpace(Strip(s)[|Strip(s)| - 1])
  {
    a := StripLeftCuts(s);
    b := StripRightCuts(StripLeft(s));
    StripLeftEnds(s);
    StripRightEnds(StripLeft(s));
    assert Strip(s) != "" ==> Strip(s)[0] == StripLeft(s)[0];
  }

  lemma {:induction false} StripLeftEnds(s: string)
    ensures StripLeft(s) != "" ==> !IsSpace(StripLeft(s)[0])
  {
    if s != "" && IsSpace(s[0]) {
      StripLeftEnds(s[1..]);
    }
  }

  lemma {:induction false} StripRightEnds(s: string)
    ensures StripRight(s) != "" ==> !IsSpace(StripRight(s)[|StripRight(s)| - 1])
  {
    if s != "" && IsSpace(s[|s| - 1]) {
      StripRightEnds(s[..|s| - 1]);
    }
  }

  lemma OccursIff(needle: string, s: string)
    ensures Occurs(needle, s) <==> exists a, b: string :: s == a + needle + b
  {
    if Occurs(needle, s) {
      var i :| 0 <= i <= |s| && OccursAt(needle, s, i);
      assert s == s[..i] + needle + s[i + |needle|..];
    }
    if a, b :| s == a + needle + b {
      assert OccursAt(needle, s, |a|);
    }
  }
}
