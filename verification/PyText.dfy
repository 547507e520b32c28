/** The Python string operations that the setup helper and the migration runner rely on. */
module PyText {

  /** Characters that `str.strip` removes and that `\s` matches. */
  predicate IsSpace(c: char) {
    var n := c as int;
    || 0x09 <= n <= 0x0d || 0x1c <= n <= 0x20 || n == 0x85 || n == 0xa0 || n == 0x1680
    || 0x2000 <= n <= 0x200a || n == 0x2028 || n == 0x2029 || n == 0x202f || n == 0x205f || n == 0x3000
  }

  /** Characters at which `str.splitlines` breaks a line. */
  predicate IsLineBreak(c: char) {
    var n := c as int;
    0x0a <= n <= 0x0d || 0x1c <= n <= 0x1e || n == 0x85 || n == 0x2028 || n == 0x2029
  }

  predicate OneLine(s: string) {
    forall i :: 0 <= i < |s| ==> !IsLineBreak(s[i])
  }

  function LStrip(s: string): string {
    if s != [] && IsSpace(s[0]) then LStrip(s[1..]) else s
  }

  function RStrip(s: string): string {
    if s != [] && IsSpace(s[|s| - 1]) then RStrip(s[..|s| - 1]) else s
  }

  function Strip(s: string): string {
    RStrip(LStrip(s))
  }

  /** `sep.join(parts)`. */
  function Join(parts: seq<string>, sep: string): string {
    if parts == [] then "" else if |parts| == 1 then parts[0] else parts[0] + sep + Join(parts[1..], sep)
  }

  /** `s.split(sep)`. */
  function Split(s: string, sep: string): (parts: seq<string>)
    requires sep != ""
    ensures parts != [] && Join(parts, sep) == s
    decreases |s|, 2 + |s|
  {
    SplitFrom(s, sep, 0)
  }

  function SplitFrom(s: string, sep: string, i: nat): (parts: seq<string>)
    requires sep != "" && i <= |s|
    ensures parts != [] && Join(parts, sep) == s
    decreases |s|, 1 + |s| - i
  {
    if i + |sep| > |s| then [s]
    else if s[i..i + |sep|] == sep then
      var rest := Split(s[i + |sep|..], sep);
      assert s == s[..i] + sep + s[i + |sep|..];
      assert ([s[..i]] + rest)[1..] == rest;
      [s[..i]] + rest
    else SplitFrom(s, sep, i + 1)
  }

  /** `sep` starts at position `i`. */
  predicate OccursAt(s: string, sep: string, i: nat) {
    i + |sep| <= |s| && s[i..i + |sep|] == sep
  }

  lemma {:induction false} SplitSkips(s: string, sep: string, i: nat, j: nat)
    requires sep != "" && i <= j <= |s| && forall k: nat | i <= k < j :: !OccursAt(s, sep, k)
    ensures SplitFrom(s, sep, i) == SplitFrom(s, sep, j)
    decreases j - i
  {
    if i < j {
      assert !OccursAt(s, sep, i);
      SplitSkips(s, sep, i + 1, j);
    }
  }

  /** A text without the separator is not cut. */
  lemma SplitWhole(s: string, sep: string)
    requires sep != "" && forall i: nat :: !OccursAt(s, sep, i)
    ensures Split(s, sep) == [s]
  {
    SplitSkips(s, sep, 0, |s|);
  }

  /** The first cut is at the leftmost separator, and the text after it is split likewise. */
  lemma SplitFirst(a: string, sep: string, b: string)
    requires sep != "" && forall i: nat | i < |a| :: !OccursAt(a + sep + b, sep, i)
    ensures Split(a + sep + b, sep) == [a] + Split(b, sep)
  {
    var s := a + sep + b;
    assert s[..|a|] == a && s[|a|..|a| + |sep|] == sep && s[|a| + |sep|..] == b;
    SplitSkips(s, sep, 0, |a|);
  }

  /** No part holds the separator. */
  lemma {:induction false} PartsFree(s: string, sep: string, p: nat, i: nat)
    requires sep != "" && p < |Split(s, sep)|
    ensures !OccursAt(Split(s, sep)[p], sep, i)
    decreases |s|
  {
    if k: nat :| OccursAt(s, sep, k) {
      var c := Leftmost(s, sep, k);
      var a, b := s[..c], s[c + |sep|..];
      assert s == a + sep + b;
      SplitFirst(a, sep, b);
      if p == 0 {
        if OccursAt(a, sep, i) { assert s[i..i + |sep|] == a[i..i + |sep|]; assert OccursAt(s, sep, i); }
      } else {
        PartsFree(b, sep, p - 1, i);
      }
    } else {
      SplitWhole(s, sep);
    }
  }

  lemma {:induction false} Leftmost(s: string, sep: string, k: nat) returns (c: nat)
    requires OccursAt(s, sep, k)
    ensures c <= k && OccursAt(s, sep, c) && forall i: nat | i < c :: !OccursAt(s, sep, i)
  {
    if i: nat :| i < k && OccursAt(s, sep, i) { c := Leftmost(s, sep, i); } else { c := k; }
  }

  /** Length of the first line. */
  function LineLength(s: string): (n: nat)
    ensures n <= |s| && OneLine(s[..n]) && (n < |s| ==> IsLineBreak(s[n]))
  {
    if s == [] || IsLineBreak(s[0]) then 0
    else
      var n := LineLength(s[1..]);
      assert s[..n + 1] == [s[0]] + s[1..][..n];
      1 + n
  }

  /** "\r\n" ends a line once. */
  function BreakWidth(s: string, n: nat): nat
    requires n < |s|
  {
    if n + 1 < |s| && s[n] == '\r' && s[n + 1] == '\n' then 2 else 1
  }

  /** `s.splitlines()`: a final line break opens no further line. */
  function SplitLines(s: string): (lines: seq<string>)
    ensures forall i :: 0 <= i < |lines| ==> OneLine(lines[i])
    decreases |s|
  {
    if s == [] then [] else
      var n := LineLength(s);
      if n == |s| then [s] else [s[..n]] + SplitLines(s[n + BreakWidth(s, n)..])
  }

  lemma {:induction false} LineLengthIs(line: string, rest: string)
    requires OneLine(line) && (rest == [] || IsLineBreak(rest[0]))
    ensures LineLength(line + rest) == |line|
  {
    if line == [] {
      assert line + rest == rest;
    } else {
      assert (line + rest)[1..] == line[1..] + rest;
      LineLengthIs(line[1..], rest);
    }
  }

  lemma FirstLine(line: string, rest: string)
    requires OneLine(line)
    ensures SplitLines(line + "\n" + rest) == [line] + SplitLines(rest)
  {
    var s := line + "\n" + rest;
    assert s == line + ("\n" + rest);
    LineLengthIs(line, "\n" + rest);
    assert s[..|line|] == line && s[|line| + 1..] == rest;
  }

  /** Every line break ends a line: a single one, or a carriage return together with the line feed after it. */
  lemma AnyLine(line: string, brk: string, rest: string)
    requires OneLine(line)
    requires brk == "\r\n" || (|brk| == 1 && IsLineBreak(brk[0]) && !(brk == "\r" && rest != "" && rest[0] == '\n'))
    ensures SplitLines(line + brk + rest) == [line] + SplitLines(rest)
  {
    var s := line + brk + rest;
    assert s == line + (brk + rest);
    LineLengthIs(line, brk + rest);
    assert s[..|line|] == line && s[|line| + |brk|..] == rest && s[|line|] == brk[0];
    assert BreakWidth(s, |line|) == |brk|;
  }

  /** A last line without a break. */
  lemma LastLine(line: string)
    requires OneLine(line) && line != ""
    ensures SplitLines(line) == [line] && SplitLines("") == []
  {
    LineLengthIs(line, "");
    assert line + "" == line;
  }

  /** Printing lines and splitting them again gives them back. */
  lemma {:induction false} SplitJoined(lines: seq<string>)
    requires lines != [] && forall i :: 0 <= i < |lines| ==> OneLine(lines[i])
    ensures SplitLines(Join(lines, "\n") + "\n") == lines
  {
    if |lines| == 1 {
      FirstLine(lines[0], "");
      assert lines[0] + "\n" + "" == lines[0] + "\n";
    } else {
      SplitJoined(lines[1..]);
      var rest := Join(lines[1..], "\n") + "\n";
      assert lines[0] + "\n" + rest == Join(lines, "\n") + "\n";
      hide SplitLines, OneLine, Join;
      FirstLine(lines[0], rest);
    }
  }

  // ---------------------------------------------------------------------------------------
  // Stripping
  // ---------------------------------------------------------------------------------------

  predicate Blank(s: string) {
    forall i :: 0 <= i < |s| ==> IsSpace(s[i])
  }

  /** Starts and ends with something that is not white space. */
  predicate Tight(s: string) {
    s != "" && !IsSpace(s[0]) && !IsSpace(s[|s| - 1])
  }

  lemma {:induction false} LStripIs(s: string, x: string)
    requires Blank(s) && (x == "" || !IsSpace(x[0]))
    ensures LStrip(s + x) == x
  {
    if s == "" {
      assert s + x == x;
    } else {
      assert (s + x)[1..] == s[1..] + x;
      LStripIs(s[1..], x);
    }
  }

  lemma {:induction false} LStripSplits(s: string) returns (lead: string)
    ensures s == lead + LStrip(s) && Blank(lead)
    ensures LStrip(s) == "" || !IsSpace(LStrip(s)[0])
  {
    lead := "";
    if s != "" && IsSpace(s[0]) {
      lead := LStripSplits(s[1..]);
      lead := [s[0]] + lead;
    }
  }

  lemma {:induction false} RStripIs(x: string, s: string)
    requires Blank(s) && (x == "" || !IsSpace(x[|x| - 1]))
    ensures RStrip(x + s) == x
  {
    if s == "" {
      assert x + s == x;
    } else {
      assert (x + s)[..|x + s| - 1] == x + s[..|s| - 1];
      RStripIs(x, s[..|s| - 1]);
    }
  }

  lemma {:induction false} RStripSplits(s: string) returns (trail: string)
    ensures s == RStrip(s) + trail && Blank(trail)
    ensures RStrip(s) == "" || !IsSpace(RStrip(s)[|RStrip(s)| - 1])
  {
    trail := "";
    if s != "" && IsSpace(s[|s| - 1]) {
      trail := RStripSplits(s[..|s| - 1]);
      trail := trail + [s[|s| - 1]];
    }
  }

  /** Stripping removes the surrounding white space and nothing else. */
  lemma StripIs(lead: string, x: string, trail: string)
    requires Blank(lead) && Blank(trail) && Tight(x)
    ensures Strip(lead + x + trail) == x
  {
    assert lead + x + trail == lead + (x + trail);
    LStripIs(lead, x + trail);
    RStripIs(x, trail);
  }

  lemma StripSplits(s: string) returns (lead: string, trail: string)
    ensures s == lead + Strip(s) + trail && Blank(lead) && Blank(trail)
    ensures Strip(s) == "" || Tight(Strip(s))
  {
    lead := LStripSplits(s);
    trail := RStripSplits(LStrip(s));
    assert s == lead + (Strip(s) + trail);
  }

  lemma StripOneLine(s: string)
    requires OneLine(s)
    ensures OneLine(Strip(s))
  {
    var lead, trail := StripSplits(s);
    assert forall i :: 0 <= i < |Strip(s)| ==> Strip(s)[i] == s[|lead| + i];
  }
}
