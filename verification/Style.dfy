/**
 * The style checker's two line-based fixes, trailing whitespace and tabs, with the clang-format
 * guards that switch the second one on and off.
 */
module Style {

  const GUARD_ON := "// clang-format on"
  const GUARD_OFF := "// clang-format off"
  const TAB_SIZE := 4

  // ---- Characters and lines ----

  // The characters that Python's `str.strip` removes.
  predicate IsSpace(c: char) {
    var n := c as int;
    9 <= n <= 13 || 28 <= n <= 32 || n == 133 || n == 160 || n == 5760 || 8192 <= n <= 8202 ||
    n == 8232 || n == 8233 || n == 8239 || n == 8287 || n == 12288
  }

  function RStrip(s: string): string {
    if s == [] then [] else
      var r := RStrip(s[1..]);
      if r == [] && IsSpace(s[0]) then [] else [s[0]] + r
  }

  function LStrip(s: string): string {
    if s == [] || !IsSpace(s[0]) then s else LStrip(s[1..])
  }

  function Strip(s: string): string { LStrip(RStrip(s)) }

  function Trimmed(line: string): string { RStrip(line) + "\n" }

  function Spaces(n: nat): string { if n == 0 then [] else [' '] + Spaces(n - 1) }

  function NextColumn(c: char, col: nat): nat {
    if c == '\t' then col + TAB_SIZE - col % TAB_SIZE else if c == '\n' || c == '\r' then 0 else col + 1
  }

  // Tab expansion of the rest of a line that starts at column `col`.
  function Expand(s: string, col: nat): string {
    if s == [] then [] else
      (if s[0] == '\t' then Spaces(TAB_SIZE - col % TAB_SIZE) else [s[0]]) + Expand(s[1..], NextColumn(s[0], col))
  }

  // ---- Reading and writing a file ----

  // Text-mode reading turns "\r\n" and a lone "\r" into "\n".
  function Universal(s: string): (r: string)
    ensures '\r' !in r
    ensures '\r' !in s ==> r == s
  {
    if s == [] then [] else
      if s[0] == '\r' then
        "\n" + Universal(if |s| > 1 && s[1] == '\n' then s[2..] else s[1..])
      else
        [s[0]] + Universal(s[1..])
  }

  // Each of the three ways to end a line is read as a newline.
  lemma {:induction false} UniversalEnds(line: string, end: string, rest: string)
    requires '\r' !in line && (end == "\n" || end == "\r\n" || (end == "\r" && (rest == "" || rest[0] != '\n')))
    ensures Universal(line + end + rest) == line + "\n" + Universal(rest)
  {
    hide *;
    if line == [] {
      UniversalEnd(end, rest);
      assert line + end + rest == end + rest && line + "\n" + Universal(rest) == "\n" + Universal(rest);
    } else {
      var c, more := line[0], line[1..];
      UniversalEnds(more, end, rest);
      ConsThree(c, more, end, rest);
      ConsThree(c, more, "\n", Universal(rest));
      UniversalCons(c, more + end + rest);
      assert line == [c] + more;
    }
  }

  lemma ConsThree(c: char, s: string, t: string, u: string)
    ensures ([c] + s) + t + u == [c] + (s + t + u)
  {
  }

  lemma UniversalCons(c: char, s: string)
    requires c != '\r'
    ensures Universal([c] + s) == [c] + Universal(s)
  {
    assert ([c] + s)[1..] == s;
  }

  lemma UniversalEnd(end: string, rest: string)
    requires end == "\n" || end == "\r\n" || (end == "\r" && (rest == "" || rest[0] != '\n'))
    ensures Universal(end + rest) == "\n" + Universal(rest)
  {
    var s := end + rest;
    if end == "\r\n" { assert s[2..] == rest; } else { assert s[1..] == rest; }
  }

  // A line holds no newline except possibly as its last character.
  predicate IsLine(line: string) {
    line != [] && '\r' !in line && forall i :: 0 <= i < |line| - 1 ==> line[i] != '\n'
  }

  predicate Ended(line: string) { line != [] && line[|line| - 1] == '\n' }

  // Only the last line of a file may lack its newline.
  predicate IsText(lines: seq<string>) {
    && (forall i :: 0 <= i < |lines| ==> IsLine(lines[i]))
    && (forall i :: 0 <= i < |lines| - 1 ==> Ended(lines[i]))
  }

  function Join(lines: seq<string>): string {
    if lines == [] then [] else lines[0] + Join(lines[1..])
  }

  function SplitLines(s: string): (r: seq<string>)
    requires '\r' !in s
    ensures IsText(r) && Join(r) == s
  {
    if s == [] then [] else
      var rest := SplitLines(s[1..]);
      assert s == [s[0]] + s[1..];
      if s[0] == '\n' || rest == [] then
        assert ([[s[0]]] + rest)[1..] == rest;
        [[s[0]]] + rest
      else
        var r := [[s[0]] + rest[0]] + rest[1..];
        assert r[1..] == rest[1..];
        r
  }

  function Read(text: string): (r: seq<string>)
    ensures IsText(r)
  {
    SplitLines(Universal(text))
  }

  lemma SplitStep(c: char, s: string)
    requires c != '\r' && '\r' !in s
    ensures c == '\n' || s == [] ==> SplitLines([c] + s) == [[c]] + SplitLines(s)
    ensures c != '\n' && s != [] ==>
              SplitLines(s) != [] && SplitLines([c] + s) == [[c] + SplitLines(s)[0]] + SplitLines(s)[1..]
  {
    assert ([c] + s)[1..] == s;
  }

  lemma JoinCons(head: string, tail: seq<string>)
    ensures Join([head] + tail) == head + Join(tail)
  {
    assert ([head] + tail)[1..] == tail;
  }

  lemma JoinStep(head: string, tail: seq<string>)
    requires head != []
    ensures Join([head] + tail) == [head[0]] + Join([head[1..]] + tail)
    ensures |head| == 1 ==> Join([head] + tail) == [head[0]] + Join(tail)
  {
    JoinCons(head, tail);
    JoinCons(head[1..], tail);
    hide Join;
    assert head == [head[0]] + head[1..];
    assert ([head[0]] + head[1..]) + Join(tail) == [head[0]] + (head[1..] + Join(tail));
  }

  // The first character of a file's lines, and the lines that are left without it.
  lemma TextStep(lines: seq<string>)
    requires IsText(lines) && lines != []
    ensures lines[0] != [] && lines[0][0] != '\r'
    ensures |lines[0]| == 1 ==> IsText(lines[1..]) && (lines[0][0] == '\n' || lines[1..] == [])
    ensures |lines[0]| > 1 ==> IsText([lines[0][1..]] + lines[1..]) && lines[0][0] != '\n'
  {
    if |lines[0]| > 1 { ShorterIsText(lines); }
  }

  // Splitting undoes joining.
  lemma {:induction false} SplitJoin(lines: seq<string>)
    requires IsText(lines)
    ensures '\r' !in Join(lines) && SplitLines(Join(lines)) == lines
    decreases |lines|, if lines == [] then 0 else |lines[0]|
  {
    if lines != [] {
      var head, tail := lines[0], lines[1..];
      TextStep(lines);
      JoinStep(head, tail);
      assert lines == [head] + tail;
      hide IsText, SplitLines, Join;
      if |head| == 1 {
        SplitJoin(tail);
        SplitStep(head[0], Join(tail));
        JoinNone(tail);
        assert head == [head[0]];
      } else {
        var shorter := [head[1..]] + tail;
        SplitJoin(shorter);
        SplitStep(head[0], Join(shorter));
        JoinNone(shorter);
        assert shorter[0] == head[1..] && shorter[1..] == tail && [head[0]] + head[1..] == head;
      }
    }
  }

  lemma JoinNone(lines: seq<string>)
    ensures lines == [] ==> Join(lines) == []
    ensures lines != [] && lines[0] != [] ==> Join(lines) != []
  {
  }

  lemma ShorterIsText(lines: seq<string>)
    requires IsText(lines) && lines != [] && |lines[0]| > 1
    ensures IsText([lines[0][1..]] + lines[1..])
  {
    var head, shorter := lines[0], [lines[0][1..]] + lines[1..];
    assert forall i :: 0 <= i < |head| - 1 ==> head[1..][i] == head[i + 1];
    assert forall i :: 0 < i < |shorter| ==> shorter[i] == lines[i];
  }

  // ---- The guards ----

  predicate IsGuard(s: string) { s == GUARD_ON || s == GUARD_OFF }

  // Whether clang-format is enabled after a line, given whether it was before.
  predicate Switch(on: bool, line: string) {
    var s := Strip(line);
    s == GUARD_ON || (on && s != GUARD_OFF)
  }

  // Whether clang-format is enabled after the first `n` lines.
  predicate Enabled(lines: seq<string>, n: nat)
    requires n <= |lines|
  {
    n == 0 || Switch(Enabled(lines, n - 1), lines[n - 1])
  }

  // A guard line is subject to the tab check whichever way it switches.
  predicate Subject(lines: seq<string>, i: nat)
    requires i < |lines|
  {
    Enabled(lines, i + 1) || IsGuard(Strip(lines[i]))
  }

  ghost predicate SaysAt(lines: seq<string>, i: nat, guard: string) {
    i < |lines| && Strip(lines[i]) == guard
  }

  // The line i switches off, and no line after it, up to n, on again.
  ghost predicate OffSince(lines: seq<string>, n: nat, i: nat) {
    && i < n && SaysAt(lines, i, "// clang-format off")
    && forall j: nat :: i < j < n ==> !SaysAt(lines, j, "// clang-format on")
  }

  // Enabled unless a line switched off and no later one on.
  lemma {:induction false} EnabledIs(lines: seq<string>, n: nat)
    requires n <= |lines|
    ensures Enabled(lines, n) <==> !exists i: nat :: OffSince(lines, n, i)
  {
    if n == 0 {
      assert Enabled(lines, 0);
    } else {
      hide Strip, Enabled, SaysAt;
      EnabledIs(lines, n - 1);
      SwitchIs(lines, n - 1);
      OffNext(lines, n - 1, n);
    }
  }

  lemma OffNext(lines: seq<string>, m: nat, n: nat)
    requires n == m + 1
    requires SaysAt(lines, m, "// clang-format on") ==> !SaysAt(lines, m, "// clang-format off")
    ensures (exists i: nat :: OffSince(lines, n, i)) <==>
            SaysAt(lines, m, "// clang-format off")
            || ((exists i: nat :: OffSince(lines, m, i)) && !SaysAt(lines, m, "// clang-format on"))
  {
    hide OffSince, SaysAt;
    OffSinceNext(lines, m, m);
    if i: nat :| OffSince(lines, m, i) {
      OffSinceNext(lines, m, i);
      OffSinceBefore(lines, m, i);
    }
    if i: nat :| OffSince(lines, n, i) {
      OffSinceNext(lines, m, i);
    }
  }

  lemma OffSinceBefore(lines: seq<string>, m: nat, i: nat)
    requires OffSince(lines, m, i)
    ensures i < m
  {
  }

  lemma OffSinceNext(lines: seq<string>, m: nat, i: nat)
    ensures OffSince(lines, m + 1, i) <==>
            if i == m then SaysAt(lines, m, "// clang-format off")
            else OffSince(lines, m, i) && !SaysAt(lines, m, "// clang-format on")
  {
    hide SaysAt;
  }

  lemma SwitchIs(lines: seq<string>, m: nat)
    requires m < |lines|
    ensures SaysAt(lines, m, "// clang-format on") ==> !SaysAt(lines, m, "// clang-format off")
    ensures Enabled(lines, 0)
    ensures Enabled(lines, m + 1) <==>
            SaysAt(lines, m, "// clang-format on") || (Enabled(lines, m) && !SaysAt(lines, m, "// clang-format off"))
  {
    hide Strip;
    GuardsDiffer();
  }

  // ---- What the two checks look for, and what the two fixes leave ----

  predicate Trailing(lines: seq<string>, i: nat)
    requires i < |lines|
  {
    Trimmed(lines[i]) != lines[i]
  }

  predicate Tabbed(lines: seq<string>, i: nat)
    requires i < |lines|
  {
    Subject(lines, i) && '\t' in lines[i]
  }

  predicate HasTrailing(lines: seq<string>) { exists i :: 0 <= i < |lines| && Trailing(lines, i) }

  predicate HasTabs(lines: seq<string>) { exists i :: 0 <= i < |lines| && Tabbed(lines, i) }

  function FixSpaces(lines: seq<string>): seq<string> {
    seq(|lines|, i requires 0 <= i < |lines| => Trimmed(lines[i]))
  }

  function FixTabs(lines: seq<string>): seq<string> {
    seq(|lines|, i requires 0 <= i < |lines| => if Subject(lines, i) then Expand(lines[i], 0) else lines[i])
  }

  // What a file holds after each fix has run on it.
  function SpacesFixed(text: string): string {
    if HasTrailing(Read(text)) then Join(FixSpaces(Read(text))) else text
  }

  function TabsFixed(text: string): string {
    if HasTabs(Read(text)) then Join(FixTabs(Read(text))) else text
  }

  // ---- Stripping and expanding ----

  // `RStrip` removes exactly the longest suffix of whitespace.
  lemma {:induction false} RStripCuts(s: string)
    ensures |RStrip(s)| <= |s| && RStrip(s) == s[..|RStrip(s)|]
    ensures RStrip(s) == [] || !IsSpace(RStrip(s)[|RStrip(s)| - 1])
    ensures forall i :: |RStrip(s)| <= i < |s| ==> IsSpace(s[i])
  {
    if s != [] {
      RStripCuts(s[1..]);
      assert forall i :: 1 <= i < |s| ==> s[i] == s[1..][i - 1];
    }
  }

  lemma RStripCons(c: char, s: string)
    ensures RStrip([c] + s) == if RStrip(s) == [] && IsSpace(c) then [] else [c] + RStrip(s)
  {
    assert ([c] + s)[1..] == s;
  }

  lemma ExpandCons(c: char, s: string, col: nat)
    ensures c != '\t' ==> Expand([c] + s, col) == [c] + Expand(s, NextColumn(c, col))
    ensures c == '\t' ==> Expand([c] + s, col) == Spaces(TAB_SIZE - col % TAB_SIZE) + Expand(s, NextColumn(c, col))
  {
    assert ([c] + s)[1..] == s;
  }

  lemma {:induction false} SpacesAre(n: nat)
    ensures |Spaces(n)| == n
  {
    if n > 0 { SpacesAre(n - 1); }
  }

  lemma Associative(a: string, b: string, c: string)
    ensures (a + b) + c == a + (b + c)
  {
  }

  lemma Columns(c: char, col: nat)
    requires c != '\n' && c != '\r'
    ensures NextColumn(c, col) == col + (if c == '\t' then TAB_SIZE - col % TAB_SIZE else 1)
    ensures col % TAB_SIZE < TAB_SIZE
  {
  }

  // On one line, columns are counted in expanded characters.
  lemma {:induction false} ExpandConcat(s: string, u: string, col: nat)
    requires '\n' !in s && '\r' !in s
    ensures Expand(s + u, col) == Expand(s, col) + Expand(u, col + |Expand(s, col)|)
  {
    hide Expand, Spaces, NextColumn;
    if s == [] {
      ExpandEmpty(s, col);
      assert s + u == u;
    } else {
      var c, rest := s[0], s[1..];
      var next := NextColumn(c, col);
      var first := if c == '\t' then Spaces(TAB_SIZE - col % TAB_SIZE) else [c];
      ExpandConcat(rest, u, next);
      SpacesAre(TAB_SIZE - col % TAB_SIZE);
      Columns(c, col);
      ExpandCons(c, rest, col);
      ExpandCons(c, rest + u, col);
      Associative(first, Expand(rest, next), Expand(u, next + |Expand(rest, next)|));
      assert s == [c] + rest && s + u == [c] + (rest + u);
    }
  }

  // A tab becomes as many spaces, one to four, as lead to the next column that is a multiple of four.
  lemma TabStops(before: string, after: string)
    requires '\n' !in before && '\r' !in before
    ensures var col := |Expand(before, 0)|;
      var stop := (col / 4 + 1) * 4;
      Expand(before + "\t" + after, 0) == Expand(before, 0) + Spaces(stop - col) + Expand(after, stop)
  {
    hide *;
    var col := |Expand(before, 0)|;
    ExpandConcat(before, "\t" + after, 0);
    Associative(before, "\t", after);
    ExpandCons('\t', after, col);
    NextStop(col);
    var stop := (col / 4 + 1) * 4;
    Associative(Expand(before, 0), Spaces(stop - col), Expand(after, stop));
  }

  lemma NextStop(col: nat)
    ensures TAB_SIZE > 0 && TAB_SIZE - col % TAB_SIZE == (col / 4 + 1) * 4 - col
    ensures NextColumn('\t', col) == (col / 4 + 1) * 4
  {
  }

  lemma {:induction false} RStripOfSpaces(n: nat, s: string)
    ensures RStrip(s) == [] ==> RStrip(Spaces(n) + s) == []
    ensures RStrip(s) != [] ==> RStrip(Spaces(n) + s) == Spaces(n) + RStrip(s)
  {
    hide RStrip;
    if n == 0 {
      assert Spaces(0) + s == s && Spaces(0) + RStrip(s) == RStrip(s);
    } else {
      RStripOfSpaces(n - 1, s);
      assert Spaces(n) + s == [' '] + (Spaces(n - 1) + s);
      RStripCons(' ', Spaces(n - 1) + s);
      assert Spaces(n) + RStrip(s) == [' '] + (Spaces(n - 1) + RStrip(s));
    }
  }

  lemma ExpandEmpty(s: string, col: nat)
    ensures Expand(s, col) == [] <==> s == []
  {
  }

  // Removing trailing whitespace commutes with expansion.
  lemma {:induction false} RStripExpand(s: string, col: nat)
    ensures RStrip(Expand(s, col)) == Expand(RStrip(s), col)
  {
    if s != [] {
      var c, rest := s[0], s[1..];
      assert s == [c] + rest && IsSpace('\t');
      hide RStrip, Expand, IsSpace;
      ExpandCons(c, rest, col);
      RStripCons(c, rest);
      ExpandCons(c, RStrip(rest), col);
      var next := NextColumn(c, col);
      RStripExpand(rest, next);
      ExpandEmpty(RStrip(rest), next);
      if c == '\t' {
        RStripOfSpaces(TAB_SIZE - col % TAB_SIZE, Expand(rest, next));
        ExpandEmpty(RStrip(s), col);
      } else {
        RStripCons(c, Expand(rest, next));
      }
    }
  }

  lemma LStripCons(c: char, s: string)
    ensures LStrip([c] + s) == if IsSpace(c) then LStrip(s) else [c] + s
  {
    assert ([c] + s)[1..] == s;
  }

  lemma {:induction false} LStripOfSpaces(n: nat, s: string)
    ensures LStrip(Spaces(n) + s) == LStrip(s)
  {
    hide LStrip;
    if n == 0 {
      assert Spaces(0) + s == s;
    } else {
      LStripOfSpaces(n - 1, s);
      assert Spaces(n) + s == [' '] + (Spaces(n - 1) + s);
      LStripCons(' ', Spaces(n - 1) + s);
    }
  }

  lemma {:induction false} SpacesOnly(n: nat, c: char)
    ensures c in Spaces(n) ==> c == ' '
  {
    if n > 0 { SpacesOnly(n - 1, c); }
  }

  // Expansion removes every tab and brings in no character but the space.
  lemma {:induction false} ExpandChars(s: string, col: nat, c: char)
    ensures '\t' !in Expand(s, col)
    ensures '\t' !in s ==> Expand(s, col) == s
    ensures c in Expand(s, col) ==> c == ' ' || c in s
  {
    if s != [] {
      var rest := s[1..];
      assert s == [s[0]] + rest;
      ExpandChars(rest, NextColumn(s[0], col), c);
      SpacesOnly(TAB_SIZE - col % TAB_SIZE, '\t');
      SpacesOnly(TAB_SIZE - col % TAB_SIZE, c);
    }
  }

  lemma {:induction false} LStripExpand(s: string, col: nat)
    requires '\t' !in LStrip(s)
    ensures LStrip(Expand(s, col)) == LStrip(s)
  {
    if s != [] {
      var c, rest := s[0], s[1..];
      assert s == [c] + rest && IsSpace('\t');
      hide LStrip, Expand, IsSpace;
      LStripCons(c, rest);
      if IsSpace(c) {
        var next := NextColumn(c, col);
        ExpandCons(c, rest, col);
        LStripExpand(rest, next);
        LStripOfSpaces(TAB_SIZE - col % TAB_SIZE, Expand(rest, next));
        LStripCons(c, Expand(rest, next));
      } else {
        ExpandChars(s, col, ' ');
      }
    } else {
      ExpandChars(s, col, ' ');
    }
  }

  // A line that is a guard is still the same guard once its tabs are expanded.
  lemma GuardKept(line: string)
    requires IsGuard(Strip(line))
    ensures Strip(Expand(line, 0)) == Strip(line)
  {
    hide LStrip, RStrip, Expand;
    assert '\t' !in GUARD_ON && '\t' !in GUARD_OFF;
    RStripExpand(line, 0);
    LStripExpand(RStrip(line), 0);
  }

  lemma {:induction false} RStripNewline(s: string)
    ensures RStrip(s + "\n") == RStrip(s)
  {
    if s == [] {
      RStripCons('\n', []);
    } else {
      assert s == [s[0]] + s[1..] && s + "\n" == [s[0]] + (s[1..] + "\n");
      hide RStrip;
      RStripNewline(s[1..]);
      RStripCons(s[0], s[1..]);
      RStripCons(s[0], s[1..] + "\n");
    }
  }

  lemma {:induction false} RStripTwice(s: string)
    ensures RStrip(RStrip(s)) == RStrip(s)
  {
    if s != [] {
      RStripTwice(s[1..]);
      RStripCons(s[0], RStrip(s[1..]));
    }
  }

  lemma TrimmedTwice(line: string)
    ensures RStrip(Trimmed(line)) == RStrip(line)
  {
    RStripNewline(RStrip(line));
    RStripTwice(line);
  }

  lemma {:induction false} ExpandAppend(s: string, col: nat)
    ensures Expand(s + "\n", col) == Expand(s, col) + "\n"
  {
    if s == [] {
      ExpandCons('\n', [], col);
    } else {
      var c, rest := s[0], s[1..];
      assert s == [c] + rest && s + "\n" == [c] + (rest + "\n");
      hide Expand;
      var next := NextColumn(c, col);
      ExpandAppend(rest, next);
      ExpandCons(c, rest, col);
      ExpandCons(c, rest + "\n", col);
    }
  }

  // Trimming and expanding a line commute.
  lemma TrimmedExpand(line: string)
    ensures Trimmed(Expand(line, 0)) == Expand(Trimmed(line), 0)
  {
    RStripExpand(line, 0);
    ExpandAppend(RStrip(line), 0);
  }

  // ---- Both fixes keep a file a list of lines ----

  lemma RStripLine(line: string)
    requires IsLine(line)
    ensures '\n' !in RStrip(line) && '\r' !in RStrip(line)
  {
    RStripCuts(line);
  }

  lemma NewlineEnds(s: string)
    requires '\n' !in s && '\r' !in s
    ensures IsLine(s + "\n") && Ended(s + "\n")
  {
  }

  // A line without its newline.
  function Body(line: string): string { if Ended(line) then line[..|line| - 1] else line }

  lemma LineBody(line: string)
    requires IsLine(line)
    ensures line != [] && '\n' !in Body(line) && '\r' !in Body(line)
    ensures line == if Ended(line) then Body(line) + "\n" else Body(line)
  {
  }

  lemma PlainLine(s: string)
    requires s != [] && '\n' !in s && '\r' !in s
    ensures IsLine(s)
  {
  }

  lemma ExpandLine(line: string)
    requires IsLine(line)
    ensures IsLine(Expand(line, 0)) && (Ended(line) ==> Ended(Expand(line, 0)))
  {
    hide *;
    var body := Body(line);
    LineBody(line);
    ExpandChars(body, 0, '\n');
    ExpandChars(body, 0, '\r');
    if Ended(line) {
      ExpandAppend(body, 0);
      NewlineEnds(Expand(body, 0));
    } else {
      ExpandEmpty(line, 0);
      PlainLine(Expand(line, 0));
    }
  }

  lemma FixSpacesIsText(lines: seq<string>)
    requires IsText(lines)
    ensures IsText(FixSpaces(lines))
  {
    forall i | 0 <= i < |lines| ensures IsLine(Trimmed(lines[i])) && Ended(Trimmed(lines[i])) {
      RStripLine(lines[i]);
      NewlineEnds(RStrip(lines[i]));
    }
  }

  lemma FixTabsIsText(lines: seq<string>)
    requires IsText(lines)
    ensures IsText(FixTabs(lines))
  {
    forall i | 0 <= i < |lines|
      ensures IsLine(Expand(lines[i], 0)) && (Ended(lines[i]) ==> Ended(Expand(lines[i], 0)))
    {
      ExpandLine(lines[i]);
    }
  }

  // ---- A fix changes the lines exactly when its check complains ----

  lemma SpacesChange(lines: seq<string>)
    ensures FixSpaces(lines) == lines <==> !HasTrailing(lines)
  {
    hide Trimmed;
    forall i | 0 <= i < |lines| ensures FixSpaces(lines)[i] == lines[i] <==> !Trailing(lines, i) {
    }
    SameOrNot(FixSpaces(lines), lines);
    if !HasTrailing(lines) {
      forall i | 0 <= i < |lines| ensures FixSpaces(lines)[i] == lines[i] { assert !Trailing(lines, i); }
    } else {
      var i :| 0 <= i < |lines| && Trailing(lines, i);
      assert FixSpaces(lines)[i] != lines[i];
    }
  }

  lemma SameOrNot(a: seq<string>, b: seq<string>)
    requires |a| == |b|
    ensures (forall i :: 0 <= i < |b| ==> a[i] == b[i]) ==> a == b
  {
  }

  lemma TabsChange(lines: seq<string>)
    ensures FixTabs(lines) == lines <==> !HasTabs(lines)
  {
    hide Enabled, Expand, Strip;
    forall i | 0 <= i < |lines| ensures FixTabs(lines)[i] == lines[i] <==> !Tabbed(lines, i) {
      ExpandChars(lines[i], 0, ' ');
    }
    SameOrNot(FixTabs(lines), lines);
    if !HasTabs(lines) {
      forall i | 0 <= i < |lines| ensures FixTabs(lines)[i] == lines[i] { assert !Tabbed(lines, i); }
    } else {
      var i :| 0 <= i < |lines| && Tabbed(lines, i);
      assert FixTabs(lines)[i] != lines[i];
    }
  }

  // ---- Fixed lines are clean ----

  // The line that the tab fix leaves, and what decides about it.
  lemma FixTabsAt(lines: seq<string>, i: nat)
    requires i < |lines|
    ensures FixTabs(lines)[i] == if Subject(lines, i) then Expand(lines[i], 0) else lines[i]
    ensures Subject(lines, i) == (Enabled(lines, i + 1) || IsGuard(Strip(lines[i])))
  {
  }

  lemma FixTabsLength(lines: seq<string>)
    ensures |FixTabs(lines)| == |lines| && Enabled(lines, 0)
  {
  }

  lemma EnabledNext(lines: seq<string>, n: nat)
    requires n < |lines|
    ensures var s := Strip(lines[n]);
            && (Enabled(lines, n + 1) <==> s == GUARD_ON || (Enabled(lines, n) && s != GUARD_OFF))
            && (IsGuard(s) <==> s == GUARD_ON || s == GUARD_OFF)
  {
    hide Strip;
  }

  /**
   * Expanding tabs may turn an ordinary line into a guard, so the guard state seen by a second
   * check can differ from the one the fix saw; it can only be enabled where the fix was too.
   */
  lemma {:induction false} EnabledWasEnabled(lines: seq<string>, n: nat)
    requires n <= |lines|
    ensures Enabled(FixTabs(lines), n) ==> Enabled(lines, n)
  {
    hide *;
    FixTabsLength(lines);
    if n > 0 {
      EnabledWasEnabled(lines, n - 1);
      EnabledNext(lines, n - 1);
      EnabledNext(FixTabs(lines), n - 1);
      FixTabsAt(lines, n - 1);
      if IsGuard(Strip(lines[n - 1])) { GuardKept(lines[n - 1]); }
    }
  }

  lemma TabsGone(lines: seq<string>)
    ensures !HasTabs(FixTabs(lines))
  {
    hide Enabled, Strip, Expand, IsGuard;
    var fixed := FixTabs(lines);
    forall i | 0 <= i < |lines| ensures !Tabbed(fixed, i) {
      EnabledWasEnabled(lines, i + 1);
      ExpandChars(lines[i], 0, ' ');
    }
  }

  lemma SpacesGone(lines: seq<string>)
    ensures !HasTrailing(FixSpaces(lines))
  {
    var fixed := FixSpaces(lines);
    forall i | 0 <= i < |lines| ensures !Trailing(fixed, i) {
      TrimmedTwice(lines[i]);
    }
  }

  lemma StripTrimmed(line: string)
    ensures Strip(Trimmed(line)) == Strip(line)
  {
    hide LStrip, RStrip, Trimmed;
    TrimmedTwice(line);
  }

  lemma {:induction false} SameGuards(lines: seq<string>, n: nat)
    requires n <= |lines|
    ensures Enabled(FixSpaces(lines), n) == Enabled(lines, n)
  {
    hide Strip, Trimmed;
    if n > 0 {
      SameGuards(lines, n - 1);
      StripTrimmed(lines[n - 1]);
    }
  }

  // The two fixes commute on any list of lines.
  lemma FixesCommute(lines: seq<string>)
    ensures FixTabs(FixSpaces(lines)) == FixSpaces(FixTabs(lines))
  {
    hide Enabled, Strip, Trimmed, Expand, IsGuard, Subject;
    var a, b := FixTabs(FixSpaces(lines)), FixSpaces(FixTabs(lines));
    forall i | 0 <= i < |lines| ensures a[i] == b[i] {
      SameGuards(lines, i + 1);
      StripTrimmed(lines[i]);
      TrimmedExpand(lines[i]);
      FixTabsAt(FixSpaces(lines), i);
      FixTabsAt(lines, i);
    }
  }

  // ---- Whole files ----

  lemma ReadAfterSpaces(text: string)
    ensures Read(SpacesFixed(text)) == FixSpaces(Read(text))
  {
    var lines := Read(text);
    SpacesChange(lines);
    FixSpacesIsText(lines);
    SplitJoin(FixSpaces(lines));
  }

  lemma ReadAfterTabs(text: string)
    ensures Read(TabsFixed(text)) == FixTabs(Read(text))
  {
    var lines := Read(text);
    TabsChange(lines);
    FixTabsIsText(lines);
    SplitJoin(FixTabs(lines));
  }

  /** Fixing whitespace and then tabs leaves a file that both checks pass and both fixes leave alone. */
  lemma FixedFileIsClean(text: string)
    ensures var fixed := TabsFixed(SpacesFixed(text));
            && !HasTrailing(Read(fixed)) && !HasTabs(Read(fixed))
            && SpacesFixed(fixed) == fixed && TabsFixed(fixed) == fixed
  {
    ReadAfterSpaces(text);
    ReadAfterTabs(SpacesFixed(text));
    FixesCommute(Read(text));
    TabsGone(FixSpaces(Read(text)));
    SpacesGone(FixTabs(Read(text)));
  }

  /** The order of the two fixes does not matter, down to the last character of the file. */
  lemma FixOrderIrrelevant(text: string)
    ensures TabsFixed(SpacesFixed(text)) == SpacesFixed(TabsFixed(text))
  {
    var lines := Read(text);
    ReadAfterSpaces(text);
    ReadAfterTabs(text);
    ReadAfterTabs(SpacesFixed(text));
    ReadAfterSpaces(TabsFixed(text));
    FixesCommute(lines);
    SpacesChange(lines);
    SpacesChange(FixTabs(lines));
    TabsChange(lines);
    TabsChange(FixSpaces(lines));
  }

  lemma {:induction false} ExpandPrefix(a: string, b: string, col: nat)
    requires '\t' !in a && '\n' !in a && '\r' !in a
    ensures Expand(a + b, col) == a + Expand(b, col + |a|)
  {
    hide Expand;
    if a == [] {
      assert a + b == b;
    } else {
      var rest := a[1..];
      assert a == [a[0]] + rest && a + b == [a[0]] + (rest + b);
      assert a[0] in a && NextColumn(a[0], col) == col + 1;
      ExpandCons(a[0], rest + b, col);
      ExpandPrefix(rest, b, col + 1);
      assert [a[0]] + (rest + Expand(b, col + |a|)) == a + Expand(b, col + |a|);
    }
  }

  lemma InnerKept(s: string)
    requires s != [] && s[0] == '/' && s[|s| - 1] == 'f'
    ensures Strip(s + "\n") == s
  {
    RStripNewline(s);
    RStripCuts(s);
  }

  // A tab that starts one column before a tab stop becomes one space.
  lemma TabAsSpace(head: string, tail: string)
    requires '\t' !in head && '\n' !in head && '\r' !in head && |head| % TAB_SIZE == TAB_SIZE - 1
    requires '\t' !in tail
    ensures Expand(head + ("\t" + tail), 0) == head + (" " + tail)
  {
    hide Expand;
    ExpandPrefix(head, "\t" + tail, 0);
    ExpandCons('\t', tail, |head|);
    ExpandChars(tail, |head| + 1, ' ');
    assert Spaces(1) == " ";
  }

  /**
   * The guard state can really change under the fix: a guard written with a tab for its second
   * space is no guard before expansion and switches clang-format off afterwards.
   */
  lemma GuardCanAppear()
    ensures var line := GUARD_OFF[..15] + ("\t" + GUARD_OFF[16..]) + "\n";
            !IsGuard(Strip(line)) && Strip(Expand(line, 0)) == GUARD_OFF
  {
    var head, tail := GUARD_OFF[..15], GUARD_OFF[16..];
    var inner := head + ("\t" + tail);
    hide Strip, Expand;
    assert GUARD_OFF == head + (" " + tail);
    TabAsSpace(head, tail);
    ExpandAppend(inner, 0);
    InnerKept(inner);
    InnerKept(GUARD_OFF);
    assert inner[15] == '\t';
  }

  // ---- The checks themselves ----

  class File {
    var text: string

    constructor (text: string)
      ensures this.text == text
    {
      this.text := text;
    }
  }

  // A verbose finding: the line number and the column of the marker.
  datatype Finding = Finding(line: nat, column: nat)

  function SpaceFindings(lines: seq<string>, n: nat): seq<Finding>
    requires n <= |lines|
  {
    if n == 0 then [] else
      SpaceFindings(lines, n - 1) + if Trailing(lines, n - 1) then [Finding(n, |RStrip(lines[n - 1])|)] else []
  }

  function TabFindings(lines: seq<string>, n: nat): seq<Finding>
    requires n <= |lines|
  {
    if n == 0 then [] else
      TabFindings(lines, n - 1) + if Tabbed(lines, n - 1) then [Finding(n, IndexOf(lines[n - 1], '\t') + 1)] else []
  }

  // The first index of a character; `|s|` when it is absent.
  function IndexOf(s: string, c: char): (i: nat)
    ensures i <= |s| && c !in s[..i] && (i < |s| ==> s[i] == c)
  {
    if s == [] || s[0] == c then 0 else IndexOf(s[1..], c) + 1
  }

  predicate SpacesDone(lines: seq<string>, now: seq<string>, n: nat) {
    && n <= |lines| == |now|
    && (forall i :: 0 <= i < n ==> now[i] == FixSpaces(lines)[i])
    && (forall i :: n <= i < |lines| ==> now[i] == lines[i])
  }

  predicate TabsDone(lines: seq<string>, now: seq<string>, n: nat) {
    && n <= |lines| == |now|
    && (forall i :: 0 <= i < n ==> now[i] == FixTabs(lines)[i])
    && (forall i :: n <= i < |lines| ==> now[i] == lines[i])
  }

  predicate AnyTrailing(lines: seq<string>, n: nat)
    requires n <= |lines|
  {
    exists i :: 0 <= i < n && Trailing(lines, i)
  }

  predicate AnyTabbed(lines: seq<string>, n: nat)
    requires n <= |lines|
  {
    exists i :: 0 <= i < n && Tabbed(lines, i)
  }

  // The state of each loop before its first line ...
  lemma ChecksStart(lines: seq<string>)
    ensures SpacesDone(lines, lines, 0) && !AnyTrailing(lines, 0) && SpaceFindings(lines, 0) == []
    ensures TabsDone(lines, lines, 0) && !AnyTabbed(lines, 0) && TabFindings(lines, 0) == [] && Enabled(lines, 0)
  {
  }

  // ... after one more line ...
  lemma SpacesNext(lines: seq<string>, now: seq<string>, n: nat)
    requires n < |lines| && SpacesDone(lines, now, n)
    ensures n < |now| && now[n] == lines[n] && Trimmed(lines[n]) == RStrip(lines[n]) + "\n"
    ensures SpacesDone(lines, now[n := Trimmed(lines[n])], n + 1)
    ensures Trimmed(lines[n]) == lines[n] ==> SpacesDone(lines, now, n + 1)
    ensures AnyTrailing(lines, n + 1) == (AnyTrailing(lines, n) || Trimmed(lines[n]) != lines[n])
    ensures Trimmed(lines[n]) == lines[n] ==> SpaceFindings(lines, n + 1) == SpaceFindings(lines, n)
    ensures Trimmed(lines[n]) != lines[n] ==>
              SpaceFindings(lines, n + 1) == SpaceFindings(lines, n) + [Finding(n + 1, |RStrip(lines[n])|)]
  {
    hide RStrip;
    assert Trimmed(lines[n]) != lines[n] ==> Trailing(lines, n);
    assert FixSpaces(lines)[n] == Trimmed(lines[n]);
  }

  lemma TabsNext(lines: seq<string>, now: seq<string>, n: nat)
    requires n < |lines| && TabsDone(lines, now, n)
    ensures n < |now| && now[n] == lines[n]
    ensures Tabbed(lines, n) ==> TabsDone(lines, now[n := Expand(lines[n], 0)], n + 1)
    ensures !Tabbed(lines, n) ==> TabsDone(lines, now, n + 1)
    ensures AnyTabbed(lines, n + 1) == (AnyTabbed(lines, n) || Tabbed(lines, n))
  {
    hide FixTabs, Tabbed, Subject, Expand, Enabled, Strip, IsGuard;
    FixTabsLength(lines);
    FixedTab(lines, n);
  }

  lemma FixedTab(lines: seq<string>, n: nat)
    requires n < |lines|
    ensures FixTabs(lines)[n] == if Tabbed(lines, n) then Expand(lines[n], 0) else lines[n]
  {
    hide Subject, Expand;
    ExpandChars(lines[n], 0, ' ');
  }

  lemma TabbedIs(lines: seq<string>, n: nat)
    requires n < |lines|
    ensures Tabbed(lines, n) == (Subject(lines, n) && IndexOf(lines[n], '\t') != |lines[n]|)
    ensures Tabbed(lines, n) == (Subject(lines, n) && '\t' in lines[n])
  {
    hide Subject;
  }

  lemma GuardStep(lines: seq<string>, n: nat)
    requires n < |lines|
    ensures Strip(lines[n]) == GUARD_ON ==> Enabled(lines, n + 1) && Subject(lines, n)
    ensures Strip(lines[n]) == GUARD_OFF ==> !Enabled(lines, n + 1) && Subject(lines, n)
    ensures Strip(lines[n]) != GUARD_ON && Strip(lines[n]) != GUARD_OFF ==>
              Enabled(lines, n + 1) == Enabled(lines, n) == Subject(lines, n)
    ensures TabFindings(lines, n + 1) == TabFindings(lines, n) +
              if Tabbed(lines, n) then [Finding(n + 1, IndexOf(lines[n], '\t') + 1)] else []
  {
    hide *;
    EnabledNext(lines, n);
    FixTabsAt(lines, n);
    GuardsDiffer();
    TabFindingsNext(lines, n);
  }

  lemma TabFindingsNext(lines: seq<string>, n: nat)
    requires n < |lines|
    ensures Tabbed(lines, n) ==> '\t' in lines[n]
    ensures TabFindings(lines, n + 1) == TabFindings(lines, n) +
              if Tabbed(lines, n) then [Finding(n + 1, IndexOf(lines[n], '\t') + 1)] else []
  {
    hide Subject, IndexOf;
  }

  lemma GuardsDiffer()
    ensures GUARD_ON != GUARD_OFF
  {
    assert |GUARD_ON| == 18 && |GUARD_OFF| == 19;
  }

  // ... and when it has found something, or seen all lines.
  lemma FoundTrailing(lines: seq<string>, n: nat)
    requires n < |lines| && AnyTrailing(lines, n + 1)
    ensures HasTrailing(lines)
  {
  }

  lemma FoundTab(lines: seq<string>, n: nat)
    requires n < |lines| && AnyTabbed(lines, n + 1)
    ensures HasTabs(lines)
  {
  }

  lemma SpacesEnd(lines: seq<string>, now: seq<string>)
    requires SpacesDone(lines, now, |lines|)
    ensures now == FixSpaces(lines) && AnyTrailing(lines, |lines|) == HasTrailing(lines)
  {
  }

  lemma TabsEnd(lines: seq<string>, now: seq<string>)
    requires TabsDone(lines, now, |lines|)
    ensures now == FixTabs(lines) && AnyTabbed(lines, |lines|) == HasTabs(lines)
  {
  }

  lemma FixedText(text: string)
    ensures HasTrailing(Read(text)) ==> SpacesFixed(text) == Join(FixSpaces(Read(text)))
    ensures !HasTrailing(Read(text)) ==> SpacesFixed(text) == text
    ensures HasTabs(Read(text)) ==> TabsFixed(text) == Join(FixTabs(Read(text)))
    ensures !HasTabs(Read(text)) ==> TabsFixed(text) == text
  {
  }

  method CheckTrailingWhitespaceFile(file: File, fix: bool, verbose: bool)
    returns (hasTrailing: bool, infos: seq<Finding>)
    modifies file
    ensures hasTrailing == HasTrailing(Read(old(file.text)))
    ensures file.text == if fix then SpacesFixed(old(file.text)) else old(file.text)
    ensures infos == if verbose then SpaceFindings(Read(old(file.text)), |Read(old(file.text))|) else []
  {
    hide *;
    hasTrailing, infos := false, [];
    var fileLines := Read(file.text);
    ghost var lines := fileLines;
    ChecksStart(lines);
    var i := 0;
    while i < |fileLines|
      invariant i <= |fileLines| == |lines| && file.text == old(file.text)
      invariant SpacesDone(lines, fileLines, i)
      invariant hasTrailing == AnyTrailing(lines, i)
      invariant infos == if verbose then SpaceFindings(lines, i) else []
    {
      SpacesNext(lines, fileLines, i);
      var line := fileLines[i];
      var lineFixed := RStrip(line) + "\n";
      if lineFixed != line {
        hasTrailing := true;
        fileLines := fileLines[i := lineFixed];
        if verbose {
          infos := infos + [Finding(i + 1, |lineFixed| - 1)];
        }
        if !fix && !verbose {
          FoundTrailing(lines, i);
          break;
        }
      }
      i := i + 1;
    }
    if i == |fileLines| {
      SpacesEnd(lines, fileLines);
    }
    FixedText(file.text);
    if fix && hasTrailing {
      file.text := Join(fileLines);
    }
  }

  method CheckTabsFile(file: File, fix: bool, verbose: bool)
    returns (hasTabs: bool, infos: seq<Finding>)
    modifies file
    ensures hasTabs == HasTabs(Read(old(file.text)))
    ensures file.text == if fix then TabsFixed(old(file.text)) else old(file.text)
    ensures infos == if verbose then TabFindings(Read(old(file.text)), |Read(old(file.text))|) else []
  {
    hide *;
    hasTabs, infos := false, [];
    var clangFormatEnabled := true;
    var fileLines := Read(file.text);
    ghost var lines := fileLines;
    ChecksStart(lines);
    var i := 0;
    while i < |fileLines|
      invariant i <= |fileLines| == |lines| && file.text == old(file.text)
      invariant TabsDone(lines, fileLines, i)
      invariant clangFormatEnabled == Enabled(lines, i)
      invariant hasTabs == AnyTabbed(lines, i)
      invariant infos == if verbose then TabFindings(lines, i) else []
    {
      TabsNext(lines, fileLines, i);
      TabbedIs(lines, i);
      GuardStep(lines, i);
      var line := fileLines[i];
      var lineStripped := Strip(line);
      if lineStripped == GUARD_ON {
        clangFormatEnabled := true;
      } else if lineStripped == GUARD_OFF {
        clangFormatEnabled := false;
      }
      i := i + 1;
      if !clangFormatEnabled && lineStripped != GUARD_ON && lineStripped != GUARD_OFF {
        continue;
      }
      var tabIndex := IndexOf(line, '\t');
      if tabIndex != |line| {
        hasTabs := true;
        fileLines := fileLines[i - 1 := Expand(line, 0)];
        if verbose {
          infos := infos + [Finding(i, tabIndex + 1)];
        }
        if !fix && !verbose {
          FoundTab(lines, i - 1);
          break;
        }
      }
    }
    if i == |fileLines| {
      TabsEnd(lines, fileLines);
    }
    FixedText(file.text);
    if fix && hasTabs {
      file.text := Join(fileLines);
    }
  }

  // The whole fixing run on one file.
  method FixFile(file: File)
    modifies file
    ensures file.text == TabsFixed(SpacesFixed(old(file.text)))
    ensures !HasTrailing(Read(file.text)) && !HasTabs(Read(file.text))
  {
    var hasTrailing, spaceInfos := CheckTrailingWhitespaceFile(file, true, false);
    var hasTabs, tabInfos := CheckTabsFile(file, true, false);
    FixedFileIsClean(old(file.text));
  }
}
