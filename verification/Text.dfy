/** Python's white space, `str.strip`, newline joins and `str.splitlines`. */
module Text {

  predicate Space(c: char) {
    || c == ' ' || '\t' <= c <= '\r' || '\U{1c}' <= c <= '\U{1f}' || c == '\U{85}' || c == '\U{a0}'
    || c == '\U{1680}' || '\U{2000}' <= c <= '\U{200a}' || c == '\U{2028}' || c == '\U{2029}'
    || c == '\U{202f}' || c == '\U{205f}' || c == '\U{3000}'
  }

  /** The characters for which `str.isspace` holds, one by one. */
  lemma SpaceIff(c: char)
    ensures Space(c) <==>
      || c == ' ' || c == '\t' || c == '\n' || c == '\U{b}' || c == '\U{c}' || c == '\r'
      || c == '\U{1c}' || c == '\U{1d}' || c == '\U{1e}' || c == '\U{1f}' || c == '\U{85}' || c == '\U{a0}' || c == '\U{1680}'
      || c == '\U{2000}' || c == '\U{2001}' || c == '\U{2002}' || c == '\U{2003}' || c == '\U{2004}' || c == '\U{2005}'
      || c == '\U{2006}' || c == '\U{2007}' || c == '\U{2008}' || c == '\U{2009}' || c == '\U{200a}'
      || c == '\U{2028}' || c == '\U{2029}' || c == '\U{202f}' || c == '\U{205f}' || c == '\U{3000}'
  {
  }

  function Strip(s: string): string {
    if s == [] then []
    else if Space(s[0]) then Strip(s[1..])
    else if Space(s[|s| - 1]) then Strip(s[..|s| - 1])
    else s
  }

  lemma {:induction false} StripEnd(s: string, c: char)
    requires Space(c)
    ensures Strip(s + [c]) == Strip(s)
  {
    var t := s + [c];
    if s == [] {
      assert t[1..] == [];
    } else if Space(s[0]) {
      assert t[1..] == s[1..] + [c];
      StripEnd(s[1..], c);
    } else {
      assert t[..|t| - 1] == s;
    }
  }

  /** White space, a text that neither starts nor ends with any, white space. */
  ghost predicate Trimmed(s: string, before: string, core: string, after: string) {
    && s == before + core + after
    && (forall i | 0 <= i < |before| :: Space(before[i])) && (forall i | 0 <= i < |after| :: Space(after[i]))
    && (core == [] || (!Space(core[0]) && !Space(core[|core| - 1])))
  }

  lemma TrimmedFront(c: char, s: string, before: string, core: string, after: string)
    requires Space(c) && Trimmed(s, before, core, after)
    ensures Trimmed([c] + s, [c] + before, core, after)
  {
    assert [c] + (before + core + after) == [c] + before + core + after;
  }

  lemma TrimmedEnd(s: string, c: char, before: string, core: string, after: string)
    requires Space(c) && Trimmed(s, before, core, after)
    ensures Trimmed(s + [c], before, core, after + [c])
  {
    assert before + core + after + [c] == before + core + (after + [c]);
  }

  lemma {:induction false} StripTrims(s: string) returns (before: string, after: string)
    ensures Trimmed(s, before, Strip(s), after)
    decreases |s|
  {
    before, after := [], [];
    if s != [] && Space(s[0]) {
      before, after := StripTrims(s[1..]);
      TrimmedFront(s[0], s[1..], before, Strip(s[1..]), after);
      before := [s[0]] + before;
      assert s == [s[0]] + s[1..];
    } else if s != [] && Space(s[|s| - 1]) {
      before, after := StripTrims(s[..|s| - 1]);
      TrimmedEnd(s[..|s| - 1], s[|s| - 1], before, Strip(s[..|s| - 1]), after);
      after := after + [s[|s| - 1]];
      assert s == s[..|s| - 1] + [s[|s| - 1]];
    }
  }

  lemma {:induction false} TrimmedStrips(s: string, before: string, core: string, after: string)
    requires Trimmed(s, before, core, after)
    ensures Strip(s) == core
    decreases |s|
  {
    if before != [] {
      assert s[0] == before[0] && s[1..] == before[1..] + core + after;
      TrimmedStrips(s[1..], before[1..], core, after);
    } else if after != [] {
      var n := |after| - 1;
      assert s == (core + after[..n]) + [after[n]];
      assert core + after[..n] == before + core + after[..n];
      TrimmedStrips(core + after[..n], before, core, after[..n]);
      StripEnd(core + after[..n], after[n]);
    } else {
      assert s == core;
    }
  }

  /** Stripping takes all white space off both ends and nothing else. */
  lemma StripIff(s: string, core: string)
    ensures Strip(s) == core <==> exists before, after :: Trimmed(s, before, core, after)
  {
    if Strip(s) == core {
      var before, after := StripTrims(s);
    }
    if before, after :| Trimmed(s, before, core, after) {
      TrimmedStrips(s, before, core, after);
    }
  }

  /** Lines joined by newlines. */
  function Join(lines: seq<string>): string {
    if lines == [] then []
    else if |lines| == 1 then lines[0]
    else Join(lines[..|lines| - 1]) + "\n" + lines[|lines| - 1]
  }

  lemma {:induction false} JoinFront(first: string, lines: seq<string>)
    requires lines != []
    ensures Join([first] + lines) == first + "\n" + Join(lines)
  {
    var all := [first] + lines;
    var n := |lines| - 1;
    assert all[..|all| - 1] == [first] + lines[..n];
    if n > 0 {
      JoinFront(first, lines[..n]);
      assert Join(lines) == Join(lines[..n]) + "\n" + lines[n];
    } else {
      assert Join([first]) == first;
    }
  }

  /** Blank lines around a text disappear when it is stripped. */
  lemma BlankLinesStrip(lines: seq<string>)
    ensures Strip(Join([""] + lines + [""])) == Strip(Join(lines))
  {
    var padded := [""] + lines;
    JoinBlankEnd(padded);
    StripEnd(Join(padded), '\n');
    if lines == [] {
      assert Join(padded) == "";
    } else {
      JoinFront("", lines);
      assert Join(padded) == ['\n'] + Join(lines) by { assert "" + "\n" == ['\n']; }
      assert (['\n'] + Join(lines))[1..] == Join(lines);
    }
  }

  lemma JoinBlankEnd(lines: seq<string>)
    requires lines != []
    ensures Join(lines + [""]) == Join(lines) + ['\n']
  {
    var all := lines + [""];
    assert all[..|all| - 1] == lines;
    assert "\n" + "" == ['\n'];
  }

  // ---------------------------------------------------------- text and its lines

  /** The characters at which `str.splitlines` ends a line. */
  predicate Break(c: char) {
    '\n' <= c <= '\r' || '\U{1c}' <= c <= '\U{1e}' || c == '\U{85}' || c == '\U{2028}' || c == '\U{2029}'
  }

  predicate OneLine(s: string) { forall i | 0 <= i < |s| :: !Break(s[i]) }

  function LineLength(s: string): (n: nat)
    ensures n <= |s| && (n < |s| ==> Break(s[n])) && forall i | 0 <= i < n :: !Break(s[i])
  {
    if s == [] || Break(s[0]) then 0 else 1 + LineLength(s[1..])
  }

  /** How many characters end the line at `n`: carriage return and newline go together. */
  function BreakLength(s: string, n: nat): (k: nat)
    requires n <= |s|
    ensures n + k <= |s| && (n < |s| ==> k > 0)
  {
    if n == |s| then 0 else if s[n] == '\r' && n + 1 < |s| && s[n + 1] == '\n' then 2 else 1
  }

  function SplitLines(s: string): seq<string>
    decreases |s|
  {
    if s == [] then []
    else
      var n := LineLength(s);
      [s[..n]] + SplitLines(s[n + BreakLength(s, n)..])
  }

  /** Each line with its newline. */
  function TextOf(lines: seq<string>): string {
    if lines == [] then [] else lines[0] + "\n" + TextOf(lines[1..])
  }

  lemma FirstLine(line: string, rest: string)
    requires OneLine(line)
    ensures SplitLines(line + "\n" + rest) == [line] + SplitLines(rest)
  {
    var s := line + "\n" + rest;
    assert s[|line|] == '\n' && forall i | 0 <= i < |line| :: s[i] == line[i];
    assert LineLength(s) == |line|;
    assert s[..|line|] == line && s[|line| + 1..] == rest;
  }

  /** The ten characters. */
  lemma BreakIff(c: char)
    ensures Break(c) <==>
      || c == '\n' || c == '\U{b}' || c == '\U{c}' || c == '\r' || c == '\U{1c}' || c == '\U{1d}' || c == '\U{1e}'
      || c == '\U{85}' || c == '\U{2028}' || c == '\U{2029}'
  {
  }

  lemma LengthTo(line: string, rest: string)
    requires OneLine(line) && (rest == [] || Break(rest[0]))
    ensures LineLength(line + rest) == |line|
  {
    var s := line + rest;
    assert forall i | 0 <= i < |line| :: s[i] == line[i];
    assert rest != [] ==> s[|line|] == rest[0];
  }

  /** A line ends at any of them; a carriage return takes the newline after it along; the last line
      needs none. */
  lemma AnyBreak(line: string, c: char, rest: string)
    requires OneLine(line) && Break(c)
    ensures !(c == '\r' && rest != [] && rest[0] == '\n') ==> SplitLines(line + ([c] + rest)) == [line] + SplitLines(rest)
    ensures c == '\r' && rest != [] && rest[0] == '\n' ==> SplitLines(line + ([c] + rest)) == [line] + SplitLines(rest[1..])
    ensures line != [] ==> SplitLines(line) == [line]
  {
    var s := line + ([c] + rest);
    LengthTo(line, [c] + rest);
    assert s[..|line|] == line && s[|line|] == c && s[|line| + 1..] == rest;
    assert rest != [] ==> s[|line| + 1] == rest[0] && s[|line| + 2..] == rest[1..];
    LengthTo(line, []);
    assert line + [] == line && line[..|line|] == line;
  }

  lemma {:induction false} SplitText(lines: seq<string>)
    requires forall i | 0 <= i < |lines| :: OneLine(lines[i])
    ensures SplitLines(TextOf(lines)) == lines
  {
    if lines != [] {
      SplitText(lines[1..]);
      FirstLine(lines[0], TextOf(lines[1..]));
    }
  }

  lemma {:induction false} SplitIsOneLine(s: string, i: nat)
    requires i < |SplitLines(s)|
    ensures OneLine(SplitLines(s)[i])
    decreases |s|
  {
    var n := LineLength(s);
    var rest := s[n + BreakLength(s, n)..];
    assert SplitLines(s) == [s[..n]] + SplitLines(rest);
    if i > 0 {
      SplitIsOneLine(rest, i - 1);
      assert SplitLines(s)[i] == SplitLines(rest)[i - 1];
    }
  }

  // --------------------------------------------------------------------- LIKE

  /** `LIKE '%pattern%'`, in which an underscore stands for any character. */
  predicate LikeAt(text: string, pattern: string, i: nat) {
    i + |pattern| <= |text| && forall k | 0 <= k < |pattern| :: pattern[k] == '_' || text[i + k] == pattern[k]
  }

  predicate Like(text: string, pattern: string) {
    exists i | 0 <= i <= |text| :: LikeAt(text, pattern, i)
  }

  lemma LikeNeeds(text: string, pattern: string, k: nat)
    requires k < |pattern| && pattern[k] != '_' && pattern[k] !in text
    ensures !Like(text, pattern)
  {
    forall i | 0 <= i <= |text| ensures !LikeAt(text, pattern, i) {
      if i + |pattern| <= |text| { assert text[i + k] in text; }
    }
  }

  lemma LikeInside(before: string, part: string, after: string)
    ensures Like(before + part + after, part)
  {
    assert LikeAt(before + part + after, part, |before|);
  }

  ghost predicate Around(text: string, before: string, part: string, after: string) { text == before + part + after }

  lemma LikeFound(text: string, part: string, i: nat)
    requires i <= |text| && LikeAt(text, part, i) && '_' !in part
    ensures Around(text, text[..i], part, text[i + |part|..])
  {
    assert text[i..i + |part|] == part by {
      forall k | 0 <= k < |part| ensures text[i + k] == part[k] { assert part[k] in part; }
    }
    assert text == text[..i] + text[i..i + |part|] + text[i + |part|..];
  }

  /** A pattern without an underscore is found exactly in the texts that contain it. */
  lemma LikeIff(text: string, part: string)
    requires '_' !in part
    ensures Like(text, part) <==> exists before, after :: Around(text, before, part, after)
  {
    if i :| 0 <= i <= |text| && LikeAt(text, part, i) {
      LikeFound(text, part, i);
    }
    if before, after :| Around(text, before, part, after) {
      LikeInside(before, part, after);
    }
  }
}
