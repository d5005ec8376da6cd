/** Stripping SQL comments line by line with a carried block-comment flag. */
module SqlComments {
  // The three two-character marks.
  predicate Opens(s: string) { |s| >= 2 && s[0] == '/' && s[1] == '*' }

  predicate Closes(s: string) { |s| >= 2 && s[0] == '*' && s[1] == '/' }

  predicate Dashes(s: string) { |s| >= 2 && s[0] == '-' && s[1] == '-' }

  datatype Stripped = Stripped(text: string, inBlock: bool)

  /** One line's output and the flag it hands on, by what the rest of the line starts with. */
  function Strip(s: string, inBlock: bool): Stripped
    decreases |s|
  {
    if s == "" then Stripped("", inBlock)
    else if inBlock then
      if Closes(s) then Strip(s[2..], false) else Strip(s[1..], true)
    else if Opens(s) then Strip(s[2..], true)
    else if Dashes(s) then Stripped("", false)
    else
      var rest := Strip(s[1..], false);
      Stripped([s[0]] + rest.text, rest.inBlock)
  }

  datatype StrippedLines = StrippedLines(lines: seq<string>, inBlock: bool)

  function StripLines(lines: seq<string>, inBlock: bool): StrippedLines {
    if lines == [] then StrippedLines([], inBlock)
    else
      var before := StripLines(lines[..|lines| - 1], inBlock);
      var last := Strip(lines[|lines| - 1], before.inBlock);
      StrippedLines(before.lines + [last.text], last.inBlock)
  }

  // The first position at or after `from` where a block comment ends, or -1, as `str.find` gives it.
  function FindEnd(s: string, from: nat): (at: int)
    requires from <= |s|
    ensures at == -1 || (from <= at && at + 2 <= |s|)
    decreases |s| - from
  {
    if from == |s| then -1 else if Closes(s[from..]) then from else FindEnd(s, from + 1)
  }

  lemma {:induction false} SkipToEnd(s: string, from: nat)
    requires from <= |s|
    ensures Strip(s[from..], true) ==
            if FindEnd(s, from) == -1 then Stripped("", true) else Strip(s[FindEnd(s, from) + 2..], false)
    decreases |s| - from
  {
    if from < |s| {
      assert s[from..][1..] == s[from + 1..];
      if Closes(s[from..]) { assert s[from..][2..] == s[from + 2..]; } else { SkipToEnd(s, from + 1); }
    }
  }

  /** The character loop over one line. */
  method StripLine(line: string, flag: bool) returns (output: string, inBlock: bool)
    ensures Stripped(output, inBlock) == Strip(line, flag)
  {
    output, inBlock := "", flag;
    var index := 0;
    while index < |line|
      invariant 0 <= index <= |line|
      invariant Strip(line, flag) ==
                Stripped(output + Strip(line[index..], inBlock).text, Strip(line[index..], inBlock).inBlock)
    {
      if inBlock {
        SkipToEnd(line, index);
        var end := FindEnd(line, index);
        if end == -1 {
          index := |line|;
        } else {
          inBlock := false;
          index := end + 2;
        }
      } else if Opens(line[index..]) {
        assert line[index..][2..] == line[index + 2..];
        inBlock := true;
        index := index + 2;
      } else if Dashes(line[index..]) {
        break;
      } else {
        assert line[index..][1..] == line[index + 1..];
        ghost var rest := Strip(line[index + 1..], false);
        assert output + ([line[index]] + rest.text) == (output + [line[index]]) + rest.text;
        output := output + [line[index]];
        index := index + 1;
      }
    }
  }

  /** The loop over the lines of a file. */
  method StripSqlComments(lines: seq<string>) returns (stripped: seq<string>)
    ensures stripped == StripLines(lines, false).lines
  {
    stripped := [];
    var inBlock := false;
    for i := 0 to |lines|
      invariant StrippedLines(stripped, inBlock) == StripLines(lines[..i], false)
    {
      assert lines[..i + 1][..i] == lines[..i];
      var output;
      output, inBlock := StripLine(lines[i], inBlock);
      stripped := stripped + [output];
    }
    assert lines[..|lines|] == lines;
  }

  // -- One character automaton over the whole text ------------------------------------------------------

  // Slash and Dash hold back one character; Star has just seen a `*` inside a block comment.
  datatype State = Code | Slash | Dash | Block | Star | LineComment

  function Step(q: State, c: char): (State, string) {
    match q
    case Code =>
      if c == '/' then (Slash, "") else if c == '-' then (Dash, "") else (Code, [c])
    case Slash =>
      if c == '*' then (Block, "") else if c == '/' then (Slash, "/")
      else if c == '-' then (Dash, "/") else (Code, ['/', c])
    case Dash =>
      if c == '-' then (LineComment, "") else if c == '/' then (Slash, "-") else (Code, ['-', c])
    case Block =>
      if c == '*' then (Star, "") else (Block, if c == '\n' then "\n" else "")
    case Star =>
      if c == '/' then (Code, "") else if c == '*' then (Star, "") else (Block, if c == '\n' then "\n" else "")
    case LineComment =>
      if c == '\n' then (Code, "\n") else (LineComment, "")
  }

  function Pending(q: State): string {
    match q case Slash => "/" case Dash => "-" case _ => ""
  }

  function RunFrom(q: State, text: string): (State, string)
    decreases |text|
  {
    if text == "" then (q, "")
    else
      var (q1, out) := Step(q, text[0]);
      var (q2, rest) := RunFrom(q1, text[1..]);
      (q2, out + rest)
  }

  /** The automaton's whole output. */
  function Automaton(text: string): string {
    var (q, out) := RunFrom(Code, text);
    out + Pending(q)
  }

  function Start(inBlock: bool): State { if inBlock then Block else Code }

  predicate InBlock(q: State) { q == Block || q == Star }

  /** What the line stripper would make of the held-back character and the rest of the line. */
  function FromState(q: State, s: string): Stripped {
    match q
    case Code => Strip(s, false)
    case Slash => Strip("/" + s, false)
    case Dash => Strip("-" + s, false)
    case Block => Strip(s, true)
    case Star => Strip("*" + s, true)
    case LineComment => Stripped("", false)
  }

  /** One automaton step inside a line is one step of the line stripper. */
  lemma StepIsStrip(q: State, s: string)
    requires s != "" && s[0] != '\n'
    ensures var (q1, out) := Step(q, s[0]);
      FromState(q, s) == Stripped(out + FromState(q1, s[1..]).text, FromState(q1, s[1..]).inBlock)
  {
    match q
    case Code => CodeStep(s);
    case Slash => SlashStep(s);
    case Dash => DashStep(s);
    case Block => BlockStep(s);
    case Star => StarStep(s);
    case LineComment =>
  }

  predicate Marker(a: char, b: char) { (a == '/' && b == '*') || (a == '-' && b == '-') }

  /** A character that opens no comment is copied. */
  lemma Copies(c: char, s: string)
    requires s == "" || !Marker(c, s[0])
    ensures Strip([c] + s, false) == Stripped([c] + Strip(s, false).text, Strip(s, false).inBlock)
  {
    var t := [c] + s;
    assert t[0] == c && t[1..] == s;
  }

  lemma BlockPasses(c: char, s: string)
    requires s == "" || c != '*' || s[0] != '/'
    ensures Strip([c] + s, true) == Strip(s, true)
  {
    var t := [c] + s;
    assert t[0] == c && t[1..] == s;
  }

  lemma CodeStep(s: string)
    requires s != "" && s[0] != '\n'
    ensures var (q1, out) := Step(Code, s[0]);
      FromState(Code, s) == Stripped(out + FromState(q1, s[1..]).text, FromState(q1, s[1..]).inBlock)
  {
    var c, rest := s[0], s[1..];
    assert s == [c] + rest;
    if c != '/' && c != '-' { Copies(c, rest); }
  }

  lemma SlashStep(s: string)
    requires s != "" && s[0] != '\n'
    ensures var (q1, out) := Step(Slash, s[0]);
      FromState(Slash, s) == Stripped(out + FromState(q1, s[1..]).text, FromState(q1, s[1..]).inBlock)
  {
    var c, rest := s[0], s[1..];
    var t := "/" + s;
    assert s == [c] + rest && t == ['/'] + s;
    if c == '*' {
      assert t[0] == '/' && t[1] == '*' && t[2..] == rest;
    } else {
      Copies('/', s);
      if c != '/' && c != '-' {
        Copies(c, rest);
        assert ['/'] + ([c] + Strip(rest, false).text) == ['/', c] + Strip(rest, false).text;
      }
    }
  }

  lemma DashStep(s: string)
    requires s != "" && s[0] != '\n'
    ensures var (q1, out) := Step(Dash, s[0]);
      FromState(Dash, s) == Stripped(out + FromState(q1, s[1..]).text, FromState(q1, s[1..]).inBlock)
  {
    var c, rest := s[0], s[1..];
    var t := "-" + s;
    assert s == [c] + rest && t == ['-'] + s;
    if c == '-' {
      assert t[0] == '-' && t[1] == '-' && t[2..] == rest;
    } else {
      Copies('-', s);
      if c != '/' {
        Copies(c, rest);
        assert ['-'] + ([c] + Strip(rest, false).text) == ['-', c] + Strip(rest, false).text;
      }
    }
  }

  lemma BlockStep(s: string)
    requires s != "" && s[0] != '\n'
    ensures var (q1, out) := Step(Block, s[0]);
      FromState(Block, s) == Stripped(out + FromState(q1, s[1..]).text, FromState(q1, s[1..]).inBlock)
  {
    var c, rest := s[0], s[1..];
    assert s == [c] + rest;
    if c != '*' { BlockPasses(c, rest); }
  }

  lemma StarStep(s: string)
    requires s != "" && s[0] != '\n'
    ensures var (q1, out) := Step(Star, s[0]);
      FromState(Star, s) == Stripped(out + FromState(q1, s[1..]).text, FromState(q1, s[1..]).inBlock)
  {
    var c, rest := s[0], s[1..];
    var t := "*" + s;
    assert s == [c] + rest && t == ['*'] + s;
    if c == '/' {
      assert t[0] == '*' && t[1] == '/' && t[2..] == rest;
    } else {
      BlockPasses('*', s);
      if c != '*' { BlockPasses(c, rest); }
    }
  }

  lemma {:induction false} LineIsStrip(q: State, s: string)
    requires '\n' !in s
    ensures var (q1, out) := RunFrom(q, s);
      FromState(q, s) == Stripped(out + Pending(q1), InBlock(q1))
    decreases |s|
  {
    if s == "" {
      EndOfLine(q);
    } else {
      StepIsStrip(q, s);
      LineIsStrip(Step(q, s[0]).0, s[1..]);
    }
  }

  lemma EndOfLine(q: State)
    ensures FromState(q, "") == Stripped(Pending(q), InBlock(q))
    ensures Step(q, '\n') == (Start(InBlock(q)), Pending(q) + "\n")
  {
    assert Strip("", false) == Stripped("", false) && Strip("", true) == Stripped("", true);
    match q
    case Slash =>
      assert "/" + "" == "/" && "/"[1..] == "" && ['/'] + "" == "/";
      assert Strip("/", false) == Stripped("/", false);
      assert ['/', '\n'] == "/" + "\n";
    case Dash =>
      assert "-" + "" == "-" && "-"[1..] == "" && ['-'] + "" == "-";
      assert Strip("-", false) == Stripped("-", false);
      assert ['-', '\n'] == "-" + "\n";
    case Star =>
      assert "*" + "" == "*" && "*"[1..] == "";
      assert Strip("*", true) == Stripped("", true);
      assert "" + "\n" == "\n";
    case _ =>
      assert "" + "\n" == "\n";
  }

  lemma BreakStep(q: State)
    ensures RunFrom(q, "\n") == (Start(InBlock(q)), Pending(q) + "\n")
  {
    EndOfLine(q);
    assert "\n"[1..] == "";
    assert Pending(q) + "\n" + "" == Pending(q) + "\n";
  }

  function JoinLines(lines: seq<string>): string {
    if lines == [] then "" else if |lines| == 1 then lines[0]
    else lines[0] + "\n" + JoinLines(lines[1..])
  }

  lemma {:induction false} RunConcat(q: State, a: string, b: string)
    ensures var (q1, out1) := RunFrom(q, a); var (q2, out2) := RunFrom(q1, b);
      RunFrom(q, a + b) == (q2, out1 + out2)
    decreases |a|
  {
    if a == "" {
      assert a + b == b;
      assert "" + RunFrom(q, b).1 == RunFrom(q, b).1;
    } else {
      assert (a + b)[0] == a[0] && (a + b)[1..] == a[1..] + b;
      RunConcat(Step(q, a[0]).0, a[1..], b);
      var (q1, out) := Step(q, a[0]);
      var (q2, out2) := RunFrom(q1, a[1..]);
      assert out + (out2 + RunFrom(q2, b).1) == (out + out2) + RunFrom(q2, b).1;
    }
  }

  /** Stripping a list of lines splits anywhere: the flag carries everything the rest needs to know. */
  lemma {:induction false} StripLinesCompose(a: seq<string>, b: seq<string>, inBlock: bool)
    ensures var first := StripLines(a, inBlock); var second := StripLines(b, first.inBlock);
      StripLines(a + b, inBlock) == StrippedLines(first.lines + second.lines, second.inBlock)
  {
    if b == [] {
      assert a + b == a;
    } else {
      assert (a + b)[..|a + b| - 1] == a + b[..|b| - 1];
      StripLinesCompose(a, b[..|b| - 1], inBlock);
    }
  }

  ghost predicate NoBreaks(lines: seq<string>) {
    forall i | 0 <= i < |lines| :: '\n' !in lines[i]
  }

  lemma {:induction false} LinesAreAutomaton(lines: seq<string>, inBlock: bool)
    requires NoBreaks(lines) && lines != []
    ensures var (q, out) := RunFrom(Start(inBlock), JoinLines(lines)); var stripped := StripLines(lines, inBlock);
      out + Pending(q) == JoinLines(stripped.lines) && InBlock(q) == stripped.inBlock
    decreases |lines|
  {
    var first, rest := lines[0], lines[1..];
    var head := Strip(first, inBlock);
    assert lines == [first] + rest;
    FirstLine(first, inBlock);
    if |lines| > 1 {
      LinesAreAutomaton(rest, head.inBlock);
      StripLinesCompose([first], rest, inBlock);
      RunLine(first, inBlock, JoinLines(rest));
      StripKeepsLineCount(rest, head.inBlock);
      JoinFirst(head.text, StripLines(rest, head.inBlock).lines);
      var (q2, out2) := RunFrom(Start(head.inBlock), JoinLines(rest));
      Regroup(head.text + "\n", out2, Pending(q2));
    } else {
      LineIsStrip(Start(inBlock), first);
    }
  }

  lemma Regroup(a: string, b: string, c: string)
    ensures (a + b) + c == a + (b + c)
  {
  }

  /** Running over a line, its break and more text: the stripped line, the break, and the rest. */
  lemma RunLine(line: string, inBlock: bool, more: string)
    requires '\n' !in line
    ensures var head := Strip(line, inBlock); var (q, out) := RunFrom(Start(head.inBlock), more);
      RunFrom(Start(inBlock), line + "\n" + more) == (q, head.text + "\n" + out)
  {
    var head := Strip(line, inBlock);
    var (q1, out1) := RunFrom(Start(inBlock), line);
    var (q2, out2) := RunFrom(Start(head.inBlock), more);
    LineIsStrip(Start(inBlock), line);
    BreakStep(q1);
    RunConcat(Start(inBlock), line, "\n");
    RunConcat(Start(inBlock), line + "\n", more);
    assert out1 + (Pending(q1) + "\n") == head.text + "\n";
  }

  lemma JoinFirst(line: string, lines: seq<string>)
    requires lines != []
    ensures JoinLines([line] + lines) == line + "\n" + JoinLines(lines)
  {
    assert ([line] + lines)[1..] == lines;
  }

  lemma FirstLine(line: string, inBlock: bool)
    ensures StripLines([line], inBlock) == StrippedLines([Strip(line, inBlock).text], Strip(line, inBlock).inBlock)
  {
    assert [line][..0] == [];
    assert StripLines([line], inBlock).lines == [Strip(line, inBlock).text];
  }

  lemma {:induction false} StripKeepsLineCount(lines: seq<string>, inBlock: bool)
    ensures |StripLines(lines, inBlock).lines| == |lines|
  {
    if lines != [] { StripKeepsLineCount(lines[..|lines| - 1], inBlock); }
  }

  /** The line-at-a-time stripper is one pass of the character automaton over the whole text. */
  lemma StripperIsAutomaton(lines: seq<string>)
    requires NoBreaks(lines)
    ensures JoinLines(StripLines(lines, false).lines) == Automaton(JoinLines(lines))
  {
    if lines != [] { LinesAreAutomaton(lines, false); }
  }

  // -- What is kept and what is not -----------------------------------------------------------------------

  ghost predicate Subsequence(a: string, b: string)
    decreases |b|
  {
    if a == "" then true
    else if b == "" then false
    else (a[0] == b[0] && Subsequence(a[1..], b[1..])) || Subsequence(a, b[1..])
  }

  lemma {:induction false} SubsequenceWeaken(a: string, b: string, n: nat)
    requires n <= |b| && Subsequence(a, b[n..])
    ensures Subsequence(a, b)
    decreases n
  {
    if n == 0 {
      assert b[0..] == b;
    } else {
      assert b[1..][n - 1..] == b[n..];
      SubsequenceWeaken(a, b[1..], n - 1);
    }
  }

  /** Stripping only deletes characters, and only from the line they were on. */
  lemma {:induction false} StripIsSubsequence(s: string, inBlock: bool)
    ensures Subsequence(Strip(s, inBlock).text, s)
    decreases |s|
  {
    if s != "" {
      if inBlock {
        if Closes(s) {
          StripIsSubsequence(s[2..], false);
          SubsequenceWeaken(Strip(s, inBlock).text, s, 2);
        } else {
          StripIsSubsequence(s[1..], true);
        }
      } else if Opens(s) {
        StripIsSubsequence(s[2..], true);
        SubsequenceWeaken(Strip(s, inBlock).text, s, 2);
      } else if !Dashes(s) {
        StripIsSubsequence(s[1..], false);
      }
    }
  }

  /** Line i of the output comes from line i of the input. */
  lemma {:induction false} LinesStayPut(lines: seq<string>, inBlock: bool, i: nat)
    requires i < |lines|
    ensures i < |StripLines(lines, inBlock).lines| == |lines|
    ensures Subsequence(StripLines(lines, inBlock).lines[i], lines[i])
  {
    StripKeepsLineCount(lines, inBlock);
    StripKeepsLineCount(lines[..|lines| - 1], inBlock);
    if i < |lines| - 1 { LinesStayPut(lines[..|lines| - 1], inBlock, i); }
    else { StripIsSubsequence(lines[i], StripLines(lines[..|lines| - 1], inBlock).inBlock); }
  }

  predicate MarkerAt(s: string, i: nat) { i + 1 < |s| && Marker(s[i], s[i + 1]) }

  predicate HasMarker(s: string) { exists i: nat | i < |s| :: MarkerAt(s, i) }

  lemma MarkerNext(s: string)
    requires s != ""
    ensures HasMarker(s) <==> MarkerAt(s, 0) || HasMarker(s[1..])
  {
    if HasMarker(s[1..]) {
      var i: nat :| i < |s[1..]| && MarkerAt(s[1..], i);
      assert MarkerAt(s, i + 1);
    } else if HasMarker(s) {
      var i: nat :| i < |s| && MarkerAt(s, i);
      assert i > 0 ==> MarkerAt(s[1..], i - 1);
    }
  }

  lemma {:induction false} StripShrinks(s: string, inBlock: bool)
    ensures |Strip(s, inBlock).text| <= |s|
    ensures Strip(s, inBlock).text == s <==> s == "" || (!inBlock && !HasMarker(s))
    ensures !inBlock && !HasMarker(s) ==> !Strip(s, inBlock).inBlock
    decreases |s|
  {
    if s != "" {
      MarkerNext(s);
      if inBlock {
        StripShrinks(if Closes(s) then s[2..] else s[1..], !Closes(s));
      } else if Opens(s) {
        StripShrinks(s[2..], true);
      } else if !Dashes(s) {
        StripShrinks(s[1..], false);
        assert s == [s[0]] + s[1..];
      }
    }
  }

  /** A file is left unchanged exactly when no line holds a comment marker; so a second pass changes nothing
      exactly when the first left none behind. */
  lemma {:induction false} UnchangedIffNoMarker(lines: seq<string>)
    ensures StripLines(lines, false).lines == lines <==> forall i | 0 <= i < |lines| :: !HasMarker(lines[i])
    ensures StripLines(lines, false).lines == lines ==> !StripLines(lines, false).inBlock
  {
    StripKeepsLineCount(lines, false);
    if lines != [] {
      var init, last := lines[..|lines| - 1], lines[|lines| - 1];
      UnchangedIffNoMarker(init);
      StripKeepsLineCount(init, false);
      var before := StripLines(init, false);
      StripShrinks(last, before.inBlock);
      assert lines == init + [last];
      if StripLines(lines, false).lines == lines {
        assert before.lines == StripLines(lines, false).lines[..|init|] == init;
      }
    }
  }

  // -- When a second pass changes nothing -----------------------------------------------------------------

  /** Scanning the line, from inside a block comment or not, reaches position k outside comments. */
  predicate CodeAt(s: string, inBlock: bool, k: nat)
    decreases |s|
  {
    if k == 0 then !inBlock
    else if s == "" then false
    else if inBlock then
      if Closes(s) then k >= 2 && CodeAt(s[2..], false, k - 2) else CodeAt(s[1..], true, k - 1)
    else if Opens(s) then k >= 2 && CodeAt(s[2..], true, k - 2)
    else !Dashes(s) && CodeAt(s[1..], false, k - 1)
  }

  /** The first n characters are nothing but closed block comments. */
  predicate Comments(s: string, n: nat)
    decreases |s|
  {
    n == 0 ||
    (Opens(s) && FindEnd(s, 2) != -1 && FindEnd(s, 2) + 2 <= n
     && Comments(s[FindEnd(s, 2) + 2..], n - FindEnd(s, 2) - 2))
  }

  /** Two kept characters with only closed block comments between them make a comment marker. */
  predicate JoinedAt(s: string, inBlock: bool, p: nat, q: nat) {
    && p + 1 < q < |s| && CodeAt(s, inBlock, p) && Comments(s[p + 1..], q - p - 1)
    && Marker(s[p], s[q]) && !MarkerAt(s, q)
  }

  predicate Rejoins(s: string, inBlock: bool) {
    exists p: nat, q: nat | p < q < |s| :: JoinedAt(s, inBlock, p, q)
  }

  /** Where the first kept character stands, or -1. */
  function FirstKept(t: string): (k: int)
    ensures -1 <= k < |t|
    decreases |t|
  {
    if t == "" || Dashes(t) then -1
    else if Opens(t) then
      var e := FindEnd(t, 2);
      if e == -1 || FirstKept(t[e + 2..]) == -1 then -1 else FirstKept(t[e + 2..]) + e + 2
    else 0
  }

  lemma {:induction false} FirstKeptIsFirst(t: string)
    ensures Strip(t, false).text == "" <==> FirstKept(t) == -1
    ensures Strip(t, false).text != "" ==> Strip(t, false).text[0] == t[FirstKept(t)]
    decreases |t|
  {
    if t != "" && Opens(t) {
      SkipToEnd(t, 2);
      var e := FindEnd(t, 2);
      if e != -1 {
        FirstKeptIsFirst(t[e + 2..]);
        assert FirstKept(t[e + 2..]) >= 0 ==> t[FirstKept(t)] == t[e + 2..][FirstKept(t[e + 2..])];
      }
    }
  }

  lemma MarkerShift(t: string, n: nat, m: nat)
    requires n <= m < |t|
    ensures MarkerAt(t, m) <==> MarkerAt(t[n..], m - n)
  {
    assert t[n..][m - n] == t[m];
    assert m + 1 < |t| ==> t[n..][m - n + 1] == t[m + 1];
  }

  lemma {:induction false} FirstKeptPlace(t: string, m: nat)
    ensures m == FirstKept(t) <==> m < |t| && Comments(t, m) && !MarkerAt(t, m)
    decreases |t|
  {
    if t != "" && Opens(t) {
      var e := FindEnd(t, 2);
      if m > 0 && e != -1 && e + 2 <= m {
        FirstKeptPlace(t[e + 2..], m - e - 2);
        if m < |t| { MarkerShift(t, e + 2, m); }
      } else if m == 0 {
        assert MarkerAt(t, 0);
      } else {
        assert !Comments(t, m);
      }
    }
  }

  /** The text begins with a copied character that makes a marker with the next kept one. */
  predicate MeetsNext(s: string) {
    && s != "" && !Opens(s) && !Dashes(s)
    && FirstKept(s[1..]) > 0 && Marker(s[0], s[1..][FirstKept(s[1..])])
  }

  lemma JoinedIffMeetsNext(s: string, inBlock: bool, p: nat, q: nat)
    requires p < q < |s|
    ensures JoinedAt(s, inBlock, p, q) <==>
            CodeAt(s, inBlock, p) && MeetsNext(s[p..]) && q == p + 1 + FirstKept(s[p + 1..])
  {
    var t := s[p + 1..];
    assert s[p..][1..] == t && s[p..][0] == s[p] && t[q - p - 1] == s[q];
    MarkerShift(s, p + 1, q);
    FirstKeptPlace(t, q - p - 1);
    if q > p + 1 && Comments(t, q - p - 1) {
      assert Opens(t) && t[0] == s[p + 1] && (|s[p..]| > 1 ==> s[p..][1] == t[0]);
    }
  }

  // How far the scan moves on when it keeps nothing, and whether it is then inside a block comment.
  function Skip(s: string, inBlock: bool): (nat, bool) {
    if inBlock then (if Closes(s) then (2, false) else (1, true)) else (2, true)
  }

  /** Somewhere outside comments the scan stands before a text that passes the test. */
  predicate Finds(test: string -> bool, s: string, inBlock: bool)
    decreases |s|
  {
    if s == "" then false
    else if inBlock || Opens(s) then
      var (n, later) := Skip(s, inBlock);
      Finds(test, s[n..], later)
    else !Dashes(s) && (test(s) || Finds(test, s[1..], false))
  }

  // A test that only a copied character passes.
  ghost predicate ForCopied(test: string -> bool) { forall s | test(s) :: s != "" && !Opens(s) && !Dashes(s) }

  lemma {:induction false} FindsAt(test: string -> bool, s: string, inBlock: bool, p: nat)
    requires ForCopied(test) && p < |s| && CodeAt(s, inBlock, p) && test(s[p..])
    ensures Finds(test, s, inBlock)
    decreases |s|
  {
    if p == 0 {
      assert s[0..] == s;
    } else if inBlock || Opens(s) {
      var (n, later) := Skip(s, inBlock);
      assert s[n..][p - n..] == s[p..];
      FindsAt(test, s[n..], later, p - n);
    } else {
      assert s[1..][p - 1..] == s[p..];
      FindsAt(test, s[1..], false, p - 1);
    }
  }

  lemma {:induction false} FindsSomewhere(test: string -> bool, s: string, inBlock: bool) returns (p: nat)
    requires Finds(test, s, inBlock)
    ensures p < |s| && CodeAt(s, inBlock, p) && test(s[p..])
    decreases |s|
  {
    if inBlock || Opens(s) {
      var (n, later) := Skip(s, inBlock);
      p := FindsSomewhere(test, s[n..], later);
      assert s[n..][p..] == s[p + n..];
      p := p + n;
    } else if test(s) {
      p := 0;
      assert s[0..] == s;
    } else {
      p := FindsSomewhere(test, s[1..], false);
      assert s[1..][p..] == s[p + 1..];
      p := p + 1;
    }
  }

  lemma ConsHasMarker(c: char, text: string)
    ensures HasMarker([c] + text) <==> (text != "" && Marker(c, text[0])) || HasMarker(text)
  {
    MarkerNext([c] + text);
    assert ([c] + text)[1..] == text;
  }

  lemma {:induction false} MarkerIffFinds(s: string, inBlock: bool)
    ensures HasMarker(Strip(s, inBlock).text) <==> Finds(MeetsNext, s, inBlock)
    decreases |s|
  {
    if s == "" {
    } else if inBlock || Opens(s) {
      var (n, later) := Skip(s, inBlock);
      MarkerIffFinds(s[n..], later);
    } else if !Dashes(s) {
      var rest := Strip(s[1..], false);
      MarkerIffFinds(s[1..], false);
      ConsHasMarker(s[0], rest.text);
      FirstKeptIsFirst(s[1..]);
      if FirstKept(s[1..]) == 0 { NextIsNoMarker(s); }
    }
  }

  /** A stripped line holds a marker exactly when stripping joined one. */
  lemma MarkerIffRejoined(s: string, inBlock: bool)
    ensures HasMarker(Strip(s, inBlock).text) <==> Rejoins(s, inBlock)
  {
    MarkerIffFinds(s, inBlock);
    if Finds(MeetsNext, s, inBlock) {
      var p := FindsSomewhere(MeetsNext, s, inBlock);
      assert s[p..][1..] == s[p + 1..];
      JoinedIffMeetsNext(s, inBlock, p, p + 1 + FirstKept(s[p + 1..]));
    }
    if p: nat, q: nat :| p < q < |s| && JoinedAt(s, inBlock, p, q) {
      JoinedIffMeetsNext(s, inBlock, p, q);
      FindsAt(MeetsNext, s, inBlock, p);
    }
  }

  lemma NextIsNoMarker(s: string)
    requires s != "" && !Opens(s) && !Dashes(s) && FirstKept(s[1..]) == 0
    ensures !Marker(s[0], s[1])
  {
  }

  lemma {:induction false} LineOfStripped(lines: seq<string>, inBlock: bool, i: nat)
    requires i < |lines|
    ensures |StripLines(lines, inBlock).lines| == |lines|
    ensures StripLines(lines, inBlock).lines[i] == Strip(lines[i], StripLines(lines[..i], inBlock).inBlock).text
  {
    StripKeepsLineCount(lines, inBlock);
    var n := |lines| - 1;
    StripKeepsLineCount(lines[..n], inBlock);
    if i < n {
      LineOfStripped(lines[..n], inBlock, i);
      assert lines[..n][..i] == lines[..i];
    }
  }

  /** A second pass changes nothing if and only if no line, from the flag it starts with, has two kept characters
      that make a comment marker and only closed block comments between them. */
  lemma IdempotentIff(lines: seq<string>)
    ensures var once := StripLines(lines, false).lines;
      StripLines(once, false).lines == once <==>
      forall i | 0 <= i < |lines| :: !Rejoins(lines[i], StripLines(lines[..i], false).inBlock)
  {
    var once := StripLines(lines, false).lines;
    StripKeepsLineCount(lines, false);
    UnchangedIffNoMarker(once);
    forall i | 0 <= i < |lines|
      ensures HasMarker(once[i]) <==> Rejoins(lines[i], StripLines(lines[..i], false).inBlock)
    {
      LineOfStripped(lines, false, i);
      MarkerIffRejoined(lines[i], StripLines(lines[..i], false).inBlock);
    }
  }

  /** Stripping is not idempotent: removing a block comment can join two dashes into a line comment. */
  lemma NotIdempotent()
    ensures StripLines(["-/**/-x"], false).lines == ["--x"]
    ensures StripLines(["--x"], false).lines == [""]
  {
    FirstLine("-/**/-x", false);
    FirstLine("--x", false);
    assert "-/**/-x"[1..] == "/**/-x" && "/**/-x"[2..] == "*/-x" && "*/-x"[2..] == "-x" && "-x"[1..] == "x"
           && "x"[1..] == "";
    assert Strip("x", false).text == "x";
    assert Strip("-x", false).text == "-x";
    assert Strip("*/-x", true).text == "-x";
    assert Strip("/**/-x", false).text == "-x";
    assert Strip("-/**/-x", false).text == "--x";
  }
}
