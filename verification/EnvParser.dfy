/** Reading an environment template: comment stripping, line parsing, and the bookkeeping of duplicates. */
module EnvParser {
  import opened Options
  import opened Positions
  import opened Text

  predicate IsQuote(c: char) { c == '\'' || c == '"' }

  // -- Cutting the trailing comment ------------------------------------------------------------------------

  /** Any quote character either closes the open quote of its own kind or becomes the open quote. */
  function Quote(quote: Option<char>, c: char): Option<char> {
    if !IsQuote(c) then quote else if quote == Some(c) then None else Some(c)
  }

  function QuoteAfter(quote: Option<char>, s: string): Option<char>
    decreases |s|
  {
    if s == "" then quote else QuoteAfter(Quote(quote, s[0]), s[1..])
  }

  /** Where the comment begins: the first `#` outside quotes, or the end. */
  function CutAt(s: string, quote: Option<char>): (k: nat)
    ensures k <= |s| && (k < |s| ==> s[k] == '#')
  {
    if s == "" || (s[0] == '#' && quote == None) then 0 else 1 + CutAt(s[1..], Quote(quote, s[0]))
  }

  function WithoutComment(s: string): string { TrimRight(s[..CutAt(s, None)]) }

  method StripInlineComment(value: string) returns (r: string)
    ensures r == WithoutComment(value)
  {
    var quote: Option<char> := None;
    for index := 0 to |value|
      invariant CutAt(value, None) == index + CutAt(value[index..], quote)
    {
      var c := value[index];
      assert value[index..][1..] == value[index + 1..];
      if IsQuote(c) {
        quote := if quote == Some(c) then None else Some(c);
      } else if c == '#' && quote == None {
        return TrimRight(value[..index]);
      }
    }
    assert value[..|value|] == value;
    return TrimRight(value);
  }

  function Unquote(s: string): string {
    if |s| >= 2 && s[0] == s[|s| - 1] && IsQuote(s[0]) then s[1..|s| - 1] else s
  }

  // -- Parsing ---------------------------------------------------------------------------------------------

  function IndexOf(s: string, c: char): (k: nat)
    requires c in s
    ensures k < |s| && s[k] == c && forall j | 0 <= j < k :: s[j] != c
  {
    if s[0] == c then 0 else 1 + IndexOf(s[1..], c)
  }

  function ValueOf(rest: string): string { Unquote(WithoutComment(Trim(rest))) }

  datatype Setting = Setting(key: string, value: string)

  function ParseAssignment(body: string): Option<Setting> {
    if '=' !in body then None
    else
      var at := IndexOf(body, '=');
      var key := Trim(body[..at]);
      if key == "" then None else Some(Setting(key, ValueOf(body[at + 1..])))
  }

  function AfterExport(line: string): string {
    if StartsWith(line, "export ") then TrimLeft(line[7..]) else line
  }

  function ReadLine(line: string): Option<Setting> {
    if line == "" || line[0] == '#' then None else ParseAssignment(AfterExport(line))
  }

  function ParseLine(raw: string): Option<Setting> {
    ReadLine(Trim(raw))
  }

  datatype EnvEntry = EnvEntry(key: string, value: string, lineNumber: nat)

  function Entries(parsed: Option<Setting>, lineNumber: nat): seq<EnvEntry> {
    match parsed
    case None => []
    case Some(setting) => [EnvEntry(setting.key, setting.value, lineNumber)]
  }

  /** What each line holds, numbered from 1, lines without a setting skipped. */
  function Number(parsed: seq<Option<Setting>>): seq<EnvEntry> {
    if parsed == [] then []
    else Number(parsed[..|parsed| - 1]) + Entries(parsed[|parsed| - 1], |parsed|)
  }

  function ParseEach(lines: seq<string>): seq<Option<Setting>> {
    seq(|lines|, i requires 0 <= i < |lines| => ParseLine(lines[i]))
  }

  // The characters at which str.splitlines() breaks.
  predicate IsBreak(c: char) {
    c == '\n' || c == '\r' || 11 <= c as int <= 12 || 28 <= c as int <= 30 || c as int == 0x85
    || 0x2028 <= c as int <= 0x2029
  }

  /** One by one: line feed, vertical tab, form feed, carriage return, the file, group and record separators, next line,
      line separator and paragraph separator. */
  lemma BreakCharacters(c: char)
    ensures IsBreak(c) <==> c as int in {10, 11, 12, 13, 28, 29, 30, 0x85, 0x2028, 0x2029}
  {
  }

  function LineLength(text: string): (k: nat)
    ensures k <= |text| && (k < |text| ==> IsBreak(text[k]))
  {
    if text == "" || IsBreak(text[0]) then 0 else 1 + LineLength(text[1..])
  }

  function SplitLines(text: string): seq<string> {
    if text == "" then []
    else
      var k := LineLength(text);
      if k == |text| then [text]
      else if StartsWith(text[k..], "\r\n") then [text[..k]] + SplitLines(text[k + 2..])
      else [text[..k]] + SplitLines(text[k + 1..])
  }

  // -- Lines and their breaks ------------------------------------------------------------------------------

  predicate NoBreaks(s: string) { forall i | 0 <= i < |s| :: !IsBreak(s[i]) }

  /** Each line followed by its break. */
  function Joined(lines: seq<string>, breaks: seq<string>): string
    requires |lines| == |breaks|
  {
    if lines == [] then "" else lines[0] + (breaks[0] + Joined(lines[1..], breaks[1..]))
  }

  /** Lines and breaks as str.splitlines() understands them: a break is one break character or the pair CR LF, no
      CR is followed by an LF that begins another break, and only a last line that is not empty may lack one. */
  predicate Broken(lines: seq<string>, breaks: seq<string>) {
    && |lines| == |breaks|
    && (lines != [] ==>
          && NoBreaks(lines[0]) && Broken(lines[1..], breaks[1..])
          && (breaks[0] == "" ==> |lines| == 1 && lines[0] != "")
          && (breaks[0] == "" || breaks[0] == "\r\n" || (|breaks[0]| == 1 && IsBreak(breaks[0][0])))
          && (breaks[0] == "\r" ==> !StartsWith(Joined(lines[1..], breaks[1..]), "\n")))
  }

  lemma {:induction false} LineLengthAt(line: string, rest: string)
    requires NoBreaks(line) && (rest == "" || IsBreak(rest[0]))
    ensures LineLength(line + rest) == |line|
  {
    if line == "" {
      assert line + rest == rest;
    } else {
      assert (line + rest)[1..] == line[1..] + rest;
      LineLengthAt(line[1..], rest);
    }
  }

  lemma NextBreak(brk: string, rest: string)
    requires brk == "\r\n" || (|brk| == 1 && IsBreak(brk[0]) && (brk == "\r" ==> !StartsWith(rest, "\n")))
    ensures (brk + rest)[0] == brk[0] && IsBreak(brk[0]) && (brk + rest)[|brk|..] == rest
    ensures StartsWith(brk + rest, "\r\n") <==> brk == "\r\n"
  {
    if |brk| == 1 && rest != "" { assert (brk + rest)[1] == rest[0]; }
  }

  lemma SplitFirst(line: string, brk: string, rest: string)
    requires NoBreaks(line)
    requires brk == "\r\n" || (|brk| == 1 && IsBreak(brk[0]) && (brk == "\r" ==> !StartsWith(rest, "\n")))
    ensures SplitLines(line + (brk + rest)) == [line] + SplitLines(rest)
  {
    var text := line + (brk + rest);
    NextBreak(brk, rest);
    LineLengthAt(line, brk + rest);
    assert text[|line|..] == brk + rest && text[..|line|] == line;
    assert text[|line| + |brk|..] == rest;
  }

  /** Splitting undoes joining, whatever breaks end the lines. */
  lemma {:induction false} SplitsJoined(lines: seq<string>, breaks: seq<string>)
    requires Broken(lines, breaks)
    ensures SplitLines(Joined(lines, breaks)) == lines
  {
    if lines != [] {
      SplitsJoined(lines[1..], breaks[1..]);
      var rest := Joined(lines[1..], breaks[1..]);
      if breaks[0] == "" {
        assert lines[1..] == [] && lines[0] + (breaks[0] + rest) == lines[0];
        LineLengthAt(lines[0], "");
        assert lines[0] + "" == lines[0];
        assert lines == [lines[0]];
      } else {
        SplitFirst(lines[0], breaks[0], rest);
        assert lines == [lines[0]] + lines[1..];
      }
    }
  }

  /** The breaks splitting removes. */
  ghost function BreaksOf(text: string): (breaks: seq<string>)
    ensures |breaks| == |SplitLines(text)|
  {
    if text == "" then []
    else
      var k := LineLength(text);
      if k == |text| then [""]
      else if StartsWith(text[k..], "\r\n") then ["\r\n"] + BreaksOf(text[k + 2..])
      else [[text[k]]] + BreaksOf(text[k + 1..])
  }

  lemma {:induction false} LineIsFree(text: string)
    ensures NoBreaks(text[..LineLength(text)])
  {
    if text != "" && !IsBreak(text[0]) {
      LineIsFree(text[1..]);
      var k := LineLength(text[1..]);
      assert text[..1 + k] == [text[0]] + text[1..][..k];
    }
  }

  lemma JoinedFirst(line: string, brk: string, lines: seq<string>, breaks: seq<string>)
    requires |lines| == |breaks|
    ensures Joined([line] + lines, [brk] + breaks) == line + (brk + Joined(lines, breaks))
  {
    assert ([line] + lines)[1..] == lines && ([brk] + breaks)[1..] == breaks;
  }

  lemma BrokenFirst(line: string, brk: string, lines: seq<string>, breaks: seq<string>)
    requires Broken(lines, breaks) && NoBreaks(line)
    requires brk == "\r\n" || (|brk| == 1 && IsBreak(brk[0]))
    requires brk == "\r" ==> !StartsWith(Joined(lines, breaks), "\n")
    ensures Broken([line] + lines, [brk] + breaks)
  {
    assert ([line] + lines)[1..] == lines && ([brk] + breaks)[1..] == breaks;
  }

  /** Every text is its lines, free of breaks, with those breaks after them. */
  lemma {:induction false} SplitMeaning(text: string)
    ensures Broken(SplitLines(text), BreaksOf(text)) && Joined(SplitLines(text), BreaksOf(text)) == text
    decreases |text|
  {
    if text != "" {
      var k := LineLength(text);
      LineIsFree(text);
      if k == |text| {
        assert text[..k] == text && [text][1..] == [] && [""][1..] == [];
        assert text + ("" + "") == text;
      } else {
        var brk := if StartsWith(text[k..], "\r\n") then "\r\n" else [text[k]];
        var rest := text[k + |brk|..];
        assert text[k..] == brk + rest;
        assert text == text[..k] + (brk + rest);
        SplitMeaning(rest);
        JoinedFirst(text[..k], brk, SplitLines(rest), BreaksOf(rest));
        BrokenFirst(text[..k], brk, SplitLines(rest), BreaksOf(rest));
      }
    }
  }

  method ReadAssignment(line: string) returns (parsed: Option<Setting>)
    ensures parsed == ParseAssignment(line)
  {
    if '=' !in line {
      return None;
    }
    var at := IndexOf(line, '=');
    var key, rawValue := Trim(line[..at]), line[at + 1..];
    var text := StripInlineComment(Trim(rawValue));
    parsed := if key == "" then None else Some(Setting(key, Unquote(text)));
  }

  method ParseRawLine(rawLine: string) returns (parsed: Option<Setting>)
    ensures parsed == ParseLine(rawLine)
  {
    var line := Trim(rawLine);
    if line == "" || line[0] == '#' {
      return None;
    }
    if StartsWith(line, "export ") {
      line := TrimLeft(line[7..]);
    }
    parsed := ReadAssignment(line);
  }

  lemma NumberNext(parsed: seq<Option<Setting>>, i: nat)
    requires i < |parsed|
    ensures Number(parsed[..i + 1]) == Number(parsed[..i]) + Entries(parsed[i], i + 1)
  {
    assert parsed[..i + 1][..i] == parsed[..i];
  }

  lemma ParseEachAt(lines: seq<string>, i: nat)
    requires i < |lines|
    ensures |ParseEach(lines)| == |lines| && ParseEach(lines)[i] == ParseLine(lines[i])
  {
  }

  method AppendSetting(entries: seq<EnvEntry>, rawLine: string, lineNumber: nat) returns (after: seq<EnvEntry>)
    ensures after == entries + Entries(ParseLine(rawLine), lineNumber)
  {
    after := entries;
    var parsed := ParseRawLine(rawLine);
    if parsed.Some? {
      after := after + [EnvEntry(parsed.value.key, parsed.value.value, lineNumber)];
    }
  }

  method ParseEnvTemplate(text: string) returns (entries: seq<EnvEntry>)
    ensures entries == Number(ParseEach(SplitLines(text)))
  {
    entries := [];
    var lines := SplitLines(text);
    ghost var each := ParseEach(lines);
    for i := 0 to |lines|
      invariant |each| == |lines| && each == ParseEach(lines)
      invariant entries == Number(each[..i])
    {
      NumberNext(each, i);
      ParseEachAt(lines, i);
      entries := AppendSetting(entries, lines[i], i + 1);
    }
    assert each[..|lines|] == each;
  }

  ghost function Holds(parsed: seq<Option<Setting>>): nat -> bool {
    (i: nat) => i < |parsed| && parsed[i].Some?
  }

  lemma {:induction false} NumberUpTo(parsed: seq<Option<Setting>>, n: nat)
    requires n <= |parsed|
    ensures var at, entries := Where(Holds(parsed), n), Number(parsed[..n]);
      && |entries| == |at|
      && forall i | 0 <= i < |at| :: at[i] < n && parsed[at[i]].Some? && entries[i] ==
           EnvEntry(parsed[at[i]].value.key, parsed[at[i]].value.value, at[i] + 1)
  {
    if n > 0 {
      NumberUpTo(parsed, n - 1);
      NumberNext(parsed, n - 1);
      WhereMeaning(Holds(parsed), n);
    } else {
      assert parsed[..0] == [];
    }
  }

  /** The entries are, in order, the settings of the lines that hold one, each with its line's number from 1. */
  lemma NumberMeaning(parsed: seq<Option<Setting>>)
    ensures var at, entries := Where(Holds(parsed), |parsed|), Number(parsed);
      && |entries| == |at|
      && forall i | 0 <= i < |at| :: at[i] < |parsed| && parsed[at[i]].Some? && entries[i] ==
           EnvEntry(parsed[at[i]].value.key, parsed[at[i]].value.value, at[i] + 1)
  {
    NumberUpTo(parsed, |parsed|);
    assert parsed[..|parsed|] == parsed;
  }

  /** Every key that comes out is trimmed, not empty and free of `=`. */
  lemma ParsedKeys(raw: string)
    ensures ParseLine(raw).Some? ==> Clean(ParseLine(raw).value.key) && '=' !in ParseLine(raw).value.key
  {
    if ParseLine(raw).Some? {
      var body := AfterExport(Trim(raw));
      var before := body[..IndexOf(body, '=')];
      TrimIsClean(before);
      assert forall c | c in Trim(before) :: c in TrimLeft(before);
      assert forall c | c in TrimLeft(before) :: c in before;
    }
  }

  // -- First definitions and duplicates ----------------------------------------------------------------------

  function EntriesFor(entries: seq<EnvEntry>, key: string): seq<EnvEntry> {
    if entries == [] then []
    else
      var init, last := entries[..|entries| - 1], entries[|entries| - 1];
      if last.key == key then EntriesFor(init, key) + [last] else EntriesFor(init, key)
  }

  ghost function Defines(entries: seq<EnvEntry>, key: string): nat -> bool {
    (i: nat) => i < |entries| && entries[i].key == key
  }

  lemma {:induction false} EntriesUpTo(entries: seq<EnvEntry>, key: string, n: nat)
    requires n <= |entries|
    ensures var at := Where(Defines(entries, key), n);
      Below(at, |entries|) && EntriesFor(entries[..n], key) == Pick(entries, at)
  {
    if n > 0 {
      EntriesUpTo(entries, key, n - 1);
      assert entries[..n][..n - 1] == entries[..n - 1] && entries[..n][n - 1] == entries[n - 1];
      if entries[n - 1].key == key { PickNext(entries, Where(Defines(entries, key), n - 1), n - 1); }
    } else {
      assert entries[..0] == [];
    }
  }

  /** The definitions of a key are the entries with that key, in the order they stand in. */
  lemma DefinitionsMeaning(entries: seq<EnvEntry>, key: string)
    ensures var at := Where(Defines(entries, key), |entries|);
      Below(at, |entries|) && EntriesFor(entries, key) == Pick(entries, at)
  {
    EntriesUpTo(entries, key, |entries|);
    assert entries[..|entries|] == entries;
  }

  /** The first definition of every key, and for every key defined more than once all its definitions in order. */
  method FindDuplicates(entries: seq<EnvEntry>)
    returns (valuesByKey: map<string, EnvEntry>, duplicates: map<string, seq<EnvEntry>>)
    ensures forall key ::
      && (key in valuesByKey <==> EntriesFor(entries, key) != [])
      && (key in valuesByKey ==> valuesByKey[key] == EntriesFor(entries, key)[0])
    ensures forall key ::
      && (key in duplicates <==> |EntriesFor(entries, key)| >= 2)
      && (key in duplicates ==> duplicates[key] == EntriesFor(entries, key))
  {
    valuesByKey, duplicates := map[], map[];
    for i := 0 to |entries|
      invariant forall key ::
        && (key in valuesByKey <==> EntriesFor(entries[..i], key) != [])
        && (key in valuesByKey ==> valuesByKey[key] == EntriesFor(entries[..i], key)[0])
      invariant forall key ::
        && (key in duplicates <==> |EntriesFor(entries[..i], key)| >= 2)
        && (key in duplicates ==> duplicates[key] == EntriesFor(entries[..i], key))
    {
      var entry := entries[i];
      assert entries[..i + 1][..i] == entries[..i];
      ghost var was := EntriesFor(entries[..i], entry.key);
      if entry.key in valuesByKey {
        if entry.key !in duplicates {
          assert was == [was[0]];
          duplicates := duplicates[entry.key := [valuesByKey[entry.key]]];
        }
        duplicates := duplicates[entry.key := duplicates[entry.key] + [entry]];
      } else {
        valuesByKey := valuesByKey[entry.key := entry];
      }
    }
    assert entries[..|entries|] == entries;
  }
}
