/** Printing an environment template, and when reading it back returns what was printed. */
module EnvPrinting {
  import opened EnvParser
  import opened Options
  import opened Text

  // How a value is written.
  datatype Style = Bare | SingleQuoted | DoubleQuoted

  // The key, the spaces before the `=`, and, after `export `, the spaces before the key.
  datatype Name = Name(exported: Option<string>, key: string, before: string)

  datatype Item =
    | Blank(space: string)
    | Comment(indent: string, text: string)
    | Assign(indent: string, name: Name, after: string, style: Style, value: string, pad: string, comment: string)

  /** The quote a style puts round the value. */
  function Mark(style: Style): string {
    match style
    case Bare => ""
    case SingleQuoted => "'"
    case DoubleQuoted => "\""
  }

  function Written(style: Style, value: string): string { Mark(style) + (value + Mark(style)) }

  function Lead(exported: Option<string>): string {
    match exported
    case None => ""
    case Some(gap) => "export " + gap
  }

  function Label(name: Name): string { name.key + name.before }

  function Head(name: Name): string { Lead(name.exported) + (Label(name) + ['=']) }

  function Rest(style: Style, value: string, pad: string, comment: string): string {
    Written(style, value) + (pad + comment)
  }

  function Print(item: Item): string {
    match item
    case Blank(space) => space
    case Comment(indent, text) => indent + (['#'] + text)
    case Assign(indent, name, after, style, value, pad, comment) =>
      indent + (Head(name) + (after + Rest(style, value, pad, comment)))
  }

  predicate LaidBehind(pad: string, comment: string) { AllSpace(pad) && (comment == "" || comment[0] == '#') }

  predicate LaidName(name: Name) {
    AllSpace(name.before) && (name.exported.Some? ==> AllSpace(name.exported.value))
  }

  /** The layout round a setting: spaces, and a trailing comment. */
  predicate Laid(item: Item) {
    match item
    case Blank(space) => AllSpace(space)
    case Comment(indent, text) => AllSpace(indent)
    case Assign(indent, name, after, _, _, pad, comment) =>
      AllSpace(indent) && LaidName(name) && AllSpace(after) && LaidBehind(pad, comment)
  }

  predicate GoodName(name: Name) {
    && Clean(name.key) && '=' !in name.key
    && (name.exported.Some? || (name.key[0] != '#' && !StartsWith(Label(name), "export ")))
  }

  /** The quote the scan thinks is open when it meets the value. */
  function Inside(style: Style): Option<char> {
    match style
    case Bare => None
    case SingleQuoted => Some('\'')
    case DoubleQuoted => Some('"')
  }

  /** No `#` of the value falls where the scan thinks no quote is open, and before a trailing comment it thinks the
      same quote is open as before the value. A bare value also has no space and no pair of quotes at its ends. */
  predicate GoodValue(style: Style, value: string, comment: string) {
    && CutAt(value, Inside(style)) == |value|
    && (comment == "" || QuoteAfter(Inside(style), value) == Inside(style))
    && (style.Bare? ==> (value == "" || Clean(value)) && Unquote(value) == value)
  }

  predicate Good(item: Item) {
    item.Assign? ==> GoodName(item.name) && GoodValue(item.style, item.value, item.comment)
  }

  // -- How far the scan gets -----------------------------------------------------------------------------------

  predicate NoQuotes(s: string) { forall i | 0 <= i < |s| :: !IsQuote(s[i]) }

  lemma {:induction false} CutConcat(a: string, b: string, quote: Option<char>)
    ensures CutAt(a + b, quote) ==
            if CutAt(a, quote) < |a| then CutAt(a, quote) else |a| + CutAt(b, QuoteAfter(quote, a))
  {
    if a == "" {
      assert a + b == b;
    } else {
      assert (a + b)[1..] == a[1..] + b;
      CutConcat(a[1..], b, Quote(quote, a[0]));
    }
  }

  lemma CutOff(s: string, kept: string)
    requires CutAt(s, None) == |kept| && kept <= s
    ensures WithoutComment(s) == TrimRight(kept)
  {
    assert s[..|kept|] == kept;
  }

  /** A prefix the scan passes through is not cut. */
  lemma CutWithin(s: string, m: nat)
    requires m <= CutAt(s, None)
    ensures CutAt(s[..m], None) == m
  {
    assert s == s[..m] + s[m..];
    CutConcat(s[..m], s[m..], None);
  }

  lemma {:induction false} NoQuotesKeep(s: string, quote: Option<char>)
    requires NoQuotes(s)
    ensures QuoteAfter(quote, s) == quote
    ensures quote != None || '#' !in s ==> CutAt(s, quote) == |s|
  {
    if s != "" { NoQuotesKeep(s[1..], quote); }
  }

  lemma MarkCut(style: Style, quote: Option<char>)
    ensures var m := Mark(style);
      && CutAt(m, quote) == |m| && QuoteAfter(None, m) == Inside(style)
      && (QuoteAfter(quote, m) == None <==> quote == Inside(style))
  {
    assert Mark(style) != "" ==> Mark(style)[1..] == "";
  }

  /** How far the scan gets in a written value with something behind it. */
  lemma CutWritten(style: Style, value: string, rest: string)
    ensures var k := CutAt(value, Inside(style)); var m := Mark(style);
      CutAt(Written(style, value) + rest, None) ==
      if k < |value| then |m| + k
      else |Written(style, value)| + CutAt(rest, QuoteAfter(QuoteAfter(Inside(style), value), m))
  {
    var m, open := Mark(style), QuoteAfter(Inside(style), value);
    assert Written(style, value) + rest == m + (value + (m + rest));
    MarkCut(style, None);
    MarkCut(style, open);
    CutConcat(m, value + (m + rest), None);
    CutConcat(value, m + rest, Inside(style));
    CutConcat(m, rest, open);
  }

  /** Spaces end where a comment begins; with a quote open the scan passes the comment's `#`. */
  lemma CutBehind(pad: string, comment: string, open: Option<char>)
    requires LaidBehind(pad, comment) && comment != ""
    ensures if open == None then CutAt(pad + comment, open) == |pad| else CutAt(pad + comment, open) > |pad|
  {
    CutConcat(pad, comment, open);
    NoQuotesKeep(pad, open);
  }

  // -- The line ------------------------------------------------------------------------------------------------

  lemma {:induction false} TrimRightStops(a: string, b: string)
    requires a != "" && !IsSpace(a[|a| - 1])
    ensures TrimRight(a + b) == a + TrimRight(b)
    decreases |b|
  {
    if b == "" {
      assert a + b == a;
    } else {
      var n := |b| - 1;
      assert (a + b)[..|a| + n] == a + b[..n] && (a + b)[|a| + n] == b[n];
      if IsSpace(b[n]) { TrimRightStops(a, b[..n]); }
    }
  }

  /** The trimmed line of a setting whose key is trimmed. */
  lemma TrimmedLine(indent: string, head: string, rest: string)
    requires AllSpace(indent) && Clean(head)
    ensures Trim(indent + (head + rest)) == head + TrimRight(rest)
  {
    TrimLeftPadding(indent, head + rest);
    TrimRightStops(head, rest);
  }

  lemma IndexOfSplit(key: string, rest: string)
    requires '=' !in key
    ensures '=' in key + (['='] + rest) && IndexOf(key + (['='] + rest), '=') == |key|
  {
    var s := key + (['='] + rest);
    assert s[|key|] == '=';
    assert forall i | 0 <= i < |key| :: s[i] == key[i];
  }

  lemma AssignmentOf(key: string, rest: string)
    requires '=' !in key
    ensures ParseAssignment(key + (['='] + rest)) ==
            if Trim(key) == "" then None else Some(Setting(Trim(key), ValueOf(rest)))
  {
    var s := key + (['='] + rest);
    IndexOfSplit(key, rest);
    assert s[..|key|] == key && s[|key| + 1..] == rest;
  }

  lemma StartsWithKey(prefix: string, key: string, rest: string)
    requires '=' !in prefix
    ensures StartsWith(key + (['='] + rest), prefix) <==> StartsWith(key, prefix)
  {
    var s := key + (['='] + rest);
    assert s[|key|] == '=';
    assert s[..|key|] == key;
  }

  lemma LabelHasNoEquals(name: Name)
    requires LaidName(name) && '=' !in name.key
    ensures '=' !in Label(name)
  {
    assert forall i | 0 <= i < |name.before| :: IsSpace(name.before[i]);
  }

  lemma LabelReads(name: Name, tail: string)
    requires LaidName(name) && Clean(name.key) && '=' !in name.key
    ensures ParseAssignment(Label(name) + (['='] + tail)) == Some(Setting(name.key, ValueOf(tail)))
  {
    LabelHasNoEquals(name);
    TrimIgnoresSpace("", name.key, name.before);
    assert "" + Label(name) == Label(name);
    TrimClean(name.key);
    AssignmentOf(Label(name), tail);
  }

  lemma ExportParts(rest: string)
    ensures var line := "export " + rest;
      StartsWith(line, "export ") && line[7..] == rest && line[0] == 'e'
  {
  }

  lemma ExportLine(line: string, setting: string)
    requires StartsWith(line, "export ") && line[0] == 'e' && TrimLeft(line[7..]) == setting
    ensures ReadLine(line) == ParseAssignment(setting)
  {
  }

  lemma GapDropped(gap: string, setting: string)
    requires AllSpace(gap) && setting != "" && !IsSpace(setting[0])
    ensures TrimLeft(gap + setting) == setting
  {
    TrimLeftPadding(gap, setting);
  }

  lemma ReadExported(name: Name, gap: string, tail: string)
    requires name.exported == Some(gap) && LaidName(name) && Clean(name.key) && '=' !in name.key
    ensures ReadLine(Head(name) + tail) == Some(Setting(name.key, ValueOf(tail)))
  {
    var setting := Label(name) + (['='] + tail);
    assert setting[0] == name.key[0];
    assert Head(name) + tail == "export " + (gap + setting);
    ExportParts(gap + setting);
    GapDropped(gap, setting);
    ExportLine("export " + (gap + setting), setting);
    LabelReads(name, tail);
  }

  /** What is taken for an export is read under a shorter key, if at all. */
  lemma ExportKey(name: Name, tail: string)
    requires LaidName(name) && '=' !in name.key && Clean(name.key) && StartsWith(Label(name), "export ")
    ensures var read := ParseAssignment(AfterExport(Label(name) + (['='] + tail)));
      read == None || |read.value.key| < |name.key|
  {
    var left := Label(name)[7..];
    LabelHasNoEquals(name);
    assert (Label(name) + (['='] + tail))[7..] == left + (['='] + tail);
    StartsWithKey("export ", Label(name), tail);
    TrimLeftHead(left, ['='] + tail);
    assert '=' !in TrimLeft(left);
    AssignmentOf(TrimLeft(left), tail);
    ShorterKey(name);
  }

  lemma ShorterKey(name: Name)
    requires LaidName(name) && Clean(name.key) && StartsWith(Label(name), "export ")
    ensures |Trim(TrimLeft(Label(name)[7..]))| < |name.key|
  {
    var left := Label(name)[7..];
    var key := if |name.key| >= 7 then name.key[7..] else "";
    var space := if |name.key| >= 7 then name.before else left;
    assert |name.key| < 7 ==> left == name.before[7 - |name.key|..];
    assert left == "" + (key + space);
    TrimIgnoresSpace("", key, space);
    assert TrimLeft(TrimLeft(left)) == TrimLeft(left);
  }

  lemma ReadPlain(name: Name, tail: string)
    requires name.exported == None && LaidName(name) && Clean(name.key) && '=' !in name.key
    ensures var read := ReadLine(Head(name) + tail);
      if name.key[0] == '#' then read == None
      else if StartsWith(Label(name), "export ") then read == None || |read.value.key| < |name.key|
      else read == Some(Setting(name.key, ValueOf(tail)))
  {
    assert Head(name) + tail == Label(name) + (['='] + tail);
    assert (Head(name) + tail)[0] == name.key[0];
    StartsWithKey("export ", Label(name), tail);
    if StartsWith(Label(name), "export ") { ExportKey(name, tail); } else { LabelReads(name, tail); }
  }

  /** Reading the line of a setting without `=` in its trimmed key. */
  lemma LineOf(item: Item)
    requires item.Assign? && Laid(item) && Clean(item.name.key) && '=' !in item.name.key
    ensures var read, name := ParseLine(Print(item)), item.name;
      var setting := Setting(name.key, Unquote(Read(item.style, item.value, item.pad, item.comment)));
      if name.exported.Some? then read == Some(setting)
      else if name.key[0] == '#' then read == None
      else if StartsWith(Label(name), "export ") then read == None || |read.value.key| < |name.key|
      else read == Some(setting)
  {
    var head, rest := Head(item.name), Rest(item.style, item.value, item.pad, item.comment);
    HeadClean(item.name);
    TrimmedLine(item.indent, head, item.after + rest);
    TrimAfterTrimRight(item.after, rest);
    TrimAfterTrimRight("", rest);
    assert "" + rest == rest;
    if item.name.exported.Some? {
      ReadExported(item.name, item.name.exported.value, TrimRight(item.after + rest));
    } else {
      ReadPlain(item.name, TrimRight(item.after + rest));
    }
  }

  lemma HeadClean(name: Name)
    requires Clean(name.key)
    ensures Clean(Head(name))
  {
    assert Head(name)[0] == (if name.exported.Some? then 'e' else name.key[0]);
    assert Head(name)[|Head(name)| - 1] == '=';
  }

  // -- What is read, as a stretch of what is written -----------------------------------------------------------

  /** What is read from the text behind the `=`, before unquoting. */
  function ReadFrom(rest: string): string { WithoutComment(Trim(TrimRight(rest))) }

  function Read(style: Style, value: string, pad: string, comment: string): string {
    ReadFrom(Rest(style, value, pad, comment))
  }

  lemma {:induction false} TrimLeftDrops(s: string)
    ensures AllSpace(s[..|s| - |TrimLeft(s)|])
  {
    if s != "" && IsSpace(s[0]) {
      TrimLeftDrops(s[1..]);
      var n := |s[1..]| - |TrimLeft(s[1..])|;
      assert s[..1 + n] == [s[0]] + s[1..][..n];
    }
  }

  lemma PrefixOfPrefix(rest: string, y: string, n: nat, t: string)
    requires y <= rest && n <= |y| && t <= y[n..]
    ensures n + |t| <= |rest| && rest[..n + |t|] == rest[..n] + t && rest[..n] == y[..n]
  {
    assert rest[..n + |t|] == y[..n + |t|] == y[..n] + t;
  }

  lemma ReadIsPrefix(y: string)
    ensures WithoutComment(Trim(y)) <= TrimLeft(y)
  {
    var s := Trim(y);
    assert s[..CutAt(s, None)] <= s;
  }

  lemma TrimLeftIsSuffix(y: string) returns (n: nat)
    ensures n <= |y| && y[n..] == TrimLeft(y) && AllSpace(y[..n])
  {
    n := |y| - |TrimLeft(y)|;
    TrimLeftDrops(y);
  }

  /** It is a stretch of the written text with nothing but spaces before it. */
  lemma ReadIsStretch(rest: string) returns (n: nat)
    ensures var t := ReadFrom(rest);
      n + |t| <= |rest| && rest[..n + |t|] == rest[..n] + t && AllSpace(rest[..n])
  {
    var y := TrimRight(rest);
    n := TrimLeftIsSuffix(y);
    ReadIsPrefix(y);
    PrefixOfPrefix(rest, y, n, ReadFrom(rest));
  }

  lemma NoneInSpace(s: string, c: char)
    requires AllSpace(s) && !IsSpace(c)
    ensures multiset(s)[c] == 0
  {
    assert c !in s;
  }

  lemma CountInPrefix(s: string, n: nat, c: char)
    requires n <= |s|
    ensures multiset(s[..n])[c] <= multiset(s)[c]
  {
    assert s == s[..n] + s[n..];
  }

  /** The stretch does not hold the value and a quote on either side: the spaces have no quotes, and the comment
      has a `#` more than the value. */
  lemma StretchInSpaces(value: string, pad: string, m: nat, t: string, q: char)
    requires AllSpace(pad) && IsQuote(q) && m <= |value| + |pad|
    requires multiset(t)[q] <= multiset((value + pad)[..m])[q]
    ensures t != [q] + (value + [q])
  {
    CountInPrefix(value + pad, m, q);
    NoneInSpace(pad, q);
  }

  lemma StretchInComment(value: string, pad: string, stretch: string, space: string, t: string, q: char)
    requires value + (pad + ['#']) <= stretch && stretch == space + t && AllSpace(space) && IsQuote(q)
    ensures t != [q] + (value + [q])
  {
    CountInPrefix(stretch, |value| + |pad| + 1, '#');
    assert stretch[..|value| + |pad| + 1] == value + (pad + ['#']);
    NoneInSpace(space, '#');
  }

  lemma NoLongerStretch(value: string, pad: string, comment: string, rest: string, n: nat, t: string, q: char)
    requires LaidBehind(pad, comment) && IsQuote(q) && rest == value + (pad + comment)
    requires n + |t| <= |rest| && rest[..n + |t|] == rest[..n] + t && AllSpace(rest[..n])
    ensures t != [q] + (value + [q])
  {
    var m := n + |t|;
    if m <= |value| + |pad| {
      assert rest[..m] == (value + pad)[..m];
      StretchInSpaces(value, pad, m, t, q);
    } else {
      assert rest[..m][|value| + |pad|] == comment[0];
      assert value + (pad + ['#']) == rest[..m][..|value| + |pad| + 1];
      StretchInComment(value, pad, rest[..m], rest[..n], t, q);
    }
  }

  lemma UnquotedIs(t: string, value: string)
    requires Unquote(t) == value && t != value
    ensures t != "" && IsQuote(t[0]) && t == [t[0]] + (value + [t[0]])
  {
  }

  lemma NotUnquoted(value: string, pad: string, comment: string, rest: string, n: nat, t: string)
    requires LaidBehind(pad, comment) && rest == value + (pad + comment) && Unquote(t) == value
    requires n + |t| <= |rest| && rest[..n + |t|] == rest[..n] + t && AllSpace(rest[..n])
    ensures t == value
  {
    if t != value {
      UnquotedIs(t, value);
      NoLongerStretch(value, pad, comment, rest, n, t, t[0]);
    }
  }

  /** A bare value is read from itself or not at all. */
  lemma BareReadIsBare(value: string, pad: string, comment: string, rest: string)
    requires LaidBehind(pad, comment) && rest == value + (pad + comment) && Unquote(ReadFrom(rest)) == value
    ensures ReadFrom(rest) == value
  {
    var n := ReadIsStretch(rest);
    NotUnquoted(value, pad, comment, rest, n, ReadFrom(rest));
  }

  lemma BareRest(value: string, pad: string, comment: string)
    ensures Rest(Bare, value, pad, comment) == value + (pad + comment)
  {
    assert "" + (value + "") == value;
  }

  // -- When the value comes back -------------------------------------------------------------------------------

  /** What stands behind the written value once the line is trimmed. */
  function Behind(pad: string, comment: string): string {
    if comment == "" then "" else pad + TrimRight(comment)
  }

  lemma WrittenClean(style: Style, value: string)
    requires style.Bare? ==> Clean(value)
    ensures Clean(Written(style, value))
  {
    var w := Written(style, value);
    if style.Bare? { assert w == value; } else { assert w[0] == w[|w| - 1] == Mark(style)[0]; }
  }

  lemma PadTrimmed(w: string, pad: string)
    requires Clean(w) && AllSpace(pad)
    ensures TrimRight(w + pad) == w && Trim(w) == w
  {
    TrimRightPadding(w, pad);
    TrimClean(w);
  }

  lemma CommentTrimmed(w: string, pad: string, comment: string)
    requires Clean(w) && comment != "" && comment[0] == '#'
    ensures TrimRight(w + (pad + comment)) == w + (pad + TrimRight(comment))
    ensures Clean(w + (pad + TrimRight(comment)))
  {
    var c := TrimRight(comment);
    TrimRightTail(w + pad, comment);
    assert (w + pad) + comment == w + (pad + comment) && (w + pad) + c == w + (pad + c);
    var s := w + (pad + c);
    assert s[0] == w[0] && s[|s| - 1] == c[|c| - 1];
  }

  lemma RestTrimmed(w: string, pad: string, comment: string)
    requires Clean(w) && LaidBehind(pad, comment)
    ensures TrimRight(w + (pad + comment)) == w + Behind(pad, comment)
    ensures Trim(w + Behind(pad, comment)) == w + Behind(pad, comment)
  {
    if comment == "" {
      assert pad + comment == pad && w + Behind(pad, comment) == w;
      PadTrimmed(w, pad);
    } else {
      CommentTrimmed(w, pad, comment);
      TrimClean(w + Behind(pad, comment));
    }
  }

  lemma ReadOf(style: Style, value: string, pad: string, comment: string)
    requires LaidBehind(pad, comment) && (style.Bare? ==> Clean(value))
    ensures Read(style, value, pad, comment) == WithoutComment(Written(style, value) + Behind(pad, comment))
  {
    WrittenClean(style, value);
    RestTrimmed(Written(style, value), pad, comment);
  }

  lemma BehindLaid(pad: string, comment: string)
    requires LaidBehind(pad, comment) && comment != ""
    ensures LaidBehind(pad, TrimRight(comment)) && TrimRight(comment) != ""
  {
    TrimRightTail("", comment);
  }

  lemma CutAfterWritten(w: string, pad: string, rest: string)
    requires Clean(w) && AllSpace(pad) && CutAt(w + (pad + rest), None) == |w| + |pad|
    ensures WithoutComment(w + (pad + rest)) == w
  {
    assert (w + (pad + rest))[..|w| + |pad|] == w + pad;
    CutOff(w + (pad + rest), w + pad);
    PadTrimmed(w, pad);
  }

  /** With a good value that is not empty the comment and the spaces before it go, and nothing else. */
  lemma GoodValueKept(style: Style, value: string, pad: string, comment: string)
    requires LaidBehind(pad, comment) && GoodValue(style, value, comment) && (style.Bare? ==> Clean(value))
    ensures WithoutComment(Written(style, value) + Behind(pad, comment)) == Written(style, value)
  {
    var w := Written(style, value);
    WrittenClean(style, value);
    CutWritten(style, value, Behind(pad, comment));
    if comment == "" {
      assert "" + "" == "" && CutAt("", QuoteAfter(QuoteAfter(Inside(style), value), Mark(style))) == 0;
      CutAfterWritten(w, "", "");
    } else {
      MarkCut(style, Inside(style));
      BehindLaid(pad, comment);
      CutBehind(pad, TrimRight(comment), None);
      CutAfterWritten(w, pad, TrimRight(comment));
    }
  }

  lemma UnquoteInQuotes(q: char, value: string, w: string)
    requires IsQuote(q) && w == [q] + (value + [q])
    ensures Unquote(w) == value
  {
    assert w[0] == q && w[|w| - 1] == q && w[1..|w| - 1] == value;
  }

  lemma UnquoteWritten(style: Style, value: string)
    requires style.Bare? ==> Unquote(value) == value
    ensures Unquote(Written(style, value)) == value
  {
    if style.Bare? {
      assert Written(style, value) == value;
    } else {
      UnquoteInQuotes(Mark(style)[0], value, Written(style, value));
    }
  }

  lemma SpaceReadsEmpty(pad: string)
    requires AllSpace(pad)
    ensures ReadFrom(pad) == ""
  {
    assert "" + pad == pad;
    TrimRightPadding("", pad);
  }

  lemma TrimmedTwice(s: string, c: string)
    requires TrimLeft(s) == TrimLeft(c) && Clean(c)
    ensures Trim(s) == c
  {
    TrimClean(c);
  }

  lemma HashCut(c: string)
    requires c != "" && c[0] == '#'
    ensures WithoutComment(c) == ""
  {
    CutOff(c, "");
  }

  lemma CommentRead(rest: string, c: string)
    requires Trim(TrimRight(rest)) == c && c != "" && c[0] == '#'
    ensures ReadFrom(rest) == ""
  {
    HashCut(c);
  }

  lemma HashTrimmed(pad: string, comment: string) returns (c: string)
    requires comment != "" && comment[0] == '#'
    ensures Clean(c) && c[0] == '#' && TrimRight(pad + comment) == pad + c
  {
    c := TrimRight(comment);
    TrimRightTail(pad, comment);
  }

  lemma PadDropped(pad: string, c: string)
    requires AllSpace(pad) && Clean(c)
    ensures Trim(pad + c) == c
  {
    TrimLeftPadding(pad, c);
    TrimmedTwice(pad + c, c);
  }

  lemma CommentReadsEmpty(pad: string, comment: string, rest: string)
    requires LaidBehind(pad, comment) && comment != "" && rest == pad + comment
    ensures ReadFrom(rest) == ""
  {
    var c := HashTrimmed(pad, comment);
    PadDropped(pad, c);
    CommentRead(rest, c);
  }

  /** An empty bare value is read as one, whatever follows. */
  lemma EmptyReadsBack(pad: string, comment: string)
    requires LaidBehind(pad, comment)
    ensures Read(Bare, "", pad, comment) == ""
  {
    BareRest("", pad, comment);
    assert "" + (pad + comment) == pad + comment;
    if comment == "" {
      assert pad + comment == pad;
      SpaceReadsEmpty(pad);
    } else {
      CommentReadsEmpty(pad, comment, pad + comment);
    }
  }

  lemma ValueReadsBack(style: Style, value: string, pad: string, comment: string)
    requires LaidBehind(pad, comment) && GoodValue(style, value, comment)
    ensures Unquote(Read(style, value, pad, comment)) == value
  {
    if style.Bare? && value == "" {
      EmptyReadsBack(pad, comment);
    } else {
      ReadOf(style, value, pad, comment);
      GoodValueKept(style, value, pad, comment);
      UnquoteWritten(style, value);
    }
  }

  lemma {:induction false} ShiftedIsConstant(v: string, q: char, i: nat)
    requires i < |v| && v == [q] + v[..|v| - 1]
    ensures v[i] == q
  {
    if i > 0 { ShiftedIsConstant(v, q, i - 1); }
  }

  /** A value cut at one of its own `#` never reads back as itself. */
  lemma CutLosesValue(style: Style, value: string, k: nat)
    requires k < |value| && value[k] == '#'
    ensures Unquote(TrimRight(Mark(style) + value[..k])) != value
  {
    var t := TrimRight(Mark(style) + value[..k]);
    assert |t| <= |Mark(style)| + k;
    if Unquote(t) == value {
      assert Unquote(t) == t && |t| == |value| == k + 1;
      assert t == Mark(style) + value[..k];
      ShiftedIsConstant(value, Mark(style)[0], k);
    }
  }

  lemma WrittenPrefix(style: Style, value: string, rest: string, k: nat)
    requires k <= |value|
    ensures var m := Mark(style); var s := Written(style, value) + rest;
      |m| + k <= |s| && s[..|m| + k] == m + value[..k]
  {
    var m := Mark(style);
    assert (m + (value + m)) + rest == m + (value + (m + rest));
  }

  lemma CutValueIsLost(style: Style, value: string, rest: string)
    requires CutAt(value, Inside(style)) < |value|
    ensures Unquote(WithoutComment(Written(style, value) + rest)) != value
  {
    var k := CutAt(value, Inside(style));
    CutWritten(style, value, rest);
    WrittenPrefix(style, value, rest, k);
    CutOff(Written(style, value) + rest, Mark(style) + value[..k]);
    CutLosesValue(style, value, k);
  }

  lemma {:induction false} TrimRightKeeps(s: string, i: nat)
    requires i < |s| && !IsSpace(s[i])
    ensures |TrimRight(s)| > i
  {
    if IsSpace(s[|s| - 1]) { TrimRightKeeps(s[..|s| - 1], i); }
  }

  /** When the scan still thinks a quote is open behind the value, the comment's first `#` is kept. */
  lemma CommentKept(style: Style, value: string, pad: string, comment: string)
    requires LaidBehind(pad, comment) && comment != ""
    requires CutAt(value, Inside(style)) == |value| && QuoteAfter(Inside(style), value) != Inside(style)
    ensures |WithoutComment(Written(style, value) + (pad + comment))| > |Written(style, value)|
  {
    var w, rest, open := Written(style, value), pad + comment, QuoteAfter(Inside(style), value);
    CutWritten(style, value, rest);
    MarkCut(style, open);
    CutBehind(pad, comment, QuoteAfter(open, Mark(style)));
    assert (w + rest)[|w| + |pad|] == '#';
    TrimRightKeeps((w + rest)[..CutAt(w + rest, None)], |w| + |pad|);
  }

  lemma CleanPrefix(s: string, value: string)
    requires (s == "" || Clean(s)) && value <= s && (value == "" || !IsSpace(value[|value| - 1]))
    ensures value == "" || Clean(value)
  {
    if value != "" { assert value[0] == s[0]; }
  }

  lemma KeptUncut(s: string)
    ensures var t := WithoutComment(s);
      t <= s && CutAt(t, None) == |t| && (t == "" || !IsSpace(t[|t| - 1]))
  {
    var t := WithoutComment(s);
    assert t <= s[..CutAt(s, None)];
    assert s[..|t|] == t;
    CutWithin(s, |t|);
  }

  /** What reads back without unquoting is trimmed and not cut. */
  lemma ReadIsGood(rest: string, value: string)
    requires ReadFrom(rest) == value
    ensures (value == "" || Clean(value)) && CutAt(value, None) == |value|
  {
    TrimIsClean(TrimRight(rest));
    KeptUncut(Trim(TrimRight(rest)));
    CleanPrefix(Trim(TrimRight(rest)), value);
  }

  lemma BareReadIsGood(value: string, pad: string, comment: string)
    requires LaidBehind(pad, comment) && Unquote(Read(Bare, value, pad, comment)) == value
    ensures Read(Bare, value, pad, comment) == value
    ensures (value == "" || Clean(value)) && Unquote(value) == value && CutAt(value, None) == |value|
  {
    BareRest(value, pad, comment);
    BareReadIsBare(value, pad, comment, value + (pad + comment));
    ReadIsGood(value + (pad + comment), value);
  }

  lemma CommentIsKept(style: Style, value: string, pad: string, comment: string)
    requires LaidBehind(pad, comment) && comment != "" && (style.Bare? ==> Clean(value))
    requires CutAt(value, Inside(style)) == |value| && QuoteAfter(Inside(style), value) != Inside(style)
    ensures |Read(style, value, pad, comment)| > |Written(style, value)|
  {
    ReadOf(style, value, pad, comment);
    BehindLaid(pad, comment);
    CommentKept(style, value, pad, TrimRight(comment));
  }

  lemma QuotedReadIsGood(style: Style, value: string, pad: string, comment: string)
    requires LaidBehind(pad, comment) && !style.Bare? && Unquote(Read(style, value, pad, comment)) == value
    ensures GoodValue(style, value, comment)
  {
    ReadOf(style, value, pad, comment);
    if CutAt(value, Inside(style)) < |value| {
      CutValueIsLost(style, value, Behind(pad, comment));
    } else if comment != "" && QuoteAfter(Inside(style), value) != Inside(style) {
      CommentIsKept(style, value, pad, comment);
    }
  }

  lemma BadValueIsLost(style: Style, value: string, pad: string, comment: string)
    requires LaidBehind(pad, comment) && Unquote(Read(style, value, pad, comment)) == value
    ensures GoodValue(style, value, comment)
  {
    if !style.Bare? {
      QuotedReadIsGood(style, value, pad, comment);
    } else {
      BareReadIsGood(value, pad, comment);
      if value != "" && comment != "" && QuoteAfter(None, value) != None {
        CommentIsKept(Bare, value, pad, comment);
      }
    }
  }

  /** A printed setting reads back as itself exactly when its key and value are good. */
  lemma ReadsBackIffGood(item: Item)
    requires item.Assign? && Laid(item)
    ensures ParseLine(Print(item)) == Some(Setting(item.name.key, item.value)) <==> Good(item)
  {
    var read := ParseLine(Print(item));
    ParsedKeys(Print(item));
    if Clean(item.name.key) && '=' !in item.name.key {
      LineOf(item);
      if GoodValue(item.style, item.value, item.comment) {
        ValueReadsBack(item.style, item.value, item.pad, item.comment);
      } else if Unquote(Read(item.style, item.value, item.pad, item.comment)) == item.value {
        BadValueIsLost(item.style, item.value, item.pad, item.comment);
      }
    }
  }

  /** Blank and comment lines read as nothing. */
  lemma OtherLines(item: Item)
    requires !item.Assign? && Laid(item)
    ensures ParseLine(Print(item)) == None
  {
    match item
    case Blank(space) =>
      TrimLeftPadding(space, "");
      assert space + "" == space;
    case Comment(indent, text) =>
      TrimLeftPadding(indent, ['#'] + text);
      TrimRightTail("", ['#'] + text);
      assert "" + (['#'] + text) == ['#'] + text;
  }

  // -- Every setting read is one printed -----------------------------------------------------------------------

  lemma TrimSplit(s: string) returns (before: string, after: string)
    ensures s == before + (Trim(s) + after) && AllSpace(before) && AllSpace(after)
  {
    var n := TrimLeftIsSuffix(s);
    before := s[..n];
    assert s == before + s[n..];
    after := TrimRightSplit(TrimLeft(s));
  }

  lemma LabelSplit(named: string) returns (before: string)
    requires named != "" && !IsSpace(named[0])
    ensures named == Trim(named) + before && AllSpace(before)
  {
    before := TrimRightSplit(named);
  }

  lemma CutTwice(line: string, prefix: string, n: nat)
    requires prefix <= line && n <= |line| - |prefix|
    ensures var rest := line[|prefix|..]; line == (prefix + rest[..n]) + rest[n..]
  {
  }

  lemma ExportSplit(line: string) returns (exported: Option<string>)
    ensures line == Lead(exported) + AfterExport(line) && (exported.Some? ==> AllSpace(exported.value))
  {
    exported := None;
    if StartsWith(line, "export ") {
      var n := TrimLeftIsSuffix(line[7..]);
      exported := Some(line[7..][..n]);
      CutTwice(line, "export ", n);
    }
  }

  lemma SplitAtEquals(body: string) returns (named: string, rest: string)
    requires '=' in body
    ensures body == named + (['='] + rest) && '=' !in named
  {
    var at := IndexOf(body, '=');
    named, rest := body[..at], body[at + 1..];
  }

  lemma AtEquals(body: string) returns (named: string, rest: string)
    requires ParseAssignment(body).Some?
    ensures body == named + (['='] + rest) && Trim(named) != ""
    ensures ParseAssignment(body) == Some(Setting(Trim(named), ValueOf(rest)))
  {
    named, rest := SplitAtEquals(body);
    AssignmentOf(named, rest);
  }

  lemma StartOf(named: string, rest: string)
    requires Trim(named) != ""
    ensures named != "" && (named + rest)[0] == named[0]
  {
    if named == "" { TrimClean(named); }
  }

  lemma BodySplit(body: string) returns (key: string, before: string, rest: string)
    requires ParseAssignment(body).Some? && !IsSpace(body[0])
    ensures body == (key + before) + (['='] + rest) && AllSpace(before)
    ensures ParseAssignment(body) == Some(Setting(key, ValueOf(rest)))
  {
    var named;
    named, rest := AtEquals(body);
    StartOf(named, ['='] + rest);
    before := LabelSplit(named);
    key := Trim(named);
  }

  lemma BodyStarts(line: string)
    requires ReadLine(line).Some? && Clean(line)
    ensures AfterExport(line) != "" && !IsSpace(AfterExport(line)[0])
    ensures ReadLine(line) == ParseAssignment(AfterExport(line))
  {
  }

  lemma HeadIs(name: Name, rest: string)
    ensures Head(name) + rest == Lead(name.exported) + (Label(name) + (['='] + rest))
  {
    assert (Label(name) + ['=']) + rest == Label(name) + (['='] + rest);
  }

  /** The name of a setting, split off its trimmed line. */
  lemma NameSplit(line: string) returns (name: Name, rest: string)
    requires ReadLine(line).Some? && Clean(line)
    ensures LaidName(name) && line == Head(name) + rest
    ensures ReadLine(line) == Some(Setting(name.key, ValueOf(rest)))
  {
    BodyStarts(line);
    var exported := ExportSplit(line);
    var key, before, tail := BodySplit(AfterExport(line));
    name, rest := Name(exported, key, before), tail;
    HeadIs(name, rest);
  }

  lemma StyleOf(t: string) returns (style: Style)
    ensures t == Written(style, Unquote(t))
  {
    if Unquote(t) == t {
      style := Bare;
    } else {
      UnquotedIs(t, Unquote(t));
      style := if t[0] == '"' then DoubleQuoted else SingleQuoted;
    }
  }

  /** The value of a setting and what stands behind it, split off the text behind the `=`. */
  lemma ValueSplit(s: string) returns (pad: string, comment: string)
    ensures s == WithoutComment(s) + (pad + comment) && LaidBehind(pad, comment)
  {
    var kept := s[..CutAt(s, None)];
    pad := TrimRightSplit(kept);
    comment := s[CutAt(s, None)..];
    assert s == kept + comment;
  }

  /** Spaces behind the line belong to its comment, or without one to the spaces before it. */
  lemma BehindSplit(pad0: string, comment0: string, behind: string) returns (pad: string, comment: string)
    requires LaidBehind(pad0, comment0) && AllSpace(behind)
    ensures LaidBehind(pad, comment) && (pad0 + comment0) + behind == pad + comment
  {
    if comment0 == "" {
      pad, comment := pad0 + behind, "";
    } else {
      pad, comment := pad0, comment0 + behind;
    }
  }

  lemma Regroup(lead: string, t: string, laid: string, space: string, trail: string)
    ensures (lead + ((t + laid) + space)) + trail == lead + (t + (laid + (space + trail)))
  {
    assert ((t + laid) + space) + trail == t + (laid + (space + trail));
    assert (lead + ((t + laid) + space)) + trail == lead + (((t + laid) + space) + trail);
  }

  lemma TailSplit(rest: string, trail: string)
    returns (after: string, style: Style, value: string, pad: string, comment: string)
    requires AllSpace(trail)
    ensures AllSpace(after) && LaidBehind(pad, comment) && value == ValueOf(rest)
    ensures rest + trail == after + Rest(style, value, pad, comment)
  {
    var space, pad0, comment0;
    after, space := TrimSplit(rest);
    var s := Trim(rest);
    value := ValueOf(rest);
    style := StyleOf(WithoutComment(s));
    pad0, comment0 := ValueSplit(s);
    pad, comment := BehindSplit(pad0, comment0, space + trail);
    Regroup(after, WithoutComment(s), pad0 + comment0, space, trail);
  }

  lemma LineSplit(indent: string, head: string, rest: string, trail: string)
    ensures indent + ((head + rest) + trail) == indent + (head + (rest + trail))
  {
    assert (head + rest) + trail == head + (rest + trail);
  }

  /** A line yields a setting only if it is the printing of a good item with that setting. */
  lemma EverySettingIsPrinted(raw: string) returns (item: Item)
    requires ParseLine(raw).Some?
    ensures item.Assign? && Laid(item) && Good(item) && Print(item) == raw
    ensures ParseLine(raw) == Some(Setting(item.name.key, item.value))
  {
    var indent, trail := TrimSplit(raw);
    TrimIsClean(raw);
    var name, rest := NameSplit(Trim(raw));
    var after, style, value, pad, comment := TailSplit(rest, trail);
    item := Assign(indent, name, after, style, value, pad, comment);
    LineSplit(indent, Head(name), rest, trail);
    ReadsBackIffGood(item);
  }

  // -- Whole templates -----------------------------------------------------------------------------------------

  function PrintLines(items: seq<Item>): seq<string> { seq(|items|, i requires 0 <= i < |items| => Print(items[i])) }

  /** The setting a line should hold. */
  function Wanted(item: Item): Option<Setting> {
    if item.Assign? then Some(Setting(item.name.key, item.value)) else None
  }

  function WantedEach(items: seq<Item>): seq<Option<Setting>> {
    seq(|items|, i requires 0 <= i < |items| => Wanted(items[i]))
  }

  lemma {:induction false} NumbersBounded(parsed: seq<Option<Setting>>)
    ensures forall e | e in Number(parsed) :: e.lineNumber <= |parsed|
  {
    if parsed != [] { NumbersBounded(parsed[..|parsed| - 1]); }
  }

  lemma LastEntry(before: seq<EnvEntry>, x: Option<Setting>, others: seq<EnvEntry>, y: Option<Setting>, n: nat)
    requires forall e | e in before :: e.lineNumber < n
    requires forall e | e in others :: e.lineNumber < n
    requires before + Entries(x, n) == others + Entries(y, n)
    ensures before == others && x == y
  {
    assert before + [] == before && others + [] == others;
    var all := before + Entries(x, n);
    var xs, ys := Entries(x, n), Entries(y, n);
    assert x.Some? ==> all[|all| - 1] == xs[0] && all[..|all| - 1] == before;
    assert y.Some? ==> all[|all| - 1] == ys[0] && all[..|all| - 1] == others;
  }

  /** The numbered settings tell what every line held. */
  lemma {:induction false} NumberInjective(a: seq<Option<Setting>>, b: seq<Option<Setting>>)
    requires |a| == |b| && Number(a) == Number(b)
    ensures a == b
  {
    if a != [] {
      var n := |a| - 1;
      NumbersBounded(a[..n]);
      NumbersBounded(b[..n]);
      LastEntry(Number(a[..n]), a[n], Number(b[..n]), b[n], n + 1);
      NumberInjective(a[..n], b[..n]);
      assert a == a[..n] + [a[n]] && b == b[..n] + [b[n]];
    }
  }

  /** A line reads back as what it should hold exactly when its item is good. */
  lemma ItemReadsBackIffGood(item: Item)
    requires Laid(item)
    ensures ParseLine(Print(item)) == Wanted(item) <==> Good(item)
  {
    if item.Assign? { ReadsBackIffGood(item); } else { OtherLines(item); }
  }

  function GoodEach(items: seq<Item>): seq<bool> {
    seq(|items|, i requires 0 <= i < |items| => Good(items[i]))
  }

  lemma EachReadsBackIffGood(items: seq<Item>, i: nat)
    requires i < |items| && Laid(items[i])
    ensures ParseEach(PrintLines(items))[i] == WantedEach(items)[i] <==> GoodEach(items)[i]
  {
    ItemReadsBackIffGood(items[i]);
  }

  lemma EqualIffPointwise<T>(a: seq<T>, b: seq<T>, same: seq<bool>)
    requires |a| == |b| == |same| && forall i | 0 <= i < |a| :: a[i] == b[i] <==> same[i]
    ensures a == b <==> forall i | 0 <= i < |a| :: same[i]
  {
  }

  /** Printing a template, with any breaks after its lines, and reading it returns every setting in order with its
      line number exactly when every setting has a good key and a good value. */
  lemma TemplateReadsBackIffGood(items: seq<Item>, breaks: seq<string>)
    requires (forall item | item in items :: Laid(item)) && Broken(PrintLines(items), breaks)
    ensures Number(ParseEach(SplitLines(Joined(PrintLines(items), breaks)))) == Number(WantedEach(items)) <==>
            forall i | 0 <= i < |items| :: GoodEach(items)[i]
  {
    SplitsJoined(PrintLines(items), breaks);
    forall i | 0 <= i < |items|
      ensures ParseEach(PrintLines(items))[i] == WantedEach(items)[i] <==> GoodEach(items)[i]
    {
      EachReadsBackIffGood(items, i);
    }
    NumbersEqualIffPointwise(ParseEach(PrintLines(items)), WantedEach(items), GoodEach(items));
  }

  lemma NumbersEqualIffPointwise(read: seq<Option<Setting>>, wanted: seq<Option<Setting>>, good: seq<bool>)
    requires |read| == |wanted| == |good| && forall i | 0 <= i < |read| :: read[i] == wanted[i] <==> good[i]
    ensures Number(read) == Number(wanted) <==> forall i | 0 <= i < |read| :: good[i]
  {
    EqualIffPointwise(read, wanted, good);
    if Number(read) == Number(wanted) { NumberInjective(read, wanted); }
  }

  // -- The condition on values, by counting quotes ---------------------------------------------------------

  /** The quote characters of a text, in order. */
  function Quotes(s: string): string {
    if s == "" then ""
    else Quotes(s[..|s| - 1]) + if IsQuote(s[|s| - 1]) then [s[|s| - 1]] else ""
  }

  /** How many equal characters it ends with. */
  function TrailingRun(q: string): nat {
    if |q| <= 1 then |q| else if q[|q| - 1] == q[|q| - 2] then 1 + TrailingRun(q[..|q| - 1]) else 1
  }

  function OddEnd(q: string): Option<char> {
    if TrailingRun(q) % 2 == 1 then Some(q[|q| - 1]) else None
  }

  /** The quote left open: the last one, when it ends an odd run of its own kind. */
  function OpenQuote(s: string): Option<char> { OddEnd(Quotes(s)) }

  lemma {:induction false} QuoteAfterNext(quote: Option<char>, s: string, c: char)
    ensures QuoteAfter(quote, s + [c]) == Quote(QuoteAfter(quote, s), c)
    decreases |s|
  {
    if s == "" {
      assert "" + [c] == [c] && [c][1..] == "";
    } else {
      assert (s + [c])[1..] == s[1..] + [c];
      QuoteAfterNext(Quote(quote, s[0]), s[1..], c);
    }
  }

  lemma RunNext(q: string, c: char)
    ensures OddEnd(q + [c]) == if OddEnd(q) == Some(c) then None else Some(c)
  {
    var longer := q + [c];
    assert longer[..|q|] == q && longer[|q|] == c;
    if q != "" { assert longer[|q| - 1] == q[|q| - 1]; }
  }

  lemma QuotesNext(s: string, c: char)
    ensures Quotes(s + [c]) == if IsQuote(c) then Quotes(s) + [c] else Quotes(s)
  {
    assert (s + [c])[..|s|] == s;
    assert Quotes(s) + "" == Quotes(s);
  }

  lemma {:induction false} OpenByParity(s: string)
    ensures QuoteAfter(None, s) == OpenQuote(s)
    decreases |s|
  {
    if s != "" {
      var init, c := s[..|s| - 1], s[|s| - 1];
      OpenByParity(init);
      OpenByParityNext(init, c);
      assert s == init + [c];
    }
  }

  lemma OpenByParityNext(init: string, c: char)
    requires QuoteAfter(None, init) == OpenQuote(init)
    ensures QuoteAfter(None, init + [c]) == OpenQuote(init + [c])
  {
    QuoteAfterNext(None, init, c);
    QuotesNext(init, c);
    if IsQuote(c) { RunNext(Quotes(init), c); }
  }

  lemma {:induction false} UncutIff(s: string, quote: Option<char>)
    ensures CutAt(s, quote) == |s| <==> forall k | 0 <= k < |s| && s[k] == '#' :: QuoteAfter(quote, s[..k]) != None
    decreases |s|
  {
    if s != "" {
      var next := Quote(quote, s[0]);
      UncutIff(s[1..], next);
      assert s[..0] == "";
      forall k | 1 <= k < |s|
        ensures s[k] == s[1..][k - 1] && QuoteAfter(quote, s[..k]) == QuoteAfter(next, s[1..][..k - 1])
      {
        assert s[..k][1..] == s[1..][..k - 1];
      }
      if CutAt(s[1..], next) == |s[1..]| {
        forall k | 1 <= k < |s| && s[k] == '#' ensures QuoteAfter(quote, s[..k]) != None {
          assert s[1..][k - 1] == '#';
        }
      } else {
        var k :| 0 <= k < |s[1..]| && s[1..][k] == '#' && QuoteAfter(next, s[1..][..k]) == None;
        assert s[k + 1] == '#';
      }
    }
  }

  lemma OpenAfterMark(style: Style, s: string)
    ensures QuoteAfter(Inside(style), s) == OpenQuote(Mark(style) + s)
  {
    OpenByParity(Mark(style) + s);
    if style.Bare? { assert Mark(style) + s == s; } else { assert (Mark(style) + s)[1..] == s; }
  }

  /** A value is good exactly when, counting from the opening quote if there is one, every `#` in it follows an odd
      run of one kind of quote, and, if a comment follows, the count leaves the opening quote open as it was; a bare
      value also stands without spaces or a pair of quotes round it. */
  lemma GoodValueByParity(style: Style, value: string, comment: string)
    ensures GoodValue(style, value, comment) <==>
            && (forall k | 0 <= k < |value| && value[k] == '#' :: OpenQuote(Mark(style) + value[..k]).Some?)
            && (comment == "" || OpenQuote(Mark(style) + value) == Inside(style))
            && (style.Bare? ==> (value == "" || Clean(value)) && Unquote(value) == value)
  {
    UncutIff(value, Inside(style));
    OpenAfterMark(style, value);
    forall k | 0 <= k < |value|
      ensures QuoteAfter(Inside(style), value[..k]) == OpenQuote(Mark(style) + value[..k])
    {
      OpenAfterMark(style, value[..k]);
    }
  }

  /** Values without quotes are good in quotes whatever comment follows, and bare when trimmed and without `#`. */
  lemma QuoteFreeValuesAreGood(style: Style, value: string, comment: string)
    requires NoQuotes(value)
    requires style.Bare? ==> '#' !in value && (value == "" || Clean(value))
    ensures GoodValue(style, value, comment)
  {
    NoQuotesKeep(value, Inside(style));
  }

  /** An apostrophe is enough to make a trailing comment part of a value in double quotes. */
  lemma ApostropheKeepsComment()
    ensures GoodValue(DoubleQuoted, "it's", "") && !GoodValue(DoubleQuoted, "it's", "# note")
  {
    assert "it's"[1..] == "t's" && "t's"[1..] == "'s" && "'s"[1..] == "s" && "s"[1..] == "";
    assert CutAt("s", Some('\'')) == 1 && QuoteAfter(Some('\''), "s") == Some('\'');
    assert CutAt("'s", Some('"')) == 2 && QuoteAfter(Some('"'), "'s") == Some('\'');
    assert CutAt("t's", Some('"')) == 3 && QuoteAfter(Some('"'), "t's") == Some('\'');
  }
}
