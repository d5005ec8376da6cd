/** The string operations several scripts share. */
module Text {
  // The characters str.strip() removes.
  predicate IsSpace(c: char) {
    9 <= c as int <= 13 || 28 <= c as int <= 32 || c as int == 0x85 || c as int == 0xA0 || c as int == 0x1680
    || 0x2000 <= c as int <= 0x200A || 0x2028 <= c as int <= 0x2029 || c as int == 0x202F || c as int == 0x205F
    || c as int == 0x3000
  }

  function TrimLeft(s: string): (r: string)
    ensures r == [] || !IsSpace(r[0])
    ensures |r| <= |s| && s[|s| - |r|..] == r
  {
    if s != [] && IsSpace(s[0]) then TrimLeft(s[1..]) else s
  }

  function TrimRight(s: string): (r: string)
    ensures r == [] || !IsSpace(r[|r| - 1])
    ensures r <= s
  {
    if s != [] && IsSpace(s[|s| - 1]) then TrimRight(s[..|s| - 1]) else s
  }

  function Trim(s: string): string { TrimRight(TrimLeft(s)) }

  predicate StartsWith(s: string, prefix: string) { prefix <= s }

  predicate EndsWith(s: string, suffix: string) {
    |suffix| <= |s| && s[|s| - |suffix|..] == suffix
  }

  predicate Clean(s: string) { s != "" && !IsSpace(s[0]) && !IsSpace(s[|s| - 1]) }

  /** Text with no space at either end is left alone. */
  lemma TrimClean(s: string)
    requires s == "" || Clean(s)
    ensures Trim(s) == s && TrimLeft(s) == s && TrimRight(s) == s
  {
  }

  predicate AllSpace(s: string) { forall i | 0 <= i < |s| :: IsSpace(s[i]) }

  lemma {:induction false} TrimLeftPadding(pad: string, s: string)
    requires AllSpace(pad)
    ensures TrimLeft(pad + s) == TrimLeft(s)
  {
    if pad == [] {
      assert pad + s == s;
    } else {
      assert (pad + s)[1..] == pad[1..] + s;
      TrimLeftPadding(pad[1..], s);
    }
  }

  lemma {:induction false} TrimRightPadding(s: string, pad: string)
    requires AllSpace(pad)
    ensures TrimRight(s + pad) == TrimRight(s)
  {
    if pad == [] {
      assert s + pad == s;
    } else {
      assert (s + pad)[..|s + pad| - 1] == s + pad[..|pad| - 1];
      TrimRightPadding(s, pad[..|pad| - 1]);
    }
  }

  lemma {:induction false} TrimLeftHead(a: string, b: string)
    requires b != "" && !IsSpace(b[0])
    ensures TrimLeft(a + b) == TrimLeft(a) + b
  {
    if a == "" {
      assert a + b == b;
    } else {
      assert (a + b)[1..] == a[1..] + b;
      TrimLeftHead(a[1..], b);
    }
  }

  lemma {:induction false} TrimRightTail(a: string, b: string)
    requires b != "" && !IsSpace(b[0])
    ensures TrimRight(a + b) == a + TrimRight(b)
    ensures TrimRight(b) != "" && TrimRight(b)[0] == b[0]
    decreases |b|
  {
    var n := |b| - 1;
    assert |a + b| - 1 == |a| + n && (a + b)[|a| + n] == b[n];
    if IsSpace(b[n]) {
      assert (a + b)[..|a| + n] == a + b[..n];
      TrimRightTail(a, b[..n]);
    }
  }

  lemma TrimIsClean(s: string)
    ensures Trim(s) == "" || Clean(Trim(s))
  {
    var t := TrimLeft(s);
    if t != "" {
      TrimRightTail("", t);
      assert "" + t == t;
    }
  }

  lemma {:induction false} TrimLeftThenPad(s: string, pad: string)
    requires AllSpace(pad)
    ensures TrimLeft(s + pad) == if TrimLeft(s) == "" then "" else TrimLeft(s) + pad
  {
    if s == "" {
      assert s + pad == pad && pad + "" == pad;
      TrimLeftPadding(pad, "");
    } else {
      assert (s + pad)[1..] == s[1..] + pad;
      if IsSpace(s[0]) { TrimLeftThenPad(s[1..], pad); }
    }
  }

  lemma TrimPadded(s: string, after: string)
    requires AllSpace(after)
    ensures Trim(s + after) == Trim(s)
  {
    TrimLeftThenPad(s, after);
    if TrimLeft(s) != "" { TrimRightPadding(TrimLeft(s), after); }
  }

  /** Spaces round a text do not matter to strip(). */
  lemma TrimIgnoresSpace(before: string, s: string, after: string)
    requires AllSpace(before) && AllSpace(after)
    ensures Trim(before + (s + after)) == Trim(s)
  {
    TrimLeftPadding(before, s + after);
    TrimPadded(s, after);
  }

  lemma {:induction false} TrimRightSplit(s: string) returns (dropped: string)
    ensures s == TrimRight(s) + dropped && AllSpace(dropped)
  {
    dropped := "";
    if s != "" && IsSpace(s[|s| - 1]) {
      dropped := TrimRightSplit(s[..|s| - 1]);
      dropped := dropped + [s[|s| - 1]];
    }
  }

  lemma TrimOfTrimRight(s: string)
    ensures Trim(TrimRight(s)) == Trim(s)
  {
    var dropped := TrimRightSplit(s);
    TrimPadded(TrimRight(s), dropped);
  }

  lemma TrimAfterTrimRight(before: string, s: string)
    requires AllSpace(before)
    ensures Trim(TrimRight(before + s)) == Trim(s)
  {
    TrimOfTrimRight(before + s);
    TrimLeftPadding(before, s);
  }
}
