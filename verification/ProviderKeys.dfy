/** The host key under which a base URL's provider row is filed. */
module ProviderKeys {
  import opened Text

  function RemoveAll(s: string, pattern: string): string
    requires pattern != ""
    decreases |s|
  {
    if s == "" then ""
    else if StartsWith(s, pattern) then RemoveAll(s[|pattern|..], pattern)
    else [s[0]] + RemoveAll(s[1..], pattern)
  }

  function DropTrailing(s: string, c: char): string {
    if s != "" && s[|s| - 1] == c then DropTrailing(s[..|s| - 1], c) else s
  }

  function Before(s: string, c: char): string {
    if s == "" || s[0] == c then "" else [s[0]] + Before(s[1..], c)
  }

  function HostFromUrl(url: string): string {
    Before(DropTrailing(RemoveAll(RemoveAll(url, "https://"), "http://"), '/'), '/')
  }

  // A host, possibly with a port, that is no scheme itself.
  predicate Plain(host: string) { '/' !in host && !EndsWith(host, "http:") && !EndsWith(host, "https:") }

  lemma Mismatch(s: string, pattern: string, k: nat)
    requires k < |pattern| && (k < |s| ==> s[k] != pattern[k])
    ensures !StartsWith(s, pattern)
  {
  }

  /** Text in which the pattern starts nowhere is left alone. */
  lemma {:induction false} RemoveAllSkips(front: string, rest: string, pattern: string)
    requires pattern != "" && forall i | 0 <= i < |front| :: !StartsWith((front + rest)[i..], pattern)
    ensures RemoveAll(front + rest, pattern) == front + RemoveAll(rest, pattern)
  {
    if front == "" {
      assert front + rest == rest;
    } else {
      var s := front + rest;
      assert s[0..] == s && s[1..] == front[1..] + rest;
      forall i | 0 <= i < |front[1..]|
        ensures !StartsWith((front[1..] + rest)[i..], pattern)
      {
        assert (front[1..] + rest)[i..] == s[i + 1..];
      }
      RemoveAllSkips(front[1..], rest, pattern);
    }
  }

  lemma NoSchemeInHost(host: string, rest: string, pattern: string, i: nat)
    requires Plain(host) && (rest == "" || rest[0] == '/') && i < |host|
    requires pattern == "https://" || pattern == "http://"
    ensures !StartsWith((host + rest)[i..], pattern)
  {
    var s, slash := (host + rest)[i..], |pattern| - 2;
    if i + slash < |host| {
      assert s[slash] == host[i + slash];
      Mismatch(s, pattern, slash);
    } else if i + slash == |host| {
      assert pattern[..slash] == if pattern == "http://" then "http:" else "https:";
      assert host[i..] == s[..slash] && host[|host| - slash..] != pattern[..slash];
    } else {
      var k := |host| - i;
      assert k < |s| ==> s[k] == rest[0];
      Mismatch(s, pattern, k);
    }
  }

  lemma RemoveAllKeepsHost(host: string, rest: string, pattern: string)
    requires Plain(host) && (rest == "" || rest[0] == '/')
    requires pattern == "https://" || pattern == "http://"
    ensures RemoveAll(host + rest, pattern) == host + RemoveAll(rest, pattern)
    ensures RemoveAll(rest, pattern) == "" || RemoveAll(rest, pattern)[0] == '/'
  {
    forall i | 0 <= i < |host|
      ensures !StartsWith((host + rest)[i..], pattern)
    {
      NoSchemeInHost(host, rest, pattern, i);
    }
    RemoveAllSkips(host, rest, pattern);
  }

  lemma {:induction false} DropTrailingKeepsHost(host: string, rest: string)
    requires '/' !in host && (rest == "" || rest[0] == '/')
    ensures exists kept :: (kept == "" || kept[0] == '/') && DropTrailing(host + rest, '/') == host + kept
    decreases |rest|
  {
    if rest == "" {
      assert host + rest == host && host + "" == host;
      assert host != "" ==> host[|host| - 1] in host;
    } else if rest[|rest| - 1] == '/' {
      assert (host + rest)[..|host + rest| - 1] == host + rest[..|rest| - 1];
      DropTrailingKeepsHost(host, rest[..|rest| - 1]);
    } else {
      assert (host + rest)[|host + rest| - 1] == rest[|rest| - 1];
    }
  }

  lemma {:induction false} BeforeSlash(host: string, kept: string)
    requires '/' !in host && (kept == "" || kept[0] == '/')
    ensures Before(host + kept, '/') == host
  {
    if host == "" {
      assert host + kept == kept;
    } else {
      assert (host + kept)[1..] == host[1..] + kept;
      BeforeSlash(host[1..], kept);
    }
  }

  lemma SchemeSurvives(tail: string)
    ensures RemoveAll("http://" + tail, "https://") == "http://" + RemoveAll(tail, "https://")
  {
    var s, p := "http://" + tail, "https://";
    forall i | 0 <= i < |"http://"|
      ensures !StartsWith(s[i..], p)
    {
      if i == 0 { assert s[0..][4] == ':'; Mismatch(s[0..], p, 4); }
      else { assert s[i..][0] == "http://"[i]; Mismatch(s[i..], p, 0); }
    }
    RemoveAllSkips("http://", tail, p);
  }

  /** The two replacements leave the host and something that is empty or starts with a slash. */
  lemma SchemesRemoved(scheme: string, host: string, rest: string) returns (tail: string)
    requires scheme in {"", "http://", "https://"} && Plain(host) && (rest == "" || rest[0] == '/')
    ensures RemoveAll(RemoveAll(scheme + (host + rest), "https://"), "http://") == host + tail
    ensures tail == "" || tail[0] == '/'
  {
    RemoveAllKeepsHost(host, rest, "https://");
    var r1 := RemoveAll(rest, "https://");
    RemoveAllKeepsHost(host, r1, "http://");
    tail := RemoveAll(r1, "http://");
    if scheme == "http://" {
      SchemeSurvives(host + rest);
      assert ("http://" + (host + r1))[7..] == host + r1;
    } else if scheme == "https://" {
      assert ("https://" + (host + rest))[8..] == host + rest;
    } else {
      assert "" + (host + rest) == host + rest;
    }
  }

  /** A URL's provider key is its host, whatever the scheme, path or trailing slashes. */
  lemma HostOfUrl(scheme: string, host: string, rest: string)
    requires scheme in {"", "http://", "https://"} && Plain(host) && (rest == "" || rest[0] == '/')
    ensures HostFromUrl(scheme + (host + rest)) == host
  {
    var tail := SchemesRemoved(scheme, host, rest);
    DropTrailingKeepsHost(host, tail);
    var kept :| (kept == "" || kept[0] == '/') && DropTrailing(host + tail, '/') == host + kept;
    BeforeSlash(host, kept);
  }
}
