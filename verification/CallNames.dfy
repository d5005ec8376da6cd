/** Dotted call names, and the catalogue of names that mean a network call. */
module CallNames {
  import opened Text

  /** `name.split(".", 1)[0]`. */
  function FirstSegment(name: string): string {
    if name == "" || name[0] == '.' then "" else [name[0]] + FirstSegment(name[1..])
  }

  /** `name.rsplit(".", 1)[-1]`. */
  function LastSegment(name: string): string {
    if name == "" || name[|name| - 1] == '.' then "" else LastSegment(name[..|name| - 1]) + [name[|name| - 1]]
  }

  const TRANSACTION := "transaction"
  const TENANT_TRANSACTION := "tenant_transaction"

  predicate IsTransactionName(name: string) {
    || name == TRANSACTION || EndsWith(name, "." + TRANSACTION)
    || name == TENANT_TRANSACTION || EndsWith(name, "." + TENANT_TRANSACTION)
  }

  // The five name tables of the network-call test.
  datatype Catalogue = Catalogue(
    modulePrefixes: seq<string>,
    objectMethods: seq<string>,
    functionNames: seq<string>,
    methodNames: seq<string>,
    suffixes: seq<string>)

  const MODULE_PREFIXES: seq<string> := [
    "httpx", "requests", "openai", "anthropic", "aioboto3", "boto3"
  ]

  const SUFFIXES: seq<string> := [
    ".embed", ".embed_many", ".embed_text", ".complete", ".complete_json", ".file_text", ".get_object",
    ".get_verified", ".put_if_absent", ".put_object", ".render_card", ".render_card_reasoning",
    ".render_close_line", ".render_conversation_turn", ".render_greeting", ".render_query_grid",
    ".submit_jsonl"
  ]

  const FUNCTION_NAMES: seq<string> := [
    "fetch_page_aws", "fetch_page_ashby", "fetch_page_brex", "fetch_page_carta", "fetch_page_deel",
    "fetch_page_discord", "fetch_page_figma", "fetch_page_fireflies", "fetch_page_github",
    "fetch_page_gmail", "fetch_page_google_calendar", "fetch_page_google_drive", "fetch_page_grafana",
    "fetch_page_gusto", "fetch_page_hibob", "fetch_page_jira", "fetch_page_linkedin", "fetch_page_mercury",
    "fetch_page_miro", "fetch_page_notion", "fetch_page_quickbooks", "fetch_page_ramp", "fetch_page_signal",
    "fetch_page_slack", "fetch_page_telegram", "publish_dlq", "publish_embedding_request",
    "publish_progress_event", "publish_progress_events", "publish_summarization_request"
  ]

  const METHOD_NAMES: seq<string> := [
    "get_messages", "produce", "request_bytes", "retrieve_bot_user", "retrieve_page", "submit_jsonl",
    "watch", "watch_changes", "watch_events"
  ]

  const OBJECT_METHODS: seq<string> := [
    "batch_client.retrieve", "client.retrieve", "raw_s3.get", "s3.get", "s3_client.get"
  ]

  const NETWORK_CALLS := Catalogue(MODULE_PREFIXES, OBJECT_METHODS, FUNCTION_NAMES, METHOD_NAMES, SUFFIXES)

  predicate IsNetworkName(cat: Catalogue, name: string) {
    || FirstSegment(name) in cat.modulePrefixes
    || name in cat.objectMethods
    || LastSegment(name) in cat.functionNames || LastSegment(name) in cat.methodNames
    || exists i | 0 <= i < |cat.suffixes| :: EndsWith(name, cat.suffixes[i])
  }

  /** The last segment has no dot, and what precedes it is empty or ends with one. */
  lemma {:induction false} LastSegmentSplits(name: string) returns (front: string)
    ensures name == front + LastSegment(name) && '.' !in LastSegment(name)
    ensures front == "" || front[|front| - 1] == '.'
  {
    if name == "" || name[|name| - 1] == '.' {
      front := name;
    } else {
      front := LastSegmentSplits(name[..|name| - 1]);
    }
  }

  lemma DottedEnd(name: string, word: string)
    requires LastSegment(name) == word && name != word
    ensures EndsWith(name, "." + word)
  {
    var front := LastSegmentSplits(name);
    assert name[|front| - 1] == '.';
    assert name[|front| - 1..] == "." + word;
  }

  /** A text splits at most one way into a part that is empty or ends in a dot and a part without dots. */
  lemma SplitUnique(name: string, front: string, last: string, word: string)
    requires name == front + last && '.' !in last && (front == "" || front[|front| - 1] == '.')
    requires '.' !in word && EndsWith(name, "." + word)
    ensures last == word
  {
    var at := |name| - |word| - 1;
    var tail := name[at..];
    assert tail == "." + word && tail[0] == '.' && tail[1..] == word;
    assert name[at] == '.';
    forall k | at < k < |name| ensures name[k] != '.' { assert name[k] == tail[k - at] == word[k - at - 1]; }
    var dot := if front == "" then at else |front| - 1;
    assert name[dot] == '.';
    if at >= |front| { assert false; }
    if at < |front| - 1 { assert false; }
    assert name[at + 1..] == last;
  }

  lemma EndIsSegment(name: string, word: string)
    requires '.' !in word && EndsWith(name, "." + word)
    ensures LastSegment(name) == word
  {
    var front := LastSegmentSplits(name);
    SplitUnique(name, front, LastSegment(name), word);
  }

  lemma LastSegmentMeaning(name: string, word: string)
    requires '.' !in word
    ensures LastSegment(name) == word <==> name == word || EndsWith(name, "." + word)
  {
    var front := LastSegmentSplits(name);
    if LastSegment(name) == word && name != word { DottedEnd(name, word); }
    if EndsWith(name, "." + word) { EndIsSegment(name, word); }
  }

  lemma {:induction false} FirstSegmentOf(head: string, tail: string)
    requires tail != "" && tail[0] == '.'
    ensures FirstSegment(head + tail) == FirstSegment(head)
  {
    if head == "" {
      assert head + tail == tail;
    } else {
      assert (head + tail)[1..] == head[1..] + tail;
      FirstSegmentOf(head[1..], tail);
    }
  }

  /** A dot and one segment. */
  predicate OneSegment(suffix: string) {
    suffix != "" && suffix[0] == '.' && forall k | 1 <= k < |suffix| :: suffix[k] != '.'
  }

  lemma EarlySuffix(i: nat)
    requires i < 8
    ensures OneSegment(SUFFIXES[i])
  {
  }

  lemma LateSuffix(i: nat)
    requires 8 <= i < |SUFFIXES|
    ensures OneSegment(SUFFIXES[i])
  {
  }

  lemma SuffixIsSegment(full: string, front: string, name: string, suffix: string)
    requires full == front + ("." + name) && '.' !in name && OneSegment(suffix)
    ensures EndsWith(full, suffix) <==> suffix == "." + name
  {
    var word := suffix[1..];
    assert suffix == "." + word && '.' !in word;
    LastSegmentMeaning(full, word);
    LastSegmentMeaning(full, name);
    assert full[|front|..] == "." + name;
    assert full[|front|] == '.' && full != word;
  }

  /** Which calls of a name on a receiver the tables list: every name on a listed module, the listed object methods,
      function names, method names, and names that are a listed suffix. */
  predicate Listed(receiver: string, name: string) {
    || FirstSegment(receiver) in MODULE_PREFIXES || receiver + "." + name in OBJECT_METHODS
    || name in FUNCTION_NAMES || name in METHOD_NAMES || "." + name in SUFFIXES
  }

  lemma ListedIff(receiver: string, name: string)
    requires '.' !in name
    ensures IsNetworkName(NETWORK_CALLS, receiver + "." + name) <==> Listed(receiver, name)
  {
    var full := receiver + "." + name;
    assert full == receiver + ("." + name);
    FirstSegmentOf(receiver, "." + name);
    LastSegmentMeaning(full, name);
    assert full[|receiver|..] == "." + name;
    forall i | 0 <= i < |SUFFIXES| ensures EndsWith(full, SUFFIXES[i]) <==> SUFFIXES[i] == "." + name {
      if i < 8 { EarlySuffix(i); } else { LateSuffix(i); }
      SuffixIsSegment(full, receiver, name, SUFFIXES[i]);
    }
  }

  lemma {:induction false} NoDots(word: string)
    requires '.' !in word
    ensures FirstSegment(word) == word
  {
    if word != "" { NoDots(word[1..]); }
  }

  /** A bare name is a network call exactly when it is a listed module, function or method. */
  lemma OneWordListed(word: string)
    requires '.' !in word
    ensures IsNetworkName(NETWORK_CALLS, word) <==>
            word in MODULE_PREFIXES || word in OBJECT_METHODS || word in FUNCTION_NAMES || word in METHOD_NAMES
  {
    NoDots(word);
    LastSegmentMeaning(word, word);
    forall i | 0 <= i < |SUFFIXES| ensures !EndsWith(word, SUFFIXES[i]) {
      if i < 8 { EarlySuffix(i); } else { LateSuffix(i); }
      assert |SUFFIXES[i]| <= |word| ==> word[|word| - |SUFFIXES[i]|..][0] != '.';
    }
  }

  /** The four tests of the context check are one test: the last dotted segment is one of the two words. */
  lemma TransactionNameIsLastSegment(name: string)
    ensures IsTransactionName(name) <==> LastSegment(name) == TRANSACTION || LastSegment(name) == TENANT_TRANSACTION
  {
    LastSegmentMeaning(name, TRANSACTION);
    LastSegmentMeaning(name, TENANT_TRANSACTION);
  }
}
