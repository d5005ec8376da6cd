/** What an edge backfill derives, in which order it inserts, and what its report counts. */
module EdgeReports {
  import opened EdgeBackfill
  import opened Graph
  import opened Options

  // -- The edges asked for -----------------------------------------------------------------------------------------

  /** Some row of a column names this source in its array for this target. */
  ghost predicate Links(rows: seq<Fetched>, source: Id, target: Id) {
    exists i, j | 0 <= i < |rows| && 0 <= j < |rows[i].sources| ::
      rows[i].target == target && rows[i].sources[j] == Model(source)
  }

  lemma {:induction false} AskedFor(requests: seq<Request>, e: Edge)
    ensures e in ToSet(requests) <==> Request(Model(e.source), e.target, e.kind) in requests
  {
    if requests != [] {
      var init, last := requests[..|requests| - 1], requests[|requests| - 1];
      AskedFor(init, e);
      assert requests == init + [last];
    }
  }

  /** How many entries the arrays of some rows have. */
  function Total(rows: seq<Fetched>): nat {
    if rows == [] then 0 else Total(rows[..|rows| - 1]) + |rows[|rows| - 1].sources|
  }

  lemma {:induction false} RequestCount(rows: seq<Fetched>, kind: EdgeKind)
    ensures |Requests(rows, kind)| == Total(rows)
  {
    if rows != [] { RequestCount(rows[..|rows| - 1], kind); }
  }

  /** The inserts come row by row and entry by entry: the j-th entry of the i-th row comes after all entries of the
      rows before it. */
  lemma {:induction false} RequestAt(rows: seq<Fetched>, kind: EdgeKind, i: nat, j: nat)
    requires i < |rows| && j < |rows[i].sources|
    ensures var n := Total(rows[..i]) + j;
      n < |Requests(rows, kind)| && Requests(rows, kind)[n] == Request(rows[i].sources[j], rows[i].target, kind)
  {
    var init, last := rows[..|rows| - 1], rows[|rows| - 1];
    RequestCount(init, kind);
    if i < |init| {
      RequestAt(init, kind, i, j);
      assert init[..i] == rows[..i];
    } else {
      assert rows[..i] == init;
      assert RowRequests(last, kind, |last.sources|)[j] == Request(last.sources[j], last.target, kind);
    }
  }

  /** And there are no others. */
  lemma {:induction false} RequestFrom(rows: seq<Fetched>, kind: EdgeKind, n: nat) returns (i: nat, j: nat)
    requires n < |Requests(rows, kind)|
    ensures i < |rows| && j < |rows[i].sources| && n == Total(rows[..i]) + j
  {
    var init, last := rows[..|rows| - 1], rows[|rows| - 1];
    RequestCount(init, kind);
    if n < |Requests(init, kind)| {
      i, j := RequestFrom(init, kind, n);
      assert init[..i] == rows[..i];
    } else {
      i, j := |init|, n - Total(init);
      assert rows[..i] == init;
    }
  }

  lemma LinkedIsAsked(rows: seq<Fetched>, kind: EdgeKind, e: Edge)
    ensures e in ToSet(Requests(rows, kind)) <==> e.kind == kind && Links(rows, e.source, e.target)
  {
    var requests, asked := Requests(rows, kind), Request(Model(e.source), e.target, e.kind);
    AskedFor(requests, e);
    if asked in requests {
      var n :| 0 <= n < |requests| && requests[n] == asked;
      var i, j := RequestFrom(rows, kind, n);
      RequestAt(rows, kind, i, j);
    }
    if e.kind == kind && Links(rows, e.source, e.target) {
      var i, j :| 0 <= i < |rows| && 0 <= j < |rows[i].sources|
        && rows[i].target == e.target && rows[i].sources[j] == Model(e.source);
      RequestAt(rows, kind, i, j);
    }
  }

  /** The derived edges: from each model named in a fetched array to the row's target, of the kind of the column. */
  lemma DerivedMeaning(inputs: Inputs, e: Edge)
    ensures e in Derived(inputs) <==>
      Links(match e.kind
            case Supports => inputs.supports
            case ContributesToResolution => inputs.contributes
            case InstanceOf => inputs.patterns, e.source, e.target)
    ensures forall kind :: e in DerivedOf(inputs, kind) <==> e.kind == kind && e in Derived(inputs)
  {
    LinkedIsAsked(inputs.supports, Supports, e);
    LinkedIsAsked(inputs.contributes, ContributesToResolution, e);
    LinkedIsAsked(inputs.patterns, InstanceOf, e);
    forall kind ensures e in DerivedOf(inputs, kind) <==> e.kind == kind && e in Derived(inputs) {
      LinkedIsAsked(RowsOf(inputs, kind), kind, e);
    }
  }

  // -- The counts reported -----------------------------------------------------------------------------------------

  /** A dry run counts the entries of the arrays, of every kind, and fails at nothing. */
  lemma DryRunCountsEntries(edges: set<Edge>, inputs: Inputs, faults: Faults)
    ensures TenantRun(edges, inputs, true, faults) ==
            (edges, Report(map[Supports := Total(inputs.supports),
                               ContributesToResolution := Total(inputs.contributes),
                               InstanceOf := Total(inputs.patterns)], None))
  {
    RequestCount(inputs.supports, Supports);
    RequestCount(inputs.contributes, ContributesToResolution);
    RequestCount(inputs.patterns, InstanceOf);
    ThreeCounts(Total(inputs.supports), Total(inputs.contributes), Total(inputs.patterns));
  }

  /** The number of inserts up to the end of a kind's loop. */
  function LoopEnd(inputs: Inputs, kind: EdgeKind): nat {
    match kind
    case Supports => Total(inputs.supports)
    case ContributesToResolution => Total(inputs.supports) + Total(inputs.contributes)
    case InstanceOf => Total(inputs.supports) + Total(inputs.contributes) + Total(inputs.patterns)
  }

  /** A prefix of the inserts gets through exactly when the first failing insert is not in it. */
  lemma PrefixCompletes(edges: set<Edge>, done: seq<Request>, all: seq<Request>, faults: Faults, p: Progress)
    requires done <= all && SameOutcome(p, InsertAll(Progress(edges, 0, 0, None), done, faults))
    ensures p.failure.None? <==> |done| <= FirstFailure(all, faults, 0)
  {
    InsertAllSucceedsIff(Progress(edges, 0, 0, None), done, faults);
    FirstFailureMeaning(all, faults, 0);
    var n := FirstFailure(all, faults, 0);
    if |done| <= n {
      forall i | 0 <= i < |done| ensures FailureOf(done[i], 0 + i, faults).None? { assert all[i] == done[i]; }
    } else {
      assert all[n] == done[n] && FailureOf(done[n], 0 + n, faults).Some?;
    }
  }

  /** How far each loop gets. */
  lemma LoopsComplete(edges: set<Edge>, inputs: Inputs, faults: Faults, s: Progress, c: Progress, i: Progress)
    requires s == Then(Progress(edges, 0, 0, None), inputs, Supports, false, faults)
    requires c == Then(s, inputs, ContributesToResolution, false, faults)
    requires i == Then(c, inputs, InstanceOf, false, faults)
    ensures var n := FirstFailure(AllRequests(inputs), faults, 0);
      && (s.failure.None? <==> LoopEnd(inputs, Supports) <= n)
      && (c.failure.None? <==> LoopEnd(inputs, ContributesToResolution) <= n)
      && (i.failure.None? <==> LoopEnd(inputs, InstanceOf) <= n)
  {
    var p, all := Progress(edges, 0, 0, None), AllRequests(inputs);
    var first, second := Requests(inputs.supports, Supports), Requests(inputs.contributes, ContributesToResolution);
    RequestCount(inputs.supports, Supports);
    RequestCount(inputs.contributes, ContributesToResolution);
    RequestCount(inputs.patterns, InstanceOf);
    assert [] + first == first;
    LoopContinues(p, [], p, inputs, Supports, faults);
    LoopContinues(p, first, s, inputs, ContributesToResolution, faults);
    LoopContinues(p, first + second, c, inputs, InstanceOf, faults);
    PrefixCompletes(edges, first, all, faults, s);
    PrefixCompletes(edges, first + second, all, faults, c);
    PrefixCompletes(edges, all, all, faults, i);
  }

  /** What each completed loop counted. */
  lemma LoopsCount(edges: set<Edge>, inputs: Inputs, faults: Faults, s: Progress, c: Progress, i: Progress)
    requires s == Then(Progress(edges, 0, 0, None), inputs, Supports, false, faults)
    requires c == Then(s, inputs, ContributesToResolution, false, faults)
    requires i == Then(c, inputs, InstanceOf, false, faults)
    ensures s.failure.None? ==> s.inserted == |DerivedOf(inputs, Supports) - edges|
    ensures c.failure.None? ==> c.inserted == |DerivedOf(inputs, ContributesToResolution) - edges|
    ensures i.failure.None? ==> i.inserted == |DerivedOf(inputs, InstanceOf) - edges|
  {
    ThenMeaning(Progress(edges, 0, 0, None), inputs, Supports, faults);
    ThenMeaning(s, inputs, ContributesToResolution, faults);
    ThenMeaning(c, inputs, InstanceOf, faults);
    DerivedKinds(inputs, Supports);
    DerivedKinds(inputs, ContributesToResolution);
    if s.failure.None? { OtherKindsDoNotMatter(inputs, ContributesToResolution, edges, s.edges); }
    if c.failure.None? { OtherKindsDoNotMatter(inputs, InstanceOf, edges, c.edges); }
  }

  lemma CountOf(s: Progress, c: Progress, i: Progress, kind: EdgeKind)
    ensures var counts := Counted(s, Supports) + Counted(c, ContributesToResolution) + Counted(i, InstanceOf);
      var p := match kind case Supports => s case ContributesToResolution => c case InstanceOf => i;
      (kind in counts <==> p.failure.None?) && (kind in counts ==> counts[kind] == p.inserted)
  {
  }

  /** The report of a real run, failed or not: it has the kinds whose loops ended before the first failing insert, each
      with the number of its edges that were not there before. */
  lemma ReportCounts(edges: set<Edge>, inputs: Inputs, faults: Faults, kind: EdgeKind)
    ensures var counts := TenantRun(edges, inputs, false, faults).1.counts;
      && (kind in counts <==> LoopEnd(inputs, kind) <= FirstFailure(AllRequests(inputs), faults, 0))
      && (kind in counts ==> counts[kind] == |DerivedOf(inputs, kind) - edges|)
  {
    var s := Then(Progress(edges, 0, 0, None), inputs, Supports, false, faults);
    var c := Then(s, inputs, ContributesToResolution, false, faults);
    var i := Then(c, inputs, InstanceOf, false, faults);
    LoopsComplete(edges, inputs, faults, s, c, i);
    LoopsCount(edges, inputs, faults, s, c, i);
    CountOf(s, c, i, kind);
  }
}
