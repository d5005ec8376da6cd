/** Deriving typed edges from the legacy array columns, one tenant per transaction. */
module EdgeBackfill {
  import opened Graph
  import opened Options

  datatype EdgeKind = Supports | ContributesToResolution | InstanceOf

  datatype Edge = Edge(source: Id, target: Id, kind: EdgeKind)

  // An entry of a uuid[] column: a model id, NULL, or, in an array of two dimensions, a whole sub-array.
  datatype Entry = Model(id: Id) | Null | Nested

  // One fetched row: the target and the entries of its array.
  datatype Fetched = Fetched(target: Id, sources: seq<Entry>)

  /** The array a column can hold: its entries are all sub-arrays or none is. The lemmas hold of any entries. */
  predicate Storable(row: Fetched) {
    (forall e | e in row.sources :: e.Nested?) || (forall e | e in row.sources :: !e.Nested?)
  }

  // One insert the loops ask for.
  datatype Request = Request(source: Entry, target: Id, kind: EdgeKind)

  // What the three SELECTs return for a tenant, by kind.
  datatype Inputs = Inputs(supports: seq<Fetched>, contributes: seq<Fetched>, patterns: seq<Fetched>)

  // An error the server raised aborts the transaction; one raised on the client side does not.
  datatype Failure = ServerError | ClientError

  // Injected failures, by the number of the insert within the transaction.
  type Faults = map<nat, Failure>

  datatype Progress = Progress(edges: set<Edge>, inserted: nat, attempts: nat, failure: Option<Failure>)

  function RowRequests(row: Fetched, kind: EdgeKind, n: nat): seq<Request>
    requires n <= |row.sources|
  {
    seq(n, i requires 0 <= i < n => Request(row.sources[i], row.target, kind))
  }

  /** The inserts one loop asks for, in order. */
  function Requests(rows: seq<Fetched>, kind: EdgeKind): seq<Request> {
    if rows == [] then []
    else Requests(rows[..|rows| - 1], kind) + RowRequests(rows[|rows| - 1], kind, |rows[|rows| - 1].sources|)
  }

  /** Why an insert is refused by its own data. The table refuses a NULL source and an edge from a model to
      itself; a sub-array is refused by the driver, which cannot encode it as a uuid and sends nothing. */
  function Refusal(r: Request): Option<Failure> {
    match r.source
    case Null => Some(ServerError)
    case Nested => Some(ClientError)
    case Model(id) => if id == r.target then Some(ServerError) else None
  }

  /** Why the insert with this number fails, if it does. */
  function FailureOf(r: Request, number: nat, faults: Faults): Option<Failure> {
    if number in faults then Some(faults[number]) else Refusal(r)
  }

  /** One `INSERT ... ON CONFLICT DO NOTHING`. */
  function InsertOne(p: Progress, r: Request, faults: Faults): Progress {
    if p.failure.Some? then p
    else if FailureOf(r, p.attempts, faults).Some? then
      p.(attempts := p.attempts + 1, failure := FailureOf(r, p.attempts, faults))
    else
      var e := Edge(r.source.id, r.target, r.kind);
      if e in p.edges then p.(attempts := p.attempts + 1)
      else Progress(p.edges + {e}, p.inserted + 1, p.attempts + 1, None)
  }

  function InsertAll(p: Progress, requests: seq<Request>, faults: Faults): Progress {
    if requests == [] then p
    else InsertOne(InsertAll(p, requests[..|requests| - 1], faults), requests[|requests| - 1], faults)
  }

  lemma {:induction false} InsertAllConcat(p: Progress, a: seq<Request>, b: seq<Request>, faults: Faults)
    ensures InsertAll(p, a + b, faults) == InsertAll(InsertAll(p, a, faults), b, faults)
  {
    if b == [] {
      assert a + b == a;
    } else {
      assert (a + b)[..|a + b| - 1] == a + b[..|b| - 1];
      InsertAllConcat(p, a, b[..|b| - 1], faults);
    }
  }

  function EdgeOf(r: Request): set<Edge> {
    if r.source.Model? then {Edge(r.source.id, r.target, r.kind)} else {}
  }

  /** The edges some requests name. */
  function ToSet(requests: seq<Request>): set<Edge> {
    if requests == [] then {} else ToSet(requests[..|requests| - 1]) + EdgeOf(requests[|requests| - 1])
  }

  lemma {:induction false} InsertAllMeaning(p: Progress, requests: seq<Request>, faults: Faults)
    requires p.failure.None?
    ensures var q := InsertAll(p, requests, faults);
      && p.edges <= q.edges <= p.edges + ToSet(requests)
      && q.inserted - p.inserted == |q.edges| - |p.edges|
      && q.attempts <= p.attempts + |requests|
      && (q.failure.None? ==> q.edges == p.edges + ToSet(requests) && q.attempts == p.attempts + |requests|)
  {
    if requests != [] {
      var init, last := requests[..|requests| - 1], requests[|requests| - 1];
      InsertAllMeaning(p, init, faults);
      InsertOneMeaning(InsertAll(p, init, faults), last, faults);
    }
  }

  lemma InsertOneMeaning(p: Progress, r: Request, faults: Faults)
    ensures var q := InsertOne(p, r, faults);
      && p.edges <= q.edges <= p.edges + EdgeOf(r)
      && q.inserted - p.inserted == |q.edges| - |p.edges|
      && q.attempts <= p.attempts + 1
      && (q.failure.None? ==> p.failure.None? && q.edges == p.edges + EdgeOf(r) && q.attempts == p.attempts + 1)
  {
  }

  /** The number of the first insert that fails, or how many there are. */
  function FirstFailure(requests: seq<Request>, faults: Faults, first: nat): (n: nat)
    ensures n <= |requests|
  {
    if requests == [] then 0
    else
      var init, last := requests[..|requests| - 1], requests[|requests| - 1];
      var n := FirstFailure(init, faults, first);
      if n < |init| || FailureOf(last, first + |init|, faults).Some? then n else n + 1
  }

  lemma {:induction false} FirstFailureMeaning(requests: seq<Request>, faults: Faults, first: nat)
    ensures var n := FirstFailure(requests, faults, first);
      && (forall i | 0 <= i < n :: FailureOf(requests[i], first + i, faults).None?)
      && (n < |requests| ==> FailureOf(requests[n], first + n, faults).Some?)
  {
    if requests != [] { FirstFailureMeaning(requests[..|requests| - 1], faults, first); }
  }

  /** The loop over these requests made those before number n, and failed at it unless there is none. */
  ghost predicate StoppedAt(p: Progress, q: Progress, requests: seq<Request>, faults: Faults, n: nat)
    requires n <= |requests|
  {
    && q.edges == p.edges + ToSet(requests[..n])
    && q.failure == (if n < |requests| then FailureOf(requests[n], p.attempts + n, faults) else None)
    && q.attempts == p.attempts + (if n < |requests| then n + 1 else n)
  }

  lemma StopsNext(p: Progress, q: Progress, init: seq<Request>, last: Request, faults: Faults)
    requires StoppedAt(p, q, init, faults, FirstFailure(init, faults, p.attempts))
    ensures StoppedAt(p, InsertOne(q, last, faults), init + [last], faults,
                      FirstFailure(init + [last], faults, p.attempts))
  {
    assert (init + [last])[..|init|] == init;
    var n := FirstFailure(init, faults, p.attempts);
    if n < |init| { StaysStopped(p, q, init, last, faults, n); } else { OneMoreInsert(p, q, init, last, faults); }
  }

  /** What the loop has done when it stops: exactly the edges asked for before the first insert that fails, and
      that insert's error. */
  lemma {:induction false} InsertAllStopsAtFirstFailure(p: Progress, requests: seq<Request>, faults: Faults)
    requires p.failure.None?
    ensures StoppedAt(p, InsertAll(p, requests, faults), requests, faults, FirstFailure(requests, faults, p.attempts))
  {
    if requests != [] {
      var init, last := requests[..|requests| - 1], requests[|requests| - 1];
      InsertAllStopsAtFirstFailure(p, init, faults);
      StopsNext(p, InsertAll(p, init, faults), init, last, faults);
      assert requests == init + [last];
    }
  }

  lemma StaysStopped(p: Progress, q: Progress, init: seq<Request>, last: Request, faults: Faults, n: nat)
    requires n == FirstFailure(init, faults, p.attempts) && n < |init| && StoppedAt(p, q, init, faults, n)
    ensures StoppedAt(p, InsertOne(q, last, faults), init + [last], faults, n)
  {
    FirstFailureMeaning(init, faults, p.attempts);
    assert (init + [last])[..n] == init[..n] && (init + [last])[n] == init[n];
  }

  lemma OneMoreInsert(p: Progress, q: Progress, init: seq<Request>, last: Request, faults: Faults)
    requires StoppedAt(p, q, init, faults, |init|)
    ensures var fails := FailureOf(last, p.attempts + |init|, faults).Some?;
      StoppedAt(p, InsertOne(q, last, faults), init + [last], faults, if fails then |init| else |init| + 1)
  {
    var all := init + [last];
    assert init[..|init|] == init && all[..|init|] == init && all[..|init| + 1] == all;
    LastInsert(q, last, faults);
    ToSetNext(init, last);
  }

  lemma ToSetNext(requests: seq<Request>, r: Request)
    ensures ToSet(requests + [r]) == ToSet(requests) + EdgeOf(r)
  {
    assert (requests + [r])[..|requests|] == requests;
  }

  lemma LastInsert(p: Progress, r: Request, faults: Faults)
    requires p.failure.None?
    ensures var q := InsertOne(p, r, faults);
      && q.failure == FailureOf(r, p.attempts, faults) && q.attempts == p.attempts + 1
      && q.edges == (if q.failure.Some? then p.edges else p.edges + EdgeOf(r))
  {
  }

  /** The loop gets through exactly when no insert fails. */
  lemma InsertAllSucceedsIff(p: Progress, requests: seq<Request>, faults: Faults)
    requires p.failure.None?
    ensures InsertAll(p, requests, faults).failure.None? <==>
            forall i | 0 <= i < |requests| :: FailureOf(requests[i], p.attempts + i, faults).None?
  {
    InsertAllStopsAtFirstFailure(p, requests, faults);
    FirstFailureMeaning(requests, faults, p.attempts);
  }

  datatype Report = Report(counts: map<EdgeKind, nat>, failure: Option<Failure>)

  function RowsOf(inputs: Inputs, kind: EdgeKind): seq<Fetched> {
    match kind
    case Supports => inputs.supports
    case ContributesToResolution => inputs.contributes
    case InstanceOf => inputs.patterns
  }

  class EdgeTable {
    var edges: set<Edge>

    constructor (edges: set<Edge>)
      ensures this.edges == edges
    {
      this.edges := edges;
    }

    /** The inserts of one fetched row. */
    method BackfillRow(start: Progress, row: Fetched, kind: EdgeKind, dryRun: bool, faults: Faults)
      returns (end: Progress)
      ensures dryRun ==> end == start.(inserted := start.inserted + |row.sources|)
      ensures !dryRun ==> end == InsertAll(start, RowRequests(row, kind, |row.sources|), faults)
    {
      end := start;
      for j := 0 to |row.sources|
        invariant dryRun ==> end == start.(inserted := start.inserted + j)
        invariant !dryRun ==> end == InsertAll(start, RowRequests(row, kind, j), faults)
      {
        if dryRun {
          end := end.(inserted := end.inserted + 1);
        } else {
          assert RowRequests(row, kind, j + 1)[..j] == RowRequests(row, kind, j);
          end := InsertOne(end, Request(row.sources[j], row.target, kind), faults);
        }
      }
    }

    /** One of the three loops, on the open transaction `start`. A dry run counts every array entry. */
    method BackfillKind(start: Progress, rows: seq<Fetched>, kind: EdgeKind, dryRun: bool, faults: Faults)
      returns (end: Progress)
      requires start.failure.None?
      ensures dryRun ==> end == start.(inserted := start.inserted + |Requests(rows, kind)|)
      ensures !dryRun ==> end == InsertAll(start, Requests(rows, kind), faults)
    {
      end := start;
      for i := 0 to |rows|
        invariant dryRun ==> end == start.(inserted := start.inserted + |Requests(rows[..i], kind)|)
        invariant !dryRun ==> end == InsertAll(start, Requests(rows[..i], kind), faults)
      {
        var row := rows[i];
        assert rows[..i + 1][..i] == rows[..i];
        end := BackfillRow(end, row, kind, dryRun, faults);
        InsertAllConcat(start, Requests(rows[..i], kind), RowRequests(row, kind, |row.sources|), faults);
      }
      assert rows[..|rows|] == rows;
    }

    /** One tenant in one transaction. Every exception is caught inside the transaction block: after a
        server error the commit turns into a rollback, after a client error it keeps what was inserted. */
    method BackfillOneTenant(inputs: Inputs, dryRun: bool, faults: Faults) returns (report: Report)
      modifies this
      ensures (edges, report) == TenantRun(old(edges), inputs, dryRun, faults)
    {
      var counts: map<EdgeKind, nat> := map[];
      var txn := Progress(edges, 0, 0, None);
      txn := BackfillKind(txn, inputs.supports, Supports, dryRun, faults);
      ghost var s := txn;
      counts := Counted(txn, Supports);
      if txn.failure.None? {
        txn := BackfillKind(txn.(inserted := 0), inputs.contributes, ContributesToResolution, dryRun, faults);
        counts := counts + Counted(txn, ContributesToResolution);
      }
      ghost var c := txn;
      assert counts == Counted(s, Supports) + Counted(c, ContributesToResolution);
      if txn.failure.None? {
        txn := BackfillKind(txn.(inserted := 0), inputs.patterns, InstanceOf, dryRun, faults);
        counts := counts + Counted(txn, InstanceOf);
      }
      assert counts == Counted(s, Supports) + Counted(c, ContributesToResolution) + Counted(txn, InstanceOf);
      if txn.failure != Some(ServerError) {
        edges := txn.edges;
      }
      report := Report(counts, txn.failure);
    }
  }

  function LoopOf(p: Progress, inputs: Inputs, kind: EdgeKind, dryRun: bool, faults: Faults): Progress {
    var requests := Requests(RowsOf(inputs, kind), kind);
    var restarted := p.(inserted := 0);
    if dryRun then restarted.(inserted := |requests|) else InsertAll(restarted, requests, faults)
  }

  /** The next loop, unless an earlier one failed. */
  function Then(p: Progress, inputs: Inputs, kind: EdgeKind, dryRun: bool, faults: Faults): Progress {
    if p.failure.Some? then p else LoopOf(p, inputs, kind, dryRun, faults)
  }

  function Counted(p: Progress, kind: EdgeKind): map<EdgeKind, nat> {
    if p.failure.Some? then map[] else map[kind := p.inserted]
  }

  function TenantRun(edges: set<Edge>, inputs: Inputs, dryRun: bool, faults: Faults): (set<Edge>, Report) {
    var s := Then(Progress(edges, 0, 0, None), inputs, Supports, dryRun, faults);
    var c := Then(s, inputs, ContributesToResolution, dryRun, faults);
    var i := Then(c, inputs, InstanceOf, dryRun, faults);
    (Settled(edges, i),
     Report(Counted(s, Supports) + Counted(c, ContributesToResolution) + Counted(i, InstanceOf), i.failure))
  }

  function Settled(before: set<Edge>, p: Progress): set<Edge> {
    if p.failure == Some(ServerError) then before else p.edges
  }

  ghost function DerivedOf(inputs: Inputs, kind: EdgeKind): set<Edge> { ToSet(Requests(RowsOf(inputs, kind), kind)) }

  ghost function Derived(inputs: Inputs): set<Edge> {
    DerivedOf(inputs, Supports) + DerivedOf(inputs, ContributesToResolution) + DerivedOf(inputs, InstanceOf)
  }

  lemma {:induction false} RequestKinds(rows: seq<Fetched>, kind: EdgeKind)
    ensures forall r | r in Requests(rows, kind) :: r.kind == kind
  {
    if rows != [] { RequestKinds(rows[..|rows| - 1], kind); }
  }

  lemma {:induction false} EdgeKinds(requests: seq<Request>, kind: EdgeKind)
    requires forall r | r in requests :: r.kind == kind
    ensures forall e | e in ToSet(requests) :: e.kind == kind
  {
    if requests != [] { EdgeKinds(requests[..|requests| - 1], kind); }
  }

  lemma DerivedKinds(inputs: Inputs, kind: EdgeKind)
    ensures forall e | e in DerivedOf(inputs, kind) :: e.kind == kind
  {
    RequestKinds(RowsOf(inputs, kind), kind);
    EdgeKinds(Requests(RowsOf(inputs, kind), kind), kind);
  }

  lemma ThenMeaning(p: Progress, inputs: Inputs, kind: EdgeKind, faults: Faults)
    ensures var q := Then(p, inputs, kind, false, faults);
      && p.edges <= q.edges <= p.edges + DerivedOf(inputs, kind)
      && (q.failure.None? ==> p.failure.None? && q.edges == p.edges + DerivedOf(inputs, kind)
                              && q.inserted == |DerivedOf(inputs, kind) - p.edges|)
  {
    if p.failure.None? {
      var q := LoopOf(p, inputs, kind, false, faults);
      InsertAllMeaning(p.(inserted := 0), Requests(RowsOf(inputs, kind), kind), faults);
      if q.failure.None? {
        assert q.edges == p.edges + (DerivedOf(inputs, kind) - p.edges);
      }
    }
  }

  /** The edges of one kind are new to a later loop exactly when they were new at the start. */
  lemma OtherKindsDoNotMatter(inputs: Inputs, kind: EdgeKind, before: set<Edge>, after: set<Edge>)
    requires before <= after && forall e | e in after && e !in before :: e.kind != kind
    ensures DerivedOf(inputs, kind) - after == DerivedOf(inputs, kind) - before
  {
    DerivedKinds(inputs, kind);
  }

  lemma CompleteChain(edges: set<Edge>, inputs: Inputs, faults: Faults, s: Progress, c: Progress, i: Progress)
    requires s == Then(Progress(edges, 0, 0, None), inputs, Supports, false, faults)
    requires c == Then(s, inputs, ContributesToResolution, false, faults)
    requires i == Then(c, inputs, InstanceOf, false, faults) && i.failure.None?
    ensures i.edges == edges + Derived(inputs) && s.failure.None? && c.failure.None?
    ensures s.inserted == |DerivedOf(inputs, Supports) - edges|
    ensures c.inserted == |DerivedOf(inputs, ContributesToResolution) - edges|
    ensures i.inserted == |DerivedOf(inputs, InstanceOf) - edges|
  {
    ThenMeaning(Progress(edges, 0, 0, None), inputs, Supports, faults);
    ThenMeaning(s, inputs, ContributesToResolution, faults);
    ThenMeaning(c, inputs, InstanceOf, faults);
    DerivedKinds(inputs, Supports);
    DerivedKinds(inputs, ContributesToResolution);
    OtherKindsDoNotMatter(inputs, ContributesToResolution, edges, s.edges);
    OtherKindsDoNotMatter(inputs, InstanceOf, edges, c.edges);
  }

  lemma ThreeCounts(s: nat, c: nat, i: nat)
    ensures map[Supports := s] + map[ContributesToResolution := c] + map[InstanceOf := i] ==
            map[Supports := s, ContributesToResolution := c, InstanceOf := i]
  {
  }

  /** A complete run ends with the original edges plus the derived ones and reports, per kind, how many of
      the derived edges were new. */
  lemma CompleteRunIsExact(edges: set<Edge>, inputs: Inputs, faults: Faults)
    ensures var (after, report) := TenantRun(edges, inputs, false, faults);
      report.failure.None? ==>
        && after == edges + Derived(inputs)
        && report.counts == map[Supports := |DerivedOf(inputs, Supports) - edges|,
                                ContributesToResolution := |DerivedOf(inputs, ContributesToResolution) - edges|,
                                InstanceOf := |DerivedOf(inputs, InstanceOf) - edges|]
  {
    var s := Then(Progress(edges, 0, 0, None), inputs, Supports, false, faults);
    var c := Then(s, inputs, ContributesToResolution, false, faults);
    var i := Then(c, inputs, InstanceOf, false, faults);
    if i.failure.None? {
      CompleteChain(edges, inputs, faults, s, c, i);
      ThreeCounts(s.inserted, c.inserted, i.inserted);
    }
  }

  /** Whatever fails, a run stays between the original and the complete edge set; a server error or a dry
      run changes nothing. */
  lemma RunStaysBetween(edges: set<Edge>, inputs: Inputs, dryRun: bool, faults: Faults)
    ensures var (after, report) := TenantRun(edges, inputs, dryRun, faults);
      && edges <= after <= edges + Derived(inputs)
      && (dryRun || report.failure == Some(ServerError) ==> after == edges)
  {
    if !dryRun {
      var p := Progress(edges, 0, 0, None);
      var s := Then(p, inputs, Supports, false, faults);
      ThenMeaning(p, inputs, Supports, faults);
      ThenMeaning(s, inputs, ContributesToResolution, faults);
      ThenMeaning(Then(s, inputs, ContributesToResolution, false, faults), inputs, InstanceOf, faults);
    }
  }

  datatype RunSpec = RunSpec(dryRun: bool, faults: Faults)

  function AfterRuns(edges: set<Edge>, inputs: Inputs, runs: seq<RunSpec>): set<Edge> {
    if runs == [] then edges
    else
      TenantRun(AfterRuns(edges, inputs, runs[..|runs| - 1]), inputs, runs[|runs| - 1].dryRun,
                runs[|runs| - 1].faults).0
  }

  /** Any mix of dry, failed and repeated runs only moves towards the complete set, and one complete run
      after it lands there exactly. */
  lemma {:induction false} RunsConverge(edges: set<Edge>, inputs: Inputs, runs: seq<RunSpec>, faults: Faults)
    ensures var mid := AfterRuns(edges, inputs, runs);
      && edges <= mid <= edges + Derived(inputs)
      && var (after, report) := TenantRun(mid, inputs, false, faults);
         report.failure.None? ==> after == edges + Derived(inputs)
  {
    if runs != [] {
      RunsConverge(edges, inputs, runs[..|runs| - 1], map[]);
      var last := runs[|runs| - 1];
      RunStaysBetween(AfterRuns(edges, inputs, runs[..|runs| - 1]), inputs, last.dryRun, last.faults);
    }
    CompleteRunIsExact(AfterRuns(edges, inputs, runs), inputs, faults);
  }

  /** Straight after a complete run, another complete run reports zero for every kind. */
  lemma RerunReportsZero(edges: set<Edge>, inputs: Inputs, faults: Faults, again: Faults)
    requires TenantRun(edges, inputs, false, faults).1.failure.None?
    ensures var (after, report) := TenantRun(TenantRun(edges, inputs, false, faults).0, inputs, false, again);
      && after == edges + Derived(inputs)
      && (report.failure.None? ==> report.counts == map[Supports := 0, ContributesToResolution := 0, InstanceOf := 0])
  {
    var mid := TenantRun(edges, inputs, false, faults).0;
    CompleteRunIsExact(edges, inputs, faults);
    CompleteRunIsExact(mid, inputs, again);
    RunStaysBetween(mid, inputs, false, again);
    assert DerivedOf(inputs, Supports) - mid == {};
    assert DerivedOf(inputs, ContributesToResolution) - mid == {};
    assert DerivedOf(inputs, InstanceOf) - mid == {};
  }

  lemma {:induction false} SetNoLarger(requests: seq<Request>)
    ensures |ToSet(requests)| <= |requests|
  {
    if requests != [] {
      var init, last := requests[..|requests| - 1], requests[|requests| - 1];
      SetNoLarger(init);
    }
  }

  lemma LoopCountBound(p: Progress, inputs: Inputs, kind: EdgeKind, faults: Faults)
    ensures var q := Then(p, inputs, kind, false, faults);
      q.failure.None? ==> q.inserted <= |Requests(RowsOf(inputs, kind), kind)|
  {
    ThenMeaning(p, inputs, kind, faults);
    SetNoLarger(Requests(RowsOf(inputs, kind), kind));
    SubsetNoLarger(DerivedOf(inputs, kind) - p.edges, DerivedOf(inputs, kind));
  }

  /** The dry count is never below the real one, for any kind a real run reports. */
  lemma DryCountIsUpperBound(edges: set<Edge>, inputs: Inputs, faults: Faults)
    ensures var dry, actual := TenantRun(edges, inputs, true, faults).1, TenantRun(edges, inputs, false, faults).1;
      && dry.failure.None?
      && forall k | k in actual.counts :: k in dry.counts && actual.counts[k] <= dry.counts[k]
  {
    var p := Progress(edges, 0, 0, None);
    var s := Then(p, inputs, Supports, false, faults);
    LoopCountBound(p, inputs, Supports, faults);
    LoopCountBound(s, inputs, ContributesToResolution, faults);
    LoopCountBound(Then(s, inputs, ContributesToResolution, false, faults), inputs, InstanceOf, faults);
  }

  lemma SubsetNoLarger(a: set<Edge>, b: set<Edge>)
    requires a <= b
    ensures |a| <= |b|
  {
    assert b == a + (b - a);
  }

  // -- What an error leaves ----------------------------------------------------------------------------

  /** Every insert of a tenant, in order. */
  function AllRequests(inputs: Inputs): seq<Request> {
    Requests(inputs.supports, Supports) + Requests(inputs.contributes, ContributesToResolution)
    + Requests(inputs.patterns, InstanceOf)
  }

  // Equal but for the per-kind count.
  predicate SameOutcome(p: Progress, q: Progress) {
    p.edges == q.edges && p.attempts == q.attempts && p.failure == q.failure
  }

  lemma {:induction false} CountDoesNotMatter(p: Progress, q: Progress, requests: seq<Request>, faults: Faults)
    requires SameOutcome(p, q)
    ensures SameOutcome(InsertAll(p, requests, faults), InsertAll(q, requests, faults))
  {
    if requests != [] { CountDoesNotMatter(p, q, requests[..|requests| - 1], faults); }
  }

  lemma {:induction false} FailedStays(p: Progress, requests: seq<Request>, faults: Faults)
    requires p.failure.Some?
    ensures InsertAll(p, requests, faults) == p
  {
    if requests != [] { FailedStays(p, requests[..|requests| - 1], faults); }
  }

  /** A loop continues the one before it. */
  lemma LoopContinues(p: Progress, done: seq<Request>, q: Progress, inputs: Inputs, kind: EdgeKind, faults: Faults)
    requires SameOutcome(q, InsertAll(p, done, faults))
    ensures SameOutcome(Then(q, inputs, kind, false, faults),
                        InsertAll(p, done + Requests(RowsOf(inputs, kind), kind), faults))
  {
    var requests := Requests(RowsOf(inputs, kind), kind);
    InsertAllConcat(p, done, requests, faults);
    if q.failure.Some? { FailedStays(InsertAll(p, done, faults), requests, faults); }
    else { CountDoesNotMatter(q.(inserted := 0), InsertAll(p, done, faults), requests, faults); }
  }

  ghost function LastLoop(edges: set<Edge>, inputs: Inputs, faults: Faults): Progress {
    var s := Then(Progress(edges, 0, 0, None), inputs, Supports, false, faults);
    var c := Then(s, inputs, ContributesToResolution, false, faults);
    Then(c, inputs, InstanceOf, false, faults)
  }

  /** The three loops of a tenant are one loop over all its inserts. */
  lemma ThreeLoopsAreOne(edges: set<Edge>, inputs: Inputs, faults: Faults)
    ensures SameOutcome(LastLoop(edges, inputs, faults),
                        InsertAll(Progress(edges, 0, 0, None), AllRequests(inputs), faults))
  {
    var p := Progress(edges, 0, 0, None);
    var s := Then(p, inputs, Supports, false, faults);
    var first, second := Requests(inputs.supports, Supports), Requests(inputs.contributes, ContributesToResolution);
    assert [] + first == first;
    LoopContinues(p, [], p, inputs, Supports, faults);
    LoopContinues(p, first, s, inputs, ContributesToResolution, faults);
    LoopContinues(p, first + second, Then(s, inputs, ContributesToResolution, false, faults), inputs, InstanceOf,
                  faults);
  }

  lemma TenantSettles(edges: set<Edge>, inputs: Inputs, faults: Faults)
    ensures var (after, report) := TenantRun(edges, inputs, false, faults); var p := LastLoop(edges, inputs, faults);
      after == Settled(edges, p) && report.failure == p.failure
  {
  }

  /** What an error keeps. The tenant fails with the error of its first insert that fails, say number n. After a
      server error nothing is kept; after a client error exactly the edges of the n inserts before it are. So a
      reported error leaves the table alone if and only if it came from the server or those n inserts named only
      edges already there. */
  lemma ErrorKeepsExactly(edges: set<Edge>, inputs: Inputs, faults: Faults)
    ensures var all := AllRequests(inputs); var n := FirstFailure(all, faults, 0);
      var (after, report) := TenantRun(edges, inputs, false, faults);
      && report.failure == (if n < |all| then FailureOf(all[n], n, faults) else None)
      && after == (if report.failure == Some(ServerError) then edges else edges + ToSet(all[..n]))
      && (report.failure.Some? ==>
            (after == edges <==> report.failure == Some(ServerError) || ToSet(all[..n]) <= edges))
  {
    TenantSettles(edges, inputs, faults);
    ThreeLoopsAreOne(edges, inputs, faults);
    InsertAllStopsAtFirstFailure(Progress(edges, 0, 0, None), AllRequests(inputs), faults);
  }

  /** Every entry is a model other than the row it stands in. */
  ghost predicate AllEntriesFit(inputs: Inputs) {
    forall r | r in AllRequests(inputs) :: r.source.Model? && r.source.id != r.target
  }

  /** Without injected faults a tenant completes if and only if every array entry is a model other than its own
      row; and without sub-arrays a tenant that does not complete keeps nothing. */
  lemma CompletesIffEntriesFit(edges: set<Edge>, inputs: Inputs)
    ensures var (after, report) := TenantRun(edges, inputs, false, map[]);
      && (report.failure.None? <==> AllEntriesFit(inputs))
      && (report.failure.Some? && (forall r | r in AllRequests(inputs) :: !r.source.Nested?) ==> after == edges)
  {
    var all := AllRequests(inputs);
    ErrorKeepsExactly(edges, inputs, map[]);
    FirstMisfit(all);
  }

  lemma FirstMisfit(all: seq<Request>)
    ensures var n := FirstFailure(all, map[], 0);
      && (n == |all| <==> forall r | r in all :: r.source.Model? && r.source.id != r.target)
      && (n < |all| ==> FailureOf(all[n], n, map[]).Some? && all[n] in all)
      && (n < |all| && !all[n].source.Nested? ==> FailureOf(all[n], n, map[]) == Some(ServerError))
  {
    var n := FirstFailure(all, map[], 0);
    FirstFailureMeaning(all, map[], 0);
    if n == |all| {
      forall r | r in all ensures r.source.Model? && r.source.id != r.target {
        var i :| 0 <= i < |all| && all[i] == r;
        assert FailureOf(all[i], 0 + i, map[]).None?;
      }
    }
  }

  lemma RequestsOfTwo(good: Fetched, nested: Fetched, kind: EdgeKind)
    requires |good.sources| == 1 && |nested.sources| == 1
    ensures Requests([good, nested], kind) ==
            [Request(good.sources[0], good.target, kind), Request(nested.sources[0], nested.target, kind)]
  {
    assert [good, nested][..1] == [good] && [good][..0] == [];
    assert Requests([good], kind) == [Request(good.sources[0], good.target, kind)];
  }

  lemma InsertTwo(p: Progress, r0: Request, r1: Request, faults: Faults)
    ensures InsertAll(p, [r0, r1], faults) == InsertOne(InsertOne(p, r0, faults), r1, faults)
  {
    assert [r0, r1][..1] == [r0] && [r0][..0] == [];
    assert InsertAll(p, [], faults) == p;
    assert InsertAll(p, [r0], faults) == InsertOne(p, r0, faults);
  }

  lemma FirstLoopFails(edges: set<Edge>, inputs: Inputs, faults: Faults, s: Progress)
    requires s == Then(Progress(edges, 0, 0, None), inputs, Supports, false, faults)
    requires s.failure == Some(ClientError)
    ensures TenantRun(edges, inputs, false, faults) == (s.edges, Report(map[], Some(ClientError)))
  {
  }

  /** A row with a two-dimensional array after a good row: the error is reported, and yet the good row's insert is
      committed. */
  lemma ClientErrorCommitsPartialRun(a: Id, b: Id)
    requires a != b
    ensures var good, nested := Fetched(a, [Model(b)]), Fetched(b, [Nested]);
      && Storable(good) && Storable(nested)
      && TenantRun({}, Inputs([good, nested], [], []), false, map[]) ==
         ({Edge(b, a, Supports)}, Report(map[], Some(ClientError)))
  {
    var good, nested := Fetched(a, [Model(b)]), Fetched(b, [Nested]);
    var inputs := Inputs([good, nested], [], []);
    var p0, p1 := Progress({}, 0, 0, None), Progress({Edge(b, a, Supports)}, 1, 1, None);
    var r0, r1 := Request(Model(b), a, Supports), Request(Nested, b, Supports);
    RequestsOfTwo(good, nested, Supports);
    InsertTwo(p0, r0, r1, map[]);
    assert InsertOne(p0, r0, map[]) == p1;
    assert InsertOne(p1, r1, map[]) == Progress({Edge(b, a, Supports)}, 1, 2, Some(ClientError));
    FirstLoopFails({}, inputs, map[], InsertAll(p0, [r0, r1], map[]));
  }
}
