/** The run: every cluster in its own transaction, with faults, rollback and counters. */
module Running {
  import opened Discovery
  import Emission
  import opened Graph
  import opened Merging
  import opened Options
  import opened Reconcile
  import opened Scanning

  datatype Candidate = Candidate(source: Id, target: Id, cosine: real)

  datatype Review = Review(claim: Id, matched: Id, cosine: real, kind: Kind)

  datatype Tables = Tables(models: Rows, candidates: seq<Candidate>, reviews: seq<Review>)

  // Where one cluster's transaction fails: while connecting, at its k-th write, or at commit.
  datatype Fault = NoFault | AtConnect | AtWrite(k: nat) | AtCommit

  datatype Counters = Counters(archived: nat, emitted: nat, reviewRows: nat, errors: nat, decided: map<Decision, nat>)

  datatype Report = Report(decision: Decision, canonical: Option<Id>, members: seq<Id>, failed: bool)

  function ReportFor(c: Cluster, snapshot: Rows, failed: bool): Report
    requires Mergeable(c.members, snapshot)
  {
    Report(c.decision, if failed then None else Some(CanonicalOf(c.members, snapshot)), c.members, failed)
  }

  function Count(decided: map<Decision, nat>, d: Decision): nat {
    if d in decided then decided[d] else 0
  }

  function Bump(decided: map<Decision, nat>, d: Decision): map<Decision, nat> {
    decided[d := Count(decided, d) + 1]
  }

  function Total(decided: map<Decision, nat>): nat {
    Count(decided, AutoMerge) + Count(decided, SameIssue) + Count(decided, HumanReview) + Count(decided, NoMatch)
  }

  function CosineOf(c: Cluster): real { if c.cosines == [] then 0.0 else c.cosines[0] }

  function CandidatesFor(c: Cluster, canonical: Id, others: seq<Id>): seq<Candidate> {
    seq(|others|, i requires 0 <= i < |others| => Candidate(others[i], canonical, CosineOf(c)))
  }

  function ReviewsFor(c: Cluster, canonical: Id, others: seq<Id>): seq<Review> {
    seq(|others|, i requires 0 <= i < |others| => Review(others[i], canonical, CosineOf(c), c.kind))
  }

  /** The tables after one cluster's committed transaction. */
  function Effect(t: Tables, c: Cluster, snapshot: Rows): Tables
    requires Mergeable(c.members, snapshot)
  {
    var canonical := CanonicalOf(c.members, snapshot);
    var others := Others(c.members, canonical);
    match c.decision
    case AutoMerge => t.(models := ApplyMerge(t.models, snapshot, c.members))
    case SameIssue => t.(candidates := t.candidates + CandidatesFor(c, canonical, others))
    case HumanReview => t.(reviews := t.reviews + ReviewsFor(c, canonical, others))
    case NoMatch => t
  }

  lemma OthersOfPair(a: Id, b: Id, kept: Id)
    requires a != b && (kept == a || kept == b)
    ensures Others([a, b], kept) == [if kept == a then b else a]
  {
    assert [a, b][..1] == [a] && [a][..0] == [];
    assert Others([a], kept) == if a == kept then [] else [a];
  }

  lemma OneRowEach(c: Cluster, kept: Id, lost: Id)
    ensures CandidatesFor(c, kept, [lost]) == [Candidate(lost, kept, CosineOf(c))]
    ensures ReviewsFor(c, kept, [lost]) == [Review(lost, kept, CosineOf(c), c.kind)]
  {
  }

  lemma CanonicalOfPair(a: Id, b: Id, snapshot: Rows)
    requires Mergeable([a, b], snapshot)
    ensures var kept := CanonicalOf([a, b], snapshot); var lost := if kept == a then b else a;
      (kept == a || kept == b) && lost in snapshot && Preferred(snapshot[kept], snapshot[lost])
  {
    assert a in [a, b] && b in [a, b];
  }

  lemma OneLostEffect(t: Tables, c: Cluster, snapshot: Rows, kept: Id, lost: Id)
    requires Mergeable(c.members, snapshot) && Borderline(c.decision)
    requires CanonicalOf(c.members, snapshot) == kept && Others(c.members, kept) == [lost]
    ensures Effect(t, c, snapshot) ==
            if c.decision == SameIssue then t.(candidates := t.candidates + [Candidate(lost, kept, CosineOf(c))])
            else t.(reviews := t.reviews + [Review(lost, kept, CosineOf(c), c.kind)])
  {
    OneRowEach(c, kept, lost);
  }

  /** A committed pair adds exactly one candidate or review row, from the member that loses to the one kept. */
  lemma PairEffect(t: Tables, c: Cluster, snapshot: Rows, a: Id, b: Id)
    requires c.members == [a, b] && a != b && Mergeable(c.members, snapshot) && Borderline(c.decision)
    ensures var kept := CanonicalOf(c.members, snapshot); var lost := if kept == a then b else a;
      && (kept == a || kept == b) && lost in snapshot && Preferred(snapshot[kept], snapshot[lost])
      && Effect(t, c, snapshot) ==
         if c.decision == SameIssue then t.(candidates := t.candidates + [Candidate(lost, kept, CosineOf(c))])
         else t.(reviews := t.reviews + [Review(lost, kept, CosineOf(c), c.kind)])
  {
    var kept := CanonicalOf(c.members, snapshot);
    CanonicalOfPair(a, b, snapshot);
    OthersOfPair(a, b, kept);
    OneLostEffect(t, c, snapshot, kept, if kept == a then b else a);
  }

  /** The row inserted for a committed pair of a discovery carries the cosine of the pair, the later row's embedding
      against the earlier one's, and a review row the kind of one of the two rows. */
  lemma DiscoveredPairEffect(t: Tables, rc: Reconciler, floor: real, rows: Rows, search: Search, order: seq<Id>,
                             c: Cluster)
    requires Keyed(rows) && Loaded(rows, order) && c in PairPart(rc, floor, rows, search, order)
    ensures |c.members| == 2 && c.members[0] != c.members[1] && Mergeable(c.members, rows)
    ensures var a, b := c.members[0], c.members[1];
      var (earlier, later) := OrientPair(rows[a], rows[b]);
      var cosine := rc.cosine(later.embedding, earlier.embedding);
      var kept := CanonicalOf(c.members, rows); var lost := if kept == a then b else a;
      && (kept == a || kept == b) && (c.kind == rows[a].kind || c.kind == rows[b].kind)
      && (c.decision == SameIssue || c.decision == HumanReview)
      && Effect(t, c, rows) ==
         if c.decision == SameIssue then t.(candidates := t.candidates + [Candidate(lost, kept, cosine)])
         else t.(reviews := t.reviews + [Review(lost, kept, cosine, c.kind)])
  {
    PairsOutsideComponents(rc, floor, rows, search, order);
    Emission.PairClustersCarryCosines(rc, floor, rows, search, order, c);
    var a, b := c.members[0], c.members[1];
    assert c.members == [a, b];
    PairEffect(t, c, rows, a, b);
  }

  // An auto merge writes the confidence, then the arrays, then one archive per other member.
  function Writes(c: Cluster, snapshot: Rows): nat
    requires Mergeable(c.members, snapshot)
  {
    var others := |Others(c.members, CanonicalOf(c.members, snapshot))|;
    match c.decision
    case AutoMerge => 2 + others
    case SameIssue => others
    case HumanReview => others
    case NoMatch => 0
  }

  function InBody(c: Cluster, snapshot: Rows, apply: bool, fault: Fault): bool
    requires Mergeable(c.members, snapshot)
  {
    fault.AtWrite? && apply && fault.k < Writes(c, snapshot)
  }

  function Fails(c: Cluster, snapshot: Rows, apply: bool, fault: Fault): bool
    requires Mergeable(c.members, snapshot)
  {
    fault.AtConnect? || fault.AtCommit? || InBody(c, snapshot, apply, fault)
  }

  /** How many of the per-row writes were made before the fault (or all of them). */
  function RowsWritten(c: Cluster, snapshot: Rows, apply: bool, fault: Fault): nat
    requires Mergeable(c.members, snapshot)
  {
    var head := if c.decision == AutoMerge then 2 else 0;
    if !apply || fault.AtConnect? || c.decision == NoMatch then 0
    else if InBody(c, snapshot, apply, fault) then (if fault.k < head then 0 else fault.k - head)
    else Writes(c, snapshot) - head
  }

  /** The write counters after one cluster: each decision's writes have their own. */
  function Written(n: Counters, c: Cluster, snapshot: Rows, apply: bool, fault: Fault): Counters
    requires Mergeable(c.members, snapshot)
  {
    var rows := RowsWritten(c, snapshot, apply, fault);
    match c.decision
    case AutoMerge => n.(archived := n.archived + rows)
    case SameIssue => n.(emitted := n.emitted + rows)
    case HumanReview => n.(reviewRows := n.reviewRows + rows)
    case NoMatch => n
  }

  function CountersAfter(n: Counters, c: Cluster, snapshot: Rows, apply: bool, fault: Fault): Counters
    requires Mergeable(c.members, snapshot)
  {
    Written(n, c, snapshot, apply, fault).(
      errors := if InBody(c, snapshot, apply, fault) then n.errors + 1 else n.errors,
      decided := if Fails(c, snapshot, apply, fault) then n.decided else Bump(n.decided, c.decision))
  }

  lemma NothingWritten(n: Counters, c: Cluster, snapshot: Rows, apply: bool)
    requires Mergeable(c.members, snapshot)
    ensures CountersAfter(n, c, snapshot, apply, AtConnect) == n
  {
  }

  /** The tables after one cluster was processed. */
  function Settled(t: Tables, c: Cluster, snapshot: Rows, apply: bool, fault: Fault): Tables
    requires Mergeable(c.members, snapshot)
  {
    if apply && !Fails(c, snapshot, apply, fault) then Effect(t, c, snapshot) else t
  }

  ghost predicate AllMergeable(clusters: seq<Cluster>, snapshot: Rows) {
    forall i | 0 <= i < |clusters| :: Mergeable(clusters[i].members, snapshot)
  }

  ghost function TablesAfter(t: Tables, clusters: seq<Cluster>, snapshot: Rows, apply: bool, faults: seq<Fault>): Tables
    requires |clusters| == |faults| && AllMergeable(clusters, snapshot)
  {
    if clusters == [] then t
    else
      var n := |clusters| - 1;
      var before := TablesAfter(t, clusters[..n], snapshot, apply, faults[..n]);
      Settled(before, clusters[n], snapshot, apply, faults[n])
  }

  ghost function CountersOf(clusters: seq<Cluster>, snapshot: Rows, apply: bool, faults: seq<Fault>): Counters
    requires |clusters| == |faults| && AllMergeable(clusters, snapshot)
  {
    if clusters == [] then Counters(0, 0, 0, 0, map[])
    else
      var n := |clusters| - 1;
      CountersAfter(CountersOf(clusters[..n], snapshot, apply, faults[..n]), clusters[n], snapshot, apply, faults[n])
  }

  lemma OneMoreCluster(t: Tables, clusters: seq<Cluster>, snapshot: Rows, apply: bool, faults: seq<Fault>, i: nat)
    requires |clusters| == |faults| && AllMergeable(clusters, snapshot) && i < |clusters|
    ensures TablesAfter(t, clusters[..i + 1], snapshot, apply, faults[..i + 1]) ==
            Settled(TablesAfter(t, clusters[..i], snapshot, apply, faults[..i]), clusters[i], snapshot, apply,
                    faults[i])
    ensures CountersOf(clusters[..i + 1], snapshot, apply, faults[..i + 1]) ==
            CountersAfter(CountersOf(clusters[..i], snapshot, apply, faults[..i]), clusters[i], snapshot, apply,
                          faults[i])
  {
    assert clusters[..i + 1][..i] == clusters[..i] && faults[..i + 1][..i] == faults[..i];
  }

  function Archived(models: Rows, ids: seq<Id>): Rows {
    map id | id in models :: if id in ids then models[id].(active := false) else models[id]
  }

  lemma ArchivedNext(models: Rows, ids: seq<Id>, i: nat)
    requires i < |ids| && Within(ids, models)
    ensures ids[i] in Archived(models, ids[..i])
    ensures var before := Archived(models, ids[..i]);
      Archived(models, ids[..i + 1]) == before[ids[i] := before[ids[i]].(active := false)]
  {
    assert ids[..i + 1] == ids[..i] + [ids[i]];
  }

  lemma InTable(members: seq<Id>, rows: Rows)
    requires Within(members, rows)
    ensures forall id | id in members :: id in rows
  {
  }

  /** Writing the canonical row and then archiving the others is the merge. */
  lemma MergeSteps(models: Rows, snapshot: Rows, members: seq<Id>, written: Rows)
    requires Mergeable(members, snapshot) && Within(members, models)
    requires var canonical := CanonicalOf(members, snapshot);
      written == models[canonical := RowAfter(members, snapshot, models[canonical], canonical)]
    ensures Archived(written, Others(members, CanonicalOf(members, snapshot))) == ApplyMerge(models, snapshot, members)
  {
  }

  lemma EffectKeepsKeys(t: Tables, c: Cluster, snapshot: Rows)
    requires Mergeable(c.members, snapshot)
    ensures Effect(t, c, snapshot).models.Keys == t.models.Keys
  {
  }

  class Backfill {
    // The committed tables.
    var models: Rows
    var candidates: seq<Candidate>
    var reviews: seq<Review>
    // The metrics object. It is updated inside transactions and never rolled back.
    var archived: nat
    var emitted: nat
    var reviewRows: nat
    var errors: nat
    var decided: map<Decision, nat>
    var considered: nat

    function Committed(): Tables
      reads this
    {
      Tables(models, candidates, reviews)
    }

    function Metrics(): Counters
      reads this
    {
      Counters(archived, emitted, reviewRows, errors, decided)
    }

    constructor (models: Rows, candidates: seq<Candidate>, reviews: seq<Review>)
      ensures Committed() == Tables(models, candidates, reviews)
      ensures Metrics() == Counters(0, 0, 0, 0, map[]) && considered == 0
    {
      this.models, this.candidates, this.reviews := models, candidates, reviews;
      archived, emitted, reviewRows, errors, decided, considered := 0, 0, 0, 0, map[], 0;
    }

    /** The archive loop of one merge. `failAt` counts archives. */
    method ArchiveOthers(txn: Rows, others: seq<Id>, failAt: Option<nat>) returns (after: Rows, failed: bool)
      requires Within(others, txn)
      modifies this`archived
      ensures failed == (failAt.Some? && failAt.value < |others|)
      ensures archived == old(archived) + if failed then failAt.value else |others|
      ensures !failed ==> after == Archived(txn, others)
    {
      after := txn;
      for i := 0 to |others|
        invariant failAt.Some? ==> failAt.value >= i
        invariant archived == old(archived) + i
        invariant after == Archived(txn, others[..i])
      {
        if failAt == Some(i) { failed := true; return; }
        ArchivedNext(txn, others, i);
        after := after[others[i] := after[others[i]].(active := false)];
        archived := archived + 1;
      }
      assert others[..|others|] == others;
      failed := false;
    }

    /** The writes of one merge inside an open transaction. Counts archives as it makes them. */
    method ApplyAutoMerge(txn: Rows, members: seq<Id>, snapshot: Rows, failAt: Option<nat>)
      returns (after: Rows, failed: bool)
      requires Mergeable(members, snapshot) && Within(members, txn)
      modifies this`archived
      ensures var writes := 2 + |Others(members, CanonicalOf(members, snapshot))|;
        && failed == (failAt.Some? && failAt.value < writes)
        && archived ==
             old(archived) + (if !failed then writes - 2 else if failAt.value < 2 then 0 else failAt.value - 2)
      ensures !failed ==> after == ApplyMerge(txn, snapshot, members)
    {
      var canonical := CanonicalOf(members, snapshot);
      var others := Others(members, canonical);
      var events, supports := UnionEvidence(members, snapshot);
      after, failed := txn, true;
      if failAt == Some(0) { return; }
      after := after[canonical := after[canonical].(confidence := Clip(MaxConfidence(members, snapshot)))];
      if failAt == Some(1) { return; }
      after := after[canonical := after[canonical].(events := events, supports := supports,
                                                    absorbed := after[canonical].absorbed + [others])];
      assert canonical in members && Within(others, after) by { InTable(members, txn); }
      MergeSteps(txn, snapshot, members, after);
      after, failed := ArchiveOthers(after, others, if failAt.Some? then Some(failAt.value - 2) else None);
    }

    /** The candidate inserts of one same-issue pair inside an open transaction. */
    method ApplySameIssueCandidates(txn: seq<Candidate>, c: Cluster, canonical: Id, others: seq<Id>,
                                    failAt: Option<nat>)
      returns (after: seq<Candidate>, failed: bool)
      modifies this`emitted
      ensures failed == (failAt.Some? && failAt.value < |others|)
      ensures emitted == old(emitted) + if failed then failAt.value else |others|
      ensures !failed ==> after == txn + CandidatesFor(c, canonical, others)
    {
      after, failed := txn, true;
      for i := 0 to |others|
        invariant failAt.Some? ==> failAt.value >= i
        invariant emitted == old(emitted) + i
        invariant after == txn + CandidatesFor(c, canonical, others)[..i]
      {
        if failAt == Some(i) { return; }
        after := after + [Candidate(others[i], canonical, CosineOf(c))];
        emitted := emitted + 1;
      }
      failed := false;
    }

    /** The review inserts of one human-review pair inside an open transaction. */
    method ApplyHumanReview(txn: seq<Review>, c: Cluster, canonical: Id, others: seq<Id>, failAt: Option<nat>)
      returns (after: seq<Review>, failed: bool)
      modifies this`reviewRows
      ensures failed == (failAt.Some? && failAt.value < |others|)
      ensures reviewRows == old(reviewRows) + if failed then failAt.value else |others|
      ensures !failed ==> after == txn + ReviewsFor(c, canonical, others)
    {
      after, failed := txn, true;
      for i := 0 to |others|
        invariant failAt.Some? ==> failAt.value >= i
        invariant reviewRows == old(reviewRows) + i
        invariant after == txn + ReviewsFor(c, canonical, others)[..i]
      {
        if failAt == Some(i) { return; }
        after := after + [Review(others[i], canonical, CosineOf(c), c.kind)];
        reviewRows := reviewRows + 1;
      }
      failed := false;
    }

    /** The decision's writes against an open transaction. */
    method Body(txn: Tables, c: Cluster, snapshot: Rows, apply: bool, fault: Fault)
      returns (after: Tables, failed: bool)
      requires Mergeable(c.members, snapshot) && Within(c.members, txn.models) && !fault.AtConnect?
      modifies this`archived, this`emitted, this`reviewRows
      ensures failed == InBody(c, snapshot, apply, fault)
      ensures !failed ==> after == if apply then Effect(txn, c, snapshot) else txn
      ensures Metrics() == Written(old(Metrics()), c, snapshot, apply, fault)
    {
      var canonical := CanonicalOf(c.members, snapshot);
      var others := Others(c.members, canonical);
      var failAt := if fault.AtWrite? then Some(fault.k) else None;
      after, failed := txn, false;
      if !apply { return; }
      match c.decision
      case AutoMerge =>
        var models;
        models, failed := ApplyAutoMerge(txn.models, c.members, snapshot, failAt);
        after := txn.(models := models);
      case SameIssue =>
        var candidates;
        candidates, failed := ApplySameIssueCandidates(txn.candidates, c, canonical, others, failAt);
        after := txn.(candidates := candidates);
      case HumanReview =>
        var reviews;
        reviews, failed := ApplyHumanReview(txn.reviews, c, canonical, others, failAt);
        after := txn.(reviews := reviews);
      case NoMatch =>
    }

    /** Commits an open transaction's tables and counts the decision. */
    method Commit(txn: Tables, decision: Decision)
      modifies this`models, this`candidates, this`reviews, this`decided
      ensures Committed() == txn && Metrics() == old(Metrics()).(decided := Bump(old(decided), decision))
    {
      models, candidates, reviews := txn.models, txn.candidates, txn.reviews;
      decided := Bump(decided, decision);
    }

    /** One cluster's transaction. A failure leaves the tables as they were. */
    method Transact(c: Cluster, snapshot: Rows, apply: bool, fault: Fault) returns (failed: bool)
      requires Mergeable(c.members, snapshot) && Within(c.members, models)
      modifies this
      ensures considered == old(considered) && failed == Fails(c, snapshot, apply, fault)
      ensures Committed() == Settled(old(Committed()), c, snapshot, apply, fault)
      ensures Metrics() == CountersAfter(old(Metrics()), c, snapshot, apply, fault)
    {
      if fault.AtConnect? { NothingWritten(Metrics(), c, snapshot, apply); return true; }
      var after;
      after, failed := Body(Tables(models, candidates, reviews), c, snapshot, apply, fault);
      if failed { errors := errors + 1; return; }
      if fault.AtCommit? { return true; }
      Commit(after, c.decision);
    }

    /** One cluster, and what is reported about it. */
    method ProcessCluster(c: Cluster, snapshot: Rows, apply: bool, fault: Fault) returns (report: Report)
      requires Mergeable(c.members, snapshot) && Within(c.members, models)
      modifies this
      ensures models.Keys == old(models.Keys) && considered == old(considered)
      ensures report == ReportFor(c, snapshot, Fails(c, snapshot, apply, fault))
      ensures Committed() == Settled(old(Committed()), c, snapshot, apply, fault)
      ensures Metrics() == CountersAfter(old(Metrics()), c, snapshot, apply, fault)
    {
      EffectKeepsKeys(Committed(), c, snapshot);
      var failed := Transact(c, snapshot, apply, fault);
      report := ReportFor(c, snapshot, failed);
    }

    /** `run_backfill` after discovery: every cluster is processed, whatever happened to the others. */
    method Run(clusters: seq<Cluster>, snapshot: Rows, apply: bool, faults: seq<Fault>) returns (reports: seq<Report>)
      requires |clusters| == |faults| && AllMergeable(clusters, snapshot)
      requires snapshot.Keys <= models.Keys
      requires Metrics() == Counters(0, 0, 0, 0, map[])
      modifies this
      ensures considered == |clusters| == |reports|
      ensures Committed() == TablesAfter(old(Committed()), clusters, snapshot, apply, faults)
      ensures Metrics() == CountersOf(clusters, snapshot, apply, faults)
      ensures forall i | 0 <= i < |clusters| ::
        reports[i] == ReportFor(clusters[i], snapshot, Fails(clusters[i], snapshot, apply, faults[i]))
    {
      considered := |clusters|;
      reports := [];
      for i := 0 to |clusters|
        invariant |reports| == i && considered == |clusters|
        invariant models.Keys == old(models.Keys)
        invariant Committed() == TablesAfter(old(Committed()), clusters[..i], snapshot, apply, faults[..i])
        invariant Metrics() == CountersOf(clusters[..i], snapshot, apply, faults[..i])
        invariant forall j | 0 <= j < i ::
          reports[j] == ReportFor(clusters[j], snapshot, Fails(clusters[j], snapshot, apply, faults[j]))
      {
        OneMoreCluster(old(Committed()), clusters, snapshot, apply, faults, i);
        var report := ProcessCluster(clusters[i], snapshot, apply, faults[i]);
        reports := reports + [report];
      }
      assert clusters[..|clusters|] == clusters && faults[..|faults|] == faults;
    }
  }

  function FailedCount(clusters: seq<Cluster>, snapshot: Rows, apply: bool, faults: seq<Fault>): nat
    requires |clusters| == |faults| && AllMergeable(clusters, snapshot)
  {
    if clusters == [] then 0
    else
      var n := |clusters| - 1;
      FailedCount(clusters[..n], snapshot, apply, faults[..n]) +
      if Fails(clusters[n], snapshot, apply, faults[n]) then 1 else 0
  }

  /** The counter each kind of decision writes to. */
  function CounterOf(n: Counters, d: Decision): nat {
    match d
    case AutoMerge => n.archived
    case SameIssue => n.emitted
    case HumanReview => n.reviewRows
    case NoMatch => 0
  }

  /** The rows committed clusters of this decision archived or inserted. */
  function ReallyWritten(d: Decision, clusters: seq<Cluster>, snapshot: Rows, apply: bool, faults: seq<Fault>): nat
    requires |clusters| == |faults| && AllMergeable(clusters, snapshot)
  {
    if clusters == [] then 0
    else
      var n := |clusters| - 1;
      ReallyWritten(d, clusters[..n], snapshot, apply, faults[..n]) +
      if clusters[n].decision == d && apply && !Fails(clusters[n], snapshot, apply, faults[n])
      then |Others(clusters[n].members, CanonicalOf(clusters[n].members, snapshot))| else 0
  }

  // A cluster of this decision wrote rows it then rolled back.
  predicate LostRows(d: Decision, c: Cluster, snapshot: Rows, apply: bool, fault: Fault)
    requires Mergeable(c.members, snapshot)
  {
    c.decision == d && Fails(c, snapshot, apply, fault) && RowsWritten(c, snapshot, apply, fault) > 0
  }

  lemma BumpAddsOne(decided: map<Decision, nat>, d: Decision)
    ensures Total(Bump(decided, d)) == Total(decided) + 1
  {
  }

  /** The books balance: every cluster considered is either counted under its decision or a failed report,
      and the error counter never exceeds the failed reports (it misses connect and commit failures). */
  lemma {:induction false} CountersBalance(clusters: seq<Cluster>, snapshot: Rows, apply: bool, faults: seq<Fault>)
    requires |clusters| == |faults| && AllMergeable(clusters, snapshot)
    ensures var n := CountersOf(clusters, snapshot, apply, faults);
      && Total(n.decided) + FailedCount(clusters, snapshot, apply, faults) == |clusters|
      && n.errors <= FailedCount(clusters, snapshot, apply, faults)
  {
    if clusters != [] {
      var n := |clusters| - 1;
      CountersBalance(clusters[..n], snapshot, apply, faults[..n]);
      BumpAddsOne(CountersOf(clusters[..n], snapshot, apply, faults[..n]).decided, clusters[n].decision);
    }
  }

  ghost predicate NoneLost(d: Decision, clusters: seq<Cluster>, snapshot: Rows, apply: bool, faults: seq<Fault>)
    requires |clusters| == |faults| && AllMergeable(clusters, snapshot)
  {
    forall i | 0 <= i < |clusters| :: !LostRows(d, clusters[i], snapshot, apply, faults[i])
  }

  lemma NoneLostNext(d: Decision, clusters: seq<Cluster>, snapshot: Rows, apply: bool, faults: seq<Fault>)
    requires |clusters| == |faults| && AllMergeable(clusters, snapshot) && clusters != []
    ensures var n := |clusters| - 1;
      NoneLost(d, clusters, snapshot, apply, faults) <==>
      NoneLost(d, clusters[..n], snapshot, apply, faults[..n]) && !LostRows(d, clusters[n], snapshot, apply, faults[n])
  {
    var n := |clusters| - 1;
    assert forall i | 0 <= i < n :: clusters[..n][i] == clusters[i] && faults[..n][i] == faults[i];
  }

  /** How one cluster moves the counter of a decision. */
  lemma CounterMoves(d: Decision, n: Counters, c: Cluster, snapshot: Rows, apply: bool, fault: Fault)
    requires d != NoMatch && Mergeable(c.members, snapshot)
    ensures var rows := RowsWritten(c, snapshot, apply, fault);
      && CounterOf(CountersAfter(n, c, snapshot, apply, fault), d) ==
           CounterOf(n, d) + (if c.decision == d then rows else 0)
      && (c.decision == d && !Fails(c, snapshot, apply, fault) ==>
            rows == if apply then |Others(c.members, CanonicalOf(c.members, snapshot))| else 0)
  {
  }

  /** The three write counters are bumped before commit: each is never too low, and it is exact if and only if no
      cluster of its decision that failed had written a row. */
  lemma {:induction false} CounterExactIff(d: Decision, clusters: seq<Cluster>, snapshot: Rows, apply: bool,
                                           faults: seq<Fault>)
    requires d != NoMatch && |clusters| == |faults| && AllMergeable(clusters, snapshot)
    ensures var counted := CounterOf(CountersOf(clusters, snapshot, apply, faults), d);
      && counted >= ReallyWritten(d, clusters, snapshot, apply, faults)
      && (counted == ReallyWritten(d, clusters, snapshot, apply, faults) <==>
            NoneLost(d, clusters, snapshot, apply, faults))
  {
    if clusters != [] {
      var n := |clusters| - 1;
      var before := CountersOf(clusters[..n], snapshot, apply, faults[..n]);
      CounterExactIff(d, clusters[..n], snapshot, apply, faults[..n]);
      NoneLostNext(d, clusters, snapshot, apply, faults);
      CounterMoves(d, before, clusters[n], snapshot, apply, faults[n]);
    }
  }

  /** A cluster that fails at commit is counted in full although nothing was written. */
  lemma CommitFailureOvercounts(c: Cluster, snapshot: Rows)
    requires c.decision != NoMatch && Mergeable(c.members, snapshot)
    ensures CounterOf(CountersOf([c], snapshot, true, [AtCommit]), c.decision) ==
            |Others(c.members, CanonicalOf(c.members, snapshot))|
    ensures ReallyWritten(c.decision, [c], snapshot, true, [AtCommit]) == 0
  {
    assert [c][..0] == [] && [AtCommit][..0] == [];
    assert CountersOf([], snapshot, true, []) == Counters(0, 0, 0, 0, map[]);
    assert ReallyWritten(c.decision, [], snapshot, true, []) == 0;
  }

  function Committing(clusters: seq<Cluster>, snapshot: Rows, apply: bool, faults: seq<Fault>): seq<Cluster>
    requires |clusters| == |faults| && AllMergeable(clusters, snapshot)
  {
    if clusters == [] then []
    else
      var n := |clusters| - 1;
      var before := Committing(clusters[..n], snapshot, apply, faults[..n]);
      if apply && !Fails(clusters[n], snapshot, apply, faults[n]) then before + [clusters[n]] else before
  }

  lemma CommittedNext(models: Rows, snapshot: Rows, before: seq<Cluster>, c: Cluster)
    ensures AfterMerges(models, snapshot, before + [c]) ==
            if IsMerge(c, snapshot) then ApplyMerge(AfterMerges(models, snapshot, before), snapshot, c.members)
            else AfterMerges(models, snapshot, before)
  {
    assert (before + [c])[..|before|] == before;
  }

  lemma EffectOnModels(t: Tables, c: Cluster, snapshot: Rows)
    requires Mergeable(c.members, snapshot)
    ensures Effect(t, c, snapshot).models ==
            if IsMerge(c, snapshot) then ApplyMerge(t.models, snapshot, c.members) else t.models
  {
  }

  lemma {:induction false} DryRunChangesNothing(t: Tables, clusters: seq<Cluster>, snapshot: Rows, faults: seq<Fault>)
    requires |clusters| == |faults| && AllMergeable(clusters, snapshot)
    ensures TablesAfter(t, clusters, snapshot, false, faults) == t
  {
    if clusters != [] { DryRunChangesNothing(t, clusters[..|clusters| - 1], snapshot, faults[..|clusters| - 1]); }
  }

  /** A run leaves the models table as if only the clusters that committed had been given: a failed cluster,
      and every cluster of a dry run, changes nothing. */
  lemma {:induction false} RunIsCommittedMerges(t: Tables, clusters: seq<Cluster>, snapshot: Rows, apply: bool,
                                                faults: seq<Fault>)
    requires |clusters| == |faults| && AllMergeable(clusters, snapshot)
    ensures TablesAfter(t, clusters, snapshot, apply, faults).models ==
            AfterMerges(t.models, snapshot, Committing(clusters, snapshot, apply, faults))
  {
    if clusters != [] {
      var n := |clusters| - 1;
      var init, c, earlier := clusters[..n], clusters[n], faults[..n];
      RunIsCommittedMerges(t, init, snapshot, apply, earlier);
      CommittedNext(t.models, snapshot, Committing(init, snapshot, apply, earlier), c);
      EffectOnModels(TablesAfter(t, init, snapshot, apply, earlier), c, snapshot);
    }
  }
}
