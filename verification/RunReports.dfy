/** The counters and tables of a run as sums over its clusters. */
module RunReports {
  import opened Discovery
  import opened Graph
  import MergeDetails
  import opened Merging
  import opened Positions
  import opened Reconcile
  import opened Running
  import opened UnionFind

  // One cluster of a run and what happened to its transaction.
  datatype Case = Case(c: Cluster, apply: bool, fault: Fault)

  ghost predicate DistinctMembers(clusters: seq<Cluster>) {
    forall i | 0 <= i < |clusters| :: Distinct(clusters[i].members)
  }

  // -- One cluster ---------------------------------------------------------------------------------------------

  /** The per-row writes of a cluster: one for each member but the one kept. */
  function RowsToWrite(c: Cluster): nat {
    if c.decision == NoMatch || c.members == [] then 0 else |c.members| - 1
  }

  /** The writes before those: a merge first writes the confidence and the lists of the row it keeps. */
  function WritesBefore(c: Cluster): nat { if c.decision == AutoMerge then 2 else 0 }

  /** One of its writes fails. */
  predicate WriteFails(k: Case) {
    k.fault.AtWrite? && k.apply && k.fault.k < WritesBefore(k.c) + RowsToWrite(k.c)
  }

  predicate Failed(k: Case) { k.fault == AtConnect || k.fault == AtCommit || WriteFails(k) }

  /** The per-row writes it made and counted: none without a connection or in a dry run, else all, or those before the
      one that failed. */
  function RowsMade(k: Case): nat {
    if !k.apply || k.fault == AtConnect then 0
    else if k.fault.AtWrite? then
      if k.fault.k < WritesBefore(k.c) then 0
      else if k.fault.k - WritesBefore(k.c) < RowsToWrite(k.c) then k.fault.k - WritesBefore(k.c)
      else RowsToWrite(k.c)
    else RowsToWrite(k.c)
  }

  lemma AllButOne(members: seq<Id>, kept: Id)
    requires Distinct(members) && kept in members
    ensures |Others(members, kept)| == |members| - 1
  {
    var p :| 0 <= p < |members| && members[p] == kept;
    MergeDetails.OthersInOrder(members, p);
  }

  lemma OneLeft(c: Cluster, snapshot: Rows)
    requires Mergeable(c.members, snapshot) && Distinct(c.members)
    ensures |Others(c.members, CanonicalOf(c.members, snapshot))| == |c.members| - 1
    ensures Writes(c, snapshot) == WritesBefore(c) + RowsToWrite(c)
  {
    AllButOne(c.members, CanonicalOf(c.members, snapshot));
  }

  lemma OneCluster(c: Cluster, snapshot: Rows, apply: bool, fault: Fault)
    requires Mergeable(c.members, snapshot) && Distinct(c.members)
    ensures var k := Case(c, apply, fault);
      && |Others(c.members, CanonicalOf(c.members, snapshot))| == |c.members| - 1
      && (InBody(c, snapshot, apply, fault) <==> WriteFails(k))
      && (Fails(c, snapshot, apply, fault) <==> Failed(k))
      && RowsWritten(c, snapshot, apply, fault) == RowsMade(k)
  {
    OneLeft(c, snapshot);
  }

  /** What is reported of a cluster: its decision and members, whether it failed, and, unless it did, the member that
      all others were folded into, which is preferred to each of them. */
  lemma ReportMeaning(c: Cluster, snapshot: Rows, apply: bool, fault: Fault)
    requires Mergeable(c.members, snapshot) && Distinct(c.members)
    ensures var failed := Failed(Case(c, apply, fault));
      var report := ReportFor(c, snapshot, Fails(c, snapshot, apply, fault));
      && report.decision == c.decision && report.members == c.members && report.failed == failed
      && (failed ==> report.canonical.None?)
      && (!failed ==>
            && report.canonical.Some? && report.canonical.value in c.members && report.canonical.value in snapshot
            && forall m | m in c.members :: m in snapshot && Preferred(snapshot[report.canonical.value], snapshot[m]))
  {
    OneCluster(c, snapshot, apply, fault);
  }

  // -- The whole run -------------------------------------------------------------------------------------------

  function CasesOf(clusters: seq<Cluster>, apply: bool, faults: seq<Fault>): seq<Case>
    requires |clusters| == |faults|
  {
    seq(|clusters|, i requires 0 <= i < |clusters| => Case(clusters[i], apply, faults[i]))
  }

  /** The rows written by the clusters of a decision, lost ones included. */
  function SumMade(cases: seq<Case>, d: Decision): nat {
    if cases == [] then 0
    else
      var before, k := SumMade(cases[..|cases| - 1], d), cases[|cases| - 1];
      if k.c.decision == d then before + RowsMade(k) else before
  }

  ghost function FailingWrites(cases: seq<Case>): nat -> bool {
    (i: nat) => i < |cases| && WriteFails(cases[i])
  }

  ghost function Decided(cases: seq<Case>, d: Decision): nat -> bool {
    (i: nat) => i < |cases| && cases[i].c.decision == d && !Failed(cases[i])
  }

  lemma SumNext(cases: seq<Case>, n: nat)
    requires n < |cases|
    ensures forall d :: SumMade(cases[..n + 1], d) ==
                        SumMade(cases[..n], d) + if cases[n].c.decision == d then RowsMade(cases[n]) else 0
  {
    assert cases[..n + 1][..n] == cases[..n];
  }

  // How one cluster moves the counters.
  ghost predicate Moves(k: Case, before: Counters, after: Counters) {
    && after.archived == before.archived + (if k.c.decision == AutoMerge then RowsMade(k) else 0)
    && after.emitted == before.emitted + (if k.c.decision == SameIssue then RowsMade(k) else 0)
    && after.reviewRows == before.reviewRows + (if k.c.decision == HumanReview then RowsMade(k) else 0)
    && after.errors == before.errors + (if WriteFails(k) then 1 else 0)
    && forall d :: Count(after.decided, d) ==
                   Count(before.decided, d) + if d == k.c.decision && !Failed(k) then 1 else 0
  }

  ghost predicate Adds(cases: seq<Case>, n: nat, m: Counters)
    requires n <= |cases|
  {
    && m.archived == SumMade(cases[..n], AutoMerge) && m.emitted == SumMade(cases[..n], SameIssue)
    && m.reviewRows == SumMade(cases[..n], HumanReview)
    && m.errors == |Where(FailingWrites(cases), n)|
    && forall d :: Count(m.decided, d) == |Where(Decided(cases, d), n)|
  }

  lemma CountersNext(cases: seq<Case>, n: nat, before: Counters, after: Counters)
    requires n < |cases| && Adds(cases, n, before) && Moves(cases[n], before, after)
    ensures Adds(cases, n + 1, after)
  {
    SumNext(cases, n);
  }

  lemma OneClusterMoves(n: Counters, c: Cluster, snapshot: Rows, apply: bool, fault: Fault)
    requires Mergeable(c.members, snapshot) && Distinct(c.members)
    ensures Moves(Case(c, apply, fault), n, CountersAfter(n, c, snapshot, apply, fault))
  {
    OneCluster(c, snapshot, apply, fault);
  }

  lemma {:induction false} CountersUpTo(clusters: seq<Cluster>, snapshot: Rows, apply: bool, faults: seq<Fault>, n: nat)
    requires |clusters| == |faults| && AllMergeable(clusters, snapshot) && DistinctMembers(clusters) && n <= |clusters|
    ensures Adds(CasesOf(clusters, apply, faults), n, CountersOf(clusters[..n], snapshot, apply, faults[..n]))
  {
    var cases := CasesOf(clusters, apply, faults);
    if n > 0 {
      var before := CountersOf(clusters[..n - 1], snapshot, apply, faults[..n - 1]);
      CountersUpTo(clusters, snapshot, apply, faults, n - 1);
      OneMoreCluster(Tables(snapshot, [], []), clusters, snapshot, apply, faults, n - 1);
      OneClusterMoves(before, clusters[n - 1], snapshot, apply, faults[n - 1]);
      CountersNext(cases, n - 1, before, CountersOf(clusters[..n], snapshot, apply, faults[..n]));
    } else {
      assert clusters[..0] == [] && cases[..0] == [];
    }
  }

  /** The counters of a run of clusters with distinct members: each write counter is the sum of the rows its clusters
      wrote, lost ones included; the error counter is the number of clusters that failed at a write; and each
      decision's counter the number of clusters so decided that did not fail. */
  lemma CountersMeaning(clusters: seq<Cluster>, snapshot: Rows, apply: bool, faults: seq<Fault>)
    requires |clusters| == |faults| && AllMergeable(clusters, snapshot) && DistinctMembers(clusters)
    ensures var m, cases := CountersOf(clusters, snapshot, apply, faults), CasesOf(clusters, apply, faults);
      && m.archived == SumMade(cases, AutoMerge) && m.emitted == SumMade(cases, SameIssue)
      && m.reviewRows == SumMade(cases, HumanReview)
      && m.errors == |Where(FailingWrites(cases), |cases|)|
      && forall d :: Count(m.decided, d) == |Where(Decided(cases, d), |cases|)|
  {
    var cases := CasesOf(clusters, apply, faults);
    CountersUpTo(clusters, snapshot, apply, faults, |clusters|);
    assert clusters[..|clusters|] == clusters && faults[..|faults|] == faults && cases[..|cases|] == cases;
  }

  // -- The rows inserted ---------------------------------------------------------------------------------------

  /** The clusters of a decision that committed writes. */
  ghost function Committed(cases: seq<Case>, d: Decision): nat -> bool {
    (i: nat) => i < |cases| && cases[i].apply && cases[i].c.decision == d && !Failed(cases[i])
  }

  /** The members of a cluster that are not kept, in order. */
  function Lost(members: seq<Id>, snapshot: Rows): seq<Id>
    requires Mergeable(members, snapshot)
  {
    Others(members, CanonicalOf(members, snapshot))
  }

  // One member a cluster loses to the one it keeps.
  datatype Loss = Loss(c: Cluster, lost: Id, kept: Id)

  function LossesIn(c: Cluster, snapshot: Rows): seq<Loss>
    requires Mergeable(c.members, snapshot)
  {
    var lost, kept := Lost(c.members, snapshot), CanonicalOf(c.members, snapshot);
    seq(|lost|, i requires 0 <= i < |lost| => Loss(c, lost[i], kept))
  }

  /** The losses of the listed clusters, in order. */
  function Losses(clusters: seq<Cluster>, snapshot: Rows, at: seq<nat>): seq<Loss>
    requires Below(at, |clusters|) && AllMergeable(clusters, snapshot)
  {
    if at == [] then []
    else Losses(clusters, snapshot, at[..|at| - 1]) + LossesIn(clusters[at[|at| - 1]], snapshot)
  }

  function CandidateRows(losses: seq<Loss>): seq<Candidate> {
    seq(|losses|, i requires 0 <= i < |losses| => Candidate(losses[i].lost, losses[i].kept, CosineOf(losses[i].c)))
  }

  function ReviewRows(losses: seq<Loss>): seq<Review> {
    seq(|losses|, i requires 0 <= i < |losses| =>
      Review(losses[i].lost, losses[i].kept, CosineOf(losses[i].c), losses[i].c.kind))
  }

  lemma LossesNext(clusters: seq<Cluster>, snapshot: Rows, at: seq<nat>, n: nat)
    requires Below(at, |clusters|) && n < |clusters| && AllMergeable(clusters, snapshot)
    ensures Below(at + [n], |clusters|)
    ensures Losses(clusters, snapshot, at + [n]) == Losses(clusters, snapshot, at) + LossesIn(clusters[n], snapshot)
  {
    assert (at + [n])[..|at|] == at;
  }

  lemma RowsAppend(a: seq<Loss>, b: seq<Loss>)
    ensures CandidateRows(a + b) == CandidateRows(a) + CandidateRows(b)
    ensures ReviewRows(a + b) == ReviewRows(a) + ReviewRows(b)
  {
  }

  lemma OneClusterInserts(t: Tables, c: Cluster, snapshot: Rows, apply: bool, fault: Fault)
    requires Mergeable(c.members, snapshot) && Distinct(c.members)
    ensures var done, after := apply && !Failed(Case(c, apply, fault)), Settled(t, c, snapshot, apply, fault);
      var losses := LossesIn(c, snapshot);
      && after.candidates ==
           (if done && c.decision == SameIssue then t.candidates + CandidateRows(losses) else t.candidates)
      && after.reviews == (if done && c.decision == HumanReview then t.reviews + ReviewRows(losses) else t.reviews)
  {
    OneCluster(c, snapshot, apply, fault);
    var kept, lost := CanonicalOf(c.members, snapshot), Lost(c.members, snapshot);
    assert CandidatesFor(c, kept, lost) == CandidateRows(LossesIn(c, snapshot));
    assert ReviewsFor(c, kept, lost) == ReviewRows(LossesIn(c, snapshot));
  }

  lemma CandidatesNext(was: seq<Candidate>, clusters: seq<Cluster>, snapshot: Rows, at: seq<nat>, n: nat)
    requires Below(at, |clusters|) && n < |clusters| && AllMergeable(clusters, snapshot)
    ensures Below(at + [n], |clusters|)
    ensures was + CandidateRows(Losses(clusters, snapshot, at)) + CandidateRows(LossesIn(clusters[n], snapshot)) ==
            was + CandidateRows(Losses(clusters, snapshot, at + [n]))
  {
    LossesNext(clusters, snapshot, at, n);
    RowsAppend(Losses(clusters, snapshot, at), LossesIn(clusters[n], snapshot));
  }

  lemma ReviewsNext(was: seq<Review>, clusters: seq<Cluster>, snapshot: Rows, at: seq<nat>, n: nat)
    requires Below(at, |clusters|) && n < |clusters| && AllMergeable(clusters, snapshot)
    ensures Below(at + [n], |clusters|)
    ensures was + ReviewRows(Losses(clusters, snapshot, at)) + ReviewRows(LossesIn(clusters[n], snapshot)) ==
            was + ReviewRows(Losses(clusters, snapshot, at + [n]))
  {
    LossesNext(clusters, snapshot, at, n);
    RowsAppend(Losses(clusters, snapshot, at), LossesIn(clusters[n], snapshot));
  }

  // The candidate and review tables up to a cluster.
  ghost predicate Holds(t: Tables, after: Tables, clusters: seq<Cluster>, snapshot: Rows, cases: seq<Case>, n: nat)
    requires AllMergeable(clusters, snapshot)
  {
    var same, human := Where(Committed(cases, SameIssue), n), Where(Committed(cases, HumanReview), n);
    && Below(same, |clusters|) && after.candidates == t.candidates + CandidateRows(Losses(clusters, snapshot, same))
    && Below(human, |clusters|) && after.reviews == t.reviews + ReviewRows(Losses(clusters, snapshot, human))
  }

  lemma HoldsNext(t: Tables, before: Tables, clusters: seq<Cluster>, snapshot: Rows, cases: seq<Case>, n: nat)
    requires AllMergeable(clusters, snapshot) && |cases| == |clusters| && n < |clusters|
    requires cases[n].c == clusters[n] && Distinct(clusters[n].members)
    requires Holds(t, before, clusters, snapshot, cases, n)
    ensures Holds(t, Settled(before, clusters[n], snapshot, cases[n].apply, cases[n].fault), clusters, snapshot, cases,
                  n + 1)
  {
    OneClusterInserts(before, clusters[n], snapshot, cases[n].apply, cases[n].fault);
    CandidatesNext(t.candidates, clusters, snapshot, Where(Committed(cases, SameIssue), n), n);
    ReviewsNext(t.reviews, clusters, snapshot, Where(Committed(cases, HumanReview), n), n);
  }

  lemma {:induction false} InsertsUpTo(t: Tables, clusters: seq<Cluster>, snapshot: Rows, apply: bool,
                                       faults: seq<Fault>, n: nat)
    requires |clusters| == |faults| && AllMergeable(clusters, snapshot) && DistinctMembers(clusters) && n <= |clusters|
    ensures Holds(t, TablesAfter(t, clusters[..n], snapshot, apply, faults[..n]), clusters, snapshot,
                  CasesOf(clusters, apply, faults), n)
  {
    var cases := CasesOf(clusters, apply, faults);
    if n > 0 {
      InsertsUpTo(t, clusters, snapshot, apply, faults, n - 1);
      OneMoreCluster(t, clusters, snapshot, apply, faults, n - 1);
      HoldsNext(t, TablesAfter(t, clusters[..n - 1], snapshot, apply, faults[..n - 1]), clusters, snapshot, cases,
                n - 1);
    } else {
      assert clusters[..0] == [];
    }
  }

  /** A run adds, in the order of the clusters, one candidate row for each lost member of every committed same-issue
      cluster and one review row for each of every committed human-review cluster, and nothing else. */
  lemma InsertsMeaning(t: Tables, clusters: seq<Cluster>, snapshot: Rows, apply: bool, faults: seq<Fault>)
    requires |clusters| == |faults| && AllMergeable(clusters, snapshot) && DistinctMembers(clusters)
    ensures var cases, after := CasesOf(clusters, apply, faults), TablesAfter(t, clusters, snapshot, apply, faults);
      var same, human := Where(Committed(cases, SameIssue), |cases|), Where(Committed(cases, HumanReview), |cases|);
      && Below(same, |clusters|) && after.candidates == t.candidates + CandidateRows(Losses(clusters, snapshot, same))
      && Below(human, |clusters|) && after.reviews == t.reviews + ReviewRows(Losses(clusters, snapshot, human))
  {
    InsertsUpTo(t, clusters, snapshot, apply, faults, |clusters|);
    assert clusters[..|clusters|] == clusters && faults[..|faults|] == faults;
  }
}
