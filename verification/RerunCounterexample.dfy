/** A table on which re-running after a full apply merges again: a merge hands its survivor evidence that
    raises another pair over the threshold. */
module RerunCounterexample {
  import opened Cosine
  import opened Discovery
  import opened Graph
  import opened Merging
  import opened Options
  import opened Reconcile
  import opened Rerun
  import opened RerunCondition
  import opened Scanning

  const FLOOR := 0.70

  // Three unit vectors; their cosines are 0.96, 0.80 and 0.60.
  const U: seq<real> := [1.0, 0.0]
  const V: seq<real> := [0.96, 0.28]
  const W: seq<real> := [0.80, -0.60]

  const ROWS: Rows := map[
    0 := Row(0, Some(10), "situation", U, 9.0, 0.5, [], [], true, []),
    1 := Row(1, Some(20), "situation", V, 1.0, 0.5, [7], [], true, []),
    2 := Row(2, Some(30), "situation", W, 1.0, 0.5, [7], [], true, [])
  ]

  const ORDER: seq<Id> := [0, 1, 2]

  predicate ShareEvent(a: Row, b: Row) { exists e | e in a.events :: e in b.events }

  /** The reconciler's boost for shared evidence events, capped at one. */
  function Boosted(later: Row, earlier: Row, base: real): real {
    var boost := if ShareEvent(later, earlier) then 0.10 else 0.0;
    if base + boost > 1.0 then 1.0 else base + boost
  }

  /** The cosine of unit vectors. */
  function Similarity(a: seq<real>, b: seq<real>): real { if |a| == |b| then Dot(a, b) else 0.0 }

  // Default thresholds, no per-kind overrides.
  const RC: Reconciler := Reconciler(_ => KindRule(None, None, false, false), Similarity, Boosted, 0.85, 0.70)

  // The search leaves nothing out.
  const SEARCH: Search := _ => Some(ORDER)

  lemma DotOfTwo(a: seq<real>, b: seq<real>)
    requires |a| == |b| == 2
    ensures Dot(a, b) == a[0] * b[0] + a[1] * b[1]
  {
    assert a[..1][..0] == [] && b[..1][..0] == [];
    assert Dot(a[..1], b[..1]) == a[0] * b[0];
  }

  /** The three vectors have length 1, and their similarities are what the cosine loop computes. */
  lemma Cosines()
    ensures IsCosine(0.96, U, V, 1.0, 1.0) && Similarity(V, U) == 0.96
    ensures IsCosine(0.80, U, W, 1.0, 1.0) && Similarity(W, U) == 0.80
    ensures IsCosine(0.60, V, W, 1.0, 1.0) && Similarity(W, V) == 0.60
  {
    DotOfTwo(U, U);
    DotOfTwo(V, V);
    DotOfTwo(W, W);
    DotOfTwo(U, V);
    DotOfTwo(U, W);
    DotOfTwo(V, W);
    DotSymmetric(U, V);
    DotSymmetric(U, W);
    DotSymmetric(V, W);
  }

  lemma Setting()
    ensures Keyed(ROWS) && Loaded(ROWS, ORDER) && AllActive(ROWS) && DistinctOrder(ORDER)
    ensures forall id | id in ROWS :: id in ORDER
    ensures forall rows: Rows | rows.Keys <= ROWS.Keys :: Exhaustive(SEARCH, rows)
  {
    forall rows: Rows, mid, nb | rows.Keys <= ROWS.Keys && mid in rows && nb in rows && nb != mid
      ensures nb in Answer(SEARCH, mid)
    {
      assert nb in ROWS;
      assert 0 == ORDER[0] && 1 == ORDER[1] && 2 == ORDER[2];
    }
  }

  lemma VerdictOfPair(i: nat, j: nat)
    requires i < j < 3
    ensures Keyed(ROWS) && Loaded(ROWS, ORDER) && i in ROWS && j in ROWS
    ensures FirstVerdict(Offers(RC, FLOOR, ROWS, SEARCH, ORDER), (i, j)) ==
            var first := RowVerdict(RC, FLOOR, ROWS[i], ROWS[j]);
            if first != NoMatch then first else RowVerdict(RC, FLOOR, ROWS[j], ROWS[i])
  {
    Setting();
    PairVerdictMeaning(RC, FLOOR, ROWS, SEARCH, ORDER, i, j);
    TwoScans(RC, FLOOR, ROWS, SEARCH, ORDER, i, j);
    ExhaustiveJudges(RC, FLOOR, ROWS, SEARCH, i, j);
    ExhaustiveJudges(RC, FLOOR, ROWS, SEARCH, j, i);
  }

  lemma RowVerdicts()
    ensures RowVerdict(RC, FLOOR, ROWS[0], ROWS[1]) == AutoMerge
    ensures RowVerdict(RC, FLOOR, ROWS[0], ROWS[2]) == SameIssue
    ensures RowVerdict(RC, FLOOR, ROWS[1], ROWS[2]) == RowVerdict(RC, FLOOR, ROWS[2], ROWS[1]) == NoMatch
  {
    Cosines();
  }

  /** The first run: rows 0 and 1 merge, rows 0 and 2 are a same-issue pair, rows 1 and 2 are below the floor. */
  lemma FirstVerdicts()
    ensures Keyed(ROWS) && Loaded(ROWS, ORDER)
    ensures var offers := Offers(RC, FLOOR, ROWS, SEARCH, ORDER);
      && FirstVerdict(offers, (0, 1)) == AutoMerge
      && FirstVerdict(offers, (0, 2)) == SameIssue
      && FirstVerdict(offers, (1, 2)) == NoMatch
  {
    RowVerdicts();
    VerdictOfPair(0, 1);
    VerdictOfPair(0, 2);
    VerdictOfPair(1, 2);
  }

  /** Row 2 is linked to nothing in the first run. */
  lemma TwoIsAlone(x: Id)
    requires x != 2 && Keyed(ROWS) && Loaded(ROWS, ORDER)
    ensures !Connected(MergePairs(RC, FLOOR, ROWS, SEARCH, ORDER), 2, x)
  {
    if Connected(MergePairs(RC, FLOOR, ROWS, SEARCH, ORDER), 2, x) {
      LeavesByAPair(MergePairs(RC, FLOOR, ROWS, SEARCH, ORDER), 2, x);
      var y :| Linked(MergePairs(RC, FLOOR, ROWS, SEARCH, ORDER), 2, y);
      NoPairWithTwo(y);
    }
  }

  lemma NoPairWithTwo(y: Id)
    requires Keyed(ROWS) && Loaded(ROWS, ORDER)
    ensures !Linked(MergePairs(RC, FLOOR, ROWS, SEARCH, ORDER), 2, y)
  {
    FirstVerdicts();
    if Linked(MergePairs(RC, FLOOR, ROWS, SEARCH, ORDER), 2, y) {
      PairHasFirstVerdict(RC, FLOOR, ROWS, SEARCH, ORDER, 2, y);
      assert false;
    }
  }

  lemma TwoIsNeverMerged(d: Cluster)
    requires Keyed(ROWS) && Loaded(ROWS, ORDER)
    ensures !MergedIn(Everything(RC, FLOOR, ROWS, SEARCH, ORDER), ROWS, 2, d)
  {
    var autos := AutoPart(RC, FLOOR, ROWS, SEARCH, ORDER);
    ClustersAreComponents(RC, FLOOR, ROWS, SEARCH, ORDER);
    DiscoveredMergesAreSafe(RC, FLOOR, ROWS, SEARCH, ORDER);
    if MergedIn(Everything(RC, FLOOR, ROWS, SEARCH, ORDER), ROWS, 2, d) {
      assert d in autos && MergeCluster(d);
      var y := if d.members[0] == 2 then d.members[1] else d.members[0];
      assert y != 2 && Holds(d, 2, y);
      TwoIsAlone(y);
      assert false;
    }
  }

  lemma ZeroAndOneMerge() returns (c: Cluster)
    requires Keyed(ROWS) && Loaded(ROWS, ORDER)
    ensures var all := Everything(RC, FLOOR, ROWS, SEARCH, ORDER); MergedIn(all, ROWS, 0, c) && 1 in c.members
    ensures CanonicalOf(c.members, ROWS) == 0
  {
    var autos := AutoPart(RC, FLOOR, ROWS, SEARCH, ORDER);
    FirstVerdicts();
    ClustersAreComponents(RC, FLOOR, ROWS, SEARCH, ORDER);
    PairsOutsideComponents(RC, FLOOR, ROWS, SEARCH, ORDER);
    DiscoveredMergesAreSafe(RC, FLOOR, ROWS, SEARCH, ORDER);
    FirstVerdictMerges(RC, FLOOR, ROWS, SEARCH, ORDER, (0, 1));
    assert SomeHolds(autos, 0, 1);
    c :| c in autos && Holds(c, 0, 1);
    assert c in Everything(RC, FLOOR, ROWS, SEARCH, ORDER);
    HighestActivationWins(c.members);
  }

  lemma HighestActivationWins(members: seq<Id>)
    requires Mergeable(members, ROWS) && 0 in members
    ensures CanonicalOf(members, ROWS) == 0
  {
    var best := CanonicalOf(members, ROWS);
    assert Preferred(ROWS[best], ROWS[0]);
    assert best in {0, 1, 2};
  }

  lemma AfterFirstRun() returns (rows2: Rows)
    requires Keyed(ROWS) && Loaded(ROWS, ORDER) && AllActive(ROWS)
    ensures rows2 == ActiveRows(Applied(RC, FLOOR, ROWS, SEARCH, ORDER))
    ensures rows2.Keys == {0, 2} && 7 in rows2[0].events && rows2[2] == ROWS[2]
  {
    var after := Applied(RC, FLOOR, ROWS, SEARCH, ORDER);
    AppliedRows();
    rows2 := ActiveRows(after);
    assert forall id :: id in rows2 <==> id == 0 || id == 2;
  }

  lemma AppliedRows()
    requires Keyed(ROWS) && Loaded(ROWS, ORDER) && AllActive(ROWS)
    ensures var after := Applied(RC, FLOOR, ROWS, SEARCH, ORDER);
      && (forall id :: id in after <==> id == 0 || id == 1 || id == 2)
      && after[0].active && 7 in after[0].events && !after[1].active && after[2] == ROWS[2]
  {
    var all := Everything(RC, FLOOR, ROWS, SEARCH, ORDER);
    DiscoveredMergesAreSafe(RC, FLOOR, ROWS, SEARCH, ORDER);
    var c := ZeroAndOneMerge();
    OneSurvivorHoldsEvidence(ROWS, ROWS, all, c);
    assert 7 in ROWS[1].events;
    forall d ensures !MergedIn(all, ROWS, 2, d) { TwoIsNeverMerged(d); }
    AfterMergesAt(ROWS, ROWS, all, 2);
  }

  lemma KeptOrder(rows2: Rows)
    requires rows2.Keys == {0, 2}
    ensures Kept(ORDER, rows2) == [0, 2]
  {
    assert ORDER[..2] == [0, 1] && [0, 1][..1] == [0] && [0][..0] == [];
    assert 0 in rows2 && 1 !in rows2 && 2 in rows2;
    assert Kept([], rows2) == [];
    assert Kept([0], rows2) == [0];
    assert Kept([0, 1], rows2) == [0];
  }

  lemma SecondVerdict(rows2: Rows)
    requires rows2.Keys == {0, 2} && 7 in rows2[0].events && rows2[2] == ROWS[2] && SameIdentity(ROWS[0], rows2[0])
    ensures MergeNow(RC, FLOOR, rows2[0], rows2[2])
  {
    Cosines();
    assert ShareEvent(rows2[2], rows2[0]) by { assert 7 in rows2[2].events; }
  }

  /** The documented promise that a rerun merges nothing more fails here: rows 0 and 2 are only a same-issue
      pair at first, and merge on the rerun because row 0 has inherited row 1's event. */
  lemma SharedEvidenceMakesRerunMerge()
    ensures Keyed(ROWS) && Loaded(ROWS, ORDER)
    ensures var rows2 := ActiveRows(Applied(RC, FLOOR, ROWS, SEARCH, ORDER));
      var order2 := Kept(ORDER, rows2);
      && RerunOf(RC, FLOOR, ROWS, SEARCH, ORDER, rows2, order2)
      && OnlyArchivedDropOut(SEARCH, SEARCH, rows2)
      && Keyed(rows2) && Loaded(rows2, order2)
      && AutoPart(RC, FLOOR, rows2, SEARCH, order2) != []
  {
    Setting();
    var rows2 := AfterFirstRun();
    KeptOrder(rows2);
    SurvivorsLoaded(RC, FLOOR, ROWS, SEARCH, ORDER);
    ExhaustiveRerunMergesIff(RC, FLOOR, ROWS, SEARCH, ORDER, RC, SEARCH);
    SecondVerdict(rows2);
    assert MergeNow(RC, FLOOR, rows2[[0, 2][0]], rows2[[0, 2][1]]);
  }
}
