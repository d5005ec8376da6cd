/** When a second discovery merges again, read off the first run's rows and clusters. */
module RerunCondition {
  import opened Discovery
  import opened Graph
  import opened Merging
  import opened Reconcile
  import opened Rerun
  import opened Scanning

  // -- The rows the first run leaves ------------------------------------------------------------------

  /** A row survives unless a merge of the list archives it. */
  ghost predicate Survives(rows: Rows, clusters: seq<Cluster>, id: Id) {
    forall c | MergedIn(clusters, rows, id, c) :: CanonicalOf(c.members, rows) == id
  }

  ghost function SurvivorRow(rows: Rows, clusters: seq<Cluster>, id: Id): Row
    requires id in rows
  {
    if c :| MergedIn(clusters, rows, id, c) then RowAfter(c.members, rows, rows[id], id) else rows[id]
  }

  /** What the first run leaves active, from the rows it loaded and the clusters it found. */
  ghost function Survivors(rows: Rows, clusters: seq<Cluster>): Rows {
    map id | id in rows && Survives(rows, clusters, id) :: SurvivorRow(rows, clusters, id)
  }

  lemma SurvivorIsActive(rows: Rows, clusters: seq<Cluster>, id: Id)
    requires AllActive(rows) && DisjointMerges(clusters) && NoRepeatedMerge(clusters) && id in rows
    ensures var after := AfterMerges(rows, rows, clusters);
      && id in after && (after[id].active <==> Survives(rows, clusters, id))
      && (Survives(rows, clusters, id) ==> after[id] == SurvivorRow(rows, clusters, id))
  {
    AfterMergesAt(rows, rows, clusters, id);
    if c :| MergedIn(clusters, rows, id, c) {
      assert forall d | MergedIn(clusters, rows, id, d) :: d == c;
    }
  }

  lemma SurvivorsAreActiveRows(rows: Rows, clusters: seq<Cluster>)
    requires AllActive(rows) && DisjointMerges(clusters) && NoRepeatedMerge(clusters)
    ensures ActiveRows(AfterMerges(rows, rows, clusters)) == Survivors(rows, clusters)
  {
    AfterMergesAt(rows, rows, clusters, 0);
    forall id | id in rows
      ensures id in ActiveRows(AfterMerges(rows, rows, clusters)) <==> id in Survivors(rows, clusters)
      ensures id in Survivors(rows, clusters) ==>
              ActiveRows(AfterMerges(rows, rows, clusters))[id] == Survivors(rows, clusters)[id]
    {
      SurvivorIsActive(rows, clusters, id);
    }
  }

  // -- One pair's verdict -------------------------------------------------------------------------------

  /** What scanning row mid decides about its neighbour. */
  function Judged(rc: Reconciler, floor: real, rows: Rows, search: Search, mid: Id, nb: Id): Decision
    requires mid in rows && nb in rows
  {
    if nb != mid && nb in Neighbours(rows, search, mid) then OfferOf(rc, floor, rows, mid, nb).verdict.decision
    else NoMatch
  }

  function Scanned(rc: Reconciler, floor: real, rows: Rows, search: Search, mid: Id, a: Id, b: Id,
                   before: Decision): Decision
    requires a in rows && b in rows
  {
    if before != NoMatch then before
    else if mid == a then Judged(rc, floor, rows, search, a, b)
    else if mid == b then Judged(rc, floor, rows, search, b, a)
    else NoMatch
  }

  /** The first real decision about a pair while the rows are scanned in order. */
  function PairVerdict(rc: Reconciler, floor: real, rows: Rows, search: Search, order: seq<Id>, a: Id, b: Id): Decision
    requires a in rows && b in rows
  {
    if order == [] then NoMatch
    else
      var before := PairVerdict(rc, floor, rows, search, order[..|order| - 1], a, b);
      Scanned(rc, floor, rows, search, order[|order| - 1], a, b, before)
  }

  /** What one row's scan adds to a pair's verdict so far. */
  function AfterRow(rc: Reconciler, floor: real, rows: Rows, mid: Id, nbs: seq<Id>, a: Id, b: Id,
                    before: Decision): Decision
    requires a in rows && b in rows
  {
    if before != NoMatch then before
    else if mid == a && b in nbs then OfferOf(rc, floor, rows, a, b).verdict.decision
    else if mid == b && a in nbs then OfferOf(rc, floor, rows, b, a).verdict.decision
    else NoMatch
  }

  lemma OfferKey(rc: Reconciler, floor: real, rows: Rows, mid: Id, nb: Id)
    requires Keyed(rows) && mid in rows && nb in rows && mid != nb
    ensures OfferOf(rc, floor, rows, mid, nb).Key() == KeyOf(mid, nb)
  {
    OrientPairUnordered(rows[mid], rows[nb]);
  }

  lemma VerdictNext(offers: seq<Offer>, o: Offer, key: Key)
    ensures FirstVerdict(offers + [o], key) ==
            if FirstVerdict(offers, key) == NoMatch && o.Key() == key then o.verdict.decision
            else FirstVerdict(offers, key)
  {
    assert (offers + [o])[..|offers|] == offers;
  }

  lemma NoOneOffered(rc: Reconciler, floor: real, rows: Rows, mid: Id, nbs: seq<Id>, nb: Id, a: Id, b: Id,
                     before: Decision)
    requires a in rows && b in rows && a != b && (nb == mid || KeyOf(mid, nb) != KeyOf(a, b))
    ensures AfterRow(rc, floor, rows, mid, nbs + [nb], a, b, before) ==
            AfterRow(rc, floor, rows, mid, nbs, a, b, before)
  {
  }

  lemma OneOffered(rc: Reconciler, floor: real, rows: Rows, mid: Id, nbs: seq<Id>, nb: Id, a: Id, b: Id,
                   before: Decision)
    requires a in rows && b in rows && mid in rows && nb in rows && nb != mid && KeyOf(mid, nb) == KeyOf(a, b)
    ensures var soFar := AfterRow(rc, floor, rows, mid, nbs, a, b, before);
      AfterRow(rc, floor, rows, mid, nbs + [nb], a, b, before) ==
      if soFar == NoMatch then OfferOf(rc, floor, rows, mid, nb).verdict.decision else soFar
  {
  }

  lemma {:induction false} RowOffersVerdict(rc: Reconciler, floor: real, rows: Rows, done: seq<Offer>, mid: Id,
                                            nbs: seq<Id>, a: Id, b: Id)
    requires Keyed(rows) && mid in rows && a in rows && b in rows && a != b
    ensures FirstVerdict(done + RowOffers(rc, floor, rows, mid, nbs), KeyOf(a, b)) ==
            AfterRow(rc, floor, rows, mid, nbs, a, b, FirstVerdict(done, KeyOf(a, b)))
  {
    if nbs == [] {
      assert done + [] == done;
    } else {
      var init, nb := nbs[..|nbs| - 1], nbs[|nbs| - 1];
      RowOffersVerdict(rc, floor, rows, done, mid, init, a, b);
      assert nbs == init + [nb];
      var verdict := FirstVerdict(done, KeyOf(a, b));
      if Scored(rows, mid, nb) {
        var before, o := RowOffers(rc, floor, rows, mid, init), OfferOf(rc, floor, rows, mid, nb);
        assert done + (before + [o]) == (done + before) + [o];
        VerdictNext(done + before, o, KeyOf(a, b));
        OfferKey(rc, floor, rows, mid, nb);
      }
      if Scored(rows, mid, nb) && KeyOf(mid, nb) == KeyOf(a, b) {
        OneOffered(rc, floor, rows, mid, init, nb, a, b, verdict);
      } else {
        NoOneOffered(rc, floor, rows, mid, init, nb, a, b, verdict);
      }
    }
  }

  /** The scan's first verdict on a pair is the pair's verdict. */
  lemma {:induction false} PairVerdictMeaning(rc: Reconciler, floor: real, rows: Rows, search: Search, order: seq<Id>,
                                              a: Id, b: Id)
    requires Keyed(rows) && Loaded(rows, order) && a in rows && b in rows && a != b
    ensures FirstVerdict(Offers(rc, floor, rows, search, order), KeyOf(a, b)) ==
            PairVerdict(rc, floor, rows, search, order, a, b)
  {
    if order != [] {
      var init, mid := order[..|order| - 1], order[|order| - 1];
      PairVerdictMeaning(rc, floor, rows, search, init, a, b);
      RowOffersVerdict(rc, floor, rows, Offers(rc, floor, rows, search, init), mid, Neighbours(rows, search, mid),
                       a, b);
    }
  }

  // -- The condition ------------------------------------------------------------------------------------

  lemma SurvivorsLoaded(rc: Reconciler, floor: real, rows: Rows, search: Search, order: seq<Id>)
    requires Keyed(rows) && Loaded(rows, order) && AllActive(rows)
    ensures var s := Survivors(rows, Everything(rc, floor, rows, search, order));
      && s == ActiveRows(Applied(rc, floor, rows, search, order))
      && RerunOf(rc, floor, rows, search, order, s, Kept(order, s))
      && Keyed(s) && Loaded(s, Kept(order, s)) && SurvivorsUnchanged(rows, s)
  {
    var s := Survivors(rows, Everything(rc, floor, rows, search, order));
    DiscoveredMergesAreSafe(rc, floor, rows, search, order);
    SurvivorsAreActiveRows(rows, Everything(rc, floor, rows, search, order));
    RerunKeyed(rc, floor, rows, search, order, s, Kept(order, s));
  }

  /** No two survivors had the verdict auto_merge in the first run. */
  lemma SurvivorsHadNoMergeVerdict(rc: Reconciler, floor: real, rows: Rows, search: Search, order: seq<Id>, a: Id,
                                   b: Id)
    requires Keyed(rows) && Loaded(rows, order) && AllActive(rows) && a != b
    requires var s := Survivors(rows, Everything(rc, floor, rows, search, order)); a in s && b in s
    ensures PairVerdict(rc, floor, rows, search, order, a, b) != AutoMerge
  {
    SurvivorsLoaded(rc, floor, rows, search, order);
    PairVerdictMeaning(rc, floor, rows, search, order, a, b);
    if PairVerdict(rc, floor, rows, search, order, a, b) == AutoMerge {
      FirstVerdictMerges(rc, floor, rows, search, order, KeyOf(a, b));
      if a > b { ConnectedSymmetric(MergePairs(rc, floor, rows, search, order), b, a); }
      SurvivorsDisconnected(rc, floor, rows, search, order, a, b);
    }
  }

  ghost predicate MergingPair(rc: Reconciler, floor: real, rows: Rows, search: Search, order: seq<Id>, a: Id, b: Id) {
    a in rows && b in rows && a != b && PairVerdict(rc, floor, rows, search, order, a, b) == AutoMerge
  }

  /** Discovery over any rows merges exactly when the verdict on some pair is auto_merge. */
  lemma MergesIffMergingPair(rc: Reconciler, floor: real, rows: Rows, search: Search, order: seq<Id>)
    requires Keyed(rows) && Loaded(rows, order)
    ensures AutoPart(rc, floor, rows, search, order) != [] <==>
            exists a, b :: MergingPair(rc, floor, rows, search, order, a, b)
  {
    var offers := Offers(rc, floor, rows, search, order);
    NoMergeIffNoFirstVerdict(rc, floor, rows, search, order);
    if key :| FirstVerdict(offers, key) == AutoMerge {
      FirstVerdictMerges(rc, floor, rows, search, order, key);
      OrderedKey(rc, floor, rows, search, order, key);
      PairVerdictMeaning(rc, floor, rows, search, order, key.0, key.1);
      assert MergingPair(rc, floor, rows, search, order, key.0, key.1);
    }
    if a, b :| MergingPair(rc, floor, rows, search, order, a, b) {
      PairVerdictMeaning(rc, floor, rows, search, order, a, b);
      assert FirstVerdict(offers, KeyOf(a, b)) == AutoMerge;
    }
  }

  lemma OrderedKey(rc: Reconciler, floor: real, rows: Rows, search: Search, order: seq<Id>, key: Key)
    requires Keyed(rows) && Loaded(rows, order)
    requires FirstVerdict(Offers(rc, floor, rows, search, order), key) == AutoMerge
    ensures KeyOf(key.0, key.1) == key
  {
    FirstVerdictOffered(Offers(rc, floor, rows, search, order), key);
  }

  lemma {:induction false} FirstVerdictOffered(offers: seq<Offer>, key: Key)
    requires FirstVerdict(offers, key) != NoMatch
    ensures KeyOf(key.0, key.1) == key
  {
    if FirstVerdict(offers[..|offers| - 1], key) != NoMatch { FirstVerdictOffered(offers[..|offers| - 1], key); }
  }

  /** A rerun, under any scoring and any search answers, merges again if and only if two rows the first run left
      get the verdict auto_merge as it left them; and that verdict is then a new one. */
  lemma RerunMergesIff(rc: Reconciler, floor: real, rows: Rows, search: Search, order: seq<Id>, rc2: Reconciler,
                       search2: Search)
    requires Keyed(rows) && Loaded(rows, order) && AllActive(rows)
    ensures var s := Survivors(rows, Everything(rc, floor, rows, search, order)); var order2 := Kept(order, s);
      && s == ActiveRows(Applied(rc, floor, rows, search, order)) && Keyed(s) && Loaded(s, order2)
      && (AutoPart(rc2, floor, s, search2, order2) != [] <==>
            exists a, b :: MergingPair(rc2, floor, s, search2, order2, a, b))
      && (forall a, b | MergingPair(rc2, floor, s, search2, order2, a, b) ::
            a in rows && b in rows && PairVerdict(rc, floor, rows, search, order, a, b) != AutoMerge)
  {
    var s := Survivors(rows, Everything(rc, floor, rows, search, order));
    SurvivorsLoaded(rc, floor, rows, search, order);
    MergesIffMergingPair(rc2, floor, s, search2, Kept(order, s));
    forall a, b | MergingPair(rc2, floor, s, search2, Kept(order, s), a, b)
      ensures a in rows && b in rows && PairVerdict(rc, floor, rows, search, order, a, b) != AutoMerge
    {
      SurvivorsHadNoMergeVerdict(rc, floor, rows, search, order, a, b);
    }
  }

  // -- Exhaustive search ----------------------------------------------------------------------------------

  /** What the scanner decides about another row, from the two rows alone. */
  function RowVerdict(rc: Reconciler, floor: real, scanner: Row, other: Row): Decision {
    if scanner.embedding == [] then NoMatch
    else
      var (earlier, later) := OrientPair(scanner, other);
      ClassifyPair(rc, earlier, later, rc.rule(scanner.kind), floor).decision
  }

  /** Auto_merge under the first scanner's kind rule, or no_match there and auto_merge under the second's. */
  predicate MergeNow(rc: Reconciler, floor: real, first: Row, second: Row) {
    || RowVerdict(rc, floor, first, second) == AutoMerge
    || (RowVerdict(rc, floor, first, second) == NoMatch && RowVerdict(rc, floor, second, first) == AutoMerge)
  }

  /** The search leaves no row out. */
  ghost predicate Exhaustive(search: Search, rows: Rows) {
    forall mid, nb | mid in rows && nb in rows && nb != mid :: nb in Answer(search, mid)
  }

  ghost predicate DistinctOrder(order: seq<Id>) { forall i, j | 0 <= i < j < |order| :: order[i] != order[j] }

  lemma ExhaustiveJudges(rc: Reconciler, floor: real, rows: Rows, search: Search, mid: Id, nb: Id)
    requires Exhaustive(search, rows) && mid in rows && nb in rows && mid != nb
    ensures Judged(rc, floor, rows, search, mid, nb) == RowVerdict(rc, floor, rows[mid], rows[nb])
  {
    assert nb in Answer(search, mid);
  }

  /** Only the two rows' own scans matter, the earlier in order first. */
  lemma {:induction false} TwoScans(rc: Reconciler, floor: real, rows: Rows, search: Search, order: seq<Id>, i: nat,
                                    j: nat)
    requires Loaded(rows, order) && DistinctOrder(order) && i < j < |order|
    ensures PairVerdict(rc, floor, rows, search, order, order[i], order[j]) ==
            var first := Judged(rc, floor, rows, search, order[i], order[j]);
            if first != NoMatch then first else Judged(rc, floor, rows, search, order[j], order[i])
    decreases |order|
  {
    var init, a, b := order[..|order| - 1], order[i], order[j];
    if j < |order| - 1 { TwoScans(rc, floor, rows, search, init, i, j); }
    else { OneScan(rc, floor, rows, search, init, i, b); }
  }

  lemma {:induction false} OneScan(rc: Reconciler, floor: real, rows: Rows, search: Search, order: seq<Id>, i: nat,
                                   b: Id)
    requires Loaded(rows, order) && DistinctOrder(order) && i < |order| && b in rows && b !in order
    ensures PairVerdict(rc, floor, rows, search, order, order[i], b) == Judged(rc, floor, rows, search, order[i], b)
    decreases |order|
  {
    var init := order[..|order| - 1];
    assert order[|order| - 1] in order && forall x | x in init :: x in order;
    if i < |order| - 1 { OneScan(rc, floor, rows, search, init, i, b); }
    else { NoScan(rc, floor, rows, search, init, order[i], b); }
  }

  lemma {:induction false} NoScan(rc: Reconciler, floor: real, rows: Rows, search: Search, order: seq<Id>, a: Id, b: Id)
    requires a in rows && b in rows && a !in order && b !in order
    ensures PairVerdict(rc, floor, rows, search, order, a, b) == NoMatch
  {
    if order != [] {
      assert order[|order| - 1] in order && forall x | x in order[..|order| - 1] :: x in order;
      NoScan(rc, floor, rows, search, order[..|order| - 1], a, b);
    }
  }

  lemma {:induction false} VerdictSymmetric(rc: Reconciler, floor: real, rows: Rows, search: Search, order: seq<Id>,
                                            a: Id, b: Id)
    requires a in rows && b in rows
    ensures PairVerdict(rc, floor, rows, search, order, a, b) == PairVerdict(rc, floor, rows, search, order, b, a)
  {
    if order != [] { VerdictSymmetric(rc, floor, rows, search, order[..|order| - 1], a, b); }
  }

  /** Discovery over rows listed once each, with a search that leaves none out, merges exactly when two of them do. */
  lemma ExhaustiveMergesIff(rc: Reconciler, floor: real, rows: Rows, search: Search, order: seq<Id>)
    requires Keyed(rows) && Loaded(rows, order) && DistinctOrder(order) && (forall id | id in rows :: id in order)
    requires Exhaustive(search, rows)
    ensures AutoPart(rc, floor, rows, search, order) != [] <==>
            exists i, j | 0 <= i < j < |order| :: MergeNow(rc, floor, rows[order[i]], rows[order[j]])
  {
    MergesIffMergingPair(rc, floor, rows, search, order);
    if a, b :| MergingPair(rc, floor, rows, search, order, a, b) {
      var i :| 0 <= i < |order| && order[i] == a;
      var j :| 0 <= j < |order| && order[j] == b;
      VerdictSymmetric(rc, floor, rows, search, order, a, b);
      if i < j { ExhaustivePair(rc, floor, rows, search, order, i, j); }
      else { ExhaustivePair(rc, floor, rows, search, order, j, i); }
    }
    if i, j :| 0 <= i < j < |order| && MergeNow(rc, floor, rows[order[i]], rows[order[j]]) {
      ExhaustivePair(rc, floor, rows, search, order, i, j);
    }
  }

  lemma ExhaustivePair(rc: Reconciler, floor: real, rows: Rows, search: Search, order: seq<Id>, i: nat, j: nat)
    requires Loaded(rows, order) && DistinctOrder(order) && Exhaustive(search, rows) && i < j < |order|
    ensures MergingPair(rc, floor, rows, search, order, order[i], order[j]) <==>
            MergeNow(rc, floor, rows[order[i]], rows[order[j]])
  {
    TwoScans(rc, floor, rows, search, order, i, j);
    ExhaustiveJudges(rc, floor, rows, search, order[i], order[j]);
    ExhaustiveJudges(rc, floor, rows, search, order[j], order[i]);
  }

  lemma {:induction false} KeptMeaning(ids: seq<Id>, rows: Rows)
    ensures forall x :: x in Kept(ids, rows) <==> x in ids && x in rows
    ensures DistinctOrder(ids) ==> DistinctOrder(Kept(ids, rows))
  {
    if ids != [] {
      var init, last := ids[..|ids| - 1], ids[|ids| - 1];
      KeptMeaning(init, rows);
      assert ids == init + [last];
      if DistinctOrder(ids) { assert last !in init; }
    }
  }

  /** With a search that leaves no row out, a rerun merges again if and only if two rows, as the first run left
      them, merge under the kind rule of the one scanned first, or find no match there and merge under the other's. */
  lemma ExhaustiveRerunMergesIff(rc: Reconciler, floor: real, rows: Rows, search: Search, order: seq<Id>,
                                 rc2: Reconciler, search2: Search)
    requires Keyed(rows) && Loaded(rows, order) && AllActive(rows)
    requires DistinctOrder(order) && (forall id | id in rows :: id in order)
    requires Exhaustive(search2, Survivors(rows, Everything(rc, floor, rows, search, order)))
    ensures var s := Survivors(rows, Everything(rc, floor, rows, search, order)); var order2 := Kept(order, s);
      && s == ActiveRows(Applied(rc, floor, rows, search, order)) && Keyed(s) && Loaded(s, order2)
      && (AutoPart(rc2, floor, s, search2, order2) != [] <==>
            exists i, j | 0 <= i < j < |order2| :: MergeNow(rc2, floor, s[order2[i]], s[order2[j]]))
  {
    var s := Survivors(rows, Everything(rc, floor, rows, search, order));
    SurvivorsLoaded(rc, floor, rows, search, order);
    KeptMeaning(order, s);
    ExhaustiveMergesIff(rc2, floor, s, search2, Kept(order, s));
  }

  // -- The clean rerun --------------------------------------------------------------------------------------

  lemma JudgedUnchanged(rc: Reconciler, floor: real, rows: Rows, search: Search, s: Rows, search2: Search, a: Id, b: Id)
    requires Keyed(rows) && Keyed(s) && SurvivorsUnchanged(rows, s) && a in s && b in s && a != b
    requires ScoreIgnoresMerges(rc) && OnlyArchivedDropOut(search, search2, s)
    ensures a in rows && b in rows && Judged(rc, floor, s, search2, a, b) == Judged(rc, floor, rows, search, a, b)
  {
    assert SameIdentity(rows[a], s[a]) && SameIdentity(rows[b], s[b]);
    OfferUnchanged(rc, floor, rows, s, a, b);
    KeptMeaning(Answer(search, a), s);
    KeptMeaning(Answer(search2, a), s);
    assert b in Answer(search, a) <==> b in Kept(Answer(search, a), s);
  }

  lemma ScannedUnchanged(rc: Reconciler, floor: real, rows: Rows, search: Search, s: Rows, search2: Search, mid: Id,
                         a: Id, b: Id, before: Decision)
    requires Keyed(rows) && Keyed(s) && SurvivorsUnchanged(rows, s) && a in s && b in s && a != b
    requires a in rows && b in rows
    requires ScoreIgnoresMerges(rc) && OnlyArchivedDropOut(search, search2, s)
    ensures Scanned(rc, floor, s, search2, mid, a, b, before) == Scanned(rc, floor, rows, search, mid, a, b, before)
    ensures mid !in s ==> Scanned(rc, floor, rows, search, mid, a, b, before) == before
  {
    JudgedUnchanged(rc, floor, rows, search, s, search2, a, b);
    JudgedUnchanged(rc, floor, rows, search, s, search2, b, a);
  }

  lemma OneMoreScan(rc: Reconciler, floor: real, rows: Rows, search: Search, order: seq<Id>, mid: Id, a: Id, b: Id)
    requires a in rows && b in rows
    ensures PairVerdict(rc, floor, rows, search, order + [mid], a, b) ==
            Scanned(rc, floor, rows, search, mid, a, b, PairVerdict(rc, floor, rows, search, order, a, b))
  {
    assert (order + [mid])[..|order|] == order;
  }

  lemma KeptNext(order: seq<Id>, rows: Rows, mid: Id)
    ensures Kept(order + [mid], rows) == if mid in rows then Kept(order, rows) + [mid] else Kept(order, rows)
  {
    assert (order + [mid])[..|order|] == order;
  }

  lemma {:induction false} VerdictUnchanged(rc: Reconciler, floor: real, rows: Rows, search: Search, order: seq<Id>,
                                            s: Rows, search2: Search, a: Id, b: Id)
    requires Keyed(rows) && Keyed(s) && SurvivorsUnchanged(rows, s) && a in s && b in s && a != b
    requires a in rows && b in rows
    requires ScoreIgnoresMerges(rc) && OnlyArchivedDropOut(search, search2, s)
    ensures PairVerdict(rc, floor, s, search2, Kept(order, s), a, b) ==
            PairVerdict(rc, floor, rows, search, order, a, b)
  {
    if order != [] {
      var init, mid := order[..|order| - 1], order[|order| - 1];
      assert order == init + [mid];
      VerdictUnchanged(rc, floor, rows, search, init, s, search2, a, b);
      ScannedUnchanged(rc, floor, rows, search, s, search2, mid, a, b,
                       PairVerdict(rc, floor, rows, search, init, a, b));
      KeptNext(init, s, mid);
      OneMoreScan(rc, floor, rows, search, init, mid, a, b);
      OneMoreScan(rc, floor, s, search2, Kept(init, s), mid, a, b);
    }
  }

  /** Re-running on merged data merges nothing more, provided archiving is all that happens to the search
      answers and the score ignores what a merge rewrites. */
  lemma RerunIsClean(rc: Reconciler, floor: real, rows: Rows, search: Search, order: seq<Id>,
                     rows2: Rows, search2: Search, order2: seq<Id>)
    requires Keyed(rows) && Loaded(rows, order) && RerunOf(rc, floor, rows, search, order, rows2, order2)
    requires ScoreIgnoresMerges(rc) && OnlyArchivedDropOut(search, search2, rows2)
    ensures Keyed(rows2) && Loaded(rows2, order2)
    ensures AutoPart(rc, floor, rows2, search2, order2) == []
  {
    SurvivorsLoaded(rc, floor, rows, search, order);
    RerunMergesIff(rc, floor, rows, search, order, rc, search2);
    if a, b :| MergingPair(rc, floor, rows2, search2, order2, a, b) {
      VerdictUnchanged(rc, floor, rows, search, order, rows2, search2, a, b);
      assert false;
    }
  }
}
