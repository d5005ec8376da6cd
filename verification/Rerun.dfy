/** Discovering clusters again after one full, uncapped, fault-free apply. */
module Rerun {
  import opened Discovery
  import opened Graph
  import opened Merging
  import opened Reconcile
  import opened Scanning

  ghost predicate AllActive(rows: Rows) {
    forall id | id in rows :: rows[id].active
  }

  lemma ListIsSafe(autos: seq<Cluster>, pairs: seq<Cluster>)
    requires Disjoint(autos) && (forall c | c in autos :: MergeCluster(c))
    requires forall c | c in pairs :: c.decision != AutoMerge
    ensures DisjointMerges(autos + pairs) && NoRepeatedMerge(autos + pairs)
  {
    var all := autos + pairs;
    forall c, d, x | c in all && d in all && c.decision == AutoMerge && d.decision == AutoMerge
                     && x in c.members && x in d.members
      ensures c == d
    {
      var i :| 0 <= i < |autos| && autos[i] == c;
      var j :| 0 <= j < |autos| && autos[j] == d;
    }
    forall k | |autos| <= k < |all|
      ensures all[k].decision != AutoMerge
    {
      assert all[k] == pairs[k - |autos|];
    }
    forall i, j | 0 <= i < j < |all| && all[i].decision == AutoMerge
      ensures all[i] != all[j]
    {
      if j < |autos| {
        assert autos[i] in autos && autos[i].members[0] in autos[i].members;
      }
    }
  }

  /** Discovery hands the apply phase merges that are disjoint, unrepeated and about loaded rows. */
  lemma DiscoveredMergesAreSafe(rc: Reconciler, floor: real, rows: Rows, search: Search, order: seq<Id>)
    requires Keyed(rows) && Loaded(rows, order)
    ensures var all := Everything(rc, floor, rows, search, order);
      && DisjointMerges(all) && NoRepeatedMerge(all)
      && (forall c | c in all && c.decision == AutoMerge ::
            c in AutoPart(rc, floor, rows, search, order) && IsMerge(c, rows))
  {
    var autos, pairs := AutoPart(rc, floor, rows, search, order), PairPart(rc, floor, rows, search, order);
    ClustersAreComponents(rc, floor, rows, search, order);
    PairsOutsideComponents(rc, floor, rows, search, order);
    ListIsSafe(autos, pairs);
    forall c | c in autos
      ensures IsMerge(c, rows)
    {
      forall i | 0 <= i < |c.members|
        ensures c.members[i] in rows
      {
        MembersLoaded(rc, floor, rows, search, order, c, c.members[i]);
      }
    }
  }

  lemma MembersLoaded(rc: Reconciler, floor: real, rows: Rows, search: Search, order: seq<Id>, c: Cluster, x: Id)
    requires Keyed(rows) && Loaded(rows, order)
    requires c in AutoPart(rc, floor, rows, search, order) && x in c.members
    ensures x in rows
  {
    ClustersAreComponents(rc, floor, rows, search, order);
    var i :| 0 <= i < |c.members| && c.members[i] == x;
    var y := c.members[if i == 0 then 1 else 0];
    assert y in c.members && Holds(c, x, y);
    LeavesByAPair(MergePairs(rc, floor, rows, search, order), x, y);
    OffersWellFormed(rc, floor, rows, search, order);
    LedgerWellFormed(rows, Offers(rc, floor, rows, search, order));
  }

  /** The models table after everything discovered was applied. */
  ghost function Applied(rc: Reconciler, floor: real, rows: Rows, search: Search, order: seq<Id>): Rows
    requires Keyed(rows) && Loaded(rows, order)
  {
    AfterMerges(rows, rows, Everything(rc, floor, rows, search, order))
  }

  ghost function ActiveRows(rows: Rows): Rows {
    map id | id in rows && rows[id].active :: rows[id]
  }

  /** Of two connected ids at most one is still active after the apply. */
  lemma SurvivorsDisconnected(rc: Reconciler, floor: real, rows: Rows, search: Search, order: seq<Id>, a: Id, b: Id)
    requires Keyed(rows) && Loaded(rows, order) && AllActive(rows) && a != b
    requires Connected(MergePairs(rc, floor, rows, search, order), a, b)
    ensures var survivors := ActiveRows(Applied(rc, floor, rows, search, order)); a !in survivors || b !in survivors
  {
    var all, autos := Everything(rc, floor, rows, search, order), AutoPart(rc, floor, rows, search, order);
    ClustersAreComponents(rc, floor, rows, search, order);
    PairsOutsideComponents(rc, floor, rows, search, order);
    DiscoveredMergesAreSafe(rc, floor, rows, search, order);
    assert SomeHolds(autos, a, b);
    var c :| c in autos && Holds(c, a, b);
    assert c in all;
    OneSurvivorHoldsEvidence(rows, rows, all, c);
  }

  lemma FirstVerdictMerges(rc: Reconciler, floor: real, rows: Rows, search: Search, order: seq<Id>, key: Key)
    requires Keyed(rows) && Loaded(rows, order)
    requires FirstVerdict(Offers(rc, floor, rows, search, order), key) == AutoMerge
    ensures Connected(MergePairs(rc, floor, rows, search, order), key.0, key.1) && key.0 != key.1
    ensures key.0 in rows && key.1 in rows
  {
    var offers := Offers(rc, floor, rows, search, order);
    var auto := Replay(offers).auto;
    OffersWellFormed(rc, floor, rows, search, order);
    LedgerWellFormed(rows, offers);
    ReplayMeaning(offers, key);
    var i :| 0 <= i < |auto| && KeyOf(auto[i].0, auto[i].1) == key;
    assert (auto[i].0, auto[i].1) in Pairs(auto);
    ConnectedLink(Pairs(auto), key.0, key.1);
  }

  lemma PairHasFirstVerdict(rc: Reconciler, floor: real, rows: Rows, search: Search, order: seq<Id>, a: Id, b: Id)
    requires Keyed(rows) && Loaded(rows, order) && Linked(MergePairs(rc, floor, rows, search, order), a, b)
    ensures FirstVerdict(Offers(rc, floor, rows, search, order), KeyOf(a, b)) == AutoMerge
    ensures a in rows && b in rows && a != b
  {
    var offers := Offers(rc, floor, rows, search, order);
    OffersWellFormed(rc, floor, rows, search, order);
    LedgerWellFormed(rows, offers);
    ReplayMeaning(offers, KeyOf(a, b));
    var p :| p in Replay(offers).auto && (p == (a, b) || p == (b, a));
    assert KeyOf(p.0, p.1) == KeyOf(a, b);
  }

  lemma MergesHaveAFirstVerdict(rc: Reconciler, floor: real, rows: Rows, search: Search, order: seq<Id>)
    requires Keyed(rows) && Loaded(rows, order) && MergePairs(rc, floor, rows, search, order) != {}
    ensures exists key :: FirstVerdict(Offers(rc, floor, rows, search, order), key) == AutoMerge
  {
    var offers := Offers(rc, floor, rows, search, order);
    var p :| p in Replay(offers).auto;
    ReplayMeaning(offers, KeyOf(p.0, p.1));
  }

  /** Discovery emits no auto cluster exactly when no pair's first real verdict is auto_merge. */
  lemma NoMergeIffNoFirstVerdict(rc: Reconciler, floor: real, rows: Rows, search: Search, order: seq<Id>)
    requires Keyed(rows) && Loaded(rows, order)
    ensures AutoPart(rc, floor, rows, search, order) == [] <==>
            forall key :: FirstVerdict(Offers(rc, floor, rows, search, order), key) != AutoMerge
  {
    var autos := AutoPart(rc, floor, rows, search, order);
    ClustersAreComponents(rc, floor, rows, search, order);
    if key :| FirstVerdict(Offers(rc, floor, rows, search, order), key) == AutoMerge {
      FirstVerdictMerges(rc, floor, rows, search, order, key);
      assert SomeHolds(autos, key.0, key.1);
    }
    if autos != [] {
      var c := autos[0];
      assert c in autos && Holds(c, c.members[0], c.members[1]);
      assert SomeHolds(autos, c.members[0], c.members[1]);
      LeavesByAPair(MergePairs(rc, floor, rows, search, order), c.members[0], c.members[1]);
      MergesHaveAFirstVerdict(rc, floor, rows, search, order);
    }
  }

  /** Where the rerun stands: the rows still active, in the old order, with whatever the search then answers. */
  ghost predicate RerunOf(rc: Reconciler, floor: real, rows: Rows, search: Search, order: seq<Id>, rows2: Rows,
                          order2: seq<Id>)
    requires Keyed(rows) && Loaded(rows, order)
  {
    && AllActive(rows)
    && rows2 == ActiveRows(Applied(rc, floor, rows, search, order))
    && order2 == Kept(order, rows2)
  }

  function Kept(ids: seq<Id>, rows: Rows): (kept: seq<Id>)
    ensures forall i | 0 <= i < |kept| :: kept[i] in rows
  {
    if ids == [] then []
    else
      var before := Kept(ids[..|ids| - 1], rows);
      if ids[|ids| - 1] in rows then before + [ids[|ids| - 1]] else before
  }

  lemma RerunKeyed(rc: Reconciler, floor: real, rows: Rows, search: Search, order: seq<Id>, rows2: Rows,
                   order2: seq<Id>)
    requires Keyed(rows) && Loaded(rows, order) && RerunOf(rc, floor, rows, search, order, rows2, order2)
    ensures Keyed(rows2) && Loaded(rows2, order2)
    ensures forall id | id in rows2 :: id in rows && SameIdentity(rows[id], rows2[id])
  {
    var all := Everything(rc, floor, rows, search, order);
    DiscoveredMergesAreSafe(rc, floor, rows, search, order);
    AfterMergesAt(rows, rows, all, 0);
    forall id | id in rows2
      ensures id in rows && SameIdentity(rows[id], rows2[id])
    {
      AfterMergesAt(rows, rows, all, id);
      if c :| MergedIn(all, rows, id, c) { }
    }
  }

  // Equal in every field a merge leaves alone.
  predicate SameIdentity(a: Row, b: Row) {
    a.id == b.id && a.createdAt == b.createdAt && a.kind == b.kind && a.embedding == b.embedding
    && a.activation == b.activation
  }

  // -- When the rerun is clean ----------------------------------------------------------------------

  function Answer(search: Search, mid: Id): seq<Id> {
    if search(mid).None? then [] else search(mid).value
  }

  /** Archiving only removes rows from the search answers: no survivor enters or leaves a top-k cut. */
  ghost predicate OnlyArchivedDropOut(search: Search, search2: Search, rows2: Rows) {
    forall id | id in rows2 :: Kept(Answer(search, id), rows2) == Kept(Answer(search2, id), rows2)
  }

  /** The boosted score reads none of the fields a merge rewrites. */
  ghost predicate ScoreIgnoresMerges(rc: Reconciler) {
    forall a, b, a', b', c {:trigger rc.adjusted(a, b, c), rc.adjusted(a', b', c)} ::
      SameIdentity(a, a') && SameIdentity(b, b') ==> rc.adjusted(a, b, c) == rc.adjusted(a', b', c)
  }

  ghost predicate SurvivorsUnchanged(rows: Rows, rows2: Rows) {
    forall id | id in rows2 :: id in rows && SameIdentity(rows[id], rows2[id])
  }

  predicate Both(o: Offer, rows2: Rows) { o.earlier in rows2 && o.later in rows2 }

  function KeptOffers(offers: seq<Offer>, rows2: Rows): seq<Offer> {
    if offers == [] then []
    else
      var before := KeptOffers(offers[..|offers| - 1], rows2);
      if Both(offers[|offers| - 1], rows2) then before + [offers[|offers| - 1]] else before
  }

  lemma {:induction false} KeptOffersConcat(a: seq<Offer>, b: seq<Offer>, rows2: Rows)
    ensures KeptOffers(a + b, rows2) == KeptOffers(a, rows2) + KeptOffers(b, rows2)
  {
    if b == [] {
      assert a + b == a;
    } else {
      assert (a + b)[..|a + b| - 1] == a + b[..|b| - 1];
      KeptOffersConcat(a, b[..|b| - 1], rows2);
    }
  }

  lemma OfferUnchanged(rc: Reconciler, floor: real, rows: Rows, rows2: Rows, mid: Id, nb: Id)
    requires Keyed(rows) && Keyed(rows2) && SurvivorsUnchanged(rows, rows2) && ScoreIgnoresMerges(rc)
    requires mid in rows && nb in rows && mid != nb
    ensures Both(OfferOf(rc, floor, rows, mid, nb), rows2) <==> mid in rows2 && nb in rows2
    ensures mid in rows2 && nb in rows2 ==> OfferOf(rc, floor, rows, mid, nb) == OfferOf(rc, floor, rows2, mid, nb)
  {
    OrientPairUnordered(rows[mid], rows[nb]);
    if mid in rows2 && nb in rows2 {
      assert SameIdentity(rows[mid], rows2[mid]) && SameIdentity(rows[nb], rows2[nb]);
      var (e, l) := OrientPair(rows[mid], rows[nb]);
      var (e2, l2) := OrientPair(rows2[mid], rows2[nb]);
      var cosine := rc.cosine(l.embedding, e.embedding);
      assert rc.adjusted(l, e, cosine) == rc.adjusted(l2, e2, cosine);
    }
  }

  lemma {:induction false} RowOffersUnchanged(rc: Reconciler, floor: real, rows: Rows, rows2: Rows, mid: Id,
                                              nbs: seq<Id>)
    requires Keyed(rows) && Keyed(rows2) && SurvivorsUnchanged(rows, rows2) && ScoreIgnoresMerges(rc)
    requires mid in rows
    ensures KeptOffers(RowOffers(rc, floor, rows, mid, nbs), rows2) ==
            if mid in rows2 then RowOffers(rc, floor, rows2, mid, Kept(nbs, rows2)) else []
  {
    if nbs != [] {
      var init, nb := nbs[..|nbs| - 1], nbs[|nbs| - 1];
      RowOffersUnchanged(rc, floor, rows, rows2, mid, init);
      if Scored(rows, mid, nb) {
        OfferUnchanged(rc, floor, rows, rows2, mid, nb);
        var before := RowOffers(rc, floor, rows, mid, init);
        assert (before + [OfferOf(rc, floor, rows, mid, nb)])[..|before|] == before;
      }
      if nb in rows2 {
        assert nb in rows;
        var kept := Kept(init, rows2);
        assert (kept + [nb])[..|kept|] == kept;
      }
    }
  }

  lemma {:induction false} RowOffersSkipArchived(rc: Reconciler, floor: real, rows2: Rows, mid: Id, nbs: seq<Id>)
    requires mid in rows2
    ensures RowOffers(rc, floor, rows2, mid, nbs) == RowOffers(rc, floor, rows2, mid, Kept(nbs, rows2))
  {
    if nbs != [] {
      var init, nb := nbs[..|nbs| - 1], nbs[|nbs| - 1];
      RowOffersSkipArchived(rc, floor, rows2, mid, init);
      var kept := Kept(init, rows2);
      assert (kept + [nb])[..|kept|] == kept;
    }
  }

  /** Under the two conditions the rerun's scan sees exactly the first scan's offers between survivors. */
  lemma {:induction false} OffersUnchanged(rc: Reconciler, floor: real, rows: Rows, search: Search, order: seq<Id>,
                                           rows2: Rows, search2: Search)
    requires Keyed(rows) && Loaded(rows, order) && Keyed(rows2) && SurvivorsUnchanged(rows, rows2)
    requires ScoreIgnoresMerges(rc) && OnlyArchivedDropOut(search, search2, rows2)
    ensures KeptOffers(Offers(rc, floor, rows, search, order), rows2) ==
            Offers(rc, floor, rows2, search2, Kept(order, rows2))
  {
    if order != [] {
      var init, mid := order[..|order| - 1], order[|order| - 1];
      OffersUnchanged(rc, floor, rows, search, init, rows2, search2);
      var nbs := Neighbours(rows, search, mid);
      KeptOffersConcat(Offers(rc, floor, rows, search, init), RowOffers(rc, floor, rows, mid, nbs), rows2);
      RowOffersUnchanged(rc, floor, rows, rows2, mid, nbs);
      if mid in rows2 {
        assert SameIdentity(rows[mid], rows2[mid]);
        RowOffersSkipArchived(rc, floor, rows2, mid, Neighbours(rows2, search2, mid));
        var kept := Kept(init, rows2);
        assert (kept + [mid])[..|kept|] == kept;
      }
    }
  }
}
