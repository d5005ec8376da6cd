/** What a scan looks at, what it records, and what the emitted clusters carry, field by field and in order. */
module Emission {
  import opened Discovery
  import opened Graph
  import opened Positions
  import opened Reconcile
  import opened Scanning
  import opened UnionFind

  // -- The offers are the looks of the scan ---------------------------------------------------------------

  // A look, by position: a row of the scan, and a neighbour in the search's answer for it.
  type Look = (nat, nat)

  predicate Before(a: Look, b: Look) { a.0 < b.0 || (a.0 == b.0 && a.1 < b.1) }

  ghost predicate InOrder(looks: seq<Look>) { forall s, t | 0 <= s < t < |looks| :: Before(looks[s], looks[t]) }

  /** A row with an embedding and an answer is compared with every answered row that is loaded and not itself. */
  predicate IsLook(rows: Rows, search: Search, order: seq<Id>, k: Look)
    requires Loaded(rows, order)
  {
    && k.0 < |order| && rows[order[k.0]].embedding != [] && search(order[k.0]).Some?
    && k.1 < |search(order[k.0]).value|
    && search(order[k.0]).value[k.1] != order[k.0] && search(order[k.0]).value[k.1] in rows
  }

  function LookedAt(search: Search, order: seq<Id>, k: Look): Id
    requires k.0 < |order| && search(order[k.0]).Some? && k.1 < |search(order[k.0]).value|
  {
    search(order[k.0]).value[k.1]
  }

  /** The decision the thresholds of a rule give a score. */
  predicate Decides(rc: Reconciler, rule: KindRule, floor: real, cosine: real, score: real, d: Decision) {
    && (d == AutoMerge <==> cosine >= floor && !Blocked(rule) && score >= AutoMergeAt(rc, rule))
    && (d == HumanReview <==> cosine >= floor && Blocked(rule) && score >= HumanReviewAt(rc, rule))
    && (d == SameIssue <==>
          cosine >= floor && !Blocked(rule) && HumanReviewAt(rc, rule) <= score < AutoMergeAt(rc, rule))
  }

  /** The cosine of a pair, the later row's embedding against the earlier one's. */
  function BaseCosine(rc: Reconciler, rows: Rows, a: Id, b: Id): real
    requires a in rows && b in rows
  {
    var (earlier, later) := OrientPair(rows[a], rows[b]);
    rc.cosine(later.embedding, earlier.embedding)
  }

  /** The offer made when row mid looks at row nb: the oriented pair, the looking row's kind, the plain cosine, the
      score, and the decision of the looking row's rule. */
  predicate TrueOffer(rc: Reconciler, floor: real, rows: Rows, mid: Id, nb: Id, o: Offer)
    requires mid in rows && nb in rows
  {
    var (earlier, later) := OrientPair(rows[mid], rows[nb]);
    var cosine := rc.cosine(later.embedding, earlier.embedding);
    var score := rc.adjusted(later, earlier, cosine);
    && o.earlier == earlier.id && o.later == later.id && o.kind == rows[mid].kind
    && o.verdict.cosine == cosine && o.verdict.adjusted == (if cosine < floor then cosine else score)
    && Decides(rc, rc.rule(rows[mid].kind), floor, cosine, score, o.verdict.decision)
  }

  lemma OfferIsTrue(rc: Reconciler, floor: real, rows: Rows, mid: Id, nb: Id)
    requires mid in rows && nb in rows
    ensures TrueOffer(rc, floor, rows, mid, nb, OfferOf(rc, floor, rows, mid, nb))
  {
    var (earlier, later) := OrientPair(rows[mid], rows[nb]);
    DecisionMeaning(rc, earlier, later, rc.rule(rows[mid].kind), floor);
  }

  // -- One row's looks

  predicate IsScored(rows: Rows, mid: Id, nbs: seq<Id>, j: nat) { j < |nbs| && nbs[j] != mid && nbs[j] in rows }

  function ScoredAt(rows: Rows, mid: Id, nbs: seq<Id>): nat -> bool { (j: nat) => IsScored(rows, mid, nbs, j) }

  ghost function RowLooks(rows: Rows, mid: Id, nbs: seq<Id>, n: nat): seq<nat> {
    Where(ScoredAt(rows, mid, nbs), n)
  }

  function RowOffersAt(rc: Reconciler, floor: real, rows: Rows, mid: Id, nbs: seq<Id>, js: seq<nat>): seq<Offer>
    requires mid in rows && forall j | j in js :: IsScored(rows, mid, nbs, j)
  {
    seq(|js|, t requires 0 <= t < |js| =>
      assert js[t] in js && IsScored(rows, mid, nbs, js[t]);
      OfferOf(rc, floor, rows, mid, nbs[js[t]]))
  }

  lemma {:induction false} RowOffersByPosition(rc: Reconciler, floor: real, rows: Rows, mid: Id, nbs: seq<Id>, n: nat)
    requires mid in rows && n <= |nbs|
    ensures forall j | j in RowLooks(rows, mid, nbs, n) :: IsScored(rows, mid, nbs, j)
    ensures RowOffers(rc, floor, rows, mid, nbs[..n]) ==
            RowOffersAt(rc, floor, rows, mid, nbs, RowLooks(rows, mid, nbs, n))
  {
    WhereMeaning(ScoredAt(rows, mid, nbs), n);
    if n > 0 {
      RowOffersByPosition(rc, floor, rows, mid, nbs, n - 1);
      RowOffersNext(rc, floor, rows, mid, nbs, n - 1);
    }
  }

  // -- The whole scan's looks

  function AtRow(n: nat, js: seq<nat>): seq<Look> { seq(|js|, t requires 0 <= t < |js| => (n, js[t])) }

  ghost function Looks(rows: Rows, search: Search, order: seq<Id>, n: nat): seq<Look>
    requires Loaded(rows, order) && n <= |order|
  {
    if n == 0 then []
    else
      var mid := order[n - 1];
      var nbs := Neighbours(rows, search, mid);
      Looks(rows, search, order, n - 1) + AtRow(n - 1, RowLooks(rows, mid, nbs, |nbs|))
  }

  lemma AtRowMeaning(rows: Rows, search: Search, order: seq<Id>, i: nat, k: Look)
    requires Loaded(rows, order) && i < |order|
    ensures var nbs := Neighbours(rows, search, order[i]);
      k in AtRow(i, RowLooks(rows, order[i], nbs, |nbs|)) <==> k.0 == i && IsLook(rows, search, order, k)
  {
    var nbs := Neighbours(rows, search, order[i]);
    var js := RowLooks(rows, order[i], nbs, |nbs|);
    WhereMeaning(ScoredAt(rows, order[i], nbs), |nbs|);
    if k.0 == i && k.1 in js {
      var t :| 0 <= t < |js| && js[t] == k.1;
      assert AtRow(i, js)[t] == k;
    }
  }

  /** Which looks there are. */
  lemma {:induction false} LooksMeaning(rows: Rows, search: Search, order: seq<Id>, n: nat)
    requires Loaded(rows, order) && n <= |order|
    ensures forall k :: k in Looks(rows, search, order, n) <==> k.0 < n && IsLook(rows, search, order, k)
  {
    if n > 0 {
      LooksMeaning(rows, search, order, n - 1);
      forall k ensures k in Looks(rows, search, order, n) <==> k.0 < n && IsLook(rows, search, order, k) {
        AtRowMeaning(rows, search, order, n - 1, k);
      }
    }
  }

  lemma AtRowInOrder(before: seq<Look>, n: nat, js: seq<nat>)
    requires InOrder(before) && forall k | k in before :: k.0 < n
    requires forall s, t | 0 <= s < t < |js| :: js[s] < js[t]
    ensures InOrder(before + AtRow(n, js))
  {
    forall s, t | 0 <= s < t < |before + AtRow(n, js)|
      ensures Before((before + AtRow(n, js))[s], (before + AtRow(n, js))[t])
    {
      if s < |before| { assert before[s] in before; }
    }
  }

  lemma {:induction false} LooksInOrder(rows: Rows, search: Search, order: seq<Id>, n: nat)
    requires Loaded(rows, order) && n <= |order|
    ensures InOrder(Looks(rows, search, order, n))
  {
    if n > 0 {
      var mid := order[n - 1];
      var nbs := Neighbours(rows, search, mid);
      LooksInOrder(rows, search, order, n - 1);
      LooksMeaning(rows, search, order, n - 1);
      WhereMeaning(ScoredAt(rows, mid, nbs), |nbs|);
      AtRowInOrder(Looks(rows, search, order, n - 1), n - 1, RowLooks(rows, mid, nbs, |nbs|));
    }
  }

  ghost predicate OffersAtLooks(rc: Reconciler, floor: real, rows: Rows, search: Search, order: seq<Id>,
                                looks: seq<Look>, offers: seq<Offer>)
    requires Loaded(rows, order)
  {
    && |offers| == |looks|
    && forall t | 0 <= t < |looks| :: IsLook(rows, search, order, looks[t]) &&
         offers[t] == OfferOf(rc, floor, rows, order[looks[t].0], LookedAt(search, order, looks[t]))
  }

  lemma OffersAtBoth(rc: Reconciler, floor: real, rows: Rows, search: Search, order: seq<Id>,
                     looks: seq<Look>, offers: seq<Offer>, more: seq<Look>, others: seq<Offer>)
    requires Loaded(rows, order)
    requires OffersAtLooks(rc, floor, rows, search, order, looks, offers)
    requires OffersAtLooks(rc, floor, rows, search, order, more, others)
    ensures OffersAtLooks(rc, floor, rows, search, order, looks + more, offers + others)
  {
    forall t | 0 <= t < |looks + more|
      ensures IsLook(rows, search, order, (looks + more)[t])
      ensures (offers + others)[t] ==
              OfferOf(rc, floor, rows, order[(looks + more)[t].0], LookedAt(search, order, (looks + more)[t]))
    {
      if t < |looks| {
        assert (looks + more)[t] == looks[t] && (offers + others)[t] == offers[t];
      } else {
        assert (looks + more)[t] == more[t - |looks|] && (offers + others)[t] == others[t - |looks|];
      }
    }
  }

  lemma RowAtLooks(rc: Reconciler, floor: real, rows: Rows, search: Search, order: seq<Id>, i: nat)
    requires Loaded(rows, order) && i < |order|
    ensures var nbs := Neighbours(rows, search, order[i]);
      OffersAtLooks(rc, floor, rows, search, order, AtRow(i, RowLooks(rows, order[i], nbs, |nbs|)),
                    RowOffers(rc, floor, rows, order[i], nbs))
  {
    var nbs := Neighbours(rows, search, order[i]);
    var js := RowLooks(rows, order[i], nbs, |nbs|);
    RowOffersByPosition(rc, floor, rows, order[i], nbs, |nbs|);
    assert nbs[..|nbs|] == nbs;
    forall t | 0 <= t < |js| ensures IsLook(rows, search, order, AtRow(i, js)[t]) {
      assert js[t] in js && IsScored(rows, order[i], nbs, js[t]);
    }
  }

  lemma {:induction false} ScanAtLooks(rc: Reconciler, floor: real, rows: Rows, search: Search, order: seq<Id>, n: nat)
    requires Loaded(rows, order) && n <= |order|
    ensures OffersAtLooks(rc, floor, rows, search, order, Looks(rows, search, order, n),
                          Offers(rc, floor, rows, search, order[..n]))
  {
    if n > 0 {
      ScanAtLooks(rc, floor, rows, search, order, n - 1);
      OffersNext(rc, floor, rows, search, order, n - 1);
      RowAtLooks(rc, floor, rows, search, order, n - 1);
      var nbs := Neighbours(rows, search, order[n - 1]);
      OffersAtBoth(rc, floor, rows, search, order, Looks(rows, search, order, n - 1),
                   Offers(rc, floor, rows, search, order[..n - 1]),
                   AtRow(n - 1, RowLooks(rows, order[n - 1], nbs, |nbs|)),
                   RowOffers(rc, floor, rows, order[n - 1], nbs));
    }
  }

  /** The offers of a scan are, in order, one true offer for each look and no other. */
  lemma OffersAreTheScan(rc: Reconciler, floor: real, rows: Rows, search: Search, order: seq<Id>)
    requires Loaded(rows, order)
    ensures var looks := Looks(rows, search, order, |order|); var offers := Offers(rc, floor, rows, search, order);
      && InOrder(looks) && (forall k :: k in looks <==> IsLook(rows, search, order, k))
      && |offers| == |looks|
      && forall t | 0 <= t < |looks| ::
           && IsLook(rows, search, order, looks[t])
           && TrueOffer(rc, floor, rows, order[looks[t].0], LookedAt(search, order, looks[t]), offers[t])
  {
    var looks := Looks(rows, search, order, |order|);
    LooksMeaning(rows, search, order, |order|);
    LooksInOrder(rows, search, order, |order|);
    ScanAtLooks(rc, floor, rows, search, order, |order|);
    assert order[..|order|] == order;
    forall t | 0 <= t < |looks|
      ensures IsLook(rows, search, order, looks[t])
      ensures TrueOffer(rc, floor, rows, order[looks[t].0], LookedAt(search, order, looks[t]),
                        Offers(rc, floor, rows, search, order)[t])
    {
      assert IsLook(rows, search, order, looks[t]);
      OfferIsTrue(rc, floor, rows, order[looks[t].0], LookedAt(search, order, looks[t]));
    }
  }

  // -- What the scan records --------------------------------------------------------------------------------

  predicate SamePair(o: Offer, p: Offer) {
    (o.earlier == p.earlier && o.later == p.later) || (o.earlier == p.later && o.later == p.earlier)
  }

  /** An offer of the same pair before number t was borderline. */
  predicate SeenBorderline(offers: seq<Offer>, t: nat)
    requires t < |offers|
  {
    exists s | 0 <= s < t :: SamePair(offers[s], offers[t]) && Borderline(offers[s].verdict.decision)
  }

  predicate Merges(offers: seq<Offer>, t: nat) {
    t < |offers| && offers[t].verdict.decision == AutoMerge && !SeenBorderline(offers, t)
  }

  predicate Remembers(offers: seq<Offer>, t: nat) {
    t < |offers| && Borderline(offers[t].verdict.decision) && !SeenBorderline(offers, t)
  }

  function MergesOf(offers: seq<Offer>): nat -> bool { (t: nat) => Merges(offers, t) }

  function RemembersOf(offers: seq<Offer>): nat -> bool { (t: nat) => Remembers(offers, t) }

  lemma SameKey(o: Offer, p: Offer)
    ensures o.Key() == p.Key() <==> SamePair(o, p)
  {
  }

  ghost predicate BorderlineBelow(offers: seq<Offer>, n: nat, key: Key)
    requires n <= |offers|
  {
    exists s | 0 <= s < n :: offers[s].Key() == key && Borderline(offers[s].verdict.decision)
  }

  lemma RecordKeys(ledger: Ledger, o: Offer, key: Key)
    ensures HasKey(Record(ledger, o).other, key) <==>
            HasKey(ledger.other, key) || (o.Key() == key && Borderline(o.verdict.decision))
  {
    var after := Record(ledger, o).other;
    if HasKey(ledger.other, key) {
      var e :| e in ledger.other && e.key == key;
      assert e in after;
    }
    if !HasKey(ledger.other, o.Key()) && Borderline(o.verdict.decision) {
      assert after[|after| - 1] in after && after[|after| - 1].key == o.Key();
    }
  }

  lemma {:induction false} RememberedIff(offers: seq<Offer>, n: nat, key: Key)
    requires n <= |offers|
    ensures HasKey(Replay(offers[..n]).other, key) <==> BorderlineBelow(offers, n, key)
  {
    if n > 0 {
      RememberedIff(offers, n - 1, key);
      assert offers[..n][..n - 1] == offers[..n - 1];
      RecordKeys(Replay(offers[..n - 1]), offers[n - 1], key);
    }
  }

  lemma HasKeyIffSeen(offers: seq<Offer>, n: nat)
    requires n < |offers|
    ensures HasKey(Replay(offers[..n]).other, offers[n].Key()) <==> SeenBorderline(offers, n)
  {
    RememberedIff(offers, n, offers[n].Key());
    forall s | 0 <= s < n ensures offers[s].Key() == offers[n].Key() <==> SamePair(offers[s], offers[n]) {
      SameKey(offers[s], offers[n]);
    }
  }

  function MergedAt(offers: seq<Offer>, ts: seq<nat>): seq<Key> {
    seq(|ts|, i requires 0 <= i < |ts| =>
      if ts[i] < |offers| then (offers[ts[i]].earlier, offers[ts[i]].later) else (0, 0))
  }

  function EntryOf(o: Offer): Entry { Entry(o.Key(), o.verdict.decision, o.verdict.cosine, o.kind) }

  function RememberedAt(offers: seq<Offer>, ts: seq<nat>): seq<Entry> {
    seq(|ts|, i requires 0 <= i < |ts| =>
      if ts[i] < |offers| then EntryOf(offers[ts[i]]) else Entry((0, 0), NoMatch, 0.0, ""))
  }

  lemma RecordMeaning(ledger: Ledger, o: Offer, seen: bool)
    requires seen <==> HasKey(ledger.other, o.Key())
    ensures Record(ledger, o).auto ==
            ledger.auto + if o.verdict.decision == AutoMerge && !seen then [(o.earlier, o.later)] else []
    ensures Record(ledger, o).other ==
            ledger.other + if Borderline(o.verdict.decision) && !seen then [EntryOf(o)] else []
  {
  }

  lemma AtNext(offers: seq<Offer>, ts: seq<nat>, t: nat)
    requires t < |offers|
    ensures MergedAt(offers, ts + [t]) == MergedAt(offers, ts) + [(offers[t].earlier, offers[t].later)]
    ensures RememberedAt(offers, ts + [t]) == RememberedAt(offers, ts) + [EntryOf(offers[t])]
  {
  }

  lemma OneMoreRecorded(offers: seq<Offer>, n: nat)
    requires n < |offers|
    ensures Replay(offers[..n + 1]).auto ==
            Replay(offers[..n]).auto + if Merges(offers, n) then [(offers[n].earlier, offers[n].later)] else []
    ensures Replay(offers[..n + 1]).other ==
            Replay(offers[..n]).other + if Remembers(offers, n) then [EntryOf(offers[n])] else []
  {
    assert offers[..n + 1] == offers[..n] + [offers[n]];
    ReplayNext(offers[..n], offers[n]);
    HasKeyIffSeen(offers, n);
    RecordMeaning(Replay(offers[..n]), offers[n], SeenBorderline(offers, n));
  }

  lemma {:induction false} MergedByPosition(offers: seq<Offer>, n: nat)
    requires n <= |offers|
    ensures Replay(offers[..n]).auto == MergedAt(offers, Where(MergesOf(offers), n))
  {
    if n > 0 {
      MergedByPosition(offers, n - 1);
      OneMoreRecorded(offers, n - 1);
      if Merges(offers, n - 1) { AtNext(offers, Where(MergesOf(offers), n - 1), n - 1); }
    }
  }

  lemma {:induction false} RememberedByPosition(offers: seq<Offer>, n: nat)
    requires n <= |offers|
    ensures Replay(offers[..n]).other == RememberedAt(offers, Where(RemembersOf(offers), n))
  {
    if n > 0 {
      RememberedByPosition(offers, n - 1);
      OneMoreRecorded(offers, n - 1);
      if Remembers(offers, n - 1) { AtNext(offers, Where(RemembersOf(offers), n - 1), n - 1); }
    }
  }

  /** The entry kept of an offer: its unordered pair, decision, cosine and kind. */
  predicate Keeps(e: Entry, o: Offer) {
    && e.key.0 <= e.key.1 && (e.key == (o.earlier, o.later) || e.key == (o.later, o.earlier))
    && e.decision == o.verdict.decision && e.cosine == o.verdict.cosine && e.kind == o.kind
  }

  /** In scan order: a pair is passed to union for every auto_merge offer, and remembered for the first borderline
      offer, unless a borderline offer of it came before. */
  lemma RecordedInScanOrder(offers: seq<Offer>)
    ensures var ledger := Replay(offers);
      var m, r := Where(MergesOf(offers), |offers|), Where(RemembersOf(offers), |offers|);
      && (forall i, j | 0 <= i < j < |m| :: m[i] < m[j]) && (forall t: nat :: t in m <==> Merges(offers, t))
      && (forall i, j | 0 <= i < j < |r| :: r[i] < r[j]) && (forall t: nat :: t in r <==> Remembers(offers, t))
      && |ledger.auto| == |m| && |ledger.other| == |r|
      && (forall i | 0 <= i < |m| ::
            m[i] < |offers| && ledger.auto[i] == (offers[m[i]].earlier, offers[m[i]].later))
      && (forall i | 0 <= i < |r| :: r[i] < |offers| && Keeps(ledger.other[i], offers[r[i]]))
  {
    MergedByPosition(offers, |offers|);
    RememberedByPosition(offers, |offers|);
    WhereMeaning(MergesOf(offers), |offers|);
    WhereMeaning(RemembersOf(offers), |offers|);
    assert offers[..|offers|] == offers;
  }

  // -- What the clusters carry ------------------------------------------------------------------------------

  /** What an entry remembers is the pair's plain cosine and the kind of one of its rows. */
  predicate TrueEntry(rc: Reconciler, rows: Rows, e: Entry) {
    && e.key.0 in rows && e.key.1 in rows && e.key.0 < e.key.1
    && e.cosine == BaseCosine(rc, rows, e.key.0, e.key.1)
    && (e.kind == rows[e.key.0].kind || e.kind == rows[e.key.1].kind)
  }

  lemma KeptOfTrueOffer(rc: Reconciler, floor: real, rows: Rows, mid: Id, nb: Id, o: Offer, e: Entry)
    requires Keyed(rows) && mid in rows && nb in rows && mid != nb
    requires TrueOffer(rc, floor, rows, mid, nb, o) && Keeps(e, o)
    ensures TrueEntry(rc, rows, e)
  {
    OrientPairUnordered(rows[mid], rows[nb]);
  }

  /** Every remembered decision carries the cosine of its pair. */
  lemma EntriesCarryCosines(rc: Reconciler, floor: real, rows: Rows, search: Search, order: seq<Id>)
    requires Keyed(rows) && Loaded(rows, order)
    ensures forall e | e in LedgerOf(rc, floor, rows, search, order).other :: TrueEntry(rc, rows, e)
  {
    var offers, looks := Offers(rc, floor, rows, search, order), Looks(rows, search, order, |order|);
    var other, r := Replay(offers).other, Where(RemembersOf(offers), |offers|);
    OffersAreTheScan(rc, floor, rows, search, order);
    RecordedInScanOrder(offers);
    forall i | 0 <= i < |other| ensures TrueEntry(rc, rows, other[i]) {
      var k := looks[r[i]];
      assert IsLook(rows, search, order, k);
      KeptOfTrueOffer(rc, floor, rows, order[k.0], LookedAt(search, order, k), offers[r[i]], other[i]);
    }
  }

  ghost predicate Apart(other: seq<Entry>, auto: seq<Key>, i: nat) {
    i < |other| && !Connected(Pairs(auto), other[i].key.0, other[i].key.1)
  }

  ghost function ApartIn(other: seq<Entry>, auto: seq<Key>): nat -> bool { (i: nat) => Apart(other, auto, i) }

  /** The cluster made of an entry. */
  predicate ClusterFor(c: Cluster, e: Entry) {
    c.members == [e.key.0, e.key.1] && c.kind == e.kind && c.cosines == [e.cosine] && c.decision == e.decision
  }

  ghost predicate ClustersFor(clusters: seq<Cluster>, other: seq<Entry>, r: seq<nat>) {
    |clusters| == |r| && forall i | 0 <= i < |r| :: r[i] < |other| && ClusterFor(clusters[i], other[r[i]])
  }

  lemma ClustersForNext(clusters: seq<Cluster>, other: seq<Entry>, r: seq<nat>, c: Cluster, t: nat)
    requires ClustersFor(clusters, other, r) && t < |other| && ClusterFor(c, other[t])
    ensures ClustersFor(clusters + [c], other, r + [t])
  {
  }

  lemma {:induction false} PairClustersByPosition(other: seq<Entry>, auto: seq<Key>, n: nat)
    requires n <= |other| && Normal(other)
    ensures ClustersFor(PairClusters(other[..n], Partition(auto)), other, Where(ApartIn(other, auto), n))
  {
    if n > 0 {
      PairClustersByPosition(other, auto, n - 1);
      PairClustersNext(other, Partition(auto), n - 1);
      SameClassIffConnected(auto, other[n - 1].key.0, other[n - 1].key.1);
      PairMembers(other[n - 1]);
      if Apart(other, auto, n - 1) {
        ClustersForNext(PairClusters(other[..n - 1], Partition(auto)), other, Where(ApartIn(other, auto), n - 1),
                        PairCluster(other[n - 1]), n - 1);
      }
    }
  }

  /** The pair clusters follow the order in which their pairs were first borderline, and each is its entry: two ids,
      the pair's cosine, the looking row's kind, the first borderline decision. */
  lemma PairsInScanOrder(rc: Reconciler, floor: real, rows: Rows, search: Search, order: seq<Id>)
    requires Keyed(rows) && Loaded(rows, order)
    ensures var ledger := LedgerOf(rc, floor, rows, search, order);
      var emitted := PairPart(rc, floor, rows, search, order);
      var r := Where(ApartIn(ledger.other, ledger.auto), |ledger.other|);
      && (forall i, j | 0 <= i < j < |r| :: r[i] < r[j])
      && (forall i: nat :: i in r <==> Apart(ledger.other, ledger.auto, i))
      && |emitted| == |r|
      && forall i | 0 <= i < |r| :: r[i] < |ledger.other| && ClusterFor(emitted[i], ledger.other[r[i]])
  {
    var ledger := LedgerOf(rc, floor, rows, search, order);
    RememberedPairs(rc, floor, rows, search, order);
    PairClustersByPosition(ledger.other, ledger.auto, |ledger.other|);
    WhereMeaning(ApartIn(ledger.other, ledger.auto), |ledger.other|);
    assert ledger.other[..|ledger.other|] == ledger.other;
  }

  /** A borderline cluster carries one cosine, that of its pair. */
  lemma PairClustersCarryCosines(rc: Reconciler, floor: real, rows: Rows, search: Search, order: seq<Id>, c: Cluster)
    requires Keyed(rows) && Loaded(rows, order) && c in PairPart(rc, floor, rows, search, order)
    ensures |c.members| == 2 && c.members[0] in rows && c.members[1] in rows
    ensures c.cosines == [BaseCosine(rc, rows, c.members[0], c.members[1])]
    ensures c.kind == rows[c.members[0]].kind || c.kind == rows[c.members[1]].kind
  {
    var other := LedgerOf(rc, floor, rows, search, order).other;
    PairsInScanOrder(rc, floor, rows, search, order);
    EntriesCarryCosines(rc, floor, rows, search, order);
    var i :| 0 <= i < |PairPart(rc, floor, rows, search, order)| && PairPart(rc, floor, rows, search, order)[i] == c;
    var r := Where(ApartIn(other, LedgerOf(rc, floor, rows, search, order).auto), |other|);
    assert ClusterFor(c, other[r[i]]) && other[r[i]] in other;
  }

  // The list of member pairs.

  lemma LaterInOrder(members: seq<Id>, i: nat, end: nat)
    requires StrictlyAscending(members) && i < end <= |members|
    ensures InOrder(LaterPairs(members, i, end))
    ensures forall p | p in LaterPairs(members, i, end) :: p.0 == members[i]
  {
  }

  lemma {:induction false} PairsInOrder(members: seq<Id>, n: nat)
    requires StrictlyAscending(members) && n <= |members|
    ensures InOrder(PairsUpTo(members, n))
    ensures forall p | p in PairsUpTo(members, n) :: exists i | 0 <= i < n :: members[i] == p.0
  {
    if n > 0 {
      var before, later := PairsUpTo(members, n - 1), LaterPairs(members, n - 1, |members|);
      PairsInOrder(members, n - 1);
      LaterInOrder(members, n - 1, |members|);
      forall s, t | 0 <= s < t < |before + later| ensures Before((before + later)[s], (before + later)[t]) {
        if s < |before| <= t {
          assert before[s] in before && later[t - |before|] in later;
          var i :| 0 <= i < n - 1 && members[i] == before[s].0;
        }
      }
    }
  }

  /** The pairs a cluster scores: every two members once, the smaller first, in order. */
  lemma MemberPairs(members: seq<Id>)
    requires StrictlyAscending(members)
    ensures InOrder(PairsUpTo(members, |members|))
    ensures forall a, b :: (a, b) in PairsUpTo(members, |members|) <==> a in members && b in members && a < b
  {
    PairsInOrder(members, |members|);
    forall a, b ensures (a, b) in PairsUpTo(members, |members|) <==> a in members && b in members && a < b {
      MemberPair(members, a, b);
    }
  }

  lemma MemberPair(members: seq<Id>, a: Id, b: Id)
    requires StrictlyAscending(members)
    ensures (a, b) in PairsUpTo(members, |members|) <==> a in members && b in members && a < b
  {
    PairsUpToMeaning(members, |members|, a, b);
    if a in members && b in members && a < b {
      var p :| 0 <= p < |members| && members[p] == a;
      var q :| 0 <= q < |members| && members[q] == b;
      assert p < q;
    }
  }

  /** A merge cluster's kind is that of its smallest member, and its cosines are those of its member pairs. */
  ghost predicate CarriesCosines(rc: Reconciler, rows: Rows, c: Cluster) {
    && (forall m | m in c.members :: m in rows) && c.members != [] && c.kind == rows[c.members[0]].kind
    && |c.cosines| == |PairsUpTo(c.members, |c.members|)|
    && forall i | 0 <= i < |c.cosines| ::
         var (a, b) := PairsUpTo(c.members, |c.members|)[i];
         a in rows && b in rows && c.cosines[i] == BaseCosine(rc, rows, a, b)
  }

  lemma AutoClusterCarries(rc: Reconciler, rows: Rows, members: seq<Id>)
    requires |members| >= 2 && forall m | m in members :: m in rows
    ensures CarriesCosines(rc, rows, AutoCluster(rc, rows, members))
  {
    var sorted := SortIds(members);
    SortIdsMeaning(members);
    var pairs := PairsUpTo(sorted, |sorted|);
    assert sorted[0] in sorted;
    forall i | 0 <= i < |pairs|
      ensures pairs[i].0 in rows && pairs[i].1 in rows
      ensures PairCosine(rc, rows, rows[sorted[0]].kind, pairs[i].0, pairs[i].1) ==
              BaseCosine(rc, rows, pairs[i].0, pairs[i].1)
    {
      assert pairs[i] == (pairs[i].0, pairs[i].1) && pairs[i] in pairs;
      PairsUpToMeaning(sorted, |sorted|, pairs[i].0, pairs[i].1);
      var p, q :| 0 <= p < q < |sorted| && sorted[p] == pairs[i].0 && sorted[q] == pairs[i].1;
      assert sorted[p] in sorted && sorted[q] in sorted;
    }
  }

  lemma {:induction false} AutoClustersCarry(rc: Reconciler, rows: Rows, roots: seq<Id>, order: seq<Id>,
                                             rep: map<Id, Id>)
    requires Covers(rows, order, rep)
    ensures forall c | c in AutoClusters(rc, rows, roots, order, rep) :: CarriesCosines(rc, rows, c)
  {
    if roots != [] {
      AutoClustersCarry(rc, rows, roots[..|roots| - 1], order, rep);
      var members := ClassOf(order, rep, roots[|roots| - 1]);
      if |members| >= 2 { AutoClusterCarries(rc, rows, members); }
    }
  }

  /** A merge cluster carries the kind of its smallest member and, for its member pairs in ascending order, their
      cosines. */
  lemma MergeClustersCarryCosines(rc: Reconciler, floor: real, rows: Rows, search: Search, order: seq<Id>, c: Cluster)
    returns (pairs: seq<Key>)
    requires Keyed(rows) && Loaded(rows, order) && c in AutoPart(rc, floor, rows, search, order)
    ensures InOrder(pairs) && forall a, b :: (a, b) in pairs <==> a in c.members && b in c.members && a < b
    ensures (forall m | m in c.members :: m in rows) && c.members != [] && c.kind == rows[c.members[0]].kind
    ensures |c.cosines| == |pairs| && forall i | 0 <= i < |pairs| ::
      pairs[i].0 in rows && pairs[i].1 in rows && c.cosines[i] == BaseCosine(rc, rows, pairs[i].0, pairs[i].1)
  {
    var auto := LedgerOf(rc, floor, rows, search, order).auto;
    LedgerCovers(rc, floor, rows, search, order);
    AutoClustersCarry(rc, rows, Roots(FirstSeen(auto), Partition(auto)), FirstSeen(auto), Partition(auto));
    ClustersAreComponents(rc, floor, rows, search, order);
    pairs := PairsUpTo(c.members, |c.members|);
    MemberPairs(c.members);
    assert CarriesCosines(rc, rows, c);
  }

  // -- The order of the merge clusters --------------------------------------------------------------------------

  /** The first position of an id, or the length. */
  function IndexIn(s: seq<Id>, x: Id): (k: nat)
    ensures k <= |s| && (k < |s| ==> s[k] == x) && (x in s <==> k < |s|)
    ensures forall j | 0 <= j < k :: s[j] != x
  {
    if s == [] || s[0] == x then 0 else 1 + IndexIn(s[1..], x)
  }

  lemma IndexInLonger(s: seq<Id>, more: seq<Id>, x: Id)
    ensures x in s ==> IndexIn(s + more, x) == IndexIn(s, x)
    ensures x !in s ==> IndexIn(s + more, x) >= |s|
  {
    var k := IndexIn(s + more, x);
    if x in s {
      var j := IndexIn(s, x);
      assert (s + more)[j] == x;
      assert k <= j;
    }
  }

  /** Some id of the first group stands before all of the second. */
  ghost predicate Leads(order: seq<Id>, first: set<Id>, second: set<Id>) {
    forall y | y in second :: exists x | x in first :: IndexIn(order, x) < IndexIn(order, y)
  }

  ghost function ClassSet(order: seq<Id>, rep: map<Id, Id>, root: Id): set<Id>
    requires InRep(order, rep)
  {
    set x | x in order && rep[x] == root
  }

  lemma LeadsLonger(order: seq<Id>, last: Id, rep: map<Id, Id>, first: Id, second: Id)
    requires InRep(order + [last], rep) && last !in order && InRep(order, rep)
    requires Leads(order, ClassSet(order, rep, first), ClassSet(order, rep, second))
    requires first != second && exists x | x in order :: rep[x] == first
    ensures Leads(order + [last], ClassSet(order + [last], rep, first), ClassSet(order + [last], rep, second))
  {
    var all := order + [last];
    forall y | y in ClassSet(all, rep, second)
      ensures exists x | x in ClassSet(all, rep, first) :: IndexIn(all, x) < IndexIn(all, y)
    {
      var x: Id;
      if y in order {
        assert y in ClassSet(order, rep, second);
        x :| x in ClassSet(order, rep, first) && IndexIn(order, x) < IndexIn(order, y);
      } else {
        x :| x in order && rep[x] == first;
      }
      IndexInLonger(order, [last], x);
      IndexInLonger(order, [last], y);
      assert x in ClassSet(all, rep, first);
    }
  }

  /** The roots stand in the order in which their classes were first seen. */
  lemma {:induction false} RootsInOrder(order: seq<Id>, rep: map<Id, Id>, i: nat, j: nat)
    requires InRep(order, rep) && Distinct(order) && i < j < |Roots(order, rep)|
    ensures var roots := Roots(order, rep);
      Leads(order, ClassSet(order, rep, roots[i]), ClassSet(order, rep, roots[j]))
    decreases |order|
  {
    var init, last := order[..|order| - 1], order[|order| - 1];
    var roots := Roots(order, rep);
    assert order == init + [last] && last !in init;
    RootsDistinct(order, rep);
    RootSeen(init, rep, roots[i]);
    if j < |Roots(init, rep)| {
      RootsInOrder(init, rep, i, j);
      LeadsLonger(init, last, rep, roots[i], roots[j]);
    } else {
      assert roots[j] == rep[last] && rep[last] !in Roots(init, rep);
      forall y | y in ClassSet(order, rep, roots[j]) ensures y == last { if y in init { RootsMeaning(init, rep, y); } }
      var x :| x in init && rep[x] == roots[i];
      IndexInLonger(init, [last], x);
      IndexInLonger(init, [last], last);
      assert x in ClassSet(order, rep, roots[i]);
    }
  }

  lemma {:induction false} RootSeen(order: seq<Id>, rep: map<Id, Id>, root: Id)
    requires InRep(order, rep) && root in Roots(order, rep)
    ensures exists x | x in order :: rep[x] == root
  {
    if order != [] {
      var init, last := order[..|order| - 1], order[|order| - 1];
      assert last in order;
      if root in Roots(init, rep) {
        RootSeen(init, rep, root);
        var x :| x in init && rep[x] == root;
        assert x in order;
      }
    }
  }

  ghost function MemberSet(c: Cluster): set<Id> { set x | x in c.members }

  lemma ClusterOfClass(rc: Reconciler, rows: Rows, order: seq<Id>, rep: map<Id, Id>, root: Id)
    requires Covers(rows, order, rep) && |ClassOf(order, rep, root)| >= 2
    ensures MemberSet(AutoCluster(rc, rows, ClassOf(order, rep, root))) == ClassSet(order, rep, root)
  {
    SortIdsMeaning(ClassOf(order, rep, root));
    forall x ensures x in ClassOf(order, rep, root) <==> x in ClassSet(order, rep, root) {
      ClassOfMeaning(order, rep, root, x);
    }
  }

  /** Each cluster is the class of one root, and roots further along give clusters further along. */
  lemma {:induction false} AutoClustersFollowRoots(rc: Reconciler, rows: Rows, roots: seq<Id>, order: seq<Id>,
                                                   rep: map<Id, Id>)
    returns (at: seq<nat>)
    requires Covers(rows, order, rep)
    ensures var clusters := AutoClusters(rc, rows, roots, order, rep);
      && |at| == |clusters| && (forall i, j | 0 <= i < j < |at| :: at[i] < at[j])
      && forall i | 0 <= i < |at| :: at[i] < |roots| && MemberSet(clusters[i]) == ClassSet(order, rep, roots[at[i]])
  {
    if roots == [] {
      at := [];
    } else {
      var n := |roots| - 1;
      var before := AutoClustersFollowRoots(rc, rows, roots[..n], order, rep);
      var members := ClassOf(order, rep, roots[n]);
      at := if |members| >= 2 then before + [n] else before;
      if |members| >= 2 { ClusterOfClass(rc, rows, order, rep, roots[n]); }
    }
  }

  /** The ids in the order in which the pairs given to union first name them. */
  function Named(auto: seq<Key>): seq<Id> {
    if auto == [] then [] else Named(auto[..|auto| - 1]) + [auto[|auto| - 1].0, auto[|auto| - 1].1]
  }

  /** A list without repeats, in the order of first positions in another. */
  ghost predicate FirstPositions(order: seq<Id>, named: seq<Id>) {
    && (forall x :: x in order <==> x in named)
    && forall i, j | 0 <= i < j < |order| :: IndexIn(named, order[i]) < IndexIn(named, order[j])
  }

  lemma AppendedFirst(order: seq<Id>, named: seq<Id>, x: Id)
    requires FirstPositions(order, named)
    ensures FirstPositions(Appended(order, x), named + [x])
  {
    var next, all := Appended(order, x), named + [x];
    forall y | y in order ensures IndexIn(all, y) == IndexIn(named, y) < |named| { IndexInLonger(named, [x], y); }
    if x !in order { IndexInLonger(named, [x], x); }
    forall i, j | 0 <= i < j < |next| ensures IndexIn(all, next[i]) < IndexIn(all, next[j]) {
      assert i < |order| && order[i] in order;
      if j < |order| { assert order[j] in order; }
    }
  }

  lemma FirstSeenNext(auto: seq<Key>, p: Key)
    ensures FirstSeen(auto + [p]) == Appended(Appended(FirstSeen(auto), p.0), p.1)
  {
    var calls, a, b := CallsOf(auto), p.0, p.1;
    assert (auto + [p])[..|auto|] == auto;
    var c1 := calls + [Added(a)];
    var c2 := c1 + [Added(b)];
    var c3 := c2 + [Added(a)];
    var c4 := c3 + [Added(b)];
    assert CallsOf(auto + [p]) == c4 + [United(a, b)];
    Extended(calls, Added(a));
    Extended(c1, Added(b));
    Extended(c2, Added(a));
    Extended(c3, Added(b));
    Extended(c4, United(a, b));
  }

  /** The ids of the union-find stand in the order in which its calls first name them. */
  lemma {:induction false} FirstSeenInOrder(auto: seq<Key>)
    ensures FirstPositions(FirstSeen(auto), Named(auto))
  {
    if auto != [] {
      var init, p := auto[..|auto| - 1], auto[|auto| - 1];
      FirstSeenInOrder(init);
      assert auto == init + [p];
      FirstSeenNext(init, p);
      AppendedFirst(FirstSeen(init), Named(init), p.0);
      AppendedFirst(Appended(FirstSeen(init), p.0), Named(init) + [p.0], p.1);
      assert Named(init) + [p.0] + [p.1] == Named(auto);
    }
  }

  lemma LeadsNamed(order: seq<Id>, named: seq<Id>, first: set<Id>, second: set<Id>)
    requires FirstPositions(order, named) && Leads(order, first, second)
    requires (forall x | x in first :: x in order) && forall y | y in second :: y in order
    ensures Leads(named, first, second)
  {
    forall y | y in second ensures exists x | x in first :: IndexIn(named, x) < IndexIn(named, y) {
      var x :| x in first && IndexIn(order, x) < IndexIn(order, y);
      assert order[IndexIn(order, x)] == x && order[IndexIn(order, y)] == y;
    }
  }

  /** The merge clusters stand in the order in which the pairs given to union first name one of their members. */
  lemma MergeClustersInOrder(rc: Reconciler, floor: real, rows: Rows, search: Search, order: seq<Id>, i: nat, j: nat)
    requires Keyed(rows) && Loaded(rows, order) && i < j < |AutoPart(rc, floor, rows, search, order)|
    ensures var autos := AutoPart(rc, floor, rows, search, order);
      Leads(Named(LedgerOf(rc, floor, rows, search, order).auto), MemberSet(autos[i]), MemberSet(autos[j]))
  {
    var auto := LedgerOf(rc, floor, rows, search, order).auto;
    var ids, rep := FirstSeen(auto), Partition(auto);
    LedgerCovers(rc, floor, rows, search, order);
    RepKeys(CallsOf(auto));
    FirstSeenInOrder(auto);
    var roots := Roots(ids, rep);
    var at := AutoClustersFollowRoots(rc, rows, roots, ids, rep);
    RootsInOrder(ids, rep, at[i], at[j]);
    LeadsNamed(ids, Named(auto), ClassSet(ids, rep, roots[at[i]]), ClassSet(ids, rep, roots[at[j]]));
  }
}
