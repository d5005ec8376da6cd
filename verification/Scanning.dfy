/** The scan half of cluster discovery: look at neighbours, feed the union-find, remember the rest. */
module Scanning {
  import opened Graph
  import opened Options
  import opened Reconcile
  import opened UnionFind

  type Key = (Id, Id)

  /** `frozenset({a, b})`. */
  function KeyOf(a: Id, b: Id): Key {
    if a <= b then (a, b) else (b, a)
  }

  // One neighbour looked at: the oriented pair and its verdict under the scanning row's kind.
  datatype Offer = Offer(earlier: Id, later: Id, kind: Kind, verdict: Verdict) {
    function Key(): Key { KeyOf(earlier, later) }
  }

  // A remembered non-merge decision.
  datatype Entry = Entry(key: Key, decision: Decision, cosine: real, kind: Kind)

  // Pairs passed to union, in order, and the insertion-ordered dict of other decisions.
  datatype Ledger = Ledger(auto: seq<Key>, other: seq<Entry>)

  predicate HasKey(other: seq<Entry>, key: Key) {
    exists e | e in other :: e.key == key
  }

  predicate Borderline(d: Decision) { d == SameIssue || d == HumanReview }

  function Record(ledger: Ledger, o: Offer): Ledger {
    if HasKey(ledger.other, o.Key()) then ledger
    else match o.verdict.decision
      case AutoMerge => ledger.(auto := ledger.auto + [(o.earlier, o.later)])
      case NoMatch => ledger
      case _ => ledger.(other := ledger.other + [Entry(o.Key(), o.verdict.decision, o.verdict.cosine, o.kind)])
  }

  function Replay(offers: seq<Offer>): Ledger {
    if offers == [] then Ledger([], [])
    else Record(Replay(offers[..|offers| - 1]), offers[|offers| - 1])
  }

  // What the neighbour search answers for each row; None stands for a search that raised.
  type Search = Id -> Option<seq<Id>>

  predicate Scored(rows: Rows, mid: Id, nb: Id) { nb != mid && nb in rows }

  function OfferOf(rc: Reconciler, floor: real, rows: Rows, mid: Id, nb: Id): Offer
    requires mid in rows && nb in rows
  {
    var (earlier, later) := OrientPair(rows[mid], rows[nb]);
    Offer(earlier.id, later.id, rows[mid].kind, ClassifyPair(rc, earlier, later, rc.rule(rows[mid].kind), floor))
  }

  function RowOffers(rc: Reconciler, floor: real, rows: Rows, mid: Id, nbs: seq<Id>): seq<Offer>
    requires mid in rows
  {
    if nbs == [] then []
    else
      var before := RowOffers(rc, floor, rows, mid, nbs[..|nbs| - 1]);
      var nb := nbs[|nbs| - 1];
      if Scored(rows, mid, nb) then before + [OfferOf(rc, floor, rows, mid, nb)] else before
  }

  function Neighbours(rows: Rows, search: Search, mid: Id): seq<Id>
    requires mid in rows
  {
    if rows[mid].embedding == [] || search(mid).None? then [] else search(mid).value
  }

  predicate Loaded(rows: Rows, order: seq<Id>) {
    forall i | 0 <= i < |order| :: order[i] in rows
  }

  /** Every neighbour looked at by a full scan, in scan order. */
  function Offers(rc: Reconciler, floor: real, rows: Rows, search: Search, order: seq<Id>): seq<Offer>
    requires Loaded(rows, order)
  {
    if order == [] then []
    else
      var mid := order[|order| - 1];
      Offers(rc, floor, rows, search, order[..|order| - 1])
      + RowOffers(rc, floor, rows, mid, Neighbours(rows, search, mid))
  }

  /** The union-find calls that a list of merge pairs causes. */
  ghost function CallsOf(auto: seq<Key>): seq<Op> {
    if auto == [] then []
    else
      var (a, b) := auto[|auto| - 1];
      CallsOf(auto[..|auto| - 1]) + [Added(a)] + [Added(b)] + [Added(a)] + [Added(b)] + [United(a, b)]
  }

  ghost function Partition(auto: seq<Key>): map<Id, Id> { RepOf(CallsOf(auto)) }

  ghost function FirstSeen(auto: seq<Key>): seq<Id> { OrderOf(CallsOf(auto)) }

  ghost function Pairs(auto: seq<Key>): set<Key> { set p | p in auto }

  ghost predicate Seen(auto: seq<Key>, x: Id) { exists p | p in auto :: x == p.0 || x == p.1 }

  lemma AddedKeys(calls: seq<Op>, x: Id)
    ensures PairsOf(calls + [Added(x)]) == PairsOf(calls)
    ensures RepOf(calls + [Added(x)]).Keys == RepOf(calls).Keys + {x}
  {
    Extended(calls, Added(x));
  }

  lemma CallsNext(calls: seq<Op>, a: Id, b: Id)
    ensures var next := calls + [Added(a)] + [Added(b)] + [Added(a)] + [Added(b)] + [United(a, b)];
      && PairsOf(next) == PairsOf(calls) + {(a, b)}
      && RepOf(next).Keys == RepOf(calls).Keys + {a, b}
  {
    AddedKeys(calls, a);
    AddedKeys(calls + [Added(a)], b);
    AddedKeys(calls + [Added(a)] + [Added(b)], a);
    AddedKeys(calls + [Added(a)] + [Added(b)] + [Added(a)], b);
    var c4 := calls + [Added(a)] + [Added(b)] + [Added(a)] + [Added(b)];
    Extended(c4, United(a, b));
    assert RepOf(c4 + [United(a, b)]).Keys == RepOf(c4).Keys + {a, b};
  }

  lemma {:induction false} CallsMeaning(auto: seq<Key>)
    ensures PairsOf(CallsOf(auto)) == Pairs(auto)
    ensures forall x :: x in Partition(auto) <==> Seen(auto, x)
  {
    if auto != [] {
      var init := auto[..|auto| - 1];
      var (a, b) := auto[|auto| - 1];
      CallsMeaning(init);
      CallsNext(CallsOf(init), a, b);
      assert auto == init + [(a, b)];
      forall x
        ensures Seen(auto, x) <==> Seen(init, x) || x == a || x == b
      {
        if x == a || x == b { assert (a, b) in auto; }
        if Seen(init, x) {
          var p :| p in init && (x == p.0 || x == p.1);
          assert p in auto;
        }
      }
    }
  }

  /** One scored neighbour: skip a remembered pair, else union it or remember its decision. */
  method RecordOffer(uf: UF, before: seq<Entry>, offer: Offer, ghost ledger: Ledger) returns (other: seq<Entry>)
    requires uf.Valid() && uf.history == CallsOf(ledger.auto) && before == ledger.other
    modifies uf
    ensures uf.Valid()
    ensures uf.history == CallsOf(Record(ledger, offer).auto) && other == Record(ledger, offer).other
  {
    other := before;
    if HasKey(before, offer.Key()) { return; }
    if offer.verdict.decision == AutoMerge {
      ghost var pair := (offer.earlier, offer.later);
      assert (ledger.auto + [pair])[..|ledger.auto|] == ledger.auto;
      uf.Add(offer.earlier);
      uf.Add(offer.later);
      uf.Union(offer.earlier, offer.later);
    } else if Borderline(offer.verdict.decision) {
      other := before + [Entry(offer.Key(), offer.verdict.decision, offer.verdict.cosine, offer.kind)];
    }
  }

  lemma ReplayNext(done: seq<Offer>, offer: Offer)
    ensures Replay(done + [offer]) == Record(Replay(done), offer)
  {
    assert (done + [offer])[..|done|] == done;
  }

  lemma RowOffersNext(rc: Reconciler, floor: real, rows: Rows, mid: Id, nbs: seq<Id>, j: nat)
    requires mid in rows && j < |nbs|
    ensures RowOffers(rc, floor, rows, mid, nbs[..j + 1]) ==
            RowOffers(rc, floor, rows, mid, nbs[..j]) +
            if Scored(rows, mid, nbs[j]) then [OfferOf(rc, floor, rows, mid, nbs[j])] else []
  {
    assert nbs[..j + 1][..j] == nbs[..j];
  }

  /** The loop over one row's neighbours. */
  method ScanRow(rc: Reconciler, floor: real, rows: Rows, uf: UF, before: seq<Entry>, mid: Id, nbs: seq<Id>,
                 ghost done: seq<Offer>)
    returns (other: seq<Entry>)
    requires mid in rows && uf.Valid() && uf.history == CallsOf(Replay(done).auto) && before == Replay(done).other
    modifies uf
    ensures uf.Valid()
    ensures var ledger := Replay(done + RowOffers(rc, floor, rows, mid, nbs));
      uf.history == CallsOf(ledger.auto) && other == ledger.other
  {
    other := before;
    ghost var seen := done;
    for j := 0 to |nbs|
      invariant uf.Valid() && uf.history == CallsOf(Replay(seen).auto) && other == Replay(seen).other
      invariant seen == done + RowOffers(rc, floor, rows, mid, nbs[..j])
    {
      RowOffersNext(rc, floor, rows, mid, nbs, j);
      if !Scored(rows, mid, nbs[j]) { continue; }
      var offer := OfferOf(rc, floor, rows, mid, nbs[j]);
      other := RecordOffer(uf, other, offer, Replay(seen));
      ReplayNext(seen, offer);
      seen := seen + [offer];
    }
    assert nbs[..|nbs|] == nbs;
  }

  lemma OffersNext(rc: Reconciler, floor: real, rows: Rows, search: Search, order: seq<Id>, i: nat)
    requires i < |order| && Loaded(rows, order)
    ensures Offers(rc, floor, rows, search, order[..i + 1]) ==
            Offers(rc, floor, rows, search, order[..i]) +
            RowOffers(rc, floor, rows, order[i], Neighbours(rows, search, order[i]))
  {
    assert order[..i + 1][..i] == order[..i];
  }

  /** One row of the scan: rows without an embedding or without an answer from the search offer nothing. */
  method ScanOne(rc: Reconciler, floor: real, rows: Rows, search: Search, uf: UF, before: seq<Entry>, mid: Id,
                 ghost done: seq<Offer>)
    returns (other: seq<Entry>, ghost now: seq<Offer>)
    requires mid in rows && uf.Valid() && uf.history == CallsOf(Replay(done).auto) && before == Replay(done).other
    modifies uf
    ensures uf.Valid()
    ensures now == done + RowOffers(rc, floor, rows, mid, Neighbours(rows, search, mid))
    ensures uf.history == CallsOf(Replay(now).auto) && other == Replay(now).other
  {
    assert done + [] == done;
    if rows[mid].embedding == [] { return before, done; }
    var found := search(mid);
    if found.None? { return before, done; }
    other := ScanRow(rc, floor, rows, uf, before, mid, found.value, done);
    now := done + RowOffers(rc, floor, rows, mid, found.value);
  }

  /** The scan loop over rows. */
  method Scan(rc: Reconciler, floor: real, rows: Rows, search: Search, order: seq<Id>)
    returns (uf: UF, other: seq<Entry>)
    requires Loaded(rows, order)
    ensures fresh(uf) && uf.Valid()
    ensures var ledger := Replay(Offers(rc, floor, rows, search, order));
      uf.history == CallsOf(ledger.auto) && other == ledger.other
  {
    uf := new UF();
    other := [];
    ghost var done: seq<Offer> := [];
    for i := 0 to |order|
      invariant fresh(uf) && uf.Valid() && done == Offers(rc, floor, rows, search, order[..i])
      invariant uf.history == CallsOf(Replay(done).auto) && other == Replay(done).other
    {
      OffersNext(rc, floor, rows, search, order, i);
      other, done := ScanOne(rc, floor, rows, search, uf, other, order[i], done);
    }
    assert order[..|order|] == order;
  }

  // -- What a scan records, pair by pair ----------------------------------------------------------

  /** The first decision other than no-match that a pair was offered. */
  function FirstVerdict(offers: seq<Offer>, key: Key): Decision {
    if offers == [] then NoMatch
    else
      var before := FirstVerdict(offers[..|offers| - 1], key);
      var o := offers[|offers| - 1];
      if before == NoMatch && o.Key() == key then o.verdict.decision else before
  }

  /** The entry made from the first borderline offer of a pair. */
  function FirstBorderline(offers: seq<Offer>, key: Key): Option<Entry> {
    if offers == [] then None
    else
      var before := FirstBorderline(offers[..|offers| - 1], key);
      var o := offers[|offers| - 1];
      if before == None && o.Key() == key && Borderline(o.verdict.decision)
      then Some(Entry(key, o.verdict.decision, o.verdict.cosine, o.kind)) else before
  }

  ghost predicate HasPair(auto: seq<Key>, key: Key) {
    exists p | p in auto :: KeyOf(p.0, p.1) == key
  }

  /** A pair is merged exactly when its first real verdict was auto_merge (a borderline verdict recorded
      first blocks later merges), and it is remembered with its first borderline decision, whether or not
      it was merged before. */
  lemma {:induction false} ReplayMeaning(offers: seq<Offer>, key: Key)
    ensures HasPair(Replay(offers).auto, key) <==> FirstVerdict(offers, key) == AutoMerge
    ensures HasKey(Replay(offers).other, key) <==> FirstBorderline(offers, key).Some?
    ensures forall e | e in Replay(offers).other && e.key == key :: FirstBorderline(offers, key) == Some(e)
    ensures FirstVerdict(offers, key) == NoMatch ==> FirstBorderline(offers, key).None?
    ensures FirstBorderline(offers, key).None? ==> FirstVerdict(offers, key) in {NoMatch, AutoMerge}
  {
    if offers != [] {
      var init, o := offers[..|offers| - 1], offers[|offers| - 1];
      ReplayMeaning(init, key);
      var old_, new_ := Replay(init), Replay(offers);
      if new_.auto != old_.auto {
        var p := (o.earlier, o.later);
        forall k ensures HasPair(new_.auto, k) <==> HasPair(old_.auto, k) || k == o.Key() {
          if k == o.Key() { assert p in new_.auto; }
          if HasPair(old_.auto, k) {
            var q :| q in old_.auto && KeyOf(q.0, q.1) == k;
            assert q in new_.auto;
          }
        }
      }
      if new_.other != old_.other {
        var e := Entry(o.Key(), o.verdict.decision, o.verdict.cosine, o.kind);
        forall k ensures HasKey(new_.other, k) <==> HasKey(old_.other, k) || k == o.Key() {
          if k == o.Key() { assert e in new_.other; }
          if HasKey(old_.other, k) {
            var q :| q in old_.other && q.key == k;
            assert q in new_.other;
          }
        }
      }
    }
  }

  ghost predicate DistinctKeys(other: seq<Entry>) {
    forall i, j | 0 <= i < j < |other| :: other[i].key != other[j].key
  }

  ghost predicate WellFormed(rows: Rows, o: Offer) {
    o.earlier in rows && o.later in rows && o.earlier != o.later
  }

  ghost predicate AllWellFormed(rows: Rows, offers: seq<Offer>) {
    forall i | 0 <= i < |offers| :: WellFormed(rows, offers[i])
  }

  lemma {:induction false} RowOffersWellFormed(rc: Reconciler, floor: real, rows: Rows, mid: Id, nbs: seq<Id>)
    requires Keyed(rows) && mid in rows
    ensures AllWellFormed(rows, RowOffers(rc, floor, rows, mid, nbs))
  {
    if nbs != [] { RowOffersWellFormed(rc, floor, rows, mid, nbs[..|nbs| - 1]); }
  }

  lemma {:induction false} OffersWellFormed(rc: Reconciler, floor: real, rows: Rows, search: Search, order: seq<Id>)
    requires Keyed(rows) && Loaded(rows, order)
    ensures AllWellFormed(rows, Offers(rc, floor, rows, search, order))
  {
    if order != [] {
      OffersWellFormed(rc, floor, rows, search, order[..|order| - 1]);
      var mid := order[|order| - 1];
      RowOffersWellFormed(rc, floor, rows, mid, Neighbours(rows, search, mid));
    }
  }

  ghost predicate Normal(other: seq<Entry>) {
    forall i | 0 <= i < |other| :: other[i].key.0 < other[i].key.1
  }

  lemma {:induction false} LedgerWellFormed(rows: Rows, offers: seq<Offer>)
    requires AllWellFormed(rows, offers)
    ensures Normal(Replay(offers).other) && DistinctKeys(Replay(offers).other)
    ensures forall i | 0 <= i < |Replay(offers).other| :: Borderline(Replay(offers).other[i].decision)
    ensures forall i | 0 <= i < |Replay(offers).auto| ::
      var (a, b) := Replay(offers).auto[i]; a in rows && b in rows && a != b
  {
    if offers != [] {
      LedgerWellFormed(rows, offers[..|offers| - 1]);
      assert WellFormed(rows, offers[|offers| - 1]);
    }
  }
}
