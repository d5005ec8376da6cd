/** What one merge does to the models table, and what many merges from one snapshot do. */
module Merging {
  import opened Discovery
  import opened Graph
  import opened Reconcile
  import opened UnionFind

  // The bounds every confidence write is clipped to.
  const CONFIDENCE_MIN := 0.05
  const CONFIDENCE_MAX := 0.95

  function Clip(x: real): real {
    if x < CONFIDENCE_MIN then CONFIDENCE_MIN else if x > CONFIDENCE_MAX then CONFIDENCE_MAX else x
  }

  function Others(members: seq<Id>, canonical: Id): (others: seq<Id>)
    ensures forall x :: x in others <==> x in members && x != canonical
  {
    if members == [] then []
    else
      assert members == members[..|members| - 1] + [members[|members| - 1]];
      var before := Others(members[..|members| - 1], canonical);
      if members[|members| - 1] == canonical then before else before + [members[|members| - 1]]
  }

  /** Appends what is neither banned nor already there. */
  function Gather(acc: seq<Id>, xs: seq<Id>, banned: seq<Id>): seq<Id> {
    if xs == [] then acc
    else
      var before := Gather(acc, xs[..|xs| - 1], banned);
      var x := xs[|xs| - 1];
      if x in banned || x in before then before else before + [x]
  }

  predicate Within(members: seq<Id>, rows: Rows) {
    forall i | 0 <= i < |members| :: members[i] in rows
  }

  function EventsOf(members: seq<Id>, rows: Rows): seq<Id>
    requires Within(members, rows)
  {
    if members == [] then []
    else Gather(EventsOf(members[..|members| - 1], rows), rows[members[|members| - 1]].events, [])
  }

  function SupportsOf(members: seq<Id>, rows: Rows, banned: seq<Id>): seq<Id>
    requires Within(members, rows)
  {
    if members == [] then []
    else Gather(SupportsOf(members[..|members| - 1], rows, banned), rows[members[|members| - 1]].supports, banned)
  }

  function MaxConfidence(members: seq<Id>, rows: Rows): (best: real)
    requires members != [] && Within(members, rows)
    ensures forall i | 0 <= i < |members| :: rows[members[i]].confidence <= best
    ensures exists i | 0 <= i < |members| :: rows[members[i]].confidence == best
  {
    var last := rows[members[|members| - 1]].confidence;
    if |members| == 1 then last
    else
      var before := MaxConfidence(members[..|members| - 1], rows);
      if before >= last then before else last
  }

  /** The union loops of one merge. */
  method UnionEvidence(members: seq<Id>, rows: Rows) returns (events: seq<Id>, supports: seq<Id>)
    requires Within(members, rows)
    ensures events == EventsOf(members, rows)
    ensures supports == SupportsOf(members, rows, members)
  {
    events, supports := [], [];
    for i := 0 to |members|
      invariant events == EventsOf(members[..i], rows)
      invariant supports == SupportsOf(members[..i], rows, members)
    {
      assert members[..i + 1][..i] == members[..i];
      var row := rows[members[i]];
      events := GatherLoop(events, row.events, []);
      supports := GatherLoop(supports, row.supports, members);
    }
    assert members[..|members|] == members;
  }

  method GatherLoop(acc: seq<Id>, xs: seq<Id>, banned: seq<Id>) returns (all: seq<Id>)
    ensures all == Gather(acc, xs, banned)
  {
    all := acc;
    for j := 0 to |xs|
      invariant all == Gather(acc, xs[..j], banned)
    {
      assert xs[..j + 1][..j] == xs[..j];
      if xs[j] !in banned && xs[j] !in all {
        all := all + [xs[j]];
      }
    }
    assert xs[..|xs|] == xs;
  }

  lemma {:induction false} GatherMeaning(acc: seq<Id>, xs: seq<Id>, banned: seq<Id>)
    requires Distinct(acc)
    ensures Distinct(Gather(acc, xs, banned))
    ensures forall e :: e in Gather(acc, xs, banned) <==> e in acc || (e in xs && e !in banned)
  {
    if xs != [] {
      GatherMeaning(acc, xs[..|xs| - 1], banned);
      assert xs == xs[..|xs| - 1] + [xs[|xs| - 1]];
    }
  }

  /** The merged arrays are duplicate-free; events are all the members' events, supports all the members'
      supports except the members themselves. */
  lemma {:induction false} EvidenceMeaning(members: seq<Id>, rows: Rows, banned: seq<Id>)
    requires Within(members, rows)
    ensures Distinct(EventsOf(members, rows)) && Distinct(SupportsOf(members, rows, banned))
    ensures forall e :: e in EventsOf(members, rows) <==> exists m | m in members :: e in rows[m].events
    ensures forall e :: e in SupportsOf(members, rows, banned) <==>
                        e !in banned && exists m | m in members :: e in rows[m].supports
  {
    if members != [] {
      var init, m := members[..|members| - 1], members[|members| - 1];
      assert members == init + [m];
      EvidenceMeaning(init, rows, banned);
      GatherMeaning(EventsOf(init, rows), rows[m].events, []);
      GatherMeaning(SupportsOf(init, rows, banned), rows[m].supports, banned);
    }
  }

  predicate Mergeable(members: seq<Id>, snapshot: Rows) {
    members != [] && Within(members, snapshot)
  }

  function CanonicalOf(members: seq<Id>, snapshot: Rows): (c: Id)
    requires Mergeable(members, snapshot)
    ensures c in members && c in snapshot
  {
    PickCanonical(members, snapshot)
  }

  /** A member row after its cluster was merged: the canonical row absorbs, the others are archived. */
  function RowAfter(members: seq<Id>, snapshot: Rows, current: Row, id: Id): Row
    requires Mergeable(members, snapshot)
  {
    var canonical := CanonicalOf(members, snapshot);
    if id == canonical then
      current.(confidence := Clip(MaxConfidence(members, snapshot)),
               events := EventsOf(members, snapshot),
               supports := SupportsOf(members, snapshot, members),
               absorbed := current.absorbed + [Others(members, canonical)])
    else current.(active := false)
  }

  function ApplyMerge(models: Rows, snapshot: Rows, members: seq<Id>): Rows
    requires Mergeable(members, snapshot)
  {
    map id | id in models :: if id in members then RowAfter(members, snapshot, models[id], id) else models[id]
  }

  predicate IsMerge(c: Cluster, snapshot: Rows) {
    c.decision == AutoMerge && Mergeable(c.members, snapshot)
  }

  /** The models table after the auto clusters of a list, all computed from one snapshot. */
  ghost function AfterMerges(models: Rows, snapshot: Rows, clusters: seq<Cluster>): Rows {
    if clusters == [] then models
    else
      var before := AfterMerges(models, snapshot, clusters[..|clusters| - 1]);
      var c := clusters[|clusters| - 1];
      if IsMerge(c, snapshot) then ApplyMerge(before, snapshot, c.members) else before
  }

  /** The same, but re-reading the rows from the table before every merge. */
  ghost function AfterMergesRereading(models: Rows, clusters: seq<Cluster>): Rows {
    if clusters == [] then models
    else
      var before := AfterMergesRereading(models, clusters[..|clusters| - 1]);
      var c := clusters[|clusters| - 1];
      if IsMerge(c, before) then ApplyMerge(before, before, c.members) else before
  }

  ghost predicate DisjointMerges(clusters: seq<Cluster>) {
    forall c, d, x | c in clusters && d in clusters && c.decision == AutoMerge && d.decision == AutoMerge
      && x in c.members && x in d.members :: c == d
  }

  ghost predicate NoRepeatedMerge(clusters: seq<Cluster>) {
    forall i, j | 0 <= i < j < |clusters| && clusters[i].decision == AutoMerge :: clusters[i] != clusters[j]
  }

  ghost predicate MergedIn(clusters: seq<Cluster>, snapshot: Rows, id: Id, c: Cluster) {
    c in clusters && IsMerge(c, snapshot) && id in c.members
  }

  lemma NotMergedBefore(init: seq<Cluster>, last: Cluster, snapshot: Rows, id: Id)
    requires DisjointMerges(init + [last]) && NoRepeatedMerge(init + [last])
    requires last.decision == AutoMerge && id in last.members
    ensures forall c :: !MergedIn(init, snapshot, id, c)
  {
    var clusters := init + [last];
    forall i | 0 <= i < |init| && init[i].decision == AutoMerge
      ensures id !in init[i].members
    {
      assert clusters[i] in clusters && last in clusters && clusters[i] != clusters[|init|];
    }
  }

  /** Each row's final value depends only on the one merge it belongs to, not on when that merge ran. */
  lemma {:induction false} AfterMergesAt(models: Rows, snapshot: Rows, clusters: seq<Cluster>, id: Id)
    requires DisjointMerges(clusters) && NoRepeatedMerge(clusters)
    ensures AfterMerges(models, snapshot, clusters).Keys == models.Keys
    ensures forall c | id in models && MergedIn(clusters, snapshot, id, c) ::
      AfterMerges(models, snapshot, clusters)[id] == RowAfter(c.members, snapshot, models[id], id)
    ensures id in models && (forall c :: !MergedIn(clusters, snapshot, id, c)) ==>
      AfterMerges(models, snapshot, clusters)[id] == models[id]
  {
    if clusters != [] {
      var init, last := clusters[..|clusters| - 1], clusters[|clusters| - 1];
      assert clusters == init + [last];
      AfterMergesAt(models, snapshot, init, id);
      forall c
        ensures MergedIn(clusters, snapshot, id, c) <==>
                MergedIn(init, snapshot, id, c) || (c == last && IsMerge(last, snapshot) && id in last.members)
      {
      }
      if IsMerge(last, snapshot) && id in last.members {
        NotMergedBefore(init, last, snapshot, id);
      }
    }
  }

  lemma {:induction false} MergeCountsOnce(clusters: seq<Cluster>, c: Cluster)
    requires NoRepeatedMerge(clusters) && c.decision == AutoMerge
    ensures multiset(clusters)[c] <= 1
  {
    if clusters != [] {
      assert clusters == [clusters[0]] + clusters[1..];
      MergeCountsOnce(clusters[1..], c);
      if c == clusters[0] {
        assert forall j | 0 <= j < |clusters[1..]| :: clusters[1..][j] == clusters[j + 1];
        assert c !in clusters[1..];
      }
    }
  }

  lemma ShuffleKeepsNoRepeat(clusters: seq<Cluster>, shuffled: seq<Cluster>)
    requires NoRepeatedMerge(clusters) && multiset(clusters) == multiset(shuffled)
    ensures NoRepeatedMerge(shuffled)
  {
    forall i, j | 0 <= i < j < |shuffled| && shuffled[i].decision == AutoMerge
      ensures shuffled[i] != shuffled[j]
    {
      if shuffled[i] == shuffled[j] {
        RepeatCounts(shuffled, i, j);
        MergeCountsOnce(clusters, shuffled[i]);
        assert false;
      }
    }
  }

  /** Merging disjoint clusters from one snapshot gives the same table in any order. */
  lemma MergeOrderIrrelevant(models: Rows, snapshot: Rows, clusters: seq<Cluster>, shuffled: seq<Cluster>)
    requires DisjointMerges(clusters) && NoRepeatedMerge(clusters)
    requires multiset(clusters) == multiset(shuffled)
    ensures AfterMerges(models, snapshot, clusters) == AfterMerges(models, snapshot, shuffled)
  {
    assert forall c :: c in clusters <==> c in multiset(clusters);
    assert forall c :: c in shuffled <==> c in multiset(shuffled);
    ShuffleKeepsNoRepeat(clusters, shuffled);
    var a, b := AfterMerges(models, snapshot, clusters), AfterMerges(models, snapshot, shuffled);
    AfterMergesAt(models, snapshot, clusters, 0);
    AfterMergesAt(models, snapshot, shuffled, 0);
    forall id | id in models
      ensures a[id] == b[id]
    {
      AfterMergesAt(models, snapshot, clusters, id);
      AfterMergesAt(models, snapshot, shuffled, id);
      if c :| MergedIn(clusters, snapshot, id, c) {
        assert MergedIn(shuffled, snapshot, id, c);
      } else {
        assert forall c :: MergedIn(shuffled, snapshot, id, c) ==> MergedIn(clusters, snapshot, id, c);
      }
    }
  }

  ghost predicate AgreeOn(members: seq<Id>, a: Rows, b: Rows) {
    forall i | 0 <= i < |members| :: members[i] in a && members[i] in b && a[members[i]] == b[members[i]]
  }

  lemma {:induction false} EvidenceLocal(members: seq<Id>, banned: seq<Id>, a: Rows, b: Rows)
    requires AgreeOn(members, a, b)
    ensures EventsOf(members, a) == EventsOf(members, b)
    ensures SupportsOf(members, a, banned) == SupportsOf(members, b, banned)
    ensures members != [] ==> MaxConfidence(members, a) == MaxConfidence(members, b)
  {
    if |members| > 0 { EvidenceLocal(members[..|members| - 1], banned, a, b); }
  }

  lemma {:induction false} CanonicalLocal(members: seq<Id>, a: Rows, b: Rows)
    requires members != [] && AgreeOn(members, a, b)
    ensures PickCanonical(members, a) == PickCanonical(members, b)
  {
    if |members| > 1 { CanonicalLocal(members[1..], a, b); }
  }

  lemma ApplyMergeLocal(models: Rows, a: Rows, b: Rows, members: seq<Id>)
    requires members != [] && AgreeOn(members, a, b)
    ensures ApplyMerge(models, a, members) == ApplyMerge(models, b, members)
  {
    EvidenceLocal(members, members, a, b);
    CanonicalLocal(members, a, b);
  }

  /** The stale snapshot does no harm: disjoint merges computed from it equal merges that re-read first. */
  lemma {:induction false} SnapshotEqualsRereading(models: Rows, snapshot: Rows, clusters: seq<Cluster>)
    requires DisjointMerges(clusters) && NoRepeatedMerge(clusters)
    requires forall c | c in clusters && c.decision == AutoMerge ::
             c.members != [] && AgreeOn(c.members, snapshot, models)
    ensures AfterMerges(models, snapshot, clusters) == AfterMergesRereading(models, clusters)
  {
    if clusters != [] {
      var init, last := clusters[..|clusters| - 1], clusters[|clusters| - 1];
      assert clusters == init + [last];
      SnapshotEqualsRereading(models, snapshot, init);
      var before := AfterMerges(models, snapshot, init);
      AfterMergesAt(models, snapshot, init, 0);
      if last.decision == AutoMerge {
        forall i | 0 <= i < |last.members|
          ensures last.members[i] in before && before[last.members[i]] == snapshot[last.members[i]]
        {
          var id := last.members[i];
          AfterMergesAt(models, snapshot, init, id);
          NotMergedBefore(init, last, snapshot, id);
        }
        ApplyMergeLocal(before, snapshot, before, last.members);
      }
    }
  }

  // What the table's check guarantees of every stored row.
  predicate InBounds(row: Row) { CONFIDENCE_MIN <= row.confidence <= CONFIDENCE_MAX }

  /** After all merges each merged cluster keeps one active row, its canonical one, which holds every
      member's events and outside supports without duplicates and the clipped maximum confidence; for rows
      as the table admits them, the maximum itself. */
  lemma OneSurvivorHoldsEvidence(models: Rows, snapshot: Rows, clusters: seq<Cluster>, c: Cluster)
    requires DisjointMerges(clusters) && NoRepeatedMerge(clusters)
    requires c in clusters && IsMerge(c, snapshot)
    requires forall m | m in c.members :: m in models && models[m].active
    ensures var after := AfterMerges(models, snapshot, clusters);
      var canonical := CanonicalOf(c.members, snapshot);
      && canonical in after
      && (forall m | m in c.members :: m in after && (after[m].active <==> m == canonical))
      && Distinct(after[canonical].events) && Distinct(after[canonical].supports)
      && (forall e :: e in after[canonical].events <==> exists m | m in c.members :: e in snapshot[m].events)
      && (forall s :: s in after[canonical].supports <==>
                        s !in c.members && exists m | m in c.members :: s in snapshot[m].supports)
      && (forall m | m in c.members :: Clip(snapshot[m].confidence) <= after[canonical].confidence)
      && (exists m | m in c.members :: after[canonical].confidence == Clip(snapshot[m].confidence))
      && ((forall m | m in c.members :: InBounds(snapshot[m])) ==>
            && (forall m | m in c.members :: snapshot[m].confidence <= after[canonical].confidence)
            && (exists m | m in c.members :: after[canonical].confidence == snapshot[m].confidence))
  {
    var after, canonical := AfterMerges(models, snapshot, clusters), CanonicalOf(c.members, snapshot);
    forall m | m in c.members
      ensures m in after && after[m] == RowAfter(c.members, snapshot, models[m], m)
    {
      AfterMergesAt(models, snapshot, clusters, m);
      assert MergedIn(clusters, snapshot, m, c);
    }
    EvidenceMeaning(c.members, snapshot, c.members);
    var best := MaxConfidence(c.members, snapshot);
    var i :| 0 <= i < |c.members| && snapshot[c.members[i]].confidence == best;
    assert c.members[i] in c.members;
    forall m | m in c.members
      ensures Clip(snapshot[m].confidence) <= after[canonical].confidence
    {
      var j :| 0 <= j < |c.members| && c.members[j] == m;
    }
  }

  /** The surviving confidence is the cluster maximum exactly when that maximum is inside the clip bounds. */
  lemma ConfidenceLiftedIffInBounds(members: seq<Id>, snapshot: Rows, current: Row)
    requires Mergeable(members, snapshot)
    ensures RowAfter(members, snapshot, current, CanonicalOf(members, snapshot)).confidence ==
            MaxConfidence(members, snapshot)
            <==> CONFIDENCE_MIN <= MaxConfidence(members, snapshot) <= CONFIDENCE_MAX
  {
  }

  ghost predicate HeldActive(models: Rows, e: Id) {
    exists id | id in models :: models[id].active && e in models[id].events
  }

  /** No merge run loses or invents evidence: the events held by active rows are the same set before and after. */
  lemma EvidenceConserved(models: Rows, snapshot: Rows, clusters: seq<Cluster>, e: Id)
    requires DisjointMerges(clusters) && NoRepeatedMerge(clusters)
    requires forall c | c in clusters && IsMerge(c, snapshot) ::
      AgreeOn(c.members, snapshot, models) && forall m | m in c.members :: models[m].active
    ensures HeldActive(AfterMerges(models, snapshot, clusters), e) <==> HeldActive(models, e)
  {
    var after := AfterMerges(models, snapshot, clusters);
    AfterMergesAt(models, snapshot, clusters, 0);
    if HeldActive(models, e) {
      var id :| id in models && models[id].active && e in models[id].events;
      AfterMergesAt(models, snapshot, clusters, id);
      if c :| MergedIn(clusters, snapshot, id, c) {
        OneSurvivorHoldsEvidence(models, snapshot, clusters, c);
        var canonical := CanonicalOf(c.members, snapshot);
        assert e in after[canonical].events && canonical in c.members;
      }
    }
    if HeldActive(after, e) {
      var id :| id in after && after[id].active && e in after[id].events;
      AfterMergesAt(models, snapshot, clusters, id);
      if c :| MergedIn(clusters, snapshot, id, c) {
        OneSurvivorHoldsEvidence(models, snapshot, clusters, c);
        var m :| m in c.members && e in snapshot[m].events;
      }
    }
  }
}
