/** Every field a merge writes, and the order of the lists it writes. */
module MergeDetails {
  import opened Discovery
  import opened Emission
  import opened Graph
  import opened Merging
  import opened Reconcile
  import opened UnionFind

  /** Distinct members of another list, in the order of their first positions there. */
  ghost predicate InFirstOrder(order: seq<Id>, named: seq<Id>) {
    && (forall x | x in order :: x in named)
    && forall i, j | 0 <= i < j < |order| :: IndexIn(named, order[i]) < IndexIn(named, order[j])
  }

  /** The members' lists one after the other. */
  function Chained(members: seq<Id>, lists: map<Id, seq<Id>>): seq<Id>
    requires forall m | m in members :: m in lists
  {
    if members == [] then []
    else
      assert members == members[..|members| - 1] + [members[|members| - 1]];
      Chained(members[..|members| - 1], lists) + lists[members[|members| - 1]]
  }

  function EventLists(rows: Rows): map<Id, seq<Id>> { map id | id in rows :: rows[id].events }

  function SupportLists(rows: Rows): map<Id, seq<Id>> { map id | id in rows :: rows[id].supports }

  lemma InFirstOrderLonger(order: seq<Id>, named: seq<Id>, x: Id)
    requires InFirstOrder(order, named)
    ensures InFirstOrder(order, named + [x])
    ensures forall y | y in order :: IndexIn(named + [x], y) < |named|
  {
    forall y | y in order ensures y in named + [x] && IndexIn(named + [x], y) == IndexIn(named, y) < |named| {
      IndexInLonger(named, [x], y);
    }
    forall i, j | 0 <= i < j < |order| ensures IndexIn(named + [x], order[i]) < IndexIn(named + [x], order[j]) {
      assert order[i] in order && order[j] in order;
    }
  }

  lemma OneMoreGathered(order: seq<Id>, named: seq<Id>, x: Id, kept: bool)
    requires InFirstOrder(order, named) && (kept ==> x !in named)
    ensures InFirstOrder(if kept then order + [x] else order, named + [x])
  {
    InFirstOrderLonger(order, named, x);
    if kept {
      IndexInLonger(named, [x], x);
      assert (named + [x])[|named|] == x;
      forall i, j | 0 <= i < j < |order + [x]|
        ensures IndexIn(named + [x], (order + [x])[i]) < IndexIn(named + [x], (order + [x])[j])
      {
        assert order[i] in order;
      }
    }
  }

  /** Gathering more of what is not banned keeps the first-position order, as long as all that was seen and is not
      banned was gathered. */
  lemma {:induction false} GatherInOrder(acc: seq<Id>, named: seq<Id>, xs: seq<Id>, banned: seq<Id>)
    requires InFirstOrder(acc, named) && forall x :: x in named && x !in banned ==> x in acc
    ensures InFirstOrder(Gather(acc, xs, banned), named + xs)
    ensures forall x :: x in named + xs && x !in banned ==> x in Gather(acc, xs, banned)
  {
    if xs == [] {
      assert named + xs == named;
    } else {
      var init, x := xs[..|xs| - 1], xs[|xs| - 1];
      GatherInOrder(acc, named, init, banned);
      var before := Gather(acc, init, banned);
      OneMoreGathered(before, named + init, x, x !in banned && x !in before);
      assert named + init + [x] == named + xs;
    }
  }

  /** The merged events are the members' events in the order of their first occurrence, members in order; the merged
      supports likewise, without the banned ones. */
  lemma {:induction false} EvidenceInOrder(members: seq<Id>, rows: Rows, banned: seq<Id>)
    requires Within(members, rows)
    ensures forall m | m in members :: m in rows
    ensures InFirstOrder(EventsOf(members, rows), Chained(members, EventLists(rows)))
    ensures InFirstOrder(SupportsOf(members, rows, banned), Chained(members, SupportLists(rows)))
    ensures forall x :: x in Chained(members, EventLists(rows)) ==> x in EventsOf(members, rows)
    ensures forall x ::
      x in Chained(members, SupportLists(rows)) && x !in banned ==> x in SupportsOf(members, rows, banned)
  {
    if members != [] {
      var init, m := members[..|members| - 1], members[|members| - 1];
      assert members == init + [m];
      EvidenceInOrder(init, rows, banned);
      GatherInOrder(EventsOf(init, rows), Chained(init, EventLists(rows)), rows[m].events, []);
      GatherInOrder(SupportsOf(init, rows, banned), Chained(init, SupportLists(rows)), rows[m].supports, banned);
    }
  }

  /** The other members, in the members' order. */
  lemma {:induction false} OthersInOrder(members: seq<Id>, p: nat)
    requires Distinct(members) && p < |members|
    ensures Others(members, members[p]) == members[..p] + members[p + 1..]
  {
    var n := |members| - 1;
    var init := members[..n];
    if p == n {
      NoneToDrop(init, members[n]);
      assert members[p + 1..] == [];
    } else {
      OthersInOrder(init, p);
      assert init[..p] == members[..p] && init[p + 1..] + [members[n]] == members[p + 1..];
    }
  }

  lemma {:induction false} NoneToDrop(members: seq<Id>, x: Id)
    requires x !in members
    ensures Others(members, x) == members
  {
    if members != [] {
      assert members == members[..|members| - 1] + [members[|members| - 1]];
      NoneToDrop(members[..|members| - 1], x);
    }
  }

  /** What a row keeps in a merge, whichever role it has. */
  predicate SameButForTheMerge(before: Row, after: Row) {
    && after.id == before.id && after.createdAt == before.createdAt && after.kind == before.kind
    && after.embedding == before.embedding && after.activation == before.activation
  }

  /** A merge of distinct members leaves the canonical row active with a note of the archived members in order and the
      gathered lists; any other member is only archived. */
  lemma MergeWrites(models: Rows, snapshot: Rows, clusters: seq<Cluster>, c: Cluster, p: nat)
    requires DisjointMerges(clusters) && NoRepeatedMerge(clusters)
    requires c in clusters && IsMerge(c, snapshot) && Distinct(c.members)
    requires forall m | m in c.members :: m in models
    requires p < |c.members| && c.members[p] == CanonicalOf(c.members, snapshot)
    ensures var after := AfterMerges(models, snapshot, clusters);
      && (forall m | m in c.members :: m in after && SameButForTheMerge(models[m], after[m]))
      && (forall m | m in c.members && m != c.members[p] ::
            && !after[m].active && after[m].confidence == models[m].confidence && after[m].events == models[m].events
            && after[m].supports == models[m].supports && after[m].absorbed == models[m].absorbed)
      && after[c.members[p]].active == models[c.members[p]].active
      && after[c.members[p]].absorbed == models[c.members[p]].absorbed + [c.members[..p] + c.members[p + 1..]]
      && after[c.members[p]].events == EventsOf(c.members, snapshot)
      && after[c.members[p]].supports == SupportsOf(c.members, snapshot, c.members)
  {
    OthersInOrder(c.members, p);
    forall m | m in c.members
      ensures m in AfterMerges(models, snapshot, clusters)
      ensures AfterMerges(models, snapshot, clusters)[m] == RowAfter(c.members, snapshot, models[m], m)
    {
      AfterMergesAt(models, snapshot, clusters, m);
      assert MergedIn(clusters, snapshot, m, c);
    }
  }
}
