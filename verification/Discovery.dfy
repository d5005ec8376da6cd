/** The emission half of cluster discovery: group by root, absorb pairs, cap the list. */
module Discovery {
  import opened Graph
  import opened Reconcile
  import opened Scanning
  import opened Sorting
  import opened UnionFind

  datatype Cluster = Cluster(members: seq<Id>, kind: Kind, cosines: seq<real>, decision: Decision)

  predicate InRep(order: seq<Id>, rep: map<Id, Id>) {
    forall i | 0 <= i < |order| :: order[i] in rep
  }

  /** Distinct representatives, in the order their first member was seen. */
  function Roots(order: seq<Id>, rep: map<Id, Id>): seq<Id>
    requires InRep(order, rep)
  {
    if order == [] then [] else Appended(Roots(order[..|order| - 1], rep), rep[order[|order| - 1]])
  }

  function ClassOf(order: seq<Id>, rep: map<Id, Id>, root: Id): (members: seq<Id>)
    requires InRep(order, rep)
    ensures forall x | x in members :: x in order && rep[x] == root
  {
    if order == [] then []
    else
      var before := ClassOf(order[..|order| - 1], rep, root);
      var x := order[|order| - 1];
      if rep[x] == root then before + [x] else before
  }

  function PairCosine(rc: Reconciler, rows: Rows, kind: Kind, a: Id, b: Id): real {
    if a in rows && b in rows then
      var (earlier, later) := OrientPair(rows[a], rows[b]);
      ClassifyPair(rc, earlier, later, rc.rule(kind), 0.0).cosine
    else 0.0
  }

  /** Member i with each of the members between i and end. */
  function LaterPairs(members: seq<Id>, i: nat, end: nat): seq<(Id, Id)>
    requires i < end <= |members|
  {
    seq(end - i - 1, j requires 0 <= j < end - i - 1 => (members[i], members[i + 1 + j]))
  }

  /** The first n members, each with every later one. */
  function PairsUpTo(members: seq<Id>, n: nat): seq<(Id, Id)>
    requires n <= |members|
  {
    if n == 0 then [] else PairsUpTo(members, n - 1) + LaterPairs(members, n - 1, |members|)
  }

  function CosinesOf(rc: Reconciler, rows: Rows, kind: Kind, pairs: seq<(Id, Id)>): seq<real> {
    seq(|pairs|, i requires 0 <= i < |pairs| => PairCosine(rc, rows, kind, pairs[i].0, pairs[i].1))
  }

  function KeysOf(pairs: seq<(Id, Id)>): set<Key> {
    set p | p in pairs :: KeyOf(p.0, p.1)
  }

  lemma {:induction false} PairsUpToMeaning(members: seq<Id>, n: nat, a: Id, b: Id)
    requires n <= |members|
    ensures (a, b) in PairsUpTo(members, n) <==>
            exists p, q | 0 <= p < q < |members| && p < n :: members[p] == a && members[q] == b
  {
    if n > 0 {
      PairsUpToMeaning(members, n - 1, a, b);
      var here := LaterPairs(members, n - 1, |members|);
      if q :| n - 1 < q < |members| && members[n - 1] == a && members[q] == b {
        assert here[q - n] == (a, b);
      }
      if (a, b) in here {
        var j :| 0 <= j < |here| && here[j] == (a, b);
        assert members[n - 1] == a && members[n + j] == b;
      }
    }
  }

  function AutoCluster(rc: Reconciler, rows: Rows, members: seq<Id>): Cluster
    requires |members| >= 2 && forall m | m in members :: m in rows
  {
    SortIdsMeaning(members);
    var sorted := SortIds(members);
    assert sorted[0] in members;
    var kind := rows[sorted[0]].kind;
    Cluster(sorted, kind, CosinesOf(rc, rows, kind, PairsUpTo(sorted, |sorted|)), AutoMerge)
  }

  predicate Covers(rows: Rows, order: seq<Id>, rep: map<Id, Id>) {
    InRep(order, rep) && Loaded(rows, order)
  }

  function AutoClusters(rc: Reconciler, rows: Rows, roots: seq<Id>, order: seq<Id>, rep: map<Id, Id>): seq<Cluster>
    requires Covers(rows, order, rep)
  {
    if roots == [] then []
    else
      var before := AutoClusters(rc, rows, roots[..|roots| - 1], order, rep);
      var members := ClassOf(order, rep, roots[|roots| - 1]);
      if |members| < 2 then before else before + [AutoCluster(rc, rows, members)]
  }

  predicate InOneClass(key: Key, rep: map<Id, Id>) {
    key.0 in rep && key.1 in rep && rep[key.0] == rep[key.1]
  }

  function PairCluster(e: Entry): Cluster {
    Cluster(SortIds([e.key.0, e.key.1]), e.kind, [e.cosine], e.decision)
  }

  function PairClusters(other: seq<Entry>, rep: map<Id, Id>): seq<Cluster> {
    if other == [] then []
    else
      var before := PairClusters(other[..|other| - 1], rep);
      var e := other[|other| - 1];
      if InOneClass(e.key, rep) then before else before + [PairCluster(e)]
  }

  function AllClusters(rc: Reconciler, rows: Rows, order: seq<Id>, rep: map<Id, Id>, other: seq<Entry>): seq<Cluster>
    requires Covers(rows, order, rep)
  {
    AutoClusters(rc, rows, Roots(order, rep), order, rep) + PairClusters(other, rep)
  }

  /** What the cap keeps: the cap is tested after appending, so one cluster always fits. */
  function Capped(all: seq<Cluster>, cap: int): (kept: seq<Cluster>)
    ensures kept <= all && (all != [] ==> kept != [])
    ensures cap >= 1 ==> |kept| <= cap
    ensures kept == all || |kept| == (if cap < 1 then 1 else cap)
  {
    var most := if cap < 1 then 1 else cap;
    if |all| <= most then all else all[..most]
  }

  lemma NextPair(rc: Reconciler, rows: Rows, kind: Kind, pairs: seq<(Id, Id)>, a: Id, b: Id)
    ensures KeysOf(pairs + [(a, b)]) == KeysOf(pairs) + {KeyOf(a, b)}
    ensures CosinesOf(rc, rows, kind, pairs + [(a, b)]) ==
            CosinesOf(rc, rows, kind, pairs) + [PairCosine(rc, rows, kind, a, b)]
  {
    forall k | k in KeysOf(pairs + [(a, b)])
      ensures k in KeysOf(pairs) + {KeyOf(a, b)}
    {
      var p :| p in pairs + [(a, b)] && KeyOf(p.0, p.1) == k;
      if p in pairs { } else { assert p == (a, b); }
    }
    assert (a, b) in pairs + [(a, b)];
    assert forall p | p in pairs :: p in pairs + [(a, b)];
  }

  lemma NextLater(before: seq<(Id, Id)>, members: seq<Id>, i: nat, j: nat)
    requires i < j < |members|
    ensures before + LaterPairs(members, i, j) + [(members[i], members[j])] == before + LaterPairs(members, i, j + 1)
  {
    assert LaterPairs(members, i, j) + [(members[i], members[j])] == LaterPairs(members, i, j + 1);
  }

  /** The double loop over a cluster's members: the pairs it absorbs, and their cosines. */
  method ScorePairs(rc: Reconciler, rows: Rows, kind: Kind, members: seq<Id>)
    returns (pairs: set<Key>, cosines: seq<real>)
    ensures pairs == KeysOf(PairsUpTo(members, |members|))
    ensures cosines == CosinesOf(rc, rows, kind, PairsUpTo(members, |members|))
  {
    pairs, cosines := {}, [];
    ghost var done: seq<(Id, Id)> := [];
    for i := 0 to |members|
      invariant done == PairsUpTo(members, i)
      invariant pairs == KeysOf(done) && cosines == CosinesOf(rc, rows, kind, done)
    {
      ghost var before := done;
      for j := i + 1 to |members|
        invariant done == before + LaterPairs(members, i, j)
        invariant pairs == KeysOf(done) && cosines == CosinesOf(rc, rows, kind, done)
      {
        NextPair(rc, rows, kind, done, members[i], members[j]);
        NextLater(before, members, i, j);
        pairs := pairs + {KeyOf(members[i], members[j])};
        cosines := cosines + [PairCosine(rc, rows, kind, members[i], members[j])];
        done := done + [(members[i], members[j])];
      }
    }
  }

  /** The `defaultdict(list)` of ids per root. */
  function Groups(order: seq<Id>, rep: map<Id, Id>): map<Id, seq<Id>>
    requires InRep(order, rep)
  {
    if order == [] then map[]
    else
      var x := order[|order| - 1];
      var before := Groups(order[..|order| - 1], rep);
      before[rep[x] := (if rep[x] in before then before[rep[x]] else []) + [x]]
  }

  lemma {:induction false} GroupsMeaning(order: seq<Id>, rep: map<Id, Id>, root: Id)
    requires InRep(order, rep)
    ensures root in Groups(order, rep) <==> root in Roots(order, rep)
    ensures ClassOf(order, rep, root) == if root in Groups(order, rep) then Groups(order, rep)[root] else []
  {
    if order != [] { GroupsMeaning(order[..|order| - 1], rep, root); }
  }

  lemma GroupNext(order: seq<Id>, rep: map<Id, Id>, i: nat)
    requires InRep(order, rep) && i < |order|
    ensures Roots(order[..i + 1], rep) == Appended(Roots(order[..i], rep), rep[order[i]])
    ensures var before, root := Groups(order[..i], rep), rep[order[i]];
      Groups(order[..i + 1], rep) == before[root := (if root in before then before[root] else []) + [order[i]]]
  {
    assert order[..i + 1][..i] == order[..i];
  }

  /** The ids seen by the union-find, grouped under their root in first-seen order. */
  method GroupByRoot(uf: UF) returns (roots: seq<Id>, groups: map<Id, seq<Id>>)
    requires uf.Valid() && InRep(uf.order, uf.rep)
    modifies uf
    ensures uf.Valid() && uf.rep == old(uf.rep) && uf.order == old(uf.order)
    ensures roots == Roots(uf.order, uf.rep) && groups == Groups(uf.order, uf.rep)
  {
    roots, groups := [], map[];
    var members := uf.order;
    ghost var rep := uf.rep;
    for i := 0 to |members|
      invariant uf.Valid() && uf.rep == rep && uf.order == members
      invariant roots == Roots(members[..i], rep) && groups == Groups(members[..i], rep)
    {
      var x := members[i];
      var root := uf.Find(x);
      GroupNext(members, rep, i);
      roots := Appended(roots, root);
      groups := groups[root := (if root in groups then groups[root] else []) + [x]];
    }
    assert members[..|members|] == members;
  }

  /** All pairs lying inside some cluster of the list. */
  function Absorbed(clusters: seq<Cluster>): set<Key> {
    if clusters == [] then {}
    else
      var members := clusters[|clusters| - 1].members;
      Absorbed(clusters[..|clusters| - 1]) + KeysOf(PairsUpTo(members, |members|))
  }

  lemma {:induction false} ClassOfMeaning(order: seq<Id>, rep: map<Id, Id>, root: Id, x: Id)
    requires InRep(order, rep)
    ensures x in ClassOf(order, rep, root) <==> x in order && rep[x] == root
  {
    if order != [] {
      ClassOfMeaning(order[..|order| - 1], rep, root, x);
      assert order == order[..|order| - 1] + [order[|order| - 1]];
    }
  }

  lemma {:induction false} RootsMeaning(order: seq<Id>, rep: map<Id, Id>, x: Id)
    requires InRep(order, rep) && x in order
    ensures rep[x] in Roots(order, rep)
  {
    var init := order[..|order| - 1];
    assert order == init + [order[|order| - 1]];
    if x in init { RootsMeaning(init, rep, x); }
  }

  ghost predicate Holds(c: Cluster, a: Id, b: Id) { a in c.members && b in c.members }

  ghost predicate SomeHolds(clusters: seq<Cluster>, a: Id, b: Id) {
    exists c | c in clusters :: Holds(c, a, b)
  }

  lemma SomeHoldsNext(clusters: seq<Cluster>, c: Cluster, a: Id, b: Id)
    ensures SomeHolds(clusters + [c], a, b) <==> SomeHolds(clusters, a, b) || Holds(c, a, b)
  {
    if SomeHolds(clusters, a, b) {
      var d :| d in clusters && Holds(d, a, b);
      assert d in clusters + [c];
    }
    if Holds(c, a, b) { assert c in clusters + [c]; }
  }

  /** Two distinct ids share an auto cluster exactly when they share a listed root. */
  lemma {:induction false} AutoClustersHold(rc: Reconciler, rows: Rows, roots: seq<Id>, order: seq<Id>,
                                            rep: map<Id, Id>, a: Id, b: Id)
    requires Covers(rows, order, rep) && a != b
    ensures SomeHolds(AutoClusters(rc, rows, roots, order, rep), a, b) <==>
            a in order && b in order && rep[a] == rep[b] && rep[a] in roots
  {
    if roots != [] {
      var init, root := roots[..|roots| - 1], roots[|roots| - 1];
      AutoClustersHold(rc, rows, init, order, rep, a, b);
      assert roots == init + [root];
      ClassOfMeaning(order, rep, root, a);
      ClassOfMeaning(order, rep, root, b);
      var members := ClassOf(order, rep, root);
      if |members| >= 2 {
        SomeHoldsNext(AutoClusters(rc, rows, init, order, rep), AutoCluster(rc, rows, members), a, b);
        SortIdsMeaning(members);
      }
    }
  }

  lemma KeysWithin(members: seq<Id>, key: Key)
    requires Sorted(members, IdLe) && key.0 < key.1
    ensures key in KeysOf(PairsUpTo(members, |members|)) <==> key.0 in members && key.1 in members
  {
    var pairs := PairsUpTo(members, |members|);
    if key in KeysOf(pairs) {
      var p :| p in pairs && KeyOf(p.0, p.1) == key;
      PairsUpToMeaning(members, |members|, p.0, p.1);
    }
    if key.0 in members && key.1 in members {
      var i :| 0 <= i < |members| && members[i] == key.0;
      var j :| 0 <= j < |members| && members[j] == key.1;
      assert forall p, q | 0 <= p <= q < |members| :: members[p] <= members[q] by {
        forall p, q | 0 <= p <= q < |members| ensures members[p] <= members[q] {
          if p < q { assert IdLe(members[p], members[q]); }
        }
      }
      PairsUpToMeaning(members, |members|, key.0, key.1);
      assert KeyOf(key.0, key.1) == key;
    }
  }

  ghost predicate AllSorted(clusters: seq<Cluster>) {
    forall c | c in clusters :: Sorted(c.members, IdLe)
  }

  lemma {:induction false} AbsorbedMeaning(clusters: seq<Cluster>, key: Key)
    requires AllSorted(clusters) && key.0 < key.1
    ensures key in Absorbed(clusters) <==> SomeHolds(clusters, key.0, key.1)
  {
    if clusters != [] {
      var init, c := clusters[..|clusters| - 1], clusters[|clusters| - 1];
      assert clusters == init + [c];
      AbsorbedMeaning(init, key);
      KeysWithin(c.members, key);
      SomeHoldsNext(init, c, key.0, key.1);
    }
  }

  lemma {:induction false} AutoClustersSorted(rc: Reconciler, rows: Rows, roots: seq<Id>, order: seq<Id>,
                                              rep: map<Id, Id>)
    requires Covers(rows, order, rep)
    ensures AllSorted(AutoClusters(rc, rows, roots, order, rep))
  {
    if roots != [] {
      AutoClustersSorted(rc, rows, roots[..|roots| - 1], order, rep);
      SortIdsMeaning(ClassOf(order, rep, roots[|roots| - 1]));
    }
  }

  /** The `seen_pairs` test is the same-class test. */
  lemma AbsorbedIsOneClass(rc: Reconciler, rows: Rows, order: seq<Id>, rep: map<Id, Id>, key: Key)
    requires Covers(rows, order, rep) && (forall x | x in rep :: x in order) && key.0 < key.1
    ensures key in Absorbed(AutoClusters(rc, rows, Roots(order, rep), order, rep)) <==> InOneClass(key, rep)
  {
    var roots := Roots(order, rep);
    AutoClustersSorted(rc, rows, roots, order, rep);
    AbsorbedMeaning(AutoClusters(rc, rows, roots, order, rep), key);
    AutoClustersHold(rc, rows, roots, order, rep, key.0, key.1);
    if InOneClass(key, rep) { RootsMeaning(order, rep, key.0); }
  }

  lemma ClustersNext(rc: Reconciler, rows: Rows, roots: seq<Id>, order: seq<Id>, rep: map<Id, Id>, i: nat)
    requires Covers(rows, order, rep) && i < |roots|
    ensures var members := ClassOf(order, rep, roots[i]);
      AutoClusters(rc, rows, roots[..i + 1], order, rep) ==
      AutoClusters(rc, rows, roots[..i], order, rep) + if |members| < 2 then [] else [AutoCluster(rc, rows, members)]
  {
    assert roots[..i + 1][..i] == roots[..i];
  }

  lemma {:induction false} AutoClustersPrefix(rc: Reconciler, rows: Rows, roots: seq<Id>, order: seq<Id>,
                                              rep: map<Id, Id>, i: nat)
    requires Covers(rows, order, rep) && i <= |roots|
    ensures AutoClusters(rc, rows, roots[..i], order, rep) <= AutoClusters(rc, rows, roots, order, rep)
  {
    if i < |roots| {
      AutoClustersPrefix(rc, rows, roots[..|roots| - 1], order, rep, i);
      assert roots[..|roots| - 1][..i] == roots[..i];
    } else {
      assert roots[..i] == roots;
    }
  }

  lemma AbsorbedNext(clusters: seq<Cluster>, c: Cluster)
    ensures Absorbed(clusters + [c]) == Absorbed(clusters) + KeysOf(PairsUpTo(c.members, |c.members|))
  {
    assert (clusters + [c])[..|clusters|] == clusters;
  }

  /** One group's cluster, and the pairs it absorbs. */
  method ScoreGroup(rc: Reconciler, rows: Rows, group: seq<Id>) returns (c: Cluster, pairs: set<Key>)
    requires |group| >= 2 && forall m | m in group :: m in rows
    ensures c == AutoCluster(rc, rows, group) && pairs == KeysOf(PairsUpTo(c.members, |c.members|))
  {
    SortIdsMeaning(group);
    var members := SortIds(group);
    assert members[0] in group;
    var kind := rows[members[0]].kind;
    var cosines;
    pairs, cosines := ScorePairs(rc, rows, kind, members);
    c := Cluster(members, kind, cosines, AutoMerge);
  }

  /** The auto-merge part of the emission: one cluster per root, stopping as soon as the cap is reached. */
  method EmitAuto(rc: Reconciler, rows: Rows, roots: seq<Id>, groups: map<Id, seq<Id>>, cap: int,
                  ghost order: seq<Id>, ghost rep: map<Id, Id>)
    returns (clusters: seq<Cluster>, seen: set<Key>, full: bool)
    requires Covers(rows, order, rep)
    requires forall i | 0 <= i < |roots| :: roots[i] in groups && groups[roots[i]] == ClassOf(order, rep, roots[i])
    ensures clusters <= AutoClusters(rc, rows, roots, order, rep)
    ensures full ==> |clusters| == if cap < 1 then 1 else cap
    ensures !full ==> clusters == AutoClusters(rc, rows, roots, order, rep) && seen == Absorbed(clusters)
    ensures !full ==> clusters == [] || |clusters| < cap
  {
    clusters, seen, full := [], {}, false;
    for i := 0 to |roots|
      invariant clusters == AutoClusters(rc, rows, roots[..i], order, rep)
      invariant seen == Absorbed(clusters)
      invariant clusters == [] || |clusters| < cap
    {
      ClustersNext(rc, rows, roots, order, rep, i);
      var group := groups[roots[i]];
      if |group| < 2 { continue; }
      var c, pairs := ScoreGroup(rc, rows, group);
      AbsorbedNext(clusters, c);
      clusters, seen := clusters + [c], seen + pairs;
      if |clusters| >= cap {
        AutoClustersPrefix(rc, rows, roots, order, rep, i + 1);
        full := true;
        return;
      }
    }
    assert roots[..|roots|] == roots;
  }

  lemma {:induction false} PairClustersPrefix(other: seq<Entry>, rep: map<Id, Id>, i: nat)
    requires i <= |other|
    ensures PairClusters(other[..i], rep) <= PairClusters(other, rep)
  {
    if i < |other| {
      PairClustersPrefix(other[..|other| - 1], rep, i);
      assert other[..|other| - 1][..i] == other[..i];
    } else {
      assert other[..i] == other;
    }
  }

  lemma PairClustersNext(other: seq<Entry>, rep: map<Id, Id>, i: nat)
    requires i < |other|
    ensures PairClusters(other[..i + 1], rep) ==
            PairClusters(other[..i], rep) + if InOneClass(other[i].key, rep) then [] else [PairCluster(other[i])]
  {
    assert other[..i + 1][..i] == other[..i];
  }

  /** Stopping at the cap after i remembered pairs gives what the cap keeps of the whole list. */
  lemma StopAtCap(start: seq<Cluster>, other: seq<Entry>, rep: map<Id, Id>, i: nat, cap: int)
    requires i <= |other| && |start + PairClusters(other[..i], rep)| == if cap < 1 then 1 else cap
    ensures start + PairClusters(other[..i], rep) == Capped(start + PairClusters(other, rep), cap)
  {
    PairClustersPrefix(other, rep, i);
    var here, all := PairClusters(other[..i], rep), PairClusters(other, rep);
    assert here == all[..|here|];
    assert start + here == (start + all)[..|start + here|];
  }

  /** The loop over remembered pairs, appending to the clusters emitted so far. */
  method EmitPairs(start: seq<Cluster>, seen: set<Key>, other: seq<Entry>, cap: int, ghost rep: map<Id, Id>)
    returns (clusters: seq<Cluster>)
    requires start == [] || |start| < cap
    requires forall i | 0 <= i < |other| :: other[i].key in seen <==> InOneClass(other[i].key, rep)
    ensures clusters == Capped(start + PairClusters(other, rep), cap)
  {
    clusters := start;
    ghost var emitted := [];
    for i := 0 to |other|
      invariant emitted == PairClusters(other[..i], rep)
      invariant clusters == start + emitted
      invariant clusters == [] || |clusters| < cap
    {
      PairClustersNext(other, rep, i);
      if other[i].key in seen { continue; }
      emitted := emitted + [PairCluster(other[i])];
      clusters := clusters + [PairCluster(other[i])];
      if |clusters| >= cap {
        StopAtCap(start, other, rep, i + 1, cap);
        return;
      }
    }
    assert other[..|other|] == other;
  }

  lemma GroupsAreClasses(order: seq<Id>, rep: map<Id, Id>)
    requires InRep(order, rep)
    ensures var roots := Roots(order, rep);
      forall i | 0 <= i < |roots| ::
        roots[i] in Groups(order, rep) && Groups(order, rep)[roots[i]] == ClassOf(order, rep, roots[i])
  {
    var roots := Roots(order, rep);
    forall i | 0 <= i < |roots|
      ensures roots[i] in Groups(order, rep) && Groups(order, rep)[roots[i]] == ClassOf(order, rep, roots[i])
    {
      GroupsMeaning(order, rep, roots[i]);
    }
  }

  lemma PrefixIsCapped(prefix: seq<Cluster>, autos: seq<Cluster>, pairs: seq<Cluster>, cap: int)
    requires prefix <= autos && |prefix| == if cap < 1 then 1 else cap
    ensures prefix == Capped(autos + pairs, cap)
  {
    assert (autos + pairs)[..|prefix|] == prefix;
  }

  /** The whole emission: auto clusters first, then the remembered pairs no cluster absorbed. */
  method Emit(rc: Reconciler, rows: Rows, uf: UF, other: seq<Entry>, cap: int) returns (clusters: seq<Cluster>)
    requires uf.Valid() && Covers(rows, uf.order, uf.rep) && Normal(other)
    requires forall x | x in uf.rep :: x in uf.order
    modifies uf
    ensures clusters == Capped(AllClusters(rc, rows, old(uf.order), old(uf.rep), other), cap)
  {
    ghost var order, rep := uf.order, uf.rep;
    var roots, groups := GroupByRoot(uf);
    GroupsAreClasses(order, rep);
    var autos, seen, full := EmitAuto(rc, rows, roots, groups, cap, order, rep);
    if full {
      PrefixIsCapped(autos, AutoClusters(rc, rows, roots, order, rep), PairClusters(other, rep), cap);
      clusters := autos;
    } else {
      forall i | 0 <= i < |other|
        ensures other[i].key in seen <==> InOneClass(other[i].key, rep)
      {
        AbsorbedIsOneClass(rc, rows, order, rep, other[i].key);
      }
      clusters := EmitPairs(autos, seen, other, cap, rep);
    }
  }

  // -- The whole discovery, and what it means -------------------------------------------------------

  ghost function LedgerOf(rc: Reconciler, floor: real, rows: Rows, search: Search, order: seq<Id>): Ledger
    requires Loaded(rows, order)
  {
    Replay(Offers(rc, floor, rows, search, order))
  }

  lemma LedgerCovers(rc: Reconciler, floor: real, rows: Rows, search: Search, order: seq<Id>)
    requires Keyed(rows) && Loaded(rows, order)
    ensures var ledger := LedgerOf(rc, floor, rows, search, order);
      && Covers(rows, FirstSeen(ledger.auto), Partition(ledger.auto))
      && Normal(ledger.other)
      && (forall x :: x in Partition(ledger.auto) <==> x in FirstSeen(ledger.auto))
  {
    var auto := LedgerOf(rc, floor, rows, search, order).auto;
    OffersWellFormed(rc, floor, rows, search, order);
    LedgerWellFormed(rows, Offers(rc, floor, rows, search, order));
    CallsMeaning(auto);
    RepKeys(CallsOf(auto));
    forall x | x in Partition(auto)
      ensures x in rows
    {
      assert Seen(auto, x);
    }
  }

  /** The uncapped cluster list of one discovery. */
  ghost function Everything(rc: Reconciler, floor: real, rows: Rows, search: Search, order: seq<Id>): seq<Cluster>
    requires Keyed(rows) && Loaded(rows, order)
  {
    var ledger := LedgerOf(rc, floor, rows, search, order);
    LedgerCovers(rc, floor, rows, search, order);
    AllClusters(rc, rows, FirstSeen(ledger.auto), Partition(ledger.auto), ledger.other)
  }

  /** `_discover_clusters` over the loaded rows: scan, then emit. */
  method Discover(rc: Reconciler, floor: real, rows: Rows, search: Search, order: seq<Id>, cap: int)
    returns (clusters: seq<Cluster>)
    requires Keyed(rows) && Loaded(rows, order)
    ensures clusters == Capped(Everything(rc, floor, rows, search, order), cap)
  {
    if order == [] {
      assert Everything(rc, floor, rows, search, order) == [];
      return [];
    }
    LedgerCovers(rc, floor, rows, search, order);
    var uf, other := Scan(rc, floor, rows, search, order);
    clusters := Emit(rc, rows, uf, other, cap);
  }

  ghost function AutoPart(rc: Reconciler, floor: real, rows: Rows, search: Search, order: seq<Id>): seq<Cluster>
    requires Keyed(rows) && Loaded(rows, order)
  {
    var auto := LedgerOf(rc, floor, rows, search, order).auto;
    LedgerCovers(rc, floor, rows, search, order);
    AutoClusters(rc, rows, Roots(FirstSeen(auto), Partition(auto)), FirstSeen(auto), Partition(auto))
  }

  ghost function PairPart(rc: Reconciler, floor: real, rows: Rows, search: Search, order: seq<Id>): seq<Cluster>
    requires Loaded(rows, order)
  {
    var ledger := LedgerOf(rc, floor, rows, search, order);
    PairClusters(ledger.other, Partition(ledger.auto))
  }

  ghost function MergePairs(rc: Reconciler, floor: real, rows: Rows, search: Search, order: seq<Id>): set<Key>
    requires Loaded(rows, order)
  {
    Pairs(LedgerOf(rc, floor, rows, search, order).auto)
  }

  ghost predicate Disjoint(clusters: seq<Cluster>) {
    forall i, j, x | 0 <= i < j < |clusters| && x in clusters[i].members :: x !in clusters[j].members
  }

  ghost predicate StrictlyAscending(s: seq<Id>) {
    forall i, j | 0 <= i < j < |s| :: s[i] < s[j]
  }

  ghost predicate MergeCluster(c: Cluster) {
    c.decision == AutoMerge && |c.members| >= 2 && StrictlyAscending(c.members)
  }

  lemma {:induction false} DistinctCounts(s: seq<Id>, x: Id)
    requires Distinct(s)
    ensures multiset(s)[x] <= 1
  {
    if s != [] {
      assert s == [s[0]] + s[1..];
      DistinctCounts(s[1..], x);
      if x == s[0] { assert x !in s[1..]; }
    }
  }

  lemma RepeatCounts<T>(s: seq<T>, i: nat, j: nat)
    requires i < j < |s| && s[i] == s[j]
    ensures multiset(s)[s[i]] >= 2
  {
    assert s == s[..j] + [s[j]] + s[j + 1..];
    assert s[..j][i] == s[j] && s[j] in multiset(s[..j]);
  }

  lemma SortedDistinct(s: seq<Id>)
    requires Distinct(s)
    ensures StrictlyAscending(SortIds(s))
  {
    SortIdsMeaning(s);
    var t := SortIds(s);
    forall i, j | 0 <= i < j < |t|
      ensures t[i] < t[j]
    {
      assert IdLe(t[i], t[j]);
      if t[i] == t[j] {
        RepeatCounts(t, i, j);
        DistinctCounts(s, t[i]);
        assert false;
      }
    }
  }

  lemma {:induction false} RootsDistinct(order: seq<Id>, rep: map<Id, Id>)
    requires InRep(order, rep)
    ensures Distinct(Roots(order, rep))
  {
    if order != [] { RootsDistinct(order[..|order| - 1], rep); }
  }

  lemma {:induction false} ClassOfDistinct(order: seq<Id>, rep: map<Id, Id>, root: Id)
    requires InRep(order, rep) && Distinct(order)
    ensures Distinct(ClassOf(order, rep, root))
  {
    if order != [] {
      ClassOfDistinct(order[..|order| - 1], rep, root);
      assert order[|order| - 1] !in order[..|order| - 1];
    }
  }

  ghost predicate RootedIn(clusters: seq<Cluster>, rep: map<Id, Id>, roots: seq<Id>) {
    forall i, x | 0 <= i < |clusters| && x in clusters[i].members :: x in rep && rep[x] in roots
  }

  lemma OneMoreComponent(clusters: seq<Cluster>, c: Cluster, rep: map<Id, Id>, roots: seq<Id>, root: Id)
    requires Disjoint(clusters) && RootedIn(clusters, rep, roots) && root !in roots
    requires forall x | x in c.members :: x in rep && rep[x] == root
    ensures Disjoint(clusters + [c]) && RootedIn(clusters + [c], rep, roots + [root])
  {
  }

  lemma ClassCluster(rc: Reconciler, rows: Rows, order: seq<Id>, rep: map<Id, Id>, root: Id)
    requires Covers(rows, order, rep) && Distinct(order) && |ClassOf(order, rep, root)| >= 2
    ensures var c := AutoCluster(rc, rows, ClassOf(order, rep, root));
      MergeCluster(c) && forall x | x in c.members :: x in rep && rep[x] == root
  {
    var members := ClassOf(order, rep, root);
    SortIdsMeaning(members);
    ClassOfDistinct(order, rep, root);
    SortedDistinct(members);
  }

  lemma {:induction false} AutoClustersShape(rc: Reconciler, rows: Rows, roots: seq<Id>, order: seq<Id>,
                                             rep: map<Id, Id>)
    requires Covers(rows, order, rep) && Distinct(order) && Distinct(roots)
    ensures var clusters := AutoClusters(rc, rows, roots, order, rep);
      && Disjoint(clusters) && RootedIn(clusters, rep, roots)
      && (forall c | c in clusters :: MergeCluster(c))
  {
    if roots != [] {
      var init, root := roots[..|roots| - 1], roots[|roots| - 1];
      AutoClustersShape(rc, rows, init, order, rep);
      assert roots == init + [root] && root !in init;
      var members := ClassOf(order, rep, root);
      if |members| >= 2 {
        ClassCluster(rc, rows, order, rep, root);
        OneMoreComponent(AutoClusters(rc, rows, init, order, rep), AutoCluster(rc, rows, members), rep, init, root);
      }
    }
  }

  /** The auto-merge clusters are the connected components of the pairs decided auto_merge: each is an
      ascending list of at least two ids, no id is in two of them, and two ids share one exactly when the
      recorded pairs connect them. */
  lemma ClustersAreComponents(rc: Reconciler, floor: real, rows: Rows, search: Search, order: seq<Id>)
    requires Keyed(rows) && Loaded(rows, order)
    ensures var autos := AutoPart(rc, floor, rows, search, order);
      && (forall c | c in autos :: MergeCluster(c))
      && Disjoint(autos)
      && forall a, b | a != b ::
           SomeHolds(autos, a, b) <==> Connected(MergePairs(rc, floor, rows, search, order), a, b)
  {
    var auto := LedgerOf(rc, floor, rows, search, order).auto;
    var calls, rep, ids := CallsOf(auto), Partition(auto), FirstSeen(auto);
    var autos := AutoPart(rc, floor, rows, search, order);
    LedgerCovers(rc, floor, rows, search, order);
    RepKeys(calls);
    RootsDistinct(ids, rep);
    AutoClustersShape(rc, rows, Roots(ids, rep), ids, rep);
    CallsMeaning(auto);
    forall a, b | a != b
      ensures SomeHolds(autos, a, b) <==> Connected(MergePairs(rc, floor, rows, search, order), a, b)
    {
      AutoClustersHold(rc, rows, Roots(ids, rep), ids, rep, a, b);
      SameClassIffConnected(auto, a, b);
      if a in ids { RootsMeaning(ids, rep, a); }
    }
  }

  lemma SameClassIffConnected(auto: seq<Key>, a: Id, b: Id)
    requires a != b
    ensures InOneClass((a, b), Partition(auto)) <==> Connected(Pairs(auto), a, b)
  {
    CallsMeaning(auto);
    var calls := CallsOf(auto);
    if a in Partition(auto) && b in Partition(auto) {
      SameRootIffConnected(calls, a, b);
    } else if a !in Partition(auto) {
      UnknownIdIsolated(calls, a, b);
    } else {
      UnknownIdIsolated(calls, b, a);
      if Connected(Pairs(auto), a, b) { ConnectedSymmetric(Pairs(auto), a, b); }
    }
  }

  /** Every remembered pair whose two ids are not in one component is emitted, once, with the decision it
      was remembered with; no other pair is. */
  lemma PairsOutsideComponents(rc: Reconciler, floor: real, rows: Rows, search: Search, order: seq<Id>)
    requires Keyed(rows) && Loaded(rows, order)
    ensures var ledger := LedgerOf(rc, floor, rows, search, order);
      var emitted := PairPart(rc, floor, rows, search, order);
      && Everything(rc, floor, rows, search, order) == AutoPart(rc, floor, rows, search, order) + emitted
      && (forall c :: c in emitted <==>
            exists e | e in ledger.other :: !Connected(Pairs(ledger.auto), e.key.0, e.key.1) && c == PairCluster(e))
      && BorderlinePairs(emitted)
  {
    var ledger := LedgerOf(rc, floor, rows, search, order);
    EverythingInTwoParts(rc, floor, rows, search, order);
    RememberedPairs(rc, floor, rows, search, order);
    PairClustersMeaning(ledger.other, ledger.auto);
    PairClustersShape(ledger.other, ledger.auto);
  }

  lemma EverythingInTwoParts(rc: Reconciler, floor: real, rows: Rows, search: Search, order: seq<Id>)
    requires Keyed(rows) && Loaded(rows, order)
    ensures Everything(rc, floor, rows, search, order) ==
            AutoPart(rc, floor, rows, search, order) + PairPart(rc, floor, rows, search, order)
  {
  }

  lemma RememberedPairs(rc: Reconciler, floor: real, rows: Rows, search: Search, order: seq<Id>)
    requires Keyed(rows) && Loaded(rows, order)
    ensures var other := LedgerOf(rc, floor, rows, search, order).other;
      Normal(other) && DistinctKeys(other) && forall i | 0 <= i < |other| :: Borderline(other[i].decision)
  {
    OffersWellFormed(rc, floor, rows, search, order);
    LedgerWellFormed(rows, Offers(rc, floor, rows, search, order));
  }

  lemma {:induction false} PairClustersMeaning(other: seq<Entry>, auto: seq<Key>)
    requires Normal(other)
    ensures forall c :: c in PairClusters(other, Partition(auto)) <==>
            exists e | e in other :: !Connected(Pairs(auto), e.key.0, e.key.1) && c == PairCluster(e)
  {
    if other != [] {
      var init, e := other[..|other| - 1], other[|other| - 1];
      PairClustersMeaning(init, auto);
      assert other == init + [e];
      SameClassIffConnected(auto, e.key.0, e.key.1);
    }
  }

  /** Pairs for a candidate or a review, no pair twice. */
  ghost predicate BorderlinePairs(emitted: seq<Cluster>) {
    && (forall i, j | 0 <= i < j < |emitted| :: emitted[i].members != emitted[j].members)
    && (forall c | c in emitted :: Borderline(c.decision) && |c.members| == 2 && StrictlyAscending(c.members))
  }

  lemma OneMorePair(emitted: seq<Cluster>, e: Entry)
    requires BorderlinePairs(emitted) && e.key.0 < e.key.1 && Borderline(e.decision)
    requires forall c | c in emitted :: c.members != PairCluster(e).members
    ensures BorderlinePairs(emitted + [PairCluster(e)])
  {
    PairMembers(e);
  }

  lemma {:induction false} PairClustersShape(other: seq<Entry>, auto: seq<Key>)
    requires Normal(other) && DistinctKeys(other)
    requires forall i | 0 <= i < |other| :: Borderline(other[i].decision)
    ensures BorderlinePairs(PairClusters(other, Partition(auto)))
  {
    if other != [] {
      var init, e := other[..|other| - 1], other[|other| - 1];
      PairClustersShape(init, auto);
      PairClustersMeaning(init, auto);
      assert other == init + [e];
      PairMembersDiffer(init, e, PairClusters(init, Partition(auto)));
      OneMorePair(PairClusters(init, Partition(auto)), e);
    }
  }

  lemma PairMembersDiffer(init: seq<Entry>, e: Entry, emitted: seq<Cluster>)
    requires Normal(init + [e]) && DistinctKeys(init + [e])
    requires forall c | c in emitted :: exists d | d in init :: c == PairCluster(d)
    ensures forall c | c in emitted :: c.members != PairCluster(e).members
  {
    forall c | c in emitted
      ensures c.members != PairCluster(e).members
    {
      var d :| d in init && c == PairCluster(d);
      var i :| 0 <= i < |init| && init[i] == d;
      assert (init + [e])[i] == d && (init + [e])[|init|] == e;
      PairMembers(d);
      PairMembers(e);
    }
  }

  lemma PairMembers(e: Entry)
    requires e.key.0 < e.key.1
    ensures PairCluster(e).members == [e.key.0, e.key.1]
  {
    var given, sorted := [e.key.0, e.key.1], SortIds([e.key.0, e.key.1]);
    SortIdsMeaning(given);
    SortedUnique(given, sorted, IdLe);
  }
}
