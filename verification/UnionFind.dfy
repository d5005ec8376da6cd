/** The path-halving union-find that clusters auto-merge pairs. */
module UnionFind {
  import opened Graph

  // The calls made on one union-find object, in order.
  // `find` adds its argument and leaves the partition alone, so it counts as Added.
  datatype Op = Added(x: Id) | United(x: Id, y: Id)

  function WithId(rep: map<Id, Id>, x: Id): map<Id, Id> {
    if x in rep then rep else rep[x := x]
  }

  /** The partition (as a map to representatives) after each kind of call. */
  function After(rep: map<Id, Id>, op: Op): map<Id, Id>
  {
    match op
    case Added(x) => WithId(rep, x)
    case United(x, y) =>
      var both := WithId(WithId(rep, x), y);
      Relabelled(both, both[y], both[x])
  }

  function Relabelled(rep: map<Id, Id>, from: Id, to: Id): map<Id, Id> {
    map e | e in rep :: if rep[e] == from then to else rep[e]
  }

  ghost function RepOf(ops: seq<Op>): map<Id, Id> {
    if ops == [] then map[] else After(RepOf(ops[..|ops| - 1]), ops[|ops| - 1])
  }

  function Appended(order: seq<Id>, x: Id): seq<Id> {
    if x in order then order else order + [x]
  }

  /** The order in which ids first reached the object (a Python dict keeps insertion order). */
  ghost function OrderOf(ops: seq<Op>): (order: seq<Id>)
  {
    if ops == [] then []
    else
      var before := OrderOf(ops[..|ops| - 1]);
      match ops[|ops| - 1]
      case Added(x) => Appended(before, x)
      case United(x, y) => Appended(Appended(before, x), y)
  }

  ghost predicate Distinct(order: seq<Id>) {
    forall i, j | 0 <= i < j < |order| :: order[i] != order[j]
  }

  /** The pairs passed to `union` so far. */
  ghost function PairsOf(ops: seq<Op>): set<(Id, Id)> {
    if ops == [] then {}
    else
      var before := PairsOf(ops[..|ops| - 1]);
      if ops[|ops| - 1].United? then before + {(ops[|ops| - 1].x, ops[|ops| - 1].y)} else before
  }

  /** `parent` is a forest for the partition `rep`: walking up stays in the class, roots are the
      representatives, and `depth` falls at every step. */
  ghost predicate Forest(parent: map<Id, Id>, depth: map<Id, nat>, rep: map<Id, Id>) {
    && parent.Keys == depth.Keys == rep.Keys
    && forall x {:trigger ForestAt(parent, depth, rep, x)} | x in parent :: ForestAt(parent, depth, rep, x)
  }

  ghost predicate ForestAt(parent: map<Id, Id>, depth: map<Id, nat>, rep: map<Id, Id>, x: Id)
    requires parent.Keys == depth.Keys == rep.Keys && x in parent
  {
    var up := parent[x];
    up in parent && rep[up] == rep[x] && (up == x <==> rep[x] == x) && (up != x ==> depth[up] < depth[x])
  }

  lemma InsertKeepsForest(parent: map<Id, Id>, depth: map<Id, nat>, rep: map<Id, Id>, x: Id)
    requires Forest(parent, depth, rep) && x !in parent
    ensures Forest(parent[x := x], depth[x := 0], rep[x := x])
  {
    var grown := parent[x := x];
    forall e | e in grown
      ensures ForestAt(grown, depth[x := 0], rep[x := x], e)
    {
      assert e != x ==> ForestAt(parent, depth, rep, e);
    }
  }

  lemma HalvingKeepsForest(parent: map<Id, Id>, depth: map<Id, nat>, rep: map<Id, Id>, r: Id)
    requires Forest(parent, depth, rep) && r in parent && parent[r] != r
    ensures parent[r] in parent && parent[parent[r]] in parent
    ensures Forest(parent[r := parent[parent[r]]], depth, rep)
    ensures depth[parent[parent[r]]] < depth[r] && rep[parent[parent[r]]] == rep[r]
  {
    assert ForestAt(parent, depth, rep, r);
    assert ForestAt(parent, depth, rep, parent[r]);
    var halved := parent[r := parent[parent[r]]];
    forall e | e in halved
      ensures ForestAt(halved, depth, rep, e)
    {
      assert ForestAt(parent, depth, rep, e);
    }
  }

  lemma LinkKeepsForest(parent: map<Id, Id>, depth: map<Id, nat>, rep: map<Id, Id>, rx: Id, ry: Id)
    returns (deeper: map<Id, nat>)
    requires Forest(parent, depth, rep) && rx in rep && ry in rep && rx != ry
    requires rep[rx] == rx && rep[ry] == ry
    ensures Forest(parent[ry := rx], deeper, Relabelled(rep, ry, rx))
  {
    deeper := map e | e in depth :: if rep[e] == ry then depth[e] + depth[rx] + 1 else depth[e];
    var linked := Relabelled(rep, ry, rx);
    forall e | e in parent
      ensures ForestAt(parent[ry := rx], deeper, linked, e)
    {
      assert ForestAt(parent, depth, rep, e);
    }
  }

  class UF {
    var parent: map<Id, Id>
    var order: seq<Id>
    ghost var history: seq<Op>
    ghost var rep: map<Id, Id>
    ghost var depth: map<Id, nat>

    ghost predicate Valid()
      reads this
    {
      && rep == RepOf(history)
      && order == OrderOf(history)
      && Forest(parent, depth, rep)
    }

    constructor ()
      ensures Valid() && history == [] && parent == map[]
    {
      parent, order := map[], [];
      history, rep, depth := [], map[], map[];
    }

    method Add(x: Id)
      requires Valid()
      modifies this
      ensures Valid() && history == old(history) + [Added(x)]
      ensures rep == WithId(old(rep), x) && order == Appended(old(order), x)
    {
      RepKeys(history);
      if x !in parent {
        InsertKeepsForest(parent, depth, rep, x);
        parent := parent[x := x];
        order := order + [x];
        depth := depth[x := 0];
      }
      rep := WithId(rep, x);
      history := history + [Added(x)];
      Extended(old(history), Added(x));
    }

    /** Walks to the root while halving the path. The partition does not move. */
    method Find(x: Id) returns (r: Id)
      requires Valid()
      modifies this
      ensures Valid() && history == old(history) + [Added(x)]
      ensures rep == WithId(old(rep), x) && r == rep[x]
      ensures order == Appended(old(order), x)
    {
      Add(x);
      ghost var known, listed := rep, order;
      r := x;
      while parent[r] != r
        invariant Valid() && history == old(history) + [Added(x)]
        invariant rep == known && order == listed
        invariant x in rep && r in parent && rep[r] == rep[x]
        decreases depth[r]
      {
        HalvingKeepsForest(parent, depth, rep, r);
        parent := parent[r := parent[parent[r]]];
        r := parent[r];
      }
      assert ForestAt(parent, depth, rep, r);
    }

    method Union(x: Id, y: Id)
      requires Valid()
      modifies this
      ensures Valid()
      ensures history == old(history) + [Added(x)] + [Added(y)] + [United(x, y)]
    {
      var rx := Find(x);
      var ry := Find(y);
      ghost var joined := history + [United(x, y)];
      UnitedKnown(history, x, y);
      if rx != ry {
        depth := LinkKeepsForest(parent, depth, rep, rx, ry);
        parent := parent[ry := rx];
        rep := Relabelled(rep, ry, rx);
      }
      history := joined;
    }
  }

  lemma Extended(ops: seq<Op>, op: Op)
    ensures RepOf(ops + [op]) == After(RepOf(ops), op)
    ensures PairsOf(ops + [op]) == PairsOf(ops) + (if op.United? then {(op.x, op.y)} else {})
    ensures op.Added? ==> OrderOf(ops + [op]) == Appended(OrderOf(ops), op.x)
    ensures op.United? ==> OrderOf(ops + [op]) == Appended(Appended(OrderOf(ops), op.x), op.y)
  {
    assert (ops + [op])[..|ops|] == ops;
  }

  lemma {:induction false} RepKeys(ops: seq<Op>)
    ensures forall x :: x in OrderOf(ops) <==> x in RepOf(ops)
    ensures Distinct(OrderOf(ops))
  {
    if ops != [] { RepKeys(ops[..|ops| - 1]); }
  }

  lemma {:induction false} RepIsRoot(ops: seq<Op>, x: Id)
    requires x in RepOf(ops)
    ensures RepOf(ops)[x] in RepOf(ops) && RepOf(ops)[RepOf(ops)[x]] == RepOf(ops)[x]
  {
    var rep := RepOf(ops[..|ops| - 1]);
    if x in rep { RepIsRoot(ops[..|ops| - 1], x); }
    var op := ops[|ops| - 1];
    if op.United? {
      if op.x in rep { RepIsRoot(ops[..|ops| - 1], op.x); }
      if op.y in rep { RepIsRoot(ops[..|ops| - 1], op.y); }
    }
  }

  lemma UnitedKnown(ops: seq<Op>, x: Id, y: Id)
    requires x in RepOf(ops) && y in RepOf(ops)
    ensures var (rep, rx, ry) := (RepOf(ops), RepOf(ops)[x], RepOf(ops)[y]);
      && rx in rep && ry in rep && rep[rx] == rx && rep[ry] == ry
      && RepOf(ops + [United(x, y)]) == (if rx == ry then rep else Relabelled(rep, ry, rx))
      && OrderOf(ops + [United(x, y)]) == OrderOf(ops)
  {
    RepIsRoot(ops, x);
    RepIsRoot(ops, y);
    RepKeys(ops);
    Extended(ops, United(x, y));
    assert Relabelled(RepOf(ops), RepOf(ops)[x], RepOf(ops)[x]) == RepOf(ops);
  }

  lemma {:induction false} PairsAgree(ops: seq<Op>)
    ensures forall a, b | (a, b) in PairsOf(ops) ::
      a in RepOf(ops) && b in RepOf(ops) && RepOf(ops)[a] == RepOf(ops)[b]
  {
    if ops != [] { PairsAgree(ops[..|ops| - 1]); }
  }

  lemma {:induction false} ConnectedToRep(ops: seq<Op>, a: Id)
    requires a in RepOf(ops)
    ensures Connected(PairsOf(ops), a, RepOf(ops)[a])
  {
    var init := ops[..|ops| - 1];
    var rep, pairs := RepOf(init), PairsOf(ops);
    if a in rep {
      ConnectedToRep(init, a);
      ConnectedMonotone(PairsOf(init), pairs, a, rep[a]);
    } else {
      ConnectedReflexive(pairs, a);
    }
    match ops[|ops| - 1]
    case Added(x) =>
    case United(x, y) =>
      var both := WithId(WithId(rep, x), y);
      if both[a] == both[y] {
        forall z | z in {x, y} ensures Connected(pairs, z, both[z]) {
          if z in rep {
            ConnectedToRep(init, z);
            ConnectedMonotone(PairsOf(init), pairs, z, rep[z]);
          } else {
            ConnectedReflexive(pairs, z);
          }
        }
        ConnectedSymmetric(pairs, y, both[y]);
        ConnectedTransitive(pairs, a, both[y], y);
        ConnectedLink(pairs, y, x);
        ConnectedTransitive(pairs, a, y, x);
        ConnectedTransitive(pairs, a, x, both[x]);
      }
  }

  /** After any calls, two known ids share a root exactly when the unions made so far link them. */
  lemma SameRootIffConnected(ops: seq<Op>, a: Id, b: Id)
    requires a in RepOf(ops) && b in RepOf(ops)
    ensures RepOf(ops)[a] == RepOf(ops)[b] <==> Connected(PairsOf(ops), a, b)
  {
    var rep, pairs := RepOf(ops), PairsOf(ops);
    if rep[a] == rep[b] {
      ConnectedToRep(ops, a);
      ConnectedToRep(ops, b);
      ConnectedSymmetric(pairs, b, rep[b]);
      ConnectedTransitive(pairs, a, rep[a], b);
    }
    if Connected(pairs, a, b) {
      PairsAgree(ops);
      var walk :| IsWalk(pairs, walk) && walk[0] == a && walk[|walk| - 1] == b;
      ConstantOnWalk(pairs, rep, walk);
    }
  }

  /** An id the object never saw is linked to nothing but itself. */
  lemma UnknownIdIsolated(ops: seq<Op>, a: Id, b: Id)
    requires a !in RepOf(ops)
    ensures Connected(PairsOf(ops), a, b) <==> a == b
  {
    ConnectedReflexive(PairsOf(ops), a);
    if Connected(PairsOf(ops), a, b) && a != b {
      PairsAgree(ops);
      LeavesByAPair(PairsOf(ops), a, b);
      assert false;
    }
  }
}
