/** Model ids, and undirected reachability over a set of recorded pairs. */
module Graph {
  // A UUID, numbered by the order of its string form (`str(m)` is what the source sorts by).
  type Id = nat

  ghost predicate Linked(pairs: set<(Id, Id)>, a: Id, b: Id) {
    (a, b) in pairs || (b, a) in pairs
  }

  ghost predicate IsWalk(pairs: set<(Id, Id)>, walk: seq<Id>) {
    && |walk| > 0
    && forall i | 0 <= i < |walk| - 1 :: Linked(pairs, walk[i], walk[i + 1])
  }

  /** The equivalence closure of the recorded pairs: some walk leads from a to b. */
  ghost predicate Connected(pairs: set<(Id, Id)>, a: Id, b: Id) {
    exists walk :: IsWalk(pairs, walk) && walk[0] == a && walk[|walk| - 1] == b
  }

  lemma ConnectedReflexive(pairs: set<(Id, Id)>, a: Id)
    ensures Connected(pairs, a, a)
  {
    assert IsWalk(pairs, [a]);
  }

  lemma ConnectedLink(pairs: set<(Id, Id)>, a: Id, b: Id)
    requires Linked(pairs, a, b)
    ensures Connected(pairs, a, b)
  {
    assert IsWalk(pairs, [a, b]);
  }

  function Reverse(walk: seq<Id>): (r: seq<Id>)
    ensures |r| == |walk|
    ensures forall i | 0 <= i < |walk| :: r[i] == walk[|walk| - 1 - i]
  {
    if walk == [] then [] else Reverse(walk[1..]) + [walk[0]]
  }

  lemma ConnectedSymmetric(pairs: set<(Id, Id)>, a: Id, b: Id)
    requires Connected(pairs, a, b)
    ensures Connected(pairs, b, a)
  {
    var walk :| IsWalk(pairs, walk) && walk[0] == a && walk[|walk| - 1] == b;
    var back := Reverse(walk);
    forall i | 0 <= i < |back| - 1
      ensures Linked(pairs, back[i], back[i + 1])
    {
      assert Linked(pairs, walk[|walk| - 2 - i], walk[|walk| - 2 - i + 1]);
    }
    assert IsWalk(pairs, back);
  }

  lemma ConnectedTransitive(pairs: set<(Id, Id)>, a: Id, b: Id, c: Id)
    requires Connected(pairs, a, b) && Connected(pairs, b, c)
    ensures Connected(pairs, a, c)
  {
    var u :| IsWalk(pairs, u) && u[0] == a && u[|u| - 1] == b;
    var v :| IsWalk(pairs, v) && v[0] == b && v[|v| - 1] == c;
    var w := u + v[1..];
    forall i | 0 <= i < |w| - 1
      ensures Linked(pairs, w[i], w[i + 1])
    {
      if i >= |u| - 1 {
        assert w[i] == v[i - |u| + 1] && w[i + 1] == v[i - |u| + 2];
      }
    }
    assert IsWalk(pairs, w);
  }

  lemma ConnectedMonotone(small: set<(Id, Id)>, large: set<(Id, Id)>, a: Id, b: Id)
    requires small <= large && Connected(small, a, b)
    ensures Connected(large, a, b)
  {
    var walk :| IsWalk(small, walk) && walk[0] == a && walk[|walk| - 1] == b;
    assert IsWalk(large, walk);
  }

  lemma LeavesByAPair(pairs: set<(Id, Id)>, a: Id, b: Id)
    requires Connected(pairs, a, b) && a != b
    ensures exists c :: Linked(pairs, a, c)
  {
    var walk :| IsWalk(pairs, walk) && walk[0] == a && walk[|walk| - 1] == b;
    assert Linked(pairs, walk[0], walk[0 + 1]);
  }

  /** Anything constant along every recorded pair is constant on connected ids. */
  lemma {:induction false} ConstantOnWalk(pairs: set<(Id, Id)>, tag: map<Id, Id>, walk: seq<Id>)
    requires IsWalk(pairs, walk) && walk[0] in tag
    requires forall a, b | (a, b) in pairs :: a in tag && b in tag && tag[a] == tag[b]
    ensures walk[|walk| - 1] in tag && tag[walk[0]] == tag[walk[|walk| - 1]]
    decreases |walk|
  {
    if |walk| > 1 {
      assert Linked(pairs, walk[0], walk[1]);
      assert forall i | 0 <= i < |walk[1..]| - 1 :: Linked(pairs, walk[1..][i], walk[1..][i + 1]) by {
        forall i | 0 <= i < |walk[1..]| - 1
          ensures Linked(pairs, walk[1..][i], walk[1..][i + 1])
        {
          assert Linked(pairs, walk[i + 1], walk[i + 1 + 1]);
        }
      }
      ConstantOnWalk(pairs, tag, walk[1..]);
    }
  }
}
