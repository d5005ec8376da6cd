/** What the transaction visitor reports: which calls, in which order, and under which line and name. */
module ReportedCalls {
  import opened Positions
  import opened TransactionVisitor

  // -- The order of positions ----------------------------------------------------------------------------------

  /** A position comes before those below it, and what lies under an earlier child before what lies under a later. */
  predicate Before(p: Path, q: Path)
    decreases |p|
  {
    q != [] && (p == [] || p[0] < q[0] || (p[0] == q[0] && Before(p[1..], q[1..])))
  }

  ghost predicate Ascending(paths: seq<Path>) { forall i, j | 0 <= i < j < |paths| :: Before(paths[i], paths[j]) }

  lemma JoinAscending(a: seq<Path>, b: seq<Path>)
    requires Ascending(a) && Ascending(b) && forall p, q | p in a && q in b :: Before(p, q)
    ensures Ascending(a + b)
  {
    forall i, j | 0 <= i < j < |a + b| ensures Before((a + b)[i], (a + b)[j]) {
      if i < |a| <= j { assert a[i] in a && b[j - |a|] in b; }
    }
  }

  lemma UnderAscending(i: nat, paths: seq<Path>)
    requires Ascending(paths)
    ensures Ascending(Under(i, paths))
  {
    var under := Under(i, paths);
    forall j, k | 0 <= j < k < |under| ensures Before(under[j], under[k]) {
      assert under[j][1..] == paths[j] && under[k][1..] == paths[k];
    }
  }

  lemma {:induction false} ListAscending(nodes: seq<Node>, first: nat)
    ensures Ascending(PreOrderList(nodes, first))
    decreases nodes, 0
  {
    if nodes != [] {
      var init, last, i := nodes[..|nodes| - 1], nodes[|nodes| - 1], first + |nodes| - 1;
      ListAscending(init, first);
      PreOrderAscends(last);
      UnderAscending(i, PreOrder(last));
      forall p, q | p in PreOrderList(init, first) && q in Under(i, PreOrder(last)) ensures Before(p, q) {
        ListPositions(init, first, p);
        UnderMeaning(i, PreOrder(last), q);
      }
      JoinAscending(PreOrderList(init, first), Under(i, PreOrder(last)));
    }
  }

  /** Positions are visited in reading order: parents first, children left to right, a `with` body after its items. */
  lemma {:induction false} PreOrderAscends(node: Node)
    ensures Ascending(PreOrder(node))
    decreases node, 1
  {
    var root: seq<Path> := [[]];
    var above, below := PreOrderList(node.header, 0), PreOrderList(node.body, |node.header|);
    ListAscending(node.header, 0);
    ListAscending(node.body, |node.header|);
    forall p, q | p in above && q in below ensures Before(p, q) {
      ListPositions(node.header, 0, p);
      ListPositions(node.body, |node.header|, q);
    }
    forall q | q in above + below ensures q != [] {
      ListPositions(node.header, 0, q);
      ListPositions(node.body, |node.header|, q);
    }
    JoinAscending(above, below);
    JoinAscending(root, above + below);
    assert root + above + below == root + (above + below);
  }

  // -- The calls found -----------------------------------------------------------------------------------------

  /** The node at a prefix of the path is a `with`, one of whose contexts opens a transaction, and the path goes on
      into its body. */
  ghost predicate OpensAbove(on: Tests, root: Node, path: Path, k: nat) {
    && k < |path| && At(root, path[..k]).Some?
    && var w := At(root, path[..k]).value;
       && w.label_.With? && path[k] >= |w.header|
       && exists i | 0 <= i < |w.header| && i in w.label_.contexts :: on.transaction(w.header[i])
  }

  /** A network call in an open transaction. */
  ghost predicate Offends(on: Tests, root: Node, path: Path) {
    && At(root, path).Some? && At(root, path).value.label_.Call? && on.network(At(root, path).value).Some?
    && exists k :: OpensAbove(on, root, path, k)
  }

  ghost function OffendingAt(on: Tests, root: Node, paths: seq<Path>): nat -> bool {
    (i: nat) => i < |paths| && Offends(on, root, paths[i])
  }

  function Offence(on: Tests, call: Node): Violation
    requires call.label_.Call? && on.network(call).Some?
  {
    Violation(call.label_.line, on.network(call).value)
  }

  lemma OffendsIffInBody(on: Tests, root: Node, path: Path)
    ensures InTransactionBody(on, root, path) <==> exists k :: OpensAbove(on, root, path, k)
  {
    if k: nat :| k < |path| && At(root, path[..k]).Some? && Enters(on, At(root, path[..k]).value, path[k]) {
      assert OpensAbove(on, root, path, k);
    }
    if k: nat :| OpensAbove(on, root, path, k) {
      assert Enters(on, At(root, path[..k]).value, path[k]);
    }
  }

  lemma OneOffence(on: Tests, root: Node, path: Path)
    ensures Wanted(on, root, path, false) ==
            if Offends(on, root, path) then [Offence(on, At(root, path).value)] else []
  {
    OffendsIffInBody(on, root, path);
  }

  lemma CollectNext(on: Tests, root: Node, paths: seq<Path>, n: nat)
    requires n < |paths|
    ensures Collect(on, root, paths[..n + 1], false) ==
            Collect(on, root, paths[..n], false) + Wanted(on, root, paths[n], false)
  {
    assert paths[..n + 1][..n] == paths[..n];
  }

  // The violations found are those at the listed positions.
  ghost predicate FoundAt(on: Tests, root: Node, paths: seq<Path>, at: seq<nat>, found: seq<Violation>) {
    && |found| == |at|
    && forall i | 0 <= i < |at| ::
         at[i] < |paths| && Offends(on, root, paths[at[i]]) && found[i] == Offence(on, At(root, paths[at[i]]).value)
  }

  lemma FoundNext(on: Tests, root: Node, paths: seq<Path>, at: seq<nat>, found: seq<Violation>, n: nat)
    requires FoundAt(on, root, paths, at, found) && n < |paths|
    ensures if Offends(on, root, paths[n])
            then FoundAt(on, root, paths, at + [n], found + Wanted(on, root, paths[n], false))
            else FoundAt(on, root, paths, at, found + Wanted(on, root, paths[n], false))
  {
    OneOffence(on, root, paths[n]);
    assert found + [] == found;
  }

  lemma {:induction false} CollectsOffences(on: Tests, root: Node, paths: seq<Path>, n: nat)
    requires n <= |paths|
    ensures FoundAt(on, root, paths, Where(OffendingAt(on, root, paths), n), Collect(on, root, paths[..n], false))
  {
    if n == 0 {
      assert paths[..n] == [];
    } else {
      CollectsOffences(on, root, paths, n - 1);
      CollectNext(on, root, paths, n - 1);
      FoundNext(on, root, paths, Where(OffendingAt(on, root, paths), n - 1), Collect(on, root, paths[..n - 1], false),
                n - 1);
    }
  }

  /** The report is, position by position in reading order, exactly the offending calls: each with the line of the call
      and its network name. */
  lemma ReportMeaning(on: Tests, root: Node)
    ensures var paths, found := PreOrder(root), Report(on, root, false);
      var at := Where(OffendingAt(on, root, paths), |paths|);
      && |found| == |at|
      && forall i | 0 <= i < |at| ::
           at[i] < |paths| && Offends(on, root, paths[at[i]])
           && found[i] == Offence(on, At(root, paths[at[i]]).value)
  {
    var paths := PreOrder(root);
    ReportIsByPosition(on, root);
    CollectsOffences(on, root, paths, |paths|);
    assert paths[..|paths|] == paths;
  }

  /** A tree is clean exactly when no network call stands in an open transaction. */
  lemma CleanIff(on: Tests, root: Node)
    ensures Report(on, root, false) == [] <==> forall path :: !Offends(on, root, path)
  {
    var paths := PreOrder(root);
    var at := Where(OffendingAt(on, root, paths), |paths|);
    ReportMeaning(on, root);
    WhereMeaning(OffendingAt(on, root, paths), |paths|);
    if at != [] { assert Offends(on, root, paths[at[0]]); }
    if path :| Offends(on, root, path) {
      AllPositions(root, path);
      var i :| 0 <= i < |paths| && paths[i] == path;
      assert i in at;
    }
  }
}
