/** The visitor that reports network calls made inside a database transaction block. */
module TransactionVisitor {
  import opened CallNames
  import opened Options

  // A Python syntax tree node: its type, its child nodes in visiting order, and, for a `with`, the body
  // statements apart. An attribute's child is its value, a call's first child the called expression, and a
  // `with` has its items' context expressions and targets in front; `contexts` says which are contexts.
  datatype Node = Node(label_: Label, header: seq<Node>, body: seq<Node>)

  datatype Label = Name(id: string) | Attribute(attr: string) | Call(line: nat) | With(contexts: set<nat>) | Other

  datatype Violation = Violation(line: nat, call: string)

  function FullName(node: Node): Option<string> {
    match node.label_
    case Name(id) => Some(id)
    case Attribute(attr) =>
      var prefix := if node.header == [] then None else FullName(node.header[0]);
      if prefix.Some? && prefix.value != "" then Some(prefix.value + "." + attr) else Some(attr)
    case Call(_) => if node.header == [] then None else FullName(node.header[0])
    case _ => None
  }

  predicate IsTransactionContext(node: Node) {
    FullName(node).Some? && IsTransactionName(FullName(node).value)
  }

  function NetworkCallName(cat: Catalogue, call: Node): Option<string> {
    var name := FullName(call);
    if name.Some? && IsNetworkName(cat, name.value) then name else None
  }

  // The two tests the visitor makes: on a context expression, and on a call.
  datatype Tests = Tests(transaction: Node -> bool, network: Node -> Option<string>)

  /** The tests of the network-call ratchet. */
  const RATCHET: Tests := Tests(IsTransactionContext, call => NetworkCallName(NETWORK_CALLS, call))

  predicate IsTransaction(on: Tests, node: Node) {
    node.label_.With?
    && exists i | 0 <= i < |node.header| :: i in node.label_.contexts && on.transaction(node.header[i])
  }

  // -- Chains of names, attributes and calls ------------------------------------------------------------------

  /** The names along a chain of attributes and calls, from the base outwards: a call adds none, and an attribute of
      something that is no chain starts anew. */
  ghost predicate IsChain(node: Node, parts: seq<string>) {
    match node.label_
    case Name(id) => parts == [id]
    case Attribute(attr) =>
      && parts != [] && parts[|parts| - 1] == attr
      && if node.header == [] then |parts| == 1 else IsChain(node.header[0], parts[..|parts| - 1])
    case Call(_) => if node.header == [] then parts == [] else IsChain(node.header[0], parts)
    case _ => parts == []
  }

  /** Every node is a chain of some names. */
  lemma {:induction false} SomeChain(node: Node) returns (parts: seq<string>)
    ensures IsChain(node, parts)
  {
    match node.label_
    case Name(id) => parts := [id];
    case Attribute(attr) =>
      var before := [];
      if node.header != [] { before := SomeChain(node.header[0]); }
      parts := before + [attr];
      assert parts[..|parts| - 1] == before;
    case Call(_) => if node.header == [] { parts := []; } else { parts := SomeChain(node.header[0]); }
    case _ => parts := [];
  }

  // Identifiers: not empty and without dots.
  ghost predicate Identifiers(parts: seq<string>) { forall p | p in parts :: p != "" && '.' !in p }

  function Dotted(parts: seq<string>): string
    requires parts != []
  {
    if |parts| == 1 then parts[0] else Dotted(parts[..|parts| - 1]) + "." + parts[|parts| - 1]
  }

  /** The full name of a chain is the dotted join of its names. */
  lemma {:induction false} FullNameIsDotted(node: Node, parts: seq<string>)
    requires IsChain(node, parts) && Identifiers(parts)
    ensures FullName(node) == if parts == [] then None else Some(Dotted(parts))
    decreases node
  {
    if node.label_.Attribute? && node.header != [] {
      var init := parts[..|parts| - 1];
      assert forall p | p in init :: p in parts;
      FullNameIsDotted(node.header[0], init);
      if init != [] { DottedEnds(init); }
    } else if node.label_.Call? && node.header != [] {
      FullNameIsDotted(node.header[0], parts);
    }
  }

  lemma OneMorePart(front: string, last: string, first: string)
    requires front != "" && FirstSegment(front) == first && '.' !in last
    ensures FirstSegment(front + "." + last) == first && LastSegment(front + "." + last) == last
  {
    var name := front + "." + last;
    assert name == front + ("." + last) && name[|front|..] == "." + last;
    FirstSegmentOf(front, "." + last);
    LastSegmentMeaning(name, last);
  }

  /** A dotted name starts and ends with the first and the last of its parts. */
  lemma {:induction false} DottedEnds(parts: seq<string>)
    requires parts != [] && Identifiers(parts)
    ensures Dotted(parts) != "" && FirstSegment(Dotted(parts)) == parts[0]
    ensures LastSegment(Dotted(parts)) == parts[|parts| - 1]
  {
    var last := parts[|parts| - 1];
    assert last in parts;
    if |parts| == 1 {
      NoDots(last);
      LastSegmentMeaning(last, last);
    } else {
      var init := parts[..|parts| - 1];
      assert forall p | p in init :: p in parts;
      DottedEnds(init);
      OneMorePart(Dotted(init), last, parts[0]);
    }
  }

  /** Which chains the tables list as network calls: any on a listed module, the listed object methods, a listed
      function or method name at the end, and a listed suffix behind a receiver. */
  predicate ListedChain(parts: seq<string>)
    requires parts != []
  {
    var last := parts[|parts| - 1];
    || parts[0] in MODULE_PREFIXES || Dotted(parts) in OBJECT_METHODS
    || last in FUNCTION_NAMES || last in METHOD_NAMES || (|parts| > 1 && "." + last in SUFFIXES)
  }

  /** The ratchet's tables at work on any chain, called or not: it opens a transaction exactly when its last name is
      one of the two words, and it is a network call, reported under its dotted name, exactly when the tables list
      it. */
  lemma RatchetTells(node: Node, parts: seq<string>)
    requires IsChain(node, parts) && Identifiers(parts)
    ensures parts == [] ==> !RATCHET.transaction(node) && RATCHET.network(node) == None
    ensures parts != [] ==>
      && (RATCHET.transaction(node) <==> parts[|parts| - 1] in {TRANSACTION, TENANT_TRANSACTION})
      && RATCHET.network(node) == if ListedChain(parts) then Some(Dotted(parts)) else None
  {
    FullNameIsDotted(node, parts);
    if parts != [] {
      TransactionNameIsLastSegment(Dotted(parts));
      DottedEnds(parts);
      ChainListed(parts);
    }
  }

  lemma ChainListed(parts: seq<string>)
    requires parts != [] && Identifiers(parts)
    ensures IsNetworkName(NETWORK_CALLS, Dotted(parts)) <==> ListedChain(parts)
  {
    var last := parts[|parts| - 1];
    assert last in parts;
    DottedEnds(parts);
    if |parts| == 1 {
      OneWordListed(last);
    } else {
      var init := parts[..|parts| - 1];
      assert forall p | p in init :: p in parts;
      DottedEnds(init);
      ListedIff(Dotted(init), last);
    }
  }

  /** A call on a chain, `a.b().c(...)`: the tables decide on the receiver's dotted name and the last attribute. */
  lemma ChainedCallTells(receiver: Node, parts: seq<string>, name: string, line: nat, args: seq<Node>)
    requires IsChain(receiver, parts) && parts != [] && Identifiers(parts + [name])
    ensures var call := Node(Call(line), [Node(Attribute(name), [receiver], [])] + args, []);
      && IsChain(call, parts + [name])
      && (RATCHET.transaction(call) <==> name == TRANSACTION || name == TENANT_TRANSACTION)
      && RATCHET.network(call) ==
         if Listed(Dotted(parts), name) then Some(Dotted(parts) + "." + name) else None
  {
    var whole := parts + [name];
    var attribute := Node(Attribute(name), [receiver], []);
    var call := Node(Call(line), [attribute] + args, []);
    assert whole[..|whole| - 1] == parts && name in whole;
    assert IsChain(attribute, whole);
    assert call.header[0] == attribute;
    RatchetTells(call, whole);
    assert forall p | p in parts :: p in whole;
    DottedEnds(parts);
  }

  // -- What the visitor reports -----------------------------------------------------------------------

  function Own(on: Tests, node: Node, inside: bool): seq<Violation> {
    if inside && node.label_.Call? && on.network(node).Some?
    then [Violation(node.label_.line, on.network(node).value)] else []
  }

  function Report(on: Tests, node: Node, inside: bool): seq<Violation>
    decreases node, 1
  {
    Own(on, node, inside) + ReportList(on, node.header, inside)
    + ReportList(on, node.body, inside || IsTransaction(on, node))
  }

  function ReportList(on: Tests, nodes: seq<Node>, inside: bool): seq<Violation>
    decreases nodes, 0
  {
    if nodes == [] then []
    else ReportList(on, nodes[..|nodes| - 1], inside) + Report(on, nodes[|nodes| - 1], inside)
  }

  lemma Appended(found: seq<Violation>, a: seq<Violation>, b: seq<Violation>, c: seq<Violation>)
    ensures found + a + b + c == found + (a + b + c)
  {
  }

  // A node that is no `with` reports the call it may be, then its children, at the same depth.
  lemma ReportOfOther(on: Tests, node: Node, inside: bool, found: seq<Violation>)
    requires !node.label_.With?
    ensures found + Report(on, node, inside) ==
            found + Own(on, node, inside) + ReportList(on, node.header, inside) + ReportList(on, node.body, inside)
  {
    Appended(found, Own(on, node, inside), ReportList(on, node.header, inside), ReportList(on, node.body, inside));
  }

  lemma ReportOfWith(on: Tests, node: Node, inside: bool, found: seq<Violation>)
    requires node.label_.With?
    ensures found + Report(on, node, inside) ==
            found + ReportList(on, node.header, inside) + ReportList(on, node.body, inside || IsTransaction(on, node))
  {
    Appended(found, [], ReportList(on, node.header, inside),
             ReportList(on, node.body, inside || IsTransaction(on, node)));
    assert found + [] == found;
  }

  class Visitor {
    const on: Tests
    var depth: int
    var violations: seq<Violation>

    constructor (on: Tests)
      ensures this.on == on && depth == 0 && violations == []
    {
      this.on := on;
      depth, violations := 0, [];
    }

    /** Dispatch on the node type. The depth counter is left as it was found. */
    method Visit(node: Node)
      requires depth >= 0
      modifies this
      ensures depth == old(depth)
      ensures violations == old(violations) + Report(on, node, old(depth) > 0)
      decreases node, 2
    {
      if node.label_.With? {
        VisitWithBody(node);
      } else {
        ReportOfOther(on, node, depth > 0, violations);
        RecordCall(node);
        GenericVisit(node.header);
        GenericVisit(node.body);
      }
    }

    /** A network call is a violation while a transaction is open. */
    method RecordCall(node: Node)
      modifies this`violations
      ensures violations == old(violations) + Own(on, node, depth > 0)
    {
      if node.label_.Call? && depth > 0 {
        var name := on.network(node);
        if name.Some? {
          violations := violations + [Violation(node.label_.line, name.value)];
        }
      }
    }

    /** Visits the given nodes in order. */
    method GenericVisit(nodes: seq<Node>)
      requires depth >= 0
      modifies this
      ensures depth == old(depth)
      ensures violations == old(violations) + ReportList(on, nodes, old(depth) > 0)
      decreases nodes, 0
    {
      for i := 0 to |nodes|
        invariant depth == old(depth)
        invariant violations == old(violations) + ReportList(on, nodes[..i], old(depth) > 0)
      {
        assert nodes[..i + 1][..i] == nodes[..i];
        Visit(nodes[i]);
      }
      assert nodes[..|nodes|] == nodes;
    }

    method VisitWithBody(node: Node)
      requires depth >= 0 && node.label_.With?
      modifies this
      ensures depth == old(depth)
      ensures violations == old(violations) + Report(on, node, old(depth) > 0)
      decreases node, 1
    {
      var inTransaction := IsTransaction(on, node);
      ReportOfWith(on, node, depth > 0, violations);
      GenericVisit(node.header);
      if inTransaction { depth := depth + 1; }
      GenericVisit(node.body);
      if inTransaction { depth := depth - 1; }
    }
  }

  // -- The same, said by position -----------------------------------------------------------------------

  // A position in the tree: child numbers from the root down.
  type Path = seq<nat>

  function Children(node: Node): seq<Node> { node.header + node.body }

  function At(node: Node, path: Path): Option<Node>
    decreases |path|
  {
    if path == [] then Some(node)
    else if path[0] < |Children(node)| then At(Children(node)[path[0]], path[1..])
    else None
  }

  // The step to child i of this node enters the body of a transaction `with`.
  predicate Enters(on: Tests, node: Node, i: nat) { IsTransaction(on, node) && i >= |node.header| }

  // Some node strictly above the position is a transaction `with`, and the position lies in its body.
  ghost predicate InTransactionBody(on: Tests, node: Node, path: Path) {
    exists k | 0 <= k < |path| :: At(node, path[..k]).Some? && Enters(on, At(node, path[..k]).value, path[k])
  }

  function Under(i: nat, paths: seq<Path>): seq<Path> {
    seq(|paths|, j requires 0 <= j < |paths| => [i] + paths[j])
  }

  /** All positions in pre-order. */
  function PreOrder(node: Node): seq<Path>
    decreases node, 1
  {
    [[]] + PreOrderList(node.header, 0) + PreOrderList(node.body, |node.header|)
  }

  /** The positions below consecutive children, the first of them numbered `first`. */
  function PreOrderList(nodes: seq<Node>, first: nat): seq<Path>
    decreases nodes, 0
  {
    if nodes == [] then []
    else PreOrderList(nodes[..|nodes| - 1], first) + Under(first + |nodes| - 1, PreOrder(nodes[|nodes| - 1]))
  }

  ghost function Wanted(on: Tests, node: Node, path: Path, inside: bool): seq<Violation> {
    if At(node, path).Some? then Own(on, At(node, path).value, inside || InTransactionBody(on, node, path)) else []
  }

  ghost function Collect(on: Tests, node: Node, paths: seq<Path>, inside: bool): seq<Violation> {
    if paths == [] then []
    else Collect(on, node, paths[..|paths| - 1], inside) + Wanted(on, node, paths[|paths| - 1], inside)
  }

  lemma InBodyBelow(on: Tests, node: Node, i: nat, path: Path)
    requires i < |Children(node)|
    ensures InTransactionBody(on, node, [i] + path) <==>
            Enters(on, node, i) || InTransactionBody(on, Children(node)[i], path)
  {
    var full, child := [i] + path, Children(node)[i];
    assert full[..0] == [] && full[1..] == path;
    forall k | 0 <= k < |path|
      ensures At(node, full[..k + 1]) == At(child, path[..k])
    {
      assert full[..k + 1][1..] == path[..k];
    }
    if InTransactionBody(on, child, path) {
      var k :| 0 <= k < |path| && At(child, path[..k]).Some? && Enters(on, At(child, path[..k]).value, path[k]);
      assert full[k + 1] == path[k];
      assert InTransactionBody(on, node, full);
    }
    if InTransactionBody(on, node, full) && !Enters(on, node, i) {
      var k :| 0 <= k < |full| && At(node, full[..k]).Some? && Enters(on, At(node, full[..k]).value, full[k]);
      assert k > 0 && full[k] == path[k - 1];
      assert At(node, full[..k - 1 + 1]) == At(child, path[..k - 1]);
      assert InTransactionBody(on, child, path);
    }
  }

  lemma WantedBelow(on: Tests, node: Node, i: nat, path: Path, inside: bool)
    requires i < |Children(node)|
    ensures Wanted(on, node, [i] + path, inside) == Wanted(on, Children(node)[i], path, inside || Enters(on, node, i))
  {
    InBodyBelow(on, node, i, path);
    assert ([i] + path)[1..] == path;
  }

  lemma {:induction false} CollectUnder(on: Tests, node: Node, i: nat, paths: seq<Path>, inside: bool)
    requires i < |Children(node)|
    ensures Collect(on, node, Under(i, paths), inside) ==
            Collect(on, Children(node)[i], paths, inside || Enters(on, node, i))
  {
    if paths != [] {
      var init, last := paths[..|paths| - 1], paths[|paths| - 1];
      CollectUnder(on, node, i, init, inside);
      assert Under(i, paths)[..|paths| - 1] == Under(i, init);
      WantedBelow(on, node, i, last, inside);
    }
  }

  lemma {:induction false} CollectConcat(on: Tests, node: Node, a: seq<Path>, b: seq<Path>, inside: bool)
    ensures Collect(on, node, a + b, inside) == Collect(on, node, a, inside) + Collect(on, node, b, inside)
  {
    if b == [] {
      assert a + b == a;
    } else {
      assert (a + b)[..|a + b| - 1] == a + b[..|b| - 1];
      CollectConcat(on, node, a, b[..|b| - 1], inside);
    }
  }

  ghost predicate ChildrenAt(node: Node, nodes: seq<Node>, first: nat) {
    first + |nodes| <= |Children(node)| && forall i | 0 <= i < |nodes| :: Children(node)[first + i] == nodes[i]
  }

  lemma CollectLast(on: Tests, node: Node, nodes: seq<Node>, first: nat, inside: bool)
    requires ChildrenAt(node, nodes, first) && nodes != []
    ensures var i := first + |nodes| - 1;
      Collect(on, node, PreOrderList(nodes, first), inside) ==
      Collect(on, node, PreOrderList(nodes[..|nodes| - 1], first), inside) +
      Collect(on, Children(node)[i], PreOrder(Children(node)[i]), inside || Enters(on, node, i))
  {
    var init, last, i := nodes[..|nodes| - 1], nodes[|nodes| - 1], first + |nodes| - 1;
    assert Children(node)[i] == last;
    CollectConcat(on, node, PreOrderList(init, first), Under(i, PreOrder(last)), inside);
    CollectUnder(on, node, i, PreOrder(last), inside);
  }

  lemma {:induction false} CollectList(on: Tests, node: Node, nodes: seq<Node>, first: nat, inside: bool, below: bool)
    requires ChildrenAt(node, nodes, first) && (first + |nodes| <= |node.header| || |node.header| <= first)
    requires below == (inside || Enters(on, node, first))
    ensures Collect(on, node, PreOrderList(nodes, first), inside) == ReportList(on, nodes, below)
    decreases nodes, 0
  {
    if nodes != [] {
      CollectList(on, node, nodes[..|nodes| - 1], first, inside, below);
      CollectLast(on, node, nodes, first, inside);
      CollectAll(on, nodes[|nodes| - 1], below);
    }
  }

  lemma CollectRoot(on: Tests, node: Node, inside: bool)
    ensures Collect(on, node, [[]], inside) == Own(on, node, inside)
  {
    var root: seq<Path> := [[]];
    assert root[..0] == [];
    assert Collect(on, node, root[..0], inside) == [];
    assert !InTransactionBody(on, node, []);
  }

  lemma {:induction false} CollectAll(on: Tests, node: Node, inside: bool)
    ensures Collect(on, node, PreOrder(node), inside) == Report(on, node, inside)
    decreases node, 1
  {
    var root: seq<Path> := [[]];
    var above, below := PreOrderList(node.header, 0), PreOrderList(node.body, |node.header|);
    CollectConcat(on, node, root + above, below, inside);
    CollectConcat(on, node, root, above, inside);
    CollectList(on, node, node.header, 0, inside, inside);
    CollectList(on, node, node.body, |node.header|, inside, inside || IsTransaction(on, node));
    CollectRoot(on, node, inside);
  }

  lemma {:induction false} UnderMeaning(i: nat, paths: seq<Path>, p: Path)
    ensures p in Under(i, paths) <==> p != [] && p[0] == i && p[1..] in paths
  {
    if p in Under(i, paths) {
      var j :| 0 <= j < |paths| && Under(i, paths)[j] == p;
      assert p == [i] + paths[j] && p[1..] == paths[j];
    }
    if p != [] && p[0] == i && p[1..] in paths {
      var j :| 0 <= j < |paths| && paths[j] == p[1..];
      assert Under(i, paths)[j] == [i] + p[1..] == p;
    }
  }

  lemma {:induction false} ListPositions(nodes: seq<Node>, first: nat, p: Path)
    ensures p in PreOrderList(nodes, first) <==>
            p != [] && first <= p[0] < first + |nodes| && At(nodes[p[0] - first], p[1..]).Some?
    decreases nodes, 0
  {
    if nodes != [] {
      ListPositions(nodes[..|nodes| - 1], first, p);
      UnderMeaning(first + |nodes| - 1, PreOrder(nodes[|nodes| - 1]), p);
      if p != [] { AllPositions(nodes[|nodes| - 1], p[1..]); }
    }
  }

  /** The pre-order lists every position of the tree and nothing else. */
  lemma {:induction false} AllPositions(node: Node, p: Path)
    ensures p in PreOrder(node) <==> At(node, p).Some?
    decreases node, 1
  {
    ListPositions(node.header, 0, p);
    ListPositions(node.body, |node.header|, p);
  }

  ghost predicate NoRepeats(paths: seq<Path>) {
    forall i, j | 0 <= i < j < |paths| :: paths[i] != paths[j]
  }

  lemma JoinNoRepeats(a: seq<Path>, b: seq<Path>)
    requires NoRepeats(a) && NoRepeats(b) && forall p | p in a :: p !in b
    ensures NoRepeats(a + b)
  {
    forall i, j | 0 <= i < j < |a + b|
      ensures (a + b)[i] != (a + b)[j]
    {
      if i < |a| <= j { assert a[i] in a && b[j - |a|] in b; }
    }
  }

  lemma {:induction false} ListNoRepeats(nodes: seq<Node>, first: nat)
    ensures NoRepeats(PreOrderList(nodes, first))
    decreases nodes, 0
  {
    if nodes != [] {
      var init, last, i := nodes[..|nodes| - 1], nodes[|nodes| - 1], first + |nodes| - 1;
      ListNoRepeats(init, first);
      PositionsDistinct(last);
      var under := Under(i, PreOrder(last));
      forall j, k | 0 <= j < k < |under| ensures under[j] != under[k] {
        assert under[j][1..] == PreOrder(last)[j] && under[k][1..] == PreOrder(last)[k];
      }
      forall p | p in PreOrderList(init, first) ensures p !in under {
        ListPositions(init, first, p);
        UnderMeaning(i, PreOrder(last), p);
      }
      JoinNoRepeats(PreOrderList(init, first), under);
    }
  }

  /** No position occurs twice in the pre-order. */
  lemma {:induction false} PositionsDistinct(node: Node)
    ensures NoRepeats(PreOrder(node))
    decreases node, 1
  {
    var root: seq<Path> := [[]];
    var above, below := PreOrderList(node.header, 0), PreOrderList(node.body, |node.header|);
    ListNoRepeats(node.header, 0);
    ListNoRepeats(node.body, |node.header|);
    forall p | p in above ensures p != [] && p !in below {
      ListPositions(node.header, 0, p);
      ListPositions(node.body, |node.header|, p);
    }
    forall p | p in below ensures p != [] { ListPositions(node.body, |node.header|, p); }
    JoinNoRepeats(root, above);
    JoinNoRepeats(root + above, below);
  }

  /** The visitor reports, in pre-order and once each, exactly the network calls that lie in the body of
      some enclosing transaction `with`; calls in a `with` header do not count. */
  lemma ReportIsByPosition(on: Tests, node: Node)
    ensures Report(on, node, false) == Collect(on, node, PreOrder(node), false)
  {
    CollectAll(on, node, false);
  }
}
