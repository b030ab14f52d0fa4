/**
 * The inline union-find of the voucher matcher (tally-vouchers.ts): a mutable parent map whose
 * `find` rewrites pointers on the way up.  Its meaning is connectivity in the graph of links.
 */
module UnionFind {

  datatype Node = VoucherNode(guid: string) | InvoiceNode(id: string)

  type Edge = (Node, Node)

  // ---- connectivity, by walks -------------------------------------------

  ghost predicate Adjacent(edges: set<Edge>, x: Node, y: Node) {
    (x, y) in edges || (y, x) in edges
  }

  ghost predicate IsWalk(edges: set<Edge>, walk: seq<Node>) {
    && |walk| > 0
    && forall i :: 0 <= i < |walk| - 1 ==> Adjacent(edges, walk[i], walk[i + 1])
  }

  ghost predicate Joins(edges: set<Edge>, walk: seq<Node>, x: Node, y: Node) {
    IsWalk(edges, walk) && walk[0] == x && walk[|walk| - 1] == y
  }

  ghost predicate Connected(edges: set<Edge>, x: Node, y: Node) {
    exists walk :: Joins(edges, walk, x, y)
  }

  ghost predicate Touched(edges: set<Edge>, x: Node) {
    exists e :: e in edges && (e.0 == x || e.1 == x)
  }

  lemma ConnectedReflexive(edges: set<Edge>, x: Node)
    ensures Connected(edges, x, x)
  {
    assert Joins(edges, [x], x, x);
  }

  lemma ConnectedTransitive(edges: set<Edge>, x: Node, y: Node, z: Node)
    requires Connected(edges, x, y) && Connected(edges, y, z)
    ensures Connected(edges, x, z)
  {
    var p :| Joins(edges, p, x, y);
    var q :| Joins(edges, q, y, z);
    var walk := p + q[1..];
    forall i | 0 <= i < |walk| - 1
      ensures Adjacent(edges, walk[i], walk[i + 1])
    {
      if i >= |p| - 1 {
        assert walk[i] == q[i - (|p| - 1)] && walk[i + 1] == q[i + 1 - (|p| - 1)];
      }
    }
    assert Joins(edges, walk, x, z);
  }

  lemma {:induction false} WalkReversed(edges: set<Edge>, walk: seq<Node>, x: Node, y: Node)
    requires Joins(edges, walk, x, y)
    ensures Connected(edges, y, x)
    decreases |walk|
  {
    if |walk| == 1 {
      ConnectedReflexive(edges, x);
    } else {
      var rest := walk[..|walk| - 1];
      var z := rest[|rest| - 1];
      assert Adjacent(edges, walk[|walk| - 2], walk[|walk| - 1]);
      assert Joins(edges, rest, x, z);
      WalkReversed(edges, rest, x, z);
      assert Joins(edges, [y, z], y, z);
      ConnectedTransitive(edges, y, z, x);
    }
  }

  lemma ConnectedSymmetric(edges: set<Edge>, x: Node, y: Node)
    requires Connected(edges, x, y)
    ensures Connected(edges, y, x)
  {
    var walk :| Joins(edges, walk, x, y);
    WalkReversed(edges, walk, x, y);
  }

  lemma ConnectedMonotone(small: set<Edge>, large: set<Edge>, x: Node, y: Node)
    requires small <= large && Connected(small, x, y)
    ensures Connected(large, x, y)
  {
    var walk :| Joins(small, walk, x, y);
    forall i | 0 <= i < |walk| - 1
      ensures Adjacent(large, walk[i], walk[i + 1])
    {
      assert Adjacent(small, walk[i], walk[i + 1]);
    }
    assert Joins(large, walk, x, y);
  }

  lemma UntouchedIsAlone(edges: set<Edge>, x: Node, y: Node)
    requires !Touched(edges, x)
    ensures Connected(edges, x, y) <==> x == y
  {
    ConnectedReflexive(edges, x);
    if Connected(edges, x, y) {
      var walk :| Joins(edges, walk, x, y);
      assert |walk| > 1 ==> Adjacent(edges, walk[0], walk[1]);
    }
  }

  ghost predicate ThroughNewEdge(edges: set<Edge>, a: Node, b: Node, x: Node, y: Node) {
    || Connected(edges, x, y)
    || (Connected(edges, x, a) && Connected(edges, b, y))
    || (Connected(edges, x, b) && Connected(edges, a, y))
  }

  lemma {:induction false} WalkUsesNewEdge(edges: set<Edge>, a: Node, b: Node, walk: seq<Node>, x: Node, y: Node)
    requires Joins(edges + {(a, b)}, walk, x, y)
    ensures ThroughNewEdge(edges, a, b, x, y)
    decreases |walk|
  {
    if |walk| == 1 {
      ConnectedReflexive(edges, x);
    } else {
      var rest := walk[..|walk| - 1];
      var z := rest[|rest| - 1];
      assert Adjacent(edges + {(a, b)}, walk[|walk| - 2], walk[|walk| - 1]);
      assert Joins(edges + {(a, b)}, rest, x, z);
      WalkUsesNewEdge(edges, a, b, rest, x, z);
      StepUsesNewEdge(edges, a, b, x, z, y);
    }
  }

  lemma StepUsesNewEdge(edges: set<Edge>, a: Node, b: Node, x: Node, z: Node, y: Node)
    requires ThroughNewEdge(edges, a, b, x, z) && Adjacent(edges + {(a, b)}, z, y)
    ensures ThroughNewEdge(edges, a, b, x, y)
  {
    ConnectedReflexive(edges, a);
    ConnectedReflexive(edges, b);
    if Adjacent(edges, z, y) {
      assert Joins(edges, [z, y], z, y);
      if Connected(edges, x, z) { ConnectedTransitive(edges, x, z, y); }
      else if Connected(edges, b, z) && Connected(edges, x, a) { ConnectedTransitive(edges, b, z, y); }
      else { ConnectedTransitive(edges, a, z, y); }
    }
  }

  /** Adding one edge joins exactly the two classes of its ends. */
  lemma NewEdgeConnects(edges: set<Edge>, a: Node, b: Node, x: Node, y: Node)
    ensures Connected(edges + {(a, b)}, x, y) <==> ThroughNewEdge(edges, a, b, x, y)
  {
    var more := edges + {(a, b)};
    if Connected(more, x, y) {
      var walk :| Joins(more, walk, x, y);
      WalkUsesNewEdge(edges, a, b, walk, x, y);
    }
    if ThroughNewEdge(edges, a, b, x, y) {
      assert Joins(more, [a, b], a, b) && Joins(more, [b, a], b, a);
      if Connected(edges, x, y) {
        ConnectedMonotone(edges, more, x, y);
      } else if Connected(edges, x, a) && Connected(edges, b, y) {
        ConnectedMonotone(edges, more, x, a);
        ConnectedMonotone(edges, more, b, y);
        ConnectedTransitive(more, x, a, b);
        ConnectedTransitive(more, x, b, y);
      } else {
        ConnectedMonotone(edges, more, x, b);
        ConnectedMonotone(edges, more, a, y);
        ConnectedTransitive(more, x, b, a);
        ConnectedTransitive(more, x, a, y);
      }
    }
  }

  // ---- the parent map ----------------------------------------------------

  /** One step up from x stays in its tree, and climbs `rank` unless x is the root. */
  ghost predicate Climbs(parent: map<Node, Node>, root: map<Node, Node>, rank: map<Node, nat>, x: Node)
    requires x in parent && root.Keys == parent.Keys && rank.Keys == parent.Keys
  {
    && parent[x] in parent && root[x] in parent
    && root[parent[x]] == root[x]
    && parent[root[x]] == root[x]
    && (if parent[x] == x then root[x] == x else rank[x] < rank[parent[x]])
    && rank[x] <= rank[root[x]]
  }

  /** Following parents strictly climbs `rank` and ends in `root`: the map is an acyclic forest. */
  ghost predicate Forest(parent: map<Node, Node>, root: map<Node, Node>, rank: map<Node, nat>) {
    && root.Keys == parent.Keys && rank.Keys == parent.Keys
    && forall x {:trigger Climbs(parent, root, rank, x)} :: x in parent ==> Climbs(parent, root, rank, x)
  }

  /** Roots name the connected classes of the edges, and nothing outside the map has an edge. */
  ghost predicate Faithful(root: map<Node, Node>, edges: set<Edge>) {
    && (forall x :: Touched(edges, x) ==> x in root)
    && forall x, y :: x in root && y in root ==> (root[x] == root[y] <==> Connected(edges, x, y))
  }

  lemma ForestCompressed(parent: map<Node, Node>, root: map<Node, Node>, rank: map<Node, nat>, x: Node)
    requires Forest(parent, root, rank) && x in parent && parent[x] != x && parent[x] in parent
    ensures Forest(parent[x := parent[parent[x]]], root, rank)
  {
    var next := parent[x];
    assert Climbs(parent, root, rank, x) && Climbs(parent, root, rank, next);
    var shorter := parent[x := parent[next]];
    assert shorter.Keys == parent.Keys;
    assert Climbs(parent, root, rank, root[x]) && Climbs(parent, root, rank, parent[next]);
    forall y | y in shorter
      ensures Climbs(shorter, root, rank, y)
    {
      assert Climbs(parent, root, rank, y);
      assert Climbs(parent, root, rank, root[y]);
    }
  }

  lemma ForestEntered(parent: map<Node, Node>, root: map<Node, Node>, rank: map<Node, nat>, x: Node)
    requires Forest(parent, root, rank) && x !in parent
    ensures Forest(parent[x := x], root[x := x], rank[x := 0])
  {
    var parent', root', rank' := parent[x := x], root[x := x], rank[x := 0];
    assert parent'.Keys == parent.Keys + {x} && root'.Keys == parent'.Keys && rank'.Keys == parent'.Keys;
    forall y | y in parent'
      ensures Climbs(parent', root', rank', y)
    {
      if y != x { assert Climbs(parent, root, rank, y); }
    }
  }

  function Raised(root: map<Node, Node>, rank: map<Node, nat>, low: Node, high: Node): map<Node, nat>
    requires rank.Keys == root.Keys && low in rank
  {
    map x | x in rank :: if root[x] == high then rank[x] + rank[low] + 1 else rank[x]
  }

  function Merged(root: map<Node, Node>, low: Node, high: Node): map<Node, Node> {
    map x | x in root :: if root[x] == low then high else root[x]
  }

  lemma ForestJoined(parent: map<Node, Node>, root: map<Node, Node>, rank: map<Node, nat>, low: Node, high: Node)
    requires Forest(parent, root, rank) && low in parent && high in parent && low != high
    requires root[low] == low && root[high] == high
    ensures Forest(parent[low := high], Merged(root, low, high), Raised(root, rank, low, high))
  {
    var parent', root', rank' := parent[low := high], Merged(root, low, high), Raised(root, rank, low, high);
    assert parent'.Keys == parent.Keys && root'.Keys == root.Keys && rank'.Keys == rank.Keys;
    assert Climbs(parent, root, rank, low) && Climbs(parent, root, rank, high);
    forall x | x in parent'
      ensures Climbs(parent', root', rank', x)
    {
      assert Climbs(parent, root, rank, x);
      assert Climbs(parent, root, rank, root[x]);
    }
  }

  lemma RootsInside(parent: map<Node, Node>, root: map<Node, Node>, rank: map<Node, nat>, x: Node)
    requires Forest(parent, root, rank) && x !in parent
    ensures x !in root.Values
  {
    forall y | y in root
      ensures root[y] != x
    {
      assert Climbs(parent, root, rank, y);
    }
  }

  lemma FaithfulEntered(root: map<Node, Node>, edges: set<Edge>, x: Node)
    requires Faithful(root, edges) && x !in root && x !in root.Values
    ensures Faithful(root[x := x], edges)
  {
    forall y
      ensures Connected(edges, x, y) <==> x == y
      ensures Connected(edges, y, x) <==> x == y
    {
      UntouchedIsAlone(edges, x, y);
      if Connected(edges, y, x) { ConnectedSymmetric(edges, y, x); }
    }
  }

  lemma FaithfulLinked(root: map<Node, Node>, edges: set<Edge>, left: Node, right: Node)
    requires Faithful(root, edges) && left in root && right in root
    ensures Faithful(Merged(root, root[left], root[right]), edges + {(left, right)})
  {
    var merged := Merged(root, root[left], root[right]);
    forall x, y | x in merged && y in merged
      ensures merged[x] == merged[y] <==> Connected(edges + {(left, right)}, x, y)
    {
      NewEdgeConnects(edges, left, right, x, y);
    }
    forall x | Touched(edges + {(left, right)}, x)
      ensures x in merged
    {
      assert Touched(edges, x) || x == left || x == right;
    }
  }

  /** What find answers: the root, or the node itself when nothing ever linked it. */
  ghost function RepresentativeIn(root: map<Node, Node>, x: Node): Node {
    if x in root then root[x] else x
  }

  class Links {
    var parent: map<Node, Node>
    ghost var root: map<Node, Node>
    ghost var rank: map<Node, nat>
    ghost var edges: set<Edge>

    ghost predicate Valid()
      reads this
    {
      Forest(parent, root, rank) && Faithful(root, edges)
    }

    ghost function Representative(x: Node): Node
      reads this`root
    {
      RepresentativeIn(root, x)
    }

    constructor ()
      ensures Valid() && edges == {} && parent == map[]
    {
      parent, root, rank, edges := map[], map[], map[], {};
    }

    /** The pointer rewriting never changes a root, and the climb terminates. */
    method Find(node: Node) returns (found: Node)
      requires Valid()
      modifies this`parent
      ensures Valid() && parent.Keys == old(parent).Keys
      ensures found == Representative(node)
    {
      var current := node;
      assert node in parent ==> Climbs(parent, root, rank, node);
      while true
        invariant Forest(parent, root, rank) && parent.Keys == old(parent).Keys
        invariant node !in parent ==> current == node
        invariant node in parent ==> current in parent && root[current] == root[node] && root[node] in parent
        invariant node in parent ==> rank[current] <= rank[root[node]]
        decreases if node in rank then rank[root[node]] - rank[current] else 0
      {
        if current !in parent || parent[current] == current {
          assert current in parent ==> Climbs(parent, root, rank, current);
          return current;
        }
        var next := parent[current];
        assert Climbs(parent, root, rank, current) && Climbs(parent, root, rank, next);
        ForestCompressed(parent, root, rank, current);
        parent := parent[current := if next in parent then parent[next] else next];
        current := next;
      }
    }

    /** A node seen for the first time is its own root. */
    method Enter(node: Node)
      requires Valid()
      modifies this
      ensures Valid() && edges == old(edges) && node in parent
      ensures old(parent).Keys <= parent.Keys
    {
      if node !in parent {
        ForestEntered(parent, root, rank, node);
        RootsInside(parent, root, rank, node);
        FaithfulEntered(root, edges, node);
        parent, root, rank := parent[node := node], root[node := node], rank[node := 0];
      }
    }

    /** Joins the classes of the two ends, and no others. */
    method Link(left: Node, right: Node)
      requires Valid()
      modifies this
      ensures Valid() && edges == old(edges) + {(left, right)}
    {
      Enter(left);
      Enter(right);
      var rootLeft := Find(left);
      var rootRight := Find(right);
      FaithfulLinked(root, edges, left, right);
      RootsAreRoots(left);
      RootsAreRoots(right);
      if rootLeft != rootRight {
        ForestJoined(parent, root, rank, rootLeft, rootRight);
        parent := parent[rootLeft := rootRight];
        rank := Raised(root, rank, rootLeft, rootRight);
      } else {
        assert Merged(root, rootLeft, rootRight) == root;
      }
      root := Merged(root, rootLeft, rootRight);
      edges := edges + {(left, right)};
    }

    lemma RootsAreRoots(x: Node)
      requires Valid() && x in parent
      ensures root[x] in parent && root[root[x]] == root[x]
    {
      assert Climbs(parent, root, rank, x) && Climbs(parent, root, rank, root[x]);
    }

    /** Two nodes have one representative exactly when a walk over the links joins them. */
    lemma SameRepresentative(x: Node, y: Node)
      requires Valid()
      ensures Representative(x) == Representative(y) <==> Connected(edges, x, y)
    {
      if x !in root {
        if y in root { RootsAreRoots(y); }
        UntouchedIsAlone(edges, x, y);
      } else if y !in root {
        RootsAreRoots(x);
        UntouchedIsAlone(edges, y, x);
        if Connected(edges, x, y) { ConnectedSymmetric(edges, x, y); }
      }
    }
  }
}
