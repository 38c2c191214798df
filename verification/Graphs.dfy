/** Reachability in finite directed graphs. */
module Graphs {

  type Node = nat

  type Edges = set<(Node, Node)>

  ghost predicate IsPath(edges: Edges, p: seq<Node>) {
    p != [] && forall i :: 0 <= i < |p| - 1 ==> (p[i], p[i + 1]) in edges
  }

  ghost predicate PathFrom(edges: Edges, a: Node, b: Node, p: seq<Node>) {
    IsPath(edges, p) && p[0] == a && p[|p| - 1] == b
  }

  ghost predicate Reaches(edges: Edges, a: Node, b: Node) {
    exists p :: PathFrom(edges, a, b, p)
  }

  lemma ReachesItself(edges: Edges, a: Node)
    ensures Reaches(edges, a, a)
  {
    assert PathFrom(edges, a, a, [a]);
  }

  lemma ReachesBefore(edges: Edges, a: Node, b: Node, c: Node)
    requires (a, b) in edges && Reaches(edges, b, c)
    ensures Reaches(edges, a, c)
  {
    var p :| PathFrom(edges, b, c, p);
    assert PathFrom(edges, a, c, [a] + p);
  }

  lemma ReachesAfter(edges: Edges, a: Node, b: Node, c: Node)
    requires Reaches(edges, a, b) && (b, c) in edges
    ensures Reaches(edges, a, c)
  {
    var p :| PathFrom(edges, a, b, p);
    assert PathFrom(edges, a, c, p + [c]);
  }

  /** A set that is closed under edges holds everything its members reach. */
  lemma {:induction false} ClosedHoldsReachable(edges: Edges, s: set<Node>, a: Node, b: Node, p: seq<Node>)
    requires a in s && PathFrom(edges, a, b, p) && forall x, y :: (x, y) in edges && x in s ==> y in s
    ensures b in s
    decreases |p|
  {
    if |p| > 1 {
      assert (p[0], p[1]) in edges;
      ClosedHoldsReachable(edges, s, p[1], b, p[1..]);
    }
  }

  /** A set that every edge into it starts in holds everything that reaches its members. */
  lemma {:induction false} BackClosedHoldsReaching(edges: Edges, s: set<Node>, a: Node, b: Node, p: seq<Node>)
    requires b in s && PathFrom(edges, a, b, p) && forall x, y :: (x, y) in edges && y in s ==> x in s
    ensures a in s
    decreases |p|
  {
    if |p| > 1 {
      assert (p[0], p[1]) in edges;
      BackClosedHoldsReaching(edges, s, p[1], b, p[1..]);
    }
  }
}
