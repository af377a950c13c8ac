/** Directed graphs over string node ids, stored the way the plan DAG stores
    them: a map from each node to the set of nodes its edges point at. Paths,
    reachability and acyclicity are defined here once, with the facts the
    DAG operations rely on. */
module Graphs {

  type Graph = map<string, set<string>>

  /** Every edge ends at a node that has an entry of its own. */
  predicate Closed(g: Graph) {
    forall u :: u in g ==> g[u] <= g.Keys
  }

  /** Every edge leaving a node of `n` ends inside `v`. */
  predicate ClosedUnder(g: Graph, n: set<string>, v: set<string>) {
    forall u :: u in n && u in g ==> g[u] <= v
  }

  /** The nodes with an edge to `v`. */
  function Preds(g: Graph, v: string): set<string> {
    set u | u in g && v in g[u]
  }

  /** `r` holds the same edges as `g`, turned around. */
  predicate IsTranspose(g: Graph, r: Graph) {
    g.Keys == r.Keys && forall v :: v in r ==> r[v] == Preds(g, v)
  }

  /** A walk along edges; a single node is a path of length one. */
  predicate IsPath(g: Graph, p: seq<string>) {
    |p| >= 1 && forall i :: 0 <= i < |p| - 1 ==> p[i] in g && p[i + 1] in g[p[i]]
  }

  ghost predicate Reachable(g: Graph, a: string, b: string) {
    exists p :: IsPath(g, p) && p[0] == a && p[|p| - 1] == b
  }

  /** No walk of one edge or more comes back to where it started. */
  ghost predicate Acyclic(g: Graph) {
    forall p :: IsPath(g, p) && |p| >= 2 ==> p[0] != p[|p| - 1]
  }

  predicate NoEdges(g: Graph) {
    forall u :: u in g ==> g[u] == {}
  }

  lemma ReachableRefl(g: Graph, a: string)
    ensures Reachable(g, a, a)
  {
    assert IsPath(g, [a]);
  }

  /** An edge followed by a path is a path. */
  lemma ReachableStep(g: Graph, a: string, b: string, c: string)
    requires a in g && b in g[a] && Reachable(g, b, c)
    ensures Reachable(g, a, c)
  {
    var p :| IsPath(g, p) && p[0] == b && p[|p| - 1] == c;
    var q := [a] + p;
    assert forall i :: 1 <= i < |q| - 1 ==> q[i] == p[i - 1] && q[i + 1] == p[i];
    assert IsPath(g, q);
  }

  /** A path followed by an edge is a path. */
  lemma ReachableExtend(g: Graph, a: string, b: string, c: string)
    requires Reachable(g, a, b) && b in g && c in g[b]
    ensures Reachable(g, a, c)
  {
    var p :| IsPath(g, p) && p[0] == a && p[|p| - 1] == b;
    var q := p + [c];
    assert IsPath(g, q);
  }

  lemma ReachableTrans(g: Graph, a: string, b: string, c: string)
    requires Reachable(g, a, b) && Reachable(g, b, c)
    ensures Reachable(g, a, c)
  {
    var p :| IsPath(g, p) && p[0] == a && p[|p| - 1] == b;
    var q :| IsPath(g, q) && q[0] == b && q[|q| - 1] == c;
    var r := p + q[1..];
    forall i | 0 <= i < |r| - 1 ensures r[i] in g && r[i + 1] in g[r[i]] {
      if i >= |p| - 1 {
        assert r[i] == q[i - |p| + 1] && r[i + 1] == q[i - |p| + 2];
      }
    }
    assert IsPath(g, r) && r[0] == a && r[|r| - 1] == c;
  }

  /** A set that every edge leaving it re-enters holds every node a path
      from inside it reaches. */
  lemma {:induction false} ClosedHoldsPath(g: Graph, s: set<string>, p: seq<string>)
    requires ClosedUnder(g, s, s) && IsPath(g, p) && p[0] in s
    ensures p[|p| - 1] in s
    decreases |p|
  {
    if |p| > 1 {
      var init := p[..|p| - 1];
      assert IsPath(g, init);
      ClosedHoldsPath(g, s, init);
    }
  }

  lemma NotReachableOutside(g: Graph, s: set<string>, a: string, b: string)
    requires ClosedUnder(g, s, s) && a in s && b !in s
    ensures !Reachable(g, a, b)
  {
    if Reachable(g, a, b) {
      var p :| IsPath(g, p) && p[0] == a && p[|p| - 1] == b;
      ClosedHoldsPath(g, s, p);
    }
  }

  /** Adding a node without edges adds no path of one edge or more. */
  lemma AddNodeAcyclic(g: Graph, id: string)
    requires id !in g && Acyclic(g)
    ensures Acyclic(g[id := {}])
  {
    var h := g[id := {}];
    forall p | IsPath(h, p) && |p| >= 2 ensures p[0] != p[|p| - 1] {
      forall i | 0 <= i < |p| - 1 ensures p[i] in g && p[i + 1] in g[p[i]] {
        assert p[i] in h && p[i + 1] in h[p[i]];
      }
      assert IsPath(g, p);
    }
  }

  /** A path of the graph with the edge `a -> b` added is either a path of
      the old graph or passes through that edge: it starts somewhere that
      reaches `a` and ends somewhere `b` reaches. */
  lemma {:induction false} PathWithEdge(g: Graph, a: string, b: string, p: seq<string>)
    requires a in g && IsPath(g[a := g[a] + {b}], p)
    ensures IsPath(g, p) || (Reachable(g, p[0], a) && Reachable(g, b, p[|p| - 1]))
    decreases |p|
  {
    var h := g[a := g[a] + {b}];
    if |p| > 1 {
      var init := p[..|p| - 1];
      var x, y := p[|p| - 2], p[|p| - 1];
      assert IsPath(h, init) && init[0] == p[0] && init[|init| - 1] == x;
      PathWithEdge(g, a, b, init);
      assert x in h && y in h[x];
      if x in g && y in g[x] {
        if IsPath(g, init) {
          assert IsPath(g, p);
        } else {
          ReachableExtend(g, b, x, y);
        }
      } else {
        assert x == a && y == b;
        ReachableRefl(g, b);
        if IsPath(g, init) {
          assert Reachable(g, p[0], a) by { assert init[|init| - 1] == a; }
        }
      }
    }
  }

  /** Adding `a -> b` keeps a graph acyclic when `b` does not reach `a`. */
  lemma AddEdgeAcyclic(g: Graph, a: string, b: string)
    requires a in g && Acyclic(g) && !Reachable(g, b, a)
    ensures Acyclic(g[a := g[a] + {b}])
  {
    var h := g[a := g[a] + {b}];
    forall p | IsPath(h, p) && |p| >= 2 ensures p[0] != p[|p| - 1] {
      PathWithEdge(g, a, b, p);
      if !IsPath(g, p) && p[0] == p[|p| - 1] {
        ReachableTrans(g, b, p[0], a);
      }
    }
  }

  /** Walking back from `v` along predecessors that stay inside `s`. */
  lemma {:induction false} BackWalk(g: Graph, s: set<string>, v: string, n: nat) returns (p: seq<string>)
    requires v in s
    requires forall w :: w in s ==> Preds(g, w) * s != {}
    ensures IsPath(g, p) && |p| == n + 1 && p[|p| - 1] == v
    ensures forall i :: 0 <= i < |p| ==> p[i] in s
    decreases n
  {
    if n == 0 {
      p := [v];
    } else {
      var q := BackWalk(g, s, v, n - 1);
      var u :| u in Preds(g, q[0]) * s;
      p := [u] + q;
      assert forall i :: 1 <= i < |p| ==> p[i] == q[i - 1];
    }
  }

  /** A sequence longer than the set its elements come from repeats one. */
  lemma {:induction false} Pigeonhole(p: seq<string>, s: set<string>) returns (i: nat, j: nat)
    requires forall k :: 0 <= k < |p| ==> p[k] in s
    requires |p| > |s|
    ensures i < j < |p| && p[i] == p[j]
    decreases |p|
  {
    if k :| 1 <= k < |p| && p[k] == p[0] {
      i, j := 0, k;
    } else {
      var rest := p[1..];
      forall k | 0 <= k < |rest| ensures rest[k] in s - {p[0]} { assert rest[k] == p[k + 1]; }
      var i', j' := Pigeonhole(rest, s - {p[0]});
      i, j := i' + 1, j' + 1;
    }
  }

  /** If every node of a non-empty set has a predecessor in the set, the
      graph has a cycle. */
  lemma CycleFromPreds(g: Graph, s: set<string>)
    requires s != {}
    requires forall w :: w in s ==> Preds(g, w) * s != {}
    ensures !Acyclic(g)
  {
    var v :| v in s;
    var p := BackWalk(g, s, v, |s|);
    var i, j := Pigeonhole(p, s);
    var q := p[i..j + 1];
    forall k | 0 <= k < |q| - 1 ensures q[k] in g && q[k + 1] in g[q[k]] {
      assert q[k] == p[i + k] && q[k + 1] == p[i + k + 1];
    }
    assert IsPath(g, q) && |q| >= 2 && q[0] == q[|q| - 1];
  }

  /** Every edge of `g` is an edge of `h`. */
  predicate SubGraph(g: Graph, h: Graph) {
    forall u :: u in g ==> u in h && g[u] <= h[u]
  }

  /** A path keeps its edges in a larger graph. */
  lemma ReachableSub(g: Graph, h: Graph, a: string, b: string)
    requires SubGraph(g, h) && Reachable(g, a, b)
    ensures Reachable(h, a, b)
  {
    var p :| IsPath(g, p) && p[0] == a && p[|p| - 1] == b;
    forall i | 0 <= i < |p| - 1 ensures p[i] in h && p[i + 1] in h[p[i]] {
      assert p[i] in g && p[i + 1] in g[p[i]];
    }
    assert IsPath(h, p);
  }

  /** An edge `a -> b` together with a path from `b` back to `a` is a
      cycle. */
  lemma CycleThrough(h: Graph, a: string, b: string)
    requires a in h && b in h[a] && Reachable(h, b, a)
    ensures !Acyclic(h)
  {
    var p :| IsPath(h, p) && p[0] == b && p[|p| - 1] == a;
    var q := [a] + p;
    assert forall i :: 1 <= i < |q| - 1 ==> q[i] == p[i - 1] && q[i + 1] == p[i];
    assert IsPath(h, q) && |q| >= 2 && q[0] == q[|q| - 1];
  }

  lemma NoEdgesAcyclic(g: Graph)
    requires NoEdges(g)
    ensures Acyclic(g)
  {
    forall p | IsPath(g, p) && |p| >= 2 ensures p[0] != p[|p| - 1] {
      assert p[1] in g[p[0]];
    }
  }

  /** Every edge climbs the ranking. */
  predicate Climbs(g: Graph, rank: map<string, int>) {
    forall u :: u in g ==> u in rank && forall v :: v in g[u] ==> v in rank && rank[u] < rank[v]
  }

  lemma {:induction false} PathClimbs(g: Graph, rank: map<string, int>, p: seq<string>)
    requires Climbs(g, rank) && IsPath(g, p) && |p| >= 2
    ensures p[0] in rank && p[|p| - 1] in rank && rank[p[0]] < rank[p[|p| - 1]]
    decreases |p|
  {
    assert p[0] in g && p[1] in g[p[0]];
    if |p| > 2 {
      var init := p[..|p| - 1];
      assert IsPath(g, init);
      PathClimbs(g, rank, init);
      assert p[|p| - 2] in g && p[|p| - 1] in g[p[|p| - 2]];
    }
  }

  /** A graph whose every edge climbs a ranking has no cycle. */
  lemma RankedAcyclic(g: Graph, rank: map<string, int>)
    requires Climbs(g, rank)
    ensures Acyclic(g)
  {
    forall p | IsPath(g, p) && |p| >= 2 ensures p[0] != p[|p| - 1] {
      PathClimbs(g, rank, p);
    }
  }

  lemma SubsetCard(a: set<string>, b: set<string>)
    requires a <= b
    ensures |a| <= |b|
    ensures |a| == |b| ==> a == b
    decreases |b|
  {
    if a != {} {
      var x :| x in a;
      SubsetCard(a - {x}, b - {x});
      assert a == (a - {x}) + {x} && b == (b - {x}) + {x};
    } else if b != {} {
      var x :| x in b;
      assert x in b - a;
    }
  }
}
