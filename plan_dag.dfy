/** The compiled plan (crates/oracle_omen_plan/src/dag.rs): a DAG whose
    `edges` map each node to the nodes its edges point at and whose
    `reverse_edges` hold the same edges turned around. `add_edge(from, to)`
    refuses an edge that would close a cycle, so every DAG built through
    `new`, `add_node` and `add_edge` satisfies `Valid`. */
module PlanDag {
  import opened Wrappers
  import Text
  import Seqs
  import Hashing
  import PlanDsl
  import Graphs

  /** `DagNodeType`. */
  datatype DagNodeType =
    | ToolNode(name: string, version: string)
    | ObservationNode(source: string)
    | DecisionNode(condition: string)
    | WaitNode(durationMs: nat)
    | CustomNode(typeName: string, config: Hashing.Json)

  /** `DagNode`. */
  datatype DagNode = DagNode(
    id: string,
    nodeType: DagNodeType,
    capabilities: seq<string>,
    resources: PlanDsl.ResourceAnnotation,
    failurePolicy: PlanDsl.FailurePolicy,
    retryPolicy: PlanDsl.RetryPolicy,
    timeoutPolicy: PlanDsl.TimeoutPolicy,
    metadata: map<string, string>)

  /** `DagNode::new`: no capabilities, default policies, no metadata. */
  function NewNode(id: string, nodeType: DagNodeType): (n: DagNode)
    ensures n.id == id && n.nodeType == nodeType && n.capabilities == [] && n.metadata == map[]
    ensures n.resources == PlanDsl.DefaultResources() && n.failurePolicy == PlanDsl.Stop
    ensures n.retryPolicy == PlanDsl.DefaultRetryPolicy() && n.timeoutPolicy == PlanDsl.DefaultTimeoutPolicy()
  {
    DagNode(id, nodeType, [], PlanDsl.DefaultResources(), PlanDsl.DefaultFailurePolicy,
            PlanDsl.DefaultRetryPolicy(), PlanDsl.DefaultTimeoutPolicy(), map[])
  }

  /** `DagError`. */
  datatype DagError =
    | DuplicateNode(id: string)
    | NodeNotFound(id: string)
    | DependencyNotFound(node: string, dependency: string)
    | CycleDetected(from: string, to: string)
    | InvalidStructure(message: string)

  /** The `Display` text of a `DagError`. */
  function DagErrorText(e: DagError): string {
    match e
    case DuplicateNode(id) => "Duplicate node: " + id
    case NodeNotFound(id) => "Node not found: " + id
    case DependencyNotFound(node, dependency) => "Dependency '" + dependency + "' of node '" + node + "' not found"
    case CycleDetected(from, to) => "Cycle detected: edge " + from + " -> " + to + " would create cycle"
    case InvalidStructure(message) => "Invalid DAG structure: " + message
  }

  /** The text of a node error ends with the node id and its first word
      tells the two kinds apart, so two different node errors never print
      the same text. */
  lemma DagErrorTextNamesNode(e: DagError, e': DagError)
    requires e.DuplicateNode? || e.NodeNotFound?
    requires e'.DuplicateNode? || e'.NodeNotFound?
    ensures var t := DagErrorText(e); |t| > |e.id| && t[|t| - |e.id|..] == e.id
    ensures DagErrorText(e) == DagErrorText(e') ==> e == e'
  {
    var t, t' := DagErrorText(e), DagErrorText(e');
    if t == t' {
      assert t[0] == t'[0];
      if e.DuplicateNode? {
        assert t[16..] == e.id && t'[16..] == e'.id;
      } else {
        assert t[16..] == e.id && t'[16..] == e'.id;
      }
    }
  }

  /** The only error `topological_order` reports. */
  const UnknownCycle: DagError := CycleDetected("unknown", "unknown")

  /** The order `topological_order` produces, as written: the in-degrees
      count the edges into each node, but the release step walks
      `reverse_edges`, which lists for each node the nodes with an edge into
      it. A node taken from the queue has in-degree zero, so that list is
      empty and nothing is ever released. The result is the nodes in
      descending order when there are no edges, and a cycle error as soon as
      there is one. */
  function TopologicalOrderAsWritten(nodeIds: set<string>, g: Graphs.Graph): Result<seq<string>, DagError> {
    if Graphs.NoEdges(g) then Ok(Seqs.Reverse(Text.Sorted(nodeIds))) else Err(UnknownCycle)
  }

  /** Every edge between two listed nodes points forward in the list. */
  predicate Forward(order: seq<string>, g: Graphs.Graph) {
    forall i, j :: 0 <= i < |order| && 0 <= j < |order| && order[j] in g && order[i] in g[order[j]] ==> j < i
  }

  /** `order` lists every node once and every edge points forward. */
  ghost predicate IsTopologicalOrder(order: seq<string>, nodeIds: set<string>, g: Graphs.Graph) {
    Seqs.Distinct(order) && (forall x :: x in order <==> x in nodeIds) && Forward(order, g)
  }

  lemma IncreasingDistinct(r: seq<string>)
    requires Text.Increasing(r)
    ensures Seqs.Distinct(r)
  {
    forall i, j | 0 <= i < j < |r| ensures r[i] != r[j] {
      Text.LessIrreflexive(r[i]);
    }
  }

  /** The elements of a sorted set, in the order the ordered maps and sets of
      the DAG hand them out. Callers only rely on there being no repeats. */
  method InOrder(s: set<string>) returns (r: seq<string>)
    ensures FreshEach(r) && |r| == |s|
    ensures forall x :: x in r <==> x in s
  {
    r := Text.Sorted(s);
    IncreasingFreshEach(r);
  }

  /** The in-degree table `topological_order` builds: a zero for every node,
      then one more for every edge into a node, walking the edge sets in key
      order. Every node's entry ends up as its number of predecessors. */
  method InDegrees(nodeIds: set<string>, g: Graphs.Graph) returns (d: map<string, nat>)
    requires g.Keys == nodeIds && Graphs.Closed(g)
    ensures d.Keys == nodeIds
    ensures forall n :: n in d ==> d[n] == |Graphs.Preds(g, n)|
  {
    d := ZeroTable(nodeIds);
    d := CountEdges(g, d);
  }

  /** The second half of the in-degree table: one more for each edge, the
      edge sets taken key by key. */
  method CountEdges(g: Graphs.Graph, zero: map<string, nat>) returns (d: map<string, nat>)
    requires Graphs.Closed(g) && zero.Keys == g.Keys
    requires forall n :: n in zero ==> zero[n] == 0
    ensures d.Keys == g.Keys
    ensures forall n :: n in d ==> d[n] == |Graphs.Preds(g, n)|
  {
    d := zero;
    var ks := InOrder(g.Keys);
    for i := 0 to |ks|
      invariant d.Keys == g.Keys && Tallied(g, d, ks[..i])
    {
      var k := ks[i];
      var deps := InOrder(g[k]);
      ghost var before := d;
      d := CountInto(d, deps);
      InDegreesStep(g, ks, i, deps, before, d);
    }
    EdgesIntoAll(g, ks, d);
  }

  /** Every entry of `d` counts the edges into it from the keys in `ks`. */
  ghost predicate Tallied(g: Graphs.Graph, d: map<string, nat>, ks: seq<string>) {
    (forall x :: x in ks ==> x in g) &&
    forall n :: n in d ==> d[n] == EdgesInto(g, n, ks)
  }

  /** Once every key is counted, each entry is the full in-degree. */
  lemma EdgesIntoAll(g: Graphs.Graph, ks: seq<string>, d: map<string, nat>)
    requires FreshEach(ks) && (forall x :: x in ks <==> x in g) && Tallied(g, d, ks[..|ks|])
    ensures forall n :: n in d ==> d[n] == |Graphs.Preds(g, n)|
  {
    assert ks[..|ks|] == ks;
    forall n | n in d ensures d[n] == |Graphs.Preds(g, n)| {
      EdgesIntoPreds(g, n, ks, g.Keys);
      assert Graphs.Preds(g, n) * g.Keys == Graphs.Preds(g, n);
    }
  }

  /** The number of edges into `n` from the keys listed in `ks`. */
  ghost function EdgesInto(g: Graphs.Graph, n: string, ks: seq<string>): nat
    requires forall x :: x in ks ==> x in g
  {
    if ks == [] then 0
    else EdgesInto(g, n, ks[..|ks| - 1]) + (if n in g[ks[|ks| - 1]] then 1 else 0)
  }

  /** Over keys without repeats, the count is the number of those keys that
      are predecessors of `n`. */
  lemma {:induction false} EdgesIntoPreds(g: Graphs.Graph, n: string, ks: seq<string>, s: set<string>)
    requires FreshEach(ks) && forall x :: x in ks ==> x in g
    requires forall x :: x in s <==> x in ks
    ensures EdgesInto(g, n, ks) == |Graphs.Preds(g, n) * s|
    decreases |ks|
  {
    if ks != [] {
      var init, k := ks[..|ks| - 1], ks[|ks| - 1];
      FreshEachInit(ks);
      EdgesIntoPreds(g, n, init, s - {k});
      assert s == (s - {k}) + {k};
      CardAdd(Graphs.Preds(g, n), s - {k}, k);
    }
  }

  /** Dropping the last element keeps a sequence free of repeats, and the
      last element is not among the rest. */
  lemma FreshEachInit(ks: seq<string>)
    requires FreshEach(ks) && ks != []
    ensures FreshEach(ks[..|ks| - 1]) && ks[|ks| - 1] !in ks[..|ks| - 1]
    ensures forall x :: x in ks <==> x in ks[..|ks| - 1] || x == ks[|ks| - 1]
  {
    var init := ks[..|ks| - 1];
    forall i | 0 <= i < |init| ensures init[i] !in init[..i] {
      assert init[..i] == ks[..i] && init[i] == ks[i];
    }
    assert ks == init + [ks[|ks| - 1]];
  }

  /** A zero entry for every node, inserted in key order. */
  method ZeroTable(nodeIds: set<string>) returns (d: map<string, nat>)
    ensures d.Keys == nodeIds
    ensures forall n :: n in d ==> d[n] == 0
  {
    var ids := InOrder(nodeIds);
    d := map[];
    for i := 0 to |ids|
      invariant forall n :: n in d <==> n in ids[..i]
      invariant forall n :: n in d ==> d[n] == 0
    {
      assert forall n :: n in ids[..i + 1] <==> n in ids[..i] || n == ids[i];
      d := d[ids[i] := 0];
    }
    assert ids[..|ids|] == ids;
  }

  /** Counting the edge set of one more key adds one for each of its
      targets. */
  lemma InDegreesStep(g: Graphs.Graph, ks: seq<string>, i: nat, deps: seq<string>, d: map<string, nat>, d': map<string, nat>)
    requires Graphs.Closed(g) && i < |ks| && ks[i] in g
    requires forall x :: x in deps <==> x in g[ks[i]]
    requires d.Keys == g.Keys && Tallied(g, d, ks[..i])
    requires forall n :: n in d' <==> n in d || n in deps
    requires forall n :: n in d' ==> d'[n] == (if n in d then d[n] else 0) + (if n in deps then 1 else 0)
    ensures d'.Keys == g.Keys && Tallied(g, d', ks[..i + 1])
  {
    assert ks[..i + 1][..i] == ks[..i];
  }

  /** Letting one more element in adds it to the intersection, if it
      belongs there. */
  lemma CardAdd(p: set<string>, e: set<string>, x: string)
    requires x !in e
    ensures |p * (e + {x})| == |p * e| + (if x in p then 1 else 0)
  {
    if x in p {
      assert p * (e + {x}) == (p * e) + {x};
    } else {
      assert p * (e + {x}) == p * e;
    }
  }

  /** The inner loop of the in-degree count: one more for each listed
      target, inserting a zero first for a target without an entry. */
  method CountInto(d: map<string, nat>, deps: seq<string>) returns (d': map<string, nat>)
    requires FreshEach(deps)
    ensures forall n :: n in d' <==> n in d || n in deps
    ensures forall n :: n in d' ==> d'[n] == (if n in d then d[n] else 0) + (if n in deps then 1 else 0)
  {
    d' := d;
    for j := 0 to |deps|
      invariant forall n :: n in d' <==> n in d || n in deps[..j]
      invariant forall n :: n in d' ==> d'[n] == (if n in d then d[n] else 0) + (if n in deps[..j] then 1 else 0)
    {
      var dep := deps[j];
      var done := deps[..j + 1];
      assert done == deps[..j] + [dep];
      assert dep !in deps[..j];
      ghost var prev := d';
      d' := d'[dep := (if dep in d' then d'[dep] else 0) + 1];
      forall n | n in d' ensures d'[n] == (if n in d then d[n] else 0) + (if n in done then 1 else 0) {
        assert n in done <==> n in deps[..j] || n == dep;
        if n != dep {
          assert d'[n] == prev[n];
        }
      }
    }
    assert deps[..|deps|] == deps;
  }

  /** The targets, in order, whose in-degree is one before the release. */
  function NewlyFree(d: map<string, nat>, targets: seq<string>): seq<string>
    decreases |targets|
  {
    if targets == [] then []
    else
      var t := targets[|targets| - 1];
      NewlyFree(d, targets[..|targets| - 1]) + (if t in d && d[t] == 1 then [t] else [])
  }

  /** The newly freed targets are those whose in-degree was one, each once
      when the targets do not repeat. */
  lemma {:induction false} NewlyFreeMembers(d: map<string, nat>, targets: seq<string>)
    ensures forall x :: x in NewlyFree(d, targets) <==> x in targets && x in d && d[x] == 1
    ensures Seqs.Distinct(targets) ==> Seqs.Distinct(NewlyFree(d, targets))
    decreases |targets|
  {
    if targets != [] {
      var init, t := targets[..|targets| - 1], targets[|targets| - 1];
      NewlyFreeMembers(d, init);
      assert forall x :: x in targets <==> x in init || x == t;
      if Seqs.Distinct(targets) {
        assert Seqs.Distinct(init);
        assert t !in init;
      }
    }
  }

  /** A sequence without repeats has no element earlier in it than its own
      position. */
  predicate FreshEach(s: seq<string>) {
    forall i :: 0 <= i < |s| ==> s[i] !in s[..i]
  }

  lemma IncreasingFreshEach(s: seq<string>)
    requires Text.Increasing(s)
    ensures FreshEach(s)
  {
    forall i | 0 <= i < |s| ensures s[i] !in s[..i] {
      forall k | 0 <= k < i ensures s[..i][k] != s[i] {
        Text.LessIrreflexive(s[i]);
      }
    }
  }

  /** The release loop of `topological_order`: each target with an entry
      loses one from its in-degree and, when that reaches zero, joins the
      back of the queue. */
  method Release(d: map<string, nat>, targets: seq<string>, queue: seq<string>) returns (d': map<string, nat>, queue': seq<string>)
    requires FreshEach(targets)
    requires forall t :: t in targets && t in d ==> d[t] >= 1
    ensures d'.Keys == d.Keys
    ensures forall n :: n in d' ==> d'[n] == if n in targets then d[n] - 1 else d[n]
    ensures queue' == queue + NewlyFree(d, targets)
  {
    d', queue' := d, queue;
    for i := 0 to |targets|
      invariant d'.Keys == d.Keys
      invariant forall n :: n in d' ==> d'[n] == if n in targets[..i] then d[n] - 1 else d[n]
      invariant queue' == queue + NewlyFree(d, targets[..i])
    {
      var t := targets[i];
      ghost var done, done' := targets[..i], targets[..i + 1];
      ReleaseStep(d, targets, i);
      ghost var before := d';
      if t in d' {
        d' := d'[t := d'[t] - 1];
        if d'[t] == 0 {
          queue' := queue' + [t];
        }
      }
      forall n | n in d' ensures d'[n] == if n in done' then d[n] - 1 else d[n] {
        if n != t {
          assert d'[n] == before[n];
        }
      }
    }
    assert targets[..|targets|] == targets;
  }

  /** One more target of the release loop: it was not among those before,
      and it joins the newly freed list when its in-degree was one. */
  lemma ReleaseStep(d: map<string, nat>, targets: seq<string>, i: nat)
    requires FreshEach(targets) && i < |targets|
    ensures targets[i] !in targets[..i]
    ensures forall n :: n in targets[..i + 1] <==> n in targets[..i] || n == targets[i]
    ensures NewlyFree(d, targets[..i + 1]) ==
      NewlyFree(d, targets[..i]) + (if targets[i] in d && d[targets[i]] == 1 then [targets[i]] else [])
  {
    assert targets[..i + 1] == targets[..i] + [targets[i]];
    assert targets[..i + 1][..i] == targets[..i];
  }

  /** `queue.sort()` on a queue without repeats: the one ascending
      arrangement of its elements. */
  function SortQueue(queue: seq<string>): (r: seq<string>)
    requires Seqs.Distinct(queue)
    ensures Text.Increasing(r) && |r| == |queue|
    ensures forall x :: x in r <==> x in queue
  {
    Seqs.DistinctCard(queue);
    Text.Sorted(set x | x in queue)
  }

  /** `result` lists the emitted nodes, each once. */
  ghost predicate Listed(result: seq<string>, emitted: set<string>) {
    emitted == (set x | x in result) && Seqs.Distinct(result)
  }

  /** The in-degree bookkeeping of Kahn's algorithm: every emitted node's
      predecessors were emitted before it, and every other node's in-degree
      counts its predecessors not yet emitted. */
  ghost predicate Counted(nodeIds: set<string>, g: Graphs.Graph, d: map<string, nat>, emitted: set<string>) {
    && d.Keys == nodeIds
    && emitted <= nodeIds
    && (forall x :: x in emitted ==> Graphs.Preds(g, x) <= emitted)
    && (forall n :: n in nodeIds && n !in emitted ==> d[n] == |Graphs.Preds(g, n) - emitted|)
  }

  /** The queue holds exactly the unemitted nodes with in-degree zero. */
  ghost predicate QueueHolds(nodeIds: set<string>, d: map<string, nat>, emitted: set<string>, queue: seq<string>)
    requires d.Keys == nodeIds
  {
    Text.Increasing(queue) && forall x :: x in queue <==> x in nodeIds && x !in emitted && d[x] == 0
  }

  /** The node taken from the queue has all its predecessors emitted, and
      its successors are unemitted nodes other than itself with a positive
      in-degree. */
  lemma KahnTargets(nodeIds: set<string>, g: Graphs.Graph, d: map<string, nat>, emitted: set<string>, queue: seq<string>, node: string)
    requires g.Keys == nodeIds && Graphs.Closed(g) && Graphs.Acyclic(g)
    requires Counted(nodeIds, g, d, emitted) && QueueHolds(nodeIds, d, emitted, queue)
    requires queue != [] && node == queue[|queue| - 1]
    ensures node in nodeIds && node !in emitted && Graphs.Preds(g, node) <= emitted
    ensures forall t :: t in g[node] ==> t in nodeIds && t !in emitted && t != node && d[t] >= 1
  {
    assert node in queue;
    assert |Graphs.Preds(g, node) - emitted| == 0;
    forall x | x in Graphs.Preds(g, node) ensures x in emitted {
      assert x !in Graphs.Preds(g, node) - emitted;
    }
    forall t | t in g[node] ensures t in nodeIds && t !in emitted && t != node && d[t] >= 1 {
      SuccessorPending(nodeIds, g, d, emitted, node, t);
    }
  }

  /** A successor of a node not yet emitted is itself not yet emitted, and
      counts that node among its pending predecessors. */
  lemma SuccessorPending(nodeIds: set<string>, g: Graphs.Graph, d: map<string, nat>, emitted: set<string>, node: string, t: string)
    requires g.Keys == nodeIds && Graphs.Closed(g) && Graphs.Acyclic(g)
    requires Counted(nodeIds, g, d, emitted)
    requires node in g && node !in emitted && t in g[node]
    ensures t in nodeIds && t !in emitted && t != node && d[t] >= 1
  {
    assert node in Graphs.Preds(g, t);
    assert Graphs.IsPath(g, [node, t]);
    assert node in Graphs.Preds(g, t) - emitted;
  }

  /** Emitting `node` and releasing its successors keeps the bookkeeping. */
  lemma CountedStep(nodeIds: set<string>, g: Graphs.Graph, d: map<string, nat>, emitted: set<string>, node: string, d': map<string, nat>)
    requires g.Keys == nodeIds && Graphs.Closed(g)
    requires Counted(nodeIds, g, d, emitted)
    requires node in nodeIds && node !in emitted && Graphs.Preds(g, node) <= emitted
    requires forall t :: t in g[node] ==> t !in emitted && t != node && d[t] >= 1
    requires d'.Keys == d.Keys && forall n :: n in d' ==> d'[n] == if n in g[node] then d[n] - 1 else d[n]
    ensures Counted(nodeIds, g, d', emitted + {node})
  {
    var e' := emitted + {node};
    forall n | n in nodeIds && n !in e' ensures d'[n] == |Graphs.Preds(g, n) - e'| {
      CountedEntry(g, node, n, emitted, d[n], d'[n]);
    }
  }

  /** One entry of the bookkeeping after `node` is emitted. */
  lemma CountedEntry(g: Graphs.Graph, node: string, n: string, emitted: set<string>, dn: nat, dn': nat)
    requires node in g && node !in emitted && n != node
    requires dn == |Graphs.Preds(g, n) - emitted|
    requires dn' == if n in g[node] then dn - 1 else dn
    ensures dn' == |Graphs.Preds(g, n) - (emitted + {node})|
  {
    CardRemove(Graphs.Preds(g, n), emitted, node);
    assert node in Graphs.Preds(g, n) <==> n in g[node];
  }

  /** Taking one more element out removes it from the difference, if it
      was there. */
  lemma CardRemove(p: set<string>, e: set<string>, x: string)
    ensures |p - (e + {x})| == |p - e| - (if x in p && x !in e then 1 else 0)
  {
    var q := p - e;
    if x in p && x !in e {
      assert p - (e + {x}) == q - {x};
      assert q == (q - {x}) + {x};
    } else {
      assert p - (e + {x}) == q;
    }
  }

  lemma ListedStep(result: seq<string>, emitted: set<string>, node: string)
    requires Listed(result, emitted) && node !in emitted
    ensures Listed(result + [node], emitted + {node})
  {
    var r' := result + [node];
    assert (set x | x in r') == emitted + {node};
    forall i, j | 0 <= i < j < |r'| ensures r'[i] != r'[j] {
      if j == |result| {
        assert r'[i] == result[i] && result[i] in emitted;
      }
    }
  }

  /** A node whose predecessors are all listed, and which is no listed
      node's predecessor, can go last. */
  lemma ForwardStep(result: seq<string>, emitted: set<string>, g: Graphs.Graph, node: string)
    requires Listed(result, emitted) && Forward(result, g) && node !in emitted
    requires forall x :: x in emitted ==> !(node in g && x in g[node])
    requires !(node in g && node in g[node])
    ensures Forward(result + [node], g)
  {
    var r' := result + [node];
    forall i, j | 0 <= i < |r'| && 0 <= j < |r'| && r'[j] in g && r'[i] in g[r'[j]] ensures j < i {
      assert i < |result| ==> r'[i] == result[i] && result[i] in emitted;
      assert j < |result| ==> r'[j] == result[j];
    }
  }

  /** After the release the queue, before sorting, holds no repeats and
      exactly the unemitted nodes whose in-degree is now zero. */
  lemma QueueStep(nodeIds: set<string>, g: Graphs.Graph, d: map<string, nat>, emitted: set<string>, queue: seq<string>, node: string,
                  targets: seq<string>, d': map<string, nat>, queue': seq<string>)
    requires d.Keys == nodeIds && QueueHolds(nodeIds, d, emitted, queue)
    requires queue != [] && node == queue[|queue| - 1] && node in g
    requires forall t :: t in g[node] ==> t in nodeIds && t !in emitted && t != node && d[t] >= 1
    requires Seqs.Distinct(targets) && forall x :: x in targets <==> x in g[node]
    requires d'.Keys == d.Keys && forall n :: n in d' ==> d'[n] == if n in g[node] then d[n] - 1 else d[n]
    requires queue' == queue[..|queue| - 1] + NewlyFree(d, targets)
    ensures Seqs.Distinct(queue')
    ensures forall x :: x in queue' <==> x in nodeIds && x !in emitted + {node} && d'[x] == 0
  {
    NewlyFreeMembers(d, targets);
    var init := queue[..|queue| - 1];
    var free := NewlyFree(d, targets);
    IncreasingDistinct(queue);
    forall i, j | 0 <= i < j < |queue'| ensures queue'[i] != queue'[j] {
      if i < |init| && j >= |init| {
        assert queue'[j] == free[j - |init|];
        assert queue'[i] == queue[i] && queue[i] in queue;
      } else if i >= |init| {
        assert queue'[i] == free[i - |init|] && queue'[j] == free[j - |init|];
      } else {
        assert queue'[i] == queue[i] && queue'[j] == queue[j];
      }
    }
    forall x ensures x in queue' <==> x in nodeIds && x !in emitted + {node} && d'[x] == 0 {
      if x in init {
        var k :| 0 <= k < |init| && init[k] == x;
        assert queue[k] == x;
      }
      if x in nodeIds && x !in emitted + {node} && d'[x] == 0 && x !in targets {
        assert x in queue;
        var k :| 0 <= k < |queue| && queue[k] == x;
        assert init[k] == x;
      }
    }
  }

  /** When the queue runs dry every node has been emitted: otherwise each
      remaining node would have a remaining predecessor, and walking back
      along them would close a cycle. */
  lemma KahnDone(nodeIds: set<string>, g: Graphs.Graph, d: map<string, nat>, emitted: set<string>)
    requires g.Keys == nodeIds && Graphs.Acyclic(g)
    requires Counted(nodeIds, g, d, emitted)
    requires forall n :: n in nodeIds && n !in emitted ==> d[n] != 0
    ensures emitted == nodeIds
  {
    var rest := nodeIds - emitted;
    forall w | w in rest ensures Graphs.Preds(g, w) * rest != {} {
      RemainingPred(g, emitted, w, d[w]);
    }
    if rest != {} {
      Graphs.CycleFromPreds(g, rest);
      assert false;
    }
  }

  /** Before the first round nothing is emitted: the in-degrees count all
      predecessors. */
  lemma KahnStart(nodeIds: set<string>, g: Graphs.Graph, d: map<string, nat>)
    requires d.Keys == nodeIds && forall n :: n in d ==> d[n] == |Graphs.Preds(g, n)|
    ensures Counted(nodeIds, g, d, {})
  {
    forall n | n in nodeIds ensures d[n] == |Graphs.Preds(g, n) - {}| {
      assert Graphs.Preds(g, n) - {} == Graphs.Preds(g, n);
    }
  }

  /** One round of Kahn's algorithm: emitting the last queued node and
      releasing its successors keeps every part of the invariant. */
  lemma KahnRound(nodeIds: set<string>, g: Graphs.Graph, d: map<string, nat>, emitted: set<string>, result: seq<string>,
                  queue: seq<string>, node: string, targets: seq<string>, d': map<string, nat>, queue': seq<string>)
    requires g.Keys == nodeIds && Graphs.Closed(g)
    requires Listed(result, emitted) && Forward(result, g)
    requires Counted(nodeIds, g, d, emitted) && QueueHolds(nodeIds, d, emitted, queue)
    requires queue != [] && node == queue[|queue| - 1]
    requires node in nodeIds && node !in emitted && Graphs.Preds(g, node) <= emitted
    requires forall t :: t in g[node] ==> t in nodeIds && t !in emitted && t != node && d[t] >= 1
    requires Text.Increasing(targets) && forall x :: x in targets <==> x in g[node]
    requires d'.Keys == d.Keys && forall n :: n in d' ==> d'[n] == if n in targets then d[n] - 1 else d[n]
    requires queue' == queue[..|queue| - 1] + NewlyFree(d, targets)
    ensures Listed(result + [node], emitted + {node}) && Forward(result + [node], g)
    ensures Counted(nodeIds, g, d', emitted + {node})
    ensures Seqs.Distinct(queue')
    ensures forall x :: x in queue' <==> x in nodeIds && x !in emitted + {node} && d'[x] == 0
  {
    IncreasingDistinct(targets);
    QueueStep(nodeIds, g, d, emitted, queue, node, targets, d', queue');
    CountedStep(nodeIds, g, d, emitted, node, d');
    ListedStep(result, emitted, node);
    ForwardStep(result, emitted, g, node);
  }

  /** When the queue is empty, the result lists every node once with every
      edge pointing forward. */
  lemma KahnFinish(nodeIds: set<string>, g: Graphs.Graph, d: map<string, nat>, emitted: set<string>, result: seq<string>)
    requires g.Keys == nodeIds && Graphs.Acyclic(g)
    requires Listed(result, emitted) && Forward(result, g)
    requires Counted(nodeIds, g, d, emitted) && QueueHolds(nodeIds, d, emitted, [])
    ensures |result| == |nodeIds| && IsTopologicalOrder(result, nodeIds, g)
  {
    forall n | n in nodeIds && n !in emitted ensures d[n] != 0 {
      assert n !in [];
    }
    KahnDone(nodeIds, g, d, emitted);
    Seqs.DistinctCard(result);
  }

  lemma RemainingPred(g: Graphs.Graph, emitted: set<string>, w: string, n: nat)
    requires n == |Graphs.Preds(g, w) - emitted| && n != 0
    ensures Graphs.Preds(g, w) * (g.Keys - emitted) != {}
  {
    var u := Text.Element(Graphs.Preds(g, w) - emitted);
    assert u in Graphs.Preds(g, w) * (g.Keys - emitted);
  }

  /** The DAG of a compiled plan. */
  class Dag {
    const name: string
    var nodes: map<string, DagNode>
    var edges: Graphs.Graph
    var reverseEdges: Graphs.Graph

    /** Every node has an edge set and a reverse edge set, edges end at
        nodes, the reverse edges mirror the edges, and there is no cycle. */
    ghost predicate Valid()
      reads this
    {
      && edges.Keys == nodes.Keys
      && Graphs.Closed(edges)
      && Graphs.IsTranspose(edges, reverseEdges)
      && Graphs.Acyclic(edges)
    }

    /** `Dag::new`: no nodes and no edges. */
    constructor (name: string)
      ensures this.name == name && nodes == map[] && edges == map[] && reverseEdges == map[]
      ensures Valid()
    {
      this.name := name;
      nodes, edges, reverseEdges := map[], map[], map[];
    }

    /** `add_node`: a node whose id is taken is refused and nothing
        changes; otherwise the node is stored with empty edge sets. */
    method AddNode(node: DagNode) returns (r: Result<(), DagError>)
      modifies this
      ensures node.id in old(nodes) ==> r == Err(DuplicateNode(node.id)) && nodes == old(nodes) && edges == old(edges) && reverseEdges == old(reverseEdges)
      ensures node.id !in old(nodes) ==>
        r == Ok(()) && nodes == old(nodes)[node.id := node] &&
        edges == old(edges)[node.id := {}] && reverseEdges == old(reverseEdges)[node.id := {}]
      ensures old(Valid()) ==> Valid()
    {
      var id := node.id;
      if id in nodes {
        return Err(DuplicateNode(id));
      }
      ghost var wasValid := Valid();
      nodes := nodes[id := node];
      edges := edges[id := {}];
      reverseEdges := reverseEdges[id := {}];
      if wasValid {
        Graphs.AddNodeAcyclic(old(edges), id);
        forall v | v in reverseEdges ensures reverseEdges[v] == Graphs.Preds(edges, v) {
          if v != id {
            assert Graphs.Preds(edges, v) == Graphs.Preds(old(edges), v);
          }
        }
      }
      return Ok(());
    }

    /** `has_path`, a depth-first search that records the nodes it enters
        in `visited`. A `true` answer comes with a path; a `false` answer
        leaves `start` visited, `end` not newly visited, and every edge out
        of a newly visited node ending at a visited one, which is what makes
        the answer complete when the search starts from nothing. */
    method HasPath(start: string, end: string, visited: set<string>) returns (found: bool, visited': set<string>)
      ensures visited <= visited'
      ensures found ==> Graphs.Reachable(edges, start, end)
      ensures !found ==> start in visited' && end !in visited' - visited && Graphs.ClosedUnder(edges, visited' - visited, visited')
      decreases edges.Keys - visited
    {
      if start == end {
        Graphs.ReachableRefl(edges, start);
        return true, visited;
      }
      if start in visited {
        return false, visited;
      }
      visited' := visited + {start};
      if start in edges {
        var deps := Text.Sorted(edges[start]);
        for i := 0 to |deps|
          invariant visited + {start} <= visited'
          invariant end !in visited' - visited
          invariant Graphs.ClosedUnder(edges, visited' - visited - {start}, visited')
          invariant forall k :: 0 <= k < i ==> deps[k] in visited'
        {
          var f;
          f, visited' := HasPath(deps[i], end, visited');
          if f {
            Graphs.ReachableStep(edges, start, deps[i], end);
            return true, visited';
          }
        }
      }
      return false, visited';
    }

    /** `would_create_cycle`: the edge `from -> to` closes a cycle exactly
        when `to` already reaches `from`. */
    method WouldCreateCycle(from: string, to: string) returns (b: bool)
      ensures b <==> Graphs.Reachable(edges, to, from)
    {
      var seen;
      b, seen := HasPath(to, from, {});
      if !b {
        Graphs.NotReachableOutside(edges, seen, to, from);
      }
    }

    /** `add_edge`: both ends must be nodes, checked in that order, and the
        edge must not close a cycle; only then is it stored, in both
        directions. */
    method AddEdge(from: string, to: string) returns (r: Result<(), DagError>)
      modifies this
      ensures nodes == old(nodes)
      ensures from !in nodes ==> r == Err(NodeNotFound(from))
      ensures from in nodes && to !in nodes ==> r == Err(NodeNotFound(to))
      ensures from in nodes && to in nodes && Graphs.Reachable(old(edges), to, from) ==> r == Err(CycleDetected(from, to))
      ensures r.Err? ==> edges == old(edges) && reverseEdges == old(reverseEdges)
      ensures r == Ok(()) <==> from in nodes && to in nodes && !Graphs.Reachable(old(edges), to, from)
      ensures r.Ok? ==>
        edges == old(edges)[from := (if from in old(edges) then old(edges)[from] else {}) + {to}] &&
        reverseEdges == old(reverseEdges)[to := (if to in old(reverseEdges) then old(reverseEdges)[to] else {}) + {from}]
      ensures old(Valid()) ==> Valid()
    {
      if from !in nodes {
        return Err(NodeNotFound(from));
      }
      if to !in nodes {
        return Err(NodeNotFound(to));
      }
      var cycle := WouldCreateCycle(from, to);
      if cycle {
        return Err(CycleDetected(from, to));
      }
      ghost var wasValid := Valid();
      var out := if from in edges then edges[from] else {};
      edges := edges[from := out + {to}];
      var back := if to in reverseEdges then reverseEdges[to] else {};
      reverseEdges := reverseEdges[to := back + {from}];
      if wasValid {
        Graphs.AddEdgeAcyclic(old(edges), from, to);
        forall v | v in reverseEdges ensures reverseEdges[v] == Graphs.Preds(edges, v) {
          if v == to {
            assert Graphs.Preds(edges, v) == Graphs.Preds(old(edges), v) + {from};
          } else {
            assert Graphs.Preds(edges, v) == Graphs.Preds(old(edges), v);
          }
        }
      }
      return Ok(());
    }

    /** `topological_order` as written (see `TopologicalOrderAsWritten`). */
    method TopologicalOrder() returns (r: Result<seq<string>, DagError>)
      requires Valid()
      ensures r == TopologicalOrderAsWritten(nodes.Keys, edges)
    {
      var ids, g, rev := nodes.Keys, edges, reverseEdges;
      var inDegree := InDegrees(ids, g);
      var zeroSet := set n | n in inDegree && inDegree[n] == 0;
      var zeros := Text.Sorted(zeroSet);
      var result := Drain(g, rev, inDegree, zeros);
      AsWrittenEnd(ids, g, inDegree, zeroSet, zeros);
      r := if |result| != |nodes| then Err(UnknownCycle) else Ok(result);
    }

    /** Kahn's algorithm with the release step walking `edges`, the
        successors of the node just emitted: on a valid DAG it always
        succeeds and lists every node once, each edge pointing forward. */
    method TopologicalOrderCorrected() returns (r: Result<seq<string>, DagError>)
      requires Valid()
      ensures r.Ok? && IsTopologicalOrder(r.value, nodes.Keys, edges)
    {
      var ids, g := nodes.Keys, edges;
      var inDegree := InDegrees(ids, g);
      var queue := Text.Sorted(set n | n in inDegree && inDegree[n] == 0);
      var result := [];
      ghost var emitted := {};
      KahnStart(ids, g, inDegree);
      while queue != []
        invariant Listed(result, emitted) && Forward(result, g)
        invariant Counted(ids, g, inDegree, emitted)
        invariant QueueHolds(ids, inDegree, emitted, queue)
        decreases ids - emitted
      {
        var node := queue[|queue| - 1];
        KahnTargets(ids, g, inDegree, emitted, queue, node);
        var successors := Text.Sorted(g[node]);
        IncreasingFreshEach(successors);
        var d', q' := Release(inDegree, successors, queue[..|queue| - 1]);
        KahnRound(ids, g, inDegree, emitted, result, queue, node, successors, d', q');
        result := result + [node];
        emitted := emitted + {node};
        inDegree := d';
        queue := SortQueue(q');
      }
      KahnFinish(ids, g, inDegree, emitted, result);
      r := if |result| != |ids| then Err(UnknownCycle) else Ok(result);
    }

    /** `node`. */
    function Node(id: string): (r: Option<DagNode>)
      reads this
      ensures r.Some? <==> id in nodes
      ensures r.Some? ==> r.value == nodes[id]
    {
      if id in nodes then Some(nodes[id]) else None
    }

    /** `dependencies`: the nodes the edges of `id` point at (none for an
        unknown id). */
    function Dependencies(id: string): (r: set<string>)
      reads this
      ensures forall x :: x in r <==> id in edges && x in edges[id]
    {
      if id in edges then edges[id] else {}
    }

    /** `dependencies` as the field comment of `edges` ("node ->
        dependencies") and the tests of the compiler and the scheduler read
        it: the nodes with an edge into `id`, which run before it. These
        are the nodes whose as-written `dependencies` hold `id`, and on a
        valid DAG they are what the reverse edges store. */
    function DependenciesCorrected(id: string): (r: set<string>)
      reads this
      ensures forall u :: u in r <==> id in Dependencies(u)
      ensures Valid() ==> r == Dependents(id)
    {
      Graphs.Preds(edges, id)
    }

    /** `dependents`: the nodes with an edge to `id` (none for an unknown
        id). */
    function Dependents(id: string): (r: set<string>)
      reads this
      ensures forall x :: x in r <==> id in reverseEdges && x in reverseEdges[id]
    {
      if id in reverseEdges then reverseEdges[id] else {}
    }

    /** `len`. */
    function Len(): nat
      reads this
    {
      |nodes|
    }

    /** `is_empty`. */
    predicate IsEmpty()
      reads this
    {
      |nodes| == 0
    }

    /** `validate`: the topological order first, then every edge target
        must be a node. The order used is the corrected one, so a valid DAG
        always passes. */
    method Validate() returns (r: Result<(), DagError>)
      requires Valid()
      ensures r == Ok(())
    {
      var order := TopologicalOrderCorrected();
      var missing := FirstMissing(edges, nodes.Keys);
      assert missing == Ok(()) by { assert Graphs.Closed(edges); }
      r := if order.Err? then Err(UnknownCycle) else missing;
    }

    /** `validate` over the topological order as written: a DAG with any
        edge is reported as a cycle, one without edges passes. */
    method ValidateAsWritten() returns (r: Result<(), DagError>)
      requires Valid()
      ensures r == if Graphs.NoEdges(edges) then Ok(()) else Err(UnknownCycle)
    {
      var order := TopologicalOrder();
      var missing := FirstMissing(edges, nodes.Keys);
      assert missing == Ok(()) by { assert Graphs.Closed(edges); }
      r := if order.Err? then Err(order.error) else missing;
    }
  }

  /** The dependency check of `validate`: it walks the edges and reports
      an edge whose target has no node. The walk is in key order, so the
      reported edge is the first such one, but the contract states only
      that the reported edge is missing its target. */
  method FirstMissing(g: Graphs.Graph, nodeIds: set<string>) returns (r: Result<(), DagError>)
    ensures r == Ok(()) <==> forall u :: u in g ==> g[u] <= nodeIds
    ensures r.Err? ==>
      r.error.DependencyNotFound? && r.error.node in g &&
      r.error.dependency in g[r.error.node] && r.error.dependency !in nodeIds
  {
    var ks := InOrder(g.Keys);
    for i := 0 to |ks|
      invariant forall k :: 0 <= k < i ==> g[ks[k]] <= nodeIds
    {
      var deps := InOrder(g[ks[i]]);
      for j := 0 to |deps|
        invariant forall m :: 0 <= m < j ==> deps[m] in nodeIds
      {
        if deps[j] !in nodeIds {
          return Err(DependencyNotFound(ks[i], deps[j]));
        }
      }
    }
    forall u | u in g ensures g[u] <= nodeIds {
      var k :| 0 <= k < |ks| && ks[k] == u;
    }
    return Ok(());
  }

  /** On a valid DAG the two views agree: `y` is among the successors of
      `x` exactly when `x` is among the predecessors of `y`. */
  lemma DependentsMirrorDependencies(dag: Dag, x: string, y: string)
    requires dag.Valid() && x in dag.nodes && y in dag.nodes
    ensures y in dag.Dependencies(x) <==> x in dag.Dependents(y)
  {
  }

  /** The pop loop of `topological_order` as written, started on the
      sorted nodes of in-degree zero: each popped node releases along the
      transposed graph, which for a node nothing points into is empty, so
      the queue only shrinks and the result is the start list reversed. */
  method Drain(g: Graphs.Graph, rev: Graphs.Graph, inDegree: map<string, nat>, zeros: seq<string>) returns (result: seq<string>)
    requires Graphs.IsTranspose(g, rev) && Text.Increasing(zeros)
    requires forall n :: n in zeros ==> |Graphs.Preds(g, n)| == 0
    ensures result == Seqs.Reverse(zeros)
  {
    var queue, d := zeros, inDegree;
    result := [];
    ghost var k: nat := |zeros|;
    assert zeros[k..] == [];
    while queue != []
      invariant Popped(zeros, k, queue, result)
      decreases |queue|
    {
      var node := queue[|queue| - 1];
      PopLast(zeros, k, queue, result);
      queue := queue[..|queue| - 1];
      result := result + [node];
      k := k - 1;
      if node in rev {
        var dependents := InOrder(rev[node]);
        NoDependents(g, rev, node, dependents);
        ghost var before, q := d, queue;
        d, queue := Release(d, dependents, queue);
        SortedPrefix(zeros, k, before, q, queue);
        queue := SortQueue(queue);
      }
    }
    assert zeros[0..] == zeros;
  }

  /** The state of the pop loop when nothing is ever released: the queue
      is the first `k` zero-in-degree nodes, the result the rest, reversed. */
  ghost predicate Popped(zeros: seq<string>, k: nat, queue: seq<string>, result: seq<string>) {
    k <= |zeros| && queue == zeros[..k] && result == Seqs.Reverse(zeros[k..])
  }

  /** Popping the back of the queue moves the last element of the prefix to
      the end of the result. */
  lemma PopLast(zeros: seq<string>, k: nat, queue: seq<string>, result: seq<string>)
    requires Popped(zeros, k, queue, result) && queue != []
    ensures k > 0 && queue[|queue| - 1] == zeros[k - 1]
    ensures Popped(zeros, k - 1, queue[..|queue| - 1], result + [queue[|queue| - 1]])
  {
    assert zeros[k - 1..][1..] == zeros[k..];
  }

  /** A node nothing points into has no entry in the transposed graph to
      release, so the release step gets no targets. */
  lemma NoDependents(g: Graphs.Graph, rev: Graphs.Graph, node: string, dependents: seq<string>)
    requires Graphs.IsTranspose(g, rev) && node in rev && |Graphs.Preds(g, node)| == 0
    requires |dependents| == |rev[node]|
    ensures dependents == []
  {
    assert rev[node] == {};
  }

  /** Releasing no targets leaves the queue a prefix of a sorted sequence,
      which sorting does not change. */
  lemma SortedPrefix(zeros: seq<string>, k: nat, d: map<string, nat>, q: seq<string>, q': seq<string>)
    requires Text.Increasing(zeros) && k <= |zeros| && q == zeros[..k] && q' == q + NewlyFree(d, [])
    ensures Seqs.Distinct(q') && SortQueue(q') == q
  {
    assert q' == zeros[..k];
    IncreasingDistinct(q');
    Text.IncreasingUnique(SortQueue(q'), q');
  }

  /** Every node has in-degree zero exactly when there are no edges, and
      then the zero list is the sorted node list. */
  lemma AsWrittenEnd(nodeIds: set<string>, g: Graphs.Graph, d: map<string, nat>, zeroSet: set<string>, zeros: seq<string>)
    requires g.Keys == nodeIds && Graphs.Closed(g)
    requires d.Keys == nodeIds && forall n :: n in d ==> d[n] == |Graphs.Preds(g, n)|
    requires zeroSet == set n | n in d && d[n] == 0
    requires zeros == Text.Sorted(zeroSet)
    ensures |zeros| == |nodeIds| <==> Graphs.NoEdges(g)
    ensures Graphs.NoEdges(g) ==> zeros == Text.Sorted(nodeIds)
  {
    Graphs.SubsetCard(zeroSet, nodeIds);
    if Graphs.NoEdges(g) {
      forall n | n in nodeIds ensures n in zeroSet {
        assert Graphs.Preds(g, n) == {};
      }
      assert zeroSet == nodeIds;
    } else {
      var u :| u in g && g[u] != {};
      var v :| v in g[u];
      assert u in Graphs.Preds(g, v) && v !in zeroSet;
    }
  }

  /** The chain `a -> b -> c` of the topological-order test. */
  function Chain(): Graphs.Graph {
    map["a" := {"b"}, "b" := {"c"}, "c" := {}]
  }

  /** On the chain, the only topological order is `a, b, c`. */
  lemma ChainOrderUnique(order: seq<string>)
    requires IsTopologicalOrder(order, {"a", "b", "c"}, Chain())
    ensures order == ["a", "b", "c"]
  {
    Seqs.DistinctCard(order);
    assert (set x | x in order) == {"a", "b", "c"};
    assert |order| == 3;
    var ia :| 0 <= ia < |order| && order[ia] == "a";
    var ib :| 0 <= ib < |order| && order[ib] == "b";
    var ic :| 0 <= ic < |order| && order[ic] == "c";
    assert ia < ib by { assert order[ia] in Chain() && order[ib] in Chain()[order[ia]]; }
    assert ib < ic by { assert order[ib] in Chain() && order[ic] in Chain()[order[ib]]; }
  }

  /** The chain has edges, so the order as written reports a cycle. */
  lemma ChainAsWrittenFails()
    ensures TopologicalOrderAsWritten({"a", "b", "c"}, Chain()) == Err(UnknownCycle)
  {
    assert Chain()["a"] != {};
  }

  /** `test_dag_creation`: two distinct nodes make a DAG of size two. */
  method DagCreationExample() returns (n: nat)
    ensures n == 2
  {
    var dag := new Dag("test");
    var r1 := dag.AddNode(NewNode("a", ToolNode("tool1", "1.0.0")));
    var r2 := dag.AddNode(NewNode("b", ToolNode("tool2", "1.0.0")));
    n := dag.Len();
  }

  /** `test_dag_cycle_detection`: after `a -> b`, adding `b -> a` is refused
      as a cycle. */
  method CycleDetectionExample() returns (first: Result<(), DagError>, second: Result<(), DagError>)
    ensures first == Ok(()) && second == Err(CycleDetected("b", "a"))
  {
    var dag := new Dag("test");
    var r1 := dag.AddNode(NewNode("a", ToolNode("tool1", "1.0.0")));
    var r2 := dag.AddNode(NewNode("b", ToolNode("tool2", "1.0.0")));
    Graphs.NotReachableOutside(dag.edges, {"b"}, "b", "a");
    first := dag.AddEdge("a", "b");
    ReachableAlongEdge(dag.edges, "a", "b");
    second := dag.AddEdge("b", "a");
  }

  lemma ReachableAlongEdge(g: Graphs.Graph, a: string, b: string)
    requires a in g && b in g[a]
    ensures Graphs.Reachable(g, a, b)
  {
    Graphs.ReachableRefl(g, b);
    Graphs.ReachableStep(g, a, b, b);
  }

  /** Three tool nodes and no edges yet. */
  method ThreeNodes() returns (dag: Dag)
    ensures fresh(dag) && dag.Valid()
    ensures dag.nodes.Keys == {"a", "b", "c"} && dag.edges == map["a" := {}, "b" := {}, "c" := {}]
  {
    dag := new Dag("test");
    var r1 := dag.AddNode(NewNode("a", ToolNode("tool1", "1.0.0")));
    var r2 := dag.AddNode(NewNode("b", ToolNode("tool2", "1.0.0")));
    var r3 := dag.AddNode(NewNode("c", ToolNode("tool3", "1.0.0")));
  }

  /** The DAG of `test_topological_order`: three tool nodes and the edges
      `a -> b` and `b -> c`. */
  method BuildChain() returns (dag: Dag)
    ensures fresh(dag) && dag.Valid()
    ensures dag.nodes.Keys == {"a", "b", "c"} && dag.edges == Chain()
  {
    dag := ThreeNodes();
    Graphs.NotReachableOutside(dag.edges, {"b"}, "b", "a");
    ghost var g0 := dag.edges;
    var e1 := dag.AddEdge("a", "b");
    assert dag.edges == g0["a" := g0["a"] + {"b"}];
    ChainStep(g0);
    Graphs.NotReachableOutside(dag.edges, {"c"}, "c", "b");
    ghost var g1 := dag.edges;
    var e2 := dag.AddEdge("b", "c");
    assert dag.edges == g1["b" := g1["b"] + {"c"}];
    ChainStep(g0);
  }

  /** The edge maps on the way to the chain. */
  lemma ChainStep(g0: Graphs.Graph)
    requires g0 == map["a" := {}, "b" := {}, "c" := {}]
    ensures g0["a" := g0["a"] + {"b"}] == map["a" := {"b"}, "b" := {}, "c" := {}]
    ensures var g1 := map["a" := {"b"}, "b" := {}, "c" := {}]; g1["b" := g1["b"] + {"c"}] == Chain()
  {
    assert {} + {"b"} == {"b"} && {} + {"c"} == {"c"};
  }

  /** `test_topological_order` on the chain `a -> b -> c`: the order as
      written fails with a cycle error, the corrected one gives `a, b, c`,
      which the test expects. */
  method TopologicalOrderExample() returns (asWritten: Result<seq<string>, DagError>, corrected: Result<seq<string>, DagError>)
    ensures asWritten == Err(UnknownCycle)
    ensures corrected == Ok(["a", "b", "c"])
  {
    var dag := BuildChain();
    ChainAsWrittenFails();
    asWritten := dag.TopologicalOrder();
    corrected := dag.TopologicalOrderCorrected();
    ChainOrderUnique(corrected.value);
  }
}
