/** The DAG scheduler with backpressure
    (crates/oracle_omen_runtime/src/scheduler.rs): a queue of ready nodes,
    a table of pending nodes with the dependencies they still wait for, and
    a table of running tasks bounded by `max_concurrent`. */
module RuntimeScheduler {
  import opened Wrappers
  import Text
  import Seqs
  import Graphs
  import PlanDag
  import RuntimeExecutor

  /** `RunningTask { node_id, start_time }`, built by `RunningTask::new`. */
  datatype RunningTask = RunningTask(nodeId: string, startTime: nat)

  /** `dag.dependencies(n)`: the edge set filed under `n`, empty for an
      unknown node. */
  function Deps(g: Graphs.Graph, n: string): (r: set<string>)
    ensures n in g ==> r == g[n]
    ensures n !in g ==> r == {}
  {
    if n in g then g[n] else {}
  }

  /** The nodes of `order` that `initialize` pushes onto the ready queue,
      in order: those without dependencies. */
  function ReadyOf(order: seq<string>, g: Graphs.Graph): seq<string>
    decreases |order|
  {
    if order == [] then []
    else
      var last := order[|order| - 1];
      ReadyOf(order[..|order| - 1], g) + (if Deps(g, last) == {} then [last] else [])
  }

  /** The ready nodes are exactly the listed nodes without dependencies,
      each as often as the order lists it. */
  lemma {:induction false} ReadyOfMembers(order: seq<string>, g: Graphs.Graph)
    ensures forall x :: x in ReadyOf(order, g) <==> x in order && Deps(g, x) == {}
    ensures Seqs.Distinct(order) ==> Seqs.Distinct(ReadyOf(order, g))
    decreases |order|
  {
    if order != [] {
      var init, last := order[..|order| - 1], order[|order| - 1];
      assert order == init + [last];
      ReadyOfMembers(init, g);
      if Seqs.Distinct(order) {
        forall i | 0 <= i < |init| ensures init[i] != last { assert init[i] == order[i]; }
        assert Seqs.Distinct(init);
        var r := ReadyOf(order, g);
        forall i, j | 0 <= i < j < |r| ensures r[i] != r[j] {
          if j == |r| - 1 && Deps(g, last) == {} {
            assert r[i] in ReadyOf(init, g);
          } else {
            assert r[i] == ReadyOf(init, g)[i] && r[j] == ReadyOf(init, g)[j];
          }
        }
      }
    }
  }

  /** `l` lists the members of `s`, each once. */
  ghost predicate Lists(l: seq<string>, s: set<string>) {
    PlanDag.FreshEach(l) && forall y :: y in l <==> y in s
  }

  /** What `initialize` leaves in `pending` after walking `order`, starting
      from `p0`: every walked node with dependencies is filed with a list
      of them (the source collects a hash set, so the list's order is not
      fixed), and every other entry is as it was. */
  ghost predicate Enqueued(p0: map<string, seq<string>>, order: seq<string>, g: Graphs.Graph, p: map<string, seq<string>>) {
    && (forall x :: x in p <==> x in p0 || (x in order && Deps(g, x) != {}))
    && (forall x :: x in p && x in order && Deps(g, x) != {} ==> Lists(p[x], Deps(g, x)))
    && (forall x :: x in p && !(x in order && Deps(g, x) != {}) ==> p[x] == p0[x])
  }

  /** The queues `initialize` leaves when it walks the topological order
      `order` of a DAG, starting from `ready0` and `p0`. */
  ghost predicate InitializedBy(order: seq<string>, nodeIds: set<string>, g: Graphs.Graph,
                                ready0: seq<string>, p0: map<string, seq<string>>, ready: seq<string>, p: map<string, seq<string>>) {
    PlanDag.IsTopologicalOrder(order, nodeIds, g) && ready == ready0 + ReadyOf(order, g) && Enqueued(p0, order, g, p)
  }

  /** The queues `complete(node)` leaves, from `ready0` and `p0`: one
      occurrence of `node` leaves every pending list, the nodes whose list
      was exactly `[node]` leave `pending`, and they join the back of the
      ready queue, each once, in an order that is not fixed. */
  ghost predicate Completed(ready0: seq<string>, p0: map<string, seq<string>>, node: string,
                            ready: seq<string>, p: map<string, seq<string>>) {
    && (forall x :: x in p <==> x in p0 && p0[x] != [node])
    && (forall x :: x in p ==> p[x] == RemoveFirst(p0[x], node))
    && |ready0| <= |ready| && ready[..|ready0|] == ready0
    && Lists(ready[|ready0|..], set x | x in p0 && p0[x] == [node])
  }

  /** The queues respect the dependency graph `deps` (node -> the nodes it
      waits for) once the nodes of `done` have completed: every ready node
      has all its dependencies done, and every pending node lists, once
      each, exactly its dependencies not yet done, of which there is at
      least one. */
  ghost predicate Waits(ready: seq<string>, p: map<string, seq<string>>, deps: Graphs.Graph, done: set<string>) {
    && (forall x :: x in ready ==> Deps(deps, x) <= done)
    && (forall x :: x in p ==> p[x] != [] && Lists(p[x], Deps(deps, x) - done))
  }

  /** `deps.iter().position(|d| d == x)`: the first index holding `x`. */
  function Position(s: seq<string>, x: string): (r: Option<nat>)
    ensures r.None? <==> x !in s
    ensures r.Some? ==> r.value < |s| && s[r.value] == x && x !in s[..r.value]
  {
    if s == [] then None
    else if s[0] == x then Some(0)
    else
      match Position(s[1..], x)
      case None => None
      case Some(p) =>
        assert s[..p + 1] == [s[0]] + s[1..][..p];
        Some(p + 1)
  }

  /** The list after `deps.remove(pos)` at that first index, or unchanged
      when `x` is absent. */
  function RemoveFirst(s: seq<string>, x: string): seq<string> {
    match Position(s, x)
    case None => s
    case Some(p) => s[..p] + s[p + 1..]
  }

  /** Removing the first occurrence takes exactly one copy of `x` out of
      the list and keeps everything else. */
  lemma RemoveFirstSpec(s: seq<string>, x: string)
    ensures multiset(RemoveFirst(s, x)) == multiset(s) - multiset{x}
    ensures x !in s ==> RemoveFirst(s, x) == s
  {
    match Position(s, x)
    case None =>
      assert multiset(s)[x] == 0;
    case Some(p) =>
      assert s == s[..p] + [x] + s[p + 1..];
      assert multiset(s) == multiset(s[..p]) + multiset{x} + multiset(s[p + 1..]);
  }

  /** Removing `x` empties a list exactly when the list was `[x]`. */
  lemma RemoveFirstEmpty(s: seq<string>, x: string)
    ensures (Position(s, x).Some? && RemoveFirst(s, x) == []) <==> s == [x]
    ensures Position(s, x).None? ==> RemoveFirst(s, x) == s
  {
    match Position(s, x)
    case None =>
    case Some(p) =>
      assert |RemoveFirst(s, x)| == |s| - 1;
      if s == [x] { assert p == 0; }
  }

  /** `Scheduler`. */
  class Scheduler {
    var ready: seq<string>
    var pending: map<string, seq<string>>
    var running: map<string, RunningTask>
    const maxConcurrent: nat

    /** Every pending node still waits for something. */
    ghost predicate Valid()
      reads this
    {
      forall n :: n in pending ==> pending[n] != []
    }

    /** `Scheduler::new`: all three containers empty. */
    constructor (maxConcurrent: nat)
      ensures this.maxConcurrent == maxConcurrent
      ensures ready == [] && pending == map[] && running == map[]
      ensures Valid()
    {
      this.maxConcurrent := maxConcurrent;
      ready, pending, running := [], map[], map[];
    }

    /** `initialize` as written: the DAG's `topological_order` fails on
        every DAG with an edge, and that error is returned as
        `InvalidState` with nothing changed; on a DAG without edges every
        node goes to the back of the ready queue, in the order
        `topological_order` returns. */
    method Initialize(dag: PlanDag.Dag) returns (r: Result<(), RuntimeExecutor.ExecError>)
      requires dag.Valid()
      modifies this
      ensures !Graphs.NoEdges(dag.edges) ==>
        r == Err(RuntimeExecutor.InvalidState(PlanDag.DagErrorText(PlanDag.UnknownCycle))) &&
        ready == old(ready) && pending == old(pending) && running == old(running)
      ensures Graphs.NoEdges(dag.edges) ==>
        r == Ok(()) && ready == old(ready) + Seqs.Reverse(Text.Sorted(dag.nodes.Keys)) &&
        pending == old(pending) && running == old(running)
      ensures old(Valid()) ==> Valid()
    {
      var order := dag.TopologicalOrder();
      if order.Err? {
        return Err(RuntimeExecutor.InvalidState(PlanDag.DagErrorText(PlanDag.UnknownCycle)));
      }
      Enqueue(order.value, dag.edges);
      if old(Valid()) {
        EnqueuedValid(old(pending), order.value, dag.edges, pending);
      }
      ReadyOfNoEdges(order.value, dag.edges);
      NoEdgesEnqueued(old(pending), order.value, dag.edges, pending);
      r := Ok(());
    }

    /** `initialize` over a correct topological order: every node of the
        DAG is either ready (it has no dependencies) or pending with a list
        of exactly its dependencies. */
    method InitializeCorrected(dag: PlanDag.Dag) returns (r: Result<(), RuntimeExecutor.ExecError>)
      requires dag.Valid()
      modifies this
      ensures r == Ok(()) && running == old(running)
      ensures exists order :: InitializedBy(order, dag.nodes.Keys, dag.edges, old(ready), old(pending), ready, pending)
      ensures forall x :: x in dag.nodes ==> (x in ready && Deps(dag.edges, x) == {}) || (x in pending && Lists(pending[x], Deps(dag.edges, x)))
      ensures old(Valid()) ==> Valid()
    {
      var order := dag.TopologicalOrderCorrected();
      Enqueue(order.value, dag.edges);
      if old(Valid()) {
        EnqueuedValid(old(pending), order.value, dag.edges, pending);
      }
      ReadyOfMembers(order.value, dag.edges);
      assert InitializedBy(order.value, dag.nodes.Keys, dag.edges, old(ready), old(pending), ready, pending);
      r := Ok(());
    }

    /** `initialize` as the scheduler's test expects it: the corrected
        topological order, and for each node its corrected dependencies
        (the nodes with an edge into it, the reverse edges). Every node is
        ready when nothing points into it and pending on exactly its
        predecessors otherwise, and the queues respect the DAG with
        nothing completed yet. */
    method InitializeIntended(dag: PlanDag.Dag) returns (r: Result<(), RuntimeExecutor.ExecError>)
      requires dag.Valid()
      modifies this
      ensures r == Ok(()) && running == old(running)
      ensures exists order ::
        (PlanDag.IsTopologicalOrder(order, dag.nodes.Keys, dag.edges) &&
         ready == old(ready) + ReadyOf(order, dag.reverseEdges) && Enqueued(old(pending), order, dag.reverseEdges, pending))
      ensures forall x :: x in dag.nodes ==>
        (x in ready && dag.DependenciesCorrected(x) == {}) || (x in pending && Lists(pending[x], dag.DependenciesCorrected(x)))
      ensures Waits(old(ready), old(pending), dag.reverseEdges, {}) ==> Waits(ready, pending, dag.reverseEdges, {})
      ensures old(Valid()) ==> Valid()
    {
      var order := dag.TopologicalOrderCorrected();
      Enqueue(order.value, dag.reverseEdges);
      if old(Valid()) {
        EnqueuedValid(old(pending), order.value, dag.reverseEdges, pending);
      }
      ReadyOfMembers(order.value, dag.reverseEdges);
      forall x | x in dag.nodes ensures Deps(dag.reverseEdges, x) == dag.DependenciesCorrected(x) {
      }
      if Waits(old(ready), old(pending), dag.reverseEdges, {}) {
        EnqueuedWaits(old(ready), old(pending), order.value, dag.reverseEdges, pending);
      }
      r := Ok(());
    }

    /** The loop of `initialize` over an order: nodes without dependencies
        go to the back of the ready queue, the others into `pending`. */
    method Enqueue(order: seq<string>, g: Graphs.Graph)
      modifies this
      ensures ready == old(ready) + ReadyOf(order, g)
      ensures running == old(running)
      ensures Enqueued(old(pending), order, g, pending)
    {
      ghost var p0 := pending;
      var i := 0;
      EnqueueStart(p0, order, g);
      while i < |order|
        invariant i <= |order|
        invariant ready == old(ready) + ReadyOf(order[..i], g)
        invariant running == old(running)
        invariant Enqueued(p0, order[..i], g, pending)
      {
        ghost var p := pending;
        EnqueueOne(order[i], g);
        PrefixSnoc(order, i);
        EnqueueStep(p0, order[..i], order[..i + 1], order[i], g, p, pending);
        ReadyOfSnoc(order, i, g);
        i := i + 1;
      }
      assert order[..i] == order;
    }

    /** One round of that loop. */
    method EnqueueOne(n: string, g: Graphs.Graph)
      modifies this
      ensures Deps(g, n) == {} ==> ready == old(ready) + [n] && pending == old(pending)
      ensures Deps(g, n) != {} ==>
        ready == old(ready) && n in pending && Lists(pending[n], Deps(g, n)) && pending == old(pending)[n := pending[n]]
      ensures running == old(running)
    {
      var deps := Deps(g, n);
      if deps == {} {
        ready := ready + [n];
      } else {
        var list := PlanDag.InOrder(deps);
        pending := pending[n := list];
      }
    }

    /** `next` as written: nothing while `max_concurrent` tasks run,
        otherwise the front of the ready queue. It never records the node
        as running. */
    method Next() returns (n: Option<string>)
      modifies this
      ensures |old(running)| >= maxConcurrent ==> n == None && ready == old(ready)
      ensures |old(running)| < maxConcurrent && old(ready) == [] ==> n == None && ready == []
      ensures |old(running)| < maxConcurrent && old(ready) != [] ==> n == Some(old(ready)[0]) && ready == old(ready)[1..]
      ensures pending == old(pending) && running == old(running)
    {
      if |running| >= maxConcurrent {
        return None;
      }
      if ready == [] {
        return None;
      }
      n := Some(ready[0]);
      ready := ready[1..];
    }

    /** `next` as the backpressure test expects it: the node handed out is
        recorded as running, so at most `max_concurrent` tasks are ever
        handed out without a `complete`. */
    method NextCorrected(startTime: nat) returns (n: Option<string>)
      modifies this
      ensures |old(running)| >= maxConcurrent ==> n == None && ready == old(ready) && running == old(running)
      ensures |old(running)| < maxConcurrent && old(ready) == [] ==> n == None && ready == [] && running == old(running)
      ensures |old(running)| < maxConcurrent && old(ready) != [] ==>
        n == Some(old(ready)[0]) && ready == old(ready)[1..] && running == old(running)[old(ready)[0] := RunningTask(old(ready)[0], startTime)]
      ensures pending == old(pending)
      ensures |old(running)| <= maxConcurrent ==> |running| <= maxConcurrent
    {
      if |running| >= maxConcurrent || ready == [] {
        return None;
      }
      var id := ready[0];
      n := Some(id);
      ready := ready[1..];
      running := running[id := RunningTask(id, startTime)];
    }

    /** `start`: the started node is recorded as running under its id. */
    method Start(nodeId: string, task: RunningTask)
      modifies this
      ensures running == old(running)[nodeId := task]
      ensures ready == old(ready) && pending == old(pending)
    {
      running := running[nodeId := task];
    }

    /** `complete`: the node stops running, one occurrence of it leaves
        every pending list, and the nodes whose list became empty move
        from `pending` to the back of the ready queue (in the order the
        source's hash map yields them, which is not fixed). */
    method Complete(nodeId: string) returns (r: Result<(), RuntimeExecutor.ExecError>)
      modifies this
      ensures r == Ok(())
      ensures running == old(running) - {nodeId}
      ensures Completed(old(ready), old(pending), nodeId, ready, pending)
      ensures old(Valid()) ==> Valid()
    {
      r := Ok(());
      running := running - {nodeId};
      var ks := PlanDag.InOrder(pending.Keys);
      var newly := DropDependency(ks, nodeId);
      Promote(newly);
      assert ready[|old(ready)|..] == newly;
      if old(Valid()) {
        forall x | x in pending ensures pending[x] != [] {
          RemoveFirstEmpty(old(pending)[x], nodeId);
        }
      }
    }

    /** The first loop of `complete`: take `node` out of each pending list
        and collect the keys whose list became empty. */
    method DropDependency(ks: seq<string>, node: string) returns (newly: seq<string>)
      requires PlanDag.FreshEach(ks) && forall x :: x in ks <==> x in pending
      modifies this
      ensures pending.Keys == old(pending).Keys
      ensures forall x :: x in pending ==> pending[x] == RemoveFirst(old(pending)[x], node)
      ensures Lists(newly, set x | x in old(pending) && old(pending)[x] == [node])
      ensures ready == old(ready) && running == old(running)
    {
      ghost var p0 := pending;
      newly := [];
      var i := 0;
      while i < |ks|
        invariant i <= |ks|
        invariant Dropped(p0, ks, i, node, pending, newly)
        invariant ready == old(ready) && running == old(running)
      {
        var id := ks[i];
        ghost var p, nw := pending, newly;
        DroppedLookup(p0, ks, i, node, pending, newly);
        var deps := pending[id];
        var pos := Position(deps, node);
        RemoveFirstEmpty(deps, node);
        if pos.Some? {
          var rest := deps[..pos.value] + deps[pos.value + 1..];
          pending := pending[id := rest];
          if rest == [] {
            newly := newly + [id];
          }
        } else {
          assert pending == pending[id := deps];
        }
        DropStep(p0, ks, i, node, p, nw, pending, newly);
        i := i + 1;
      }
      DropEnd(p0, ks, node, pending, newly);
    }

    /** The second loop of `complete`: each collected key leaves `pending`
        and joins the back of the ready queue. */
    method Promote(newly: seq<string>)
      modifies this
      ensures ready == old(ready) + newly
      ensures forall x :: x in pending <==> x in old(pending) && x !in newly
      ensures forall x :: x in pending ==> pending[x] == old(pending)[x]
      ensures running == old(running)
    {
      var i := 0;
      while i < |newly|
        invariant i <= |newly|
        invariant ready == old(ready) + newly[..i]
        invariant forall x :: x in pending <==> x in old(pending) && x !in newly[..i]
        invariant forall x :: x in pending ==> pending[x] == old(pending)[x]
        invariant running == old(running)
      {
        PromoteStep(newly, i);
        pending := pending - {newly[i]};
        ready := ready + [newly[i]];
        i := i + 1;
      }
      assert newly[..i] == newly;
    }

    /** `is_complete`: nothing ready, running or pending. */
    predicate IsComplete()
      reads this
    {
      ready == [] && running == map[] && pending == map[]
    }

    /** `running_count`. */
    function RunningCount(): nat
      reads this
    {
      |running|
    }

    /** `ready_count`. */
    function ReadyCount(): nat
      reads this
    {
      |ready|
    }
  }

  // ---------------------------------------------------------------------
  // Loop bookkeeping

  lemma EnqueueStart(p0: map<string, seq<string>>, order: seq<string>, g: Graphs.Graph)
    ensures Enqueued(p0, order[..0], g, p0) && ReadyOf(order[..0], g) == []
  {
    assert order[..0] == [];
  }

  lemma EnqueueStep(p0: map<string, seq<string>>, done: seq<string>, done': seq<string>, n: string, g: Graphs.Graph,
                    p: map<string, seq<string>>, p': map<string, seq<string>>)
    requires forall x :: x in done' <==> x in done || x == n
    requires Enqueued(p0, done, g, p)
    requires Deps(g, n) == {} ==> p' == p
    requires Deps(g, n) != {} ==> n in p' && Lists(p'[n], Deps(g, n)) && p' == p[n := p'[n]]
    ensures Enqueued(p0, done', g, p')
  {
    forall x ensures x in p' <==> x in p0 || (x in done' && Deps(g, x) != {}) {
      if x != n { assert x in p' <==> x in p; }
    }
    forall x | x in p' && x in done' && Deps(g, x) != {} ensures Lists(p'[x], Deps(g, x)) {
      if x != n { assert x in done && p'[x] == p[x]; }
    }
    forall x | x in p' && !(x in done' && Deps(g, x) != {}) ensures p'[x] == p0[x] {
      if x != n { assert !(x in done && Deps(g, x) != {}) && p'[x] == p[x]; }
    }
  }

  lemma ReadyOfSnoc(order: seq<string>, i: nat, g: Graphs.Graph)
    requires i < |order|
    ensures ReadyOf(order[..i + 1], g) == ReadyOf(order[..i], g) + (if Deps(g, order[i]) == {} then [order[i]] else [])
  {
    var init := order[..i + 1];
    assert init[..|init| - 1] == order[..i];
  }

  /** A graph without edges makes every node ready and files nothing. */
  lemma ReadyOfNoEdges(order: seq<string>, g: Graphs.Graph)
    requires Graphs.NoEdges(g)
    ensures ReadyOf(order, g) == order
    decreases |order|
  {
    if order != [] {
      ReadyOfNoEdges(order[..|order| - 1], g);
      assert order == order[..|order| - 1] + [order[|order| - 1]];
    }
  }

  lemma EnqueuedValid(p0: map<string, seq<string>>, order: seq<string>, g: Graphs.Graph, p: map<string, seq<string>>)
    requires Enqueued(p0, order, g, p) && forall n :: n in p0 ==> p0[n] != []
    ensures forall n :: n in p ==> p[n] != []
  {
    forall n | n in p ensures p[n] != [] {
      if n in order && Deps(g, n) != {} {
        var y := Text.Element(Deps(g, n));
        assert y in p[n];
      }
    }
  }

  lemma NoEdgesEnqueued(p0: map<string, seq<string>>, order: seq<string>, g: Graphs.Graph, p: map<string, seq<string>>)
    requires Graphs.NoEdges(g) && Enqueued(p0, order, g, p)
    ensures p == p0
  {
    assert forall x :: Deps(g, x) == {};
  }

  /** The state of `complete`'s first loop after `i` keys of `ks`. */
  ghost predicate Dropped(p0: map<string, seq<string>>, ks: seq<string>, i: nat, node: string,
                          p: map<string, seq<string>>, newly: seq<string>) {
    && i <= |ks|
    && p.Keys == p0.Keys
    && (forall x :: x in p && x in ks[..i] ==> p[x] == RemoveFirst(p0[x], node))
    && (forall x :: x in p && x !in ks[..i] ==> p[x] == p0[x])
    && PlanDag.FreshEach(newly)
    && (forall x :: x in newly <==> x in ks[..i] && x in p0 && p0[x] == [node])
  }

  lemma DroppedLookup(p0: map<string, seq<string>>, ks: seq<string>, i: nat, node: string,
                      p: map<string, seq<string>>, newly: seq<string>)
    requires PlanDag.FreshEach(ks) && (forall x :: x in ks <==> x in p0)
    requires Dropped(p0, ks, i, node, p, newly) && i < |ks|
    ensures ks[i] in p && p[ks[i]] == p0[ks[i]]
  {
    assert ks[i] !in ks[..i];
  }

  lemma DropStep(p0: map<string, seq<string>>, ks: seq<string>, i: nat, node: string,
                 p: map<string, seq<string>>, newly: seq<string>, p': map<string, seq<string>>, newly': seq<string>)
    requires PlanDag.FreshEach(ks) && (forall x :: x in ks <==> x in p0)
    requires Dropped(p0, ks, i, node, p, newly) && i < |ks|
    requires p' == p[ks[i] := RemoveFirst(p0[ks[i]], node)]
    requires newly' == newly + (if p0[ks[i]] == [node] then [ks[i]] else [])
    ensures Dropped(p0, ks, i + 1, node, p', newly')
  {
    var id := ks[i];
    PrefixSnoc(ks, i);
    assert id !in ks[..i];
    DropStepMap(p0, ks[..i], ks[..i + 1], id, node, p, p');
    assert id !in newly;
    FreshSnoc(newly, id);
    forall x ensures x in newly' <==> x in ks[..i + 1] && x in p0 && p0[x] == [node] {
      if x != id { assert x in newly' <==> x in newly; }
    }
  }

  lemma DropStepMap(p0: map<string, seq<string>>, done: seq<string>, done': seq<string>, id: string, node: string,
                    p: map<string, seq<string>>, p': map<string, seq<string>>)
    requires id in p0 && id !in done && forall x :: x in done' <==> x in done || x == id
    requires p.Keys == p0.Keys
    requires forall x :: x in p && x in done ==> p[x] == RemoveFirst(p0[x], node)
    requires forall x :: x in p && x !in done ==> p[x] == p0[x]
    requires p' == p[id := RemoveFirst(p0[id], node)]
    ensures p'.Keys == p0.Keys
    ensures forall x :: x in p' && x in done' ==> p'[x] == RemoveFirst(p0[x], node)
    ensures forall x :: x in p' && x !in done' ==> p'[x] == p0[x]
  {
  }

  lemma PrefixSnoc(ks: seq<string>, i: nat)
    requires i < |ks|
    ensures forall x :: x in ks[..i + 1] <==> x in ks[..i] || x == ks[i]
  {
    assert ks[..i + 1] == ks[..i] + [ks[i]];
  }

  lemma FreshSnoc(s: seq<string>, x: string)
    requires PlanDag.FreshEach(s) && x !in s
    ensures PlanDag.FreshEach(s + [x])
  {
    var s' := s + [x];
    forall j | 0 <= j < |s'| ensures s'[j] !in s'[..j] {
      if j < |s| { assert s'[..j] == s[..j]; } else { assert s'[..j] == s; }
    }
  }

  lemma DropEnd(p0: map<string, seq<string>>, ks: seq<string>, node: string, p: map<string, seq<string>>, newly: seq<string>)
    requires (forall x :: x in ks <==> x in p0) && Dropped(p0, ks, |ks|, node, p, newly)
    ensures forall x :: x in p ==> p[x] == RemoveFirst(p0[x], node)
    ensures Lists(newly, set x | x in p0 && p0[x] == [node])
  {
    assert ks[..|ks|] == ks;
  }

  lemma PromoteStep(newly: seq<string>, i: nat)
    requires i < |newly|
    ensures newly[..i + 1] == newly[..i] + [newly[i]]
    ensures forall x :: x in newly[..i + 1] <==> x in newly[..i] || x == newly[i]
  {
    assert newly[..i + 1] == newly[..i] + [newly[i]];
  }

  // ---------------------------------------------------------------------
  // Dependencies are respected

  /** Removing a member from a list that holds each member of `s` once
      leaves a list that holds each member of `s - {x}` once; removing a
      non-member changes nothing. */
  lemma RemoveFirstLists(l: seq<string>, s: set<string>, x: string)
    requires Lists(l, s)
    ensures Lists(RemoveFirst(l, x), s - {x})
  {
    var pos := Position(l, x);
    if pos.Some? {
      var p := pos.value;
      var r := l[..p] + l[p + 1..];
      assert RemoveFirst(l, x) == r;
      FreshEachDistinct(l);
      RemoveAtDistinct(l, p);
      DistinctFreshEach(r);
      RemoveAtMembers(l, p);
    }
  }

  /** Taking out the entry at `p` keeps every other entry. */
  lemma RemoveAtMembers(l: seq<string>, p: nat)
    requires p < |l|
    ensures forall y :: y in l <==> y in l[..p] + l[p + 1..] || y == l[p]
  {
    assert l == l[..p] + [l[p]] + l[p + 1..];
  }

  /** Taking out the entry at `p` of a list without repeats leaves a list
      without repeats, which no longer holds that entry. */
  lemma RemoveAtDistinct(l: seq<string>, p: nat)
    requires Seqs.Distinct(l) && p < |l|
    ensures Seqs.Distinct(l[..p] + l[p + 1..]) && l[p] !in l[..p] + l[p + 1..]
  {
    var r := l[..p] + l[p + 1..];
    forall i, j | 0 <= i < j < |r| ensures r[i] != r[j] {
      var a := if i < p then i else i + 1;
      var b := if j < p then j else j + 1;
      assert r[i] == l[a] && r[j] == l[b];
    }
    forall i | 0 <= i < |r| ensures r[i] != l[p] {
      var a := if i < p then i else i + 1;
      assert r[i] == l[a];
    }
  }

  /** A list without repeats is a list in which each entry is new. */
  lemma DistinctFreshEach(r: seq<string>)
    requires Seqs.Distinct(r)
    ensures PlanDag.FreshEach(r)
  {
    forall i | 0 <= i < |r| ensures r[i] !in r[..i] {
      forall k | 0 <= k < i ensures r[..i][k] != r[i] {
        assert r[..i][k] == r[k];
      }
    }
  }

  /** Walking an order with `initialize` from queues that respect `deps`
      with nothing done keeps them respecting it: a node goes to the ready
      queue only when it has no dependencies, and otherwise is pending on
      all of them. */
  lemma EnqueuedWaits(ready0: seq<string>, p0: map<string, seq<string>>, order: seq<string>, deps: Graphs.Graph, p: map<string, seq<string>>)
    requires Waits(ready0, p0, deps, {}) && Enqueued(p0, order, deps, p)
    ensures Waits(ready0 + ReadyOf(order, deps), p, deps, {})
  {
    ReadyOfMembers(order, deps);
    forall x | x in p && x in order && Deps(deps, x) != {} ensures p[x] != [] {
      var y := Text.Element(Deps(deps, x));
    }
  }

  /** `next` hands out only a node whose dependencies have all completed:
      if the queues respect `deps` with `done` completed, the front of the
      ready queue has every dependency in `done`, and the queues left
      behind still respect `deps`. */
  lemma NextAfterDependencies(ready: seq<string>, p: map<string, seq<string>>, deps: Graphs.Graph, done: set<string>)
    requires Waits(ready, p, deps, done) && ready != []
    ensures Deps(deps, ready[0]) <= done
    ensures Waits(ready[1..], p, deps, done)
  {
    assert ready[0] in ready;
    forall x | x in ready[1..] ensures Deps(deps, x) <= done {
      var k :| 0 <= k < |ready[1..]| && ready[1..][k] == x;
      assert ready[k + 1] == x;
    }
  }

  /** `complete(node)` keeps the queues respecting `deps`, with `node` now
      counted as done: a node released to the ready queue was waiting for
      `node` alone, and every other pending node waits for what is still
      not done. With `InitializeIntended` (nothing done) and
      `NextAfterDependencies`, this shows that in any run of `next`,
      `start` and `complete` a node is handed out only after every node it
      depends on has completed. */
  lemma CompleteKeepsWaits(ready0: seq<string>, p0: map<string, seq<string>>, node: string,
                           ready: seq<string>, p: map<string, seq<string>>, deps: Graphs.Graph, done: set<string>)
    requires Waits(ready0, p0, deps, done) && Completed(ready0, p0, node, ready, p)
    ensures Waits(ready, p, deps, done + {node})
  {
    var newly := ready[|ready0|..];
    assert ready == ready0 + newly;
    forall x | x in ready ensures Deps(deps, x) <= done + {node} {
      if x !in ready0 {
        assert x in newly;
        assert x in p0 && p0[x] == [node];
        forall y | y in Deps(deps, x) ensures y in done + {node} {
          if y !in done {
            assert y in p0[x];
          }
        }
      }
    }
    forall x | x in p ensures p[x] != [] && Lists(p[x], Deps(deps, x) - (done + {node})) {
      RemoveFirstLists(p0[x], Deps(deps, x) - done, node);
      RemoveFirstEmpty(p0[x], node);
      assert Deps(deps, x) - done - {node} == Deps(deps, x) - (done + {node});
    }
  }

  // ---------------------------------------------------------------------
  // The unit tests of scheduler.rs

  /** Two tool nodes `a` and `b` and no edges. */
  method TwoNodes() returns (dag: PlanDag.Dag)
    ensures fresh(dag) && dag.Valid()
    ensures dag.nodes.Keys == {"a", "b"} && dag.edges == map["a" := {}, "b" := {}]
  {
    dag := new PlanDag.Dag("test");
    var r1 := dag.AddNode(PlanDag.NewNode("a", PlanDag.ToolNode("tool1", "1.0.0")));
    var r2 := dag.AddNode(PlanDag.NewNode("b", PlanDag.ToolNode("tool2", "1.0.0")));
  }

  /** The two ids of these tests differ. */
  lemma IdsDiffer()
    ensures "a" != "b" && |{"a", "b"}| == 2
  {
    assert "a"[0] != "b"[0];
  }

  /** `test_scheduler_initialization`: without edges both nodes are
      ready. */
  method InitializationExample() returns (r: Result<(), RuntimeExecutor.ExecError>, n: nat)
    ensures r == Ok(()) && n == 2
  {
    var dag := TwoNodes();
    var scheduler := new Scheduler(2);
    r := scheduler.Initialize(dag);
    IdsDiffer();
    n := scheduler.ReadyCount();
  }

  /** The DAG of `test_scheduler_with_dependencies`: `a` and `b` with the
      edge `a -> b`. */
  method EdgeAB() returns (dag: PlanDag.Dag)
    ensures fresh(dag) && dag.Valid()
    ensures dag.nodes.Keys == {"a", "b"} && dag.edges == map["a" := {"b"}, "b" := {}]
  {
    dag := TwoNodes();
    Graphs.NotReachableOutside(dag.edges, {"b"}, "b", "a");
    var e := dag.AddEdge("a", "b");
    assert {} + {"b"} == {"b"};
  }

  /** A list without repeats whose only member is `x` is `[x]`. */
  lemma OnlyMember(r: seq<string>, x: string)
    requires Seqs.Distinct(r) && forall y :: y in r <==> y == x
    ensures r == [x]
  {
    Seqs.DistinctCard(r);
    assert (set y | y in r) == {x};
  }

  /** A list in which each entry is new is a list without repeats. */
  lemma FreshEachDistinct(r: seq<string>)
    requires PlanDag.FreshEach(r)
    ensures Seqs.Distinct(r)
  {
    forall i, j | 0 <= i < j < |r| ensures r[i] != r[j] { assert r[i] == r[..j][i]; }
  }

  /** `test_scheduler_with_dependencies` as written: `initialize` refuses a
      DAG with an edge, where the test expects it to succeed. */
  method DependenciesAsWritten() returns (r: Result<(), RuntimeExecutor.ExecError>)
    ensures r == Err(RuntimeExecutor.InvalidState(PlanDag.DagErrorText(PlanDag.UnknownCycle)))
  {
    var dag := EdgeAB();
    var scheduler := new Scheduler(2);
    assert "b" in dag.edges["a"];
    r := scheduler.Initialize(dag);
  }

  /** `test_scheduler_with_dependencies` with a correct topological order.
      The test expects `a` first and then `b`; but `dependencies(a)` is
      `{b}` (the DAG files an edge under its source), so `b` is the one
      ready node and `a` waits for it, and completing `a` releases
      nothing. */
  method DependenciesCorrectedOrder() returns (first: Option<string>, second: Option<string>)
    ensures first == Some("b") && second == None
  {
    var dag := EdgeAB();
    var scheduler := new Scheduler(2);
    var r := scheduler.InitializeCorrected(dag);
    CorrectedQueuesAB(dag.edges, scheduler.ready, scheduler.pending);
    first := scheduler.Next();
    scheduler.Start("a", RunningTask("a", 0));
    r := scheduler.Complete("a");
    NothingWaitsOn(scheduler.ready);
    second := scheduler.Next();
  }

  /** `test_scheduler_with_dependencies` with the corrected order and the
      corrected dependencies: `a` is the one ready node, and once it has
      been started and completed `b` is handed out, as the test expects. */
  method DependenciesIntended() returns (first: Option<string>, second: Option<string>)
    ensures first == Some("a") && second == Some("b")
  {
    var dag := EdgeAB();
    var scheduler := new Scheduler(2);
    var r := scheduler.InitializeIntended(dag);
    IntendedQueuesAB(dag.edges, dag.reverseEdges, scheduler.ready, scheduler.pending);
    first := scheduler.Next();
    scheduler.Start("a", RunningTask("a", 0));
    r := scheduler.Complete("a");
    ReleasesB(scheduler.ready, scheduler.pending);
    second := scheduler.Next();
  }

  /** The queues a fresh scheduler holds after `InitializeIntended` on the
      edge `a -> b`: `a` ready, `b` waiting for `a`. */
  lemma IntendedQueuesAB(g: Graphs.Graph, rev: Graphs.Graph, ready: seq<string>, pending: map<string, seq<string>>)
    requires g == map["a" := {"b"}, "b" := {}] && Graphs.IsTranspose(g, rev)
    requires exists order ::
      (PlanDag.IsTopologicalOrder(order, {"a", "b"}, g) && ready == [] + ReadyOf(order, rev) && Enqueued(map[], order, rev, pending))
    ensures ready == ["a"] && pending == map["b" := ["a"]]
  {
    var order :| PlanDag.IsTopologicalOrder(order, {"a", "b"}, g) && ready == [] + ReadyOf(order, rev) && Enqueued(map[], order, rev, pending);
    ReversedAB(g, rev);
    ReadyA(order, rev);
    PendingB(order, rev, pending);
  }

  /** The reverse edges of `a -> b`: nothing points into `a`, and `a`
      points into `b`. */
  lemma ReversedAB(g: Graphs.Graph, rev: Graphs.Graph)
    requires g == map["a" := {"b"}, "b" := {}] && Graphs.IsTranspose(g, rev)
    ensures Deps(rev, "a") == {} && Deps(rev, "b") == {"a"}
  {
    IdsDiffer();
    assert Graphs.Preds(g, "a") == {};
    assert "a" in Graphs.Preds(g, "b");
  }

  /** Only `a` is ready when `b` alone waits, on `a`. */
  lemma ReadyA(order: seq<string>, rev: Graphs.Graph)
    requires Seqs.Distinct(order) && (forall x :: x in order <==> x in {"a", "b"})
    requires Deps(rev, "a") == {} && Deps(rev, "b") == {"a"}
    ensures ReadyOf(order, rev) == ["a"]
  {
    ReadyOfMembers(order, rev);
    OnlyMember(ReadyOf(order, rev), "a");
  }

  /** Only `b` waits when `b` alone has a dependency, `a`. */
  lemma PendingB(order: seq<string>, rev: Graphs.Graph, p: map<string, seq<string>>)
    requires (forall x :: x in order <==> x in {"a", "b"}) && Enqueued(map[], order, rev, p)
    requires Deps(rev, "a") == {} && Deps(rev, "b") == {"a"}
    ensures p == map["b" := ["a"]]
  {
    assert p.Keys == {"b"};
    FreshEachDistinct(p["b"]);
    OnlyMember(p["b"], "a");
  }

  /** Completing `a` when only `b` waits, on `a`, releases `b` and leaves
      nothing pending. */
  lemma ReleasesB(ready: seq<string>, pending: map<string, seq<string>>)
    requires Completed([], map["b" := ["a"]], "a", ready, pending)
    ensures ready == ["b"] && pending == map[]
  {
    assert ready[0..] == ready;
    assert (set x | x in map["b" := ["a"]] && map["b" := ["a"]][x] == ["a"]) == {"b"};
    FreshEachDistinct(ready);
    OnlyMember(ready, "b");
  }

  /** Completing `a` when only `a` waits, on `b`, releases nothing. */
  lemma NothingWaitsOn(ready: seq<string>)
    requires Lists(ready, set x | x in map["a" := ["b"]] && map["a" := ["b"]][x] == ["a"])
    ensures ready == []
  {
    IdsDiffer();
    assert ["b"] != ["a"];
    assert (set x | x in map["a" := ["b"]] && map["a" := ["b"]][x] == ["a"]) == {};
    FreshEachDistinct(ready);
    Seqs.DistinctCard(ready);
    assert (set y | y in ready) == {};
  }

  /** The queues a fresh scheduler holds after `InitializeCorrected` on the
      edge `a -> b`. */
  lemma CorrectedQueuesAB(g: Graphs.Graph, ready: seq<string>, pending: map<string, seq<string>>)
    requires g == map["a" := {"b"}, "b" := {}]
    requires exists order :: InitializedBy(order, {"a", "b"}, g, [], map[], ready, pending)
    ensures ready == ["b"] && pending == map["a" := ["b"]]
  {
    var order :| InitializedBy(order, {"a", "b"}, g, [], map[], ready, pending);
    ReadyAB(order, g);
    PendingAB(order, g, pending);
  }

  /** Only `b` is ready on the edge `a -> b`. */
  lemma ReadyAB(order: seq<string>, g: Graphs.Graph)
    requires g == map["a" := {"b"}, "b" := {}]
    requires PlanDag.IsTopologicalOrder(order, {"a", "b"}, g)
    ensures ReadyOf(order, g) == ["b"]
  {
    IdsDiffer();
    ReadyOfMembers(order, g);
    assert Deps(g, "a") == {"b"} && Deps(g, "b") == {};
    OnlyMember(ReadyOf(order, g), "b");
  }

  /** Only `a` waits on the edge `a -> b`, and it waits on `b`. */
  lemma PendingAB(order: seq<string>, g: Graphs.Graph, p: map<string, seq<string>>)
    requires g == map["a" := {"b"}, "b" := {}]
    requires (forall x :: x in order <==> x in {"a", "b"}) && Enqueued(map[], order, g, p)
    ensures p == map["a" := ["b"]]
  {
    IdsDiffer();
    assert Deps(g, "a") == {"b"} && Deps(g, "b") == {};
    assert p.Keys == {"a"};
    FreshEachDistinct(p["a"]);
    OnlyMember(p["a"], "b");
  }

  /** The id `node{i}` the backpressure test gives its `i`-th node. */
  function NodeName(i: nat): (r: string)
    ensures |r| > 4 && r[..4] == "node" && r[4..] == Text.Decimal(i)
  {
    "node" + Text.Decimal(i)
  }

  /** The ids of the first `n` nodes. */
  function NodeNames(n: nat): set<string> {
    set j | 0 <= j < n :: NodeName(j)
  }

  /** The loop of `test_scheduler_backpressure`: `count` tool nodes
      `node0`, `node1`, ... and no edges. */
  method NumberedNodes(count: nat) returns (dag: PlanDag.Dag)
    ensures fresh(dag) && dag.Valid() && Graphs.NoEdges(dag.edges) && dag.nodes.Keys == NodeNames(count)
  {
    dag := new PlanDag.Dag("test");
    for i := 0 to count
      invariant dag.Valid() && Graphs.NoEdges(dag.edges) && dag.nodes.Keys == NodeNames(i)
    {
      NodeNamesStep(i);
      var r := dag.AddNode(PlanDag.NewNode(NodeName(i), PlanDag.ToolNode("tool" + Text.Decimal(i), "1.0.0")));
    }
  }

  /** The `i`-th id differs from every earlier one. */
  lemma NodeNamesStep(i: nat)
    ensures NodeName(i) !in NodeNames(i) && NodeNames(i + 1) == NodeNames(i) + {NodeName(i)}
  {
    if NodeName(i) in NodeNames(i) {
      var j :| 0 <= j < i && NodeName(j) == NodeName(i);
      assert Text.Decimal(i) == NodeName(i)[4..] == NodeName(j)[4..] == Text.Decimal(j);
      Text.DecimalInjective(i, j);
    }
  }

  /** The loop gives its nodes `count` different ids. */
  lemma {:induction false} NodeNamesCount(count: nat)
    ensures |NodeNames(count)| == count
  {
    if count > 0 {
      NodeNamesStep(count - 1);
      NodeNamesCount(count - 1);
    }
  }

  /** The scheduler of `test_scheduler_backpressure` once `initialize`
      has run on its five nodes: five distinct ready ids, nothing running,
      at most two at a time. */
  method BackpressureSetup() returns (scheduler: Scheduler)
    ensures fresh(scheduler) && scheduler.maxConcurrent == 2 && scheduler.running == map[]
    ensures |scheduler.ready| == 5 && scheduler.ready[0] != scheduler.ready[1]
  {
    var dag := NumberedNodes(5);
    scheduler := new Scheduler(2);
    var r := scheduler.Initialize(dag);
    NodeNamesCount(5);
    var sorted := Text.Sorted(dag.nodes.Keys);
    PlanDag.IncreasingDistinct(sorted);
  }

  /** Two tasks under different ids make two running entries. */
  lemma TwoEntries(m: map<string, RunningTask>, x: string, y: string)
    requires x != y && m == map[x := RunningTask(x, 0)][y := RunningTask(y, 0)]
    ensures |m| == 2
  {
    assert m.Keys == {x} + {y};
  }

  /** `test_scheduler_backpressure` as written: `next` never fills
      `running`, so the third call still hands out a node where the test
      expects `None`. */
  method BackpressureAsWritten() returns (a: Option<string>, b: Option<string>, c: Option<string>)
    ensures a.Some? && b.Some? && c.Some?
  {
    var scheduler := BackpressureSetup();
    a := scheduler.Next();
    b := scheduler.Next();
    c := scheduler.Next();
  }

  /** The same test with `next` recording each task it hands out: two
      tasks, then `None`, as the test expects. */
  method BackpressureCorrected() returns (a: Option<string>, b: Option<string>, c: Option<string>)
    ensures a.Some? && b.Some? && c == None
  {
    var scheduler := BackpressureSetup();
    a := scheduler.NextCorrected(0);
    b := scheduler.NextCorrected(0);
    TwoEntries(scheduler.running, a.value, b.value);
    c := scheduler.NextCorrected(0);
  }
}
