/** The plan compiler (crates/oracle_omen_plan/src/compiler.rs): every step
    becomes a DAG node carrying the step's capabilities and policies, every
    dependency `d` of a step `s` becomes the edge `d -> s`, and the DAG is
    validated. */
module PlanCompiler {
  import opened Wrappers
  import Hashing
  import Graphs
  import PlanDsl
  import PlanDag
  import PlanValidate

  /** `CompileError`. */
  datatype CompileError =
    | InvalidStep(id: string, reason: string)
    | CircularDependency(path: seq<string>)
    | MissingDependency(step: string, dep: string)
    | Dag(message: string)

  /** `From<DagError>`: the DAG error's text. */
  function FromDagError(e: PlanDag.DagError): CompileError {
    Dag(PlanDag.DagErrorText(e))
  }

  function StringsJson(xs: seq<string>): (r: seq<Hashing.Json>)
    ensures |r| == |xs| && forall k :: 0 <= k < |xs| ==> r[k] == Hashing.JStr(xs[k])
  {
    seq(|xs|, k requires 0 <= k < |xs| => Hashing.JStr(xs[k]))
  }

  /** The config of a sequential or parallel node, `{"steps": [...]}`. */
  function StepsConfig(steps: seq<string>): Hashing.Json {
    Hashing.JObj([Hashing.Field("steps", Hashing.JArr(StringsJson(steps)))])
  }

  /** The strings of a JSON array whose items are all strings. */
  function JsonStrings(items: seq<Hashing.Json>): Option<seq<string>>
    decreases |items|
  {
    if items == [] then Some([])
    else if !items[0].JStr? then None
    else
      match JsonStrings(items[1..])
      case Some(rest) => Some([items[0].s] + rest)
      case None => None
  }

  lemma {:induction false} JsonStringsRoundTrip(xs: seq<string>)
    ensures JsonStrings(StringsJson(xs)) == Some(xs)
    decreases |xs|
  {
    if xs != [] {
      JsonStringsRoundTrip(xs[1..]);
      assert StringsJson(xs)[1..] == StringsJson(xs[1..]);
      assert [xs[0]] + xs[1..] == xs;
    }
  }

  /** Reading the step list back out of such a config. */
  function ConfigSteps(c: Hashing.Json): Option<seq<string>> {
    if c.JObj? && |c.fields| == 1 && c.fields[0].name == "steps" && c.fields[0].value.JArr?
    then JsonStrings(c.fields[0].value.items)
    else None
  }

  /** The step list of a composite step survives its trip through the
      node config. */
  lemma StepsConfigRoundTrip(steps: seq<string>)
    ensures ConfigSteps(StepsConfig(steps)) == Some(steps)
  {
    JsonStringsRoundTrip(steps);
  }

  /** `step_to_node_type`: tools, observations and decisions keep the
      fields a node needs, composite steps become custom nodes from whose
      config the step list can be read back, and no step becomes a wait. */
  function StepToNodeType(t: PlanDsl.StepType): (n: PlanDag.DagNodeType)
    ensures !n.WaitNode?
    ensures t.ToolStep? <==> n.ToolNode?
    ensures t.ToolStep? ==> n.name == t.name && n.version == t.version
    ensures t.ObservationStep? <==> n.ObservationNode?
    ensures t.ObservationStep? ==> n.source == t.source
    ensures t.DecisionStep? <==> n.DecisionNode?
    ensures t.DecisionStep? ==> n.condition == t.condition
    ensures t.SequentialStep? ==> n.CustomNode? && n.typeName == "sequential" && ConfigSteps(n.config) == Some(t.steps)
    ensures t.ParallelStep? ==> n.CustomNode? && n.typeName == "parallel" && ConfigSteps(n.config) == Some(t.steps)
    ensures t.CustomStep? ==> n.CustomNode? && n.typeName == t.typeName && n.config == t.config
  {
    match t
    case ToolStep(name, version, _) => PlanDag.ToolNode(name, version)
    case ObservationStep(source, _) => PlanDag.ObservationNode(source)
    case DecisionStep(condition, _, _) => PlanDag.DecisionNode(condition)
    case SequentialStep(steps) =>
      StepsConfigRoundTrip(steps);
      PlanDag.CustomNode("sequential", StepsConfig(steps))
    case ParallelStep(steps) =>
      StepsConfigRoundTrip(steps);
      PlanDag.CustomNode("parallel", StepsConfig(steps))
    case CustomStep(typeName, config) => PlanDag.CustomNode(typeName, config)
  }

  /** The node the first pass of `compile` adds for a step. */
  function NodeOf(s: PlanDsl.PlanStep): (n: PlanDag.DagNode)
    ensures n.id == s.id && n.nodeType == StepToNodeType(s.stepType)
    ensures n.capabilities == s.capabilities && n.resources == s.resources
    ensures n.failurePolicy == s.failurePolicy && n.retryPolicy == s.retryPolicy && n.timeoutPolicy == s.timeoutPolicy
    ensures n.metadata == map[]
  {
    PlanDag.NewNode(s.id, StepToNodeType(s.stepType)).(
      capabilities := s.capabilities, resources := s.resources, failurePolicy := s.failurePolicy,
      retryPolicy := s.retryPolicy, timeoutPolicy := s.timeoutPolicy)
  }

  /** The steps that list `u` among their dependencies: where the edges
      out of `u` go. */
  function Targets(steps: seq<PlanDsl.PlanStep>, u: string): set<string>
    decreases |steps|
  {
    if steps == [] then {}
    else Targets(steps[..|steps| - 1], u) + (if u in steps[|steps| - 1].dependencies then {steps[|steps| - 1].id} else {})
  }

  lemma {:induction false} TargetsMembers(steps: seq<PlanDsl.PlanStep>, u: string)
    ensures forall x :: x in Targets(steps, u) <==>
      exists k :: 0 <= k < |steps| && u in steps[k].dependencies && steps[k].id == x
    decreases |steps|
  {
    if steps != [] {
      var init := steps[..|steps| - 1];
      TargetsMembers(init, u);
      assert forall k :: 0 <= k < |init| ==> init[k] == steps[k];
    }
  }

  /** The DAG a plan compiles to: a node per step id and an edge from each
      dependency to the step that lists it. */
  function PlanGraph(steps: seq<PlanDsl.PlanStep>): Graphs.Graph {
    map u | u in PlanValidate.IdsOf(steps) :: Targets(steps, u)
  }

  /** The DAG holds exactly the nodes and edges of the plan. */
  ghost predicate Describes(dag: PlanDag.Dag, steps: seq<PlanDsl.PlanStep>)
    reads dag
  {
    && dag.nodes.Keys == PlanValidate.IdsOf(steps)
    && (forall k :: 0 <= k < |steps| ==> steps[k].id in dag.nodes && dag.nodes[steps[k].id] == NodeOf(steps[k]))
    && dag.edges == PlanGraph(steps)
  }

  /** The first pass: one `add_node` per step, in plan order; the first
      repeated id stops it with the DAG's duplicate-node error. */
  method AddNodes(dag: PlanDag.Dag, steps: seq<PlanDsl.PlanStep>) returns (r: Result<(), CompileError>)
    requires dag.Valid() && dag.nodes == map[]
    modifies dag
    ensures dag.Valid() && Graphs.NoEdges(dag.edges)
    ensures r == match PlanValidate.FirstDuplicate(steps, {})
                 case Some(id) => Err(FromDagError(PlanDag.DuplicateNode(id)))
                 case None => Ok(())
    ensures r.Ok? ==> dag.nodes.Keys == PlanValidate.IdsOf(steps)
    ensures r.Ok? ==> forall k :: 0 <= k < |steps| ==> steps[k].id in dag.nodes && dag.nodes[steps[k].id] == NodeOf(steps[k])
  {
    assert steps[0..] == steps;
    NodesStart(dag.nodes, steps);
    for i := 0 to |steps|
      invariant dag.Valid() && Graphs.NoEdges(dag.edges)
      invariant PlanValidate.FirstDuplicate(steps, {}) == PlanValidate.FirstDuplicate(steps[i..], dag.nodes.Keys)
      invariant NodesSoFar(dag.nodes, steps, i)
    {
      ghost var before := dag.nodes;
      PlanValidate.DuplicateStepAt(steps, i, before.Keys);
      var added := dag.AddNode(NodeOf(steps[i]));
      if added.Err? {
        return Err(FromDagError(added.error));
      }
      NodesStep(before, dag.nodes, steps, i);
    }
    NodesEnd(dag.nodes, steps);
    return Ok(());
  }

  /** The nodes of the steps before `i` have been added. */
  ghost predicate NodesSoFar(nodes: map<string, PlanDag.DagNode>, steps: seq<PlanDsl.PlanStep>, i: nat) {
    && i <= |steps|
    && nodes.Keys == PlanValidate.IdsOf(steps[..i])
    && forall k :: 0 <= k < i ==> steps[k].id in nodes && nodes[steps[k].id] == NodeOf(steps[k])
  }

  lemma NodesStart(nodes: map<string, PlanDag.DagNode>, steps: seq<PlanDsl.PlanStep>)
    requires nodes == map[]
    ensures NodesSoFar(nodes, steps, 0)
  {
    assert steps[..0] == [];
  }

  lemma NodesStep(nodes: map<string, PlanDag.DagNode>, nodes': map<string, PlanDag.DagNode>, steps: seq<PlanDsl.PlanStep>, i: nat)
    requires i < |steps| && NodesSoFar(nodes, steps, i)
    requires steps[i].id !in nodes && nodes' == nodes[steps[i].id := NodeOf(steps[i])]
    requires PlanValidate.IdsOf(steps[..i + 1]) == PlanValidate.IdsOf(steps[..i]) + {steps[i].id}
    ensures NodesSoFar(nodes', steps, i + 1)
  {
    assert nodes'.Keys == nodes.Keys + {steps[i].id};
  }

  lemma NodesEnd(nodes: map<string, PlanDag.DagNode>, steps: seq<PlanDsl.PlanStep>)
    requires NodesSoFar(nodes, steps, |steps|)
    ensures nodes.Keys == PlanValidate.IdsOf(steps)
    ensures forall k :: 0 <= k < |steps| ==> steps[k].id in nodes && nodes[steps[k].id] == NodeOf(steps[k])
  {
    assert steps[..|steps|] == steps;
  }

  /** After the edges of the steps before `i`, and of the first `j`
      dependencies of step `i`, have been added. */
  ghost predicate EdgesSoFar(g: Graphs.Graph, steps: seq<PlanDsl.PlanStep>, i: nat, j: nat) {
    && i <= |steps|
    && (i < |steps| ==> j <= |steps[i].dependencies|)
    && g.Keys == PlanValidate.IdsOf(steps)
    && (i < |steps| ==> forall m :: 0 <= m < j ==> steps[i].dependencies[m] in g)
    && forall u :: u in g ==>
         g[u] == Targets(steps[..i], u) + (if i < |steps| && u in steps[i].dependencies[..j] then {steps[i].id} else {})
  }

  /** The second pass: `add_edge(dep, step)` for every dependency of every
      step, in plan order. It succeeds exactly when every dependency names
      a step and the plan's dependencies have no cycle, and then the DAG
      holds exactly the plan's edges. */
  method AddEdges(dag: PlanDag.Dag, steps: seq<PlanDsl.PlanStep>) returns (r: Result<(), CompileError>)
    requires dag.Valid() && dag.nodes.Keys == PlanValidate.IdsOf(steps) && Graphs.NoEdges(dag.edges)
    modifies dag
    ensures dag.Valid() && dag.nodes == old(dag.nodes)
    ensures r.Ok? <==> PlanValidate.DependenciesKnown(steps, PlanValidate.IdsOf(steps)) && Graphs.Acyclic(PlanGraph(steps))
    ensures r.Ok? ==> dag.edges == PlanGraph(steps)
    ensures r.Err? ==> UnknownDependency(steps, r.error) || !Graphs.Acyclic(PlanGraph(steps))
  {
    EdgesStart(dag.edges, steps);
    for i := 0 to |steps|
      invariant dag.Valid() && dag.nodes == old(dag.nodes)
      invariant EdgesSoFar(dag.edges, steps, i, 0)
      invariant KnownSoFar(steps, i)
    {
      r := AddStepEdges(dag, steps, i);
      if r.Err? {
        return;
      }
    }
    EdgesEnd(dag.edges, steps);
    return Ok(());
  }

  /** The dependencies of the steps before `i` all name steps. */
  ghost predicate KnownSoFar(steps: seq<PlanDsl.PlanStep>, i: nat)
    requires i <= |steps|
  {
    forall k :: 0 <= k < i ==> forall d :: d in steps[k].dependencies ==> d in PlanValidate.IdsOf(steps)
  }

  /** The edges into step `i`, one `add_edge` per dependency. */
  method AddStepEdges(dag: PlanDag.Dag, steps: seq<PlanDsl.PlanStep>, i: nat) returns (r: Result<(), CompileError>)
    requires i < |steps| && dag.Valid() && dag.nodes.Keys == PlanValidate.IdsOf(steps)
    requires EdgesSoFar(dag.edges, steps, i, 0) && KnownSoFar(steps, i)
    modifies dag
    ensures dag.Valid() && dag.nodes == old(dag.nodes)
    ensures r.Ok? ==> EdgesSoFar(dag.edges, steps, i + 1, 0) && KnownSoFar(steps, i + 1)
    ensures r.Err? ==> !(PlanValidate.DependenciesKnown(steps, PlanValidate.IdsOf(steps)) && Graphs.Acyclic(PlanGraph(steps)))
    ensures r.Err? ==> UnknownDependency(steps, r.error) || !Graphs.Acyclic(PlanGraph(steps))
  {
    var deps := steps[i].dependencies;
    PlanValidate.IdsOfHas(steps, i);
    for j := 0 to |deps|
      invariant dag.Valid() && dag.nodes == old(dag.nodes)
      invariant EdgesSoFar(dag.edges, steps, i, j)
    {
      ghost var g := dag.edges;
      var added := dag.AddEdge(deps[j], steps[i].id);
      if added.Err? {
        EdgeRefused(g, steps, i, j, added.error);
        return Err(FromDagError(added.error));
      }
      EdgeAdded(g, dag.edges, steps, i, j);
    }
    EdgesNext(dag.edges, steps, i);
    return Ok(());
  }

  lemma EdgesStart(g: Graphs.Graph, steps: seq<PlanDsl.PlanStep>)
    requires g.Keys == PlanValidate.IdsOf(steps) && Graphs.NoEdges(g)
    ensures EdgesSoFar(g, steps, 0, 0)
  {
    assert steps[..0] == [];
  }

  lemma EdgeAdded(g: Graphs.Graph, g': Graphs.Graph, steps: seq<PlanDsl.PlanStep>, i: nat, j: nat)
    requires i < |steps| && j < |steps[i].dependencies| && EdgesSoFar(g, steps, i, j)
    requires var d := steps[i].dependencies[j]; g' == g[d := (if d in g then g[d] else {}) + {steps[i].id}]
    requires steps[i].dependencies[j] in g
    ensures EdgesSoFar(g', steps, i, j + 1)
  {
    var deps := steps[i].dependencies;
    assert deps[..j + 1] == deps[..j] + [deps[j]];
    forall u | u in g' ensures g'[u] == Targets(steps[..i], u) + (if u in deps[..j + 1] then {steps[i].id} else {}) {
      if u != deps[j] {
        assert u in deps[..j + 1] <==> u in deps[..j];
      }
    }
  }

  lemma EdgesNext(g: Graphs.Graph, steps: seq<PlanDsl.PlanStep>, i: nat)
    requires i < |steps| && EdgesSoFar(g, steps, i, |steps[i].dependencies|) && KnownSoFar(steps, i)
    ensures EdgesSoFar(g, steps, i + 1, 0) && KnownSoFar(steps, i + 1)
  {
    assert steps[..i + 1][..i] == steps[..i];
    assert steps[i].dependencies[..|steps[i].dependencies|] == steps[i].dependencies;
  }

  lemma EdgesEnd(g: Graphs.Graph, steps: seq<PlanDsl.PlanStep>)
    requires EdgesSoFar(g, steps, |steps|, 0) && KnownSoFar(steps, |steps|)
    ensures g == PlanGraph(steps)
    ensures PlanValidate.DependenciesKnown(steps, PlanValidate.IdsOf(steps))
  {
    assert steps[..|steps|] == steps;
    forall u | u in g ensures g[u] == PlanGraph(steps)[u] {
    }
  }

  /** The edges added so far are edges of the plan. */
  lemma EdgesWithin(g: Graphs.Graph, steps: seq<PlanDsl.PlanStep>, i: nat, j: nat)
    requires EdgesSoFar(g, steps, i, j)
    ensures Graphs.SubGraph(g, PlanGraph(steps))
  {
    forall u | u in g ensures u in PlanGraph(steps) && g[u] <= PlanGraph(steps)[u] {
      TargetsMembers(steps[..i], u);
      TargetsMembers(steps, u);
      forall x | x in g[u] ensures x in Targets(steps, u) {
        if x in Targets(steps[..i], u) {
          var k :| 0 <= k < i && u in steps[..i][k].dependencies && steps[..i][k].id == x;
          assert steps[k] == steps[..i][k];
        } else {
          assert u in steps[i].dependencies[..j];
        }
      }
    }
  }

  /** An edge `add_edge` refuses shows that the plan names an unknown
      dependency or has a cycle. */
  lemma EdgeRefused(g: Graphs.Graph, steps: seq<PlanDsl.PlanStep>, i: nat, j: nat, e: PlanDag.DagError)
    requires i < |steps| && j < |steps[i].dependencies| && EdgesSoFar(g, steps, i, j)
    requires var d := steps[i].dependencies[j]; d in g ==> Graphs.Reachable(g, steps[i].id, d)
    requires var d := steps[i].dependencies[j]; d !in g ==> e == PlanDag.NodeNotFound(d)
    ensures !(PlanValidate.DependenciesKnown(steps, PlanValidate.IdsOf(steps)) && Graphs.Acyclic(PlanGraph(steps)))
    ensures UnknownDependency(steps, FromDagError(e)) || !Graphs.Acyclic(PlanGraph(steps))
  {
    var d := steps[i].dependencies[j];
    if d !in g {
      assert d in steps[i].dependencies && d !in PlanValidate.IdsOf(steps);
    } else {
      var h := PlanGraph(steps);
      EdgesWithin(g, steps, i, j);
      Graphs.ReachableSub(g, h, steps[i].id, d);
      TargetsMembers(steps, d);
      Graphs.CycleThrough(h, d, steps[i].id);
    }
  }

  /** `e` is the error `add_edge` gives for a dependency that names no
      step. */
  ghost predicate UnknownDependency(steps: seq<PlanDsl.PlanStep>, e: CompileError) {
    exists k, d :: 0 <= k < |steps| && d in steps[k].dependencies && d !in PlanValidate.IdsOf(steps) &&
      e == FromDagError(PlanDag.NodeNotFound(d))
  }

  /** The DAG before validation: both passes, the errors of `add_node` and
      `add_edge` passed on. */
  method Build(plan: PlanDsl.Plan) returns (r: Result<PlanDag.Dag, CompileError>)
    ensures PlanValidate.FirstDuplicate(plan.steps, {}).Some? ==>
      r == Err(FromDagError(PlanDag.DuplicateNode(PlanValidate.FirstDuplicate(plan.steps, {}).value)))
    ensures r.Ok? <==> CompilesCleanly(plan.steps)
    ensures r.Err? && PlanValidate.DistinctIds(plan.steps) && Graphs.Acyclic(PlanGraph(plan.steps)) ==>
      UnknownDependency(plan.steps, r.error)
    ensures r.Ok? ==> fresh(r.value) && r.value.Valid() && r.value.name == plan.name && Describes(r.value, plan.steps)
  {
    var dag := new PlanDag.Dag(plan.name);
    var steps := plan.steps;
    var nodes := AddNodes(dag, steps);
    PlanValidate.FirstDuplicateNone(steps, {});
    if nodes.Err? {
      return Err(nodes.error);
    }
    var edges := AddEdges(dag, steps);
    if edges.Err? {
      return Err(edges.error);
    }
    return Ok(dag);
  }

  /** What a plan needs for both passes to succeed: distinct ids, known
      dependencies and no dependency cycle. */
  ghost predicate CompilesCleanly(steps: seq<PlanDsl.PlanStep>) {
    && PlanValidate.DistinctIds(steps)
    && PlanValidate.DependenciesKnown(steps, PlanValidate.IdsOf(steps))
    && Graphs.Acyclic(PlanGraph(steps))
  }

  /** The last step of `compile`: the DAG if validation passed, its error
      otherwise. */
  function Validated(dag: PlanDag.Dag, v: Result<(), PlanDag.DagError>): (r: Result<PlanDag.Dag, CompileError>)
    ensures r.Ok? <==> v.Ok?
  {
    if v.Err? then Err(FromDagError(v.error)) else Ok(dag)
  }

  /** `compile`, with the DAG validated by the corrected topological
      order: a plan compiles exactly when its ids are distinct, its
      dependencies name steps and they have no cycle, and the DAG then
      holds one node per step and the edge `d -> s` for each dependency
      `d` of a step `s`. */
  method Compile(plan: PlanDsl.Plan) returns (r: Result<PlanDag.Dag, CompileError>)
    ensures PlanValidate.FirstDuplicate(plan.steps, {}).Some? ==>
      r == Err(FromDagError(PlanDag.DuplicateNode(PlanValidate.FirstDuplicate(plan.steps, {}).value)))
    ensures r.Ok? <==> CompilesCleanly(plan.steps)
    ensures r.Err? && PlanValidate.DistinctIds(plan.steps) && Graphs.Acyclic(PlanGraph(plan.steps)) ==>
      UnknownDependency(plan.steps, r.error)
    ensures r.Ok? ==> fresh(r.value) && r.value.Valid() && r.value.name == plan.name && Describes(r.value, plan.steps)
  {
    r := Build(plan);
    if r.Ok? {
      var v := r.value.Validate();
      r := Validated(r.value, v);
    }
  }

  /** `compile` as written, validating with the topological order as
      written: a plan that would compile still fails as soon as one step
      has a dependency. */
  method CompileAsWritten(plan: PlanDsl.Plan) returns (r: Result<PlanDag.Dag, CompileError>)
    ensures r.Ok? <==> CompilesCleanly(plan.steps) && Graphs.NoEdges(PlanGraph(plan.steps))
    ensures CompilesCleanly(plan.steps) && !Graphs.NoEdges(PlanGraph(plan.steps)) ==>
      r == Err(FromDagError(PlanDag.UnknownCycle))
  {
    r := Build(plan);
    if r.Ok? {
      var v := r.value.ValidateAsWritten();
      r := Validated(r.value, v);
    }
  }

  /** A single step without dependencies always compiles. */
  lemma OneStepPlan(s: PlanDsl.PlanStep)
    requires s.dependencies == []
    ensures CompilesCleanly([s]) && PlanValidate.IdsOf([s]) == {s.id}
  {
    assert [s][..|[s]| - 1] == [];
    assert PlanValidate.IdsOf([s]) == {s.id};
    assert Targets([s], s.id) == {};
    Graphs.NoEdgesAcyclic(PlanGraph([s]));
  }

  /** Step `b` depending on step `a` compiles to the single edge
      `a -> b`. */
  lemma TwoStepGraph(a: PlanDsl.PlanStep, b: PlanDsl.PlanStep)
    requires a.id == "a" && a.dependencies == [] && b.id == "b" && b.dependencies == ["a"]
    ensures PlanGraph([a, b]) == map["a" := {"b"}, "b" := {}]
    ensures PlanValidate.IdsOf([a, b]) == {"a", "b"}
  {
    var steps := [a, b];
    assert steps[..|steps| - 1] == [a] && [a][..|[a]| - 1] == [];
    assert PlanValidate.IdsOf([a]) == {"a"};
    assert Targets([a], "a") == {};
    assert Targets([a], "b") == {} by { assert "b" !in a.dependencies; }
    assert Targets(steps, "a") == {"b"};
    assert Targets(steps, "b") == {};
    var g := PlanGraph(steps);
    assert g.Keys == {"a", "b"};
  }

  lemma TwoStepPlan(a: PlanDsl.PlanStep, b: PlanDsl.PlanStep)
    requires a.id == "a" && a.dependencies == [] && b.id == "b" && b.dependencies == ["a"]
    ensures CompilesCleanly([a, b]) && !Graphs.NoEdges(PlanGraph([a, b]))
  {
    TwoStepGraph(a, b);
    assert "b" in PlanGraph([a, b])["a"];
    Graphs.RankedAcyclic(PlanGraph([a, b]), map["a" := 0, "b" := 1]);
  }

  /** The compiler's first test: a one-step plan compiles to a one-node
      DAG holding that step. */
  method SimplePlanExample() returns (n: nat, found: bool)
    ensures n == 1 && found
  {
    var plan := new PlanDsl.Plan("test_plan");
    plan.AddStep(PlanDsl.NewStep("step1", PlanDsl.ToolStep("tool1", "1.0.0", Hashing.JObj([]))));
    OneStepPlan(plan.steps[0]);
    assert plan.steps == [plan.steps[0]];
    var r := Compile(plan);
    var dag := r.value;
    n := dag.Len();
    found := dag.Node("step1").Some?;
  }

  /** The steps of the compiler's second test: `b` depends on `a`. */
  function StepA(): PlanDsl.PlanStep {
    PlanDsl.NewStep("a", PlanDsl.ToolStep("tool1", "1.0.0", Hashing.JObj([])))
  }

  function StepB(): PlanDsl.PlanStep {
    PlanDsl.DependsOn(PlanDsl.NewStep("b", PlanDsl.ToolStep("tool2", "1.0.0", Hashing.JObj([]))), "a")
  }

  method TwoStepPlanObject() returns (plan: PlanDsl.Plan)
    ensures plan.steps == [StepA(), StepB()]
  {
    plan := new PlanDsl.Plan("test_plan");
    plan.AddStep(StepA());
    plan.AddStep(StepB());
  }

  /** The compiler's second test with the order as written: the plan does
      not compile. */
  method DependenciesAsWrittenExample() returns (r: Result<PlanDag.Dag, CompileError>)
    ensures r == Err(FromDagError(PlanDag.UnknownCycle))
  {
    var plan := TwoStepPlanObject();
    TwoStepPlan(StepA(), StepB());
    r := CompileAsWritten(plan);
  }

  /** The DAG the second test's plan compiles to. */
  method CompiledTwoSteps() returns (dag: PlanDag.Dag)
    ensures dag.Valid() && dag.nodes.Keys == {"a", "b"} && dag.edges == map["a" := {"b"}, "b" := {}]
  {
    var plan := TwoStepPlanObject();
    TwoStepPlan(StepA(), StepB());
    TwoStepGraph(StepA(), StepB());
    var r := Compile(plan);
    dag := r.value;
  }

  /** The compiler's second test with the corrected order: two nodes and
      the edge `a -> b`, so `dependencies("b")` is empty and the step `b`
      waits for shows up as `dependents("b")`. */
  method DependenciesExample() returns (n: nat, depsOfA: set<string>, depsOfB: set<string>, dependentsOfB: set<string>)
    ensures n == 2 && depsOfA == {"b"} && depsOfB == {} && dependentsOfB == {"a"}
  {
    var dag := CompiledTwoSteps();
    n := dag.Len();
    depsOfA := dag.Dependencies("a");
    depsOfB := dag.Dependencies("b");
    assert dag.reverseEdges["b"] == Graphs.Preds(dag.edges, "b");
    dependentsOfB := dag.Dependents("b");
  }

  /** The compiler's second test with the corrected order and the
      corrected `dependencies`: `b` depends on `a` and `a` on nothing, as
      the test expects. */
  method DependenciesCorrectedExample() returns (n: nat, depsOfA: set<string>, depsOfB: set<string>)
    ensures n == 2 && depsOfA == {} && depsOfB == {"a"}
  {
    var dag := CompiledTwoSteps();
    n := dag.Len();
    depsOfA := dag.DependenciesCorrected("a");
    depsOfB := dag.DependenciesCorrected("b");
    assert "a" in dag.Dependencies("a") <==> "a" in dag.edges["a"];
    assert "b" in dag.Dependencies("a");
  }
}
