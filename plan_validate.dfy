/** Plan validation before compilation (crates/oracle_omen_plan/src/validate.rs):
    step ids must be unique, every dependency must name a step, and every
    step must have a positive timeout. The three checks run in that order,
    each over the steps in plan order, and the first failure is reported. */
module PlanValidate {
  import opened Wrappers
  import PlanDsl
  import PlanDag
  import Graphs

  /** `ValidationError`. */
  datatype ValidationError =
    | DuplicateStep(id: string)
    | DependencyNotFound(step: string, dependency: string)
    | InvalidResource(step: string, resource: string, reason: string)
    | DagError(message: string)

  /** The ids of the steps, collected in plan order. */
  function IdsOf(steps: seq<PlanDsl.PlanStep>): set<string>
    decreases |steps|
  {
    if steps == [] then {} else IdsOf(steps[..|steps| - 1]) + {steps[|steps| - 1].id}
  }

  lemma {:induction false} IdsOfMembers(steps: seq<PlanDsl.PlanStep>)
    ensures forall x :: x in IdsOf(steps) <==> exists k :: 0 <= k < |steps| && steps[k].id == x
    decreases |steps|
  {
    if steps != [] {
      var init := steps[..|steps| - 1];
      IdsOfMembers(init);
      assert forall k :: 0 <= k < |init| ==> init[k] == steps[k];
    }
  }

  lemma IdsOfHas(steps: seq<PlanDsl.PlanStep>, i: nat)
    requires i < |steps|
    ensures steps[i].id in IdsOf(steps)
  {
    IdsOfMembers(steps);
  }

  /** No two steps share an id. */
  predicate DistinctIds(steps: seq<PlanDsl.PlanStep>) {
    forall i, j :: 0 <= i < j < |steps| ==> steps[i].id != steps[j].id
  }

  /** Every dependency of every step names some step. */
  predicate DependenciesKnown(steps: seq<PlanDsl.PlanStep>, ids: set<string>) {
    forall i :: 0 <= i < |steps| ==> forall d :: d in steps[i].dependencies ==> d in ids
  }

  /** Every step has a positive timeout. */
  predicate TimeoutsPositive(steps: seq<PlanDsl.PlanStep>) {
    forall i :: 0 <= i < |steps| ==> steps[i].resources.timeoutMs > 0
  }

  /** The first check: walking the steps with the ids seen so far, the
      first id already seen. */
  function FirstDuplicate(steps: seq<PlanDsl.PlanStep>, seen: set<string>): Option<string>
    decreases |steps|
  {
    if steps == [] then None
    else if steps[0].id in seen then Some(steps[0].id)
    else FirstDuplicate(steps[1..], seen + {steps[0].id})
  }

  /** The second check for one step: its first dependency that is not a
      known id. */
  function MissingIn(deps: seq<string>, ids: set<string>): Option<string>
    decreases |deps|
  {
    if deps == [] then None
    else if deps[0] !in ids then Some(deps[0])
    else MissingIn(deps[1..], ids)
  }

  /** The second check: the first step, in plan order, with an unknown
      dependency, together with that dependency. */
  function FirstMissingDep(steps: seq<PlanDsl.PlanStep>, ids: set<string>): Option<(string, string)>
    decreases |steps|
  {
    if steps == [] then None
    else
      match MissingIn(steps[0].dependencies, ids)
      case Some(d) => Some((steps[0].id, d))
      case None => FirstMissingDep(steps[1..], ids)
  }

  /** The third check: the first step whose timeout is zero. */
  function FirstZeroTimeout(steps: seq<PlanDsl.PlanStep>): Option<string>
    decreases |steps|
  {
    if steps == [] then None
    else if steps[0].resources.timeoutMs == 0 then Some(steps[0].id)
    else FirstZeroTimeout(steps[1..])
  }

  /** What `PlanValidator::validate` returns for a plan with these steps. */
  function ValidatePlan(steps: seq<PlanDsl.PlanStep>): Result<(), ValidationError> {
    match FirstDuplicate(steps, {})
    case Some(id) => Err(DuplicateStep(id))
    case None =>
      match FirstMissingDep(steps, IdsOf(steps))
      case Some(p) => Err(DependencyNotFound(p.0, p.1))
      case None =>
        match FirstZeroTimeout(steps)
        case Some(id) => Err(InvalidResource(id, "timeout_ms", "must be positive"))
        case None => Ok(())
  }

  /** `PlanValidator::validate`: three passes over the steps, the first
      filling the set of seen ids. */
  method Validate(plan: PlanDsl.Plan) returns (r: Result<(), ValidationError>)
    ensures r == ValidatePlan(plan.steps)
  {
    var steps := plan.steps;
    var seen: set<string> := {};
    for i := 0 to |steps|
      invariant FirstDuplicate(steps, {}) == FirstDuplicate(steps[i..], seen)
      invariant seen == IdsOf(steps[..i])
    {
      DuplicateStepAt(steps, i, seen);
      if steps[i].id in seen {
        return Err(DuplicateStep(steps[i].id));
      }
      seen := seen + {steps[i].id};
    }
    assert steps[..|steps|] == steps;
    for i := 0 to |steps|
      invariant FirstMissingDep(steps, seen) == FirstMissingDep(steps[i..], seen)
    {
      var deps := steps[i].dependencies;
      for j := 0 to |deps|
        invariant MissingIn(deps, seen) == MissingIn(deps[j..], seen)
      {
        MissingAt(deps, j, seen);
        if deps[j] !in seen {
          return Err(DependencyNotFound(steps[i].id, deps[j]));
        }
      }
      MissingStepAt(steps, i, seen);
    }
    for i := 0 to |steps|
      invariant FirstZeroTimeout(steps) == FirstZeroTimeout(steps[i..])
    {
      ZeroTimeoutAt(steps, i);
      if steps[i].resources.timeoutMs == 0 {
        return Err(InvalidResource(steps[i].id, "timeout_ms", "must be positive"));
      }
    }
    r := Ok(());
  }

  lemma DuplicateStepAt(steps: seq<PlanDsl.PlanStep>, i: nat, seen: set<string>)
    requires i < |steps|
    ensures steps[i].id in seen ==> FirstDuplicate(steps[i..], seen) == Some(steps[i].id)
    ensures steps[i].id !in seen ==> FirstDuplicate(steps[i..], seen) == FirstDuplicate(steps[i + 1..], seen + {steps[i].id})
    ensures IdsOf(steps[..i + 1]) == IdsOf(steps[..i]) + {steps[i].id}
  {
    assert steps[i..][1..] == steps[i + 1..];
    assert steps[..i + 1][..i] == steps[..i];
  }

  lemma MissingAt(deps: seq<string>, j: nat, ids: set<string>)
    requires j < |deps|
    ensures deps[j] !in ids ==> MissingIn(deps[j..], ids) == Some(deps[j])
    ensures deps[j] in ids ==> MissingIn(deps[j..], ids) == MissingIn(deps[j + 1..], ids)
  {
    assert deps[j..][1..] == deps[j + 1..];
  }

  lemma MissingStepAt(steps: seq<PlanDsl.PlanStep>, i: nat, ids: set<string>)
    requires i < |steps| && MissingIn(steps[i].dependencies, ids) == MissingIn(steps[i].dependencies[|steps[i].dependencies|..], ids)
    ensures FirstMissingDep(steps[i..], ids) == FirstMissingDep(steps[i + 1..], ids)
  {
    assert steps[i..][1..] == steps[i + 1..];
  }

  lemma ZeroTimeoutAt(steps: seq<PlanDsl.PlanStep>, i: nat)
    requires i < |steps|
    ensures steps[i].resources.timeoutMs == 0 ==> FirstZeroTimeout(steps[i..]) == Some(steps[i].id)
    ensures steps[i].resources.timeoutMs != 0 ==> FirstZeroTimeout(steps[i..]) == FirstZeroTimeout(steps[i + 1..])
  {
    assert steps[i..][1..] == steps[i + 1..];
  }

  /** The first check passes exactly when the ids are distinct and none was
      seen before. */
  lemma {:induction false} FirstDuplicateNone(steps: seq<PlanDsl.PlanStep>, seen: set<string>)
    ensures FirstDuplicate(steps, seen) == None <==>
      DistinctIds(steps) && forall i :: 0 <= i < |steps| ==> steps[i].id !in seen
    decreases |steps|
  {
    if steps != [] {
      var rest := steps[1..];
      FirstDuplicateNone(rest, seen + {steps[0].id});
      assert forall i :: 0 <= i < |rest| ==> rest[i] == steps[i + 1];
      if DistinctIds(steps) && forall i :: 0 <= i < |steps| ==> steps[i].id !in seen {
        assert DistinctIds(rest);
        forall i | 0 <= i < |rest| ensures rest[i].id !in seen + {steps[0].id} {
          assert steps[0].id != steps[i + 1].id;
        }
      }
      if steps[0].id !in seen && FirstDuplicate(rest, seen + {steps[0].id}) == None {
        forall i, j | 0 <= i < j < |steps| ensures steps[i].id != steps[j].id {
          if i > 0 {
            assert rest[i - 1].id != rest[j - 1].id;
          } else {
            assert rest[j - 1].id !in seen + {steps[0].id};
          }
        }
      }
    }
  }

  /** The first check reports a step whose id was seen before it, and every
      step before it had a fresh id. */
  lemma {:induction false} FirstDuplicateAt(steps: seq<PlanDsl.PlanStep>, seen: set<string>) returns (i: nat)
    requires FirstDuplicate(steps, seen).Some?
    ensures i < |steps| && steps[i].id == FirstDuplicate(steps, seen).value
    ensures steps[i].id in seen || exists k :: 0 <= k < i && steps[k].id == steps[i].id
    ensures DistinctIds(steps[..i]) && forall k :: 0 <= k < i ==> steps[k].id !in seen
    decreases |steps|
  {
    if steps[0].id in seen {
      i := 0;
    } else {
      var rest := steps[1..];
      var i' := FirstDuplicateAt(rest, seen + {steps[0].id});
      i := i' + 1;
      assert forall k :: 0 <= k < |rest| ==> rest[k] == steps[k + 1];
      if rest[i'].id == steps[0].id {
        assert steps[0].id == steps[i].id;
      } else if rest[i'].id !in seen {
        var k :| 0 <= k < i' && rest[k].id == rest[i'].id;
        assert steps[k + 1].id == steps[i].id;
      }
      forall a, b | 0 <= a < b < i ensures steps[..i][a].id != steps[..i][b].id {
        if a > 0 {
          assert rest[..i'][a - 1] == steps[..i][a] && rest[..i'][b - 1] == steps[..i][b];
        } else {
          assert rest[b - 1].id !in seen + {steps[0].id};
        }
      }
    }
  }

  /** One step's dependency check passes exactly when all its dependencies
      are known, and otherwise reports one of them that is not. */
  lemma {:induction false} MissingInSpec(deps: seq<string>, ids: set<string>)
    ensures MissingIn(deps, ids) == None <==> forall d :: d in deps ==> d in ids
    ensures MissingIn(deps, ids).Some? ==> MissingIn(deps, ids).value in deps && MissingIn(deps, ids).value !in ids
    decreases |deps|
  {
    if deps != [] {
      MissingInSpec(deps[1..], ids);
      assert deps == [deps[0]] + deps[1..];
    }
  }

  /** The second check passes exactly when every dependency is known, and
      otherwise reports a step of the plan and one of its unknown
      dependencies. */
  lemma {:induction false} FirstMissingDepSpec(steps: seq<PlanDsl.PlanStep>, ids: set<string>)
    ensures FirstMissingDep(steps, ids) == None <==> DependenciesKnown(steps, ids)
    ensures FirstMissingDep(steps, ids).Some? ==>
      exists i :: 0 <= i < |steps| && steps[i].id == FirstMissingDep(steps, ids).value.0 &&
        FirstMissingDep(steps, ids).value.1 in steps[i].dependencies &&
        FirstMissingDep(steps, ids).value.1 !in ids
    decreases |steps|
  {
    if steps != [] {
      var rest := steps[1..];
      FirstMissingDepSpec(rest, ids);
      MissingInSpec(steps[0].dependencies, ids);
      assert forall i :: 0 <= i < |rest| ==> rest[i] == steps[i + 1];
      if DependenciesKnown(rest, ids) && MissingIn(steps[0].dependencies, ids) == None {
        forall i | 0 <= i < |steps| ensures forall d :: d in steps[i].dependencies ==> d in ids {
          if i > 0 {
            assert steps[i] == rest[i - 1];
          }
        }
      }
      if FirstMissingDep(steps, ids).Some? && MissingIn(steps[0].dependencies, ids).None? {
        var i :| 0 <= i < |rest| && rest[i].id == FirstMissingDep(rest, ids).value.0 &&
          FirstMissingDep(rest, ids).value.1 in rest[i].dependencies &&
          FirstMissingDep(rest, ids).value.1 !in ids;
        assert steps[i + 1] == rest[i];
      }
    }
  }

  /** The third check passes exactly when every timeout is positive, and
      otherwise reports a step whose timeout is zero. */
  lemma {:induction false} FirstZeroTimeoutSpec(steps: seq<PlanDsl.PlanStep>)
    ensures FirstZeroTimeout(steps) == None <==> TimeoutsPositive(steps)
    ensures FirstZeroTimeout(steps).Some? ==>
      exists i :: 0 <= i < |steps| && steps[i].id == FirstZeroTimeout(steps).value && steps[i].resources.timeoutMs == 0
    decreases |steps|
  {
    if steps != [] {
      var rest := steps[1..];
      FirstZeroTimeoutSpec(rest);
      assert forall i :: 0 <= i < |rest| ==> rest[i] == steps[i + 1];
      if FirstZeroTimeout(steps).Some? && steps[0].resources.timeoutMs != 0 {
        var i :| 0 <= i < |rest| && rest[i].id == FirstZeroTimeout(rest).value && rest[i].resources.timeoutMs == 0;
        assert steps[i + 1] == rest[i];
      }
    }
  }

  /** A plan passes validation exactly when its step ids are distinct,
      every dependency names a step and every timeout is positive. */
  lemma ValidatePlanOk(steps: seq<PlanDsl.PlanStep>)
    ensures ValidatePlan(steps) == Ok(()) <==>
      DistinctIds(steps) && DependenciesKnown(steps, IdsOf(steps)) && TimeoutsPositive(steps)
  {
    FirstDuplicateNone(steps, {});
    FirstMissingDepSpec(steps, IdsOf(steps));
    FirstZeroTimeoutSpec(steps);
  }

  /** The checks are ordered: a repeated id is reported before anything
      else, and an unknown dependency before a zero timeout. */
  lemma ValidatePlanOrder(steps: seq<PlanDsl.PlanStep>)
    ensures !DistinctIds(steps) ==> ValidatePlan(steps).Err? && ValidatePlan(steps).error.DuplicateStep?
    ensures DistinctIds(steps) && !DependenciesKnown(steps, IdsOf(steps)) ==>
      ValidatePlan(steps).Err? && ValidatePlan(steps).error.DependencyNotFound?
    ensures DistinctIds(steps) && DependenciesKnown(steps, IdsOf(steps)) && !TimeoutsPositive(steps) ==>
      FirstZeroTimeout(steps).Some? &&
      ValidatePlan(steps) == Err(InvalidResource(FirstZeroTimeout(steps).value, "timeout_ms", "must be positive"))
  {
    FirstDuplicateNone(steps, {});
    FirstMissingDepSpec(steps, IdsOf(steps));
    FirstZeroTimeoutSpec(steps);
  }

  /** The error mapping of `validate_dag`: a DAG error becomes its text. */
  function FromDag(v: Result<(), PlanDag.DagError>): (r: Result<(), ValidationError>)
    ensures r.Ok? <==> v.Ok?
  {
    if v.Err? then Err(DagError(PlanDag.DagErrorText(v.error))) else Ok(())
  }

  /** `validate_dag`: the DAG's own validation, its error turned into text. */
  method ValidateDag(dag: PlanDag.Dag) returns (r: Result<(), ValidationError>)
    requires dag.Valid()
    ensures r == Ok(())
  {
    var v := dag.Validate();
    r := FromDag(v);
  }

  /** `validate_dag` over the DAG validation as written, which runs the
      topological order as written: any edge makes it fail with the cycle
      message. */
  method ValidateDagAsWritten(dag: PlanDag.Dag) returns (r: Result<(), ValidationError>)
    requires dag.Valid()
    ensures r == Ok(()) <==> Graphs.NoEdges(dag.edges)
    ensures r.Err? ==> r.error == DagError(PlanDag.DagErrorText(PlanDag.UnknownCycle))
  {
    var v := dag.ValidateAsWritten();
    r := FromDag(v);
  }
}
