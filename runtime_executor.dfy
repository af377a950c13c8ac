/** The DAG executor (crates/oracle_omen_runtime/src/executor.rs): its error
    type, the execution state and per-node results, and the executor whose
    `execute` is still a stub that hands back its state. */
module RuntimeExecutor {
  import opened Wrappers
  import Text
  import CoreCapability
  import PlanDag

  /** `ExecError`. */
  datatype ExecError =
    | CapabilityDenied(capability: string, reason: string)
    | ToolNotFound(name: string)
    | Timeout(node: string, durationMs: nat)
    | Failed(node: string, reason: string)
    | ResourceExceeded(node: string, limit: string)
    | InvalidState(message: string)

  /** The `Display` text of an error. */
  function ErrorText(e: ExecError): string {
    match e
    case CapabilityDenied(capability, reason) => "Capability denied '" + capability + "': " + reason
    case ToolNotFound(name) => "Tool not found: " + name
    case Timeout(node, durationMs) => "Node " + node + " timed out after " + Text.Decimal(durationMs) + "ms"
    case Failed(node, reason) => "Node " + node + " failed: " + reason
    case ResourceExceeded(node, limit) => "Node " + node + " exceeded limit: " + limit
    case InvalidState(message) => "Invalid state: " + message
  }

  /** An `InvalidState` text starts with its fixed prefix and ends with the
      message, so the message can be read back from it. */
  lemma InvalidStateText(m: string, m': string)
    ensures Text.StartsWith(ErrorText(InvalidState(m)), "Invalid state: ")
    ensures ErrorText(InvalidState(m))[15..] == m
    ensures ErrorText(InvalidState(m)) == ErrorText(InvalidState(m')) ==> m == m'
  {
    var t, t' := ErrorText(InvalidState(m)), ErrorText(InvalidState(m'));
    assert t[15..] == m && t'[15..] == m';
  }

  /** `NodeResult`. */
  datatype NodeResult = NodeResult(nodeId: string, success: bool, output: Option<string>, error: Option<string>, durationMs: nat)

  /** A result carries an output exactly when it succeeded and an error
      message exactly when it did not. */
  predicate WellFormed(r: NodeResult) {
    r.success == r.output.Some? && r.success == r.error.None?
  }

  /** `NodeResult::success`. */
  function Success(nodeId: string, output: string, durationMs: nat): (r: NodeResult)
    ensures WellFormed(r) && r.success
    ensures r.nodeId == nodeId && r.output == Some(output) && r.durationMs == durationMs
  {
    NodeResult(nodeId, true, Some(output), None, durationMs)
  }

  /** `NodeResult::failure`. */
  function Failure(nodeId: string, error: string, durationMs: nat): (r: NodeResult)
    ensures WellFormed(r) && !r.success
    ensures r.nodeId == nodeId && r.error == Some(error) && r.durationMs == durationMs
  {
    NodeResult(nodeId, false, None, Some(error), durationMs)
  }

  /** A success and a failure are never equal, whatever they carry. */
  lemma SuccessIsNotFailure(id: string, output: string, d: nat, id': string, error: string, d': nat)
    ensures Success(id, output, d) != Failure(id', error, d')
  {
    assert Success(id, output, d).success != Failure(id', error, d').success;
  }

  /** `ExecState`. */
  datatype ExecState = ExecState(completed: seq<string>, failed: seq<string>, current: Option<string>, results: map<string, NodeResult>)

  /** `ExecState::is_complete`: something completed and nothing is running. */
  predicate IsComplete(s: ExecState) {
    s.completed != [] && s.current.None?
  }

  /** `ExecState::has_failed`. */
  predicate HasFailed(s: ExecState) {
    s.failed != []
  }

  /** `ExecState::new` (and `Default`): empty, neither complete nor
      failed. */
  function NewState(): (s: ExecState)
    ensures s.completed == [] && s.failed == [] && s.current == None && s.results == map[]
    ensures !IsComplete(s) && !HasFailed(s)
  {
    ExecState([], [], None, map[])
  }

  /** `DagExecutor`. */
  datatype DagExecutor = DagExecutor(capabilities: CoreCapability.CapabilitySet, state: ExecState)

  /** `DagExecutor::new`: the granted capabilities and a fresh state. */
  function NewExecutor(capabilities: CoreCapability.CapabilitySet): (x: DagExecutor)
    ensures x.capabilities == capabilities && x.state == NewState()
    ensures !IsComplete(x.state) && !HasFailed(x.state)
  {
    DagExecutor(capabilities, NewState())
  }

  /** `DagExecutor::execute`: the node loop is commented out, so it returns
      a copy of the current state and leaves the executor as it was. */
  function Execute(x: DagExecutor, dag: PlanDag.Dag): (r: (DagExecutor, Result<ExecState, ExecError>))
    ensures r.0 == x && r.1 == Ok(x.state)
  {
    (x, Ok(x.state))
  }

  /** A property of `execute` as written, whose node loop is commented
      out: running it again changes nothing, and a new executor hands back
      the new state. A real node loop would not keep this. */
  lemma ExecuteTwice(x: DagExecutor, dag: PlanDag.Dag)
    ensures Execute(Execute(x, dag).0, dag) == Execute(x, dag)
    ensures Execute(NewExecutor(x.capabilities), dag).1 == Ok(NewState())
  {
  }

  /** An executor created with no capabilities holds none. */
  lemma ExecutorCreation()
    ensures |NewExecutor(CoreCapability.Empty()).capabilities.inner| == 0
  {
  }
}
