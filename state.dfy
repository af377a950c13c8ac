/** Agent state (crates/oracle_omen_core/src/state.rs): a versioned map from
    domain names to typed data that is rehashed after every change, plus the
    value types an agent's state machine exchanges. */
module CoreState {
  import opened Wrappers
  import Text
  import Hashing

  /** `StateValue`. `F64` carries the float's bit pattern and is never
      compared numerically. */
  datatype StateValue =
    | String(s: string)
    | Bool(b: bool)
    | U64(u: nat)
    | I64(i: int)
    | F64(bits: nat)
    | Bytes(bytes: seq<Hashing.Byte>)
    | HashValue(h: Hashing.Hash)
    | NoneValue

  /** `StateValue::type_name`. */
  function TypeName(v: StateValue): string {
    match v
    case String(_) => "string"
    case Bool(_) => "bool"
    case U64(_) => "u64"
    case I64(_) => "i64"
    case F64(_) => "f64"
    case Bytes(_) => "bytes"
    case HashValue(_) => "hash"
    case NoneValue => "none"
  }

  /** Values of different variants have different type names. */
  lemma TypeNameDistinguishesVariants(a: StateValue, b: StateValue)
    ensures TypeName(a) == TypeName(b) <==>
              (a.String? == b.String? && a.Bool? == b.Bool? && a.U64? == b.U64? && a.I64? == b.I64?
               && a.F64? == b.F64? && a.Bytes? == b.Bytes? && a.HashValue? == b.HashValue?)
  {
  }

  /** `StateData`. */
  datatype StateData =
    | Value(value: StateValue)
    | Map(entries: map<string, StateValue>)
    | Vec(items: seq<StateValue>)

  function ValueJson(v: StateValue): Hashing.Json {
    match v
    case String(s) => Hashing.JObj([Hashing.Field("String", Hashing.JStr(s))])
    case Bool(b) => Hashing.JObj([Hashing.Field("Bool", Hashing.JBool(b))])
    case U64(u) => Hashing.JObj([Hashing.Field("U64", Hashing.JInt(u))])
    case I64(i) => Hashing.JObj([Hashing.Field("I64", Hashing.JInt(i))])
    case F64(bits) => Hashing.JObj([Hashing.Field("F64", Hashing.JInt(bits))])
    case Bytes(bs) => Hashing.JObj([Hashing.Field("Bytes",
        Hashing.JArr(seq(|bs|, k requires 0 <= k < |bs| => Hashing.JInt(bs[k]))))])
    case HashValue(h) => Hashing.JObj([Hashing.Field("Hash", Hashing.HashJson(h))])
    case NoneValue => Hashing.JStr("None")
  }

  function DataJson(d: StateData): Hashing.Json {
    match d
    case Value(v) => Hashing.JObj([Hashing.Field("Value", ValueJson(v))])
    case Map(m) =>
      var keys := Text.Sorted(m.Keys);
      Hashing.JObj([Hashing.Field("Map",
        Hashing.JObj(seq(|keys|, k requires 0 <= k < |keys| => Hashing.Field(keys[k], ValueJson(m[keys[k]])))))])
    case Vec(items) => Hashing.JObj([Hashing.Field("Vec",
        Hashing.JArr(seq(|items|, k requires 0 <= k < |items| => ValueJson(items[k]))))])
  }

  /** The canonical JSON of the `data` map: an object in ascending key order. */
  function DataMapJson(data: map<string, StateData>): Hashing.Json {
    var keys := Text.Sorted(data.Keys);
    Hashing.JObj(seq(|keys|, k requires 0 <= k < |keys| => Hashing.Field(keys[k], DataJson(data[keys[k]]))))
  }

  /** What `rehash` stores: `Hash::from_canonical(&self.data)`. */
  function DataHash(data: map<string, StateData>): Hashing.Hash {
    Hashing.FromCanonical(DataMapJson(data))
  }

  /** The value of an `AgentState`, as a clone of it holds. */
  datatype StateRecord = StateRecord(version: nat, data: map<string, StateData>, stateHash: Hashing.Hash)

  /** The hash stored in the record is the hash of its data. */
  predicate Consistent(r: StateRecord) {
    r.stateHash == DataHash(r.data)
  }

  /** `AgentState::initial`. */
  function InitialRecord(): (r: StateRecord)
    ensures r.version == 0 && r.data == map[] && r.stateHash == Hashing.Zero()
  {
    StateRecord(0, map[], Hashing.Zero())
  }

  /** `AgentState::with_run_id`. */
  function WithRunIdRecord(runId: nat): (r: StateRecord)
    ensures r.version == 0 && r.data == map["system" := Value(U64(runId))] && Consistent(r)
  {
    var data := map["system" := Value(U64(runId))];
    StateRecord(0, data, DataHash(data))
  }

  /** The state after `set(domain, d)`. */
  function SetRecord(r: StateRecord, domain: string, d: StateData): StateRecord {
    var data := r.data[domain := d];
    StateRecord(r.version + 1, data, DataHash(data))
  }

  /** The state after `remove(domain)`, and the value removed. */
  function RemoveRecord(r: StateRecord, domain: string): (StateRecord, Option<StateData>) {
    if domain in r.data then
      var data := r.data - {domain};
      (StateRecord(r.version + 1, data, DataHash(data)), Some(r.data[domain]))
    else (r, None)
  }

  /** `set` writes one domain, leaves every other domain as it was, raises the
      version by one and leaves the state consistent. */
  lemma SetEffect(r: StateRecord, domain: string, d: StateData, other: string)
    ensures var s := SetRecord(r, domain, d);
      && s.data.Keys == r.data.Keys + {domain} && s.data[domain] == d
      && (other != domain ==> (other in s.data <==> other in r.data) && (other in r.data ==> s.data[other] == r.data[other]))
      && s.version == r.version + 1 && Consistent(s)
  {
  }

  /** `remove` of a present domain drops exactly that domain, returns its old
      value, raises the version and leaves the state consistent; of an absent
      domain it changes nothing. */
  lemma RemoveEffect(r: StateRecord, domain: string)
    ensures var (s, old_) := RemoveRecord(r, domain);
      if domain in r.data then
        old_ == Some(r.data[domain]) && s.data.Keys == r.data.Keys - {domain}
        && (forall k :: k in s.data ==> s.data[k] == r.data[k])
        && s.version == r.version + 1 && Consistent(s)
      else old_ == None && s == r
  {
  }

  /** A sequence of `set` calls. */
  function SetAll(r: StateRecord, ops: seq<(string, StateData)>): StateRecord
    decreases |ops|
  {
    if ops == [] then r else SetAll(SetRecord(r, ops[0].0, ops[0].1), ops[1..])
  }

  /** The hash after a non-empty sequence of `set`s depends only on the data it
      started from, not on the version or the stored hash: the same calls
      from `initial()` give the same hash, so `matches` holds. */
  lemma {:induction false} SetAllHash(r1: StateRecord, r2: StateRecord, ops: seq<(string, StateData)>)
    requires r1.data == r2.data && ops != []
    ensures SetAll(r1, ops).data == SetAll(r2, ops).data
    ensures SetAll(r1, ops).stateHash == SetAll(r2, ops).stateHash
    ensures SetAll(r1, ops).version - r1.version == SetAll(r2, ops).version - r2.version == |ops|
    decreases |ops|
  {
    var s1, s2 := SetRecord(r1, ops[0].0, ops[0].1), SetRecord(r2, ops[0].0, ops[0].1);
    if |ops| > 1 {
      SetAllHash(s1, s2, ops[1..]);
    }
  }

  /** `AgentState { version, data, state_hash }`, changed in place by `set`
      and `remove`. */
  class AgentState {
    var version: nat
    var data: map<string, StateData>
    var stateHash: Hashing.Hash

    function Record(): StateRecord
      reads this
    {
      StateRecord(version, data, stateHash)
    }

    /** `AgentState::initial`: version 0, no data, the zero hash. */
    constructor Initial()
      ensures Record() == InitialRecord()
    {
      version := 0;
      data := map[];
      stateHash := Hashing.Zero();
    }

    /** `AgentState::with_run_id`: one `system` entry, then rehashed. */
    constructor WithRunId(runId: nat)
      ensures Record() == WithRunIdRecord(runId)
    {
      version := 0;
      data := map["system" := Value(U64(runId))];
      new;
      Rehash();
    }

    /** `AgentState::get`. */
    function Get(domain: string): Option<StateData>
      reads this
    {
      if domain in data then Some(data[domain]) else None
    }

    /** `set`: insert, bump the version, rehash. */
    method Set(domain: string, d: StateData)
      modifies this
      ensures Record() == SetRecord(old(Record()), domain, d)
    {
      data := data[domain := d];
      version := version + 1;
      Rehash();
    }

    /** `remove`: on a present domain remove, bump and rehash; on an absent
        one change nothing. */
    method Remove(domain: string) returns (result: Option<StateData>)
      modifies this
      ensures (Record(), result) == RemoveRecord(old(Record()), domain)
    {
      result := Get(domain);
      if result.Some? {
        data := data - {domain};
        version := version + 1;
        Rehash();
      }
    }

    /** `rehash`. */
    method Rehash()
      modifies this
      ensures stateHash == DataHash(data) && data == old(data) && version == old(version)
    {
      stateHash := DataHash(data);
    }

    /** `matches`: only the hashes are compared. */
    predicate Matches(other: AgentState)
      reads this, other
    {
      stateHash == other.stateHash
    }

    /** `Clone`. */
    method Clone() returns (c: AgentState)
      ensures fresh(c) && c.Record() == Record()
    {
      c := new AgentState.Initial();
      c.version, c.data, c.stateHash := version, data, stateHash;
    }

    /** `AgentState::from` a record, for a state held by value. */
    constructor FromRecord(r: StateRecord)
      ensures Record() == r
    {
      version, data, stateHash := r.version, r.data, r.stateHash;
    }
  }

  // ---------------------------------------------------------------------
  // Transitions and the values around them

  /** `StateTransition`. */
  datatype StateTransition = StateTransition(
    fromHash: Hashing.Hash, toState: StateRecord, eventHash: Hashing.Hash, transitionHash: Hashing.Hash)

  /** `StateTransition::new`: the transition hash combines the previous hash,
      the event hash and the new state's hash, in that order. */
  function NewStateTransition(fromHash: Hashing.Hash, toState: StateRecord, eventHash: Hashing.Hash): (t: StateTransition)
    ensures t.transitionHash == Hashing.Combined([fromHash, eventHash, toState.stateHash])
    ensures t.transitionHash == Hashing.FromBytes(fromHash + eventHash + toState.stateHash)
  {
    Hashing.TransitionHashBytes(fromHash, eventHash, toState.stateHash);
    StateTransition(fromHash, toState, eventHash, Hashing.TransitionHash(fromHash, eventHash, toState.stateHash))
  }

  datatype PatchType = Prompt | Policy | Routing | Config | Tools | Other(name: string)

  datatype ToolCall = ToolCall(toolName: string, toolVersion: string, input: string, capabilities: seq<string>)

  datatype PatchProposal = PatchProposal(patchType: PatchType, target: string, patch: string, reasoning: string,
                                         testRequirements: seq<string>)

  /** `Decision`. */
  datatype Decision =
    | NoAction
    | Call(call: ToolCall)
    | Propose(proposal: PatchProposal)
    | Multiple(decisions: seq<Decision>)

  /** `Transition`. */
  datatype Transition = Transition(state: StateRecord, decision: Decision, transitionHash: Hashing.Hash)

  /** `Transition::new`: the transition hash is the state's hash. */
  function NewTransition(state: StateRecord, decision: Decision): (t: Transition)
    ensures t.transitionHash == state.stateHash && t.state == state && t.decision == decision
  {
    Transition(state, decision, state.stateHash)
  }

  /** `ToolResponse` as the state machine receives it. */
  datatype ToolResponse = ToolResponse(toolName: string, data: StateData, success: bool, error: Option<string>)

  /** `ToolResponse::success`. */
  function SuccessResponse(toolName: string, data: StateData): (r: ToolResponse)
    ensures r.success && r.error.None? && r.data == data && r.toolName == toolName
  {
    ToolResponse(toolName, data, true, None)
  }

  /** `ToolResponse::error`. */
  function ErrorResponse(toolName: string, error: string): (r: ToolResponse)
    ensures !r.success && r.error == Some(error) && r.data == Value(NoneValue) && r.toolName == toolName
  {
    ToolResponse(toolName, Value(NoneValue), false, Some(error))
  }

  /** A response reports an error exactly when it is not a success, for both
      constructors. */
  lemma ResponseConstructors(name: string, data: StateData, error: string)
    ensures SuccessResponse(name, data).success != SuccessResponse(name, data).error.Some?
    ensures ErrorResponse(name, error).success != ErrorResponse(name, error).error.Some?
  {
  }
}
