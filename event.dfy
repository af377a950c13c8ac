/** The hash-chained event log (crates/oracle_omen_core/src/event.rs):
    event identifiers, typed payloads, events, and the append-only log that
    admits an event only after four checks. */
module CoreEvent {
  import opened Wrappers
  import Text
  import Hashing
  import Time
  import CoreCapability

  // ---------------------------------------------------------------------
  // Event identifiers

  /** `EventId { run_id, sequence }`; `EventId::new` is the constructor. */
  datatype EventId = EventId(runId: nat, sequence: nat)

  /** `EventId::initial`. */
  function InitialId(runId: nat): (id: EventId)
    ensures id.runId == runId && id.sequence == 0
  {
    EventId(runId, 0)
  }

  /** `EventId::next`. */
  function NextId(id: EventId): EventId {
    EventId(id.runId, id.sequence + 1)
  }

  /** `EventId::to_logical_time`. */
  function ToLogicalTime(id: EventId): Time.LogicalTime {
    Time.LogicalTime(id.runId, id.sequence)
  }

  /** `From<LogicalTime> for EventId`. */
  function FromLogicalTime(t: Time.LogicalTime): EventId {
    EventId(t.runId, t.sequence)
  }

  /** `next` keeps the run and moves one step on, in step with
      `LogicalTime::next`; the two conversions are mutual inverses. */
  lemma EventIdTime(id: EventId, t: Time.LogicalTime)
    ensures NextId(id).runId == id.runId && NextId(id).sequence == id.sequence + 1
    ensures ToLogicalTime(NextId(id)) == Time.Next(ToLogicalTime(id))
    ensures FromLogicalTime(ToLogicalTime(id)) == id
    ensures ToLogicalTime(FromLogicalTime(t)) == t
  {
  }

  /** `Display for EventId`: `E(run:seq)`. */
  function IdString(id: EventId): string {
    "E(" + Text.Decimal(id.runId) + ":" + Text.Decimal(id.sequence) + ")"
  }

  // ---------------------------------------------------------------------
  // Event kinds and payloads

  datatype EventKind =
    | AgentInit | StateTransition | ToolRequest | ToolResponse | CapabilityDenied
    | Observation | Decision | MemoryWrite | MemoryRead | PatchProposal
    | PatchApplied | PatchRejected | Error | Snapshot | Custom(name: string)

  /** `EventKind::as_str`. */
  function KindStr(k: EventKind): string {
    match k
    case AgentInit => "agent_init"
    case StateTransition => "state_transition"
    case ToolRequest => "tool_request"
    case ToolResponse => "tool_response"
    case CapabilityDenied => "capability_denied"
    case Observation => "observation"
    case Decision => "decision"
    case MemoryWrite => "memory_write"
    case MemoryRead => "memory_read"
    case PatchProposal => "patch_proposal"
    case PatchApplied => "patch_applied"
    case PatchRejected => "patch_rejected"
    case Error => "error"
    case Snapshot => "snapshot"
    case Custom(s) => s
  }

  /** The built-in kinds have distinct names, so `as_str` identifies them. */
  lemma KindStrInjective(a: EventKind, b: EventKind)
    requires !a.Custom? && !b.Custom?
    ensures KindStr(a) == KindStr(b) ==> a == b
  {
  }

  /** `EventPayload`, one variant per kind, each carrying its payload
      struct's fields. */
  datatype EventPayload =
    | AgentInitPayload(agentType: string, agentVersion: string, config: map<string, string>)
    | StateTransitionPayload(fromHash: Hashing.Hash, toHash: Hashing.Hash, transitionType: string)
    | ToolRequestPayload(toolName: string, toolVersion: string, requestHash: Hashing.Hash,
                         capabilities: seq<CoreCapability.Capability>, input: string)
    | ToolResponsePayload(toolName: string, requestHash: Hashing.Hash, responseHash: Hashing.Hash,
                          output: string, success: bool, error: Option<string>, durationMs: nat)
    | CapabilityDeniedPayload(capability: CoreCapability.Capability, toolName: string, reason: string)
    | ObservationPayload(obsType: string, data: map<string, string>, source: string)
    | DecisionPayload(decisionType: string, data: map<string, string>, reasoning: Option<string>)
    | MemoryWritePayload(memory: MemoryPayload)
    | MemoryReadPayload(memory: MemoryPayload)
    | PatchProposalPayload(patch: PatchPayload)
    | PatchAppliedPayload(patch: PatchPayload)
    | PatchRejectedPayload(patchHash: Hashing.Hash, reason: string, stage: string)
    | ErrorPayload(errorType: string, message: string, component: string, recoverable: bool)
    | SnapshotPayload(snapshotId: string, atSequence: nat, stateHash: Hashing.Hash, eventsBefore: nat)
    | RawPayload(raw: map<string, string>)

  datatype MemoryPayload = MemoryPayload(operation: string, key: string, valueHash: Option<Hashing.Hash>, causalEvent: EventId)

  datatype PatchPayload = PatchPayload(patchType: string, target: string, patchHash: Hashing.Hash, reasoning: string)

  /** `EventPayload::kind`. */
  function PayloadKind(p: EventPayload): EventKind {
    match p
    case AgentInitPayload(_, _, _) => AgentInit
    case StateTransitionPayload(_, _, _) => StateTransition
    case ToolRequestPayload(_, _, _, _, _) => ToolRequest
    case ToolResponsePayload(_, _, _, _, _, _, _) => ToolResponse
    case CapabilityDeniedPayload(_, _, _) => CapabilityDenied
    case ObservationPayload(_, _, _) => Observation
    case DecisionPayload(_, _, _) => Decision
    case MemoryWritePayload(_) => MemoryWrite
    case MemoryReadPayload(_) => MemoryRead
    case PatchProposalPayload(_) => PatchProposal
    case PatchAppliedPayload(_) => PatchApplied
    case PatchRejectedPayload(_, _, _) => PatchRejected
    case ErrorPayload(_, _, _, _) => Error
    case SnapshotPayload(_, _, _, _) => Snapshot
    case RawPayload(_) => Custom("raw")
  }

  /** Only a raw payload has a custom kind, and its name is `raw`; every other
      kind is named after its payload variant. */
  lemma PayloadKindCustom(p: EventPayload)
    ensures PayloadKind(p).Custom? <==> p.RawPayload?
    ensures p.RawPayload? ==> KindStr(PayloadKind(p)) == "raw"
    ensures p.StateTransitionPayload? <==> PayloadKind(p) == StateTransition
  {
  }

  function S(s: string): Hashing.Json { Hashing.JStr(s) }

  function N(n: nat): Hashing.Json { Hashing.JInt(n) }

  function H(h: Hashing.Hash): Hashing.Json { Hashing.HashJson(h) }

  function OptS(o: Option<string>): Hashing.Json {
    match o
    case None => Hashing.JNull
    case Some(s) => S(s)
  }

  function OptH(o: Option<Hashing.Hash>): Hashing.Json {
    match o
    case None => Hashing.JNull
    case Some(h) => H(h)
  }

  function IdJson(id: EventId): Hashing.Json {
    Hashing.JObj([Hashing.Field("run_id", N(id.runId)), Hashing.Field("sequence", N(id.sequence))])
  }

  function OptIdJson(o: Option<EventId>): Hashing.Json {
    match o
    case None => Hashing.JNull
    case Some(id) => IdJson(id)
  }

  function KindJson(k: EventKind): Hashing.Json {
    match k
    case Custom(s) => Hashing.JObj([Hashing.Field("Custom", S(s))])
    case AgentInit => S("AgentInit")
    case StateTransition => S("StateTransition")
    case ToolRequest => S("ToolRequest")
    case ToolResponse => S("ToolResponse")
    case CapabilityDenied => S("CapabilityDenied")
    case Observation => S("Observation")
    case Decision => S("Decision")
    case MemoryWrite => S("MemoryWrite")
    case MemoryRead => S("MemoryRead")
    case PatchProposal => S("PatchProposal")
    case PatchApplied => S("PatchApplied")
    case PatchRejected => S("PatchRejected")
    case Error => S("Error")
    case Snapshot => S("Snapshot")
  }

  function Tagged(tag: string, fields: seq<Hashing.Field>): Hashing.Json {
    Hashing.JObj([Hashing.Field(tag, Hashing.JObj(fields))])
  }

  function CapsJson(caps: seq<CoreCapability.Capability>): Hashing.Json {
    Hashing.JArr(seq(|caps|, k requires 0 <= k < |caps| => S(caps[k].name)))
  }

  function MemoryJson(m: MemoryPayload): seq<Hashing.Field> {
    [Hashing.Field("operation", S(m.operation)), Hashing.Field("key", S(m.key)),
     Hashing.Field("value_hash", OptH(m.valueHash)), Hashing.Field("causal_event", IdJson(m.causalEvent))]
  }

  function PatchJson(p: PatchPayload): seq<Hashing.Field> {
    [Hashing.Field("patch_type", S(p.patchType)), Hashing.Field("target", S(p.target)),
     Hashing.Field("patch_hash", H(p.patchHash)), Hashing.Field("reasoning", S(p.reasoning))]
  }

  /** The serde form of a payload: an externally tagged enum whose structs
      keep field order and whose maps list keys in ascending order. */
  function PayloadJson(p: EventPayload): Hashing.Json {
    match p
    case AgentInitPayload(t, v, c) =>
      Tagged("AgentInit", [Hashing.Field("agent_type", S(t)), Hashing.Field("agent_version", S(v)),
                           Hashing.Field("config", Hashing.StringMapJson(c))])
    case StateTransitionPayload(f, t, ty) =>
      Tagged("StateTransition", [Hashing.Field("from_hash", H(f)), Hashing.Field("to_hash", H(t)),
                                 Hashing.Field("transition_type", S(ty))])
    case ToolRequestPayload(n, v, r, c, i) =>
      Tagged("ToolRequest", [Hashing.Field("tool_name", S(n)), Hashing.Field("tool_version", S(v)),
                             Hashing.Field("request_hash", H(r)), Hashing.Field("capabilities", CapsJson(c)),
                             Hashing.Field("input", S(i))])
    case ToolResponsePayload(n, rq, rs, o, ok, e, d) =>
      Tagged("ToolResponse", [Hashing.Field("tool_name", S(n)), Hashing.Field("request_hash", H(rq)),
                              Hashing.Field("response_hash", H(rs)), Hashing.Field("output", S(o)),
                              Hashing.Field("success", Hashing.JBool(ok)), Hashing.Field("error", OptS(e)),
                              Hashing.Field("duration_ms", N(d))])
    case CapabilityDeniedPayload(c, n, r) =>
      Tagged("CapabilityDenied", [Hashing.Field("capability", S(c.name)), Hashing.Field("tool_name", S(n)),
                                  Hashing.Field("reason", S(r))])
    case ObservationPayload(t, d, s) =>
      Tagged("Observation", [Hashing.Field("obs_type", S(t)), Hashing.Field("data", Hashing.StringMapJson(d)),
                             Hashing.Field("source", S(s))])
    case DecisionPayload(t, d, r) =>
      Tagged("Decision", [Hashing.Field("decision_type", S(t)), Hashing.Field("data", Hashing.StringMapJson(d)),
                          Hashing.Field("reasoning", OptS(r))])
    case MemoryWritePayload(m) => Tagged("MemoryWrite", MemoryJson(m))
    case MemoryReadPayload(m) => Tagged("MemoryRead", MemoryJson(m))
    case PatchProposalPayload(pp) => Tagged("PatchProposal", PatchJson(pp))
    case PatchAppliedPayload(pp) => Tagged("PatchApplied", PatchJson(pp))
    case PatchRejectedPayload(h, r, s) =>
      Tagged("PatchRejected", [Hashing.Field("patch_hash", H(h)), Hashing.Field("reason", S(r)),
                               Hashing.Field("stage", S(s))])
    case ErrorPayload(t, m, c, r) =>
      Tagged("Error", [Hashing.Field("error_type", S(t)), Hashing.Field("message", S(m)),
                       Hashing.Field("component", S(c)), Hashing.Field("recoverable", Hashing.JBool(r))])
    case SnapshotPayload(i, a, h, b) =>
      Tagged("Snapshot", [Hashing.Field("snapshot_id", S(i)), Hashing.Field("at_sequence", N(a)),
                          Hashing.Field("state_hash", H(h)), Hashing.Field("events_before", N(b))])
    case RawPayload(r) => Hashing.JObj([Hashing.Field("Raw", Hashing.StringMapJson(r))])
  }

  /** `EventPayload::hash`. */
  function PayloadHash(p: EventPayload): Hashing.Hash {
    Hashing.FromCanonical(PayloadJson(p))
  }

  // ---------------------------------------------------------------------
  // Events

  /** `Event`. */
  datatype Event = Event(
    id: EventId,
    parentId: Option<EventId>,
    kind: EventKind,
    timestamp: Time.LogicalTime,
    payload: EventPayload,
    payloadHash: Hashing.Hash,
    stateHashBefore: Option<Hashing.Hash>,
    stateHashAfter: Option<Hashing.Hash>)

  /** `Event::verify_payload_hash`. */
  predicate VerifyPayloadHash(e: Event) {
    e.payloadHash == PayloadHash(e.payload)
  }

  /** `Event::new`: no parent and no state hashes; the payload hash is
      computed, so the event verifies. */
  function NewEvent(id: EventId, kind: EventKind, timestamp: Time.LogicalTime, payload: EventPayload): (e: Event)
    ensures VerifyPayloadHash(e) && e.parentId.None?
    ensures e.stateHashBefore.None? && e.stateHashAfter.None?
    ensures e.id == id && e.kind == kind && e.timestamp == timestamp && e.payload == payload
  {
    Event(id, None, kind, timestamp, payload, PayloadHash(payload), None, None)
  }

  /** `Event::with_parent`. */
  function WithParent(id: EventId, parent: EventId, kind: EventKind, timestamp: Time.LogicalTime,
                      payload: EventPayload): (e: Event)
    ensures VerifyPayloadHash(e) && Follows(e, parent)
    ensures e.stateHashBefore.None? && e.stateHashAfter.None?
    ensures e.id == id && e.kind == kind && e.timestamp == timestamp && e.payload == payload
  {
    Event(id, Some(parent), kind, timestamp, payload, PayloadHash(payload), None, None)
  }

  /** `Event::with_state_hashes`: both hashes set, the rest kept. */
  function WithStateHashes(e: Event, before: Hashing.Hash, after: Hashing.Hash): (r: Event)
    ensures r.stateHashBefore == Some(before) && r.stateHashAfter == Some(after)
    ensures r.(stateHashBefore := None, stateHashAfter := None) == e.(stateHashBefore := None, stateHashAfter := None)
    ensures VerifyPayloadHash(r) == VerifyPayloadHash(e)
  {
    e.(stateHashBefore := Some(before), stateHashAfter := Some(after))
  }

  /** `Event::follows`. */
  predicate Follows(e: Event, parent: EventId) {
    e.parentId == Some(parent)
  }

  function EventJson(e: Event): Hashing.Json {
    Hashing.JObj([
      Hashing.Field("id", IdJson(e.id)),
      Hashing.Field("parent_id", OptIdJson(e.parentId)),
      Hashing.Field("kind", KindJson(e.kind)),
      Hashing.Field("timestamp", IdJson(FromLogicalTime(e.timestamp))),
      Hashing.Field("payload", PayloadJson(e.payload)),
      Hashing.Field("payload_hash", H(e.payloadHash)),
      Hashing.Field("state_hash_before", OptH(e.stateHashBefore)),
      Hashing.Field("state_hash_after", OptH(e.stateHashAfter))])
  }

  /** `Event::event_hash`: the canonical hash of the whole event. */
  function EventHash(e: Event): Hashing.Hash {
    Hashing.FromCanonical(EventJson(e))
  }

  // ---------------------------------------------------------------------
  // The log

  datatype EventLogError =
    | InvalidEventId(id: string)
    | ParentNotFound(parent: string)
    | HashMismatch(expected: string, actual: string)
    | CorruptedLog(message: string)

  /** `EventLogSnapshot`. */
  datatype EventLogSnapshot = EventLogSnapshot(runId: nat, atSequence: nat, lastEventId: Option<EventId>)

  /** The first check of `append` that an event fails against a log with
      this run id, events and index, or `None` when it passes all four. */
  function AppendCheck(runId: nat, events: seq<Event>, index: map<EventId, nat>, e: Event): Option<EventLogError> {
    if e.id.runId != runId then
      Some(CorruptedLog("Event run_id mismatch: expected " + Text.Decimal(runId) + ", got " + Text.Decimal(e.id.runId)))
    else if e.id.sequence != |events| then
      Some(CorruptedLog("Event sequence mismatch: expected " + Text.Decimal(|events|) + ", got " + Text.Decimal(e.id.sequence)))
    else if e.parentId.Some? && e.parentId.value !in index then
      Some(ParentNotFound(IdString(e.parentId.value)))
    else if !VerifyPayloadHash(e) then
      Some(HashMismatch(Hashing.Hex(e.payloadHash), Hashing.Hex(PayloadHash(e.payload))))
    else None
  }

  /** `EventLog { run_id, events, index }`. */
  class EventLog {
    const runId: nat
    var events: seq<Event>
    var index: map<EventId, nat>

    /** The log as `new` plus `append` build it: event `i` has id
        `(run_id, i)`, the index maps exactly those ids to their positions,
        every payload hash verifies and every parent is an earlier event. */
    ghost predicate Valid()
      reads this
    {
      && (forall i :: 0 <= i < |events| ==> events[i].id == EventId(runId, i))
      && (forall id :: id in index <==> id.runId == runId && id.sequence < |events|)
      && (forall id :: id in index ==> index[id] == id.sequence)
      && (forall i :: 0 <= i < |events| ==> VerifyPayloadHash(events[i]))
      && (forall i :: 0 <= i < |events| && events[i].parentId.Some? ==>
            events[i].parentId.value.runId == runId && events[i].parentId.value.sequence < i)
    }

    /** `EventLog::new`. */
    constructor (runId: nat)
      ensures this.runId == runId && events == [] && index == map[]
      ensures Valid()
    {
      this.runId := runId;
      events := [];
      index := map[];
    }

    /** `append`: the four checks in order; on any error nothing changes,
        otherwise the event goes last and the index maps its id to the old
        length. The class invariant is preserved. */
    method Append(e: Event) returns (r: Result<(), EventLogError>)
      modifies this
      ensures var check := AppendCheck(runId, old(events), old(index), e);
        if check.Some? then r == Err(check.value) && events == old(events) && index == old(index)
        else r == Ok(()) && events == old(events) + [e] && index == old(index)[e.id := old(|events|)]
      ensures old(Valid()) ==> Valid()
    {
      var check := AppendCheck(runId, events, index, e);
      if check.Some? {
        return Err(check.value);
      }
      var idx := |events|;
      index := index[e.id := idx];
      events := events + [e];
      return Ok(());
    }

    /** `get`: the indexed event, if any. */
    function Get(id: EventId): Option<Event>
      reads this
    {
      if id in index && index[id] < |events| then Some(events[index[id]]) else None
    }

    /** `get_by_sequence`. */
    function GetBySequence(sequence: nat): Option<Event>
      reads this
    {
      if sequence < |events| then Some(events[sequence]) else None
    }

    /** `last`. */
    function Last(): Option<Event>
      reads this
    {
      if events == [] then None else Some(events[|events| - 1])
    }

    /** `len`. */
    function Len(): nat
      reads this
    {
      |events|
    }

    /** `snapshot`. */
    function Snapshot(): EventLogSnapshot
      reads this
    {
      EventLogSnapshot(runId, |events|, match Last() case None => None case Some(e) => Some(e.id))
    }

    /** In a valid log `get(id)` finds an event exactly when the id belongs to
        this run and its sequence is below the length, and then it is the
        event with that id, found also by `get_by_sequence`. */
    lemma GetIff(id: EventId)
      requires Valid()
      ensures Get(id).Some? <==> id.runId == runId && id.sequence < |events|
      ensures Get(id).Some? ==> Get(id).value.id == id && GetBySequence(id.sequence) == Get(id)
    {
    }

    /** `get_by_sequence(i)` has sequence `i`, and every stored event
        verifies its payload hash. */
    lemma StoredEvents(i: nat)
      requires Valid()
      ensures GetBySequence(i).Some? ==> GetBySequence(i).value.id == EventId(runId, i)
      ensures GetBySequence(i).Some? ==> VerifyPayloadHash(GetBySequence(i).value)
    {
    }

    /** `snapshot()` is at the length, with the last event's id. */
    lemma SnapshotShape()
      requires Valid()
      ensures Snapshot().atSequence == Len()
      ensures Snapshot().lastEventId == (if Len() == 0 then None else Some(EventId(runId, Len() - 1)))
    {
    }
  }

  /** `append` admits exactly the event a valid log expects next: the right
      run and sequence, a parent already in the log, and a verified hash. */
  lemma AppendCheckIff(runId: nat, events: seq<Event>, index: map<EventId, nat>, e: Event)
    requires forall id :: id in index <==> id.runId == runId && id.sequence < |events|
    ensures AppendCheck(runId, events, index, e).None? <==>
      && e.id == EventId(runId, |events|)
      && (e.parentId.Some? ==> e.parentId.value.runId == runId && e.parentId.value.sequence < |events|)
      && VerifyPayloadHash(e)
  {
  }
}
