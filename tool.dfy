/** Tool descriptors (crates/oracle_omen_core/src/tool.rs): identifiers,
    side-effect and determinism declarations, resource bounds, normalised
    responses and the execution context handed to a tool. */
module CoreTool {
  import opened Wrappers
  import Hashing
  import CoreCapability

  /** `ToolId { name, version }`. */
  datatype ToolId = ToolId(name: string, version: string)

  /** `ToolId::as_str`, which `Display` also writes: `name@version`. */
  function AsStr(id: ToolId): string {
    id.name + "@" + id.version
  }

  /** Splits an identifier string at its first `@`. */
  function ParseToolId(s: string): Option<ToolId>
    decreases |s|
  {
    if s == [] then None
    else if s[0] == '@' then Some(ToolId("", s[1..]))
    else
      match ParseToolId(s[1..])
      case None => None
      case Some(id) => Some(ToolId([s[0]] + id.name, id.version))
  }

  /** `as_str` loses nothing when the name has no `@`: the name and version
      can be read back from the identifier string. */
  lemma {:induction false} AsStrRoundTrip(id: ToolId)
    requires '@' !in id.name
    ensures ParseToolId(AsStr(id)) == Some(id)
    decreases |id.name|
  {
    if id.name == [] {
      assert AsStr(id)[1..] == id.version;
    } else {
      var rest := ToolId(id.name[1..], id.version);
      assert '@' !in rest.name;
      AsStrRoundTrip(rest);
      assert AsStr(id)[1..] == AsStr(rest);
      assert [id.name[0]] + id.name[1..] == id.name;
    }
  }

  /** Two identifiers whose names have no `@` have equal strings only if they
      are equal, so `as_str` is a sound registry key. */
  lemma AsStrInjective(a: ToolId, b: ToolId)
    requires '@' !in a.name && '@' !in b.name
    ensures AsStr(a) == AsStr(b) <==> a == b
  {
    AsStrRoundTrip(a);
    AsStrRoundTrip(b);
  }

  datatype SideEffect = Pure | Impure

  datatype Determinism = Deterministic | BoundedNonDeterminism | NonDeterministic

  /** `ResourceBounds { timeout_ms, max_memory_bytes, max_fuel }`. */
  datatype ResourceBounds = ResourceBounds(timeoutMs: nat, maxMemoryBytes: Option<nat>, maxFuel: Option<nat>)

  /** `ResourceBounds::with_timeout`: the timeout alone, no memory or fuel cap. */
  function WithTimeout(timeoutMs: nat): (b: ResourceBounds)
    ensures b.timeoutMs == timeoutMs && b.maxMemoryBytes.None? && b.maxFuel.None?
  {
    ResourceBounds(timeoutMs, None, None)
  }

  /** `ResourceBounds::default`: 30 s and no other cap. */
  function DefaultBounds(): (b: ResourceBounds)
    ensures b == WithTimeout(30000)
  {
    ResourceBounds(30000, None, None)
  }

  /** `core::time::Duration` as whole seconds and sub-second nanoseconds. */
  datatype Duration = Duration(secs: nat, nanos: nat)

  /** `Duration::from_millis`. */
  function FromMillis(ms: nat): (d: Duration)
    ensures d.nanos < 1000000000
  {
    Duration(ms / 1000, (ms % 1000) * 1000000)
  }

  /** `Duration::as_millis`. */
  function AsMillis(d: Duration): nat {
    d.secs * 1000 + d.nanos / 1000000
  }

  /** `ResourceBounds::timeout`. */
  function Timeout(b: ResourceBounds): Duration {
    FromMillis(b.timeoutMs)
  }

  /** `timeout()` is `timeout_ms` milliseconds exactly. */
  lemma TimeoutIsMillis(b: ResourceBounds)
    ensures AsMillis(Timeout(b)) == b.timeoutMs
  {
    var ms := b.timeoutMs;
    assert (ms % 1000) * 1000000 / 1000000 == ms % 1000;
  }

  datatype ResponseSource = Tool | Cache | Mock | Error

  /** `ToolResponseMetadata`. */
  datatype ToolResponseMetadata = ToolResponseMetadata(
    source: ResponseSource, normalized: bool, durationMs: nat, extra: seq<(string, string)>)

  /** `ToolResponseMetadata::default`. */
  function DefaultMetadata(): (m: ToolResponseMetadata)
    ensures m.source == Tool && m.normalized && m.durationMs == 0 && m.extra == []
  {
    ToolResponseMetadata(Tool, true, 0, [])
  }

  /** `ToolResponseMetadata::cached`. */
  function CachedMetadata(durationMs: nat): (m: ToolResponseMetadata)
    ensures m.source == Cache && m.normalized && m.durationMs == durationMs && m.extra == []
  {
    ToolResponseMetadata(Cache, true, durationMs, [])
  }

  /** `ToolResponse<T>`, with the data as the JSON it serialises to. */
  datatype ToolResponse = ToolResponse(data: Hashing.Json, responseHash: Hashing.Hash, metadata: ToolResponseMetadata)

  /** The response hash is the canonical hash of the data. */
  predicate Normalized(r: ToolResponse) {
    r.responseHash == Hashing.FromCanonical(r.data)
  }

  /** `ToolResponse::with_metadata`. */
  function WithMetadata(data: Hashing.Json, metadata: ToolResponseMetadata): (r: ToolResponse)
    ensures Normalized(r) && r.data == data && r.metadata == metadata
  {
    ToolResponse(data, Hashing.FromCanonical(data), metadata)
  }

  /** `ToolResponse::new`: default metadata. */
  function NewResponse(data: Hashing.Json): (r: ToolResponse)
    ensures Normalized(r) && r == WithMetadata(data, DefaultMetadata())
  {
    ToolResponse(data, Hashing.FromCanonical(data), DefaultMetadata())
  }

  /** `ToolRequestMetadata`. */
  datatype ToolRequestMetadata = ToolRequestMetadata(
    toolId: ToolId, timestamp: nat, requestHash: Hashing.Hash, requiredCapabilities: seq<CoreCapability.Capability>)

  /** `ToolError`. */
  datatype ToolError =
    | NotFound(name: string)
    | Denied(capability: string, reason: string)
    | TimedOut(tool: string, durationMs: nat)
    | ExecutionFailed(tool: string, reason: string)
    | InvalidInput(tool: string, reason: string)
    | SerializationFailed(tool: string, reason: string)
    | ResourceExceeded(tool: string, limit: string)
    | Other(message: string)

  /** A tool as the `Tool` trait describes it, without `execute`. */
  datatype ToolDescriptor = ToolDescriptor(
    id: ToolId, requiredCapabilities: seq<CoreCapability.Capability>, sideEffects: SideEffect,
    determinism: Determinism, resourceBounds: ResourceBounds, inputSchema: string, outputSchema: string)

  /** `ExecutionContext`. */
  datatype ExecutionContext = ExecutionContext(logicalTime: nat, runId: nat, randomSeed: Option<nat>)

  /** `ExecutionContext::new`: no seed. */
  function NewContext(logicalTime: nat, runId: nat): (c: ExecutionContext)
    ensures c.logicalTime == logicalTime && c.runId == runId && c.randomSeed == None
  {
    ExecutionContext(logicalTime, runId, None)
  }

  /** `ExecutionContext::with_seed`: the seed is stored. */
  function WithSeed(logicalTime: nat, runId: nat, seed: nat): (c: ExecutionContext)
    ensures c.logicalTime == logicalTime && c.runId == runId && c.randomSeed == Some(seed)
  {
    ExecutionContext(logicalTime, runId, Some(seed))
  }
}
