# oracle.omen in Dafny

oracle.omen is a Rust workspace for deterministic, auditable agents. This
project models its core and proves properties of that model.

- **Core** (`oracle_omen_core`):
  - the hash-chained event log and its append checks;
  - the versioned, rehashed agent state;
  - the replay engine, divergence detection and snapshot manager;
  - hashes and their hex codec;
  - logical time and time sources;
  - capabilities and capability patterns;
  - tool descriptors.
- **Planning** (`oracle_omen_plan`): the plan DSL, plan validation, the DAG
  with cycle rejection and topological order, and the plan compiler.
- **Runtime** (`oracle_omen_runtime`): the ready/pending/running scheduler,
  capability checks, the tool registry with its echo and hash tools, and the
  executor state.
- **Policy** (`oracle_omen_policy`): the policy language, the compiler with
  duplicate-rule detection, and the evaluator. The evaluator denies by
  default; a Deny overrides any Allow, and otherwise the first Allow wins.
- **Memory** (`oracle_omen_memory`): documents with last-writer-wins merge,
  the store with its provenance index and store hash, the provenance
  tracker, and deterministic queries (filter, then sort, then truncate).
- **Patches** (`oracle_omen_patches`): patches and their hash, signatures
  and their hex codecs, the patch store keyed by id and the signed store
  keyed by hash, the test, audit and approval gates, and the engine that
  submits, approves, applies and rolls back patches against the agent state.
- **WASM** (`oracle_omen_wasm`): resource-limit arithmetic and the host
  state.

## How the model is built

There is one Dafny module per source file. Shared pieces live in their own
modules:

- `Wrappers`: `Option` and `Result`.
- `Text`: string order, the sorted key lists of ordered maps, decimal
  rendering, split and join.
- `Seqs`: generic counting, fold and scan lemmas.
- `Graphs`: reachability and acyclicity.

Values stay values: datatypes with functions. An object that the source
updates in place is a class. Each such class has a `Record()` function
giving its contents as a value, and its methods are proved against a
function of that value, for example `ensures Record() == Logged(old(Record()), msg)`.
The properties are lemmas about those functions. Loops in the source are
`while` or `for` loops with their invariants. Examples:

- `EventLog.Append`;
- the hex codecs;
- the Kahn loop of the topological order;
- the policy evaluator's rule scan;
- the test gate;
- the provenance trace.

Hashing is not modelled as an algorithm. `Hashing.Digest` stands in for
BLAKE3. It is a fixed function that looks only at the length of its input.
`Hashing.FromBytes` and `Hashing.FromCanonical` are built on it, so equal
inputs give equal hashes. No proof relies on anything more than that. The
canonical serde form is a `Json` datatype rendered by a fixed function.

Integers are unbounded except where wrapping matters: the time-source
counters wrap at 2^64, and the WASM limits use `u32`/`u64` ranges.

### Where the code and its own tests disagree

The model follows the code. The unit tests below expect something else:

- `capability.rs:212-218`: `has_pattern` treats its argument as the
  pattern, so a stored `fs:read:*` does not grant `fs:read:/tmp`.
- `dag.rs:332-356`: `topological_order` decrements in-degrees along
  `reverse_edges`, so it reports a cycle for every DAG that has an edge.
  The same happens to everything built on it (`validate`, `validate_dag`,
  `compile`, `Scheduler::initialize`).
- `compiler.rs:139-158` and `scheduler.rs:162-190`: `add_edge(from, to)`
  files `to` under `edges[from]`, and `dependencies` returns `edges[id]`.
  So `dependencies` yields the nodes that depend on `id`, not the nodes
  `id` depends on. `dependencies("b")` is then empty rather than `{"a"}`,
  and the scheduler, even with a correct topological order, hands out `b`
  before `a`.
- `scheduler.rs:192-213`: `next` never records the node it hands out as
  running, so the concurrency bound never applies.
- `engine.rs:303-328`: `evaluate_capability` skips `Resource` rules, so the
  compare-condition test is denied by default.

Each of these is listed under Findings with a corrected definition. The
corrected DAG order is the one that the validator, the compiler and the
scheduler use. With the corrected `dependencies` as well
(`PlanDag.Dag.DependenciesCorrected`), the scheduler is proved to hand out
a node only after every node it depends on has completed.

Three pieces of source are not valid Rust as written, and the model takes
their evident intent:

- `replay.rs:70-75`: `step` borrows the log while it mutates the engine.
- `scheduler.rs:43-55`: `initialize` uses the dependency set as an
  `Option`.
- `store.rs:42-49` and `store.rs:60-75` in `oracle_omen_patches`:
  `update_status` assigns a tuple to a `Patch`, and `get_by_status` uses
  `if` guards inside `matches!` chained with `||`.

## Model

| member | source | states |
|---|---|---|
| Hashing.Utf8 | crates/oracle_omen_core/src/hash.rs:34-36 | the UTF-8 bytes `from_str` hashes: at least one byte per character |
| Hashing.AsciiUtf8 | crates/oracle_omen_core/src/hash.rs:84-103 | on ASCII text the bytes are the characters, so the byte length `from_hex` checks is the character count |
| Hashing.IsZeroIffZero | crates/oracle_omen_core/src/hash.rs:62-64 | `is_zero` holds exactly for `Hash::zero()` (also lines 106-108) |
| Hashing.HexDigit | crates/oracle_omen_core/src/hash.rs:74-81 | each nibble is written as a lower-case hex digit |
| Hashing.Hex | crates/oracle_omen_core/src/hash.rs:74-81 | two characters per byte |
| Hashing.ToHex | crates/oracle_omen_core/src/hash.rs:74-81 | the loop writing `{:02x}` per byte builds exactly the hex text of the 32 bytes |
| Hashing.HexAppend | crates/oracle_omen_core/src/hash.rs:76-79 | writing one more byte appends its two digits |
| Hashing.HexAt | crates/oracle_omen_core/src/hash.rs:76-79 | characters `2i` and `2i+1` are the high and low nibble of byte `i` |
| Hashing.ToHexShape | crates/oracle_omen_core/src/hash.rs:74-81 | `to_hex` has 64 characters, all lower-case hex digits |
| Hashing.HexDigits | crates/oracle_omen_core/src/hash.rs:74-81 | hex text consists of lower-case hex digits only |
| Hashing.ZeroHex | crates/oracle_omen_core/src/hash.rs:202-207 | the zero hash prints as 64 `'0'` characters |
| Hashing.HexZeros | crates/oracle_omen_core/src/hash.rs:202-207 | `n` zero bytes print as `2n` zeros |
| Hashing.DigitValue | crates/oracle_omen_core/src/hash.rs:93-95 | a base-16 digit of either case has a value below 16 |
| Hashing.ParseFrom | crates/oracle_omen_core/src/hash.rs:91-98 | parsing the remaining pairs keeps the bytes already parsed and yields all of them, or names a failing pair index among the remaining ones |
| Hashing.ParseFromFails | crates/oracle_omen_core/src/hash.rs:91-98 | parsing fails exactly when some remaining two-character pair is not a byte |
| Hashing.ParseHex | crates/oracle_omen_core/src/hash.rs:84-103 | any length other than 64 is refused with the length in the error |
| Hashing.FromHex | crates/oracle_omen_core/src/hash.rs:84-103 | the pair-by-pair loop returns exactly `ParseHex`: all 32 bytes, or the first pair that does not parse |
| Hashing.ParseFromHex | crates/oracle_omen_core/src/hash.rs:74-103 | parsing the hex text of any bytes gives those bytes back |
| Hashing.HexRoundTrip | crates/oracle_omen_core/src/hash.rs:194-200 | `from_hex(to_hex(h)) == h` for every hash |
| Hashing.FromHexAcceptsNonCanonical | crates/oracle_omen_core/src/hash.rs:84-103 | `from_hex` also accepts upper-case digits and a `+` sign in a pair, so the converse round trip does not hold |
| Hashing.Flatten | crates/oracle_omen_core/src/hash.rs:159-165 | the concatenated buffer has 32 bytes per hash |
| Hashing.FlattenAt | crates/oracle_omen_core/src/hash.rs:159-165 | byte `j` of hash `i` sits at offset `32i + j` of the buffer |
| Hashing.FlattenAppend | crates/oracle_omen_core/src/hash.rs:161-163 | extending the buffer with one more hash appends its 32 bytes |
| Hashing.CombineHashes | crates/oracle_omen_core/src/hash.rs:159-165 | the extending loop hashes exactly the hashes laid end to end, in order |
| Hashing.TransitionHashBytes | crates/oracle_omen_core/src/hash.rs:171-173 | the transition hash is the digest of the 96 bytes `prev ++ event ++ next` |
| Text.EscapeDebugRoundTrip | crates/oracle_omen_patches/src/gate.rs:115 | the escaped body of a `{:?}` string reads back to the string |
| Text.EscapeDebugInjective | crates/oracle_omen_core/src/replay.rs:161 | two strings with the same escaped `{:?}` body are the same string |
| Text.EscapeDebugPlain | crates/oracle_omen_patches/src/gate.rs:115 | a string with no quote, backslash, NUL, tab, newline or carriage return is written unchanged |
| Time.Initial | crates/oracle_omen_core/src/time.rs:27-29 | the initial time of a run has that run id and sequence 0 |
| Time.BeforeTotalOrder | crates/oracle_omen_core/src/time.rs:9-16 | the derived order on `(run_id, sequence)` is irreflexive, transitive and total |
| Time.NextIsSuccessor | crates/oracle_omen_core/src/time.rs:33-38 | `next` stays in the run and is the immediate successor: no time of the run lies strictly between |
| Time.IterateNext | crates/oracle_omen_core/src/time.rs:33-38 | `n` calls of `next` advance the sequence by exactly `n` |
| Time.StandardTimeSource.constructor | crates/oracle_omen_core/src/time.rs:78-83 | a new source starts at sequence 0 of its run |
| Time.StandardTimeSource.Zero | crates/oracle_omen_core/src/time.rs:87-89 | `zero()` is run 0 at sequence 0 |
| Time.StandardTimeSource.Tick | crates/oracle_omen_core/src/time.rs:98-101 | `tick` returns the current time and advances the counter by one, wrapping at 2^64 |
| Time.MockTimeSource.constructor | crates/oracle_omen_core/src/time.rs:114-119 | a mock source starts at the given sequence |
| Time.MockTimeSource.Set | crates/oracle_omen_core/src/time.rs:122-124 | after `set`, `now()` reports the value set |
| Time.MockTimeSource.Advance | crates/oracle_omen_core/src/time.rs:127-130 | `advance` returns the old time and moves the counter by `delta`, wrapping at 2^64 |
| Time.MockTimeSource.Tick | crates/oracle_omen_core/src/time.rs:139-142 | `tick` is `advance(1)` |
| CoreCapability.SegmentsMatchIff | crates/oracle_omen_core/src/capability.rs:42-50 | the segment loop succeeds exactly when every remaining pattern segment is `*` or equals the capability's segment at that index |
| CoreCapability.MatchesIff | crates/oracle_omen_core/src/capability.rs:38-51 | `matches(pattern)` holds iff each `:`-segment of the pattern is `*` or equals the capability's segment at the same index |
| CoreCapability.ThreeSegmentsOk | crates/oracle_omen_core/src/capability.rs:42-50 | a three-segment pattern whose segments all pass matches |
| CoreCapability.PrefixMatches | crates/oracle_omen_core/src/capability.rs:42-50 | a pattern made of the capability's leading segments matches it as a prefix |
| CoreCapability.TooLongFails | crates/oracle_omen_core/src/capability.rs:46-48 | a non-`*` pattern segment beyond the capability's last segment makes the match fail |
| CoreCapability.MatchesSelf | crates/oracle_omen_core/src/capability.rs:38-51 | every capability matches its own name |
| CoreCapability.Split3 | crates/oracle_omen_core/src/capability.rs:39-40 | `a:b:c` splits on `:` into exactly `[a, b, c]` when no part contains `:` |
| CoreCapability.MatchesExamples | crates/oracle_omen_core/src/capability.rs:192-198 | for any segments, `a:b:c` matches itself, `a:b:*` and the prefix `a`, and not `a:b':*` |
| CoreCapability.Empty | crates/oracle_omen_core/src/capability.rs:83-87 | the empty set has length 0 |
| CoreCapability.FromListLen | crates/oracle_omen_core/src/capability.rs:91-95 | `new` keeps exactly the listed capabilities; `len` is at most the list length and equal to it when the list has no repeats (also lines 123-125) |
| CoreCapability.HasPatternAsWritten | crates/oracle_omen_core/src/capability.rs:105-107 | as written, a stored `a:b:*` answers `has_pattern(a:b:*)` but not `has_pattern(a:b:c)`: the stored wildcard does not expand (also lines 212-218) |
| CoreCapability.GrantsPatternMeetsTest | crates/oracle_omen_core/src/capability.rs:105-107 | with the stored capability used as the pattern, every stored capability is granted and a stored `a:b:*` grants itself and every `a:b:c`, but not `a:b':*` (also lines 212-218) |
| CoreCapability.HasAnyAllIff | crates/oracle_omen_core/src/capability.rs:99-119 | `has_any` means some required capability is in the set (false for none), `has_all` means all are (true for none) |
| CoreCapability.ToVec | crates/oracle_omen_core/src/capability.rs:140-142 | `to_vec` lists exactly the set's capabilities in strictly ascending order of name |
| CoreTool.AsStrRoundTrip | crates/oracle_omen_core/src/tool.rs:43-51 | `name@version` can be split back at its first `@` into the tool id when the name has no `@` |
| CoreTool.AsStrInjective | crates/oracle_omen_core/src/tool.rs:43-51 | two ids whose names have no `@` print the same exactly when they are equal (also lines 395-400) |
| CoreTool.WithTimeout | crates/oracle_omen_core/src/tool.rs:112-118 | `with_timeout(t)` has timeout `t` and no memory or fuel cap |
| CoreTool.DefaultBounds | crates/oracle_omen_core/src/tool.rs:102-108 | the default bounds are `with_timeout(30000)` (also lines 403-407) |
| CoreTool.FromMillis | crates/oracle_omen_core/src/tool.rs:122-124 | a duration built from milliseconds keeps its nanoseconds below one second |
| CoreTool.TimeoutIsMillis | crates/oracle_omen_core/src/tool.rs:122-124 | `timeout()` is exactly `timeout_ms` milliseconds |
| CoreTool.DefaultMetadata | crates/oracle_omen_core/src/tool.rs:217-225 | default metadata: source Tool, normalized, duration 0, no extra entries |
| CoreTool.CachedMetadata | crates/oracle_omen_core/src/tool.rs:228-235 | cached metadata: source Cache, normalized, the given duration, no extra entries |
| CoreTool.WithMetadata | crates/oracle_omen_core/src/tool.rs:188-195 | the response carries the data and metadata given and its hash is the hash of the data |
| CoreTool.NewResponse | crates/oracle_omen_core/src/tool.rs:178-185 | `new` is `with_metadata` with the default metadata, so its hash is the hash of the data |
| CoreTool.NewContext | crates/oracle_omen_core/src/tool.rs:371-378 | a new context stores the time and run id and has no seed |
| CoreTool.WithSeed | crates/oracle_omen_core/src/tool.rs:381-388 | `with_seed` stores the time, run id and `Some(seed)` (also lines 410-415) |
| CoreEvent.InitialId | crates/oracle_omen_core/src/event.rs:44-49 | the initial id of a run has sequence 0 |
| CoreEvent.EventIdTime | crates/oracle_omen_core/src/event.rs:53-67 | `next` keeps the run and adds one to the sequence, in step with `LogicalTime::next`; `to_logical_time` and `From<LogicalTime>` are mutual inverses (also lines 88-95) |
| CoreEvent.KindStrInjective | crates/oracle_omen_core/src/event.rs:151-169 | two non-custom kinds with the same `as_str` are the same kind |
| CoreEvent.PayloadKindCustom | crates/oracle_omen_core/src/event.rs:339-357 | only the raw payload has a custom kind, named `raw`; exactly the state-transition payload has kind `StateTransition` |
| CoreEvent.NewEvent | crates/oracle_omen_core/src/event.rs:211-229 | `Event::new` stores its arguments, has no parent and no state hashes, and its payload hash verifies |
| CoreEvent.WithParent | crates/oracle_omen_core/src/event.rs:232-251 | `with_parent` is `new` plus the parent, so the event follows that parent and its payload hash verifies (also lines 274-276) |
| CoreEvent.WithStateHashes | crates/oracle_omen_core/src/event.rs:254-258 | both state hashes become `Some`, nothing else changes, and payload verification is unaffected |
| CoreEvent.EventLog.constructor | crates/oracle_omen_core/src/event.rs:564-570 | a new log of a run is empty and valid |
| CoreEvent.EventLog.Append | crates/oracle_omen_core/src/event.rs:575-612 | on the first failing check (run id, sequence, parent, payload hash) the error is returned and the log is unchanged; otherwise the event is put last and its id maps to the old length; validity is preserved |
| CoreEvent.EventLog.GetIff | crates/oracle_omen_core/src/event.rs:616-624 | in a valid log `get(id)` is `Some` iff the id is of this run with a sequence below the length, and then equals `get_by_sequence` |
| CoreEvent.EventLog.StoredEvents | crates/oracle_omen_core/src/event.rs:577-606 | the event at sequence `i` has id `(run_id, i)` and a verifying payload hash (also lines 622-624) |
| CoreEvent.EventLog.SnapshotShape | crates/oracle_omen_core/src/event.rs:652-658 | the snapshot is at the log length, with the last event's id or `None` for an empty log |
| CoreEvent.AppendCheckIff | crates/oracle_omen_core/src/event.rs:575-606 | the four checks pass exactly for the next id of the run, a parent already in the log and a verifying payload hash |
| CoreState.TypeNameDistinguishesVariants | crates/oracle_omen_core/src/state.rs:149-160 | `type_name` names the variant: two values have the same type name exactly when they are of the same variant |
| CoreState.InitialRecord | crates/oracle_omen_core/src/state.rs:32-38 | the initial state has version 0, no data and the all-zero hash (also lines 549-553) |
| CoreState.WithRunIdRecord | crates/oracle_omen_core/src/state.rs:42-50 | `with_run_id(r)` holds exactly `system ↦ U64(r)`, version 0, and its hash is the hash of its data |
| CoreState.SetEffect | crates/oracle_omen_core/src/state.rs:59-63 | `set` writes one domain, leaves every other domain as it was, raises the version by one and stores the hash of the new data (also lines 76-78, 556-562) |
| CoreState.RemoveEffect | crates/oracle_omen_core/src/state.rs:66-73 | `remove` of a present domain drops exactly it, returns the old value, raises the version and rehashes; of an absent domain it returns `None` and changes nothing |
| CoreState.SetAllHash | crates/oracle_omen_core/src/state.rs:82-84 | the same non-empty sequence of `set`s from the same data gives the same data and hash, whatever the starting version and hash, so `matches` holds (also lines 565-573) |
| CoreState.AgentState.Initial | crates/oracle_omen_core/src/state.rs:32-38 | the object starts as the initial state |
| CoreState.AgentState.WithRunId | crates/oracle_omen_core/src/state.rs:42-50 | the object starts as `with_run_id(r)` |
| CoreState.AgentState.Set | crates/oracle_omen_core/src/state.rs:59-63 | in place, the new state is the `set` of the old one |
| CoreState.AgentState.Remove | crates/oracle_omen_core/src/state.rs:66-73 | in place, the new state and the returned value are those of `remove` |
| CoreState.AgentState.Rehash | crates/oracle_omen_core/src/state.rs:76-78 | the stored hash becomes the hash of the data; data and version are kept |
| CoreState.AgentState.Clone | crates/oracle_omen_core/src/state.rs:17-18 | a clone is a fresh object with the same contents |
| CoreState.AgentState.FromRecord | crates/oracle_omen_core/src/state.rs:17-27 | a state object holding the given contents |
| CoreState.NewStateTransition | crates/oracle_omen_core/src/state.rs:218-226 | the transition hash combines the from-hash, the event hash and the new state's hash, i.e. hashes their 96 bytes in that order |
| CoreState.NewTransition | crates/oracle_omen_core/src/state.rs:459-466 | `Transition::new` keeps the state and decision and uses the state's hash as its hash |
| CoreState.SuccessResponse | crates/oracle_omen_core/src/state.rs:523-531 | a success response carries the data, `success` and no error |
| CoreState.ErrorResponse | crates/oracle_omen_core/src/state.rs:534-542 | an error response carries `Value(None)`, not `success`, and the error text |
| CoreState.ResponseConstructors | crates/oracle_omen_core/src/state.rs:523-542 | for both constructors, `success` holds exactly when there is no error |
| CoreReplay.EventKeyInjective | crates/oracle_omen_core/src/replay.rs:95-98 | events with different sequence numbers are recorded under different `event_{n}` keys, so none overwrites another |
| CoreReplay.EventKeyNotEventHash | crates/oracle_omen_core/src/replay.rs:88-98 | an `event_{n}` key never collides with the `_event_hash` key a transition writes |
| CoreReplay.ApplyOtherEvent | crates/oracle_omen_core/src/replay.rs:94-100 | a non-transition event records its own hash under `event_{sequence}`, leaves the rest of the data alone, raises the version by one and keeps the hash consistent |
| CoreReplay.ApplyDivergentTransition | crates/oracle_omen_core/src/replay.rs:80-92 | a transition whose before-hash differs from the current hash restarts from `with_run_id(run_id)`: the result does not depend on the diverged state |
| CoreReplay.ApplyQuietTransition | crates/oracle_omen_core/src/replay.rs:80-92 | a transition that matches the current hash and carries no after-hash leaves the state untouched |
| CoreReplay.ReplayVersion | crates/oracle_omen_core/src/replay.rs:70-75 | replaying n non-transition events raises the version by exactly n (also lines 94-100) |
| CoreReplay.ReplayRecordsEvents | crates/oracle_omen_core/src/replay.rs:70-75 | after replaying non-transition events with distinct sequence numbers, every one of them is found under its key with its own hash (also lines 94-100) |
| CoreReplay.ReplayAppend | crates/oracle_omen_core/src/replay.rs:56-59 | replaying a log in two pieces gives the same state as replaying it at once (also lines 70-75) |
| CoreReplay.DiffEventsCases | crates/oracle_omen_core/src/replay.rs:159-167 | the diff text names the kind when kinds differ, otherwise the payload when payload hashes differ, otherwise reports an unknown difference; exactly one case applies |
| CoreReplay.MismatchAt | crates/oracle_omen_core/src/replay.rs:129-139 | a divergence is reported at a position exactly when the two events' hashes differ, carrying the position, the first event's id, both hashes and the diff |
| CoreReplay.DivergencesOrdered | crates/oracle_omen_core/src/replay.rs:120-156 | divergences come in increasing position order, never past the shorter log's length, and each one inside both logs is the mismatch at its position |
| CoreReplay.DivergencesComplete | crates/oracle_omen_core/src/replay.rs:120-156 | every position where both logs have events with different hashes is reported |
| CoreReplay.DivergencesCount | crates/oracle_omen_core/src/replay.rs:140-149 | logs of different lengths end with exactly one "Different event count" point at the shorter length, and logs of equal length never get one |
| CoreReplay.IdenticalLogsAgree | crates/oracle_omen_core/src/replay.rs:120-156 | a log compared with itself has no divergence |
| CoreReplay.ReportValidIff | crates/oracle_omen_core/src/replay.rs:170-189 | the verification report is valid exactly when every event's payload hash verifies (also lines 232-234) |
| CoreReplay.AppendedLogIsValid | crates/oracle_omen_core/src/replay.rs:170-189 | a log built only by `append` always verifies |
| CoreReplay.ReplayEngine.constructor | crates/oracle_omen_core/src/replay.rs:37-44 | a new engine is at position 0 with the initial state, and is complete on an empty log (also lines 372-378) |
| CoreReplay.ReplayEngine.WithState | crates/oracle_omen_core/src/replay.rs:47-53 | a new engine at position 0 starting from the given state |
| CoreReplay.ReplayEngine.Step | crates/oracle_omen_core/src/replay.rs:70-75 | with events left, step applies the next one, advances the position by one and returns it; at the end it returns nothing and changes nothing |
| CoreReplay.ReplayEngine.ReplayAll | crates/oracle_omen_core/src/replay.rs:56-59 | the engine ends complete, its state is the replay of the remaining events, and a copy of that state is returned (also lines 115-117) |
| CoreReplay.ReplayEngine.ReplayFrom | crates/oracle_omen_core/src/replay.rs:62-65 | replaying from p gives the replay of the events from p onward; from past the end the state is unchanged |
| CoreReplay.ReplayEngine.DetectDivergence | crates/oracle_omen_core/src/replay.rs:120-156 | the loop computes exactly the divergence list specified position by position |
| CoreReplay.ReplayEngine.Verify | crates/oracle_omen_core/src/replay.rs:170-189 | the loop produces the report counting events whose payload hash verifies and those whose hash fails |
| CoreReplay.NewSnapshot | crates/oracle_omen_core/src/replay.rs:313-329 | a new snapshot carries the given fields, a zero event hash, and always verifies (also lines 380-385) |
| CoreReplay.SnapshotManager.constructor | crates/oracle_omen_core/src/replay.rs:339-341 | a new manager holds no snapshot |
| CoreReplay.SnapshotManager.Add | crates/oracle_omen_core/src/replay.rs:344-346 | adding stores the snapshot under its own position, replacing any older one there |
| CoreReplay.SnapshotManager.GetSnapshotBeforeIff | crates/oracle_omen_core/src/replay.rs:349-354 | the lookup finds a snapshot exactly when one is at or before the position, and then it is the one with the greatest such position (also lines 387-396) |
| CoreReplay.SnapshotManager.PositionsShape | crates/oracle_omen_core/src/replay.rs:362-364 | the positions are listed strictly increasing, one per stored snapshot |
| PlanDsl.DefaultResources | crates/oracle_omen_plan/src/dsl.rs:158-167 | a step by default gets a 30-second timeout, no memory or CPU bound, and is not exclusive |
| PlanDsl.DefaultRetryPolicy | crates/oracle_omen_plan/src/dsl.rs:207-215 | by default a step is retried up to 3 times with exponential backoff from 100 ms up to 5000 ms, on any error |
| PlanDsl.DefaultTimeoutPolicy | crates/oracle_omen_plan/src/dsl.rs:243-250 | by default a step times out after 30 seconds with an error |
| PlanDsl.NewStep | crates/oracle_omen_plan/src/dsl.rs:76-87 | a new step has the given id and type, no dependencies or capabilities, and every default policy (stop on failure) (also lines 188-192) |
| PlanDsl.DependsOn | crates/oracle_omen_plan/src/dsl.rs:90-93 | `depends_on` appends one dependency and changes nothing else |
| PlanDsl.Requires | crates/oracle_omen_plan/src/dsl.rs:96-99 | `requires` appends one capability and changes nothing else |
| PlanDsl.DependingOnKeepsOrder | crates/oracle_omen_plan/src/dsl.rs:90-93 | chained `depends_on` calls record the dependencies in the order given and touch nothing else |
| PlanDsl.Plan.constructor | crates/oracle_omen_plan/src/dsl.rs:22-28 | a new plan has the given name, no steps and no metadata |
| PlanDsl.Plan.AddStep | crates/oracle_omen_plan/src/dsl.rs:31-33 | adding a step appends it at the end and keeps the metadata |
| PlanDag.NewNode | crates/oracle_omen_plan/src/dag.rs:215-228 | a new DAG node has the given id and type, no capabilities or metadata, and the default resource, failure, retry and timeout policies of a plan step |
| PlanDag.DagErrorTextNamesNode | crates/oracle_omen_plan/src/dag.rs:267-281 | the duplicate-node and node-not-found messages end with the node id and tell errors apart |
| PlanDag.Dag.constructor | crates/oracle_omen_plan/src/dag.rs:25-32 | a new DAG has no nodes and no edges, and satisfies the DAG invariant (edges end at nodes, the reverse map mirrors the edges, no cycle) |
| PlanDag.Dag.AddNode | crates/oracle_omen_plan/src/dag.rs:35-44 | a taken id is refused with `DuplicateNode` and nothing changes; otherwise the node is stored with empty edge and reverse-edge sets; the invariant is kept |
| PlanDag.Dag.HasPath | crates/oracle_omen_plan/src/dag.rs:72-87 | a reported path exists; when none is reported, the newly visited nodes are closed under edges and do not contain the target, so the target is unreachable |
| PlanDag.Dag.WouldCreateCycle | crates/oracle_omen_plan/src/dag.rs:66-69 | adding `from -> to` is reported as a cycle exactly when `from` is already reachable from `to` |
| PlanDag.Dag.AddEdge | crates/oracle_omen_plan/src/dag.rs:47-63 | an unknown endpoint is refused naming it (`from` first), an edge that would close a cycle is refused, and otherwise the edge and its reverse are added; refusals change nothing and the graph stays acyclic |
| PlanDag.Dag.TopologicalOrder | crates/oracle_omen_plan/src/dag.rs:90-132 | the order as written: the nodes in descending order when there is no edge, and a cycle error whenever there is one |
| PlanDag.Dag.TopologicalOrderCorrected | crates/oracle_omen_plan/src/dag.rs:90-132 | Kahn's algorithm releasing successors: on any acyclic DAG it succeeds, lists every node exactly once, and every edge points forward |
| PlanDag.ChainAsWrittenFails | crates/oracle_omen_plan/src/dag.rs:90-132 | on the chain a -> b -> c the order as written reports a cycle (also lines 332-356) |
| PlanDag.ChainOrderUnique | crates/oracle_omen_plan/src/dag.rs:332-356 | the only topological order of the chain a -> b -> c is a, b, c |
| PlanDag.TopologicalOrderExample | crates/oracle_omen_plan/src/dag.rs:332-356 | on the chain the order as written fails and the corrected order is a, b, c |
| PlanDag.InDegrees | crates/oracle_omen_plan/src/dag.rs:91-99 | the in-degree table gives each node the number of nodes with an edge into it |
| PlanDag.Release | crates/oracle_omen_plan/src/dag.rs:109-117 | each released target's count drops by one and those reaching zero are queued in order |
| PlanDag.SortQueue | crates/oracle_omen_plan/src/dag.rs:104 | sorting the queue keeps its elements and puts them in increasing order (also lines 118) |
| PlanDag.Drain | crates/oracle_omen_plan/src/dag.rs:107-120 | the pop loop as written, started on the sorted in-degree-zero nodes, only empties the queue and returns it reversed |
| PlanDag.Dag.Node | crates/oracle_omen_plan/src/dag.rs:135-137 | a node is found exactly when its id is present, and it is the stored one |
| PlanDag.Dag.Dependencies | crates/oracle_omen_plan/src/dag.rs:145-147 | the dependencies are the edge targets of the node, empty for an unknown id |
| PlanDag.Dag.DependenciesCorrected | crates/oracle_omen_plan/src/dag.rs:145-147 | corrected `dependencies`, as the field comment at dag.rs:16-17 and the tests read it: the nodes whose edges point into `id`, which are exactly the nodes whose as-written `dependencies` contain `id`, and on a valid DAG exactly its `dependents` |
| PlanDag.Dag.Dependents | crates/oracle_omen_plan/src/dag.rs:150-152 | the dependents are the reverse-edge sources of the node, empty for an unknown id |
| PlanDag.DependentsMirrorDependencies | crates/oracle_omen_plan/src/dag.rs:60-61 | `y` is a dependency of `x` exactly when `x` is a dependent of `y` (also lines 145-152) |
| PlanDag.Dag.Validate | crates/oracle_omen_plan/src/dag.rs:165-183 | with the corrected order, a DAG built through the API always validates |
| PlanDag.Dag.ValidateAsWritten | crates/oracle_omen_plan/src/dag.rs:165-183 | with the order as written, validation fails with a cycle error exactly when the DAG has an edge |
| PlanDag.FirstMissing | crates/oracle_omen_plan/src/dag.rs:170-180 | the dependency check passes exactly when every edge ends at a node, and otherwise names an edge whose target is missing |
| PlanDag.DagCreationExample | crates/oracle_omen_plan/src/dag.rs:294-309 | two added nodes give a DAG of length 2 |
| PlanDag.CycleDetectionExample | crates/oracle_omen_plan/src/dag.rs:311-330 | after a -> b, adding b -> a is refused as a cycle |
| PlanValidate.IdsOfMembers | crates/oracle_omen_plan/src/validate.rs:15-20 | the set of seen ids holds exactly the ids of the plan's steps |
| PlanValidate.FirstDuplicateNone | crates/oracle_omen_plan/src/validate.rs:15-20 | the duplicate check passes exactly when all step ids are distinct |
| PlanValidate.FirstDuplicateAt | crates/oracle_omen_plan/src/validate.rs:15-20 | a reported duplicate is the first step whose id already occurred earlier |
| PlanValidate.MissingInSpec | crates/oracle_omen_plan/src/validate.rs:23-31 | a step's dependency check passes exactly when every dependency is a known id, and otherwise names an unknown one |
| PlanValidate.FirstMissingDepSpec | crates/oracle_omen_plan/src/validate.rs:23-31 | the dependency pass succeeds exactly when every dependency of every step names a step, and otherwise reports a step and one of its unknown dependencies |
| PlanValidate.FirstZeroTimeoutSpec | crates/oracle_omen_plan/src/validate.rs:35-44 | the resource pass succeeds exactly when every step has a positive timeout, and otherwise names a step with timeout 0 |
| PlanValidate.ValidatePlanOk | crates/oracle_omen_plan/src/validate.rs:13-47 | a plan validates exactly when its ids are distinct, its dependencies name steps and its timeouts are positive |
| PlanValidate.ValidatePlanOrder | crates/oracle_omen_plan/src/validate.rs:13-47 | the checks run in order: a duplicate is reported before an unknown dependency, which is reported before a zero timeout, whose error names `timeout_ms` and "must be positive" |
| PlanValidate.Validate | crates/oracle_omen_plan/src/validate.rs:13-47 | the three loops compute exactly the specified validation result |
| PlanValidate.FromDag | crates/oracle_omen_plan/src/validate.rs:49-51 | the DAG validation's outcome is kept, its error turned into text |
| PlanValidate.ValidateDag | crates/oracle_omen_plan/src/validate.rs:49-51 | with the corrected topological order, every DAG built through the API validates |
| PlanValidate.ValidateDagAsWritten | crates/oracle_omen_plan/src/validate.rs:49-51 | with the order as written, a DAG validates exactly when it has no edge, and fails with the cycle message otherwise |
| PlanCompiler.StringsJson | crates/oracle_omen_plan/src/compiler.rs:55-66 | the step list is carried as one JSON string per step, in order |
| PlanCompiler.JsonStringsRoundTrip | crates/oracle_omen_plan/src/compiler.rs:55-66 | reading the JSON strings back gives the original list |
| PlanCompiler.StepsConfigRoundTrip | crates/oracle_omen_plan/src/compiler.rs:55-66 | the `{"steps": [...]}` config of a sequential or parallel step gives back its step list |
| PlanCompiler.StepToNodeType | crates/oracle_omen_plan/src/compiler.rs:41-73 | each step type maps to the node type of the same kind with the same fields; sequential and parallel steps become custom nodes named `sequential`/`parallel` holding their steps; the conversion never fails |
| PlanCompiler.NodeOf | crates/oracle_omen_plan/src/compiler.rs:16-23 | the node of a step has its id, converted type, capabilities and policies, and no metadata |
| PlanCompiler.TargetsMembers | crates/oracle_omen_plan/src/compiler.rs:27-31 | the edges out of `u` go to exactly the steps that depend on `u` |
| PlanCompiler.AddNodes | crates/oracle_omen_plan/src/compiler.rs:15-24 | the first pass fails with the first duplicate id, and otherwise holds exactly one node per step, with no edges |
| PlanCompiler.AddEdges | crates/oracle_omen_plan/src/compiler.rs:27-31 | the second pass succeeds exactly when every dependency names a step and they form no cycle, and then the edges are exactly the dependency graph |
| PlanCompiler.Build | crates/oracle_omen_plan/src/compiler.rs:12-31 | both passes: a duplicate id is reported as such, and the DAG is built exactly when ids are distinct, dependencies are known and acyclic; it then describes the plan |
| PlanCompiler.Validated | crates/oracle_omen_plan/src/compiler.rs:34 | the DAG is returned exactly when validation passed, otherwise its error as text (also lines 110-114) |
| PlanCompiler.Compile | crates/oracle_omen_plan/src/compiler.rs:12-37 | with the corrected validation, a plan compiles exactly when ids are distinct and dependencies are known and acyclic; the DAG has one node per step and the edge `d -> s` for each dependency `d` of `s` |
| PlanCompiler.CompileAsWritten | crates/oracle_omen_plan/src/compiler.rs:12-37 | with validation as written, a plan compiles only when it also has no dependency at all; any dependency gives the cycle error |
| PlanCompiler.OneStepPlan | crates/oracle_omen_plan/src/compiler.rs:121-136 | a plan of one step without dependencies compiles cleanly |
| PlanCompiler.TwoStepGraph | crates/oracle_omen_plan/src/compiler.rs:138-158 | the plan where b depends on a has the single edge a -> b |
| PlanCompiler.TwoStepPlan | crates/oracle_omen_plan/src/compiler.rs:138-158 | that plan compiles cleanly but has an edge |
| PlanCompiler.SimplePlanExample | crates/oracle_omen_plan/src/compiler.rs:121-136 | compiling the one-step plan gives a DAG of length 1 that contains the step |
| PlanCompiler.DependenciesAsWrittenExample | crates/oracle_omen_plan/src/compiler.rs:138-158 | compiling the two-step plan as written fails with the cycle error |
| PlanCompiler.DependenciesExample | crates/oracle_omen_plan/src/compiler.rs:139-158 | compiled with the corrected order, the DAG has 2 nodes; with `dependencies` as written, `dependencies("a")` is {b} and `dependencies("b")` is empty, against the test's {a}; `dependents("b")` is {a} |
| PlanCompiler.DependenciesCorrectedExample | crates/oracle_omen_plan/src/compiler.rs:139-158 | with the corrected order and the corrected `dependencies`, the DAG has 2 nodes, `a` depends on nothing and `b` depends on exactly {a}, as the test expects |
| RuntimeCapabilities.IsDenied | crates/oracle_omen_runtime/src/capabilities.rs:60-67 | a check result is denied exactly when it is not granted |
| RuntimeCapabilities.DenialReason | crates/oracle_omen_runtime/src/capabilities.rs:70-75 | a reason is given exactly for a denial, and it is the denial's reason |
| RuntimeCapabilities.Check | crates/oracle_omen_runtime/src/capabilities.rs:18-27 | a capability is granted exactly when the granted set has it (wildcards included); otherwise the denial names it with "Capability not granted" |
| RuntimeCapabilities.CheckAll | crates/oracle_omen_runtime/src/capabilities.rs:30-40 | the loop grants exactly when every required capability is held, and otherwise denies the first one missing with "Required capability not granted" |
| RuntimeCapabilities.HasAllIndex | crates/oracle_omen_runtime/src/capabilities.rs:30-40 | the set-level "has all" is the same as holding each required capability in turn |
| RuntimeCapabilities.FirstDeniedUnique | crates/oracle_omen_runtime/src/capabilities.rs:30-40 | the first missing capability is unique, so the denial is determined |
| RuntimeCapabilities.CheckExamples | crates/oracle_omen_runtime/src/capabilities.rs:82-111 | with `fs:read:*` and `network:http:get` granted, `fs:read:*` passes, `fs:write:*` is denied, both granted ones pass together, and a list with `fs:write:*` is denied naming it |
| RuntimeScheduler.Deps | crates/oracle_omen_runtime/src/scheduler.rs:43-56 | the dependencies of a node are its edge set, empty for a node without one |
| RuntimeScheduler.ReadyOfMembers | crates/oracle_omen_runtime/src/scheduler.rs:42-57 | the nodes queued as ready are exactly those of the order without dependencies, without repeats |
| RuntimeScheduler.Position | crates/oracle_omen_runtime/src/scheduler.rs:83 | the position of a dependency is that of its first occurrence, and none exactly when it is absent |
| RuntimeScheduler.RemoveFirstSpec | crates/oracle_omen_runtime/src/scheduler.rs:83-84 | removing a completed dependency takes exactly one occurrence out of the list, and an absent one changes nothing |
| RuntimeScheduler.RemoveFirstEmpty | crates/oracle_omen_runtime/src/scheduler.rs:83-88 | a pending list becomes empty exactly when it was the single completed node |
| RuntimeScheduler.Scheduler.constructor | crates/oracle_omen_runtime/src/scheduler.rs:24-31 | a new scheduler has the given bound and empty ready queue, pending and running tables |
| RuntimeScheduler.Scheduler.Initialize | crates/oracle_omen_runtime/src/scheduler.rs:34-60 | as written, a DAG with an edge is refused with `InvalidState` and the cycle message, nothing changed; a DAG without edges queues every node as ready |
| RuntimeScheduler.Scheduler.InitializeCorrected | crates/oracle_omen_runtime/src/scheduler.rs:34-60 | over a correct topological order, every node is either ready with no dependencies or pending with exactly its dependencies; nothing runs |
| RuntimeScheduler.Scheduler.InitializeIntended | crates/oracle_omen_runtime/src/scheduler.rs:34-60 | with the corrected order and corrected dependencies, every node is ready when nothing points into it and otherwise pending on a list of exactly its predecessors; queues that respected the DAG with nothing completed still do |
| RuntimeScheduler.EnqueuedWaits | crates/oracle_omen_runtime/src/scheduler.rs:42-57 | the initialization loop queues a node as ready only when it has no dependencies and otherwise files it as pending on all of them, so it keeps the queues respecting the dependencies with nothing completed |
| RuntimeScheduler.NextAfterDependencies | crates/oracle_omen_runtime/src/scheduler.rs:63-69 | the node `next` hands out has every dependency among the completed nodes, and the queues left behind still respect the dependencies |
| RuntimeScheduler.CompleteKeepsWaits | crates/oracle_omen_runtime/src/scheduler.rs:77-98 | `complete(n)` keeps the queues respecting the dependencies with `n` added to the completed nodes; with the two rows above, in any run a node is handed out only after all its dependencies have completed |
| RuntimeScheduler.RemoveFirstLists | crates/oracle_omen_runtime/src/scheduler.rs:83-84 | removing a completed node from a pending list that holds each outstanding dependency once leaves a list of exactly the rest, each once |
| RuntimeScheduler.Scheduler.Enqueue | crates/oracle_omen_runtime/src/scheduler.rs:42-57 | the loop appends the dependency-free nodes to the ready queue in order and files the others as pending |
| RuntimeScheduler.Scheduler.EnqueueOne | crates/oracle_omen_runtime/src/scheduler.rs:43-56 | one node goes to the back of the ready queue when it has no dependencies, and into pending with exactly its dependencies otherwise |
| RuntimeScheduler.Scheduler.Next | crates/oracle_omen_runtime/src/scheduler.rs:63-69 | as written: nothing while `max_concurrent` tasks run, otherwise the front of the ready queue, with nothing recorded as running |
| RuntimeScheduler.Scheduler.NextCorrected | crates/oracle_omen_runtime/src/scheduler.rs:63-69 | the handed-out task is recorded as running, so the running table never grows past `max_concurrent` (also lines 209-212) |
| RuntimeScheduler.Scheduler.Start | crates/oracle_omen_runtime/src/scheduler.rs:72-74 | the started node is recorded as running under its id |
| RuntimeScheduler.Scheduler.Complete | crates/oracle_omen_runtime/src/scheduler.rs:77-98 | the node stops running, one occurrence leaves every pending list, and exactly the nodes waiting only for it move to the back of the ready queue; it always succeeds |
| RuntimeScheduler.Scheduler.DropDependency | crates/oracle_omen_runtime/src/scheduler.rs:81-89 | the first loop removes the node from every pending list and collects exactly the lists that became empty |
| RuntimeScheduler.Scheduler.Promote | crates/oracle_omen_runtime/src/scheduler.rs:92-95 | the second loop moves the collected nodes from pending to the back of the ready queue |
| RuntimeScheduler.NodeNamesCount | crates/oracle_omen_runtime/src/scheduler.rs:195-204 | the five `node{i}` names are distinct |
| RuntimeScheduler.InitializationExample | crates/oracle_omen_runtime/src/scheduler.rs:141-160 | two nodes without edges are both ready after initialization |
| RuntimeScheduler.DependenciesAsWritten | crates/oracle_omen_runtime/src/scheduler.rs:162-190 | as written, initializing with the edge a -> b fails with the cycle message |
| RuntimeScheduler.CorrectedQueuesAB | crates/oracle_omen_runtime/src/scheduler.rs:162-190 | with the edge a -> b and a correct order, b is ready and a waits for b |
| RuntimeScheduler.DependenciesCorrectedOrder | crates/oracle_omen_runtime/src/scheduler.rs:162-190 | with the corrected order but `dependencies` as written (the edge a -> b filed under its source), the first task handed out is b, not a; after the test starts and completes a, `next` gives nothing, because a waits on b |
| RuntimeScheduler.DependenciesIntended | crates/oracle_omen_runtime/src/scheduler.rs:162-190 | with the corrected order and corrected dependencies, as the test expects: `a` is handed out first, and after `a` is started and completed, `b` |
| RuntimeScheduler.BackpressureAsWritten | crates/oracle_omen_runtime/src/scheduler.rs:192-213 | as written, with 5 ready nodes and bound 2 a third `next` still hands out a task |
| RuntimeScheduler.BackpressureCorrected | crates/oracle_omen_runtime/src/scheduler.rs:192-213 | with `next` recording running tasks, the third call gives nothing |
| RuntimeTools.Describe | crates/oracle_omen_runtime/src/tools.rs:91-126 | both built-in tools are version 1.0.0, need no capability, are pure and have a 1000 ms timeout; they are named `echo` and `hash` (also lines 131-166) |
| RuntimeTools.BuiltinKeysDiffer | crates/oracle_omen_runtime/src/tools.rs:24-25 | the built-ins register under `echo@1.0.0` and `hash@1.0.0`, which differ (also lines 91-99, 131-139) |
| RuntimeTools.Execute | crates/oracle_omen_runtime/src/tools.rs:114-116 | both built-ins always succeed; echo returns its input unchanged; hash returns 64 bytes of hex text that parse back to the hash of the input (also lines 154-157) |
| RuntimeTools.HexBytes | crates/oracle_omen_runtime/src/tools.rs:154-157 | the hex of a hash is 64 ASCII bytes that read back as that hash |
| RuntimeTools.ToolRegistry.constructor | crates/oracle_omen_runtime/src/tools.rs:17-21 | a new registry holds no tool |
| RuntimeTools.ToolRegistry.Register | crates/oracle_omen_runtime/src/tools.rs:24-31 | a tool whose `name@version` key is taken is refused with "Tool ... already registered" and nothing changes; otherwise it is stored under that key, found by `get`, and the count grows by one |
| RuntimeTools.ToolRegistry.Get | crates/oracle_omen_runtime/src/tools.rs:34-36 | a tool is found exactly when its key is registered, and it is the stored one |
| RuntimeTools.ToolRegistry.List | crates/oracle_omen_runtime/src/tools.rs:39-41 | the listing has one id per registered tool, exactly the registered ids, without repeats |
| RuntimeTools.GetFindsItsId | crates/oracle_omen_runtime/src/tools.rs:24-36 | for names without `@`, the tool found for an id carries that id |
| RuntimeTools.RegistryExample | crates/oracle_omen_runtime/src/tools.rs:172-179 | registering echo and hash gives a listing of 2, and echo is found |
| RuntimeTools.BuiltinExamples | crates/oracle_omen_runtime/src/tools.rs:181-208 | echo returns `hello` for `hello`, and the hash of `test` is 64 characters |
| RuntimeExecutor.InvalidStateText | crates/oracle_omen_runtime/src/executor.rs:50 | the invalid-state message is "Invalid state: " followed by the text, from which the text is recovered |
| RuntimeExecutor.Success | crates/oracle_omen_runtime/src/executor.rs:121-129 | a success result is well formed, marked successful and carries the output and duration (also lines 226-231) |
| RuntimeExecutor.Failure | crates/oracle_omen_runtime/src/executor.rs:132-140 | a failure result is well formed, not successful and carries the error and duration |
| RuntimeExecutor.SuccessIsNotFailure | crates/oracle_omen_runtime/src/executor.rs:121-140 | no success result equals a failure result |
| RuntimeExecutor.NewState | crates/oracle_omen_runtime/src/executor.rs:74-91 | a new execution state has nothing completed, failed or current, and is neither complete nor failed (also lines 219-224) |
| RuntimeExecutor.NewExecutor | crates/oracle_omen_runtime/src/executor.rs:154-159 | a new executor keeps the granted capabilities and starts with the new state |
| RuntimeExecutor.Execute | crates/oracle_omen_runtime/src/executor.rs:162-172 | `execute` changes nothing and returns a copy of the current state |
| RuntimeExecutor.ExecuteTwice | crates/oracle_omen_runtime/src/executor.rs:162-172 | for `execute` as written, with its node loop commented out: executing twice is the same as once, and a new executor returns the new state; a property of the stub, not of DAG execution |
| RuntimeExecutor.ExecutorCreation | crates/oracle_omen_runtime/src/executor.rs:233-237 | an executor made from the empty capability set holds no capability |
| PolicyLang.Policy.constructor | crates/oracle_omen_policy/src/lang.rs:26-33 | a new policy has the given name and version, no rules and no metadata |
| PolicyLang.Policy.AddRule | crates/oracle_omen_policy/src/lang.rs:36-38 | a rule is appended at the end; name, version and metadata are kept |
| PolicyLang.Policy.Id | crates/oracle_omen_policy/src/lang.rs:41-46 | the id is the policy's name and version |
| PolicyLang.Allowed | crates/oracle_omen_policy/src/lang.rs:196-203 | an allow result is allowed, with the `Allow` action, no matched rules and the given reason |
| PolicyLang.Denied | crates/oracle_omen_policy/src/lang.rs:206-216 | a deny result is not allowed, its `Deny` action and its reason carry the same text, and no rules matched |
| PolicyLang.AllowedDeniedDistinct | crates/oracle_omen_policy/src/lang.rs:196-216 | no allow result is a deny result, and each is determined by its reason |
| PolicyLang.PolicyExample | crates/oracle_omen_policy/src/lang.rs:223-236 | the policy `test` 1.0.0 has id (test, 1.0.0) and no rules |
| PolicyCompiler.CompileCondition | crates/oracle_omen_policy/src/compiler.rs:42-83 | compiling a condition never fails and keeps it node for node: reading the compiled form back gives the original |
| PolicyCompiler.CompileAll | crates/oracle_omen_policy/src/compiler.rs:48-59 | compiling a list of conditions never fails and keeps each one in order |
| PolicyCompiler.CompileSource | crates/oracle_omen_policy/src/compiler.rs:42-83 | compiling the source form of a compiled condition gives it back: the two forms are in one-to-one correspondence |
| PolicyCompiler.CompileSourceAll | crates/oracle_omen_policy/src/compiler.rs:48-59 | the same for lists of conditions |
| PolicyCompiler.CompileInjective | crates/oracle_omen_policy/src/compiler.rs:42-83 | different conditions compile to different compiled conditions |
| PolicyCompiler.CompileRule | crates/oracle_omen_policy/src/compiler.rs:32-39 | compiling a rule never fails and keeps its name, kind, condition and action |
| PolicyCompiler.ValidateCondition | crates/oracle_omen_policy/src/compiler.rs:104-120 | the well-formedness check of a compiled condition always passes |
| PolicyCompiler.ValidateAll | crates/oracle_omen_policy/src/compiler.rs:96-98 | so does the check over all rules' conditions (also lines 104-120) |
| PolicyCompiler.RepeatsAtUnique | crates/oracle_omen_policy/src/compiler.rs:89-93 | the first rule whose name repeats an earlier one is unique |
| PolicyCompiler.Validate | crates/oracle_omen_policy/src/compiler.rs:86-101 | validation passes exactly when the rule names are distinct, and otherwise reports the first repeated name |
| PolicyCompiler.Compile | crates/oracle_omen_policy/src/compiler.rs:13-29 | a policy compiles exactly when its rule names are distinct; the result keeps the policy's id and metadata and one compiled rule per rule, in order; otherwise the first repeated name is reported |
| PolicyCompiler.CompileExamples | crates/oracle_omen_policy/src/compiler.rs:156-190 | the policy with rule `allow_read` compiles to that one rule, and a policy with the rule `duplicate` twice is refused naming it |
| PolicyEngine.NewContext | crates/oracle_omen_policy/src/engine.rs:32-40 | a new context grants nothing, names no tool, memory key or patch type, and has no state |
| PolicyEngine.HasCapabilityCases | crates/oracle_omen_policy/src/engine.rs:43-49 | the capability test accepts an exact member and anything under `*`, and without wildcard entries it is plain membership |
| PolicyEngine.HasCapabilityMonotone | crates/oracle_omen_policy/src/engine.rs:43-49 | granting more capabilities never withdraws one |
| PolicyEngine.CompareValuesTyped | crates/oracle_omen_policy/src/engine.rs:177-190 | a comparison holds only between values of the same type and an operator defined for it (strings: equal/not equal, booleans: equal), never on lists, and equality means equal values |
| PolicyEngine.CompareValuesDuality | crates/oracle_omen_policy/src/engine.rs:177-190 | on strings and integers not-equal is the negation of equal; on integers `<` mirrors `>` and `>=` negates `<` |
| PolicyEngine.EvalLaws | crates/oracle_omen_policy/src/engine.rs:152-174 | an empty conjunction holds, an empty disjunction does not, `Not` negates, custom conditions never hold, and a comparison on a missing field is false |
| PolicyEngine.EvalDeMorgan | crates/oracle_omen_policy/src/engine.rs:152-174 | the evaluator obeys De Morgan's laws for `And`/`Or` under `Not` |
| PolicyEngine.FirstDeny | crates/oracle_omen_policy/src/engine.rs:205-217 | the first matched deny rule, if any, with none before it |
| PolicyEngine.FirstAllow | crates/oracle_omen_policy/src/engine.rs:220-229 | the first matched allow rule, if any, with none before it |
| PolicyEngine.Resolve | crates/oracle_omen_policy/src/engine.rs:193-231 | no match denies with "No policy allows: "; otherwise the first deny wins with its reason; otherwise the first allow wins naming its policy and rule; otherwise "No allow rule for: " |
| PolicyEngine.ResolveAllowed | crates/oracle_omen_policy/src/engine.rs:193-231 | the outcome is allowed exactly when some matched rule allows and none denies |
| PolicyEngine.ResolveMatched | crates/oracle_omen_policy/src/engine.rs:193-231 | the outcome names at most one matched rule, and it is one of the matches |
| PolicyEngine.RuleMatchesMembers | crates/oracle_omen_policy/src/engine.rs:82-94 | one policy's matches are exactly its rules that pass the filter, tagged with its id |
| PolicyEngine.MatchesMembers | crates/oracle_omen_policy/src/engine.rs:82-94 | the matches over all policies are exactly the rules of some policy that pass the filter |
| PolicyEngine.Engine.constructor | crates/oracle_omen_policy/src/engine.rs:65-69 | a new engine holds no policy |
| PolicyEngine.Engine.AddPolicy | crates/oracle_omen_policy/src/engine.rs:72-74 | a policy is appended at the end |
| PolicyEngine.Engine.Collect | crates/oracle_omen_policy/src/engine.rs:82-94 | the double loop collects exactly the specified matches, policy by policy and rule by rule |
| PolicyEngine.Engine.EvaluateTool | crates/oracle_omen_policy/src/engine.rs:77-96 | tool requests are resolved over the `Tool` rules whose condition holds with the tool set in the context |
| PolicyEngine.Engine.EvaluateCapability | crates/oracle_omen_policy/src/engine.rs:99-127 | as written, capability requests are resolved over the `Capability` rules only: a `HasCapability` rule matches when it names the capability, any other condition is evaluated on the caller's context |
| PolicyEngine.Engine.EvaluateCapabilityCorrected | crates/oracle_omen_policy/src/engine.rs:99-127 | the same, with `Resource` rules evaluated too, as the compare-condition test expects (also lines 303-328) |
| PolicyEngine.Engine.EvaluatePatch | crates/oracle_omen_policy/src/engine.rs:130-149 | patch requests are resolved over the `Patch` rules whose condition holds with the patch type set |
| PolicyEngine.NoPoliciesDenies | crates/oracle_omen_policy/src/engine.rs:197-200 | with no policy loaded every request is denied by default |
| PolicyEngine.CorrectedAgreesWithoutResourceRules | crates/oracle_omen_policy/src/engine.rs:99-127 | when no rule has kind `Resource`, the corrected evaluation matches exactly the same rules as the one as written |
| PolicyEngine.AllowCapabilityExample | crates/oracle_omen_policy/src/engine.rs:245-264 | a rule allowing `fs:read` allows it, naming `allow_fs_read` |
| PolicyEngine.DenyCapabilityExample | crates/oracle_omen_policy/src/engine.rs:266-288 | a rule denying `fs:write` denies it with "Write not allowed" |
| PolicyEngine.DefaultDenyExample | crates/oracle_omen_policy/src/engine.rs:290-301 | a policy without rules denies `fs:read` by default |
| PolicyEngine.CompareConditionAsWritten | crates/oracle_omen_policy/src/engine.rs:303-328 | as written, the `Resource` rule `iterations < 100` is never consulted and the request is denied by default |
| PolicyEngine.CompareConditionCorrected | crates/oracle_omen_policy/src/engine.rs:303-328 | with resource rules consulted, 50 < 100 holds and the request is allowed by `limit_iterations` |
| MemoryDocument.TypeNameIdentifiesVariant | crates/oracle_omen_memory/src/document.rs:111-122 | `type_name` gives one of the eight names and two values share a name exactly when they are the same variant |
| MemoryDocument.NewRecord | crates/oracle_omen_memory/src/document.rs:27-38 | a new document has the given key, value and causal event, an empty version vector, and a hash computed from its contents |
| MemoryDocument.MergeRecord | crates/oracle_omen_memory/src/document.rs:46-60 | merging reports a key mismatch exactly when the keys differ, merges exactly when the other document's causal event is later (taking its value and event and rehashing), and otherwise leaves the document as it was |
| MemoryDocument.MergeLatest | crates/oracle_omen_memory/src/document.rs:46-60 | after a merge with the same key the document carries the later of the two causal events, and its hash stays consistent |
| MemoryDocument.MergeIdempotent | crates/oracle_omen_memory/src/document.rs:46-60 | merging the same document a second time changes nothing |
| MemoryDocument.MergeConverges | crates/oracle_omen_memory/src/document.rs:46-60 | two replicas with distinct causal events end with the same document whichever merges into which (last writer wins) |
| MemoryDocument.TieKeepsOwnValue | crates/oracle_omen_memory/src/document.rs:52-59 | with equal causal events and different values, each side keeps its own value, so the order of merging decides the result |
| MemoryDocument.Document.constructor | crates/oracle_omen_memory/src/document.rs:27-38 | the object starts as the new document (also lines 165-170) |
| MemoryDocument.Document.Rehash | crates/oracle_omen_memory/src/document.rs:41-43 | the hash is recomputed from key, value, version and causal event, and nothing else changes |
| MemoryDocument.Document.Merge | crates/oracle_omen_memory/src/document.rs:46-60 | in place, the new document and the result are those of the merge |
| MemoryDocument.MergeExamples | crates/oracle_omen_memory/src/document.rs:172-200 | a later document's value 20 is taken, an earlier one's value is ignored, and different keys give a key mismatch |
| MemoryStore.HashesFollowKeys | crates/oracle_omen_memory/src/store.rs:102-105 | the hashes combined are one per document, in key order |
| MemoryStore.EmptyRecord | crates/oracle_omen_memory/src/store.rs:22-28 | a new store has no documents, no provenance and the zero hash |
| MemoryStore.LoggedTwice | crates/oracle_omen_memory/src/store.rs:35-38 | two writes under the same event are logged under it in the order written (also lines 183-191) |
| MemoryStore.WriteRecord | crates/oracle_omen_memory/src/store.rs:31-55 | a write always logs the key under its causal event; a new key stores the document and reports `Merged`; an existing key merges into the stored document and reports the merge result; the store hash is recomputed |
| MemoryStore.DeleteRecord | crates/oracle_omen_memory/src/store.rs:63-74 | a delete succeeds exactly when the key is present: it removes the document, logs `!key` under the event and rehashes; otherwise nothing changes |
| MemoryStore.WriteKeepsValid | crates/oracle_omen_memory/src/store.rs:31-55 | writes keep the store consistent, never report a key mismatch, and the written value wins exactly when the key is new or its event is later |
| MemoryStore.DeleteKeepsValid | crates/oracle_omen_memory/src/store.rs:63-74 | deletes keep the store consistent and the key is gone afterwards |
| MemoryStore.WritesCommute | crates/oracle_omen_memory/src/store.rs:31-55 | writing two new documents with different keys in either order gives the same documents and the same store hash (also lines 102-105) |
| MemoryStore.MemoryStore.constructor | crates/oracle_omen_memory/src/store.rs:22-28 | the object starts as the empty store |
| MemoryStore.MemoryStore.Write | crates/oracle_omen_memory/src/store.rs:31-55 | in place, the new store and the result are those of the write |
| MemoryStore.MemoryStore.Read | crates/oracle_omen_memory/src/store.rs:58-60 | a document is found exactly when its key is present, and it is the stored one |
| MemoryStore.MemoryStore.Delete | crates/oracle_omen_memory/src/store.rs:63-74 | in place, the new store and the result are those of the delete |
| MemoryStore.MemoryStore.Keys | crates/oracle_omen_memory/src/store.rs:77-79 | the keys are listed in increasing order, each present key once |
| MemoryStore.MemoryStore.Len | crates/oracle_omen_memory/src/store.rs:82-84 | the count is the number of keys |
| MemoryStore.MemoryStore.IsEmpty | crates/oracle_omen_memory/src/store.rs:87-89 | the store is empty exactly when it lists no key |
| MemoryStore.MemoryStore.KeysForEvent | crates/oracle_omen_memory/src/store.rs:97-99 | the keys logged under an event, or none |
| MemoryStore.MemoryStore.Rehash | crates/oracle_omen_memory/src/store.rs:102-105 | the store hash becomes the combination of the document hashes in key order; nothing else changes |
| MemoryStore.MemoryStore.Snapshot | crates/oracle_omen_memory/src/store.rs:108-117 | a snapshot holds each document's hash under its key and the store hash |
| MemoryStore.MemoryStore.StateAtEvent | crates/oracle_omen_memory/src/store.rs:120-124 | the temporal query returns a fresh copy of the current store, whatever the event |
| MemoryStore.SnapshotRecomputesHash | crates/oracle_omen_memory/src/store.rs:102-117 | the store hash in a snapshot can be recomputed from the document hashes it lists |
| MemoryStore.WriteReadDeleteExample | crates/oracle_omen_memory/src/store.rs:170-201 | after writing `test` the store has one document with value `value`; deleting it succeeds and leaves the store empty |
| MemoryStore.ProvenanceExample | crates/oracle_omen_memory/src/store.rs:183-191 | two writes under event 1 list `key1`, `key2` for that event |
| MemoryProvenance.NewRecord | crates/oracle_omen_memory/src/provenance.rs:26-34 | a new record carries the given event, operation and key, no value hash and timestamp 0 |
| MemoryProvenance.WithValueHash | crates/oracle_omen_memory/src/provenance.rs:37-40 | sets the value hash and leaves every other field as it was |
| MemoryProvenance.WithTimestamp | crates/oracle_omen_memory/src/provenance.rs:43-46 | sets the timestamp and leaves every other field as it was |
| MemoryProvenance.KeyRecords | crates/oracle_omen_memory/src/provenance.rs:109-113 | filtering an event's records by key never yields more records than the event has |
| MemoryProvenance.EmptyTracker | crates/oracle_omen_memory/src/provenance.rs:77-82 | a new tracker has no records and no key history, and is consistent |
| MemoryProvenance.Recorded | crates/oracle_omen_memory/src/provenance.rs:85-91 | recording appends the record to its event's list and the event to its key's history, and no other event's records or key's history change |
| MemoryProvenance.OccurrencesSnoc | crates/oracle_omen_memory/src/provenance.rs:90 | appending an event to a history adds one occurrence of that event and none of any other |
| MemoryProvenance.KeyRecordsSnoc | crates/oracle_omen_memory/src/provenance.rs:89 | appending a record adds it to the records of its own key only |
| MemoryProvenance.RecordKeepsValid | crates/oracle_omen_memory/src/provenance.rs:85-91 | recording keeps the two indexes consistent: a key's history lists an event exactly as often as that event holds records with that key |
| MemoryProvenance.OccursCounted | crates/oracle_omen_memory/src/provenance.rs:99-101 | an event is in a history exactly when it occurs there at least once |
| MemoryProvenance.KeyRecordsMembers | crates/oracle_omen_memory/src/provenance.rs:109-113 | a record survives the key filter exactly when it was among the records and has that key |
| MemoryProvenance.HistoryMatchesRecords | crates/oracle_omen_memory/src/provenance.rs:94-101 | in a consistent tracker, an event is in a key's history exactly when that event holds a record with that key |
| MemoryProvenance.TraceSound | crates/oracle_omen_memory/src/provenance.rs:104-118 | every record a trace returns has the traced key, comes from an event the trace walked, and is recorded under its own event |
| MemoryProvenance.TraceContains | crates/oracle_omen_memory/src/provenance.rs:104-118 | every record with the traced key under any walked event appears in the trace |
| MemoryProvenance.TraceFindsKey | crates/oracle_omen_memory/src/provenance.rs:104-118 | tracing a key over its own history returns exactly the records with that key, from whichever events they were recorded under |
| MemoryProvenance.FilterKey | crates/oracle_omen_memory/src/provenance.rs:109-113 | the inner loop keeps exactly the records with the key, in their recorded order |
| MemoryProvenance.ProvenanceTracker.constructor | crates/oracle_omen_memory/src/provenance.rs:77-82 | a new tracker is the empty tracker |
| MemoryProvenance.ProvenanceTracker.Record | crates/oracle_omen_memory/src/provenance.rs:85-91 | the tracker's new contents are those of recording the record into the old contents |
| MemoryProvenance.ProvenanceTracker.RecordsForEvent | crates/oracle_omen_memory/src/provenance.rs:94-96 | the records stored under the event, or none when the event is unknown |
| MemoryProvenance.ProvenanceTracker.HistoryForKey | crates/oracle_omen_memory/src/provenance.rs:99-101 | the events stored under the key, or none when the key is unknown |
| MemoryProvenance.ProvenanceTracker.Trace | crates/oracle_omen_memory/src/provenance.rs:104-118 | the nested loops return, history event by history event, that event's records with the key, in order |
| MemoryProvenance.ProvenanceTracker.Events | crates/oracle_omen_memory/src/provenance.rs:121-123 | the recorded events, strictly ascending, each exactly once |
| MemoryProvenance.RecordBuilderExample | crates/oracle_omen_memory/src/provenance.rs:136-145 | a record built with event 1, key `test_key`, hash `abc123` and timestamp 100 keeps the event, key and hash |
| MemoryProvenance.TrackerOfThree | crates/oracle_omen_memory/src/provenance.rs:147-159 | two records under event 1 with different keys and one under event 2 with the first key give two records at event 1, one at event 2, history [1, 2] for the first key and [1] for the second |
| MemoryProvenance.TrackerExample | crates/oracle_omen_memory/src/provenance.rs:147-159 | the same scenario run through the tracker's methods gives the same counts and histories |
| MemoryProvenance.TraceOfThree | crates/oracle_omen_memory/src/provenance.rs:161-171 | three records of one key under events 1, 2, 3 trace back as exactly those three records in event order |
| MemoryProvenance.TraceExample | crates/oracle_omen_memory/src/provenance.rs:161-171 | tracing `test` after writes at events 1 and 2 and a delete at 3 gives three records, starting at event 1 and ending with the delete |
| MemoryProvenance.TraceOfDuplicate | crates/oracle_omen_memory/src/provenance.rs:104-118 | recording the same record twice lists its event twice in the key's history, so the trace returns the record four times |
| MemoryProvenance.DuplicateTraceExample | crates/oracle_omen_memory/src/provenance.rs:104-118 | recording one write twice through the tracker gives history [1, 1] and a trace of four copies of it |
| MemoryQuery.FromDocument | crates/oracle_omen_memory/src/query.rs:129-137 | a result item carries the key it was found under, the document's value and its causal event |
| MemoryQuery.TypeFilterSelectsVariant | crates/oracle_omen_memory/src/query.rs:191-201 | a type filter that matches anything names one of the eight value types, and then matches exactly the items whose value has the same type |
| MemoryQuery.CloneAsWritten | crates/oracle_omen_memory/src/query.rs:166-176 | cloning copies key, prefix and type filters, and turns a custom filter into a key-equality filter on the sentinel key `__uncloneable_filter__` |
| MemoryQuery.CloneAsWrittenMatchesSentinel | crates/oracle_omen_memory/src/query.rs:172-173 | the clone of any custom filter matches a document stored under the sentinel key, although the comment promises a filter that always returns false |
| MemoryQuery.CloneFilter | crates/oracle_omen_memory/src/query.rs:166-176 | cloning keeps every non-custom filter and its verdicts, and the clone of a custom filter rejects every item, as the comment promises |
| MemoryQuery.NewQuery | crates/oracle_omen_memory/src/query.rs:46-53 | a new query has no filters, key order and no limit |
| MemoryQuery.AddFilter | crates/oracle_omen_memory/src/query.rs:56-59 | adding a filter appends it, so an item passes the new filter list exactly when it passed the old one and the new filter; order and limit are kept |
| MemoryQuery.OrderBy | crates/oracle_omen_memory/src/query.rs:62-65 | sets the ordering and keeps filters and limit |
| MemoryQuery.Limit | crates/oracle_omen_memory/src/query.rs:68-71 | sets the limit and keeps filters and ordering |
| MemoryQuery.CollectedMembers | crates/oracle_omen_memory/src/query.rs:75-85 | the collect step yields an item exactly when its key was listed and it is a stored document that passes every filter |
| MemoryQuery.CollectedIncreasing | crates/oracle_omen_memory/src/query.rs:75-85 | collecting over keys in ascending order yields items in ascending key order |
| MemoryQuery.Candidates | crates/oracle_omen_memory/src/query.rs:75-85 | the collected items are in ascending key order and are exactly the stored documents that pass every filter |
| MemoryQuery.InsertByEvent | crates/oracle_omen_memory/src/query.rs:95-97 | one step of the event sort adds the item and loses none |
| MemoryQuery.SortByEvent | crates/oracle_omen_memory/src/query.rs:95-97 | the event sort is a permutation of its input |
| MemoryQuery.InsertKeepsOrder | crates/oracle_omen_memory/src/query.rs:95-97 | inserting an item whose key is above every key already sorted keeps the list ordered by event, ties by key |
| MemoryQuery.SortByEventOrdered | crates/oracle_omen_memory/src/query.rs:95-97 | a stable sort by event of items in ascending key order orders them by event, ties by ascending key |
| MemoryQuery.Ordered | crates/oracle_omen_memory/src/query.rs:88-98 | the ordering step is a permutation that is ascending by key, descending by key, or ordered by event as the query asks |
| MemoryQuery.Truncated | crates/oracle_omen_memory/src/query.rs:101-103 | with no limit the list is kept; with limit n it keeps the first min(n, length) items |
| MemoryQuery.Results | crates/oracle_omen_memory/src/query.rs:74-106 | every returned item is a stored document passing every filter, in the order the query asks |
| MemoryQuery.Execute | crates/oracle_omen_memory/src/query.rs:74-106 | executing never fails; every returned item is a stored document passing every filter, in the requested order |
| MemoryQuery.ExecuteComplete | crates/oracle_omen_memory/src/query.rs:74-106 | without a limit, an item is returned exactly when it is a stored document passing every filter |
| MemoryQuery.ExecuteReturnsAll | crates/oracle_omen_memory/src/query.rs:74-106 | with no filters and no limit, every document is returned, each once |
| MemoryQuery.ExecuteLimit | crates/oracle_omen_memory/src/query.rs:101-103 | a query with limit n returns the first n items of the same query without a limit |
| MemoryQuery.KeysSorted | crates/oracle_omen_memory/src/query.rs:211-213 | the store's keys, strictly ascending, each stored key exactly once |
| MemoryQuery.AllSorted | crates/oracle_omen_memory/src/query.rs:215-220 | one pair per document, in the store's key order, each pairing a stored key with its document's value |
| MemoryQuery.AllSortedAscending | crates/oracle_omen_memory/src/query.rs:215-220 | the pairs are strictly ascending by key and every stored document appears among them |
| PatchSignature.SignatureFromBytes | crates/oracle_omen_patches/src/signature.rs:17-19 | a signature built from 64 bytes holds exactly those bytes |
| PatchSignature.SignatureHex | crates/oracle_omen_patches/src/signature.rs:22-24 | the hex text has two lower-case hex digits per byte |
| PatchSignature.ParseSignature | crates/oracle_omen_patches/src/signature.rs:27-40 | any text that is not 128 characters is refused with `InvalidLength`; a parsed signature always has 64 bytes |
| PatchSignature.SignatureFromHex | crates/oracle_omen_patches/src/signature.rs:27-40 | the pair-by-pair loop returns what the parse specification returns |
| PatchSignature.ParseSignatureInvalidHex | crates/oracle_omen_patches/src/signature.rs:33-37 | a 128-character text is refused with `InvalidHex` exactly when one of its 64 pairs is not a byte in base 16 |
| PatchSignature.SignatureHexRoundTrip | crates/oracle_omen_patches/src/signature.rs:22-40 | parsing the hex text of any 64-byte signature gives that signature back |
| PatchSignature.SignerFromBytes | crates/oracle_omen_patches/src/signature.rs:60-62 | a signer id built from 32 bytes holds exactly those bytes as its public key |
| PatchSignature.SignerHex | crates/oracle_omen_patches/src/signature.rs:65-67 | the hex text has two lower-case hex digits per key byte |
| PatchSignature.ParseSigner | crates/oracle_omen_patches/src/signature.rs:70-83 | any text that is not 64 characters is refused with `InvalidLength`; a parsed signer id always has a 32-byte key |
| PatchSignature.SignerFromHex | crates/oracle_omen_patches/src/signature.rs:70-83 | the pair-by-pair loop returns what the parse specification returns |
| PatchSignature.SignerHexRoundTrip | crates/oracle_omen_patches/src/signature.rs:187-193 | parsing the hex text of any 32-byte signer id gives that id back |
| PatchSignature.SignerDisplay | crates/oracle_omen_patches/src/signature.rs:86-91 | the display text is the first 16 characters of the hex text, or all of it when it is shorter |
| PatchSignature.VerifyIffNotZero | crates/oracle_omen_patches/src/signature.rs:43-47 | verification accepts exactly the 64-byte signatures that are not all zero, whatever the message and signer |
| PatchSignature.Generate | crates/oracle_omen_patches/src/signature.rs:102-118 | a generated key pair has 32-byte keys with secret byte i equal to i and public byte i equal to i + 32 |
| PatchSignature.SignerOf | crates/oracle_omen_patches/src/signature.rs:121-123 | the signer id of a key pair is its public key |
| PatchSignature.Sha256 | crates/oracle_omen_patches/src/signature.rs:133 | the SHA-256 stand-in gives 32 bytes and is a fixed function of the message |
| PatchSignature.Sign | crates/oracle_omen_patches/src/signature.rs:126-140 | signing panics (`None`) exactly when the secret key is shorter than 32 bytes; otherwise the signature is the 32-byte digest of the message followed by the first 32 secret-key bytes, so the same key and message always give the same signature |
| PatchSignature.SignedVerifies | crates/oracle_omen_patches/src/signature.rs:126-140 | a signature made with a secret key that is not all zero verifies against any message and signer |
| PatchSignature.GenerateSignExample | crates/oracle_omen_patches/src/signature.rs:167-184 | a generated key pair has keys that are not all zero, what it signs verifies under its own signer id, and signing the same message again gives the same signature |
| PatchSignature.ShortKeyPanics | crates/oracle_omen_patches/src/signature.rs:134-137 | a one-byte secret key makes `sign` panic on the out-of-bounds index |
| PatchDef.NewPatchId | crates/oracle_omen_patches/src/patch.rs:89-95 | a new id carries the run and sequence numbers and an empty checksum |
| PatchDef.IdText | crates/oracle_omen_patches/src/patch.rs:98-107 | the text of an id always contains the `:` separator |
| PatchDef.IdTextInjective | crates/oracle_omen_patches/src/patch.rs:98-107 | two ids with the same text have the same run and sequence numbers |
| PatchDef.NewPatch | crates/oracle_omen_patches/src/patch.rs:38-54 | a new patch carries the given id, type, target and reasoning, with no data, no tests and zero creation time and creator |
| PatchDef.WithDataEffect | crates/oracle_omen_patches/src/patch.rs:57-60 | adding a data entry makes the key read back its value, keeps every other entry and field, and a later value for the same key replaces it |
| PatchDef.WithDataCommutes | crates/oracle_omen_patches/src/patch.rs:57-71 | data entries under different keys can be added in either order with the same patch and the same hash |
| PatchDef.WithTestsAppends | crates/oracle_omen_patches/src/patch.rs:63-66 | adding test requirements one by one appends them in order and changes nothing else |
| PatchDef.SignedHashIgnoresSignature | crates/oracle_omen_patches/src/patch.rs:259-261 | the hash of a signed patch depends on the patch alone, not the signature or signer |
| PatchDef.SignedVerifyIffNotZero | crates/oracle_omen_patches/src/patch.rs:264-266 | a signed patch verifies exactly when its signature is 64 bytes that are not all zero |
| PatchDef.BuilderExample | crates/oracle_omen_patches/src/patch.rs:287-299 | a new config patch with data `value` = `1000` reads `1000` back under `value` and holds no other entry |
| PatchDef.CustomDebugPrefix | crates/oracle_omen_patches/src/patch.rs:110-135 | only a custom patch type's `Debug` text begins with `Cus`; the seven named types do not |
| PatchDef.PatchTypeDebugInjective | crates/oracle_omen_patches/src/gate.rs:115 | two patch types with the same `Debug` text are the same type, so the policy kind the audit gate evaluates names the patch type, custom names included |
| PatchGate.FailedWith | crates/oracle_omen_patches/src/gate.rs:39-44 | a failure made from a reason carries that reason and no details, and does not pass |
| PatchGate.IsPassedOnlyPassed | crates/oracle_omen_patches/src/gate.rs:29-31 | a gate result passes exactly when it is `Passed`; no failure or deferral passes |
| PatchGate.ViolationIffUnsatisfied | crates/oracle_omen_patches/src/gate.rs:74-86 | a test yields a failure message exactly when its result contradicts the expected outcome: a `Pass` test that failed or a `Fail` test that passed; `Any` never does |
| PatchGate.Runs | crates/oracle_omen_patches/src/gate.rs:70-72 | the runner is asked once per test requirement, in the patch's order |
| PatchGate.FailuresEmptyIff | crates/oracle_omen_patches/src/gate.rs:70-89 | there are no failure messages exactly when every test's result meets its expectation |
| PatchGate.DetailsKeys | crates/oracle_omen_patches/src/gate.rs:92-95 | the failure details have one entry per distinct test name |
| PatchGate.TestGatePassesIff | crates/oracle_omen_patches/src/gate.rs:63-101 | the test gate passes exactly when every test meets its expectation; otherwise it fails with details naming every test |
| PatchGate.FailuresStep | crates/oracle_omen_patches/src/gate.rs:70-95 | one more test adds its failure message, if any, after the earlier ones, and its detail entry over any earlier one with the same name |
| PatchGate.EvaluateTests | crates/oracle_omen_patches/src/gate.rs:63-101 | the loops collecting results, failures and details return the test gate's verdict |
| PatchGate.DeterminismRunner | crates/oracle_omen_patches/src/gate.rs:191-210 | the determinism runner reports every test as passed |
| PatchGate.ReplayRunner | crates/oracle_omen_patches/src/gate.rs:215-233 | the replay runner reports every test as passed |
| PatchGate.BuiltinRunnersPassIff | crates/oracle_omen_patches/src/gate.rs:270-283 | with either built-in runner the test gate passes exactly when no test expects `Fail`, so a patch without tests passes |
| PatchGate.MissingCharExcludes | crates/oracle_omen_patches/src/gate.rs:236-257 | a pattern that holds a character the text lacks does not occur in the text |
| PatchGate.LowerOfLower | crates/oracle_omen_patches/src/gate.rs:245 | lower-casing a text without upper-case letters leaves it unchanged |
| PatchGate.InjectionFound | crates/oracle_omen_patches/src/gate.rs:295-298 | `ignore previous instructions` and `DISREGARD ABOVE` are recognised as injections, the second after lower-casing |
| PatchGate.NormalTextLetters | crates/oracle_omen_patches/src/gate.rs:299 | `normal text` is already lower case and lacks a letter of each injection phrase |
| PatchGate.InjectionNotFound | crates/oracle_omen_patches/src/gate.rs:299 | `normal text` is not recognised as an injection |
| PatchGate.DangerousFound | crates/oracle_omen_patches/src/gate.rs:302-306 | data holding `use unsafe` is dangerous |
| PatchGate.DangerousNotFound | crates/oracle_omen_patches/src/gate.rs:308-310 | data holding only `normal code` is not dangerous |
| PatchGate.AuditVerdict | crates/oracle_omen_patches/src/gate.rs:117-134 | the audit passes exactly when the policy allows the patch, a prompt patch's reasoning holds no injection phrase, and no data value holds a dangerous pattern |
| PatchGate.AuditGate | crates/oracle_omen_patches/src/gate.rs:109-135 | the audit asks a fresh policy engine, which holds no policies, so every patch fails with the engine's denial naming the patch type |
| PatchGate.ApprovalPassesIff | crates/oracle_omen_patches/src/gate.rs:154-166 | approval passes exactly for an authorized signer whose signature is not 64 zero bytes; for a 64-byte signature, exactly for an authorized signer whose signature verifies |
| PatchGate.EmptyGateRejects | crates/oracle_omen_patches/src/gate.rs:285-293 | a gate with no authorized signers refuses every signer as not authorized |
| PatchStore.AddPatchEffect | crates/oracle_omen_patches/src/store.rs:23-34 | adding under a taken id fails with `AlreadyExists` and changes nothing; under a new id it stores the patch with its status and keeps every other entry |
| PatchStore.UpdateStatusEffect | crates/oracle_omen_patches/src/store.rs:42-49 | updating a stored id replaces its status and keeps its patch and every other entry; an unknown id fails with `NotFound` and changes nothing |
| PatchStore.SameVariantLaws | crates/oracle_omen_patches/src/store.rs:63-71 | comparing statuses by variant is reflexive, symmetric and transitive, ignores rejection reasons and tells different variants apart |
| PatchStore.WithStatusMembers | crates/oracle_omen_patches/src/store.rs:60-75 | filtering the listed ids yields a patch exactly when one of them holds it with a status of the requested variant |
| PatchStore.PatchStore.constructor | crates/oracle_omen_patches/src/store.rs:18-20 | a new store holds no patches |
| PatchStore.PatchStore.AddPatch | crates/oracle_omen_patches/src/store.rs:23-34 | the new table and the result are those of adding to the old table |
| PatchStore.PatchStore.GetPatch | crates/oracle_omen_patches/src/store.rs:37-39 | a lookup finds something exactly when the id is stored, and then returns its patch and status |
| PatchStore.PatchStore.UpdateStatus | crates/oracle_omen_patches/src/store.rs:42-49 | the new table and the result are those of updating the old table |
| PatchStore.PatchStore.ListPatches | crates/oracle_omen_patches/src/store.rs:52-57 | one entry per stored id, in ascending id order, each with that id's patch and status |
| PatchStore.PatchStore.GetByStatus | crates/oracle_omen_patches/src/store.rs:60-75 | a patch is returned exactly when some stored id holds it with a status of the requested variant |
| PatchStore.ListPatchesAscending | crates/oracle_omen_patches/src/store.rs:52-57 | the listing is strictly ascending by id and holds every stored entry |
| PatchStore.WithStatusMembersAll | crates/oracle_omen_patches/src/store.rs:60-75 | filtering over all stored ids yields exactly the patches whose status has the requested variant |
| PatchStore.PatchStoreExample | crates/oracle_omen_patches/src/store.rs:143-180 | adding a patch under its id text succeeds, reads back with status `Proposed`, and adding it again fails with `AlreadyExists` naming that id |
| PatchStore.SignedAddKeepsValid | crates/oracle_omen_patches/src/store.rs:92-100 | adding keeps every patch filed under its own hash and every id pointing at a stored patch with that id |
| PatchStore.SignedAddRefusesDuplicate | crates/oracle_omen_patches/src/store.rs:94-96 | a patch whose hash is already stored is refused with `AlreadyExists` naming the hash, and nothing changes |
| PatchStore.SignedAddFinds | crates/oracle_omen_patches/src/store.rs:92-110 | after adding a new patch, both its hash and its id find it |
| PatchStore.SignedAddKeepsOthers | crates/oracle_omen_patches/src/store.rs:92-110 | adding a new patch changes the lookup of no other hash and of no other id |
| PatchStore.GetByIdSound | crates/oracle_omen_patches/src/store.rs:108-110 | in a consistent store, lookup by id finds something exactly when the id is indexed, and what it finds has that id |
| PatchStore.SignedList | crates/oracle_omen_patches/src/store.rs:113-115 | one patch per stored hash, in ascending byte order of the hashes |
| PatchStore.SignedListAscending | crates/oracle_omen_patches/src/store.rs:113-115 | in a consistent store the listed patches' hashes are strictly ascending |
| PatchStore.SignedListMembers | crates/oracle_omen_patches/src/store.rs:113-115 | the listing holds exactly the stored patches |
| PatchStore.SignedPatchStore.constructor | crates/oracle_omen_patches/src/store.rs:87-89 | a new store holds no patches and no ids |
| PatchStore.SignedPatchStore.Add | crates/oracle_omen_patches/src/store.rs:92-100 | the new contents and the result are those of adding to the old contents |
| PatchStore.SignedPatchStore.Get | crates/oracle_omen_patches/src/store.rs:103-105 | a lookup by hash finds something exactly when the hash is stored |
| PatchStore.SignedPatchStore.GetById | crates/oracle_omen_patches/src/store.rs:108-110 | looks up the id's hash and then the patch under it |
| PatchStore.SignedPatchStore.List | crates/oracle_omen_patches/src/store.rs:113-115 | the stored patches in ascending hash order |
| PatchStore.SignedStoreExample | crates/oracle_omen_patches/src/store.rs:182-201 | adding one signed patch to a new store succeeds, the listing holds exactly it, and its hash finds it |
| PatchApply.DataOr | crates/oracle_omen_patches/src/apply.rs:205 | a data lookup gives the stored value, or the empty string when the key is missing |
| PatchApply.ApplyPatch | crates/oracle_omen_patches/src/apply.rs:193-253 | the agent state and the result after applying are those of the patch's effect on the old state |
| PatchApply.ApplyPatchResult | crates/oracle_omen_patches/src/apply.rs:193-253 | applying succeeds exactly for a system-prompt, config or policy target, naming the patch's id text, reporting one changed domain and no rollback data; any other target fails with `Target type not implemented` and leaves the state as it was |
| PatchApply.ApplyPatchKeepsUnlisted | crates/oracle_omen_patches/src/apply.rs:193-253 | a successful application changes no domain it does not report as changed |
| PatchApply.ApplyPatchWrites | crates/oracle_omen_patches/src/apply.rs:198-248 | a system-prompt patch writes its `prompt` entry (or the empty string) to `system_prompt`; a config patch writes its `value` to `config.<key>`, or changes nothing when it has none but still reports the domain; a policy patch writes its `policy` entry to `policy.<name>`; each write bumps the version and keeps the state hash consistent |
| PatchApply.SubmitEffect | crates/oracle_omen_patches/src/apply.rs:71-78 | submitting stores a new patch as `Proposed` under its id text and leaves the applied records alone; an id already stored is refused with the store's message and nothing changes |
| PatchApply.ApproveEffect | crates/oracle_omen_patches/src/apply.rs:105-122 | approval is refused as `NotApproved`, changing nothing, exactly when the signature is 64 zero bytes; otherwise a stored patch becomes `Approved` and an unknown id fails with the store's `Not found` message |
| PatchApply.ApplyRefuses | crates/oracle_omen_patches/src/apply.rs:130-136 | applying an unknown id fails with `NotFound`, and a patch that is neither approved nor tested with `NotApproved`, both changing nothing |
| PatchApply.ApplyUnsupportedChangesNothing | crates/oracle_omen_patches/src/apply.rs:140 | a patch whose target cannot be applied fails and leaves engine and state unchanged |
| PatchApply.ApplySucceeds | crates/oracle_omen_patches/src/apply.rs:125-162 | an approved or tested patch with a supported target is applied, becomes `Applied`, and is recorded with its hash, a logical time counting earlier records, and the state hashes before and after |
| PatchApply.ApplyTwiceRefused | crates/oracle_omen_patches/src/apply.rs:134-136 | a patch applied once is refused as `NotApproved` when applied again |
| PatchApply.RollbackEffect | crates/oracle_omen_patches/src/apply.rs:165-190 | rolling back an applied patch writes the hash from before the application to `_rollback`, keeps every other domain, marks the patch `RolledBack("Manual rollback")`, keeps the applied record and returns that hash; an id never applied fails with `NotFound` and changes nothing |
| PatchApply.OperationsKeepValid | crates/oracle_omen_patches/src/apply.rs:71-190 | submit, approve, apply and rollback all keep every applied record attached to a stored patch |
| PatchApply.PatchEngine.constructor | crates/oracle_omen_patches/src/apply.rs:63-68 | a new engine owns the given store and has applied nothing |
| PatchApply.PatchEngine.Submit | crates/oracle_omen_patches/src/apply.rs:71-78 | the new engine contents and the result are those of submitting to the old contents |
| PatchApply.PatchEngine.TestGate | crates/oracle_omen_patches/src/apply.rs:81-90 | an unknown id is `NotFound`; otherwise the test gate's verdict on the stored patch |
| PatchApply.PatchEngine.AuditGate | crates/oracle_omen_patches/src/apply.rs:93-102 | an unknown id is `NotFound`; otherwise the audit gate's verdict, which is always the policy denial for the patch type |
| PatchApply.PatchEngine.Approve | crates/oracle_omen_patches/src/apply.rs:105-122 | the new engine contents and the result are those of approving in the old contents |
| PatchApply.PatchEngine.Apply | crates/oracle_omen_patches/src/apply.rs:125-162 | the new engine contents, agent state and result are those of applying in the old ones |
| PatchApply.PatchEngine.Rollback | crates/oracle_omen_patches/src/apply.rs:165-190 | the new engine contents, agent state and result are those of rolling back in the old ones |
| PatchApply.SystemPromptExample | crates/oracle_omen_patches/src/apply.rs:287-306 | an approved system-prompt patch applies, reports `system_prompt` as changed, and the state then holds its prompt there |
| PatchApply.ConfigApplyExample | crates/oracle_omen_patches/src/apply.rs:308-324 | an approved config patch for `test` applies to the initial state, reports exactly `config.test`, and is recorded with the zero hash as the hash before |
| PatchApply.ConfigRollbackExample | crates/oracle_omen_patches/src/apply.rs:308-328 | that patch then rolls back successfully, restoring to the zero hash |
| WasmLimits.New | crates/oracle_omen_wasm/src/limits.rs:26-38 | new limits keep the given fuel, page and timeout bounds, with 1024 table elements and 1 MiB of output |
| WasmLimits.Minimal | crates/oracle_omen_wasm/src/limits.rs:41-49 | the minimal preset: 10 000 fuel, one page, 10 table elements, 100 ms, 1024 output bytes |
| WasmLimits.Generous | crates/oracle_omen_wasm/src/limits.rs:52-60 | the generous preset: 10 000 000 fuel, 64 pages, 4096 table elements, 30 s, 10 MiB of output |
| WasmLimits.Default | crates/oracle_omen_wasm/src/limits.rs:68-72 | the default limits are new limits with 1 000 000 fuel, 16 pages and 5000 ms |
| WasmLimits.MaxMemoryBytes | crates/oracle_omen_wasm/src/limits.rs:63-65 | the byte bound is a whole number of 64 KiB pages, exactly the page bound, and fits a 64-bit `usize` |
| WasmLimits.MaxMemoryBytesMonotone | crates/oracle_omen_wasm/src/limits.rs:63-65 | the byte bound grows exactly when the page bound grows, and equal byte bounds mean equal page bounds |
| WasmLimits.PresetsOrdered | crates/oracle_omen_wasm/src/limits.rs:41-72 | minimal, default and generous limits are ordered bound by bound, allowing 64 KiB, 1 MiB and 4 MiB of memory |
| WasmLimits.Standard | crates/oracle_omen_wasm/src/limits.rs:85-92 | the standard prices: 1 per plain operation, 10 per memory or table operation, 100 per host call |
| WasmLimits.Conservative | crates/oracle_omen_wasm/src/limits.rs:95-102 | the conservative prices: 2, 20, 20 and 200 |
| WasmLimits.DefaultCosts | crates/oracle_omen_wasm/src/limits.rs:105-109 | the default prices are the standard ones |
| WasmLimits.ScaledSpendsMore | crates/oracle_omen_wasm/src/limits.rs:76-81 | under the model's own linear reading of the price table (`FuelSpent`, which the source never computes), prices all scaled by k make any mix of operations cost k times the fuel |
| WasmLimits.ConservativeDoublesStandard | crates/oracle_omen_wasm/src/limits.rs:85-102 | the conservative prices are the standard ones doubled, so every run costs twice the fuel under them |
| WasmHost.Logged | crates/oracle_omen_wasm/src/host.rs:25-27 | logging keeps the capabilities and adds one message |
| WasmHost.Cleared | crates/oracle_omen_wasm/src/host.rs:35-37 | clearing keeps the capabilities and empties the log |
| WasmHost.LoggedAllAppends | crates/oracle_omen_wasm/src/host.rs:25-32 | messages logged one after another appear after the earlier ones in the order logged, and the capabilities stay the same |
| WasmHost.ClearForgets | crates/oracle_omen_wasm/src/host.rs:20-37 | clearing forgets everything logged before it, and neither logging nor clearing changes which capabilities are granted |
| WasmHost.HostState.constructor | crates/oracle_omen_wasm/src/host.rs:12-17 | a new host holds the given capabilities and no logs |
| WasmHost.HostState.HasCapability | crates/oracle_omen_wasm/src/host.rs:20-22 | a capability is held exactly when it is one of the granted names |
| WasmHost.HostState.LogMessage | crates/oracle_omen_wasm/src/host.rs:25-27 | the new host contents are those of logging the message into the old ones |
| WasmHost.HostState.Logs | crates/oracle_omen_wasm/src/host.rs:30-32 | the logged messages, in order |
| WasmHost.HostState.ClearLogs | crates/oracle_omen_wasm/src/host.rs:35-37 | the new host contents are those of clearing the old ones |
| WasmHost.RegisterHostFunctions | crates/oracle_omen_wasm/src/host.rs:45-51 | registration always succeeds |
| WasmHost.HostExample | crates/oracle_omen_wasm/src/host.rs:57-69 | a host granted `log` and `hash` holds `log` but not `fs_write`; after logging `test` its log is exactly `test`, and clearing empties it while keeping `log` |

## Left out

- BLAKE3 and SHA-256 are not modelled. `Hashing.Digest` is a fixed stand-in that looks only at the input length, so no property that rests on collision resistance is stated. For example, the order-sensitivity test of `combine_hashes` (hash.rs:210-217) is not proved.
- The internals of `serde_json` are not modelled. The canonical form is the `Json` datatype with a fixed rendering function. crates/oracle_omen_core/src/serde_utils.rs is not part of this model.
- crates/oracle_omen_core/src/error.rs and crates/oracle_omen_policy/src/schema.rs are declarations only. Their variants and records appear as datatypes where the model needs them.
- crates/oracle_omen_wasm/src/sandbox.rs and compile.rs are not part of this model. They call the wasmi and wat engines.
- Concurrency and async are left out:
  - the atomic counters of the time sources are a sequential counter;
  - `DagExecutor::execute` is a synchronous function that returns the state unchanged, as the source's body does;
  - the commented-out `execute_node` loop is not modelled.
- Trait objects are left out. `Tool`, `DynTool` and `ToolRegistry` entries are descriptors, not dynamic dispatch. A `TestRunner` is a function parameter (`PatchGate.Runner`).
- `StateValue::F64` is carried as opaque bits and never compared numerically. Floating point is not modelled.
- Integer widths are left unbounded except in two places: the time-source counters wrap at 2^64, and the WASM limits keep `u32` and `u64` ranges with `usize` taken as 64 bits. Event sequence numbers, versions, timestamps and durations do not model `u64` overflow.
- `to_lowercase`, used in the content checks of the audit gate, is modelled as ASCII-only lowering (`Text.LowerAscii`).
- The hex parsers (`Hash::from_hex`, `Signature::from_hex`, `SignerId::from_hex`) require ASCII input. The source slices the string by bytes and panics on a cut inside a multi-byte character. The model does not model that panic.
- `EventLog`s that are deserialised bypass `append`. The log invariant covers only logs built by `new` and `append`.
- A `Dag` can also be deserialised (it derives `serde::Deserialize`, dag.rs:8), which bypasses `add_node` and `add_edge`. The DAG invariant (`PlanDag.Dag.Valid`: edge sets for every node, reverse edges mirroring edges, no cycle) covers only DAGs built by `new`, `add_node` and `add_edge`. Nothing in the modelled source deserialises a `Dag`.
- Presentation is left out: `Display` and `Debug` in general (except where a property fixes an exact reason or error string), the CLI crate, the examples and the crate `lib.rs` files.
- PatchDef.PatchTypeDebug and CoreReplay.KindDebug: write the `Custom(..)` name with the escapes `\"`, `\\`, `\0`, `\t`, `\n` and `\r` that Rust's derived `Debug` uses (`Text.EscapeDebug`), but not its `\u{..}` escapes of other non-printable or grapheme-extending characters. The exact reasons ensured by `PatchGate.AuditGate` and `PatchApply.PatchEngine.AuditGate`, and the kind text of `CoreReplay.DiffEvents`, match the source only for custom names without such characters.
- The `std` capability helpers (capability.rs:152-186) are `const fn`s that call non-const code. They are not modelled.
- `AuditGate::evaluate` is modelled as written. It builds a fresh `PolicyEngine` with no policies, so every audit is denied by default, and its injection and dangerous-content checks are never reached. Those checks are still modelled and proved on their own.
- RuntimeScheduler.Scheduler.Complete: moves the newly ready nodes in an order left unspecified, because the source walks a `HashMap`. The pending lists come from a `HashSet` and are not ordered either.
- RuntimeTools.ToolRegistry.List: states the set of ids and that there are no repeats, but not their order, because the source iterates a `HashMap`.
- MemoryQuery.Ordered: takes items already in ascending key order, which is how `execute` collects them from the ordered store. It does not model sorting by key an arbitrary list; on such input, sorting by key is the identity.

## Findings

| source | as written | input that shows it | evidently intended | confidence | as-written member | corrected member |
|---|---|---|---|---|---|---|
| crates/oracle_omen_core/src/capability.rs:105-107 | `has_pattern` calls `c.matches(pattern)`, so the stored capability is read as the capability and the argument as the pattern | a set holding `fs:read:*` asked `has_pattern("fs:read:/tmp")` answers false; the test at capability.rs:212-218 expects true | a stored pattern grants every capability it matches | not executed | CoreCapability.HasPatternAsWritten | CoreCapability.GrantsPatternMeetsTest |
| crates/oracle_omen_plan/src/dag.rs:101-131 | `topological_order` decrements the in-degree of each node's predecessors (`reverse_edges`) rather than its successors | the chain a -> b -> c is reported as a cycle; the test at dag.rs:332-356 expects `[a, b, c]` | Kahn's algorithm along the forward edges: every DAG gets an order, and only a cycle is an error | not executed | PlanDag.ChainAsWrittenFails | PlanDag.Dag.TopologicalOrderCorrected |
| crates/oracle_omen_plan/src/dag.rs:145-147 | `dependencies` returns `edges[id]`, and `add_edge(from, to)` files `to` there, so it yields the nodes that depend on `id` | compiling the plan where `b` depends on `a` gives `dependencies("b")` empty, where the test at compiler.rs:139-158 expects {a}; the scheduler then hands out `b` before `a`, where the test at scheduler.rs:162-190 expects `a` first | `dependencies(id)` gives the nodes with an edge into `id`, which must complete before it | not executed | RuntimeScheduler.DependenciesCorrectedOrder | RuntimeScheduler.DependenciesIntended |
| crates/oracle_omen_runtime/src/scheduler.rs:63-69 | `next` pops a ready node but never records it as running, so the `max_concurrent` check never fires | five ready nodes with `max_concurrent` 2: a third `next` still returns a task; the test at scheduler.rs:192-213 expects none | a task handed out counts as running until it completes | not executed | RuntimeScheduler.BackpressureAsWritten | RuntimeScheduler.BackpressureCorrected |
| crates/oracle_omen_policy/src/engine.rs:99-127 | `evaluate_capability` evaluates only `Capability` rules and skips `Resource` rules | a policy allowing `iterations < 100`, asked with `iterations` 50, is denied by default; the test at engine.rs:303-328 expects allowed | resource rules take part in the evaluation | not executed | PolicyEngine.CompareConditionAsWritten | PolicyEngine.CompareConditionCorrected |
| crates/oracle_omen_memory/src/query.rs:166-176 | cloning a `Custom` filter yields `KeyEquals("__uncloneable_filter__")`, which the comment says always fails | a document stored under the key `__uncloneable_filter__` passes the cloned filter | a cloned custom filter matches no document | not executed | MemoryQuery.CloneAsWrittenMatchesSentinel | MemoryQuery.CloneFilter |
