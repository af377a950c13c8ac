/** Deterministic replay (crates/oracle_omen_core/src/replay.rs): an engine
    that walks an event log position by position and rebuilds an agent state,
    the comparison of two logs, integrity verification and snapshots. */
module CoreReplay {
  import opened Wrappers
  import Text
  import Seqs
  import Hashing
  import CoreEvent
  import CoreState

  type Event = CoreEvent.Event
  type StateRecord = CoreState.StateRecord

  // ---------------------------------------------------------------------
  // The effect of one event on the state

  /** The key a non-transition event writes: `format!("event_{}", seq)`. */
  function EventKey(sequence: nat): string {
    "event_" + Text.Decimal(sequence)
  }

  /** Different sequences write different keys. */
  lemma EventKeyInjective(a: nat, b: nat)
    requires a != b
    ensures EventKey(a) != EventKey(b)
  {
    if EventKey(a) == EventKey(b) {
      assert Text.Decimal(a) == EventKey(a)[6..] == EventKey(b)[6..] == Text.Decimal(b);
      Text.DecimalInjective(a, b);
    }
  }

  /** `EventKey` never produces the key `_event_hash`. */
  lemma EventKeyNotEventHash(sequence: nat)
    ensures EventKey(sequence) != "_event_hash"
  {
    assert EventKey(sequence)[0] == 'e';
  }

  function HashData(h: Hashing.Hash): CoreState.StateData {
    CoreState.Value(CoreState.HashValue(h))
  }

  /** `apply_event`. A state-transition payload resets the state to
      `with_run_id(run_id)` when the event records a before-hash that differs
      from the current hash, then stores the after-hash under `_event_hash`
      when there is one. Any other payload stores the event's hash under
      `event_{sequence}`. */
  function ApplyEvent(s: StateRecord, e: Event): StateRecord {
    if e.payload.StateTransitionPayload? then
      var base := if e.stateHashBefore.Some? && s.stateHash != e.stateHashBefore.value
                  then CoreState.WithRunIdRecord(e.id.runId) else s;
      if e.stateHashAfter.Some? then CoreState.SetRecord(base, "_event_hash", HashData(e.stateHashAfter.value))
      else base
    else CoreState.SetRecord(s, EventKey(e.id.sequence), HashData(CoreEvent.EventHash(e)))
  }

  /** The state after applying `events` in order. */
  function Replay(s: StateRecord, events: seq<Event>): StateRecord {
    Seqs.Fold(s, events, ApplyEvent)
  }

  predicate NoTransitions(events: seq<Event>) {
    forall i :: 0 <= i < |events| ==> !events[i].payload.StateTransitionPayload?
  }

  /** A non-transition event adds exactly its own key, bumps the version by
      one and leaves a consistent state. */
  lemma ApplyOtherEvent(s: StateRecord, e: Event)
    requires !e.payload.StateTransitionPayload?
    ensures var r := ApplyEvent(s, e);
      && r.version == s.version + 1 && CoreState.Consistent(r)
      && r.data == s.data[EventKey(e.id.sequence) := HashData(CoreEvent.EventHash(e))]
  {
  }

  /** A transition whose recorded before-hash differs from the current hash
      discards the current state: the result depends only on the event. */
  lemma ApplyDivergentTransition(s1: StateRecord, s2: StateRecord, e: Event)
    requires e.payload.StateTransitionPayload? && e.stateHashBefore.Some?
    requires s1.stateHash != e.stateHashBefore.value && s2.stateHash != e.stateHashBefore.value
    ensures ApplyEvent(s1, e) == ApplyEvent(s2, e)
    ensures e.stateHashAfter.None? ==> ApplyEvent(s1, e) == CoreState.WithRunIdRecord(e.id.runId)
    ensures e.stateHashAfter.Some? ==> ApplyEvent(s1, e).version == 1
  {
  }

  /** A transition that matches the current hash (or records none) and has
      no after-hash leaves the state as it was. */
  lemma ApplyQuietTransition(s: StateRecord, e: Event)
    requires e.payload.StateTransitionPayload? && e.stateHashAfter.None?
    requires e.stateHashBefore.Some? ==> s.stateHash == e.stateHashBefore.value
    ensures ApplyEvent(s, e) == s
  {
  }

  /** Replaying a log without state transitions raises the version once per
      event. */
  lemma ReplayVersion(s: StateRecord, events: seq<Event>)
    requires NoTransitions(events)
    ensures Replay(s, events).version == s.version + |events|
  {
    var version := (t: StateRecord) => t.version as int;
    forall t: StateRecord, i | 0 <= i < |events| ensures version(ApplyEvent(t, events[i])) == version(t) + 1 {
      ApplyOtherEvent(t, events[i]);
    }
    Seqs.FoldMeasure(s, events, ApplyEvent, version);
  }

  /** After replaying a log without state transitions whose sequences are
      distinct, every event's hash is found under its own key. */
  lemma ReplayRecordsEvents(s: StateRecord, events: seq<Event>, j: nat)
    requires NoTransitions(events)
    requires forall a, b :: 0 <= a < b < |events| ==> events[a].id.sequence != events[b].id.sequence
    requires j < |events|
    ensures EventKey(events[j].id.sequence) in Replay(s, events).data
    ensures Replay(s, events).data[EventKey(events[j].id.sequence)] == HashData(CoreEvent.EventHash(events[j]))
  {
    var holds := (t: StateRecord, e: Event) =>
      EventKey(e.id.sequence) in t.data && t.data[EventKey(e.id.sequence)] == HashData(CoreEvent.EventHash(e));
    forall t: StateRecord, i | 0 <= i < |events| ensures holds(ApplyEvent(t, events[i]), events[i]) {
      ApplyOtherEvent(t, events[i]);
    }
    forall t: StateRecord, i, k | 0 <= i < k < |events| && holds(t, events[i])
      ensures holds(ApplyEvent(t, events[k]), events[i])
    {
      ApplyOtherEvent(t, events[k]);
      EventKeyInjective(events[i].id.sequence, events[k].id.sequence);
    }
    Seqs.FoldKeeps(s, events, ApplyEvent, holds, j);
  }

  /** Replaying the concatenation of two logs is replaying one after the
      other, which is what resuming from a position relies on. */
  lemma ReplayAppend(s: StateRecord, xs: seq<Event>, ys: seq<Event>)
    ensures Replay(s, xs + ys) == Replay(Replay(s, xs), ys)
  {
    Seqs.FoldAppend(s, xs, ys, ApplyEvent);
  }

  // ---------------------------------------------------------------------
  // Comparing two logs

  /** `DivergencePoint`. */
  datatype DivergencePoint = DivergencePoint(
    position: nat, eventId: CoreEvent.EventId, expected: Hashing.Hash, actual: Hashing.Hash, diff: string)

  /** `{:?}` of an `EventKind`: the variant name. */
  function KindDebug(k: CoreEvent.EventKind): string {
    match k
    case AgentInit => "AgentInit"
    case StateTransition => "StateTransition"
    case ToolRequest => "ToolRequest"
    case ToolResponse => "ToolResponse"
    case CapabilityDenied => "CapabilityDenied"
    case Observation => "Observation"
    case Decision => "Decision"
    case MemoryWrite => "MemoryWrite"
    case MemoryRead => "MemoryRead"
    case PatchProposal => "PatchProposal"
    case PatchApplied => "PatchApplied"
    case PatchRejected => "PatchRejected"
    case Error => "Error"
    case Snapshot => "Snapshot"
    case Custom(name) => "Custom(\"" + Text.EscapeDebug(name) + "\")"
  }

  /** `diff_events`. */
  function DiffEvents(e1: Event, e2: Event): string {
    if e1.kind != e2.kind then "Kind: " + KindDebug(e1.kind) + " vs " + KindDebug(e2.kind)
    else if e1.payloadHash != e2.payloadHash then
      "Payload: " + Hashing.Hex(e1.payloadHash) + " vs " + Hashing.Hex(e2.payloadHash)
    else "Unknown difference"
  }

  /** The diff names the first of kind and payload hash that differs, and
      falls back to "Unknown difference" exactly when both agree. */
  lemma DiffEventsCases(e1: Event, e2: Event)
    ensures Text.StartsWith(DiffEvents(e1, e2), "Kind: ") <==> e1.kind != e2.kind
    ensures Text.StartsWith(DiffEvents(e1, e2), "Payload: ") <==> e1.kind == e2.kind && e1.payloadHash != e2.payloadHash
    ensures DiffEvents(e1, e2) == "Unknown difference" <==> e1.kind == e2.kind && e1.payloadHash == e2.payloadHash
  {
    var d := DiffEvents(e1, e2);
    if e1.kind != e2.kind {
      assert d[0] == 'K';
    } else if e1.payloadHash != e2.payloadHash {
      assert d[0] == 'P';
    } else {
      assert d[0] == 'U';
    }
  }

  /** The point reported when one log ends before the other. */
  function CountPoint(pos: nat): DivergencePoint {
    DivergencePoint(pos, CoreEvent.EventId(0, pos), Hashing.Zero(), Hashing.Zero(), "Different event count")
  }

  /** The point reported for two events at the same position, if their
      hashes differ. */
  function MismatchAt(pos: nat, e1: Event, e2: Event): (r: Option<DivergencePoint>)
    ensures r.Some? <==> CoreEvent.EventHash(e1) != CoreEvent.EventHash(e2)
    ensures r.Some? ==> (r.value.position == pos && r.value.eventId == e1.id
      && r.value.expected == CoreEvent.EventHash(e1) && r.value.actual == CoreEvent.EventHash(e2)
      && r.value.diff == DiffEvents(e1, e2))
  {
    var h1, h2 := CoreEvent.EventHash(e1), CoreEvent.EventHash(e2);
    if h1 != h2 then Some(DivergencePoint(pos, e1.id, h1, h2, DiffEvents(e1, e2))) else None
  }

  function PositionOf(p: DivergencePoint): nat { p.position }

  /** What `detect_divergence` reports for two logs. */
  function Divergences(a: seq<Event>, b: seq<Event>): seq<DivergencePoint> {
    Seqs.ScanFrom(a, b, 0, MismatchAt, CountPoint)
  }

  /** The report lists points in strictly increasing order of position, none
      beyond the shorter length, and each point below it is the mismatch of
      the two events at its position. */
  lemma DivergencesOrdered(a: seq<Event>, b: seq<Event>)
    ensures var ds := Divergences(a, b);
      && (forall i, j :: 0 <= i < j < |ds| ==> ds[i].position < ds[j].position)
      && (forall i :: 0 <= i < |ds| ==> ds[i].position <= Seqs.Min(|a|, |b|))
      && (forall i :: 0 <= i < |ds| && ds[i].position < Seqs.Min(|a|, |b|) ==>
            MismatchAt(ds[i].position, a[ds[i].position], b[ds[i].position]) == Some(ds[i]))
  {
    var ds := Divergences(a, b);
    Seqs.ScanOrdered(a, b, MismatchAt, CountPoint, PositionOf, ds);
  }

  /** Every position below both lengths where the events' hashes differ is
      reported. */
  lemma DivergencesComplete(a: seq<Event>, b: seq<Event>, p: nat)
    requires p < |a| && p < |b| && CoreEvent.EventHash(a[p]) != CoreEvent.EventHash(b[p])
    ensures exists i :: 0 <= i < |Divergences(a, b)| && Divergences(a, b)[i] == MismatchAt(p, a[p], b[p]).value
  {
    var ds := Divergences(a, b);
    var ps := Seqs.PointPositions(a, b, 0, MismatchAt);
    Seqs.ScanPoints(a, b, 0, MismatchAt, CountPoint);
    Seqs.PointPositionsComplete(a, b, 0, MismatchAt, p);
    var i :| 0 <= i < |ps| && ps[i] == p;
    assert ds[i] == MismatchAt(p, a[p], b[p]).value;
  }

  /** A count point closes the report exactly when the lengths differ, and
      it sits at the shorter length. */
  lemma DivergencesCount(a: seq<Event>, b: seq<Event>)
    ensures var ds := Divergences(a, b);
      |a| != |b| <==> |ds| > 0 && ds[|ds| - 1] == CountPoint(Seqs.Min(|a|, |b|))
  {
    var ds := Divergences(a, b);
    var ps := Seqs.PointPositions(a, b, 0, MismatchAt);
    Seqs.ScanPoints(a, b, 0, MismatchAt, CountPoint);
    if |a| != |b| {
      Seqs.ScanTail(a, b, 0, MismatchAt, CountPoint);
    } else if |ds| > 0 {
      var k := |ds| - 1;
      assert MismatchAt(ps[k], a[ps[k]], b[ps[k]]) == Some(ds[k]);
      assert ds[k].expected != ds[k].actual;
    }
  }

  /** Two identical logs show no divergence. */
  lemma IdenticalLogsAgree(a: seq<Event>)
    ensures Divergences(a, a) == []
  {
    Seqs.ScanSame(a, 0, MismatchAt, CountPoint);
  }

  // ---------------------------------------------------------------------
  // Verification

  /** `VerificationReport`. */
  datatype VerificationReport = VerificationReport(
    totalEvents: nat, verifiedEvents: nat, hashFailures: nat, stateMismatches: nat)

  /** `VerificationReport::is_valid`. */
  predicate IsValid(r: VerificationReport) {
    r.hashFailures == 0 && r.stateMismatches == 0
  }

  /** The report `verify` returns for a log. */
  function ReportFor(events: seq<Event>): VerificationReport {
    var verified := Seqs.Count(events, CoreEvent.VerifyPayloadHash);
    VerificationReport(|events|, verified, |events| - verified, 0)
  }

  /** A report is valid exactly when every event's payload hash verifies. */
  lemma ReportValidIff(events: seq<Event>)
    ensures IsValid(ReportFor(events)) <==> forall i :: 0 <= i < |events| ==> CoreEvent.VerifyPayloadHash(events[i])
  {
    Seqs.CountAll(events, CoreEvent.VerifyPayloadHash);
  }

  /** A log built only through `append` verifies. */
  lemma AppendedLogIsValid(log: CoreEvent.EventLog)
    requires log.Valid()
    ensures IsValid(ReportFor(log.events))
  {
    ReportValidIff(log.events);
  }

  // ---------------------------------------------------------------------
  // The engine

  /** `ReplayError`. */
  datatype ReplayError =
    | LogError(message: string)
    | CorruptedState(message: string)
    | Divergence(at: nat, expected: Hashing.Hash, actual: Hashing.Hash)
    | InvalidPosition(position: nat)

  /** `ReplayEngine`. The engine owns its log, which it never changes, so
      the log is held as the sequence of its events; the current state is
      owned too and is held by value. */
  class ReplayEngine {
    const events: seq<Event>
    var current: StateRecord
    var position: nat

    /** `ReplayEngine::new`: position 0, initial state. */
    constructor (log: CoreEvent.EventLog)
      ensures events == log.events && position == 0 && current == CoreState.InitialRecord()
      ensures log.events == [] ==> IsComplete()
    {
      events := log.events;
      current := CoreState.InitialRecord();
      position := 0;
    }

    /** `ReplayEngine::with_state`. */
    constructor WithState(log: CoreEvent.EventLog, initial: StateRecord)
      ensures events == log.events && position == 0 && current == initial
    {
      events := log.events;
      current := initial;
      position := 0;
    }

    /** `is_complete`. */
    predicate IsComplete()
      reads this
    {
      position >= |events|
    }

    /** `step`: when an event is left, apply it and advance; otherwise
        change nothing. */
    method Step() returns (r: Option<Event>)
      modifies this
      ensures old(position) < |events| ==>
        r == Some(events[old(position)]) && position == old(position) + 1
        && current == ApplyEvent(old(current), events[old(position)])
      ensures old(position) >= |events| ==> r == None && position == old(position) && current == old(current)
    {
      if position < |events| {
        var e := events[position];
        current := ApplyEvent(current, e);
        position := position + 1;
        return Some(e);
      }
      return None;
    }

    /** `replay_all`: step until the log is exhausted; never fails. The
        result is the replay of the remaining events over the current
        state. */
    method ReplayAll() returns (r: Result<CoreState.AgentState, ReplayError>)
      modifies this
      ensures r.Ok? && fresh(r.value) && r.value.Record() == current
      ensures old(position) < |events| ==> position == |events| && current == Replay(old(current), events[old(position)..])
      ensures old(position) >= |events| ==> position == old(position) && current == old(current)
      ensures IsComplete()
    {
      ghost var start := position;
      ghost var s0 := current;
      var e := Step();
      if e.Some? {
        assert events[start..position] == [] + [events[start]];
        Seqs.FoldSnoc(s0, [], events[start], ApplyEvent);
      }
      while e.Some?
        invariant start < |events| ==> start < position <= |events| && current == Replay(s0, events[start..position])
        invariant start >= |events| ==> position == start && current == s0 && e.None?
        invariant e.None? ==> position >= |events|
        decreases |events| - position + (if e.Some? then 1 else 0)
      {
        ghost var before := position;
        ghost var prev := current;
        e := Step();
        if e.Some? {
          assert events[start..position] == events[start..before] + [events[before]];
          Seqs.FoldSnoc(s0, events[start..before], events[before], ApplyEvent);
        }
      }
      if start < |events| {
        assert events[start..position] == events[start..];
      }
      var state := new CoreState.AgentState.FromRecord(current);
      return Ok(state);
    }

    /** `replay_from`: move to `position` without resetting the state, then
        replay the rest. */
    method ReplayFrom(p: nat) returns (r: Result<CoreState.AgentState, ReplayError>)
      modifies this
      ensures r.Ok? && fresh(r.value) && r.value.Record() == current
      ensures p < |events| ==> position == |events| && current == Replay(old(current), events[p..])
      ensures p >= |events| ==> position == p && current == old(current)
    {
      position := p;
      r := ReplayAll();
    }

    /** `detect_divergence`: walk both logs in step. */
    method DetectDivergence(other: ReplayEngine) returns (ds: seq<DivergencePoint>)
      ensures ds == Divergences(events, other.events)
    {
      ds := Seqs.ScanWalk(events, other.events, MismatchAt, CountPoint);
    }

    /** `verify`: count the events whose payload hash verifies; never
        fails. */
    method Verify() returns (r: Result<VerificationReport, ReplayError>)
      ensures r == Ok(ReportFor(events))
    {
      var verified, failures := Seqs.CountWhere(events, CoreEvent.VerifyPayloadHash);
      return Ok(VerificationReport(|events|, verified, failures, 0));
    }
  }

  // ---------------------------------------------------------------------
  // Snapshots

  /** `Snapshot`. */
  datatype Snapshot = Snapshot(
    id: string, runId: nat, position: nat, state: StateRecord, stateHash: Hashing.Hash, eventHash: Hashing.Hash)

  /** `Snapshot::verify`. */
  predicate VerifySnapshot(s: Snapshot) {
    s.stateHash == s.state.stateHash
  }

  /** `Snapshot::new`: it records the state's hash, so it verifies. */
  function NewSnapshot(id: string, runId: nat, position: nat, state: StateRecord): (s: Snapshot)
    ensures VerifySnapshot(s) && s.eventHash == Hashing.Zero()
    ensures s.id == id && s.runId == runId && s.position == position && s.state == state
  {
    Snapshot(id, runId, position, state, state.stateHash, Hashing.Zero())
  }

  /** `SnapshotManager`: snapshots keyed by their position. */
  class SnapshotManager {
    var snapshots: map<nat, Snapshot>

    /** Every snapshot is stored under its own position. */
    ghost predicate Valid()
      reads this
    {
      forall p :: p in snapshots ==> snapshots[p].position == p
    }

    /** `SnapshotManager::new`. */
    constructor ()
      ensures snapshots == map[] && Valid()
    {
      snapshots := map[];
    }

    /** `add`: a snapshot at an occupied position replaces the old one. */
    method Add(s: Snapshot)
      modifies this
      ensures snapshots == old(snapshots)[s.position := s]
      ensures old(Valid()) ==> Valid()
    {
      snapshots := snapshots[s.position := s];
    }

    /** `get`. */
    function Get(position: nat): Option<Snapshot>
      reads this
    {
      if position in snapshots then Some(snapshots[position]) else None
    }

    /** `get_snapshot_before`: the snapshot with the greatest position not
        above `position`. */
    function GetSnapshotBefore(position: nat): (r: Option<Snapshot>)
      reads this
    {
      var below := set p: int | p in snapshots && p <= position;
      if below == {} then None else Some(snapshots[Text.GreatestInt(below)])
    }

    /** `positions`: the keys in ascending order. */
    function Positions(): (r: seq<int>)
      reads this
    {
      Text.SortedInts(set p: int | p in snapshots)
    }

    /** `get_snapshot_before(p)` finds a snapshot exactly when one is stored
        at or before `p`, and then it is the one with the greatest such
        position. */
    lemma GetSnapshotBeforeIff(p: nat)
      requires Valid()
      ensures GetSnapshotBefore(p).Some? <==> exists q :: q in snapshots && q <= p
      ensures GetSnapshotBefore(p).Some? ==>
        var s := GetSnapshotBefore(p).value;
        && s.position in snapshots && snapshots[s.position] == s && s.position <= p
        && forall q :: q in snapshots && q <= p ==> q <= s.position
    {
      var below := set q: int | q in snapshots && q <= p;
      if exists q :: q in snapshots && q <= p {
        var q :| q in snapshots && q <= p;
        assert q in below;
        var g := Text.GreatestInt(below);
        assert GetSnapshotBefore(p) == Some(snapshots[g]);
        forall q | q in snapshots && q <= p ensures q <= g { assert q in below; }
      }
    }

    /** `positions()` lists every stored position once, ascending. */
    lemma PositionsShape()
      ensures var r := Positions();
        && (forall i, j :: 0 <= i < j < |r| ==> r[i] < r[j])
        && (forall q :: q in r <==> q >= 0 && q in snapshots)
        && |r| == |snapshots|
    {
      var keys := set p: int | p in snapshots;
      assert keys == snapshots.Keys;
    }
  }

  /** The manager test: snapshots at 10 and 20; looking up 15 gives the one
      at 10 and looking up 25 the one at 20. */
  method ManagerExample(state: StateRecord)
  {
    var m := new SnapshotManager();
    m.Add(NewSnapshot("s1", 1, 10, state));
    m.Add(NewSnapshot("s2", 1, 20, state));
    assert m.snapshots.Keys == {10, 20};
    assert 10 in m.snapshots && 20 in m.snapshots;
    m.GetSnapshotBeforeIff(15);
    m.GetSnapshotBeforeIff(25);
    assert m.GetSnapshotBefore(15).value.position == 10;
    assert m.GetSnapshotBefore(25).value.position == 20;
  }
}
