/** Provenance tracking (crates/oracle_omen_memory/src/provenance.rs): the
    records of memory operations indexed by causal event, and each key's
    history of events. */
module MemoryProvenance {
  import opened Wrappers
  import Text
  import Seqs

  /** `Operation`. */
  datatype Operation = Write | Delete | Read | Merge

  /** `ProvenanceRecord`. */
  datatype ProvenanceRecord = ProvenanceRecord(
    causalEvent: nat, operation: Operation, key: string, valueHash: Option<string>, timestamp: nat)

  /** `ProvenanceRecord::new`: no value hash, timestamp 0. */
  function NewRecord(causalEvent: nat, operation: Operation, key: string): (r: ProvenanceRecord)
    ensures r.causalEvent == causalEvent && r.operation == operation && r.key == key
    ensures r.valueHash == None && r.timestamp == 0
  {
    ProvenanceRecord(causalEvent, operation, key, None, 0)
  }

  /** `with_value_hash`: sets the value hash and nothing else. */
  function WithValueHash(r: ProvenanceRecord, hash: string): (r': ProvenanceRecord)
    ensures r'.valueHash == Some(hash) && r'.(valueHash := r.valueHash) == r
  {
    r.(valueHash := Some(hash))
  }

  /** `with_timestamp`: sets the timestamp and nothing else. */
  function WithTimestamp(r: ProvenanceRecord, timestamp: nat): (r': ProvenanceRecord)
    ensures r'.timestamp == timestamp && r'.(timestamp := r.timestamp) == r
  {
    r.(timestamp := timestamp)
  }

  /** The value of a `ProvenanceTracker`. */
  datatype Tracker = Tracker(records: map<nat, seq<ProvenanceRecord>>, keyHistory: map<string, seq<nat>>)

  /** `records_for_event` on values: the event's records, or none. */
  function RecordsOf(t: Tracker, event: nat): seq<ProvenanceRecord> {
    if event in t.records then t.records[event] else []
  }

  /** `history_for_key` on values: the key's events, or none. */
  function HistoryOf(t: Tracker, key: string): seq<nat> {
    if key in t.keyHistory then t.keyHistory[key] else []
  }

  /** How often `e` occurs in `es`. */
  function Occurrences(es: seq<nat>, e: nat): nat
    decreases |es|
  {
    if es == [] then 0 else Occurrences(es[..|es| - 1], e) + (if es[|es| - 1] == e then 1 else 0)
  }

  /** The records of `rs` whose key is `key`, in order. */
  function KeyRecords(rs: seq<ProvenanceRecord>, key: string): (r: seq<ProvenanceRecord>)
    ensures |r| <= |rs|
    decreases |rs|
  {
    if rs == [] then []
    else KeyRecords(rs[..|rs| - 1], key) + (if rs[|rs| - 1].key == key then [rs[|rs| - 1]] else [])
  }

  /** The tracker's two indexes agree: every record is filed under its own
      event, and each key's history holds an event exactly as often as that
      event holds records for the key. */
  ghost predicate Valid(t: Tracker) {
    && (forall e, j :: 0 <= j < |RecordsOf(t, e)| ==> RecordsOf(t, e)[j].causalEvent == e)
    && (forall k, e :: Occurrences(HistoryOf(t, k), e) == |KeyRecords(RecordsOf(t, e), k)|)
  }

  /** `ProvenanceTracker::new`. */
  function EmptyTracker(): (t: Tracker)
    ensures t.records == map[] && t.keyHistory == map[] && Valid(t)
  {
    Tracker(map[], map[])
  }

  /** `record` on values: the record goes to the end of its event's list,
      the event to the end of its key's history. */
  function Recorded(t: Tracker, r: ProvenanceRecord): (t': Tracker)
    ensures RecordsOf(t', r.causalEvent) == RecordsOf(t, r.causalEvent) + [r]
    ensures HistoryOf(t', r.key) == HistoryOf(t, r.key) + [r.causalEvent]
    ensures forall e :: e != r.causalEvent ==> RecordsOf(t', e) == RecordsOf(t, e)
    ensures forall k :: k != r.key ==> HistoryOf(t', k) == HistoryOf(t, k)
  {
    Tracker(Seqs.Push(t.records, r.causalEvent, r), Seqs.Push(t.keyHistory, r.key, r.causalEvent))
  }

  lemma OccurrencesSnoc(es: seq<nat>, x: nat, e: nat)
    ensures Occurrences(es + [x], e) == Occurrences(es, e) + (if x == e then 1 else 0)
  {
    assert (es + [x])[..|es|] == es;
  }

  lemma KeyRecordsSnoc(rs: seq<ProvenanceRecord>, x: ProvenanceRecord, key: string)
    ensures KeyRecords(rs + [x], key) == KeyRecords(rs, key) + (if x.key == key then [x] else [])
  {
    assert (rs + [x])[..|rs|] == rs;
  }

  /** Recording keeps the two indexes in agreement. */
  lemma RecordKeepsValid(t: Tracker, r: ProvenanceRecord)
    requires Valid(t)
    ensures Valid(Recorded(t, r))
  {
    var t' := Recorded(t, r);
    forall e, j | 0 <= j < |RecordsOf(t', e)| ensures RecordsOf(t', e)[j].causalEvent == e {
      if e == r.causalEvent && j == |RecordsOf(t, e)| {
        assert RecordsOf(t', e)[j] == r;
      } else {
        assert RecordsOf(t', e)[j] == RecordsOf(t, e)[j];
      }
    }
    forall k, e ensures Occurrences(HistoryOf(t', k), e) == |KeyRecords(RecordsOf(t', e), k)| {
      OccurrencesSnoc(HistoryOf(t, k), r.causalEvent, e);
      KeyRecordsSnoc(RecordsOf(t, e), r, k);
    }
  }

  lemma {:induction false} OccursCounted(es: seq<nat>, e: nat)
    ensures e in es <==> Occurrences(es, e) > 0
    decreases |es|
  {
    if es != [] {
      var init := es[..|es| - 1];
      OccursCounted(init, e);
      assert es == init + [es[|es| - 1]];
    }
  }

  lemma {:induction false} KeyRecordsMembers(rs: seq<ProvenanceRecord>, key: string, x: ProvenanceRecord)
    ensures x in KeyRecords(rs, key) <==> x in rs && x.key == key
    decreases |rs|
  {
    if rs != [] {
      var init := rs[..|rs| - 1];
      KeyRecordsMembers(init, key, x);
      assert rs == init + [rs[|rs| - 1]];
    }
  }

  /** Every event in a key's history holds at least one record for that
      key, and every record for the key is under an event of its history. */
  lemma HistoryMatchesRecords(t: Tracker, key: string, e: nat)
    requires Valid(t)
    ensures e in HistoryOf(t, key) <==> exists j :: 0 <= j < |RecordsOf(t, e)| && RecordsOf(t, e)[j].key == key
  {
    OccursCounted(HistoryOf(t, key), e);
    var rs := KeyRecords(RecordsOf(t, e), key);
    if e in HistoryOf(t, key) {
      KeyRecordsMembers(RecordsOf(t, e), key, rs[0]);
    }
    if exists j :: 0 <= j < |RecordsOf(t, e)| && RecordsOf(t, e)[j].key == key {
      var j :| 0 <= j < |RecordsOf(t, e)| && RecordsOf(t, e)[j].key == key;
      KeyRecordsMembers(RecordsOf(t, e), key, RecordsOf(t, e)[j]);
    }
  }

  /** What `trace` returns for a list of events: for each event in turn,
      its records whose key is `key`. */
  function TraceOf(t: Tracker, events: seq<nat>, key: string): seq<ProvenanceRecord>
    decreases |events|
  {
    if events == [] then []
    else TraceOf(t, events[..|events| - 1], key) + KeyRecords(RecordsOf(t, events[|events| - 1]), key)
  }

  /** Everything a trace returns is a record for the key, filed under one
      of the listed events. */
  lemma {:induction false} TraceSound(t: Tracker, events: seq<nat>, key: string, x: ProvenanceRecord)
    requires Valid(t) && x in TraceOf(t, events, key)
    ensures x.key == key && x.causalEvent in events && x in RecordsOf(t, x.causalEvent)
    decreases |events|
  {
    var init, last := events[..|events| - 1], events[|events| - 1];
    assert events == init + [last];
    if x in TraceOf(t, init, key) {
      TraceSound(t, init, key, x);
    } else {
      KeyRecordsMembers(RecordsOf(t, last), key, x);
      var j :| 0 <= j < |RecordsOf(t, last)| && RecordsOf(t, last)[j] == x;
    }
  }

  /** A trace lists every record for the key under each listed event. */
  lemma {:induction false} TraceContains(t: Tracker, events: seq<nat>, key: string, i: nat, x: ProvenanceRecord)
    requires i < |events| && x in RecordsOf(t, events[i]) && x.key == key
    ensures x in TraceOf(t, events, key)
    decreases |events|
  {
    var init, last := events[..|events| - 1], events[|events| - 1];
    if i < |events| - 1 {
      assert events[i] == init[i];
      TraceContains(t, init, key, i, x);
    } else {
      KeyRecordsMembers(RecordsOf(t, last), key, x);
    }
  }

  /** In a valid tracker, tracing a key through its own history finds
      exactly the records for that key. */
  lemma TraceFindsKey(t: Tracker, key: string, x: ProvenanceRecord)
    requires Valid(t)
    ensures x in TraceOf(t, HistoryOf(t, key), key) <==> x.key == key && x in RecordsOf(t, x.causalEvent)
  {
    var history := HistoryOf(t, key);
    if x in TraceOf(t, history, key) {
      TraceSound(t, history, key, x);
    }
    if x.key == key && x in RecordsOf(t, x.causalEvent) {
      var j :| 0 <= j < |RecordsOf(t, x.causalEvent)| && RecordsOf(t, x.causalEvent)[j] == x;
      HistoryMatchesRecords(t, key, x.causalEvent);
      var i :| 0 <= i < |history| && history[i] == x.causalEvent;
      TraceContains(t, history, key, i, x);
    }
  }

  /** The inner loop of `trace`: the records of one event whose key is
      `key`, in order. */
  method FilterKey(rs: seq<ProvenanceRecord>, key: string) returns (r: seq<ProvenanceRecord>)
    ensures r == KeyRecords(rs, key)
  {
    r := [];
    for j := 0 to |rs|
      invariant r == KeyRecords(rs[..j], key)
    {
      KeyRecordsStep(rs, j, key);
      if rs[j].key == key {
        r := r + [rs[j]];
      }
    }
    assert rs[..|rs|] == rs;
  }

  lemma KeyRecordsStep(rs: seq<ProvenanceRecord>, j: nat, key: string)
    requires j < |rs|
    ensures KeyRecords(rs[..j + 1], key) == KeyRecords(rs[..j], key) + (if rs[j].key == key then [rs[j]] else [])
  {
    assert rs[..j + 1][..j] == rs[..j];
  }

  lemma TraceStep(t: Tracker, events: seq<nat>, i: nat, key: string)
    requires i < |events|
    ensures TraceOf(t, events[..i + 1], key) == TraceOf(t, events[..i], key) + KeyRecords(RecordsOf(t, events[i]), key)
  {
    assert events[..i + 1][..i] == events[..i];
  }

  /** `ProvenanceTracker`, changed in place by `record`. */
  class ProvenanceTracker {
    var records: map<nat, seq<ProvenanceRecord>>
    var keyHistory: map<string, seq<nat>>

    function Value(): Tracker
      reads this
    {
      Tracker(records, keyHistory)
    }

    /** `ProvenanceTracker::new` (and `Default`). */
    constructor ()
      ensures Value() == EmptyTracker()
    {
      records := map[];
      keyHistory := map[];
    }

    /** `record`. */
    method Record(r: ProvenanceRecord)
      modifies this
      ensures Value() == Recorded(old(Value()), r)
    {
      records := Seqs.Push(records, r.causalEvent, r);
      keyHistory := Seqs.Push(keyHistory, r.key, r.causalEvent);
    }

    /** `records_for_event`: the event's records in recording order, or
        none. */
    function RecordsForEvent(event: nat): (r: seq<ProvenanceRecord>)
      reads this
      ensures event in records ==> r == records[event]
      ensures event !in records ==> r == []
    {
      RecordsOf(Value(), event)
    }

    /** `history_for_key`: the key's events in recording order, or none. */
    function HistoryForKey(key: string): (r: seq<nat>)
      reads this
      ensures key in keyHistory ==> r == keyHistory[key]
      ensures key !in keyHistory ==> r == []
    {
      HistoryOf(Value(), key)
    }

    /** `trace`: for each event in the key's history, the records of that
        event whose key is `key`. */
    method Trace(key: string) returns (result: seq<ProvenanceRecord>)
      ensures result == TraceOf(Value(), HistoryForKey(key), key)
    {
      result := [];
      var events := HistoryForKey(key);
      for i := 0 to |events|
        invariant result == TraceOf(Value(), events[..i], key)
      {
        var matching := FilterKey(RecordsForEvent(events[i]), key);
        TraceStep(Value(), events, i, key);
        result := result + matching;
      }
      assert events[..|events|] == events;
    }

    /** `events`: every event with records, ascending. */
    function Events(): (r: seq<nat>)
      reads this
      ensures forall i, j :: 0 <= i < j < |r| ==> r[i] < r[j]
      ensures forall e :: e in r <==> e in records
    {
      var sorted := Text.SortedInts(records.Keys);
      assert forall i :: 0 <= i < |sorted| ==> sorted[i] >= 0 by {
        forall i | 0 <= i < |sorted| ensures sorted[i] >= 0 { assert sorted[i] in records.Keys; }
      }
      sorted
    }
  }

  /** The record builder unit test. */
  lemma RecordBuilderExample()
    ensures var r := WithTimestamp(WithValueHash(NewRecord(1, Write, "test_key"), "abc123"), 100);
      r.causalEvent == 1 && r.key == "test_key" && r.valueHash == Some("abc123")
  {
  }

  /** Two records under event 1 for two keys and one under event 2. */
  lemma TrackerOfThree(r1: ProvenanceRecord, r2: ProvenanceRecord, r3: ProvenanceRecord)
    requires r1.causalEvent == 1 && r2.causalEvent == 1 && r3.causalEvent == 2
    requires r1.key != r2.key && r3.key == r1.key
    ensures var t := Recorded(Recorded(Recorded(EmptyTracker(), r1), r2), r3);
      |RecordsOf(t, 1)| == 2 && |RecordsOf(t, 2)| == 1 && HistoryOf(t, r1.key) == [1, 2] && HistoryOf(t, r2.key) == [1]
  {
    var t1 := Recorded(EmptyTracker(), r1);
    var t2 := Recorded(t1, r2);
    assert RecordsOf(t2, 1) == [r1, r2] && HistoryOf(t2, r1.key) == [1];
  }

  /** The tracker unit test: two records under event 1, one under event 2,
      and the two keys' histories. */
  method TrackerExample() returns (atOne: nat, atTwo: nat, history1: seq<nat>, history2: seq<nat>)
    ensures atOne == 2 && atTwo == 1 && history1 == [1, 2] && history2 == [1]
  {
    var tracker := new ProvenanceTracker();
    var r1, r2, r3 := NewRecord(1, Write, "key1"), NewRecord(1, Write, "key2"), NewRecord(2, Delete, "key1");
    assert r1.key[3] != r2.key[3];
    TrackerOfThree(r1, r2, r3);
    tracker.Record(r1);
    tracker.Record(r2);
    tracker.Record(r3);
    atOne := |tracker.RecordsForEvent(1)|;
    atTwo := |tracker.RecordsForEvent(2)|;
    history1 := tracker.HistoryForKey(r1.key);
    history2 := tracker.HistoryForKey(r2.key);
  }

  /** Three records for one key under events 1, 2 and 3 are traced in
      that order. */
  lemma TraceOfThree(key: string, r1: ProvenanceRecord, r2: ProvenanceRecord, r3: ProvenanceRecord)
    requires r1.key == key && r2.key == key && r3.key == key
    requires r1.causalEvent == 1 && r2.causalEvent == 2 && r3.causalEvent == 3
    ensures var t := Recorded(Recorded(Recorded(EmptyTracker(), r1), r2), r3);
      var history := HistoryOf(t, key);
      var trace := TraceOf(t, history, key);
      && |history| == 3 && history[0] == 1 && history[1] == 2 && history[2] == 3
      && |trace| == 3 && trace[0] == r1 && trace[1] == r2 && trace[2] == r3
  {
    var t0 := EmptyTracker();
    var t1 := Recorded(t0, r1);
    var t2 := Recorded(t1, r2);
    var t := Recorded(t2, r3);
    var h0, h1, h2 := HistoryOf(t0, key), HistoryOf(t1, key), HistoryOf(t2, key);
    assert RecordsOf(t, 1) == RecordsOf(t0, 1) + [r1];
    assert RecordsOf(t, 2) == RecordsOf(t0, 2) + [r2];
    assert RecordsOf(t, 3) == RecordsOf(t0, 3) + [r3];
    KeyRecordsSnoc(RecordsOf(t0, 1), r1, key);
    KeyRecordsSnoc(RecordsOf(t0, 2), r2, key);
    KeyRecordsSnoc(RecordsOf(t0, 3), r3, key);
    TraceSnoc(t, h0, 1, key);
    TraceSnoc(t, h1, 2, key);
    TraceSnoc(t, h2, 3, key);
  }

  lemma TraceSnoc(t: Tracker, events: seq<nat>, e: nat, key: string)
    ensures TraceOf(t, events + [e], key) == TraceOf(t, events, key) + KeyRecords(RecordsOf(t, e), key)
  {
    assert (events + [e])[..|events|] == events;
  }

  /** The trace unit test: one key written under events 1 and 2 and
      deleted under 3 is traced to three records. */
  method TraceExample() returns (trace: seq<ProvenanceRecord>)
    ensures |trace| == 3 && trace[0].causalEvent == 1 && trace[2].operation == Delete
  {
    var tracker := new ProvenanceTracker();
    var r1, r2, r3 := NewRecord(1, Write, "test"), NewRecord(2, Write, "test"), NewRecord(3, Delete, "test");
    tracker.Record(r1);
    tracker.Record(r2);
    tracker.Record(r3);
    TraceOfThree("test", r1, r2, r3);
    trace := tracker.Trace("test");
  }

  /** A record entered twice puts its event twice in its key's history, so
      tracing that history returns the record four times. */
  lemma TraceOfDuplicate(r: ProvenanceRecord)
    ensures var t := Recorded(Recorded(EmptyTracker(), r), r);
      var history := HistoryOf(t, r.key);
      var trace := TraceOf(t, history, r.key);
      && |history| == 2 && history[0] == r.causalEvent && history[1] == r.causalEvent
      && |trace| == 4 && forall i :: 0 <= i < 4 ==> trace[i] == r
  {
    var t0 := EmptyTracker();
    var t1 := Recorded(t0, r);
    var t := Recorded(t1, r);
    var e, key := r.causalEvent, r.key;
    var h0, h1 := HistoryOf(t0, key), HistoryOf(t1, key);
    assert RecordsOf(t, e) == (RecordsOf(t0, e) + [r]) + [r];
    KeyRecordsSnoc(RecordsOf(t0, e), r, key);
    KeyRecordsSnoc(RecordsOf(t0, e) + [r], r, key);
    TraceSnoc(t, h0, e, key);
    TraceSnoc(t, h1, e, key);
  }

  /** A key recorded twice under one event has that event twice in its
      history, so each of its two records is traced twice. */
  method DuplicateTraceExample() returns (history: seq<nat>, trace: seq<ProvenanceRecord>)
    ensures |history| == 2 && history[0] == 1 && history[1] == 1
    ensures |trace| == 4 && forall i :: 0 <= i < 4 ==> trace[i] == NewRecord(1, Write, "test")
  {
    var r := NewRecord(1, Write, "test");
    TraceOfDuplicate(r);
    var tracker := new ProvenanceTracker();
    tracker.Record(r);
    tracker.Record(r);
    history := tracker.HistoryForKey(r.key);
    trace := tracker.Trace(r.key);
  }
}
