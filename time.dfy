/** Deterministic logical time (crates/oracle_omen_core/src/time.rs): a
    `(run_id, sequence)` timestamp and the two counters that hand them out. */
module Time {

  const U64_LIMIT: int := 0x1_0000_0000_0000_0000

  type U64 = x: int | 0 <= x < U64_LIMIT

  /** `LogicalTime { run_id, sequence }`; `LogicalTime::new(r, s)` is the
      constructor itself. */
  datatype LogicalTime = LogicalTime(runId: nat, sequence: nat)

  /** `LogicalTime::initial(r)`. */
  function Initial(runId: nat): (t: LogicalTime)
    ensures t.runId == runId && t.sequence == 0
  {
    LogicalTime(runId, 0)
  }

  /** `LogicalTime::next`. */
  function Next(t: LogicalTime): LogicalTime {
    LogicalTime(t.runId, t.sequence + 1)
  }

  /** The derived `Ord`: lexicographic on `(run_id, sequence)`. */
  predicate Before(a: LogicalTime, b: LogicalTime) {
    a.runId < b.runId || (a.runId == b.runId && a.sequence < b.sequence)
  }

  /** The derived order is a strict total order. */
  lemma BeforeTotalOrder(a: LogicalTime, b: LogicalTime, c: LogicalTime)
    ensures !Before(a, a)
    ensures Before(a, b) && Before(b, c) ==> Before(a, c)
    ensures a == b || Before(a, b) || Before(b, a)
  {
  }

  /** `next` stays in the same run and is the immediate successor: nothing of
      the run lies strictly between `t` and `t.next()`. */
  lemma NextIsSuccessor(t: LogicalTime, u: LogicalTime)
    ensures Next(t).runId == t.runId && Before(t, Next(t))
    ensures Before(t, u) && u.runId == t.runId ==> u == Next(t) || Before(Next(t), u)
  {
  }

  /** `next` applied n times to `initial(r)` gives sequence n. */
  function Iterate(t: LogicalTime, n: nat): LogicalTime
    decreases n
  {
    if n == 0 then t else Iterate(Next(t), n - 1)
  }

  lemma {:induction false} IterateNext(t: LogicalTime, n: nat)
    ensures Iterate(t, n) == LogicalTime(t.runId, t.sequence + n)
    decreases n
  {
    if n > 0 { IterateNext(Next(t), n - 1); }
  }

  /** `StandardTimeSource`: a run id and an atomic counter, here a plain field.
      `fetch_add` wraps at 2^64. */
  class StandardTimeSource {
    const runId: nat
    var sequence: U64

    /** `StandardTimeSource::new`. */
    constructor (runId: nat)
      ensures this.runId == runId && sequence == 0
    {
      this.runId := runId;
      sequence := 0;
    }

    /** `StandardTimeSource::zero`. */
    static method Zero() returns (source: StandardTimeSource)
      ensures fresh(source) && source.runId == 0 && source.sequence == 0
    {
      source := new StandardTimeSource(0);
    }

    /** `now`: the current counter, unchanged. */
    function Now(): LogicalTime
      reads this
    {
      LogicalTime(runId, sequence)
    }

    /** `tick`: the current value, after which the counter moves on by one. */
    method Tick() returns (t: LogicalTime)
      modifies this
      ensures t == old(Now())
      ensures sequence == (old(sequence) + 1) % U64_LIMIT
    {
      t := Now();
      sequence := (sequence + 1) % U64_LIMIT;
    }
  }

  /** `MockTimeSource`: a counter the test can set and advance. */
  class MockTimeSource {
    const runId: nat
    var time: U64

    /** `MockTimeSource::new(run_id, initial)`. */
    constructor (runId: nat, initial: U64)
      ensures this.runId == runId && time == initial
    {
      this.runId := runId;
      time := initial;
    }

    function Now(): LogicalTime
      reads this
    {
      LogicalTime(runId, time)
    }

    /** `set`: afterwards `now().sequence` is the value set. */
    method Set(sequence: U64)
      modifies this
      ensures Now() == LogicalTime(runId, sequence)
    {
      time := sequence;
    }

    /** `advance(delta)`: the old time, after which the counter has moved on
        by `delta` (wrapping at 2^64). */
    method Advance(delta: U64) returns (t: LogicalTime)
      modifies this
      ensures t == old(Now())
      ensures time == (old(time) + delta) % U64_LIMIT
    {
      t := Now();
      time := (time + delta) % U64_LIMIT;
    }

    /** `tick`: `advance(1)`. */
    method Tick() returns (t: LogicalTime)
      modifies this
      ensures t == old(Now())
      ensures time == (old(time) + 1) % U64_LIMIT
    {
      t := Advance(1);
    }
  }
}
