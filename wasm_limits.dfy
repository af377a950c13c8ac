/** Resource limits for WASM tools (crates/oracle_omen_wasm/src/limits.rs):
    the fuel, memory, table, time and output bounds a sandboxed tool runs
    under, their presets, and the fuel price of each kind of operation. */
module WasmLimits {

  const U32_LIMIT: int := 0x1_0000_0000
  const U64_LIMIT: int := 0x1_0000_0000_0000_0000

  type U32 = x: int | 0 <= x < U32_LIMIT
  type U64 = x: int | 0 <= x < U64_LIMIT
  /** `usize` on a 64-bit target. */
  type USize = U64

  /** Bytes in one WASM memory page. */
  const PAGE_SIZE: nat := 65536

  /** `ResourceLimits`. */
  datatype ResourceLimits = ResourceLimits(
    maxFuel: U64,
    maxMemoryPages: U32,
    maxTableElements: U32,
    timeoutMs: U64,
    maxOutputBytes: USize)

  /** `ResourceLimits::new`: the three given bounds, 1024 table elements and
      a 1 MiB output bound. */
  function New(maxFuel: U64, maxMemoryPages: U32, timeoutMs: U64): (l: ResourceLimits)
    ensures l.maxFuel == maxFuel && l.maxMemoryPages == maxMemoryPages && l.timeoutMs == timeoutMs
    ensures l.maxTableElements == 1024 && l.maxOutputBytes == 1024 * 1024
  {
    ResourceLimits(maxFuel, maxMemoryPages, 1024, timeoutMs, 1024 * 1024)
  }

  /** `ResourceLimits::minimal`, for tests. */
  function Minimal(): (l: ResourceLimits)
    ensures l == ResourceLimits(10_000, 1, 10, 100, 1024)
  {
    ResourceLimits(10_000, 1, 10, 100, 1024)
  }

  /** `ResourceLimits::generous`: 4 MiB of memory and 10 MiB of output. */
  function Generous(): (l: ResourceLimits)
    ensures l == ResourceLimits(10_000_000, 64, 4096, 30_000, 10 * 1024 * 1024)
  {
    ResourceLimits(10_000_000, 64, 4096, 30_000, 10 * 1024 * 1024)
  }

  /** `Default for ResourceLimits`. */
  function Default(): (l: ResourceLimits)
    ensures l == New(1_000_000, 16, 5000)
  {
    New(1_000_000, 16, 5000)
  }

  /** `max_memory_bytes`: the page bound in bytes. A `u32` page count times
      65536 always fits a 64-bit `usize`, so the product never wraps. */
  function MaxMemoryBytes(l: ResourceLimits): (bytes: USize)
    ensures bytes % PAGE_SIZE == 0 && bytes / PAGE_SIZE == l.maxMemoryPages
  {
    l.maxMemoryPages * PAGE_SIZE
  }

  /** The byte bound grows with the page bound and tells pages apart. */
  lemma MaxMemoryBytesMonotone(a: ResourceLimits, b: ResourceLimits)
    ensures a.maxMemoryPages <= b.maxMemoryPages <==> MaxMemoryBytes(a) <= MaxMemoryBytes(b)
    ensures MaxMemoryBytes(a) == MaxMemoryBytes(b) ==> a.maxMemoryPages == b.maxMemoryPages
  {
    var pa, pb := a.maxMemoryPages, b.maxMemoryPages;
    if pa <= pb {
      assert pb * PAGE_SIZE - pa * PAGE_SIZE == (pb - pa) * PAGE_SIZE;
    } else {
      assert pa * PAGE_SIZE - pb * PAGE_SIZE == (pa - pb) * PAGE_SIZE;
    }
  }

  /** Every bound of `a` is at most the same bound of `b`. */
  predicate AtMost(a: ResourceLimits, b: ResourceLimits) {
    && a.maxFuel <= b.maxFuel
    && a.maxMemoryPages <= b.maxMemoryPages
    && a.maxTableElements <= b.maxTableElements
    && a.timeoutMs <= b.timeoutMs
    && a.maxOutputBytes <= b.maxOutputBytes
  }

  /** The presets are ordered bound by bound: minimal, then default, then
      generous; the default allows 1 MiB of memory, the generous 4 MiB. */
  lemma PresetsOrdered()
    ensures AtMost(Minimal(), Default()) && AtMost(Default(), Generous())
    ensures MaxMemoryBytes(Minimal()) == 65536
    ensures MaxMemoryBytes(Default()) == 1024 * 1024
    ensures MaxMemoryBytes(Generous()) == 4 * 1024 * 1024
  {
  }

  /** `FuelCosts`. */
  datatype FuelCosts = FuelCosts(baseOpcost: U64, memoryOpcost: U64, tableOpcost: U64, hostCallCost: U64)

  /** `FuelCosts::standard`, the interpreter's defaults. */
  function Standard(): (c: FuelCosts)
    ensures c == FuelCosts(1, 10, 10, 100)
  {
    FuelCosts(1, 10, 10, 100)
  }

  /** `FuelCosts::conservative`. */
  function Conservative(): (c: FuelCosts)
    ensures c == FuelCosts(2, 20, 20, 200)
  {
    FuelCosts(2, 20, 20, 200)
  }

  /** `Default for FuelCosts`. */
  function DefaultCosts(): (c: FuelCosts)
    ensures c == Standard()
  {
    Standard()
  }

  /** Every price of `b` is `k` times the same price of `a`. */
  predicate Scaled(a: FuelCosts, k: nat, b: FuelCosts) {
    && b.baseOpcost == k * a.baseOpcost
    && b.memoryOpcost == k * a.memoryOpcost
    && b.tableOpcost == k * a.tableOpcost
    && b.hostCallCost == k * a.hostCallCost
  }

  /** A reading of the price table as a linear cost: the fuel a run would
      spend on `ops` plain, `mems` memory, `tables` table operations and
      `calls` host calls. The source only declares the prices and never
      computes such a total; this is the model's own cost model. */
  function FuelSpent(c: FuelCosts, ops: nat, mems: nat, tables: nat, calls: nat): nat {
    ops * c.baseOpcost + mems * c.memoryOpcost + tables * c.tableOpcost + calls * c.hostCallCost
  }

  /** Under the linear reading of `FuelSpent`, prices scaled by `k` make
      every run cost `k` times as much. */
  lemma ScaledSpendsMore(a: FuelCosts, k: nat, b: FuelCosts, ops: nat, mems: nat, tables: nat, calls: nat)
    requires Scaled(a, k, b)
    ensures FuelSpent(b, ops, mems, tables, calls) == k * FuelSpent(a, ops, mems, tables, calls)
  {
    calc {
      FuelSpent(b, ops, mems, tables, calls);
      ops * (k * a.baseOpcost) + mems * (k * a.memoryOpcost) + tables * (k * a.tableOpcost) + calls * (k * a.hostCallCost);
      { assert ops * (k * a.baseOpcost) == k * (ops * a.baseOpcost);
        assert mems * (k * a.memoryOpcost) == k * (mems * a.memoryOpcost);
        assert tables * (k * a.tableOpcost) == k * (tables * a.tableOpcost);
        assert calls * (k * a.hostCallCost) == k * (calls * a.hostCallCost); }
      k * FuelSpent(a, ops, mems, tables, calls);
    }
  }

  /** The conservative prices are the standard ones doubled, field by
      field, and the default prices are the standard ones; under the linear
      reading of `FuelSpent` a run therefore costs twice as much fuel. */
  lemma ConservativeDoublesStandard(ops: nat, mems: nat, tables: nat, calls: nat)
    ensures Scaled(Standard(), 2, Conservative())
    ensures FuelSpent(Conservative(), ops, mems, tables, calls) == 2 * FuelSpent(Standard(), ops, mems, tables, calls)
    ensures DefaultCosts() == Standard()
  {
    ScaledSpendsMore(Standard(), 2, Conservative(), ops, mems, tables, calls);
  }
}
