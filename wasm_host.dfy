/** Host state for WASM tools (crates/oracle_omen_wasm/src/host.rs): the
    capabilities a running tool was granted and the messages it logged. */
module WasmHost {
  import opened Wrappers

  /** The contents of a `HostState`. */
  datatype HostRecord = HostRecord(capabilities: seq<string>, logs: seq<string>)

  /** `has_capability`: exact membership in the granted list. */
  predicate Grants(h: HostRecord, cap: string) {
    exists i :: 0 <= i < |h.capabilities| && h.capabilities[i] == cap
  }

  /** The contents after `log_message(msg)`. */
  function Logged(h: HostRecord, msg: string): (h2: HostRecord)
    ensures h2.capabilities == h.capabilities && |h2.logs| == |h.logs| + 1
  {
    HostRecord(h.capabilities, h.logs + [msg])
  }

  /** The contents after logging each of `msgs` in turn. */
  function LoggedAll(h: HostRecord, msgs: seq<string>): HostRecord
    decreases |msgs|
  {
    if msgs == [] then h else LoggedAll(Logged(h, msgs[0]), msgs[1..])
  }

  /** The contents after `clear_logs`. */
  function Cleared(h: HostRecord): (h2: HostRecord)
    ensures h2.capabilities == h.capabilities && h2.logs == []
  {
    HostRecord(h.capabilities, [])
  }

  /** Messages logged one after another appear after the earlier ones, in
      the order they were logged, and the granted capabilities never
      change. */
  lemma {:induction false} LoggedAllAppends(h: HostRecord, msgs: seq<string>)
    ensures LoggedAll(h, msgs) == HostRecord(h.capabilities, h.logs + msgs)
    decreases |msgs|
  {
    if msgs != [] {
      LoggedAllAppends(Logged(h, msgs[0]), msgs[1..]);
      assert h.logs + [msgs[0]] + msgs[1..] == h.logs + msgs;
    }
  }

  /** Clearing forgets everything logged before it, and neither logging nor
      clearing changes which capabilities are granted. */
  lemma ClearForgets(h: HostRecord, msgs: seq<string>, cap: string)
    ensures Cleared(LoggedAll(h, msgs)) == Cleared(h)
    ensures Grants(LoggedAll(h, msgs), cap) <==> Grants(h, cap)
    ensures Grants(Cleared(h), cap) <==> Grants(h, cap)
  {
    LoggedAllAppends(h, msgs);
  }

  /** `HostState`. */
  class HostState {
    var capabilities: seq<string>
    var logs: seq<string>

    function Record(): HostRecord
      reads this
    {
      HostRecord(capabilities, logs)
    }

    /** `HostState::new`: the granted capabilities and no logs. */
    constructor (capabilities: seq<string>)
      ensures Record() == HostRecord(capabilities, [])
    {
      this.capabilities := capabilities;
      logs := [];
    }

    /** `has_capability`. */
    function HasCapability(cap: string): (r: bool)
      reads this
      ensures r <==> Grants(Record(), cap)
    {
      cap in capabilities
    }

    /** `log_message`. */
    method LogMessage(msg: string)
      modifies this
      ensures Record() == Logged(old(Record()), msg)
    {
      logs := logs + [msg];
    }

    /** `logs`: the messages in the order they were logged. */
    function Logs(): (r: seq<string>)
      reads this
      ensures r == Record().logs
    {
      logs
    }

    /** `clear_logs`. */
    method ClearLogs()
      modifies this
      ensures Record() == Cleared(old(Record()))
    {
      logs := [];
    }
  }

  /** `register_host_functions`, a placeholder: it succeeds and touches
      nothing. */
  method RegisterHostFunctions(linker: HostState) returns (r: Result<(), string>)
    ensures r == Ok(())
  {
    r := Ok(());
  }

  /** A host granted `log` and `hash` has `log` but not `fs_write`; after
      logging `test` its logs are exactly `["test"]`, and after clearing
      them they are empty while `log` is still granted. */
  method HostExample() returns (hasLog: bool, hasWrite: bool, logged: seq<string>, cleared: seq<string>, stillLog: bool)
    ensures hasLog && !hasWrite && logged == ["test"] && cleared == [] && stillLog
  {
    var host := new HostState(["log", "hash"]);
    hasLog := host.HasCapability("log");
    hasWrite := host.HasCapability("fs_write");
    assert "fs_write" != "log" && "fs_write" != "hash" by {
      assert "fs_write"[0] != "log"[0] && "fs_write"[0] != "hash"[0];
    }
    host.LogMessage("test");
    logged := host.Logs();
    host.ClearLogs();
    cleared := host.Logs();
    stillLog := host.HasCapability("log");
  }
}
