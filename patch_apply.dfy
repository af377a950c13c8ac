/** Patch application (crates/oracle_omen_patches/src/apply.rs): the engine
    that takes a patch from proposal through the gates to application on an
    agent state, remembers what it applied and can mark it rolled back. */
module PatchApply {
  import opened Wrappers
  import Hashing
  import Time
  import St = CoreState
  import P = PatchDef
  import Sig = PatchSignature
  import G = PatchGate
  import PS = PatchStore
  import E = PolicyEngine

  /** `ApplyError`. */
  datatype ApplyError =
    | NotFound(id: string)
    | TestFailed(reason: string)
    | AuditFailed(reason: string)
    | NotApproved
    | ApplicationFailed(reason: string)
    | RollbackFailed(reason: string)

  /** `Display for ApplyError`. */
  function ErrorText(e: ApplyError): string {
    match e
    case NotFound(id) => "Patch not found: " + id
    case TestFailed(reason) => "Test failed: " + reason
    case AuditFailed(reason) => "Audit failed: " + reason
    case NotApproved => "Patch not approved"
    case ApplicationFailed(reason) => "Application failed: " + reason
    case RollbackFailed(reason) => "Rollback failed: " + reason
  }

  /** `ApplyResult`. */
  datatype ApplyResult = ApplyResult(patchId: string, changesMade: seq<string>, rollbackData: map<string, string>)

  /** `RollbackResult`. */
  datatype RollbackResult = RollbackResult(patchId: string, restoredTo: Hashing.Hash)

  /** `AppliedPatch`: what the engine remembers of one application. */
  datatype AppliedPatch = AppliedPatch(
    patchId: string,
    patchHash: Hashing.Hash,
    appliedAt: Time.LogicalTime,
    beforeHash: Hashing.Hash,
    afterHash: Hashing.Hash,
    rollbackData: map<string, string>)

  // ---------------------------------------------------------------------
  // apply_patch: the effect of one patch on the agent state
  // ---------------------------------------------------------------------

  /** `data.get(key).cloned().unwrap_or_default()`. */
  function DataOr(data: map<string, string>, key: string): (v: string)
    ensures key in data ==> v == data[key]
    ensures key !in data ==> v == ""
  {
    if key in data then data[key] else ""
  }

  /** A string state value. */
  function StringData(s: string): St.StateData {
    St.Value(St.String(s))
  }

  /** The targets `apply_patch` knows how to apply. */
  predicate Supported(t: P.PatchTarget) {
    t.SystemPrompt? || t.ConfigTarget? || t.PolicyTarget?
  }

  /** The state and the result after `apply_patch`: the system prompt, a
      `config.<key>` domain (only when the patch carries a `value`) or a
      `policy.<name>` domain is written; every other target is refused. */
  function ApplyPatchOutcome(p: P.Patch, s: St.StateRecord): (St.StateRecord, Result<ApplyResult, ApplyError>) {
    var id := P.IdText(p.id);
    match p.target
    case SystemPrompt =>
      (St.SetRecord(s, "system_prompt", StringData(DataOr(p.data, "prompt"))),
       Ok(ApplyResult(id, ["system_prompt"], map[])))
    case ConfigTarget(key) =>
      var domain := "config." + key;
      (if "value" in p.data then St.SetRecord(s, domain, StringData(p.data["value"])) else s,
       Ok(ApplyResult(id, [domain], map[])))
    case PolicyTarget(name) =>
      var domain := "policy." + name;
      (St.SetRecord(s, domain, StringData(DataOr(p.data, "policy"))),
       Ok(ApplyResult(id, [domain], map[])))
    case _ => (s, Err(ApplicationFailed("Target type not implemented")))
  }

  /** `apply_patch` on an agent state. */
  method ApplyPatch(p: P.Patch, state: St.AgentState) returns (r: Result<ApplyResult, ApplyError>)
    modifies state
    ensures (state.Record(), r) == ApplyPatchOutcome(p, old(state.Record()))
  {
    var id := P.IdText(p.id);
    match p.target
    case SystemPrompt =>
      state.Set("system_prompt", StringData(DataOr(p.data, "prompt")));
      r := Ok(ApplyResult(id, ["system_prompt"], map[]));
    case ConfigTarget(key) =>
      if "value" in p.data {
        state.Set("config." + key, StringData(p.data["value"]));
      }
      r := Ok(ApplyResult(id, ["config." + key], map[]));
    case PolicyTarget(name) =>
      state.Set("policy." + name, StringData(DataOr(p.data, "policy")));
      r := Ok(ApplyResult(id, ["policy." + name], map[]));
    case _ =>
      r := Err(ApplicationFailed("Target type not implemented"));
  }

  /** A supported target succeeds, reports the patch's id text, one changed
      domain and no rollback data; an unsupported target fails and leaves the
      state alone. */
  lemma ApplyPatchResult(p: P.Patch, s: St.StateRecord)
    ensures var (s2, r) := ApplyPatchOutcome(p, s);
      && (Supported(p.target) <==> r.Ok?)
      && (r.Ok? ==> r.value.patchId == P.IdText(p.id) && |r.value.changesMade| == 1 && r.value.rollbackData == map[])
      && (r.Err? ==> s2 == s && r.error == ApplicationFailed("Target type not implemented"))
  {
  }

  /** Every domain that `apply_patch` does not report as changed keeps its
      value, and no domain appears or disappears except a reported one. */
  lemma ApplyPatchKeepsUnlisted(p: P.Patch, s: St.StateRecord, other: string)
    requires ApplyPatchOutcome(p, s).1.Ok? && other !in ApplyPatchOutcome(p, s).1.value.changesMade
    ensures var s2 := ApplyPatchOutcome(p, s).0;
      (other in s2.data <==> other in s.data) && (other in s.data ==> s2.data[other] == s.data[other])
  {
    match p.target
    case SystemPrompt =>
      assert other != "system_prompt";
      St.SetEffect(s, "system_prompt", StringData(DataOr(p.data, "prompt")), other);
    case ConfigTarget(key) =>
      assert other != "config." + key;
      if "value" in p.data {
        St.SetEffect(s, "config." + key, StringData(p.data["value"]), other);
      }
    case PolicyTarget(name) =>
      assert other != "policy." + name;
      St.SetEffect(s, "policy." + name, StringData(DataOr(p.data, "policy")), other);
  }

  /** What each supported target writes: the `prompt` entry (or the empty
      string) as the system prompt, the `value` entry under `config.<key>`,
      and the `policy` entry (or the empty string) under `policy.<name>`;
      each write raises the version and leaves the state consistent. */
  lemma ApplyPatchWrites(p: P.Patch, s: St.StateRecord)
    ensures var (s2, r) := ApplyPatchOutcome(p, s);
      && (p.target.SystemPrompt? ==>
            s2.data["system_prompt"] == StringData(DataOr(p.data, "prompt")) && s2.version == s.version + 1 && St.Consistent(s2))
      && (p.target.ConfigTarget? && "value" in p.data ==>
            s2.data["config." + p.target.key] == StringData(p.data["value"]) && s2.version == s.version + 1 && St.Consistent(s2))
      && (p.target.ConfigTarget? && "value" !in p.data ==> s2 == s && r.value.changesMade == ["config." + p.target.key])
      && (p.target.PolicyTarget? ==>
            s2.data["policy." + p.target.policy] == StringData(DataOr(p.data, "policy")) && s2.version == s.version + 1 && St.Consistent(s2))
  {
  }

  // ---------------------------------------------------------------------
  // The engine's state and its operations as functions
  // ---------------------------------------------------------------------

  /** The contents of a `PatchEngine`: its store's table and the applied
      records keyed by id text. */
  datatype EngineRecord = EngineRecord(patches: PS.Table, applied: map<string, AppliedPatch>)

  /** Every applied record belongs to a stored patch. */
  predicate EngineValid(e: EngineRecord) {
    e.applied.Keys <= e.patches.Keys
  }

  /** `submit`: store the patch as `Proposed` under its id text; a store
      error is reported as an application failure. */
  function SubmitOutcome(e: EngineRecord, patch: P.Patch): (EngineRecord, Result<(), ApplyError>) {
    var (t, r) := PS.AddPatchResult(e.patches, P.IdText(patch.id), patch, P.Proposed);
    (e.(patches := t), if r.Err? then Err(ApplicationFailed("Store error: " + PS.ErrorText(r.error))) else Ok(()))
  }

  /** `approve`: the signer alone is authorized, so only the signature is
      judged; a passing signature sets `Approved`. */
  function ApproveOutcome(e: EngineRecord, id: string, signature: Sig.Signature, signer: Sig.SignerId): (EngineRecord, Result<(), ApplyError>) {
    if !G.IsPassed(G.ApprovalVerdict(G.ApprovalGate([signer]), signature, signer)) then (e, Err(NotApproved))
    else
      var (t, r) := PS.UpdateStatusResult(e.patches, id, P.Approved);
      (e.(patches := t), if r.Err? then Err(ApplicationFailed(PS.ErrorText(r.error))) else Ok(()))
  }

  /** `apply`: the engine, the agent state and the result. An unknown id
      and a status other than `Approved` or `Tested` are refused before
      anything changes; a refused target leaves everything alone; otherwise
      the state is patched, the status becomes `Applied` and the application
      is recorded with the hashes before and after, stamped with the number
      of earlier records. */
  function ApplyOutcome(e: EngineRecord, s: St.StateRecord, id: string): (EngineRecord, St.StateRecord, Result<ApplyResult, ApplyError>) {
    if id !in e.patches then (e, s, Err(NotFound(id)))
    else
      var (patch, status) := e.patches[id];
      if !(status.Approved? || status.Tested?) then (e, s, Err(NotApproved))
      else
        var (s2, r) := ApplyPatchOutcome(patch, s);
        if r.Err? then (e, s2, r)
        else
          var record := AppliedPatch(id, P.PatchHash(patch), Time.LogicalTime(0, |e.applied|),
                                     s.stateHash, s2.stateHash, r.value.rollbackData);
          // The status update cannot fail: the id was just found.
          (EngineRecord(PS.UpdateStatusResult(e.patches, id, P.Applied).0, e.applied[id := record]), s2, r)
  }

  /** `rollback`: an id never applied is `NotFound`; otherwise the hash from
      before the application is written to the `_rollback` domain and the
      status becomes `RolledBack("Manual rollback")`. The applied record is
      kept. */
  function RollbackOutcome(e: EngineRecord, s: St.StateRecord, id: string): (EngineRecord, St.StateRecord, Result<RollbackResult, ApplyError>) {
    if id !in e.applied then (e, s, Err(NotFound(id)))
    else
      var before := e.applied[id].beforeHash;
      var s2 := St.SetRecord(s, "_rollback", St.Value(St.HashValue(before)));
      var (t, u) := PS.UpdateStatusResult(e.patches, id, P.RolledBack("Manual rollback"));
      (e.(patches := t), s2, if u.Err? then Err(RollbackFailed(PS.ErrorText(u.error))) else Ok(RollbackResult(id, before)))
  }

  // ---------------------------------------------------------------------
  // Properties of the engine
  // ---------------------------------------------------------------------

  /** `submit` stores a new patch as `Proposed`; an id text already stored
      is refused with the store's message and nothing changes. */
  lemma SubmitEffect(e: EngineRecord, patch: P.Patch)
    ensures var id := P.IdText(patch.id);
      var (e2, r) := SubmitOutcome(e, patch);
      && (id in e.patches ==> e2 == e && r == Err(ApplicationFailed("Store error: Already exists: " + id)))
      && (id !in e.patches ==> r == Ok(()) && e2.patches.Keys == e.patches.Keys + {id} && e2.patches[id] == (patch, P.Proposed)
                               && e2.applied == e.applied)
  {
    var id := P.IdText(patch.id);
    assert "Store error: " + ("Already exists: " + id) == "Store error: Already exists: " + id;
  }

  /** `approve` refuses exactly the all-zero 64-byte signature, whoever
      signs; any other signature sets a stored patch to `Approved` and
      reports an unknown id through the store's message. */
  lemma ApproveEffect(e: EngineRecord, id: string, signature: Sig.Signature, signer: Sig.SignerId)
    ensures var (e2, r) := ApproveOutcome(e, id, signature, signer);
      && (r == Err(NotApproved) <==> signature.bytes == seq(Sig.SIGNATURE_SIZE, i => 0))
      && (r == Err(NotApproved) ==> e2 == e)
      && (r != Err(NotApproved) && id in e.patches ==>
            r == Ok(()) && e2.patches == e.patches[id := (e.patches[id].0, P.Approved)] && e2.applied == e.applied)
      && (r != Err(NotApproved) && id !in e.patches ==> r == Err(ApplicationFailed("Not found: " + id)) && e2 == e)
  {
    G.ApprovalPassesIff(G.ApprovalGate([signer]), signature, signer, []);
  }

  /** `apply` refuses an unknown id and a patch that is not `Approved` or
      `Tested` (in particular one already `Applied`), changing nothing. */
  lemma ApplyRefuses(e: EngineRecord, s: St.StateRecord, id: string)
    ensures id !in e.patches ==> ApplyOutcome(e, s, id) == (e, s, Err(NotFound(id)))
    ensures id in e.patches && !(e.patches[id].1.Approved? || e.patches[id].1.Tested?) ==>
      ApplyOutcome(e, s, id) == (e, s, Err(NotApproved))
  {
  }

  /** An approved or tested patch whose target is refused fails with
      nothing changed, neither the engine nor the state. */
  lemma ApplyUnsupportedChangesNothing(e: EngineRecord, s: St.StateRecord, id: string)
    requires id in e.patches && !Supported(e.patches[id].0.target)
    ensures ApplyOutcome(e, s, id).0 == e && ApplyOutcome(e, s, id).1 == s
    ensures ApplyOutcome(e, s, id).2.Err?
  {
  }

  /** A successful `apply` returns what `apply_patch` returned, sets the
      status to `Applied`, keeps every other patch, and records the
      application with the patch hash, the state hashes before and after and
      the logical time `(0, n)` where `n` is the number of earlier records. */
  lemma ApplySucceeds(e: EngineRecord, s: St.StateRecord, id: string)
    requires id in e.patches && (e.patches[id].1.Approved? || e.patches[id].1.Tested?)
    requires Supported(e.patches[id].0.target)
    ensures var patch := e.patches[id].0;
      var (e2, s2, r) := ApplyOutcome(e, s, id);
      && (s2, r) == ApplyPatchOutcome(patch, s)
      && r.Ok?
      && e2.patches == e.patches[id := (patch, P.Applied)]
      && e2.applied == e.applied[id := AppliedPatch(id, P.PatchHash(patch), Time.LogicalTime(0, |e.applied|),
                                                    s.stateHash, s2.stateHash, map[])]
  {
    ApplyPatchResult(e.patches[id].0, s);
  }

  /** A patch is applied at most once: once `apply` has succeeded, applying
      the same id again is refused and changes nothing. */
  lemma ApplyTwiceRefused(e: EngineRecord, s: St.StateRecord, id: string)
    requires ApplyOutcome(e, s, id).2.Ok?
    ensures var (e2, s2, _) := ApplyOutcome(e, s, id);
      ApplyOutcome(e2, s2, id) == (e2, s2, Err(NotApproved))
  {
  }

  /** `rollback` of an applied patch records the hash from before the
      application under `_rollback`, leaves every other domain alone, marks
      the patch `RolledBack("Manual rollback")`, keeps the applied record and
      returns that hash; of an id never applied it changes nothing. */
  lemma RollbackEffect(e: EngineRecord, s: St.StateRecord, id: string, other: string)
    requires EngineValid(e)
    ensures var (e2, s2, r) := RollbackOutcome(e, s, id);
      && (id !in e.applied ==> (e2, s2, r) == (e, s, Err(NotFound(id))))
      && (id in e.applied ==>
            && r == Ok(RollbackResult(id, e.applied[id].beforeHash))
            && s2.data["_rollback"] == St.Value(St.HashValue(e.applied[id].beforeHash))
            && (other != "_rollback" && other in s.data ==> other in s2.data && s2.data[other] == s.data[other])
            && e2.patches == e.patches[id := (e.patches[id].0, P.RolledBack("Manual rollback"))]
            && e2.applied == e.applied)
  {
    if id in e.applied {
      St.SetEffect(s, "_rollback", St.Value(St.HashValue(e.applied[id].beforeHash)), other);
    }
  }

  /** Every operation that changes the engine keeps each applied record
      attached to a stored patch. */
  lemma OperationsKeepValid(e: EngineRecord, s: St.StateRecord, id: string, patch: P.Patch,
                            signature: Sig.Signature, signer: Sig.SignerId)
    requires EngineValid(e)
    ensures EngineValid(SubmitOutcome(e, patch).0)
    ensures EngineValid(ApproveOutcome(e, id, signature, signer).0)
    ensures EngineValid(ApplyOutcome(e, s, id).0)
    ensures EngineValid(RollbackOutcome(e, s, id).0)
  {
  }

  // ---------------------------------------------------------------------
  // The engine
  // ---------------------------------------------------------------------

  /** `PatchEngine`: a patch store it owns and the applied records. */
  class PatchEngine {
    const store: PS.PatchStore
    var applied: map<string, AppliedPatch>

    function Record(): EngineRecord
      reads this, store
    {
      EngineRecord(store.patches, applied)
    }

    /** `PatchEngine::new`. */
    constructor (store: PS.PatchStore)
      ensures this.store == store && applied == map[]
    {
      this.store := store;
      applied := map[];
    }

    /** `submit`. */
    method Submit(patch: P.Patch) returns (r: Result<(), ApplyError>)
      modifies store
      ensures (Record(), r) == SubmitOutcome(old(Record()), patch)
    {
      var added := store.AddPatch(P.IdText(patch.id), patch, P.Proposed);
      if added.Err? {
        return Err(ApplicationFailed("Store error: " + PS.ErrorText(added.error)));
      }
      return Ok(());
    }

    /** `test_gate`: the test gate's verdict on a stored patch. */
    method TestGate(id: string, runner: G.Runner) returns (r: Result<G.GateResult, ApplyError>)
      ensures id !in store.patches ==> r == Err(NotFound(id))
      ensures id in store.patches ==> r == Ok(G.TestVerdict(store.patches[id].0, runner))
    {
      var found := store.GetPatch(id);
      if found.None? {
        return Err(NotFound(id));
      }
      var g := G.EvaluateTests(found.value.0, runner);
      return Ok(g);
    }

    /** `audit_gate`: the audit gate's verdict on a stored patch. The gate
        builds a policy engine with no policies, so every stored patch fails
        it with the default-deny reason. */
    method AuditGate(id: string, context: E.EvalContext) returns (r: Result<G.GateResult, ApplyError>)
      ensures id !in store.patches ==> r == Err(NotFound(id))
      ensures id in store.patches ==>
        r == Ok(G.FailedWith("No policy allows: patch: " + P.PatchTypeDebug(store.patches[id].0.patchType)))
    {
      var found := store.GetPatch(id);
      if found.None? {
        return Err(NotFound(id));
      }
      var g := G.AuditGate(found.value.0, context);
      return Ok(g);
    }

    /** `approve`. */
    method Approve(id: string, signature: Sig.Signature, signer: Sig.SignerId) returns (r: Result<(), ApplyError>)
      modifies store
      ensures (Record(), r) == ApproveOutcome(old(Record()), id, signature, signer)
    {
      var gate := G.ApprovalGate([signer]);
      if !G.IsPassed(G.ApprovalVerdict(gate, signature, signer)) {
        return Err(NotApproved);
      }
      var updated := store.UpdateStatus(id, P.Approved);
      if updated.Err? {
        return Err(ApplicationFailed(PS.ErrorText(updated.error)));
      }
      return Ok(());
    }

    /** `apply`. */
    method Apply(id: string, state: St.AgentState) returns (r: Result<ApplyResult, ApplyError>)
      modifies this, store, state
      ensures (Record(), state.Record(), r) == ApplyOutcome(old(Record()), old(state.Record()), id)
    {
      var found := store.GetPatch(id);
      if found.None? {
        return Err(NotFound(id));
      }
      var (patch, status) := found.value;
      if !(status.Approved? || status.Tested?) {
        return Err(NotApproved);
      }
      var beforeHash := state.stateHash;
      r := ApplyPatch(patch, state);
      if r.Err? {
        return;
      }
      var afterHash := state.stateHash;
      var record := AppliedPatch(id, P.PatchHash(patch), Time.LogicalTime(0, |applied|),
                                 beforeHash, afterHash, r.value.rollbackData);
      var updated := store.UpdateStatus(id, P.Applied);
      applied := applied[id := record];
    }

    /** `rollback`. */
    method Rollback(id: string, state: St.AgentState) returns (r: Result<RollbackResult, ApplyError>)
      modifies store, state
      ensures (Record(), state.Record(), r) == RollbackOutcome(old(Record()), old(state.Record()), id)
    {
      if id !in applied {
        return Err(NotFound(id));
      }
      var record := applied[id];
      state.Set("_rollback", St.Value(St.HashValue(record.beforeHash)));
      var updated := store.UpdateStatus(id, P.RolledBack("Manual rollback"));
      if updated.Err? {
        return Err(RollbackFailed(PS.ErrorText(updated.error)));
      }
      return Ok(RollbackResult(id, record.beforeHash));
    }
  }

  /** A fresh engine whose store holds one patch, submitted and then set to
      `Approved` directly in the store. */
  method ApprovedEngine(patch: P.Patch) returns (engine: PatchEngine)
    ensures fresh(engine) && fresh(engine.store)
    ensures engine.Record() == EngineRecord(map[P.IdText(patch.id) := (patch, P.Approved)], map[])
  {
    var store := new PS.PatchStore();
    engine := new PatchEngine(store);
    var submitted := engine.Submit(patch);
    var approved := store.UpdateStatus(P.IdText(patch.id), P.Approved);
  }

  /** A system-prompt patch, submitted and approved directly in the store,
      is applied and reports the `system_prompt` domain as changed, which now
      holds the patch's prompt. */
  method SystemPromptExample() returns (applied: Result<ApplyResult, ApplyError>, state: St.AgentState)
    ensures applied.Ok? && "system_prompt" in applied.value.changesMade
    ensures "system_prompt" in state.data && state.data["system_prompt"] == StringData("You are a helpful assistant.")
  {
    var patch := P.WithData(P.NewPatch(P.NewPatchId(1, 0), P.Prompt, P.SystemPrompt, "Update prompt"),
                            "prompt", "You are a helpful assistant.");
    var id := P.IdText(patch.id);
    var engine := ApprovedEngine(patch);
    state := new St.AgentState.Initial();
    ghost var e1, s1 := engine.Record(), state.Record();
    applied := engine.Apply(id, state);
    ApplySucceeds(e1, s1, id);
    ApplyPatchWrites(patch, s1);
  }

  /** The domain a configuration patch for key `test` writes. */
  lemma ConfigTestDomain()
    ensures "config." + "test" == "config.test"
  {
  }

  /** A configuration patch for key `test`, submitted, approved directly in
      the store and applied to the initial state, reports `config.test` as
      changed; the engine records it with the initial state's zero hash. */
  method ConfigApplyExample() returns (engine: PatchEngine, state: St.AgentState, id: string,
                                       applied: Result<ApplyResult, ApplyError>)
    ensures fresh(engine) && fresh(engine.store) && fresh(state)
    ensures applied.Ok? && applied.value.changesMade == ["config.test"]
    ensures EngineValid(engine.Record()) && id in engine.applied && engine.applied[id].beforeHash == Hashing.Zero()
  {
    var patch := P.WithData(P.NewPatch(P.NewPatchId(1, 0), P.Config, P.ConfigTarget("test"), "Test"), "value", "42");
    id := P.IdText(patch.id);
    engine := ApprovedEngine(patch);
    state := new St.AgentState.Initial();
    ghost var e1, s1 := engine.Record(), state.Record();
    applied := engine.Apply(id, state);
    ApplySucceeds(e1, s1, id);
    ConfigTestDomain();
  }

  /** The configuration patch above, once applied, can be rolled back, which
      restores the hash the state had before: the zero hash. */
  method ConfigRollbackExample() returns (rolledBack: Result<RollbackResult, ApplyError>)
    ensures rolledBack.Ok? && rolledBack.value.restoredTo == Hashing.Zero()
  {
    var engine, state, id, applied := ConfigApplyExample();
    ghost var e2, s2 := engine.Record(), state.Record();
    rolledBack := engine.Rollback(id, state);
    RollbackEffect(e2, s2, id, "");
  }
}
