/** Patch proposals for self-modification
    (crates/oracle_omen_patches/src/patch.rs): ids, types, targets, test
    requirements, lifecycle statuses, the builder and the content hash. */
module PatchDef {
  import opened Wrappers
  import Text
  import Hashing
  import Sig = PatchSignature

  /** `PatchId`. The `u64` counters are unbounded here. */
  datatype PatchId = PatchId(runId: nat, sequence: nat, checksum: string)

  /** `PatchId::new`: the checksum starts empty. */
  function NewPatchId(runId: nat, sequence: nat): (id: PatchId)
    ensures id.runId == runId && id.sequence == sequence && id.checksum == ""
  {
    PatchId(runId, sequence, "")
  }

  /** `PatchId::to_string` and `Display for PatchId`, which print the same
      text: `run_id:sequence`. The checksum is not part of it. */
  function IdText(id: PatchId): (s: string)
    ensures ':' in s
  {
    assert (Text.Decimal(id.runId) + ":" + Text.Decimal(id.sequence))[|Text.Decimal(id.runId)|] == ':';
    Text.Decimal(id.runId) + ":" + Text.Decimal(id.sequence)
  }

  /** The text of an id determines its run and sequence numbers, so two ids
      with different numbers never share a store key. */
  lemma IdTextInjective(a: PatchId, b: PatchId)
    requires IdText(a) == IdText(b)
    ensures a.runId == b.runId && a.sequence == b.sequence
  {
    var ra, sa := Text.Decimal(a.runId), Text.Decimal(a.sequence);
    var rb, sb := Text.Decimal(b.runId), Text.Decimal(b.sequence);
    assert ':' !in ra && ':' !in sa && ':' !in rb && ':' !in sb;
    Text.SplitNoSep(sa, ':');
    Text.SplitNoSep(sb, ':');
    Text.SplitCons(ra, ':', sa);
    Text.SplitCons(rb, ':', sb);
    assert ra + ":" + sa == ra + [':'] + sa;
    assert rb + ":" + sb == rb + [':'] + sb;
    assert [ra] + [sa] == Text.Split(IdText(a), ':') == [rb] + [sb];
    assert ra == ([ra] + [sa])[0] && sa == ([ra] + [sa])[1];
    Text.DecimalInjective(a.runId, b.runId);
    Text.DecimalInjective(a.sequence, b.sequence);
  }

  /** `PatchType`. */
  datatype PatchType = Prompt | Policy | Routing | Config | Tools | MemorySchema | Planning | Custom(name: string)

  /** `PatchTarget`. */
  datatype PatchTarget =
    | SystemPrompt
    | PolicyTarget(policy: string)
    | Route(route: string)
    | ConfigTarget(key: string)
    | Tool(tool: string)
    | MemorySchemaTarget(schema: string)
    | CustomTarget(custom: string)

  /** `TestType`. */
  datatype TestType = Unit | Integration | Property | Determinism | Replay | CustomTest(name: string)

  /** `TestOutcome`. */
  datatype TestOutcome = Pass | Fail | Any

  /** `TestRequirement`. */
  datatype TestRequirement = TestRequirement(name: string, testType: TestType, expected: TestOutcome)

  /** `PatchStatus`: the lifecycle of a patch. */
  datatype PatchStatus =
    | Proposed
    | Tested
    | Audited
    | Approved
    | Applied
    | Rejected(reason: string)
    | RolledBack(reason: string)

  /** `Patch`. The two `u64` timestamps are unbounded here. */
  datatype Patch = Patch(
    id: PatchId,
    patchType: PatchType,
    target: PatchTarget,
    data: map<string, string>,
    reasoning: string,
    tests: seq<TestRequirement>,
    createdAt: nat,
    createdBy: nat)

  /** `Patch::new`: no data, no tests, created at logical time 0 by run 0. */
  function NewPatch(id: PatchId, patchType: PatchType, target: PatchTarget, reasoning: string): (p: Patch)
    ensures p.id == id && p.patchType == patchType && p.target == target && p.reasoning == reasoning
    ensures p.data == map[] && p.tests == [] && p.createdAt == 0 && p.createdBy == 0
  {
    Patch(id, patchType, target, map[], reasoning, [], 0, 0)
  }

  /** `with_data`: insert or overwrite one entry of `data`. */
  function WithData(p: Patch, key: string, value: string): Patch {
    p.(data := p.data[key := value])
  }

  /** `with_test`: append one test requirement. */
  function WithTest(p: Patch, t: TestRequirement): Patch {
    p.(tests := p.tests + [t])
  }

  /** `with_data` sets its key, keeps every other entry and every other
      field; a later `with_data` on the same key wins. */
  lemma WithDataEffect(p: Patch, key: string, value: string, other: string, later: string)
    ensures var q := WithData(p, key, value);
      && q.data.Keys == p.data.Keys + {key} && q.data[key] == value
      && (other != key && other in p.data ==> q.data[other] == p.data[other])
      && q.(data := p.data) == p
      && WithData(q, key, later) == WithData(p, key, later)
  {
    assert WithData(p, key, value).data[key := later] == p.data[key := later];
  }

  /** `with_data` on different keys gives the same patch, and so the same
      hash, in either order. */
  lemma WithDataCommutes(p: Patch, k1: string, v1: string, k2: string, v2: string)
    requires k1 != k2
    ensures WithData(WithData(p, k1, v1), k2, v2) == WithData(WithData(p, k2, v2), k1, v1)
    ensures PatchHash(WithData(WithData(p, k1, v1), k2, v2)) == PatchHash(WithData(WithData(p, k2, v2), k1, v1))
  {
    assert p.data[k1 := v1][k2 := v2] == p.data[k2 := v2][k1 := v1];
  }

  /** Chaining `with_test` over a list appends the whole list in order. */
  function WithTests(p: Patch, ts: seq<TestRequirement>): Patch
    decreases |ts|
  {
    if ts == [] then p else WithTests(WithTest(p, ts[0]), ts[1..])
  }

  lemma {:induction false} WithTestsAppends(p: Patch, ts: seq<TestRequirement>)
    ensures WithTests(p, ts) == p.(tests := p.tests + ts)
    decreases |ts|
  {
    if ts != [] {
      WithTestsAppends(WithTest(p, ts[0]), ts[1..]);
      assert p.tests + [ts[0]] + ts[1..] == p.tests + ts;
    }
  }

  // ---------------------------------------------------------------------
  // Canonical JSON and hash

  function IdJson(id: PatchId): Hashing.Json {
    Hashing.JObj([
      Hashing.Field("run_id", Hashing.JInt(id.runId)),
      Hashing.Field("sequence", Hashing.JInt(id.sequence)),
      Hashing.Field("checksum", Hashing.JStr(id.checksum))])
  }

  /** Unit variants serialise as their name, the others as a one-field
      object. */
  function PatchTypeJson(t: PatchType): Hashing.Json {
    match t
    case Prompt => Hashing.JStr("Prompt")
    case Policy => Hashing.JStr("Policy")
    case Routing => Hashing.JStr("Routing")
    case Config => Hashing.JStr("Config")
    case Tools => Hashing.JStr("Tools")
    case MemorySchema => Hashing.JStr("MemorySchema")
    case Planning => Hashing.JStr("Planning")
    case Custom(name) => Hashing.JObj([Hashing.Field("Custom", Hashing.JStr(name))])
  }

  function TargetJson(t: PatchTarget): Hashing.Json {
    match t
    case SystemPrompt => Hashing.JStr("SystemPrompt")
    case PolicyTarget(s) => Hashing.JObj([Hashing.Field("Policy", Hashing.JStr(s))])
    case Route(s) => Hashing.JObj([Hashing.Field("Route", Hashing.JStr(s))])
    case ConfigTarget(s) => Hashing.JObj([Hashing.Field("Config", Hashing.JStr(s))])
    case Tool(s) => Hashing.JObj([Hashing.Field("Tool", Hashing.JStr(s))])
    case MemorySchemaTarget(s) => Hashing.JObj([Hashing.Field("MemorySchema", Hashing.JStr(s))])
    case CustomTarget(s) => Hashing.JObj([Hashing.Field("Custom", Hashing.JStr(s))])
  }

  function TestTypeJson(t: TestType): Hashing.Json {
    match t
    case Unit => Hashing.JStr("Unit")
    case Integration => Hashing.JStr("Integration")
    case Property => Hashing.JStr("Property")
    case Determinism => Hashing.JStr("Determinism")
    case Replay => Hashing.JStr("Replay")
    case CustomTest(name) => Hashing.JObj([Hashing.Field("Custom", Hashing.JStr(name))])
  }

  function OutcomeJson(o: TestOutcome): Hashing.Json {
    match o
    case Pass => Hashing.JStr("Pass")
    case Fail => Hashing.JStr("Fail")
    case Any => Hashing.JStr("Any")
  }

  function TestJson(t: TestRequirement): Hashing.Json {
    Hashing.JObj([
      Hashing.Field("name", Hashing.JStr(t.name)),
      Hashing.Field("test_type", TestTypeJson(t.testType)),
      Hashing.Field("expected", OutcomeJson(t.expected))])
  }

  /** The serde form of a patch: fields in declaration order, `data` as an
      object in ascending key order. */
  function PatchJson(p: Patch): Hashing.Json {
    Hashing.JObj([
      Hashing.Field("id", IdJson(p.id)),
      Hashing.Field("patch_type", PatchTypeJson(p.patchType)),
      Hashing.Field("target", TargetJson(p.target)),
      Hashing.Field("data", Hashing.StringMapJson(p.data)),
      Hashing.Field("reasoning", Hashing.JStr(p.reasoning)),
      Hashing.Field("tests", Hashing.JArr(seq(|p.tests|, k requires 0 <= k < |p.tests| => TestJson(p.tests[k])))),
      Hashing.Field("created_at", Hashing.JInt(p.createdAt)),
      Hashing.Field("created_by", Hashing.JInt(p.createdBy))])
  }

  /** `Patch::hash`: the hash of the canonical JSON. */
  function PatchHash(p: Patch): Hashing.Hash {
    Hashing.FromCanonical(PatchJson(p))
  }

  /** The `Debug` text of a patch type, which the audit gate quotes. */
  function PatchTypeDebug(t: PatchType): string {
    match t
    case Prompt => "Prompt"
    case Policy => "Policy"
    case Routing => "Routing"
    case Config => "Config"
    case Tools => "Tools"
    case MemorySchema => "MemorySchema"
    case Planning => "Planning"
    case Custom(name) => "Custom(\"" + Text.EscapeDebug(name) + "\")"
  }

  /** Only a custom type's `Debug` text begins with `Cus`. */
  lemma CustomDebugPrefix(t: PatchType)
    ensures |PatchTypeDebug(t)| >= 3 && (PatchTypeDebug(t)[..3] == "Cus" <==> t.Custom?)
  {
    if t.Custom? {
      var d := PatchTypeDebug(t);
      assert d == "Custom(\"" + Text.EscapeDebug(t.name) + "\")";
      assert d[0] == 'C' && d[1] == 'u' && d[2] == 's';
    } else {
      assert PatchTypeDebug(t)[1] != 'u';
      assert "Cus"[1] == 'u';
    }
  }

  /** The `Debug` text names the patch type: distinct types are quoted
      differently. */
  lemma PatchTypeDebugInjective(s: PatchType, t: PatchType)
    requires PatchTypeDebug(s) == PatchTypeDebug(t)
    ensures s == t
  {
    CustomDebugPrefix(s);
    CustomDebugPrefix(t);
    var d := PatchTypeDebug(s);
    if s.Custom? && t.Custom? {
      var es, et := Text.EscapeDebug(s.name), Text.EscapeDebug(t.name);
      assert es == d[8..|d| - 2] == et;
      Text.EscapeDebugInjective(s.name, t.name);
    }
  }

  // ---------------------------------------------------------------------
  // Signed patches

  /** `SignedPatch`. */
  datatype SignedPatch = SignedPatch(patch: Patch, signature: Sig.Signature, signer: Sig.SignerId)

  /** `SignedPatch::hash`: the hash of the patch alone. */
  function SignedHash(sp: SignedPatch): Hashing.Hash {
    PatchHash(sp.patch)
  }

  /** `SignedPatch::verify`: the signature checked against the bytes of the
      hex text of the patch hash. */
  predicate SignedVerify(sp: SignedPatch) {
    Sig.Verify(sp.signature, Hashing.Utf8(Hashing.Hex(PatchHash(sp.patch))), sp.signer)
  }

  /** The signature and signer do not enter the hash: re-signing a patch
      keeps its store key. */
  lemma SignedHashIgnoresSignature(a: SignedPatch, b: SignedPatch)
    requires a.patch == b.patch
    ensures SignedHash(a) == SignedHash(b)
  {
  }

  /** With the placeholder verification, a signed patch verifies exactly when
      its signature is 64 bytes that are not all zero, whatever the patch
      and the signer. */
  lemma SignedVerifyIffNotZero(sp: SignedPatch)
    ensures SignedVerify(sp) <==>
      |sp.signature.bytes| == Sig.SIGNATURE_SIZE && sp.signature.bytes != seq(Sig.SIGNATURE_SIZE, i => 0)
  {
    Sig.VerifyIffNotZero(sp.signature, Hashing.Utf8(Hashing.Hex(PatchHash(sp.patch))), sp.signer);
  }

  /** The builder calls of the source's example: a new patch with one data
      entry reads that entry back and holds nothing else. */
  lemma BuilderExample(id: PatchId)
    ensures var p := WithData(NewPatch(id, Config, ConfigTarget("max_iterations"), "Increase limit"), "value", "1000");
      "value" in p.data && p.data["value"] == "1000" && p.data.Keys == {"value"}
  {
  }
}
