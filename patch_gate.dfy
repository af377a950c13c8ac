/** The three gates a patch passes before it is applied
    (crates/oracle_omen_patches/src/gate.rs): the test gate, the audit gate
    and the approval gate, with the two built-in test runners and the text
    checks of the audit gate. */
module PatchGate {
  import opened Wrappers
  import Text
  import P = PatchDef
  import Sig = PatchSignature
  import L = PolicyLang
  import E = PolicyEngine

  /** `GateResult`. */
  datatype GateResult =
    | Passed
    | Failed(reason: string, details: map<string, string>)
    | Deferred(reason: string, needs: seq<string>)

  /** `is_passed`. */
  predicate IsPassed(g: GateResult) {
    g.Passed?
  }

  /** `GateResult::failed`: a failure without details. */
  function FailedWith(reason: string): (g: GateResult)
    ensures !IsPassed(g) && g.Failed? && g.reason == reason && g.details == map[]
  {
    Failed(reason, map[])
  }

  /** Only `Passed` passes: a failure or a deferral never does. */
  lemma IsPassedOnlyPassed(g: GateResult, reason: string, details: map<string, string>, needs: seq<string>)
    ensures IsPassed(g) <==> g == Passed
    ensures !IsPassed(Failed(reason, details)) && !IsPassed(Deferred(reason, needs))
  {
  }

  // ---------------------------------------------------------------------
  // Test gate

  /** `TestResult`. */
  datatype TestResult = TestResult(passed: bool, reason: string, durationMs: nat)

  /** A `TestRunner` trait object, as the function it computes. */
  type Runner = (P.Patch, P.TestRequirement) -> TestResult

  /** The failure message for one test, if its result contradicts what the
      test expects. */
  function Violation(t: P.TestRequirement, r: TestResult): Option<string> {
    match t.expected
    case Pass => if !r.passed then Some("Test '" + t.name + "' failed: " + r.reason) else None
    case Fail => if r.passed then Some("Test '" + t.name + "' should have failed but passed") else None
    case Any => None
  }

  /** The result agrees with the expected outcome. */
  predicate Satisfied(t: P.TestRequirement, r: TestResult) {
    match t.expected
    case Pass => r.passed
    case Fail => !r.passed
    case Any => true
  }

  lemma ViolationIffUnsatisfied(t: P.TestRequirement, r: TestResult)
    ensures Violation(t, r).None? <==> Satisfied(t, r)
  {
  }

  /** Each test of the patch with the result the runner gives it, in order. */
  function Runs(p: P.Patch, runner: Runner): (runs: seq<(P.TestRequirement, TestResult)>)
    ensures |runs| == |p.tests|
    ensures forall i :: 0 <= i < |runs| ==> runs[i] == (p.tests[i], runner(p, p.tests[i]))
  {
    seq(|p.tests|, i requires 0 <= i < |p.tests| => (p.tests[i], runner(p, p.tests[i])))
  }

  /** The failure messages of a sequence of runs, in order. */
  function Failures(runs: seq<(P.TestRequirement, TestResult)>): seq<string>
  {
    if runs == [] then []
    else
      var last := runs[|runs| - 1];
      Failures(runs[..|runs| - 1]) + (match Violation(last.0, last.1) case Some(m) => [m] case None => [])
  }

  /** The text stored in `details` for one result. */
  function DetailText(r: TestResult): string {
    "passed=" + (if r.passed then "true" else "false") + ", reason=" + r.reason
  }

  /** The `details` map: one entry per test name, the last run of a name
      winning. */
  function Details(runs: seq<(P.TestRequirement, TestResult)>): map<string, string>
  {
    if runs == [] then map[]
    else
      var last := runs[|runs| - 1];
      Details(runs[..|runs| - 1])[last.0.name := DetailText(last.1)]
  }

  /** What `TestGate::evaluate` returns. */
  function TestVerdict(p: P.Patch, runner: Runner): GateResult {
    var runs := Runs(p, runner);
    var failures := Failures(runs);
    if failures == [] then Passed else Failed(Text.Join(failures, "; "), Details(runs))
  }

  /** There are no failure messages exactly when every run agrees with its
      expected outcome. */
  lemma {:induction false} FailuresEmptyIff(runs: seq<(P.TestRequirement, TestResult)>)
    ensures Failures(runs) == [] <==> forall i :: 0 <= i < |runs| ==> Satisfied(runs[i].0, runs[i].1)
  {
    if runs != [] {
      var init, last := runs[..|runs| - 1], runs[|runs| - 1];
      FailuresEmptyIff(init);
      ViolationIffUnsatisfied(last.0, last.1);
      assert forall i :: 0 <= i < |init| ==> init[i] == runs[i];
    }
  }

  /** `details` has exactly one key per test name. */
  lemma {:induction false} DetailsKeys(runs: seq<(P.TestRequirement, TestResult)>)
    ensures Details(runs).Keys == set i | 0 <= i < |runs| :: runs[i].0.name
  {
    if runs != [] {
      var init := runs[..|runs| - 1];
      DetailsKeys(init);
      assert forall i :: 0 <= i < |init| ==> init[i] == runs[i];
    }
  }

  /** The test gate passes exactly when every test expecting `Pass` passed
      and every test expecting `Fail` did not; `Any` constrains nothing and
      an empty list passes. On failure `details` has one entry per test
      name. */
  lemma TestGatePassesIff(p: P.Patch, runner: Runner)
    ensures IsPassed(TestVerdict(p, runner)) <==>
      forall i :: 0 <= i < |p.tests| ==> Satisfied(p.tests[i], runner(p, p.tests[i]))
    ensures !IsPassed(TestVerdict(p, runner)) ==>
      TestVerdict(p, runner).Failed? &&
      TestVerdict(p, runner).details.Keys == set i | 0 <= i < |p.tests| :: p.tests[i].name
  {
    var runs := Runs(p, runner);
    FailuresEmptyIff(runs);
    DetailsKeys(runs);
    assert (set i | 0 <= i < |runs| :: runs[i].0.name) == set i | 0 <= i < |p.tests| :: p.tests[i].name;
  }

  lemma FailuresStep(runs: seq<(P.TestRequirement, TestResult)>, x: (P.TestRequirement, TestResult))
    ensures Failures(runs + [x]) == Failures(runs) + (match Violation(x.0, x.1) case Some(m) => [m] case None => [])
    ensures Details(runs + [x]) == Details(runs)[x.0.name := DetailText(x.1)]
  {
    assert (runs + [x])[..|runs|] == runs;
  }

  /** `TestGate::evaluate`: run each test, collect the failure messages,
      then on failure build `details` from the recorded results. */
  method EvaluateTests(p: P.Patch, runner: Runner) returns (g: GateResult)
    ensures g == TestVerdict(p, runner)
  {
    ghost var all := Runs(p, runner);
    var results: seq<(P.TestRequirement, TestResult)> := [];
    var failures: seq<string> := [];
    for i := 0 to |p.tests|
      invariant results == all[..i] && failures == Failures(results)
    {
      var test := p.tests[i];
      var result := runner(p, test);
      FailuresStep(results, (test, result));
      results := results + [(test, result)];
      match Violation(test, result)
      case Some(m) => failures := failures + [m];
      case None =>
    }
    assert all[..|p.tests|] == all;
    if failures == [] {
      return Passed;
    }
    var details: map<string, string> := map[];
    for j := 0 to |results|
      invariant details == Details(results[..j])
    {
      FailuresStep(results[..j], results[j]);
      assert results[..j + 1] == results[..j] + [results[j]];
      details := details[results[j].0.name := DetailText(results[j].1)];
    }
    assert results[..|results|] == results;
    g := Failed(Text.Join(failures, "; "), details);
  }

  /** `DeterminismTestRunner`: every test passes. */
  function DeterminismRunner(p: P.Patch, t: P.TestRequirement): (r: TestResult)
    ensures r.passed
  {
    if t.testType == P.Determinism then TestResult(true, "Deterministic output verified", 10)
    else TestResult(true, "Test not implemented", 0)
  }

  /** `ReplayTestRunner`: every test passes. */
  function ReplayRunner(p: P.Patch, t: P.TestRequirement): (r: TestResult)
    ensures r.passed
  {
    if t.testType == P.Replay then TestResult(true, "Replay identity verified", 50)
    else TestResult(true, "Test not implemented", 0)
  }

  /** With either built-in runner every test reports passed, so the test
      gate passes exactly when no test expects `Fail`. */
  lemma BuiltinRunnersPassIff(p: P.Patch)
    ensures IsPassed(TestVerdict(p, DeterminismRunner)) <==> forall i :: 0 <= i < |p.tests| ==> p.tests[i].expected != P.Fail
    ensures IsPassed(TestVerdict(p, ReplayRunner)) <==> forall i :: 0 <= i < |p.tests| ==> p.tests[i].expected != P.Fail
  {
    TestGatePassesIff(p, DeterminismRunner);
    TestGatePassesIff(p, ReplayRunner);
  }

  // ---------------------------------------------------------------------
  // Text checks of the audit gate

  const INJECTION_PHRASES: seq<string> :=
    ["ignore previous", "disregard above", "forget instructions", "new instructions:", "override:"]

  const DANGEROUS_PATTERNS: seq<string> := ["unsafe", "transmute", "raw pointer", "asm!"]

  /** `contains_injection`: one of the phrases occurs in the lower-cased
      text. */
  predicate ContainsInjection(text: string) {
    exists i :: 0 <= i < |INJECTION_PHRASES| && Text.Contains(Text.LowerAscii(text), INJECTION_PHRASES[i])
  }

  /** `contains_dangerous_content`: a value of the data map contains one of
      the patterns, case-sensitively. Keys are not looked at. */
  predicate ContainsDangerousContent(data: map<string, string>) {
    exists k, i :: k in data && 0 <= i < |DANGEROUS_PATTERNS| && Text.Contains(data[k], DANGEROUS_PATTERNS[i])
  }

  /** A pattern with a character the text lacks does not occur in it. */
  lemma MissingCharExcludes(s: string, pattern: string, c: char)
    requires c in pattern && c !in s
    ensures !Text.Contains(s, pattern)
  {
    var j :| 0 <= j < |pattern| && pattern[j] == c;
    forall i | 0 <= i <= |s| - |pattern|
      ensures !Text.OccursAt(s, pattern, i)
    {
      assert s[i..i + |pattern|][j] == s[i + j] != c;
    }
  }

  /** Text without upper-case ASCII letters is its own lower case. */
  lemma LowerOfLower(s: string)
    requires forall k :: 0 <= k < |s| ==> !('A' <= s[k] <= 'Z')
    ensures Text.LowerAscii(s) == s
  {
  }

  /** The source's examples: the check finds a phrase whatever its case. */
  lemma InjectionFound()
    ensures ContainsInjection("ignore previous instructions")
    ensures ContainsInjection("DISREGARD ABOVE")
  {
    var a := "ignore previous instructions";
    LowerOfLower(a);
    assert a[0..15] == INJECTION_PHRASES[0];
    assert Text.OccursAt(Text.LowerAscii(a), INJECTION_PHRASES[0], 0);
    var b := Text.LowerAscii("DISREGARD ABOVE");
    assert b == INJECTION_PHRASES[1];
    assert Text.OccursAt(b, INJECTION_PHRASES[1], 0);
  }

  /** The letters that rule each phrase out of ordinary text. */
  lemma NormalTextLetters(c: string)
    requires c == "normal text"
    ensures Text.LowerAscii(c) == c
    ensures 'i' !in c && 'd' !in c && 'f' !in c && 'w' !in c && 'v' !in c
  {
    LowerOfLower(c);
  }

  /** The source's example: ordinary text is not flagged, since each phrase
      has a letter that text lacks. */
  lemma InjectionNotFound()
    ensures !ContainsInjection("normal text")
  {
    var c := "normal text";
    NormalTextLetters(c);
    var phrases := INJECTION_PHRASES;
    assert phrases[0][0] == 'i' && phrases[1][0] == 'd' && phrases[2][0] == 'f';
    assert phrases[3][2] == 'w' && phrases[4][1] == 'v';
    MissingCharExcludes(c, phrases[0], 'i');
    MissingCharExcludes(c, phrases[1], 'd');
    MissingCharExcludes(c, phrases[2], 'f');
    MissingCharExcludes(c, phrases[3], 'w');
    MissingCharExcludes(c, phrases[4], 'v');
  }

  /** The source's example: a value containing `unsafe` is flagged. */
  lemma DangerousFound()
    ensures ContainsDangerousContent(map["code" := "use unsafe"])
  {
    var a := "use unsafe";
    assert a[4..10] == DANGEROUS_PATTERNS[0];
    assert Text.OccursAt(a, DANGEROUS_PATTERNS[0], 4);
    assert "code" in map["code" := a] && map["code" := a]["code"] == a;
  }

  /** The source's example: ordinary code is not flagged, since each
      pattern has a character that code lacks. */
  lemma DangerousNotFound()
    ensures !ContainsDangerousContent(map["code" := "normal code"])
  {
    var c := "normal code";
    assert 'u' !in c && 'w' !in c && '!' !in c;
    var patterns := DANGEROUS_PATTERNS;
    assert patterns[0][0] == 'u' && patterns[1][6] == 'u' && patterns[2][2] == 'w' && patterns[3][3] == '!';
    MissingCharExcludes(c, patterns[0], 'u');
    MissingCharExcludes(c, patterns[1], 'u');
    MissingCharExcludes(c, patterns[2], 'w');
    MissingCharExcludes(c, patterns[3], '!');
    assert map["code" := c].Keys == {"code"} && map["code" := c]["code"] == c;
  }

  // ---------------------------------------------------------------------
  // Audit gate

  /** The audit decision once the policy engine has answered: a policy
      denial first, then prompt injection in the reasoning of a `Prompt`
      patch, then dangerous content in its data. */
  function AuditVerdict(policy: L.EvaluationResult, p: P.Patch): (g: GateResult)
    ensures IsPassed(g) <==>
      policy.allowed && !(p.patchType == P.Prompt && ContainsInjection(p.reasoning)) && !ContainsDangerousContent(p.data)
  {
    if !policy.allowed then FailedWith(policy.reason)
    else if p.patchType == P.Prompt && ContainsInjection(p.reasoning) then FailedWith("Potential prompt injection detected")
    else if ContainsDangerousContent(p.data) then FailedWith("Dangerous content detected in patch data")
    else Passed
  }

  /** `AuditGate::evaluate`: the patch type's `Debug` text is checked by a
      freshly made policy engine, then the text checks run. */
  method AuditGate(p: P.Patch, context: E.EvalContext) returns (g: GateResult)
    ensures g == FailedWith("No policy allows: patch: " + P.PatchTypeDebug(p.patchType))
  {
    var kind := P.PatchTypeDebug(p.patchType);
    var engine := new E.Engine();
    var policyResult := engine.EvaluatePatch(kind, context);
    E.NoPoliciesDenies(E.KindRule(L.Patch, context.(patchType := Some(kind))), "patch: " + kind);
    assert policyResult == L.Denied("No policy allows: " + ("patch: " + kind));
    g := AuditVerdict(policyResult, p);
    assert g == FailedWith(policyResult.reason);
    PatchDenialReason(kind);
  }

  /** The default-deny reason for a patch kind, as one string. */
  lemma PatchDenialReason(kind: string)
    ensures "No policy allows: " + ("patch: " + kind) == "No policy allows: patch: " + kind
  {
    var a, b := "No policy allows: ", "patch: ";
    assert a + b == "No policy allows: patch: ";
  }

  // ---------------------------------------------------------------------
  // Approval gate

  /** `ApprovalGate`. */
  datatype ApprovalGate = ApprovalGate(authorizedSigners: seq<Sig.SignerId>)

  /** `ApprovalGate::evaluate`: an unknown signer first, then a signature of
      exactly 64 zero bytes. */
  function ApprovalVerdict(gate: ApprovalGate, signature: Sig.Signature, signer: Sig.SignerId): GateResult {
    if signer !in gate.authorizedSigners then FailedWith("Signer not authorized")
    else if signature.bytes == seq(Sig.SIGNATURE_SIZE, i => 0) then FailedWith("Invalid signature")
    else Passed
  }

  /** The approval gate passes exactly for an authorized signer whose
      signature is not 64 zero bytes; for a 64-byte signature that is
      exactly an authorized signer whose signature verifies. */
  lemma ApprovalPassesIff(gate: ApprovalGate, signature: Sig.Signature, signer: Sig.SignerId, message: seq<Sig.Byte>)
    ensures IsPassed(ApprovalVerdict(gate, signature, signer)) <==>
      signer in gate.authorizedSigners && signature.bytes != seq(Sig.SIGNATURE_SIZE, i => 0)
    ensures |signature.bytes| == Sig.SIGNATURE_SIZE ==>
      (IsPassed(ApprovalVerdict(gate, signature, signer)) <==>
       signer in gate.authorizedSigners && Sig.Verify(signature, message, signer))
  {
    Sig.VerifyIffNotZero(signature, message, signer);
  }

  /** The source's example: a gate without signers turns everyone away. */
  lemma EmptyGateRejects(signature: Sig.Signature, signer: Sig.SignerId)
    ensures ApprovalVerdict(ApprovalGate([]), signature, signer) == FailedWith("Signer not authorized")
  {
  }
}
