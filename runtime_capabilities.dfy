/** Capability enforcement before a tool runs
    (crates/oracle_omen_runtime/src/capabilities.rs): a checker over a fixed
    set of granted capabilities. */
module RuntimeCapabilities {
  import opened Wrappers
  import opened CoreCapability

  /** `CheckResult`. */
  datatype CheckResult = Granted | Denied(capability: Capability, reason: string)

  /** `CheckResult::is_granted`. */
  predicate IsGranted(r: CheckResult) {
    r.Granted?
  }

  /** `CheckResult::is_denied`: exactly the results that are not granted. */
  function IsDenied(r: CheckResult): (b: bool)
    ensures b <==> !IsGranted(r)
  {
    match r
    case Denied(_, _) => true
    case Granted => false
  }

  /** `CheckResult::denial_reason`: present exactly for a denial. */
  function DenialReason(r: CheckResult): (reason: Option<string>)
    ensures reason.Some? <==> IsDenied(r)
    ensures reason.Some? ==> reason.value == r.reason
  {
    match r
    case Denied(_, reason) => Some(reason)
    case Granted => None
  }

  /** `CapabilityChecker`: the set never changes after construction. */
  datatype CapabilityChecker = CapabilityChecker(granted: CapabilitySet)

  /** `check`: granted exactly when the set holds the capability. */
  function Check(checker: CapabilityChecker, c: Capability): (r: CheckResult)
    ensures IsGranted(r) <==> Has(checker.granted, c)
    ensures IsDenied(r) ==> r == Denied(c, "Capability not granted")
  {
    if Has(checker.granted, c) then Granted else Denied(c, "Capability not granted")
  }

  /** `check_all`: scans the list in order and stops at the first
      capability that is not granted. */
  method CheckAll(checker: CapabilityChecker, required: seq<Capability>) returns (r: CheckResult)
    ensures IsGranted(r) <==> HasAll(checker.granted, required)
    ensures IsGranted(r) <==> forall k :: 0 <= k < |required| ==> Has(checker.granted, required[k])
    ensures IsDenied(r) ==>
      exists i :: 0 <= i < |required| && FirstDenied(checker, required, i) && r == Denied(required[i], "Required capability not granted")
  {
    var i := 0;
    while i < |required|
      invariant 0 <= i <= |required|
      invariant forall k :: 0 <= k < i ==> Has(checker.granted, required[k])
    {
      if !Has(checker.granted, required[i]) {
        r := Denied(required[i], "Required capability not granted");
        assert FirstDenied(checker, required, i);
        HasAllIndex(checker.granted, required);
        return;
      }
      i := i + 1;
    }
    HasAllIndex(checker.granted, required);
    r := Granted;
  }

  /** `required[i]` is missing from the set and everything before it is
      present. */
  predicate FirstDenied(checker: CapabilityChecker, required: seq<Capability>, i: int)
    requires 0 <= i < |required|
  {
    !Has(checker.granted, required[i]) && forall k :: 0 <= k < i ==> Has(checker.granted, required[k])
  }

  /** `has_all` holds exactly when every listed position is in the set. */
  lemma HasAllIndex(s: CapabilitySet, required: seq<Capability>)
    ensures HasAll(s, required) <==> forall k :: 0 <= k < |required| ==> Has(s, required[k])
  {
    HasAnyAllIff(s, required);
    assert forall k :: 0 <= k < |required| ==> required[k] in required;
    if forall k :: 0 <= k < |required| ==> Has(s, required[k]) {
      forall c | c in required ensures c in s.inner {
        var k :| 0 <= k < |required| && required[k] == c;
      }
    }
  }

  /** At most one position is the first denied one, so the capability a
      denial names is determined by the input. */
  lemma FirstDeniedUnique(checker: CapabilityChecker, required: seq<Capability>, i: int, j: int)
    requires 0 <= i < |required| && 0 <= j < |required|
    requires FirstDenied(checker, required, i) && FirstDenied(checker, required, j)
    ensures i == j
  {
  }

  /** The checks in the unit tests: with `fs:read:*` and
      `network:http:get` granted, `fs:read:*` passes, `fs:write:*` is
      denied, the pair of granted ones passes together and a list holding
      `fs:write:*` is denied at that capability. */
  method CheckExamples() returns (single: CheckResult, other: CheckResult, both: CheckResult, mixed: CheckResult)
    ensures IsGranted(single) && IsDenied(other) && IsGranted(both)
    ensures mixed == Denied(Capability("fs:write:*"), "Required capability not granted")
  {
    var read, http, write := Capability("fs:read:*"), Capability("network:http:get"), Capability("fs:write:*");
    var checker := CapabilityChecker(FromList([read, http]));
    assert checker.granted.inner == {read, http};
    assert write != read by { assert write.name[3] != read.name[3]; }
    single := Check(checker, read);
    other := Check(checker, write);
    both := CheckAll(checker, [read, http]);
    mixed := CheckAll(checker, [read, write]);
    if mixed.Denied? {
      var i :| 0 <= i < 2 && FirstDenied(checker, [read, write], i) && mixed == Denied([read, write][i], "Required capability not granted");
      assert i == 1;
    }
  }
}
