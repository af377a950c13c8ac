/** The policy engine (crates/oracle_omen_policy/src/engine.rs): evaluation
    of compiled conditions against a context, and the decision rule that
    turns the matching rules into a verdict (default deny, any deny
    overrides, first allow wins). */
module PolicyEngine {
  import opened Wrappers
  import Text
  import L = PolicyLang
  import S = PolicySchema
  import C = PolicyCompiler
  import Seqs

  /** `EvalContext`. */
  datatype EvalContext = EvalContext(
    capabilities: set<string>, tool: Option<string>, memoryKey: Option<string>,
    patchType: Option<string>, state: map<string, L.Value>)

  /** `EvalContext::new` (and `Default`): nothing set. */
  function NewContext(): (ctx: EvalContext)
    ensures ctx.capabilities == {} && ctx.tool == None && ctx.memoryKey == None
    ensures ctx.patchType == None && ctx.state == map[]
  {
    EvalContext({}, None, None, None, map[])
  }

  /** `c` ends in `*` and `cap` starts with the rest of `c`. */
  predicate WildcardCovers(c: string, cap: string) {
    Text.EndsWithChar(c, '*') && Text.StartsWith(cap, c[..|c| - 1])
  }

  /** `has_capability`: held outright or covered by a wildcard. */
  predicate HasCapability(ctx: EvalContext, cap: string) {
    cap in ctx.capabilities || exists c :: c in ctx.capabilities && WildcardCovers(c, cap)
  }

  /** The wildcard `*` covers every capability, and a held capability is
      always had; with no wildcard in the set, having is holding. */
  lemma HasCapabilityCases(ctx: EvalContext, cap: string)
    ensures "*" in ctx.capabilities ==> HasCapability(ctx, cap)
    ensures cap in ctx.capabilities ==> HasCapability(ctx, cap)
    ensures (forall c :: c in ctx.capabilities ==> !Text.EndsWithChar(c, '*')) ==>
      (HasCapability(ctx, cap) <==> cap in ctx.capabilities)
  {
    if "*" in ctx.capabilities {
      assert WildcardCovers("*", cap);
    }
  }

  /** Granting more capabilities never takes one away. */
  lemma HasCapabilityMonotone(ctx: EvalContext, more: set<string>, cap: string)
    requires HasCapability(ctx, cap)
    ensures HasCapability(ctx.(capabilities := ctx.capabilities + more), cap)
  {
  }

  /** `compare_values`: equality and inequality on strings, integers
      (with the four orderings) and booleans (equality only); every other
      combination, lists and mixed types included, is false. */
  predicate CompareValues(left: L.Value, op: L.CompareOp, right: L.Value) {
    match (left, op, right)
    case (Str(a), Equal, Str(b)) => a == b
    case (Str(a), NotEqual, Str(b)) => a != b
    case (Integer(a), Equal, Integer(b)) => a == b
    case (Integer(a), NotEqual, Integer(b)) => a != b
    case (Integer(a), Greater, Integer(b)) => a > b
    case (Integer(a), GreaterEqual, Integer(b)) => a >= b
    case (Integer(a), Less, Integer(b)) => a < b
    case (Integer(a), LessEqual, Integer(b)) => a <= b
    case (Boolean(a), Equal, Boolean(b)) => a == b
    case _ => false
  }

  /** What a true comparison says about its operands: both of one scalar
      type, booleans only under `Equal`, strings only under the two
      equality operators. */
  lemma CompareValuesTyped(left: L.Value, op: L.CompareOp, right: L.Value)
    requires CompareValues(left, op, right)
    ensures left.Str? ==> right.Str? && (op == L.Equal || op == L.NotEqual)
    ensures left.Integer? ==> right.Integer?
    ensures left.Boolean? ==> right.Boolean? && op == L.Equal
    ensures !left.List? && !right.List?
    ensures op == L.Equal ==> left == right
  {
  }

  /** On two strings or two integers `NotEqual` is the negation of `Equal`,
      and each ordering is the mirror or negation of another. */
  lemma CompareValuesDuality(left: L.Value, right: L.Value)
    requires (left.Str? && right.Str?) || (left.Integer? && right.Integer?)
    ensures CompareValues(left, L.NotEqual, right) <==> !CompareValues(left, L.Equal, right)
    ensures left.Integer? ==> (CompareValues(left, L.Less, right) <==> CompareValues(right, L.Greater, left))
    ensures left.Integer? ==> (CompareValues(left, L.GreaterEqual, right) <==> !CompareValues(left, L.Less, right))
    ensures left.Integer? ==> (CompareValues(left, L.LessEqual, right) <==> !CompareValues(left, L.Greater, right))
  {
  }

  /** `evaluate_condition`. */
  predicate Eval(k: S.CompiledCondition, ctx: EvalContext)
    decreases k
  {
    match k
    case True => true
    case False => false
    case And(ks) => forall i :: 0 <= i < |ks| ==> Eval(ks[i], ctx)
    case Or(ks) => exists i :: 0 <= i < |ks| && Eval(ks[i], ctx)
    case Not(inner) => !Eval(inner, ctx)
    case HasCapability(cap) => HasCapability(ctx, cap)
    case ToolEquals(tool) => ctx.tool == Some(tool)
    case Compare(field, op, value) => field in ctx.state && CompareValues(ctx.state[field], op, value)
    case Custom(_) => false
  }

  /** The laws of `evaluate_condition`: an empty `And` holds and an empty
      `Or` does not, `Not` negates, custom conditions never hold and a
      comparison on an absent field fails. */
  lemma EvalLaws(ctx: EvalContext, k: S.CompiledCondition, field: string, op: L.CompareOp, v: L.Value, text: string)
    ensures Eval(S.And([]), ctx) && !Eval(S.Or([]), ctx)
    ensures Eval(S.Not(k), ctx) <==> !Eval(k, ctx)
    ensures !Eval(S.Custom(text), ctx)
    ensures field !in ctx.state ==> !Eval(S.Compare(field, op, v), ctx)
  {
  }

  /** Each condition negated. */
  function NotEach(ks: seq<S.CompiledCondition>): (ns: seq<S.CompiledCondition>)
    ensures |ns| == |ks| && forall i :: 0 <= i < |ks| ==> ns[i] == S.Not(ks[i])
  {
    seq(|ks|, i requires 0 <= i < |ks| => S.Not(ks[i]))
  }

  /** De Morgan's laws hold of `evaluate_condition`. */
  lemma EvalDeMorgan(ks: seq<S.CompiledCondition>, ctx: EvalContext)
    ensures Eval(S.Not(S.And(ks)), ctx) <==> Eval(S.Or(NotEach(ks)), ctx)
    ensures Eval(S.Not(S.Or(ks)), ctx) <==> Eval(S.And(NotEach(ks)), ctx)
  {
    var ns := NotEach(ks);
    assert forall i :: 0 <= i < |ks| ==> (Eval(ns[i], ctx) <==> !Eval(ks[i], ctx));
  }

  /** A rule that matched, with the id of its policy. */
  datatype Match = Match(policy: L.PolicyId, rule: S.CompiledRule)

  /** The action is a deny. */
  predicate IsDeny(m: Match) {
    m.rule.action.Deny?
  }

  /** The action is an allow. */
  predicate IsAllow(m: Match) {
    m.rule.action.Allow?
  }

  /** The first deny among the matches, if any. */
  function FirstDeny(ms: seq<Match>): (r: Option<nat>)
    ensures r.None? <==> forall i :: 0 <= i < |ms| ==> !IsDeny(ms[i])
    ensures r.Some? ==> r.value < |ms| && IsDeny(ms[r.value]) && forall i :: 0 <= i < r.value ==> !IsDeny(ms[i])
  {
    if ms == [] then None
    else if IsDeny(ms[0]) then Some(0)
    else match FirstDeny(ms[1..]) case None => None case Some(i) => Some(i + 1)
  }

  /** The first allow among the matches, if any. */
  function FirstAllow(ms: seq<Match>): (r: Option<nat>)
    ensures r.None? <==> forall i :: 0 <= i < |ms| ==> !IsAllow(ms[i])
    ensures r.Some? ==> r.value < |ms| && IsAllow(ms[r.value]) && forall i :: 0 <= i < r.value ==> !IsAllow(ms[i])
  {
    if ms == [] then None
    else if IsAllow(ms[0]) then Some(0)
    else match FirstAllow(ms[1..]) case None => None case Some(i) => Some(i + 1)
  }

  /** `resolve_results`: no match is a default deny; otherwise the first
      deny decides, else the first allow, else a deny because nothing
      allows. */
  function Resolve(ms: seq<Match>, subject: string): (r: L.EvaluationResult)
    ensures ms == [] ==> r == L.Denied("No policy allows: " + subject)
    ensures ms != [] && FirstDeny(ms).Some? ==>
      var m := ms[FirstDeny(ms).value];
      r == L.EvaluationResult(false, m.rule.action, [m.rule.name], m.rule.action.reason)
    ensures ms != [] && FirstDeny(ms).None? && FirstAllow(ms).Some? ==>
      var m := ms[FirstAllow(ms).value];
      r == L.EvaluationResult(true, L.Allow, [m.rule.name], "Allowed by policy " + m.policy.name + " rule " + m.rule.name)
    ensures ms != [] && FirstDeny(ms).None? && FirstAllow(ms).None? ==> r == L.Denied("No allow rule for: " + subject)
  {
    if ms == [] then L.Denied("No policy allows: " + subject)
    else
      match FirstDeny(ms)
      case Some(i) =>
        L.EvaluationResult(false, ms[i].rule.action, [ms[i].rule.name], ms[i].rule.action.reason)
      case None =>
        match FirstAllow(ms)
        case Some(i) =>
          L.EvaluationResult(true, ms[i].rule.action, [ms[i].rule.name],
            "Allowed by policy " + ms[i].policy.name + " rule " + ms[i].rule.name)
        case None => L.Denied("No allow rule for: " + subject)
  }

  /** The decision rule as one equivalence: allowed exactly when some rule
      matched, none of the matches denies and one allows; a deny anywhere
      overrides every allow. */
  lemma ResolveAllowed(ms: seq<Match>, subject: string)
    ensures Resolve(ms, subject).allowed <==>
      (exists i :: 0 <= i < |ms| && IsAllow(ms[i])) && forall i :: 0 <= i < |ms| ==> !IsDeny(ms[i])
  {
    if FirstAllow(ms).Some? {
      assert IsAllow(ms[FirstAllow(ms).value]);
    }
  }

  /** Every verdict names exactly the rule that decided it, or none for a
      default. */
  lemma ResolveMatched(ms: seq<Match>, subject: string)
    ensures var r := Resolve(ms, subject);
      r.matchedRules == [] || (|r.matchedRules| == 1 && exists i :: 0 <= i < |ms| && r.matchedRules[0] == ms[i].rule.name)
  {
  }

  /** The matches of the rules `rules` of the policy `id` that `keep`
      accepts, in order. */
  function RuleMatches(id: L.PolicyId, rules: seq<S.CompiledRule>, keep: S.CompiledRule -> bool): seq<Match>
  {
    if rules == [] then []
    else RuleMatches(id, rules[..|rules| - 1], keep) + (if keep(rules[|rules| - 1]) then [Match(id, rules[|rules| - 1])] else [])
  }

  /** The matches across `policies`, policy by policy in order. */
  function Matches(policies: seq<S.CompiledPolicy>, keep: S.CompiledRule -> bool): seq<Match>
  {
    if policies == [] then []
    else Matches(policies[..|policies| - 1], keep) + RuleMatches(policies[|policies| - 1].id, policies[|policies| - 1].rules, keep)
  }

  /** A match comes from an accepted rule of its policy. */
  lemma {:induction false} RuleMatchesMembers(id: L.PolicyId, rules: seq<S.CompiledRule>, keep: S.CompiledRule -> bool, m: Match)
    ensures m in RuleMatches(id, rules, keep) <==> m.policy == id && m.rule in rules && keep(m.rule)
    decreases |rules|
  {
    if rules != [] {
      var init := rules[..|rules| - 1];
      RuleMatchesMembers(id, init, keep, m);
      assert rules == init + [rules[|rules| - 1]];
    }
  }

  /** A match across the policies comes from an accepted rule of one of
      them. */
  lemma {:induction false} MatchesMembers(policies: seq<S.CompiledPolicy>, keep: S.CompiledRule -> bool, m: Match)
    ensures m in Matches(policies, keep) <==>
      exists p :: p in policies && m.policy == p.id && m.rule in p.rules && keep(m.rule)
    decreases |policies|
  {
    if policies != [] {
      var init, last := policies[..|policies| - 1], policies[|policies| - 1];
      MatchesMembers(init, keep, m);
      RuleMatchesMembers(last.id, last.rules, keep, m);
      assert policies == init + [last];
    }
  }

  /** A rule of the given kind whose condition holds in `ctx`. */
  predicate Applies(kind: L.RuleKind, ctx: EvalContext, rule: S.CompiledRule) {
    rule.kind == kind && Eval(rule.condition, ctx)
  }

  /** `Applies` as a rule filter. */
  function KindRule(kind: L.RuleKind, ctx: EvalContext): S.CompiledRule -> bool {
    rule => Applies(kind, ctx, rule)
  }

  /** How `evaluate_capability` matches a capability rule: a bare
      `HasCapability(x)` condition matches exactly the request `x`, with no
      wildcard; any other condition is evaluated in the caller's
      context. */
  predicate CapabilityApplies(cap: string, ctx: EvalContext, rule: S.CompiledRule) {
    rule.kind == L.Capability &&
    match rule.condition
    case HasCapability(x) => x == cap
    case _ => Eval(rule.condition, ctx)
  }

  /** The same with `Resource` rules considered alongside capability
      rules. */
  predicate CapabilityOrResourceApplies(cap: string, ctx: EvalContext, rule: S.CompiledRule) {
    (rule.kind == L.Capability || rule.kind == L.Resource) &&
    match rule.condition
    case HasCapability(x) => x == cap
    case _ => Eval(rule.condition, ctx)
  }

  /** `CapabilityApplies` as a rule filter. */
  function CapabilityRule(cap: string, ctx: EvalContext): S.CompiledRule -> bool {
    rule => CapabilityApplies(cap, ctx, rule)
  }

  /** `CapabilityOrResourceApplies` as a rule filter. */
  function CapabilityOrResourceRule(cap: string, ctx: EvalContext): S.CompiledRule -> bool {
    rule => CapabilityOrResourceApplies(cap, ctx, rule)
  }

  /** `PolicyEngine`: compiled policies in the order they were added. */
  class Engine {
    var policies: seq<S.CompiledPolicy>

    /** `PolicyEngine::new` (and `Default`). */
    constructor ()
      ensures policies == []
    {
      policies := [];
    }

    /** `add_policy`. */
    method AddPolicy(policy: S.CompiledPolicy)
      modifies this
      ensures policies == old(policies) + [policy]
    {
      policies := policies + [policy];
    }

    /** The nested loops of the `evaluate_*` methods: every rule of every
        policy, in order, kept when `keep` accepts it. */
    method Collect(keep: S.CompiledRule -> bool) returns (results: seq<Match>)
      ensures results == Matches(policies, keep)
    {
      results := [];
      for i := 0 to |policies|
        invariant results == Matches(policies[..i], keep)
      {
        var policy := policies[i];
        assert policies[..i + 1][..i] == policies[..i];
        ghost var before := results;
        for j := 0 to |policy.rules|
          invariant results == before + RuleMatches(policy.id, policy.rules[..j], keep)
        {
          assert policy.rules[..j + 1][..j] == policy.rules[..j];
          if keep(policy.rules[j]) {
            results := results + [Match(policy.id, policy.rules[j])];
          }
        }
        assert policy.rules[..|policy.rules|] == policy.rules;
      }
      assert policies[..|policies|] == policies;
    }

    /** `evaluate_tool`: the tool rules whose condition holds once the
        context names the tool, resolved. */
    method EvaluateTool(tool: string, context: EvalContext) returns (r: L.EvaluationResult)
      ensures r == Resolve(Matches(policies, KindRule(L.Tool, context.(tool := Some(tool)))), "tool: " + tool)
    {
      var ctx := context.(tool := Some(tool));
      var results := Collect(KindRule(L.Tool, ctx));
      r := Resolve(results, "tool: " + tool);
    }

    /** `evaluate_capability` as written: only `Capability` rules are
        looked at. The requested capability is added to a copy of the
        context that nothing reads, so other conditions see the caller's
        context. */
    method EvaluateCapability(cap: string, context: EvalContext) returns (r: L.EvaluationResult)
      ensures r == Resolve(Matches(policies, CapabilityRule(cap, context)), "capability: " + cap)
    {
      var ctx := context.(capabilities := context.capabilities + {cap});
      var results := Collect(CapabilityRule(cap, context));
      r := Resolve(results, "capability: " + cap);
    }

    /** `evaluate_capability` with `Resource` rules taken into account,
        as the compare-condition unit test expects. */
    method EvaluateCapabilityCorrected(cap: string, context: EvalContext) returns (r: L.EvaluationResult)
      ensures r == Resolve(Matches(policies, CapabilityOrResourceRule(cap, context)), "capability: " + cap)
    {
      var results := Collect(CapabilityOrResourceRule(cap, context));
      r := Resolve(results, "capability: " + cap);
    }

    /** `evaluate_patch`: the patch rules whose condition holds once the
        context names the patch type, resolved. */
    method EvaluatePatch(patchType: string, context: EvalContext) returns (r: L.EvaluationResult)
      ensures r == Resolve(Matches(policies, KindRule(L.Patch, context.(patchType := Some(patchType)))), "patch: " + patchType)
    {
      var ctx := context.(patchType := Some(patchType));
      var results := Collect(KindRule(L.Patch, ctx));
      r := Resolve(results, "patch: " + patchType);
    }
  }

  /** Without matching rules the verdict is a default deny: in
      particular an engine without policies denies every request. */
  lemma NoPoliciesDenies(keep: S.CompiledRule -> bool, subject: string)
    ensures Resolve(Matches([], keep), subject) == L.Denied("No policy allows: " + subject)
    ensures !Resolve(Matches([], keep), subject).allowed
  {
  }

  /** Looking at `Resource` rules changes nothing for policies that have
      none. */
  lemma {:induction false} CorrectedAgreesWithoutResourceRules(policies: seq<S.CompiledPolicy>, cap: string, ctx: EvalContext)
    requires forall p, rule :: p in policies && rule in p.rules ==> rule.kind != L.Resource
    ensures Matches(policies, CapabilityOrResourceRule(cap, ctx)) == Matches(policies, CapabilityRule(cap, ctx))
    decreases |policies|
  {
    if policies != [] {
      var init, last := policies[..|policies| - 1], policies[|policies| - 1];
      assert forall p :: p in init ==> p in policies;
      CorrectedAgreesWithoutResourceRules(init, cap, ctx);
      SameRuleMatches(last.id, last.rules, cap, ctx);
    }
  }

  lemma {:induction false} SameRuleMatches(id: L.PolicyId, rules: seq<S.CompiledRule>, cap: string, ctx: EvalContext)
    requires forall rule :: rule in rules ==> rule.kind != L.Resource
    ensures RuleMatches(id, rules, CapabilityOrResourceRule(cap, ctx)) == RuleMatches(id, rules, CapabilityRule(cap, ctx))
    decreases |rules|
  {
    if rules != [] {
      var init := rules[..|rules| - 1];
      assert forall rule :: rule in init ==> rule in rules;
      SameRuleMatches(id, init, cap, ctx);
    }
  }

  // ---------------------------------------------------------------------
  // The unit tests of engine.rs

  /** A compiled rule is the compilation of the rule it decompiles to. */
  lemma CompiledRuleOf(k: S.CompiledRule, rule: L.Rule)
    requires C.SourceRule(k) == rule
    ensures k == C.CompileRule(rule).value
  {
    C.CompileSource(k.condition);
  }

  /** The matches of a policy with a single rule. */
  lemma SingleRuleMatches(p: S.CompiledPolicy, keep: S.CompiledRule -> bool)
    requires |p.rules| == 1
    ensures Matches([p], keep) == if keep(p.rules[0]) then [Match(p.id, p.rules[0])] else []
  {
    assert [p][..0] == [] && p.rules[..0] == [];
    assert Matches([p], keep) == RuleMatches(p.id, p.rules, keep);
    assert RuleMatches(p.id, p.rules, keep) == RuleMatches(p.id, [], keep) + (if keep(p.rules[0]) then [Match(p.id, p.rules[0])] else []);
  }

  /** `test_*` setup: the policy `test@1.0.0` holding `rules`, compiled
      and added to a fresh engine. */
  method EngineWith(rules: seq<L.Rule>) returns (engine: Engine, compiled: S.CompiledPolicy)
    requires Seqs.Distinct(C.RuleNames(rules))
    ensures fresh(engine) && engine.policies == [compiled]
    ensures compiled.id == L.PolicyId("test", "1.0.0") && |compiled.rules| == |rules|
    ensures forall i :: 0 <= i < |rules| ==> compiled.rules[i] == C.CompileRule(rules[i]).value
  {
    var policy := new L.Policy("test", "1.0.0");
    for i := 0 to |rules|
      invariant policy.rules == rules[..i] && policy.name == "test" && policy.version == "1.0.0"
    {
      policy.AddRule(rules[i]);
      assert rules[..i + 1] == rules[..i] + [rules[i]];
    }
    assert rules[..|rules|] == rules;
    var r := C.Compile(policy);
    compiled := r.value;
    forall i | 0 <= i < |rules| ensures compiled.rules[i] == C.CompileRule(rules[i]).value {
      CompiledRuleOf(compiled.rules[i], rules[i]);
    }
    engine := new Engine();
    engine.AddPolicy(compiled);
  }

  /** The verdict on a single match. */
  lemma ResolveOne(m: Match, subject: string)
    ensures IsDeny(m) ==> Resolve([m], subject) == L.EvaluationResult(false, m.rule.action, [m.rule.name], m.rule.action.reason)
    ensures IsAllow(m) ==> Resolve([m], subject).allowed && Resolve([m], subject).matchedRules == [m.rule.name]
  {
    assert [m][1..] == [];
  }

  /** `test_engine_allow_capability`: a rule allowing `fs:read` allows
      it. */
  method AllowCapabilityExample() returns (r: L.EvaluationResult)
    ensures r.allowed && r.matchedRules == ["allow_fs_read"]
  {
    var rule := L.Rule("allow_fs_read", L.Capability, L.HasCapability("fs:read"), L.Allow);
    var engine, p := EngineWith([rule]);
    var ctx := NewContext().(capabilities := {"fs:read"});
    SingleRuleMatches(p, CapabilityRule("fs:read", ctx));
    ResolveOne(Match(p.id, p.rules[0]), "capability: fs:read");
    r := engine.EvaluateCapability("fs:read", ctx);
  }

  /** `test_engine_deny_capability`: a rule denying `fs:write` denies it
      with its own reason. */
  method DenyCapabilityExample() returns (r: L.EvaluationResult)
    ensures !r.allowed && r.reason == "Write not allowed"
  {
    var rule := L.Rule("deny_fs_write", L.Capability, L.HasCapability("fs:write"), L.Deny("Write not allowed"));
    var engine, p := EngineWith([rule]);
    var ctx := NewContext().(capabilities := {"fs:write"});
    SingleRuleMatches(p, CapabilityRule("fs:write", ctx));
    ResolveOne(Match(p.id, p.rules[0]), "capability: fs:write");
    r := engine.EvaluateCapability("fs:write", ctx);
  }

  /** `test_engine_default_deny`: a policy without rules denies by
      default. */
  method DefaultDenyExample() returns (r: L.EvaluationResult)
    ensures r == L.Denied("No policy allows: " + ("capability: " + "fs:read"))
  {
    var engine, p := EngineWith([]);
    assert [p][..0] == [];
    r := engine.EvaluateCapability("fs:read", NewContext());
  }

  /** `test_engine_compare_condition` as written: the `Resource` rule is
      never looked at, so the request is denied by default where the test
      expects it to be allowed. */
  method CompareConditionAsWritten() returns (r: L.EvaluationResult)
    ensures r == L.Denied("No policy allows: " + ("capability: " + "any"))
  {
    var rule := L.Rule("limit_iterations", L.Resource, L.Compare("iterations", L.Less, L.Integer(100)), L.Allow);
    var engine, p := EngineWith([rule]);
    var ctx := NewContext().(state := map["iterations" := L.Integer(50)]);
    assert p.rules[0].kind == L.Resource;
    SingleRuleMatches(p, CapabilityRule("any", ctx));
    assert Matches([p], CapabilityRule("any", ctx)) == [];
    r := engine.EvaluateCapability("any", ctx);
  }

  /** The same test against `EvaluateCapabilityCorrected`: the rule's
      comparison `50 < 100` holds and the request is allowed. */
  method CompareConditionCorrected() returns (r: L.EvaluationResult)
    ensures r.allowed && r.matchedRules == ["limit_iterations"]
  {
    var rule := L.Rule("limit_iterations", L.Resource, L.Compare("iterations", L.Less, L.Integer(100)), L.Allow);
    var engine, p := EngineWith([rule]);
    var ctx := NewContext().(state := map["iterations" := L.Integer(50)]);
    SingleRuleMatches(p, CapabilityOrResourceRule("any", ctx));
    ResolveOne(Match(p.id, p.rules[0]), "capability: any");
    r := engine.EvaluateCapabilityCorrected("any", ctx);
  }
}
