/** The policy language (crates/oracle_omen_policy/src/lang.rs): policy
    documents, their rules, conditions and actions, and the result of an
    evaluation. */
module PolicyLang {

  /** `RuleKind`: what a rule governs. */
  datatype RuleKind = Capability | Tool | Memory | Patch | Resource | CustomKind(name: string)

  /** `CompareOp`. */
  datatype CompareOp = Equal | NotEqual | Greater | GreaterEqual | Less | LessEqual

  /** `Value`: the operands of a comparison. `Integer` is an `i64`; the
      model compares it but never computes with it. */
  datatype Value = Str(s: string) | Integer(i: int) | Boolean(b: bool) | List(items: seq<Value>)

  /** `Condition`: when a rule applies. */
  datatype Condition =
    | True
    | False
    | And(all: seq<Condition>)
    | Or(any: seq<Condition>)
    | Not(inner: Condition)
    | HasCapability(capability: string)
    | ToolEquals(tool: string)
    | Compare(field: string, op: CompareOp, value: Value)
    | Custom(text: string)

  /** `LogLevel`. */
  datatype LogLevel = Debug | Info | Warn | Error

  /** `Action`: what a rule does when it applies. */
  datatype Action =
    | Allow
    | Deny(reason: string)
    | AllowModified(modifications: map<string, string>)
    | RequireApproval(approver: string, reason: string)
    | Log(level: LogLevel)
    | CustomAction(text: string)

  /** `Rule`. */
  datatype Rule = Rule(name: string, kind: RuleKind, condition: Condition, action: Action)

  /** `PolicyId`: name and version. */
  datatype PolicyId = PolicyId(name: string, version: string)

  /** `Policy`: a named, versioned list of rules with free-form metadata. */
  class Policy {
    var name: string
    var version: string
    var rules: seq<Rule>
    var metadata: map<string, string>

    /** `Policy::new`: no rules and no metadata. */
    constructor (name: string, version: string)
      ensures this.name == name && this.version == version
      ensures rules == [] && metadata == map[]
    {
      this.name := name;
      this.version := version;
      rules := [];
      metadata := map[];
    }

    /** `add_rule`: the rule goes to the end; nothing else changes. */
    method AddRule(rule: Rule)
      modifies this
      ensures rules == old(rules) + [rule]
      ensures name == old(name) && version == old(version) && metadata == old(metadata)
    {
      rules := rules + [rule];
    }

    /** `id`: the policy's name and version. */
    function Id(): (id: PolicyId)
      reads this
      ensures id.name == name && id.version == version
    {
      PolicyId(name, version)
    }
  }

  /** `EvaluationResult`. */
  datatype EvaluationResult = EvaluationResult(allowed: bool, action: Action, matchedRules: seq<string>, reason: string)

  /** `EvaluationResult::allowed`: allowed by no particular rule. */
  function Allowed(reason: string): (r: EvaluationResult)
    ensures r.allowed && r.action == Allow && r.matchedRules == [] && r.reason == reason
  {
    EvaluationResult(true, Allow, [], reason)
  }

  /** `EvaluationResult::denied`: the reason is both the deny action's and
      the result's. */
  function Denied(reason: string): (r: EvaluationResult)
    ensures !r.allowed && r.action == Deny(reason) && r.matchedRules == [] && r.reason == reason
  {
    EvaluationResult(false, Deny(reason), [], reason)
  }

  /** A result says which way it went: the two constructors never agree,
      and each is determined by its reason. */
  lemma AllowedDeniedDistinct(a: string, b: string)
    ensures Allowed(a) != Denied(b)
    ensures Allowed(a) == Allowed(b) <==> a == b
    ensures Denied(a) == Denied(b) <==> a == b
  {
    assert Allowed(a).allowed != Denied(b).allowed;
    assert Allowed(a) == Allowed(b) ==> Allowed(a).reason == Allowed(b).reason;
    assert Denied(a) == Denied(b) ==> Denied(a).reason == Denied(b).reason;
  }

  /** The unit tests: a new policy `test@1.0.0` has that id and no rules. */
  method PolicyExample() returns (id: PolicyId, count: nat)
    ensures id == PolicyId("test", "1.0.0") && count == 0
  {
    var policy := new Policy("test", "1.0.0");
    id := policy.Id();
    count := |policy.rules|;
  }
}
