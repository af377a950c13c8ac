/** The compiled form of a policy (crates/oracle_omen_policy/src/schema.rs):
    the same shape as the source language, ready for evaluation. */
module PolicySchema {
  import L = PolicyLang

  /** `CompiledCondition`: one variant per `Condition` variant. */
  datatype CompiledCondition =
    | True
    | False
    | And(all: seq<CompiledCondition>)
    | Or(any: seq<CompiledCondition>)
    | Not(inner: CompiledCondition)
    | HasCapability(capability: string)
    | ToolEquals(tool: string)
    | Compare(field: string, op: L.CompareOp, value: L.Value)
    | Custom(text: string)

  /** `CompiledRule`. */
  datatype CompiledRule = CompiledRule(name: string, kind: L.RuleKind, condition: CompiledCondition, action: L.Action)

  /** `CompiledPolicy`. */
  datatype CompiledPolicy = CompiledPolicy(id: L.PolicyId, rules: seq<CompiledRule>, metadata: map<string, string>)
}

/** The policy compiler (crates/oracle_omen_policy/src/compiler.rs): a
    structural copy of every rule followed by a check that rule names do
    not repeat. */
module PolicyCompiler {
  import opened Wrappers
  import L = PolicyLang
  import S = PolicySchema
  import Seqs

  /** `CompileError`. Only `DuplicateRule` is ever produced. */
  datatype CompileError =
    | DuplicateRule(name: string)
    | InvalidCondition(message: string)
    | InvalidAction(message: string)
    | CircularDependency(message: string)

  /** The source-language condition a compiled condition was made from:
      the inverse of `CompileCondition`. */
  function Source(k: S.CompiledCondition): L.Condition {
    match k
    case True => L.True
    case False => L.False
    case And(ks) => L.And(SourceAll(ks))
    case Or(ks) => L.Or(SourceAll(ks))
    case Not(inner) => L.Not(Source(inner))
    case HasCapability(c) => L.HasCapability(c)
    case ToolEquals(t) => L.ToolEquals(t)
    case Compare(field, op, value) => L.Compare(field, op, value)
    case Custom(s) => L.Custom(s)
  }

  /** `Source` of each condition in order. */
  function SourceAll(ks: seq<S.CompiledCondition>): (cs: seq<L.Condition>)
    decreases ks
  {
    if ks == [] then [] else [Source(ks[0])] + SourceAll(ks[1..])
  }

  /** `compile_condition`: never fails, and the compiled condition is the
      source condition variant for variant. */
  function CompileCondition(c: L.Condition): (r: Result<S.CompiledCondition, CompileError>)
    ensures r.Ok? && Source(r.value) == c
    decreases c
  {
    match c
    case True => Ok(S.True)
    case False => Ok(S.False)
    case And(cs) =>
      (match CompileAll(cs) case Ok(ks) => Ok(S.And(ks)) case Err(e) => Err(e))
    case Or(cs) =>
      (match CompileAll(cs) case Ok(ks) => Ok(S.Or(ks)) case Err(e) => Err(e))
    case Not(inner) =>
      (match CompileCondition(inner) case Ok(k) => Ok(S.Not(k)) case Err(e) => Err(e))
    case HasCapability(cap) => Ok(S.HasCapability(cap))
    case ToolEquals(tool) => Ok(S.ToolEquals(tool))
    case Compare(field, op, value) => Ok(S.Compare(field, op, value))
    case Custom(s) => Ok(S.Custom(s))
  }

  /** `map(compile_condition).collect::<Result<Vec<_>, _>>()`: the first
      failure, if any, or every compiled condition in order. */
  function CompileAll(cs: seq<L.Condition>): (r: Result<seq<S.CompiledCondition>, CompileError>)
    ensures r.Ok? && SourceAll(r.value) == cs
    decreases cs
  {
    if cs == [] then Ok([])
    else
      match CompileCondition(cs[0])
      case Err(e) => Err(e)
      case Ok(head) =>
        match CompileAll(cs[1..])
        case Err(e) => Err(e)
        case Ok(tail) => assert cs == [cs[0]] + cs[1..]; Ok([head] + tail)
  }

  /** Compiling the source of a compiled condition gives it back, so
      compilation is a bijection between the two condition types. */
  lemma {:induction false} CompileSource(k: S.CompiledCondition)
    ensures CompileCondition(Source(k)) == Ok(k)
    decreases k
  {
    match k
    case And(ks) => CompileSourceAll(ks);
    case Or(ks) => CompileSourceAll(ks);
    case Not(inner) => CompileSource(inner);
    case _ =>
  }

  lemma {:induction false} CompileSourceAll(ks: seq<S.CompiledCondition>)
    ensures CompileAll(SourceAll(ks)) == Ok(ks)
    decreases ks
  {
    if ks != [] {
      var cs := SourceAll(ks);
      CompileSource(ks[0]);
      CompileSourceAll(ks[1..]);
      assert cs[0] == Source(ks[0]) && cs[1..] == SourceAll(ks[1..]);
      assert ks == [ks[0]] + ks[1..];
    }
  }

  /** Two conditions compile alike only if they are the same. */
  lemma CompileInjective(c: L.Condition, c': L.Condition)
    requires CompileCondition(c) == CompileCondition(c')
    ensures c == c'
  {
    assert Source(CompileCondition(c).value) == c;
  }

  /** The source-language rule a compiled rule was made from. */
  function SourceRule(k: S.CompiledRule): L.Rule {
    L.Rule(k.name, k.kind, Source(k.condition), k.action)
  }

  /** `compile_rule`: never fails; name, kind and action are copied and the
      condition compiled. */
  function CompileRule(rule: L.Rule): (r: Result<S.CompiledRule, CompileError>)
    ensures r.Ok? && SourceRule(r.value) == rule
  {
    match CompileCondition(rule.condition)
    case Ok(k) => Ok(S.CompiledRule(rule.name, rule.kind, k, rule.action))
    case Err(e) => Err(e)
  }

  /** `validate_condition`: walks every sub-condition and accepts them
      all. */
  function ValidateCondition(k: S.CompiledCondition): (r: Result<(), CompileError>)
    ensures r == Ok(())
    decreases k
  {
    match k
    case And(ks) => ValidateAll(ks)
    case Or(ks) => ValidateAll(ks)
    case Not(inner) => ValidateCondition(inner)
    case _ => Ok(())
  }

  /** `for c in conds { validate_condition(c)?; }`. */
  function ValidateAll(ks: seq<S.CompiledCondition>): (r: Result<(), CompileError>)
    ensures r == Ok(())
    decreases ks
  {
    if ks == [] then Ok(())
    else
      var head := ValidateCondition(ks[0]);
      if head.Err? then head else ValidateAll(ks[1..])
  }

  /** The rule names in order. */
  function Names(rules: seq<S.CompiledRule>): (ns: seq<string>)
    ensures |ns| == |rules| && forall i :: 0 <= i < |rules| ==> ns[i] == rules[i].name
  {
    seq(|rules|, i requires 0 <= i < |rules| => rules[i].name)
  }

  /** The rule names of a source policy in order. */
  function RuleNames(rules: seq<L.Rule>): (ns: seq<string>)
    ensures |ns| == |rules| && forall i :: 0 <= i < |rules| ==> ns[i] == rules[i].name
  {
    seq(|rules|, i requires 0 <= i < |rules| => rules[i].name)
  }

  /** Position `i` holds the first name that already appeared earlier. */
  predicate RepeatsAt(ns: seq<string>, i: int) {
    0 <= i < |ns| && ns[i] in ns[..i] && Seqs.Distinct(ns[..i])
  }

  /** At most one position is the first repeat, so the name a
      `DuplicateRule` error carries is determined by the policy. */
  lemma RepeatsAtUnique(ns: seq<string>, i: int, j: int)
    requires RepeatsAt(ns, i) && RepeatsAt(ns, j)
    ensures i == j
  {
    RepeatBefore(ns, i, j);
    RepeatBefore(ns, j, i);
  }

  /** A repeat at `i` spoils every prefix that reaches past `i`. */
  lemma RepeatBefore(ns: seq<string>, i: int, j: int)
    requires 0 <= i < |ns| && 0 <= j <= |ns| && ns[i] in ns[..i]
    ensures i < j ==> !Seqs.Distinct(ns[..j])
  {
    var k :| 0 <= k < i && ns[..i][k] == ns[i];
    if i < j {
      assert ns[..j][k] == ns[..j][i];
    }
  }

  /** `validate`: records each rule name in a set and stops at the first
      name already recorded; the condition pass that follows cannot fail
      (`ValidateCondition`), so it does not change the outcome. */
  method Validate(policy: S.CompiledPolicy) returns (r: Result<(), CompileError>)
    ensures r.Ok? <==> Seqs.Distinct(Names(policy.rules))
    ensures r.Ok? ==> r == Ok(())
    ensures r.Err? ==>
      exists i :: RepeatsAt(Names(policy.rules), i) && r.error == DuplicateRule(policy.rules[i].name)
  {
    var ns := Names(policy.rules);
    var names: set<string> := {};
    var i := 0;
    while i < |policy.rules|
      invariant 0 <= i <= |policy.rules|
      invariant forall x :: x in names <==> x in ns[..i]
      invariant Seqs.Distinct(ns[..i])
    {
      var name := policy.rules[i].name;
      if name in names {
        assert RepeatsAt(ns, i);
        NotDistinct(ns, i);
        return Err(DuplicateRule(name));
      }
      DistinctSnoc(ns, i);
      names := names + {name};
      i := i + 1;
    }
    assert ns[..i] == ns;
    r := Ok(());
  }

  /** A prefix without repeats stays so when the next entry is new. */
  lemma DistinctSnoc(ns: seq<string>, i: int)
    requires 0 <= i < |ns| && Seqs.Distinct(ns[..i]) && ns[i] !in ns[..i]
    ensures Seqs.Distinct(ns[..i + 1]) && ns[..i + 1] == ns[..i] + [ns[i]]
  {
    assert ns[..i + 1] == ns[..i] + [ns[i]];
  }

  /** A list with a repeat is not without repeats. */
  lemma NotDistinct(ns: seq<string>, i: int)
    requires RepeatsAt(ns, i)
    ensures !Seqs.Distinct(ns)
  {
    var k :| 0 <= k < i && ns[..i][k] == ns[i];
    assert ns[k] == ns[i];
  }

  /** `compile`: copies the id and metadata, compiles each rule in order
      and then validates. It succeeds exactly when no rule name repeats;
      the compiled rules then decompile to the policy's rules, and
      otherwise the error names the first repeated rule. */
  method Compile(policy: L.Policy) returns (r: Result<S.CompiledPolicy, CompileError>)
    ensures r.Ok? <==> Seqs.Distinct(RuleNames(policy.rules))
    ensures r.Ok? ==> r.value.id == policy.Id() && r.value.metadata == policy.metadata
    ensures r.Ok? ==> |r.value.rules| == |policy.rules| && forall i :: 0 <= i < |policy.rules| ==> SourceRule(r.value.rules[i]) == policy.rules[i]
    ensures r.Err? ==>
      exists i :: RepeatsAt(RuleNames(policy.rules), i) && r.error == DuplicateRule(policy.rules[i].name)
  {
    var rules: seq<S.CompiledRule> := [];
    for i := 0 to |policy.rules|
      invariant |rules| == i
      invariant forall k :: 0 <= k < i ==> SourceRule(rules[k]) == policy.rules[k]
    {
      // `compile_rule` cannot fail (`CompileRule`), so `?` never returns.
      var compiled := CompileRule(policy.rules[i]);
      rules := rules + [compiled.value];
    }
    var compiled := S.CompiledPolicy(policy.Id(), rules, policy.metadata);
    assert Names(rules) == RuleNames(policy.rules);
    var v := Validate(compiled);
    if v.Err? {
      return Err(v.error);
    }
    r := Ok(compiled);
  }

  /** The unit tests: a policy with the one rule `allow_read` compiles to
      one rule of that name, and a policy holding the same rule twice is
      refused with `DuplicateRule("duplicate")`. */
  method CompileExamples() returns (simple: Result<S.CompiledPolicy, CompileError>, duplicate: Result<S.CompiledPolicy, CompileError>)
    ensures simple.Ok? && |simple.value.rules| == 1 && simple.value.rules[0].name == "allow_read"
    ensures duplicate == Err(DuplicateRule("duplicate"))
  {
    var p1 := new L.Policy("test", "1.0.0");
    p1.AddRule(L.Rule("allow_read", L.Capability, L.HasCapability("fs:read"), L.Allow));
    simple := Compile(p1);
    assert Seqs.Distinct(RuleNames(p1.rules));
    var p2 := new L.Policy("test", "1.0.0");
    var rule := L.Rule("duplicate", L.Capability, L.True, L.Allow);
    p2.AddRule(rule);
    p2.AddRule(rule);
    assert RuleNames(p2.rules)[0] == RuleNames(p2.rules)[1];
    duplicate := Compile(p2);
  }
}
