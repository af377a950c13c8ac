/** Capabilities for tool access control
    (crates/oracle_omen_core/src/capability.rs): hierarchical names
    `domain:action:scope`, wildcard matching and an immutable set. */
module CoreCapability {
  import Text

  /** `struct Capability(String)`. */
  datatype Capability = Capability(name: string)

  /** `Capability::matches`: the pattern's `:`-segments are compared in order
      with the capability's; `*` is skipped and the first other segment that
      is not equal to the capability's segment at that index fails. */
  function Matches(cap: Capability, pattern: string): bool {
    SegmentsMatch(Text.Split(pattern, ':'), Text.Split(cap.name, ':'), 0)
  }

  function SegmentsMatch(parts: seq<string>, own: seq<string>, i: nat): bool
    requires i <= |parts|
    decreases |parts| - i
  {
    if i == |parts| then true
    else if parts[i] == "*" then SegmentsMatch(parts, own, i + 1)
    else if !(i < |own| && own[i] == parts[i]) then false
    else SegmentsMatch(parts, own, i + 1)
  }

  /** Pattern segment `k` is satisfied: it is `*`, or the capability has a
      segment at index `k` and it is the same text. */
  predicate SegmentOk(parts: seq<string>, own: seq<string>, k: int)
    requires 0 <= k < |parts|
  {
    parts[k] == "*" || (k < |own| && own[k] == parts[k])
  }

  lemma {:induction false} SegmentsMatchIff(parts: seq<string>, own: seq<string>, i: nat)
    requires i <= |parts|
    ensures SegmentsMatch(parts, own, i) <==> forall k :: i <= k < |parts| ==> SegmentOk(parts, own, k)
    decreases |parts| - i
  {
    if i < |parts| {
      SegmentsMatchIff(parts, own, i + 1);
      if !SegmentOk(parts, own, i) {
        assert !SegmentsMatch(parts, own, i);
      } else {
        assert SegmentsMatch(parts, own, i) == SegmentsMatch(parts, own, i + 1);
        assert (forall k :: i <= k < |parts| ==> SegmentOk(parts, own, k))
          <==> (forall k :: i + 1 <= k < |parts| ==> SegmentOk(parts, own, k));
      }
    }
  }

  /** `matches` holds exactly when every pattern segment is `*` or equals the
      capability's segment at the same index. */
  lemma MatchesIff(cap: Capability, pattern: string)
    ensures Matches(cap, pattern) <==> AllSegmentsOk(Text.Split(pattern, ':'), Text.Split(cap.name, ':'))
  {
    SegmentsMatchIff(Text.Split(pattern, ':'), Text.Split(cap.name, ':'), 0);
  }

  predicate AllSegmentsOk(parts: seq<string>, own: seq<string>) {
    forall k :: 0 <= k < |parts| ==> SegmentOk(parts, own, k)
  }

  lemma ThreeSegmentsOk(parts: seq<string>, own: seq<string>)
    requires |parts| == 3 && SegmentOk(parts, own, 0) && SegmentOk(parts, own, 1) && SegmentOk(parts, own, 2)
    ensures AllSegmentsOk(parts, own)
  {
    forall k | 0 <= k < 3 ensures SegmentOk(parts, own, k) {
      if k == 0 {} else if k == 1 {} else {}
    }
  }

  /** A pattern whose segments are a prefix of the capability's matches it:
      `"fs"` matches `"fs:read:/tmp"`. */
  lemma PrefixMatches(cap: Capability, pattern: string)
    requires var parts, own := Text.Split(pattern, ':'), Text.Split(cap.name, ':');
      |parts| <= |own| && own[..|parts|] == parts
    ensures Matches(cap, pattern)
  {
    var parts, own := Text.Split(pattern, ':'), Text.Split(cap.name, ':');
    MatchesIff(cap, pattern);
    forall k | 0 <= k < |parts| ensures SegmentOk(parts, own, k) {
      assert own[..|parts|][k] == own[k];
    }
  }

  /** A non-`*` pattern segment past the capability's last segment fails. */
  lemma TooLongFails(cap: Capability, pattern: string, k: nat)
    requires var parts, own := Text.Split(pattern, ':'), Text.Split(cap.name, ':');
      |own| <= k < |parts| && parts[k] != "*"
    ensures !Matches(cap, pattern)
  {
    MatchesIff(cap, pattern);
    assert !SegmentOk(Text.Split(pattern, ':'), Text.Split(cap.name, ':'), k);
  }

  /** Every capability matches its own name. */
  lemma MatchesSelf(cap: Capability)
    ensures Matches(cap, cap.name)
  {
    MatchesIff(cap, cap.name);
  }

  /** The name `a:b:c`. */
  function Name3(a: string, b: string, c: string): string {
    a + ":" + b + ":" + c
  }

  /** The three segments of `a:b:c` when no part contains `:`. */
  lemma Split3(a: string, b: string, c: string)
    requires ':' !in a && ':' !in b && ':' !in c
    ensures Text.Split(Name3(a, b, c), ':') == [a, b, c]
  {
    Text.SplitNoSep(c, ':');
    Text.SplitCons(b, ':', c);
    assert b + ":" + c == b + [':'] + c;
    Text.SplitCons(a, ':', b + ":" + c);
    assert Name3(a, b, c) == a + [':'] + (b + ":" + c);
  }

  predicate Segment(a: string) {
    ':' !in a
  }

  /** The shapes of the unit test at capability.rs:192-198, for any segments
      `a`, `b`, `c`: the capability `a:b:c` matches itself, `a:b:*` and the
      one-segment prefix `a`, and not `a:b':*` for another action `b'`. */
  lemma MatchesExamples(a: string, b: string, c: string, b': string)
    requires Segment(a) && Segment(b) && Segment(c) && Segment(b') && b' != b && b' != "*"
    ensures Matches(Capability(Name3(a, b, c)), Name3(a, b, c))
    ensures Matches(Capability(Name3(a, b, c)), Name3(a, b, "*"))
    ensures !Matches(Capability(Name3(a, b, c)), Name3(a, b', "*"))
    ensures Matches(Capability(Name3(a, b, c)), a)
  {
    var cap := Capability(Name3(a, b, c));
    MatchesSelf(cap);
    Split3(a, b, c);
    Split3(a, b, "*");
    Split3(a, b', "*");
    MatchesIff(cap, Name3(a, b, "*"));
    ThreeSegmentsOk([a, b, "*"], [a, b, c]);
    MatchesIff(cap, Name3(a, b', "*"));
    assert !SegmentOk([a, b', "*"], [a, b, c], 1);
    Text.SplitNoSep(a, ':');
    MatchesIff(cap, a);
  }

  /** `CapabilitySet { inner: BTreeSet<Capability> }`. */
  datatype CapabilitySet = CapabilitySet(inner: set<Capability>)

  /** `CapabilitySet::empty`. */
  function Empty(): (s: CapabilitySet)
    ensures |s.inner| == 0
  {
    CapabilitySet({})
  }

  /** `CapabilitySet::new`: collecting into a set drops duplicates. */
  function FromList(caps: seq<Capability>): CapabilitySet {
    CapabilitySet(set c | c in caps)
  }

  /** `new` keeps every listed capability, and `len` counts distinct ones: at
      most the list length, exactly it when the list has no repeats. */
  lemma {:induction false} FromListLen(caps: seq<Capability>)
    ensures forall c :: c in FromList(caps).inner <==> c in caps
    ensures |FromList(caps).inner| <= |caps|
    ensures (forall i, j :: 0 <= i < j < |caps| ==> caps[i] != caps[j]) ==> |FromList(caps).inner| == |caps|
  {
    if caps != [] {
      var rest := caps[1..];
      FromListLen(rest);
      assert FromList(caps).inner == {caps[0]} + FromList(rest).inner;
      if forall i, j :: 0 <= i < j < |caps| ==> caps[i] != caps[j] {
        assert caps[0] !in rest;
        assert forall i, j :: 0 <= i < j < |rest| ==> rest[i] != rest[j] by {
          forall i, j | 0 <= i < j < |rest| ensures rest[i] != rest[j] {
            assert rest[i] == caps[i + 1] && rest[j] == caps[j + 1];
          }
        }
      }
    }
  }

  /** `has`: exact membership. */
  predicate Has(s: CapabilitySet, c: Capability) {
    c in s.inner
  }

  /** `has_pattern` as written: some stored capability `c` satisfies
      `c.matches(pattern)`, so the argument is the pattern and a stored
      wildcard is compared literally. */
  predicate HasPattern(s: CapabilitySet, pattern: string) {
    exists c :: c in s.inner && Matches(c, pattern)
  }

  /** The unit test at capability.rs:212-218 expects a stored `fs:read:*` to
      grant `fs:read:/tmp`; as written a stored `a:b:*` grants only patterns
      it satisfies literally, so it does not grant `a:b:c` for any scope
      `c` other than `*`. */
  lemma HasPatternAsWritten(a: string, b: string, c: string)
    requires Segment(a) && Segment(b) && Segment(c) && c != "*"
    ensures HasPattern(FromList([Capability(Name3(a, b, "*"))]), Name3(a, b, "*"))
    ensures !HasPattern(FromList([Capability(Name3(a, b, "*"))]), Name3(a, b, c))
  {
    var wild := Capability(Name3(a, b, "*"));
    assert FromList([wild]).inner == {wild};
    MatchesSelf(wild);
    Split3(a, b, "*");
    Split3(a, b, c);
    MatchesIff(wild, Name3(a, b, c));
    assert !SegmentOk([a, b, c], [a, b, "*"], 2);
  }

  /** What the test expects of `has_pattern`: the queried capability is
      covered by some stored capability used as a pattern. */
  predicate GrantsPattern(s: CapabilitySet, query: string) {
    exists c :: c in s.inner && Matches(Capability(query), c.name)
  }

  /** Every stored capability is granted, and the corrected query meets the
      three assertions of the unit test: a stored `a:b:*` grants itself and
      every `a:b:c`, and not `a:b':*`. */
  lemma GrantsPatternMeetsTest(s: CapabilitySet, q: Capability, a: string, b: string, c: string, b': string)
    requires Segment(a) && Segment(b) && Segment(c) && Segment(b') && b' != b && b != "*" && b' != "*"
    ensures q in s.inner ==> GrantsPattern(s, q.name)
    ensures GrantsPattern(FromList([Capability(Name3(a, b, "*"))]), Name3(a, b, "*"))
    ensures GrantsPattern(FromList([Capability(Name3(a, b, "*"))]), Name3(a, b, c))
    ensures !GrantsPattern(FromList([Capability(Name3(a, b, "*"))]), Name3(a, b', "*"))
  {
    if q in s.inner { MatchesSelf(q); }
    var wild := Capability(Name3(a, b, "*"));
    assert FromList([wild]).inner == {wild};
    MatchesSelf(wild);
    MatchesExamples(a, b, c, b');
    Split3(a, b, "*");
    Split3(a, b', "*");
    MatchesIff(Capability(Name3(a, b', "*")), Name3(a, b, "*"));
    assert !SegmentOk([a, b, "*"], [a, b', "*"], 1);
  }

  /** `has_any`: `required.iter().any(has)`, scanning in order. */
  function HasAny(s: CapabilitySet, required: seq<Capability>): bool {
    if required == [] then false else Has(s, required[0]) || HasAny(s, required[1..])
  }

  /** `has_all`: `required.iter().all(has)`, scanning in order. */
  function HasAll(s: CapabilitySet, required: seq<Capability>): bool {
    if required == [] then true else Has(s, required[0]) && HasAll(s, required[1..])
  }

  /** `has_any` is "some required capability is in the set" (false for an
      empty list) and `has_all` is "every one is" (true for an empty list). */
  lemma {:induction false} HasAnyAllIff(s: CapabilitySet, required: seq<Capability>)
    ensures HasAny(s, required) <==> exists c :: c in required && c in s.inner
    ensures HasAll(s, required) <==> forall c :: c in required ==> c in s.inner
  {
    if required != [] {
      HasAnyAllIff(s, required[1..]);
      assert forall c :: c in required <==> c == required[0] || c in required[1..];
    }
  }

  /** `to_vec`: the capabilities in ascending order of name, as a `BTreeSet`
      iterates them. */
  function ToVec(s: CapabilitySet): (r: seq<Capability>)
    ensures forall c :: c in r <==> c in s.inner
    ensures forall i, j :: 0 <= i < j < |r| ==> Text.Less(r[i].name, r[j].name)
  {
    var names := set c | c in s.inner :: c.name;
    var sorted := Text.Sorted(names);
    var r := seq(|sorted|, i requires 0 <= i < |sorted| => Capability(sorted[i]));
    assert forall c :: c in s.inner ==> c.name in names;
    assert forall c :: c in s.inner ==> c in r by {
      forall c | c in s.inner ensures c in r {
        var i :| 0 <= i < |sorted| && sorted[i] == c.name;
        assert r[i] == c;
      }
    }
    assert forall i :: 0 <= i < |r| ==> r[i] in s.inner by {
      forall i | 0 <= i < |r| ensures r[i] in s.inner {
        assert sorted[i] in names;
        var c :| c in s.inner && c.name == sorted[i];
        assert c == r[i];
      }
    }
    r
  }
}
