/** Generic facts about walking sequences: counting, folding and scanning
    two sequences side by side. The event-log modules instantiate them with
    their own step functions, so the proofs here never look inside a step. */
module Seqs {
  import opened Wrappers

  /** How many elements of `xs` satisfy `f`. */
  function Count<T>(xs: seq<T>, f: T -> bool): (n: nat)
    ensures n <= |xs|
    decreases |xs|
  {
    if xs == [] then 0 else Count(xs[..|xs| - 1], f) + (if f(xs[|xs| - 1]) then 1 else 0)
  }

  /** The count reaches the length exactly when every element satisfies `f`. */
  lemma {:induction false} CountAll<T>(xs: seq<T>, f: T -> bool)
    ensures Count(xs, f) == |xs| <==> forall i :: 0 <= i < |xs| ==> f(xs[i])
    decreases |xs|
  {
    if xs != [] {
      var init := xs[..|xs| - 1];
      CountAll(init, f);
      if forall i :: 0 <= i < |xs| ==> f(xs[i]) {
        assert forall i :: 0 <= i < |init| ==> f(init[i]) by {
          forall i | 0 <= i < |init| ensures f(init[i]) { assert init[i] == xs[i]; }
        }
      } else {
        var k :| 0 <= k < |xs| && !f(xs[k]);
        if k < |init| {
          assert init[k] == xs[k];
        }
      }
    }
  }

  /** Counting by a loop: `yes` elements satisfy `f` and the other `no`
      do not. */
  method CountWhere<T>(xs: seq<T>, f: T -> bool) returns (yes: nat, no: nat)
    ensures yes == Count(xs, f) && yes + no == |xs|
  {
    yes, no := 0, 0;
    for i := 0 to |xs|
      invariant yes == Count(xs[..i], f) && yes + no == i
    {
      assert xs[..i + 1][..i] == xs[..i];
      if f(xs[i]) {
        yes := yes + 1;
      } else {
        no := no + 1;
      }
    }
    assert xs[..|xs|] == xs;
  }

  /** Applying `step` to each element of `xs` in order, starting from `s`. */
  function Fold<S, T>(s: S, xs: seq<T>, step: (S, T) -> S): S
    decreases |xs|
  {
    if xs == [] then s else step(Fold(s, xs[..|xs| - 1], step), xs[|xs| - 1])
  }

  /** Folding a concatenation folds one part after the other. */
  lemma {:induction false} FoldAppend<S, T>(s: S, xs: seq<T>, ys: seq<T>, step: (S, T) -> S)
    ensures Fold(s, xs + ys, step) == Fold(Fold(s, xs, step), ys, step)
    decreases |ys|
  {
    if ys == [] {
      assert xs + ys == xs;
    } else {
      var n := |ys|;
      assert (xs + ys)[..|xs + ys| - 1] == xs + ys[..n - 1];
      assert (xs + ys)[|xs + ys| - 1] == ys[n - 1];
      FoldAppend(s, xs, ys[..n - 1], step);
    }
  }

  /** Folding one more element applies one more step. */
  lemma FoldSnoc<S, T>(s: S, xs: seq<T>, x: T, step: (S, T) -> S)
    ensures Fold(s, xs + [x], step) == step(Fold(s, xs, step), x)
  {
    assert (xs + [x])[..|xs|] == xs;
  }

  /** A measure that every step raises by one grows by the length. */
  lemma {:induction false} FoldMeasure<S, T>(s: S, xs: seq<T>, step: (S, T) -> S, measure: S -> int)
    requires forall t: S, i :: 0 <= i < |xs| ==> measure(step(t, xs[i])) == measure(t) + 1
    ensures measure(Fold(s, xs, step)) == measure(s) + |xs|
    decreases |xs|
  {
    if xs != [] {
      var init := xs[..|xs| - 1];
      forall t: S, i | 0 <= i < |init| ensures measure(step(t, init[i])) == measure(t) + 1 {
        assert init[i] == xs[i];
      }
      FoldMeasure(s, init, step, measure);
      assert measure(step(Fold(s, init, step), xs[|xs| - 1])) == measure(Fold(s, init, step)) + 1;
    }
  }

  /** A fact about one element that the element's own step establishes and
      every later step keeps holds after the whole fold. */
  lemma {:induction false} FoldKeeps<S, T>(s: S, xs: seq<T>, step: (S, T) -> S, holds: (S, T) -> bool, j: nat)
    requires forall t: S, i :: 0 <= i < |xs| ==> holds(step(t, xs[i]), xs[i])
    requires forall t: S, i, k :: 0 <= i < k < |xs| && holds(t, xs[i]) ==> holds(step(t, xs[k]), xs[i])
    requires j < |xs|
    ensures holds(Fold(s, xs, step), xs[j])
    decreases |xs|
  {
    var n := |xs|;
    var init := xs[..n - 1];
    if j < n - 1 {
      assert init[j] == xs[j];
      forall t: S, i | 0 <= i < |init| ensures holds(step(t, init[i]), init[i]) {
        assert init[i] == xs[i];
      }
      forall t: S, i, k | 0 <= i < k < |init| && holds(t, init[i]) ensures holds(step(t, init[k]), init[i]) {
        assert init[i] == xs[i] && init[k] == xs[k];
      }
      FoldKeeps(s, init, step, holds, j);
    }
  }

  /** Walking `a` and `b` side by side from `pos`: while both have an element
      the pair may contribute a point; when exactly one runs out a final
      point `tail(pos)` is added; when both run out the walk ends. */
  function ScanFrom<T, P>(a: seq<T>, b: seq<T>, pos: nat, point: (nat, T, T) -> Option<P>, tail: nat -> P): seq<P>
    decreases |a| - pos
  {
    if pos < |a| && pos < |b| then
      (match point(pos, a[pos], b[pos]) case Some(p) => [p] case None => [])
      + ScanFrom(a, b, pos + 1, point, tail)
    else if pos < |a| || pos < |b| then [tail(pos)]
    else []
  }

  /** The walk by a loop: while both sequences have an element the pair's
      point, if any, is appended; at the first position where only one has
      an element `tail` is appended and the loop stops. */
  method ScanWalk<T, P>(a: seq<T>, b: seq<T>, point: (nat, T, T) -> Option<P>, tail: nat -> P) returns (ds: seq<P>)
    ensures ds == ScanFrom(a, b, 0, point, tail)
  {
    ds := [];
    var pos := 0;
    while true
      invariant pos <= |a| && pos <= |b|
      invariant ds + ScanFrom(a, b, pos, point, tail) == ScanFrom(a, b, 0, point, tail)
      decreases |a| - pos
    {
      if pos < |a| && pos < |b| {
        var here := point(pos, a[pos], b[pos]);
        var next := ScanFrom(a, b, pos + 1, point, tail);
        if here.Some? {
          assert ds + ([here.value] + next) == (ds + [here.value]) + next;
          ds := ds + [here.value];
        }
      } else if pos < |a| || pos < |b| {
        ds := ds + [tail(pos)];
        break;
      } else {
        break;
      }
      pos := pos + 1;
    }
  }

  function Min(x: nat, y: nat): nat { if x <= y then x else y }

  /** The positions from `pos` on, below both lengths, whose pair has a
      point: they lie in range, strictly increase and each has a point. */
  function PointPositions<T, P>(a: seq<T>, b: seq<T>, pos: nat, point: (nat, T, T) -> Option<P>): (r: seq<nat>)
    ensures forall i :: 0 <= i < |r| ==> pos <= r[i] < Min(|a|, |b|) && point(r[i], a[r[i]], b[r[i]]).Some?
    ensures forall i, j :: 0 <= i < j < |r| ==> r[i] < r[j]
    decreases |a| - pos
  {
    if pos < |a| && pos < |b| then
      var rest := PointPositions(a, b, pos + 1, point);
      if point(pos, a[pos], b[pos]).Some? then
        assert forall j :: 0 < j < |[pos] + rest| ==> ([pos] + rest)[j] == rest[j - 1];
        [pos] + rest
      else rest
    else []
  }

  /** Every position in range whose pair has a point is listed. */
  lemma {:induction false} PointPositionsComplete<T, P>(a: seq<T>, b: seq<T>, pos: nat, point: (nat, T, T) -> Option<P>, q: nat)
    requires pos <= q < Min(|a|, |b|) && point(q, a[q], b[q]).Some?
    ensures q in PointPositions(a, b, pos, point)
    decreases |a| - pos
  {
    var ps := PointPositions(a, b, pos, point);
    var rest := PointPositions(a, b, pos + 1, point);
    var head := if point(pos, a[pos], b[pos]).Some? then [pos] else [];
    assert ps == head + rest;
    if q == pos {
      assert head == [q];
      assert ps[0] == q;
    } else {
      PointPositionsComplete(a, b, pos + 1, point, q);
      assert q in head + rest;
    }
  }

  /** The scan lists the points at those positions, in order, followed by
      one more element exactly when the lengths differ. */
  lemma {:induction false} ScanPoints<T, P>(a: seq<T>, b: seq<T>, pos: nat, point: (nat, T, T) -> Option<P>, tail: nat -> P)
    requires pos <= Min(|a|, |b|)
    ensures var ds := ScanFrom(a, b, pos, point, tail);
      var ps := PointPositions(a, b, pos, point);
      && |ds| == |ps| + (if |a| != |b| then 1 else 0)
      && (forall i :: 0 <= i < |ps| ==> point(ps[i], a[ps[i]], b[ps[i]]) == Some(ds[i]))
    decreases |a| - pos
  {
    if pos < Min(|a|, |b|) {
      ScanPoints(a, b, pos + 1, point, tail);
      var rest := PointPositions(a, b, pos + 1, point);
      var ps := PointPositions(a, b, pos, point);
      var tailDs := ScanFrom(a, b, pos + 1, point, tail);
      var ds := ScanFrom(a, b, pos, point, tail);
      var here := point(pos, a[pos], b[pos]);
      if here.Some? {
        assert ps == [pos] + rest;
        assert ds == [here.value] + tailDs;
        forall i | 0 <= i < |ps| ensures point(ps[i], a[ps[i]], b[ps[i]]) == Some(ds[i]) {
          if i > 0 { assert ps[i] == rest[i - 1] && ds[i] == tailDs[i - 1]; }
        }
      } else {
        assert ps == rest && ds == tailDs;
      }
    }
  }

  /** When the lengths differ the scan ends with `tail` at the shorter
      length. */
  lemma {:induction false} ScanTail<T, P>(a: seq<T>, b: seq<T>, pos: nat, point: (nat, T, T) -> Option<P>, tail: nat -> P)
    requires pos <= Min(|a|, |b|) && |a| != |b|
    ensures var ds := ScanFrom(a, b, pos, point, tail);
      |ds| > 0 && ds[|ds| - 1] == tail(Min(|a|, |b|))
    decreases |a| - pos
  {
    if pos < Min(|a|, |b|) {
      ScanTail(a, b, pos + 1, point, tail);
      var tailDs := ScanFrom(a, b, pos + 1, point, tail);
      var ds := ScanFrom(a, b, pos, point, tail);
      assert ds[|ds| - 1] == tailDs[|tailDs| - 1];
    }
  }

  /** When every point and the tail record the position they were made at,
      the scan's elements are ordered by strictly increasing position, none
      lies beyond the shorter length, and each one below it is the point of
      its position. */
  lemma ScanOrdered<T, P>(a: seq<T>, b: seq<T>, point: (nat, T, T) -> Option<P>, tail: nat -> P, at: P -> nat, ds: seq<P>)
    requires forall q: nat, x: T, y: T :: point(q, x, y).Some? ==> at(point(q, x, y).value) == q
    requires forall q: nat :: at(tail(q)) == q
    requires ds == ScanFrom(a, b, 0, point, tail)
    ensures && (forall i, j :: 0 <= i < j < |ds| ==> at(ds[i]) < at(ds[j]))
      && (forall i :: 0 <= i < |ds| ==> at(ds[i]) <= Min(|a|, |b|))
      && (forall i :: 0 <= i < |ds| && at(ds[i]) < Min(|a|, |b|) ==>
            point(at(ds[i]), a[at(ds[i])], b[at(ds[i])]) == Some(ds[i]))
  {
    var ps := PointPositions(a, b, 0, point);
    ScanPoints(a, b, 0, point, tail);
    var m := Min(|a|, |b|);
    forall i | 0 <= i < |ps| ensures at(ds[i]) == ps[i] < m {
      assert point(ps[i], a[ps[i]], b[ps[i]]) == Some(ds[i]);
    }
    if |a| != |b| {
      ScanTail(a, b, 0, point, tail);
      assert at(ds[|ps|]) == m;
    }
    assert forall i :: |ps| <= i < |ds| ==> i == |ps| && at(ds[i]) == m;
    forall i, j | 0 <= i < j < |ds| ensures at(ds[i]) < at(ds[j]) {
      if j < |ps| { assert ps[i] < ps[j]; }
    }
  }

  /** A scan of a sequence against itself finds nothing when no element
      differs from itself. */
  lemma {:induction false} ScanSame<T, P>(a: seq<T>, pos: nat, point: (nat, T, T) -> Option<P>, tail: nat -> P)
    requires pos <= |a|
    requires forall q :: pos <= q < |a| ==> point(q, a[q], a[q]).None?
    ensures ScanFrom(a, a, pos, point, tail) == []
    decreases |a| - pos
  {
    if pos < |a| {
      ScanSame(a, pos + 1, point, tail);
    }
  }

  /** No element occurs twice. */
  predicate Distinct<T(==)>(s: seq<T>) {
    forall i, j :: 0 <= i < j < |s| ==> s[i] != s[j]
  }

  /** A sequence without repeats has as many elements as its set. */
  lemma {:induction false} DistinctCard<T>(s: seq<T>)
    requires Distinct(s)
    ensures |set x | x in s| == |s|
    decreases |s|
  {
    if s != [] {
      var init := s[..|s| - 1];
      DistinctCard(init);
      assert s[|s| - 1] !in init;
      assert (set x | x in s) == (set x | x in init) + {s[|s| - 1]};
    }
  }

  /** The elements of `s`, last first. */
  function Reverse<T>(s: seq<T>): (r: seq<T>)
    ensures |r| == |s| && forall i :: 0 <= i < |s| ==> r[i] == s[|s| - 1 - i]
    decreases |s|
  {
    if s == [] then [] else Reverse(s[1..]) + [s[0]]
  }

  /** `map.entry(key).or_default().push(v)`: `v` goes to the end of the
      key's list, which starts empty; every other key keeps its list. */
  function Push<K, V>(m: map<K, seq<V>>, key: K, v: V): (p: map<K, seq<V>>)
    ensures p.Keys == m.Keys + {key}
    ensures p[key] == (if key in m then m[key] else []) + [v]
    ensures forall k :: k in m && k != key ==> p[k] == m[k]
  {
    m[key := (if key in m then m[key] else []) + [v]]
  }
}
