/** String helpers shared by the model: Rust's byte-wise ordering of `String`
    (which coincides with code-point order), the ascending key order of a
    `BTreeMap`/`BTreeSet`, decimal formatting of integers and the `str`
    methods the source calls (`starts_with`, `contains`, `split`, `join`). */
module Text {

  /** Strict lexicographic order on strings, as `Ord for String`. */
  predicate Less(a: string, b: string)
    decreases |a|
  {
    if |a| == 0 then |b| > 0
    else if |b| == 0 then false
    else if a[0] != b[0] then a[0] < b[0]
    else Less(a[1..], b[1..])
  }

  lemma {:induction false} LessIrreflexive(a: string)
    ensures !Less(a, a)
    decreases |a|
  {
    if |a| > 0 { LessIrreflexive(a[1..]); }
  }

  lemma {:induction false} LessTransitive(a: string, b: string, c: string)
    requires Less(a, b) && Less(b, c)
    ensures Less(a, c)
    decreases |a|
  {
    if |a| > 0 && |b| > 0 && |c| > 0 && a[0] == b[0] && b[0] == c[0] {
      LessTransitive(a[1..], b[1..], c[1..]);
    }
  }

  lemma {:induction false} LessTotal(a: string, b: string)
    requires a != b
    ensures Less(a, b) || Less(b, a)
    decreases |a|
  {
    if |a| > 0 && |b| > 0 && a[0] == b[0] {
      assert a == [a[0]] + a[1..] && b == [b[0]] + b[1..];
      LessTotal(a[1..], b[1..]);
    }
  }

  lemma {:induction false} LessAsymmetric(a: string, b: string)
    requires Less(a, b)
    ensures !Less(b, a)
  {
    if Less(b, a) {
      LessTransitive(a, b, a);
      LessIrreflexive(a);
    }
  }

  /** Every non-empty finite set of strings has a least element. */
  lemma LeastExists(s: set<string>)
    requires s != {}
    ensures exists m :: m in s && forall x :: x in s && x != m ==> Less(m, x)
  {
    var _ := LeastOf(s);
  }

  lemma {:induction false} LeastOf(s: set<string>) returns (m: string)
    requires s != {}
    ensures m in s && forall x :: x in s && x != m ==> Less(m, x)
    decreases |s|
  {
    var y := Element(s);
    if s == {y} {
      m := y;
    } else {
      var m' := LeastOf(s - {y});
      LessTotal(m', y);
      m := if Less(m', y) then m' else y;
      forall x | x in s && x != m ensures Less(m, x) {
        if x != y && x != m' {
          assert x in s - {y};
          if m == y { LessTransitive(y, m', x); }
        }
      }
    }
  }

  /** The least element of a non-empty set: the first key a `BTreeMap` yields. */
  function Least(s: set<string>): (m: string)
    requires s != {}
    ensures m in s && forall x :: x in s && x != m ==> Less(m, x)
  {
    LeastExists(s);
    LeastUnique(s);
    var m :| m in s && forall x :: x in s && x != m ==> Less(m, x); m
  }

  lemma LeastUnique(s: set<string>)
    ensures forall m1, m2 ::
              (m1 in s && m2 in s && (forall x :: x in s && x != m1 ==> Less(m1, x))
               && (forall x :: x in s && x != m2 ==> Less(m2, x))) ==> m1 == m2
  {
    forall m1, m2 | m1 in s && m2 in s && (forall x :: x in s && x != m1 ==> Less(m1, x))
      && (forall x :: x in s && x != m2 ==> Less(m2, x))
      ensures m1 == m2
    {
      if m1 != m2 { LessAsymmetric(m1, m2); }
    }
  }

  predicate Increasing(r: seq<string>) {
    forall i, j :: 0 <= i < j < |r| ==> Less(r[i], r[j])
  }

  /** The elements of a set in ascending order: the iteration order of a
      `BTreeSet` or of the keys of a `BTreeMap`. */
  function Sorted(s: set<string>): (r: seq<string>)
    ensures Increasing(r)
    ensures |r| == |s| && forall x :: x in r <==> x in s
    decreases |s|
  {
    if s == {} then []
    else
      var m := Least(s);
      var rest := Sorted(s - {m});
      assert forall j :: 0 <= j < |rest| ==> Less(m, rest[j]) by {
        forall j | 0 <= j < |rest| ensures Less(m, rest[j]) { assert rest[j] in s - {m}; }
      }
      [m] + rest
  }

  /** Two increasing sequences with the same elements are equal, so `Sorted`
      is the only ascending listing of a set. */
  lemma {:induction false} IncreasingUnique(a: seq<string>, b: seq<string>)
    requires Increasing(a) && Increasing(b)
    requires forall x :: x in a <==> x in b
    ensures a == b
    decreases |a|
  {
    if a != [] { assert a[0] in b; }
    if b != [] { assert b[0] in a; }
    if a != [] && b != [] {
      assert a[0] == b[0] by {
        assert b[0] in a && a[0] in b;
        var i :| 0 <= i < |a| && a[i] == b[0];
        var j :| 0 <= j < |b| && b[j] == a[0];
        if a[0] != b[0] {
          assert Less(a[0], a[i]) && Less(b[0], b[j]);
          LessAsymmetric(a[0], b[0]);
          assert false;
        }
      }
      forall x ensures x in a[1..] <==> x in b[1..] {
        if x in a[1..] {
          var i :| 1 <= i < |a| && a[i] == x;
          assert Less(a[0], x);
          LessIrreflexive(x);
          assert x in b;
        }
        if x in b[1..] {
          var j :| 1 <= j < |b| && b[j] == x;
          assert Less(b[0], x);
          LessIrreflexive(x);
          assert x in a;
        }
      }
      IncreasingUnique(a[1..], b[1..]);
      assert a == [a[0]] + a[1..] && b == [b[0]] + b[1..];
    }
  }

  /** The elements of a set of integers in ascending order. */
  function SortedInts(s: set<int>): (r: seq<int>)
    ensures forall i, j :: 0 <= i < j < |r| ==> r[i] < r[j]
    ensures |r| == |s| && forall x :: x in r <==> x in s
    decreases |s|
  {
    if s == {} then []
    else
      var m := LeastInt(s);
      var rest := SortedInts(s - {m});
      assert forall j :: 0 <= j < |rest| ==> m < rest[j] by {
        forall j | 0 <= j < |rest| ensures m < rest[j] { assert rest[j] in s - {m}; }
      }
      [m] + rest
  }

  function LeastInt(s: set<int>): (m: int)
    requires s != {}
    ensures m in s && forall x :: x in s ==> m <= x
  {
    LeastIntExists(s);
    var m :| m in s && forall x :: x in s ==> m <= x; m
  }

  lemma LeastIntExists(s: set<int>)
    requires s != {}
    ensures exists m :: m in s && forall x :: x in s ==> m <= x
  {
    var _ := LeastIntOf(s);
  }

  lemma Element<T>(s: set<T>) returns (y: T)
    requires s != {}
    ensures y in s
  {
    if forall z :: z !in s {
      assert false;
    }
    y :| y in s;
  }

  lemma {:induction false} LeastIntOf(s: set<int>) returns (m: int)
    requires s != {}
    ensures m in s && forall x :: x in s ==> m <= x
    decreases |s|
  {
    var y := Element(s);
    if s == {y} {
      m := y;
    } else {
      var m' := LeastIntOf(s - {y});
      m := if y < m' then y else m';
      forall x | x in s ensures m <= x {
        if x != y { assert x in s - {y}; }
      }
    }
  }

  /** The greatest element of a non-empty finite set of integers. */
  function GreatestInt(s: set<int>): (m: int)
    requires s != {}
    ensures m in s && forall x :: x in s ==> x <= m
  {
    GreatestIntExists(s);
    var m :| m in s && forall x :: x in s ==> x <= m; m
  }

  lemma GreatestIntExists(s: set<int>)
    requires s != {}
    ensures exists m :: m in s && forall x :: x in s ==> x <= m
  {
    var _ := GreatestIntOf(s);
  }

  lemma {:induction false} GreatestIntOf(s: set<int>) returns (m: int)
    requires s != {}
    ensures m in s && forall x :: x in s ==> x <= m
    decreases |s|
  {
    var y := Element(s);
    if s == {y} {
      m := y;
    } else {
      var m' := GreatestIntOf(s - {y});
      m := if y > m' then y else m';
      forall x | x in s ensures x <= m {
        if x != y { assert x in s - {y}; }
      }
    }
  }

  /** `format!("{}", n)` for a non-negative integer. */
  function Decimal(n: nat): (r: string)
    ensures |r| > 0 && forall i :: 0 <= i < |r| ==> '0' <= r[i] <= '9'
  {
    if n < 10 then [Digit(n)] else Decimal(n / 10) + [Digit(n % 10)]
  }

  /** Different numbers print differently. */
  lemma {:induction false} DecimalInjective(a: nat, b: nat)
    requires Decimal(a) == Decimal(b)
    ensures a == b
    decreases a
  {
    var da, db := Decimal(a), Decimal(b);
    if a < 10 && b < 10 {
      assert Digit(a) == da[0] == db[0] == Digit(b);
    } else if a >= 10 && b >= 10 {
      var pa, pb := Decimal(a / 10), Decimal(b / 10);
      assert da == pa + [Digit(a % 10)] && db == pb + [Digit(b % 10)];
      assert pa == da[..|da| - 1] == db[..|db| - 1] == pb;
      assert Digit(a % 10) == da[|da| - 1] == db[|db| - 1] == Digit(b % 10);
      DecimalInjective(a / 10, b / 10);
    }
  }

  function Digit(d: nat): (c: char)
    requires d < 10
    ensures '0' <= c <= '9'
  {
    ('0' as int + d) as char
  }

  /** `str::starts_with`. */
  predicate StartsWith(s: string, prefix: string) {
    |prefix| <= |s| && s[..|prefix|] == prefix
  }

  /** `str::ends_with` for a single character. */
  predicate EndsWithChar(s: string, c: char) {
    |s| > 0 && s[|s| - 1] == c
  }

  /** `str::contains` for a string pattern. */
  predicate Contains(s: string, pattern: string) {
    exists i | 0 <= i <= |s| - |pattern| :: OccursAt(s, pattern, i)
  }

  predicate OccursAt(s: string, pattern: string, i: int)
    requires 0 <= i <= |s| - |pattern|
  {
    s[i..i + |pattern|] == pattern
  }

  /** `str::split(sep)` for a single character separator: always at least one
      piece, and empty pieces are kept. */
  function Split(s: string, sep: char): (r: seq<string>)
    ensures |r| > 0
    ensures forall i :: 0 <= i < |r| ==> sep !in r[i]
    decreases |s|
  {
    if s == [] then [[]]
    else
      var rest := Split(s[1..], sep);
      if s[0] == sep then [[]] + rest
      else [[s[0]] + rest[0]] + rest[1..]
  }

  /** A string without the separator splits into itself alone. */
  lemma {:induction false} SplitNoSep(a: string, sep: char)
    requires sep !in a
    ensures Split(a, sep) == [a]
    decreases |a|
  {
    if a != [] {
      assert sep !in a[1..];
      SplitNoSep(a[1..], sep);
      assert a == [a[0]] + a[1..];
    }
  }

  /** Splitting peels off the text before the first separator. */
  lemma {:induction false} SplitCons(a: string, sep: char, b: string)
    requires sep !in a
    ensures Split(a + [sep] + b, sep) == [a] + Split(b, sep)
    decreases |a|
  {
    var s := a + [sep] + b;
    if a == [] {
      assert s[1..] == b;
    } else {
      assert s[1..] == a[1..] + [sep] + b;
      assert sep !in a[1..];
      SplitCons(a[1..], sep, b);
      assert a == [a[0]] + a[1..];
    }
  }

  /** `slice.join(sep)`. */
  function Join(parts: seq<string>, sep: string): string
    decreases |parts|
  {
    if |parts| == 0 then ""
    else if |parts| == 1 then parts[0]
    else parts[0] + sep + Join(parts[1..], sep)
  }

  /** `str::to_lowercase` restricted to ASCII letters. */
  function LowerAscii(s: string): (r: string)
    ensures |r| == |s|
  {
    seq(|s|, i requires 0 <= i < |s| => if 'A' <= s[i] <= 'Z' then (s[i] as int + 32) as char else s[i])
  }

  // ---------------------------------------------------------------------
  // `{:?}` of a string

  /** What `{:?}` writes for one character inside a quoted string: a
      backslash before `"` and `\`, the short escapes `\0`, `\t`, `\n` and
      `\r`, and every other character as it is. */
  function EscapeChar(c: char): (r: string)
    ensures 1 <= |r| <= 2 && (|r| == 1 <==> r == [c])
    ensures |r| == 2 ==> r[0] == '\\' && UnescapeCode(r[1]) == c
    ensures r[0] == '\\' ==> |r| == 2
  {
    if c == '"' || c == '\\' then ['\\', c]
    else if c == '\0' then "\\0"
    else if c == '\t' then "\\t"
    else if c == '\n' then "\\n"
    else if c == '\r' then "\\r"
    else [c]
  }

  /** The character an escape `\x` stands for. */
  function UnescapeCode(x: char): char {
    if x == '0' then '\0'
    else if x == 't' then '\t'
    else if x == 'n' then '\n'
    else if x == 'r' then '\r'
    else x
  }

  /** The body of `format!("{:?}", s)` between its quotes. */
  function EscapeDebug(s: string): (r: string)
    ensures |r| >= |s|
    decreases |s|
  {
    if |s| == 0 then [] else EscapeChar(s[0]) + EscapeDebug(s[1..])
  }

  /** Reading the escapes back. */
  function UnescapeDebug(s: string): string
    decreases |s|
  {
    if |s| == 0 then []
    else if s[0] == '\\' && |s| >= 2 then [UnescapeCode(s[1])] + UnescapeDebug(s[2..])
    else [s[0]] + UnescapeDebug(s[1..])
  }

  /** Escaping loses nothing: the escapes read back to the string. */
  lemma {:induction false} EscapeDebugRoundTrip(s: string)
    ensures UnescapeDebug(EscapeDebug(s)) == s
    decreases |s|
  {
    if |s| > 0 {
      var e := EscapeChar(s[0]);
      var t := EscapeDebug(s[1..]);
      EscapeDebugRoundTrip(s[1..]);
      var u := e + t;
      if |e| == 2 {
        assert u[0] == '\\' && u[1] == e[1] && u[2..] == t;
      } else {
        assert u[0] == s[0] && u[0] != '\\' && u[1..] == t;
      }
      assert s == [s[0]] + s[1..];
    }
  }

  /** Two strings with the same `{:?}` text are the same string. */
  lemma EscapeDebugInjective(a: string, b: string)
    requires EscapeDebug(a) == EscapeDebug(b)
    ensures a == b
  {
    EscapeDebugRoundTrip(a);
    EscapeDebugRoundTrip(b);
  }

  /** A string with no character that needs an escape is written as it is. */
  lemma {:induction false} EscapeDebugPlain(s: string)
    requires forall i :: 0 <= i < |s| ==> s[i] !in {'"', '\\', '\0', '\t', '\n', '\r'}
    ensures EscapeDebug(s) == s
    decreases |s|
  {
    if |s| > 0 {
      assert s[0] !in {'"', '\\', '\0', '\t', '\n', '\r'};
      EscapeDebugPlain(s[1..]);
      assert s == [s[0]] + s[1..];
    }
  }
}
