/** Strings as Python compares and splits them: `sorted` orders `str` values
    lexicographically by code point, and `str.split(sep)` cuts at every separator. */
module Strings {

  /** Python's `a < b` on strings: lexicographic by code point, a proper prefix first. */
  predicate StrLt(a: string, b: string)
    decreases |a|
  {
    if |a| == 0 then |b| > 0
    else if |b| == 0 then false
    else if a[0] != b[0] then a[0] < b[0]
    else StrLt(a[1..], b[1..])
  }

  predicate StrLe(a: string, b: string) {
    a == b || StrLt(a, b)
  }

  lemma {:induction false} StrLtIrreflexive(a: string)
    ensures !StrLt(a, a)
    decreases |a|
  {
    if |a| > 0 {
      StrLtIrreflexive(a[1..]);
    }
  }

  lemma {:induction false} StrLtAsymmetric(a: string, b: string)
    ensures !(StrLt(a, b) && StrLt(b, a))
    decreases |a|
  {
    if |a| > 0 && |b| > 0 && a[0] == b[0] {
      StrLtAsymmetric(a[1..], b[1..]);
    }
  }

  lemma {:induction false} StrLtTotal(a: string, b: string)
    ensures a == b || StrLt(a, b) || StrLt(b, a)
    decreases |a|
  {
    if |a| > 0 && |b| > 0 && a[0] == b[0] {
      StrLtTotal(a[1..], b[1..]);
      if a[1..] == b[1..] {
        assert a == [a[0]] + a[1..];
        assert b == [b[0]] + b[1..];
      }
    }
  }

  lemma {:induction false} StrLtTransitive(a: string, b: string, c: string)
    requires StrLt(a, b) && StrLt(b, c)
    ensures StrLt(a, c)
    decreases |a|
  {
    if |a| > 0 && a[0] == b[0] && b[0] == c[0] {
      StrLtTransitive(a[1..], b[1..], c[1..]);
    }
  }

  /** Ascending without repetition, the shape of `sorted(set_of_strings)`. */
  predicate StrictlySorted(s: seq<string>) {
    forall i, j :: 0 <= i < j < |s| ==> StrLt(s[i], s[j])
  }

  lemma StrictlySortedDistinct(s: seq<string>)
    requires StrictlySorted(s)
    ensures forall i, j :: 0 <= i < j < |s| ==> s[i] != s[j]
  {
    forall i, j | 0 <= i < j < |s|
      ensures s[i] != s[j]
    {
      StrLtIrreflexive(s[i]);
    }
  }

  predicate IsLeast(m: string, s: set<string>) {
    m in s && forall x {:trigger StrLe(m, x)} :: x in s ==> StrLe(m, x)
  }

  lemma LeastExists(s: set<string>)
    requires s != {}
    ensures exists m :: IsLeast(m, s)
    decreases |s|
  {
    var x :| x in s;
    if s == {x} {
      assert IsLeast(x, s);
    } else {
      LeastExists(s - {x});
      var m :| IsLeast(m, s - {x});
      StrLtTotal(m, x);
      if StrLt(x, m) {
        forall y | y in s
          ensures StrLe(x, y)
        {
          if y != x && y != m {
            assert y in s - {x};
            assert StrLe(m, y);
            StrLtTransitive(x, m, y);
          }
        }
        assert IsLeast(x, s);
      } else {
        assert StrLe(m, x);
        assert IsLeast(m, s);
      }
    }
  }

  lemma LeastIsUnique(s: set<string>)
    ensures forall m, n :: IsLeast(m, s) && IsLeast(n, s) ==> m == n
  {
    forall m, n | IsLeast(m, s) && IsLeast(n, s)
      ensures m == n
    {
      assert StrLe(m, n) && StrLe(n, m);
      StrLtAsymmetric(m, n);
    }
  }

  /** The smallest string of a non-empty set (Python's `min`). */
  function Least(s: set<string>): (m: string)
    requires s != {}
    ensures IsLeast(m, s)
  {
    LeastExists(s);
    LeastIsUnique(s);
    var m :| IsLeast(m, s);
    m
  }

  /** `sorted(s)` for a set of strings: its elements in ascending order. */
  function SortedOf(s: set<string>): (r: seq<string>)
    ensures |r| == |s|
    ensures forall x :: x in r <==> x in s
    ensures StrictlySorted(r)
    decreases |s|
  {
    if s == {} then []
    else
      var m := Least(s);
      var rest := SortedOf(s - {m});
      assert forall j :: 0 <= j < |rest| ==> StrLt(m, rest[j]) by {
        forall j | 0 <= j < |rest|
          ensures StrLt(m, rest[j])
        {
          assert rest[j] in s - {m};
          assert StrLe(m, rest[j]);
        }
      }
      [m] + rest
  }

  /** A strictly sorted list is determined by its elements. */
  lemma {:induction false} StrictlySortedUnique(a: seq<string>, b: seq<string>)
    requires StrictlySorted(a) && StrictlySorted(b)
    requires forall x :: x in a <==> x in b
    ensures a == b
    decreases |a|
  {
    if a != [] {
      assert a[0] in b;
    }
    if b != [] {
      assert b[0] in a;
    }
    if a != [] && b != [] {
      // a[0] and b[0] are both the least element of the common set
      if a[0] != b[0] {
        assert b[0] in a;
        var i :| 0 <= i < |a| && a[i] == b[0];
        assert a[0] in b;
        var j :| 0 <= j < |b| && b[j] == a[0];
        assert StrLt(a[0], a[i]) && StrLt(b[0], b[j]);
        StrLtAsymmetric(a[0], b[0]);
      }
      forall x
        ensures x in a[1..] <==> x in b[1..]
      {
        if x in a[1..] {
          var i :| 1 <= i < |a| && a[i] == x;
          assert StrLt(a[0], x);
          StrLtIrreflexive(x);
          assert x in b;
          var j :| 0 <= j < |b| && b[j] == x;
          assert j != 0;
        }
        if x in b[1..] {
          var j :| 1 <= j < |b| && b[j] == x;
          assert StrLt(b[0], x);
          StrLtIrreflexive(x);
          assert x in a;
          var i :| 0 <= i < |a| && a[i] == x;
          assert i != 0;
        }
      }
      StrictlySortedUnique(a[1..], b[1..]);
      assert a == [a[0]] + a[1..];
      assert b == [b[0]] + b[1..];
    }
  }

  /** `sorted` gives back a list that is already sorted and repetition-free. */
  lemma SortedOfSorted(xs: seq<string>)
    requires StrictlySorted(xs)
    ensures SortedOf(set x | x in xs) == xs
  {
    StrictlySortedUnique(SortedOf(set x | x in xs), xs);
  }

  /** Python's `s.split(sep)` with an explicit separator: never empty, and a
      separator at either end or two in a row give empty parts. */
  function Split(s: string, sep: char): (parts: seq<string>)
    ensures |parts| >= 1
    decreases |s|
  {
    if |s| == 0 then [""]
    else if s[0] == sep then [""] + Split(s[1..], sep)
    else
      var r := Split(s[1..], sep);
      [[s[0]] + r[0]] + r[1..]
  }

  /** `sep.join(parts)`. */
  function Join(parts: seq<string>, sep: char): string
    decreases |parts|
  {
    if |parts| == 0 then ""
    else if |parts| == 1 then parts[0]
    else parts[0] + [sep] + Join(parts[1..], sep)
  }

  /** Joining the parts of a split gives the string back, and no part holds the separator. */
  lemma JoinSplit(s: string, sep: char)
    ensures Join(Split(s, sep), sep) == s
    ensures forall p :: p in Split(s, sep) ==> sep !in p
  {
    JoinOfSplit(s, sep);
    SplitPartsFree(s, sep);
  }

  lemma {:induction false} JoinOfSplit(s: string, sep: char)
    ensures Join(Split(s, sep), sep) == s
    decreases |s|
  {
    if |s| > 0 {
      JoinOfSplit(s[1..], sep);
      var r := Split(s[1..], sep);
      if s[0] == sep {
        assert Split(s, sep) == [""] + r;
        assert s == [sep] + s[1..];
      } else {
        var parts := Split(s, sep);
        assert parts == [[s[0]] + r[0]] + r[1..];
        if |r| == 1 {
          assert s == [s[0]] + r[0];
        } else {
          assert Join(r, sep) == r[0] + [sep] + Join(r[1..], sep);
          assert parts[1..] == r[1..];
          assert s == [s[0]] + s[1..];
        }
      }
    }
  }

  lemma {:induction false} SplitPartsFree(s: string, sep: char)
    ensures forall p :: p in Split(s, sep) ==> sep !in p
    decreases |s|
  {
    if |s| > 0 {
      SplitPartsFree(s[1..], sep);
      var r := Split(s[1..], sep);
      if s[0] != sep {
        var parts := Split(s, sep);
        assert parts == [[s[0]] + r[0]] + r[1..];
        forall p | p in parts
          ensures sep !in p
        {
          if p != [s[0]] + r[0] {
            assert p in r[1..];
          } else {
            assert r[0] in r;
          }
        }
      }
    }
  }

  /** Splitting a join of separator-free parts gives the parts back. */
  lemma {:induction false} SplitJoin(parts: seq<string>, sep: char)
    requires |parts| >= 1
    requires forall p :: p in parts ==> sep !in p
    ensures Split(Join(parts, sep), sep) == parts
    decreases |parts|, |parts[0]|
  {
    var p := parts[0];
    if |parts| == 1 {
      SplitPlain(p, sep);
    } else if |p| == 0 {
      assert Join(parts, sep) == [sep] + Join(parts[1..], sep);
      SplitJoin(parts[1..], sep);
      assert parts == [""] + parts[1..];
    } else {
      var tail := [p[1..]] + parts[1..];
      assert tail[1..] == parts[1..];
      assert forall q :: q in tail ==> sep !in q by {
        forall q | q in tail
          ensures sep !in q
        {
          if q != p[1..] {
            assert q in parts[1..];
            assert q in parts;
          } else {
            assert p in parts;
          }
        }
      }
      SplitJoin(tail, sep);
      assert Join(parts, sep) == [p[0]] + Join(tail, sep);
      assert p[0] != sep by {
        assert p in parts;
      }
      var r := Split(Join(tail, sep), sep);
      assert Join(parts, sep)[1..] == Join(tail, sep);
      assert r == tail;
      assert [p[0]] + p[1..] == p;
    }
  }

  lemma {:induction false} SplitPlain(p: string, sep: char)
    requires sep !in p
    ensures Split(p, sep) == [p]
    decreases |p|
  {
    if |p| > 0 {
      SplitPlain(p[1..], sep);
      assert [p[0]] + p[1..] == p;
    }
  }

  /** The last separator of a join sits right before the last part. */
  lemma {:induction false} JoinLast(parts: seq<string>, sep: char)
    requires |parts| >= 2
    ensures Join(parts, sep) == Join(parts[..|parts| - 1], sep) + [sep] + parts[|parts| - 1]
    decreases |parts|
  {
    if |parts| > 2 {
      JoinLast(parts[1..], sep);
      assert parts[1..][..|parts[1..]| - 1] == parts[..|parts| - 1][1..];
    }
  }

  /** A string splits into more than one part exactly when it holds the separator;
      then it ends with the separator and the last part. */
  lemma SplitLast(s: string, sep: char)
    ensures sep in s <==> |Split(s, sep)| >= 2
    ensures sep in s ==> exists pre :: s == pre + [sep] + Split(s, sep)[|Split(s, sep)| - 1]
  {
    if |Split(s, sep)| == 1 {
      SplitSingle(s, sep);
    } else {
      SplitSeveral(s, sep);
    }
  }

  lemma SplitSingle(s: string, sep: char)
    requires |Split(s, sep)| == 1
    ensures sep !in s
  {
    var parts := Split(s, sep);
    JoinOfSplit(s, sep);
    SplitPartsFree(s, sep);
    assert parts[0] in parts;
  }

  lemma SplitSeveral(s: string, sep: char)
    requires |Split(s, sep)| >= 2
    ensures s == Join(Split(s, sep)[..|Split(s, sep)| - 1], sep) + [sep] + Split(s, sep)[|Split(s, sep)| - 1]
    ensures sep in s
  {
    var parts := Split(s, sep);
    JoinOfSplit(s, sep);
    JoinLast(parts, sep);
    var pre := Join(parts[..|parts| - 1], sep);
    assert s[|pre|] == sep;
  }

  /** `set(s.split(sep))`, e.g. the `frozenset` built from a comma-joined scenario string. */
  function SplitSet(s: string, sep: char): set<string> {
    set p | p in Split(s, sep)
  }

  // ---------------------------------------------------------------------------
  // Decimal numerals, `str(n)` for an `int`.

  function DigitChar(d: nat): (c: char)
    requires d < 10
    ensures '0' <= c <= '9'
  {
    (48 + d) as char
  }

  predicate IsDigits(s: string) {
    forall k :: 0 <= k < |s| ==> '0' <= s[k] <= '9'
  }

  /** The decimal numeral of a natural number: at least one digit and no leading zero. */
  function NatToString(n: nat): (s: string)
    ensures |s| >= 1 && IsDigits(s)
    ensures |s| > 1 ==> s[0] != '0'
    decreases n
  {
    if n < 10 then [DigitChar(n)] else NatToString(n / 10) + [DigitChar(n % 10)]
  }

  /** The number a string of decimal digits denotes. */
  function DigitsValue(s: string): nat
    requires IsDigits(s)
    decreases |s|
  {
    if s == [] then 0 else DigitsValue(s[..|s| - 1]) * 10 + (s[|s| - 1] as int - 48)
  }

  /** Reading back a numeral gives the number. */
  lemma {:induction false} NatToStringValue(n: nat)
    ensures DigitsValue(NatToString(n)) == n
    decreases n
  {
    if n >= 10 {
      NatToStringValue(n / 10);
      var s := NatToString(n);
      assert s[..|s| - 1] == NatToString(n / 10);
    }
  }

  /** Python's `str(i)`: a minus sign in front of the numeral of a negative number. */
  function IntToString(i: int): (s: string)
    ensures |s| >= 1
    ensures i < 0 <==> s[0] == '-'
  {
    if i < 0 then "-" + NatToString(-i) else NatToString(i)
  }

  lemma NatToStringInjective(x: nat, y: nat)
    requires NatToString(x) == NatToString(y)
    ensures x == y
  {
    NatToStringValue(x);
    NatToStringValue(y);
  }

  /** Distinct numbers print differently. */
  lemma IntToStringInjective(a: int, b: int)
    requires IntToString(a) == IntToString(b)
    ensures a == b
  {
    var s := IntToString(a);
    if a < 0 {
      assert b < 0;
      var t := s[1..];
      assert t == NatToString(-a);
      assert t == NatToString(-b);
      NatToStringInjective(-a, -b);
    } else {
      assert b >= 0;
      NatToStringInjective(a, b);
    }
  }


}
