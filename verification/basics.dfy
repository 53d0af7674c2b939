/** Small shared vocabulary: optional values, sums, extrema, powers of two,
    least witnesses, and the string helpers (suffixes, substrings, decimal
    rendering) that the file-name and TeX-string conventions are built from. */
module Basics {

  datatype Option<T> = None | Some(value: T)

  /** Python's `sum` over a list of reals. */
  function Sum(s: seq<real>): real
    decreases |s|
  {
    if |s| == 0 then 0.0 else s[0] + Sum(s[1..])
  }

  lemma SumAppend(s: seq<real>, x: real)
    ensures Sum(s + [x]) == Sum(s) + x
    decreases |s|
  {
    if |s| > 0 {
      assert (s + [x])[1..] == s[1..] + [x];
      SumAppend(s[1..], x);
    }
  }

  /** Sum of the first i+1 elements, split off at the head. */
  lemma SumPrefixHead(s: seq<real>, i: nat)
    requires i < |s|
    ensures Sum(s[..i + 1]) == s[0] + Sum(s[1..][..i])
  {
    assert s[..i + 1][1..] == s[1..][..i];
  }

  lemma SumPrefixStep(s: seq<real>, i: nat)
    requires i < |s|
    ensures Sum(s[..i + 1]) == Sum(s[..i]) + s[i]
  {
    assert s[..i + 1] == s[..i] + [s[i]];
    SumAppend(s[..i], s[i]);
  }

  function Max(a: real, b: real): real { if a >= b then a else b }
  function Min(a: real, b: real): real { if a <= b then a else b }
  function Abs(a: real): real { if a < 0.0 then -a else a }

  /** Python's `max` over a non-empty list. */
  function MaxOf(s: seq<real>): (r: real)
    requires |s| > 0
    ensures r in s
    ensures forall i :: 0 <= i < |s| ==> s[i] <= r
    decreases |s|
  {
    if |s| == 1 then s[0] else Max(s[0], MaxOf(s[1..]))
  }

  /** Python's `min` over a non-empty list. */
  function MinOf(s: seq<real>): (r: real)
    requires |s| > 0
    ensures r in s
    ensures forall i :: 0 <= i < |s| ==> r <= s[i]
    decreases |s|
  {
    if |s| == 1 then s[0] else Min(s[0], MinOf(s[1..]))
  }

  /** x differs from target by at most tol. */
  predicate Within(x: real, target: real, tol: real)
  {
    Abs(x - target) <= tol
  }

  function Pow2(n: nat): (r: real)
    ensures r >= 1.0
  {
    if n == 0 then 1.0 else 2.0 * Pow2(n - 1)
  }

  /** The least natural number satisfying `p`, given that one exists. */
  ghost function Least(p: nat -> bool): (k: nat)
    requires exists j: nat :: p(j)
    ensures p(k)
    ensures forall i: nat :: i < k ==> !p(i)
  {
    var j: nat :| p(j);
    LeastExists(p, j);
    var k: nat :| p(k) && forall i: nat :: i < k ==> !p(i);
    k
  }

  lemma LeastExists(p: nat -> bool, j: nat)
    requires p(j)
    ensures exists k: nat :: p(k) && forall i: nat :: i < k ==> !p(i)
    decreases j
  {
    if exists i: nat :: i < j && p(i) {
      var i: nat :| i < j && p(i);
      LeastExists(p, i);
    }
  }

  predicate StartsWith(s: string, prefix: string)
  {
    |prefix| <= |s| && s[..|prefix|] == prefix
  }

  predicate EndsWith(s: string, suffix: string)
  {
    |suffix| <= |s| && s[|s| - |suffix|..] == suffix
  }

  /** `key` occurs in `s` starting at index i. */
  predicate OccursAt(key: string, s: string, i: int)
  {
    0 <= i && i + |key| <= |s| && s[i..i + |key|] == key
  }

  /** Python's `key in name` for two strings. */
  predicate IsSubstring(key: string, s: string)
  {
    exists i :: 0 <= i <= |s| && OccursAt(key, s, i)
  }

  /** A string whose first character never occurs in `s` is not a substring of it. */
  lemma NotSubstringByFirstChar(key: string, s: string)
    requires |key| > 0 && key[0] !in s
    ensures !IsSubstring(key, s)
  {
    forall i | 0 <= i && i + |key| <= |s|
      ensures !OccursAt(key, s, i)
    {
      assert s[i..i + |key|][0] == s[i];
    }
  }

  /** The character of decimal digit d. */
  function DigitChar(d: nat): (c: char)
    requires d < 10
    ensures '0' <= c <= '9'
  {
    (48 + d) as char
  }

  /** Decimal rendering of a natural number, as Python's `str`. */
  function NatToString(n: nat): (r: string)
    ensures |r| > 0
    ensures forall i :: 0 <= i < |r| ==> '0' <= r[i] <= '9'
    decreases n
  {
    if n < 10 then [DigitChar(n)] else NatToString(n / 10) + [DigitChar(n % 10)]
  }

  /** Decimal rendering of an integer, with a leading '-' for negatives. */
  function IntToString(i: int): (r: string)
    ensures |r| > 0
    ensures r[0] == '-' <==> i < 0
  {
    if i < 0 then "-" + NatToString(-i) else NatToString(i)
  }

  /** One character exactly for the one-digit numbers. */
  lemma NatToStringLength(n: nat)
    ensures |NatToString(n)| == 1 <==> n < 10
  {
  }

  /** Distinct numbers have distinct decimal renderings. */
  lemma {:induction false} NatToStringInjective(a: nat, b: nat)
    requires NatToString(a) == NatToString(b)
    ensures a == b
    decreases a
  {
    NatToStringLength(a);
    NatToStringLength(b);
    if a >= 10 {
      var sa, sb := NatToString(a / 10), NatToString(b / 10);
      assert NatToString(a) == sa + [DigitChar(a % 10)];
      assert NatToString(b) == sb + [DigitChar(b % 10)];
      assert sa == NatToString(a)[..|sa|] == NatToString(b)[..|sb|] == sb;
      NatToStringInjective(a / 10, b / 10);
    }
  }

  /** Distinct integers have distinct renderings: the sign shows in the first character. */
  lemma IntToStringInjective(a: int, b: int)
    requires IntToString(a) == IntToString(b)
    ensures a == b
  {
    if a < 0 {
      assert NatToString(-a) == IntToString(a)[1..] == IntToString(b)[1..] == NatToString(-b);
      NatToStringInjective(-a, -b);
    } else {
      NatToStringInjective(a, b);
    }
  }

  lemma MinusOneString()
    ensures IntToString(-1) == "-1"
  {
  }

  lemma AppendAssoc<T>(a: seq<T>, b: seq<T>, c: seq<T>)
    ensures a + b + c == a + (b + c)
  {
  }

  /** Equal tails cancel. */
  lemma AppendCancel<T>(a: seq<T>, b: seq<T>, t: seq<T>)
    requires a + t == b + t
    ensures a == b
  {
    assert a == (a + t)[..|a|];
    assert b == (b + t)[..|b|];
  }

  lemma StartsWithAppend<T>(a: seq<T>, b: seq<T>, prefix: seq<T>)
    requires |prefix| <= |a| && a[..|prefix|] == prefix
    ensures |prefix| <= |a + b| && (a + b)[..|prefix|] == prefix
  {
    assert (a + b)[..|prefix|] == a[..|prefix|];
  }

  lemma EndsWithPrepend<T>(a: seq<T>, b: seq<T>, suffix: seq<T>)
    requires |suffix| <= |b| && b[|b| - |suffix|..] == suffix
    ensures |suffix| <= |a + b| && (a + b)[|a + b| - |suffix|..] == suffix
  {
    assert (a + b)[|a + b| - |suffix|..] == b[|b| - |suffix|..];
  }

  /** `t` occurs right after `s` in `s + t`. */
  lemma OccursAfter(s: string, t: string)
    ensures OccursAt(t, s + t, |s|)
  {
    assert (s + t)[|s|..|s| + |t|] == t;
  }

  /** An occurrence stays an occurrence when text is appended. */
  lemma OccursInLonger(key: string, s: string, t: string, i: int)
    requires OccursAt(key, s, i)
    ensures OccursAt(key, s + t, i)
  {
    assert (s + t)[i..i + |key|] == s[i..i + |key|];
  }
}
