/** Character classes and small string functions shared by both pipelines:
    Python's notion of whitespace, decimal digits, longest runs, substring
    search, slicing and the decimal rendering of natural numbers. */
module Text {

  /** Python's whitespace set (str.isspace, str.split() with no separator and
      the regular-expression class \s on str patterns all use it). */
  predicate IsSpace(c: char) {
    var n := c as int;
    || 0x09 <= n <= 0x0D
    || 0x1C <= n <= 0x20
    || n == 0x85 || n == 0xA0 || n == 0x1680
    || 0x2000 <= n <= 0x200A
    || n == 0x2028 || n == 0x2029 || n == 0x202F || n == 0x205F || n == 0x3000
  }

  predicate NotSpace(c: char) {
    !IsSpace(c)
  }

  /** The regular-expression class \d, restricted to ASCII digits */
  predicate IsDigit(c: char) {
    '0' <= c <= '9'
  }

  predicate AllSatisfy(s: string, p: char -> bool) {
    forall i :: 0 <= i < |s| ==> p(s[i])
  }

  /** A non-empty run of non-whitespace characters: what \S+ matches */
  predicate IsWord(s: string) {
    |s| > 0 && AllSatisfy(s, NotSpace)
  }

  /** A non-empty run of ASCII digits: what \d+ matches */
  predicate IsNumeral(s: string) {
    |s| > 0 && AllSatisfy(s, IsDigit)
  }

  lemma AllSatisfyPrefix(s: string, n: nat, p: char -> bool)
    requires AllSatisfy(s, p) && n <= |s|
    ensures AllSatisfy(s[..n], p)
  {
    var t := s[..n];
    forall i | 0 <= i < |t| ensures p(t[i]) {
      assert t[i] == s[i];
    }
  }

  lemma AllSatisfyConcat(a: string, b: string, p: char -> bool)
    requires AllSatisfy(a, p) && AllSatisfy(b, p)
    ensures AllSatisfy(a + b, p)
  {
    forall i | |a| <= i < |a + b| ensures p((a + b)[i]) {
      assert (a + b)[i] == b[i - |a|];
    }
  }

  /** Length of the longest prefix of s all of whose characters satisfy p */
  function RunLen(s: string, p: char -> bool): (n: nat)
    ensures n <= |s|
    ensures AllSatisfy(s[..n], p)
    ensures n < |s| ==> !p(s[n])
  {
    if |s| > 0 && p(s[0]) then
      var n := 1 + RunLen(s[1..], p);
      assert forall i :: 1 <= i < n ==> s[..n][i] == s[1..][..n - 1][i - 1];
      n
    else 0
  }

  /** The longest run is determined by where p first fails: a prefix that
      satisfies p followed by a character that does not. */
  lemma {:induction false} RunLenOf(a: string, b: string, p: char -> bool)
    requires AllSatisfy(a, p)
    requires |b| == 0 || !p(b[0])
    ensures RunLen(a + b, p) == |a|
  {
    if |a| > 0 {
      assert (a + b)[1..] == a[1..] + b;
      RunLenOf(a[1..], b, p);
    } else {
      assert a + b == b;
    }
  }

  function DigitValue(c: char): nat
    requires IsDigit(c)
  {
    c as int - '0' as int
  }

  function DigitChar(d: nat): (c: char)
    requires d < 10
    ensures IsDigit(c) && DigitValue(c) == d
  {
    ('0' as int + d) as char
  }

  /** The value of a string of decimal digits, most significant first */
  function DecimalValue(s: string): nat
    requires AllSatisfy(s, IsDigit)
  {
    if |s| == 0 then 0
    else
      assert AllSatisfy(s[..|s| - 1], IsDigit);
      10 * DecimalValue(s[..|s| - 1]) + DigitValue(s[|s| - 1])
  }

  /** Python's str(n) for a non-negative int: the shortest decimal numeral,
      from which DecimalValue recovers n. */
  function NatToString(n: nat): (s: string)
    ensures IsNumeral(s)
    ensures DecimalValue(s) == n
    ensures |s| > 1 ==> s[0] != '0'
  {
    if n < 10 then [DigitChar(n)]
    else
      var front := NatToString(n / 10);
      var s := front + [DigitChar(n % 10)];
      assert s[..|s| - 1] == front;
      s
  }

  /** Python's `sub in s` for strings, as a left-to-right scan */
  predicate Contains(s: string, sub: string)
    decreases |s|
  {
    sub <= s || (|s| > 0 && Contains(s[1..], sub))
  }

  predicate OccursAt(s: string, sub: string, i: nat) {
    i + |sub| <= |s| && s[i..i + |sub|] == sub
  }

  /** The scan finds sub exactly when sub occurs at some position of s */
  lemma {:induction false} ContainsIffOccurs(s: string, sub: string)
    ensures Contains(s, sub) <==> exists i: nat :: OccursAt(s, sub, i)
    decreases |s|
  {
    if sub <= s {
      assert OccursAt(s, sub, 0);
    } else if |s| > 0 {
      ContainsIffOccurs(s[1..], sub);
      if Contains(s[1..], sub) {
        var i: nat :| OccursAt(s[1..], sub, i);
        assert s[i + 1..i + 1 + |sub|] == s[1..][i..i + |sub|];
        assert OccursAt(s, sub, i + 1);
      } else {
        forall i: nat | 0 < i
          ensures OccursAt(s, sub, i) ==> OccursAt(s[1..], sub, i - 1)
        {
          if i + |sub| <= |s| {
            assert s[1..][i - 1..i - 1 + |sub|] == s[i..i + |sub|];
          }
        }
        assert !OccursAt(s, sub, 0);
      }
    } else {
      assert forall i: nat :: OccursAt(s, sub, i) ==> |sub| == 0 && sub <= s;
    }
  }

  /** Python's slice s[:n] for n >= 0: the first min(n, |s|) elements */
  function Take<T>(s: seq<T>, n: nat): (r: seq<T>)
    ensures |r| == if n < |s| then n else |s|
    ensures r <= s
  {
    if n < |s| then s[..n] else s
  }
}
