/**
  The few `java.lang.String` operations the plugin relies on, over ASCII:
  `toLowerCase`, `equalsIgnoreCase`, `compareToIgnoreCase`, `replace` and
  `String.valueOf` of a non-negative `int`. Locale-dependent case mapping
  is not modelled: only 'A'..'Z' change case.
 */
module JavaString {

  predicate IsUpper(c: char) { 'A' <= c <= 'Z' }

  /** `Character.toLowerCase` restricted to ASCII. */
  function LowerChar(c: char): (r: char)
    ensures !IsUpper(r)
    ensures !IsUpper(c) ==> r == c
    ensures IsUpper(c) ==> r as int - c as int == 32
  {
    if IsUpper(c) then (c as int + 32) as char else c
  }

  /** `String.toLowerCase`: every character lower-cased, length kept. */
  function LowerString(s: string): (r: string)
    ensures |r| == |s|
    ensures forall i :: 0 <= i < |s| ==> r[i] == LowerChar(s[i])
  {
    if s == [] then [] else [LowerChar(s[0])] + LowerString(s[1..])
  }

  /** Lower-casing twice is lower-casing once. */
  lemma {:induction false} LowerStringIdempotent(s: string)
    ensures LowerString(LowerString(s)) == LowerString(s)
  {
    var l := LowerString(s);
    assert forall i :: 0 <= i < |l| ==> LowerString(l)[i] == l[i];
  }

  /** `String.equalsIgnoreCase`. */
  predicate EqualsIgnoreCase(a: string, b: string) {
    LowerString(a) == LowerString(b)
  }

  /**
    `String.compareToIgnoreCase`: the difference of the first pair of
    characters that differ after case folding, or the difference of the
    lengths when one string is a case-insensitive prefix of the other.
   */
  function CompareIgnoreCase(a: string, b: string): int
    decreases |a|
  {
    if |a| == 0 || |b| == 0 then |a| - |b|
    else if LowerChar(a[0]) != LowerChar(b[0]) then LowerChar(a[0]) as int - LowerChar(b[0]) as int
    else CompareIgnoreCase(a[1..], b[1..])
  }

  /** Swapping the operands negates the comparison. */
  lemma {:induction false} CompareAntisymmetric(a: string, b: string)
    ensures CompareIgnoreCase(a, b) == -CompareIgnoreCase(b, a)
    decreases |a|
  {
    if |a| != 0 && |b| != 0 && LowerChar(a[0]) == LowerChar(b[0]) {
      CompareAntisymmetric(a[1..], b[1..]);
    }
  }

  /** The comparison is a total relation: one of the two directions is `<= 0`. */
  lemma CompareTotal(a: string, b: string)
    ensures CompareIgnoreCase(a, b) <= 0 || CompareIgnoreCase(b, a) <= 0
  {
    CompareAntisymmetric(a, b);
  }

  /** `<= 0` under the comparison is transitive. */
  lemma {:induction false} CompareTransitive(a: string, b: string, c: string)
    requires CompareIgnoreCase(a, b) <= 0 && CompareIgnoreCase(b, c) <= 0
    ensures CompareIgnoreCase(a, c) <= 0
    decreases |a|
  {
    if |a| != 0 && |b| != 0 && |c| != 0 {
      if LowerChar(a[0]) == LowerChar(b[0]) && LowerChar(b[0]) == LowerChar(c[0]) {
        CompareTransitive(a[1..], b[1..], c[1..]);
      }
    }
  }

  /** The comparison is zero exactly when the strings are equal ignoring case. */
  lemma {:induction false} CompareZeroIffEqualsIgnoreCase(a: string, b: string)
    ensures CompareIgnoreCase(a, b) == 0 <==> EqualsIgnoreCase(a, b)
    decreases |a|
  {
    if |a| != 0 && |b| != 0 {
      assert LowerString(a) == [LowerChar(a[0])] + LowerString(a[1..]);
      assert LowerString(b) == [LowerChar(b[0])] + LowerString(b[1..]);
      if LowerChar(a[0]) == LowerChar(b[0]) {
        CompareZeroIffEqualsIgnoreCase(a[1..], b[1..]);
        if LowerString(a) == LowerString(b) {
          assert LowerString(a)[1..] == LowerString(a[1..]);
          assert LowerString(b)[1..] == LowerString(b[1..]);
        }
      } else {
        assert LowerString(a)[0] != LowerString(b)[0];
      }
    }
  }

  /** `s` begins with `p`. */
  predicate StartsWith(s: string, p: string) {
    |p| <= |s| && s[..|p|] == p
  }

  /** `t` occurs somewhere in `s` (`s.contains(t)`). */
  predicate Occurs(s: string, t: string) {
    exists i :: 0 <= i <= |s| && StartsWith(s[i..], t)
  }

  /**
    `s.replace(target, replacement)`: every occurrence of `target`, found
    left to right and not overlapping, is replaced. Java's behaviour for an
    empty target is not needed: every call uses a non-empty constant.
   */
  function Replace(s: string, target: string, replacement: string): string
    requires |target| > 0
    decreases |s|
  {
    if |s| < |target| then s
    else if StartsWith(s, target) then replacement + Replace(s[|target|..], target, replacement)
    else [s[0]] + Replace(s[1..], target, replacement)
  }

  /** Replacing a target that does not occur gives back the string unchanged. */
  lemma {:induction false} ReplaceAbsent(s: string, target: string, replacement: string)
    requires |target| > 0
    requires !Occurs(s, target)
    ensures Replace(s, target, replacement) == s
    decreases |s|
  {
    if |s| >= |target| {
      assert s[0..] == s;
      assert !StartsWith(s, target);
      forall i | 0 <= i <= |s[1..]|
        ensures !StartsWith(s[1..][i..], target)
      {
        assert s[1..][i..] == s[i + 1..];
      }
      ReplaceAbsent(s[1..], target, replacement);
    }
  }

  /** A target starting with a character the string lacks does not occur in it. */
  lemma AbsentFirstChar(s: string, target: string)
    requires |target| > 0 && target[0] !in s
    ensures !Occurs(s, target)
  {
    forall i | 0 <= i <= |s|
      ensures !StartsWith(s[i..], target)
    {
      if i < |s| {
        assert s[i..][0] == s[i];
      }
    }
  }

  /** Where the string does not start with the target, `replace` keeps its first character and goes on with the rest. */
  lemma ReplaceSkipFirst(s: string, target: string, replacement: string)
    requires |target| > 0 && |s| > 0 && !StartsWith(s, target)
    ensures Replace(s, target, replacement) == [s[0]] + Replace(s[1..], target, replacement)
  {
    if |s| < |target| {
      assert s == [s[0]] + s[1..];
    }
  }

  /** An occurrence at the front is replaced, and the scan resumes after it. */
  lemma ReplaceAtTarget(target: string, rest: string, replacement: string)
    requires |target| > 0
    ensures Replace(target + rest, target, replacement) == replacement + Replace(rest, target, replacement)
  {
    var s := target + rest;
    assert s[..|target|] == target;
    assert s[|target|..] == rest;
  }

  /**
    A prefix that lacks the target's first character holds no occurrence,
    so `replace` copies it and goes on with what follows.
   */
  lemma {:induction false} ReplacePlainPrefix(prefix: string, rest: string, target: string, replacement: string)
    requires |target| > 0 && target[0] !in prefix
    ensures Replace(prefix + rest, target, replacement) == prefix + Replace(rest, target, replacement)
    decreases |prefix|
  {
    if prefix == [] {
      assert prefix + rest == rest;
    } else {
      var s := prefix + rest;
      assert s[0] == prefix[0];
      ReplaceSkipFirst(s, target, replacement);
      assert s[1..] == prefix[1..] + rest;
      ReplacePlainPrefix(prefix[1..], rest, target, replacement);
      assert prefix == [prefix[0]] + prefix[1..];
    }
  }

  lemma AppendAssoc(a: string, b: string, c: string)
    ensures a + b + c == a + (b + c)
  {
  }

  /** A target after text lacking its first character is replaced, and the scan continues after it. */
  lemma ReplaceMatchAfterPlain(head: string, tail: string, rest: string, target: string, replacement: string)
    requires |target| > 0 && target[0] !in head && target[0] !in tail
    ensures Replace(head + target + tail + rest, target, replacement)
         == head + replacement + tail + Replace(rest, target, replacement)
  {
    var after := tail + rest;
    assert head + target + tail + rest == head + (target + after);
    ReplacePlainPrefix(head, target + after, target, replacement);
    ReplaceAtTarget(target, after, replacement);
    ReplacePlainPrefix(tail, rest, target, replacement);
    assert head + (replacement + (tail + Replace(rest, target, replacement)))
        == head + replacement + tail + Replace(rest, target, replacement);
  }

  function DigitChar(d: nat): (c: char)
    requires d < 10
    ensures '0' <= c <= '9'
  {
    ('0' as int + d) as char
  }

  predicate IsDigits(s: string) {
    forall i :: 0 <= i < |s| ==> '0' <= s[i] <= '9'
  }

  /** `String.valueOf(n)` for `n >= 0`: decimal digits, no leading zero. */
  function NatToString(n: nat): (r: string)
    ensures |r| > 0 && IsDigits(r)
    ensures r[0] == '0' ==> n == 0
  {
    if n < 10 then [DigitChar(n)] else NatToString(n / 10) + [DigitChar(n % 10)]
  }

  /** Reads a run of decimal digits back as a number. */
  function ParseNat(s: string): nat
    requires IsDigits(s)
  {
    if s == [] then 0 else ParseNat(s[..|s| - 1]) * 10 + (s[|s| - 1] as int - '0' as int)
  }

  /** `NatToString` loses nothing: parsing its digits gives the number back. */
  lemma {:induction false} ParseNatToString(n: nat)
    ensures ParseNat(NatToString(n)) == n
  {
    var s := NatToString(n);
    if n >= 10 {
      ParseNatToString(n / 10);
      assert s[..|s| - 1] == NatToString(n / 10);
    }
  }
}
