/**
 * The two string helpers the URL template logic relies on:
 * `replaceIn`, which replaces every occurrence of a pattern, and
 * `std::to_string` on unsigned integers.
 */
module Strings {

  /** True when `p` occurs in `s` starting at index `i`. */
  predicate OccursAt(s: string, p: string, i: nat)
  {
    i + |p| <= |s| && s[i..i + |p|] == p
  }

  /** True when `p` occurs somewhere in `s`. */
  predicate Contains(s: string, p: string)
  {
    exists i: nat :: i <= |s| && OccursAt(s, p, i)
  }

  /**
   * `replaceIn(s, p, r)`: scanning from the left, every occurrence of `p`
   * is replaced by `r` and the scan resumes after the inserted text, so the
   * replacement is never rescanned. An empty pattern leaves `s` alone.
   */
  function ReplaceAll(s: string, p: string, r: string): string
    decreases |s|
  {
    if p == [] || |s| < |p| then s
    else if s[..|p|] == p then r + ReplaceAll(s[|p|..], p, r)
    else [s[0]] + ReplaceAll(s[1..], p, r)
  }

  /** An occurrence in a suffix is an occurrence in the whole string. */
  lemma OccursInSuffix(s: string, p: string, d: nat, i: nat)
    requires d <= |s| && OccursAt(s[d..], p, i)
    ensures OccursAt(s, p, i + d)
  {
    assert s[d..][i..i + |p|] == s[i + d..i + d + |p|];
  }

  /** A string without the pattern comes back unchanged. */
  lemma {:induction false} ReplaceAllWithoutMatch(s: string, p: string, r: string)
    requires !Contains(s, p)
    ensures ReplaceAll(s, p, r) == s
    decreases |s|
  {
    if p != [] && |s| >= |p| {
      assert !OccursAt(s, p, 0);
      assert s[0..|p|] == s[..|p|];
      forall i: nat | OccursAt(s[1..], p, i)
        ensures false
      {
        OccursInSuffix(s, p, 1, i);
      }
      ReplaceAllWithoutMatch(s[1..], p, r);
      assert [s[0]] + s[1..] == s;
    }
  }

  /** No occurrence straddles the seam of `a` and `b`. */
  predicate NoStraddle(a: string, b: string, p: string)
  {
    forall i :: 0 <= i < |a| < i + |p| ==> !OccursAt(a + b, p, i)
  }

  /** Dropping a prefix of `a` keeps the seam free of occurrences. */
  lemma NoStraddleSuffix(a: string, b: string, p: string, d: nat)
    requires d <= |a| && NoStraddle(a, b, p)
    ensures (a + b)[d..] == a[d..] + b && NoStraddle(a[d..], b, p)
  {
    var s := a + b;
    assert s[d..] == a[d..] + b;
    forall i | 0 <= i < |a[d..]| < i + |p|
      ensures !OccursAt(a[d..] + b, p, i)
    {
      if OccursAt(a[d..] + b, p, i) {
        OccursInSuffix(s, p, d, i);
      }
    }
  }

  /** A string none of whose characters opens the pattern neither holds it nor starts one at the seam. */
  lemma HeadAbsent(a: string, b: string, p: string)
    requires p != [] && forall k :: 0 <= k < |a| ==> a[k] != p[0]
    ensures !Contains(a, p) && NoStraddle(a, b, p)
  {
    forall i: nat | i <= |a|
      ensures !OccursAt(a, p, i)
    {
      if i + |p| <= |a| {
        assert a[i..i + |p|][0] == a[i];
      }
    }
    forall i | 0 <= i < |a| < i + |p|
      ensures !OccursAt(a + b, p, i)
    {
      assert (a + b)[i] == a[i];
    }
  }

  /**
   * A string that ends in a character the pattern holds only as its own
   * last character starts no occurrence that runs past its end.
   */
  lemma ClosedAtEnd(a: string, b: string, p: string, c: char)
    requires a != [] && a[|a| - 1] == c
    requires forall k :: 0 <= k < |p| - 1 ==> p[k] != c
    ensures NoStraddle(a, b, p)
  {
    forall i | 0 <= i < |a| < i + |p|
      ensures !OccursAt(a + b, p, i)
    {
      assert (a + b)[|a| - 1] == c;
    }
  }

  /** One step of the scan: at an occurrence, the replacement and the rest. */
  lemma ReplaceAllAtMatch(s: string, p: string, r: string)
    requires p != [] && |p| <= |s| && s[..|p|] == p
    ensures ReplaceAll(s, p, r) == r + ReplaceAll(s[|p|..], p, r)
  {
  }

  /** One step of the scan: elsewhere, the first character and the rest. */
  lemma ReplaceAllPastChar(s: string, p: string, r: string)
    requires p != [] && |p| <= |s| && s[..|p|] != p
    ensures ReplaceAll(s, p, r) == [s[0]] + ReplaceAll(s[1..], p, r)
  {
  }

  /**
   * When no occurrence of the pattern straddles the seam between `a` and
   * `b`, replacing in `a + b` is replacing in each part.
   */
  lemma {:induction false} ReplaceAllAppend(a: string, b: string, p: string, r: string)
    requires p != [] && NoStraddle(a, b, p)
    ensures ReplaceAll(a + b, p, r) == ReplaceAll(a, p, r) + ReplaceAll(b, p, r)
    decreases |a|
  {
    var s := a + b;
    if a == [] {
      assert s == b;
    } else if |s| < |p| {
    } else if s[..|p|] == p {
      assert OccursAt(s, p, 0) by {
        assert s[0..|p|] == s[..|p|];
      }
      assert a[..|p|] == p;
      NoStraddleSuffix(a, b, p, |p|);
      ReplaceAllAppend(a[|p|..], b, p, r);
      ReplaceAllAtMatch(s, p, r);
      ReplaceAllAtMatch(a, p, r);
    } else {
      NoStraddleSuffix(a, b, p, 1);
      ReplaceAllAppend(a[1..], b, p, r);
      ReplaceAllPastChar(s, p, r);
      if |a| >= |p| {
        assert a[..|p|] == s[..|p|];
        ReplaceAllPastChar(a, p, r);
      } else {
        assert ReplaceAll(a, p, r) == a && ReplaceAll(a[1..], p, r) == a[1..];
        assert [a[0]] + a[1..] == a;
      }
    }
  }

  /**
   * Before the first character that belongs to the replacement text,
   * the result of ReplaceAll agrees with its input.
   */
  lemma {:induction false} PrefixBeforeReplacement(s: string, p: string, r: string, m: nat)
    requires r != []
    requires m <= |ReplaceAll(s, p, r)|
    requires forall k :: 0 <= k < m ==> ReplaceAll(s, p, r)[k] !in r
    ensures m <= |s| && ReplaceAll(s, p, r)[..m] == s[..m]
    decreases |s|
  {
    if p == [] || |s| < |p| {
    } else if s[..|p|] == p {
      assert ReplaceAll(s, p, r) == r + ReplaceAll(s[|p|..], p, r);
      assert ReplaceAll(s, p, r)[0] in r;
    } else if m > 0 {
      var rest := ReplaceAll(s[1..], p, r);
      assert ReplaceAll(s, p, r) == [s[0]] + rest;
      forall k | 0 <= k < m - 1
        ensures rest[k] !in r
      {
        assert rest[k] == ReplaceAll(s, p, r)[k + 1];
      }
      PrefixBeforeReplacement(s[1..], p, r, m - 1);
      assert ReplaceAll(s, p, r)[..m] == [s[0]] + rest[..m - 1];
      assert s[..m] == [s[0]] + s[1..][..m - 1];
    }
  }

  /** An occurrence of `q` in `r + rest` lies in `rest` when `r` cannot spell `q`. */
  lemma OccurrencePastReplacement(r: string, rest: string, q: string, i: nat)
    requires q != []
    requires forall k :: 0 <= k < |q| ==> q[k] !in r
    requires OccursAt(r + rest, q, i)
    ensures i >= |r| && OccursAt(rest, q, i - |r|)
  {
    var res := r + rest;
    assert res[i..i + |q|][0] == q[0];
    assert forall k :: 0 <= k < |r| ==> r[k] in r;
    assert rest[i - |r|..i - |r| + |q|] == res[i..i + |q|];
  }

  /**
   * When the replacement text shares no character with `q`, every
   * occurrence of `q` in the result was already an occurrence in the input,
   * and `q` is not the pattern that was replaced.
   */
  lemma {:induction false} OccurrenceAfterReplace(s: string, p: string, r: string, q: string, i: nat)
    requires r != [] && q != []
    requires forall k :: 0 <= k < |q| ==> q[k] !in r
    requires OccursAt(ReplaceAll(s, p, r), q, i)
    ensures Contains(s, q) && q != p
    decreases |s|
  {
    if p == [] || |s| < |p| {
      assert OccursAt(s, q, i);
    } else if s[..|p|] == p {
      var rest := ReplaceAll(s[|p|..], p, r);
      assert ReplaceAll(s, p, r) == r + rest;
      OccurrencePastReplacement(r, rest, q, i);
      OccurrenceAfterReplace(s[|p|..], p, r, q, i - |r|);
      var j: nat :| j <= |s[|p|..]| && OccursAt(s[|p|..], q, j);
      OccursInSuffix(s, q, |p|, j);
    } else if i == 0 {
      assert ReplaceAll(s, p, r)[..|q|] == q;
      PrefixBeforeReplacement(s, p, r, |q|);
      assert OccursAt(s, q, 0);
      assert s[..|q|] == q;
    } else {
      var rest := ReplaceAll(s[1..], p, r);
      assert ReplaceAll(s, p, r) == [s[0]] + rest;
      assert rest[i - 1..i - 1 + |q|] == ReplaceAll(s, p, r)[i..i + |q|];
      OccurrenceAfterReplace(s[1..], p, r, q, i - 1);
      var j: nat :| j <= |s[1..]| && OccursAt(s[1..], q, j);
      OccursInSuffix(s, q, 1, j);
    }
  }

  /** After ReplaceAll the pattern is gone, as long as the replacement cannot spell it. */
  lemma ReplaceAllRemovesPattern(s: string, p: string, r: string)
    requires r != [] && p != []
    requires forall k :: 0 <= k < |p| ==> p[k] !in r
    ensures !Contains(ReplaceAll(s, p, r), p)
  {
    forall i: nat | OccursAt(ReplaceAll(s, p, r), p, i)
      ensures false
    {
      OccurrenceAfterReplace(s, p, r, p, i);
    }
  }

  /** ReplaceAll introduces no new occurrence of a string the replacement cannot spell. */
  lemma ReplaceAllKeepsAbsent(s: string, p: string, r: string, q: string)
    requires r != [] && q != []
    requires forall k :: 0 <= k < |q| ==> q[k] !in r
    requires !Contains(s, q)
    ensures !Contains(ReplaceAll(s, p, r), q)
  {
    forall i: nat | OccursAt(ReplaceAll(s, p, r), q, i)
      ensures false
    {
      OccurrenceAfterReplace(s, p, r, q, i);
    }
  }

  predicate IsDigit(c: char)
  {
    '0' <= c <= '9'
  }

  predicate AllDigits(s: string)
  {
    forall k :: 0 <= k < |s| ==> IsDigit(s[k])
  }

  predicate NoDigits(s: string)
  {
    forall k :: 0 <= k < |s| ==> !IsDigit(s[k])
  }

  function Digit(d: nat): (c: char)
    requires d < 10
    ensures IsDigit(c) && c as int - '0' as int == d
  {
    ('0' as int + d) as char
  }

  /** `std::to_string` of an unsigned value: its decimal digits, most significant first. */
  function DecimalString(n: nat): (s: string)
    ensures s != [] && AllDigits(s)
    ensures n > 0 || |s| > 1 ==> s[0] != '0'
    ensures n < 10 <==> |s| == 1
    decreases n
  {
    if n < 10 then [Digit(n)] else DecimalString(n / 10) + [Digit(n % 10)]
  }

  /** The number a string of decimal digits denotes. */
  function DecimalValue(s: string): nat
    requires AllDigits(s)
  {
    if s == [] then 0 else DecimalValue(s[..|s| - 1]) * 10 + (s[|s| - 1] as int - '0' as int)
  }

  /** Reading the digits back gives the number that was printed. */
  lemma {:induction false} DecimalRoundTrip(n: nat)
    ensures DecimalValue(DecimalString(n)) == n
    decreases n
  {
    if n >= 10 {
      var s := DecimalString(n);
      assert s[..|s| - 1] == DecimalString(n / 10);
      DecimalRoundTrip(n / 10);
    }
  }

  /** A digit string shares no character with a string that has no digits. */
  lemma DigitsAvoid(q: string, r: string)
    requires NoDigits(q) && AllDigits(r)
    ensures forall k :: 0 <= k < |q| ==> q[k] !in r
  {
  }
}
