/**
 Text helpers shared by the scrapers and the URL builders: substring tests, the
 leftmost-match search a regular-expression `search` performs, and Python's
 decimal rendering of a non-negative `int` (`str(n)`, `f"{n}"`).
 */
module Text {
  import opened Py

  /** `pat` occurs in `s` starting at position `p`. */
  predicate StartsAt(s: string, p: nat, pat: string) {
    p + |pat| <= |s| && s[p..p + |pat|] == pat
  }

  /** Matching a concatenation is matching its parts one after the other. */
  lemma StartsAtConcat(s: string, p: nat, a: string, b: string)
    ensures StartsAt(s, p, a + b) <==> StartsAt(s, p, a) && StartsAt(s, p + |a|, b)
  {
    if StartsAt(s, p, a) && StartsAt(s, p + |a|, b) {
      assert s[p..p + |a + b|] == s[p..p + |a|] + s[p + |a|..p + |a| + |b|];
    }
    if StartsAt(s, p, a + b) {
      assert s[p..p + |a|] == (a + b)[..|a|];
      assert s[p + |a|..p + |a| + |b|] == (a + b)[|a|..];
    }
  }

  predicate IsDigit(c: char) {
    '0' <= c <= '9'
  }

  predicate AllDigits(s: string) {
    forall i | 0 <= i < |s| :: IsDigit(s[i])
  }

  /** The leftmost position in `[lo, hi]` where `f` matches, with what it matched:
      the order in which `re.search` tries start positions. */
  function FirstSome<T>(lo: nat, hi: nat, f: nat -> Option<T>): (r: Option<(nat, T)>)
    decreases hi + 1 - lo
    ensures r.Some? ==> lo <= r.value.0 <= hi && f(r.value.0) == Some(r.value.1)
    ensures r.Some? ==> forall k | lo <= k < r.value.0 :: f(k).None?
    ensures r.None? ==> forall k | lo <= k <= hi :: f(k).None?
  {
    if lo > hi then None
    else match f(lo)
      case Some(v) => Some((lo, v))
      case None => FirstSome(lo + 1, hi, f)
  }

  /** The character for a decimal digit. */
  function DigitChar(d: nat): (c: char)
    requires d < 10
    ensures IsDigit(c)
  {
    "0123456789"[d]
  }

  /** The digit a decimal character stands for. */
  function DigitValue(c: char): (d: nat)
    requires IsDigit(c)
    ensures d < 10
  {
    (c as int) - ('0' as int)
  }

  /** Python's `str(n)` for a non-negative integer: no sign, no leading zeros. */
  function Decimal(n: nat): (r: string)
    ensures 1 <= |r|
    ensures AllDigits(r)
  {
    if n < 10 then [DigitChar(n)] else Decimal(n / 10) + [DigitChar(n % 10)]
  }

  /** The number a string of decimal digits denotes: the reading `int(s)` performs. */
  function DecimalValue(s: string): (n: nat)
    requires AllDigits(s)
  {
    if |s| == 0 then 0 else 10 * DecimalValue(s[..|s| - 1]) + DigitValue(s[|s| - 1])
  }

  /** Reading back a rendered number gives the number: `int(str(n)) == n`. */
  lemma {:induction false} DecimalRoundTrip(n: nat)
    ensures DecimalValue(Decimal(n)) == n
  {
    if n >= 10 {
      var s := Decimal(n);
      assert s[..|s| - 1] == Decimal(n / 10);
      DecimalRoundTrip(n / 10);
    }
  }

  /** Distinct numbers render as distinct strings. */
  lemma DecimalInjective(a: nat, b: nat)
    requires Decimal(a) == Decimal(b)
    ensures a == b
  {
    DecimalRoundTrip(a);
    DecimalRoundTrip(b);
  }

  /** Two slash-separated pairs whose left parts hold no slash are equal only part by part. */
  lemma SplitAtSlash(a: string, b: string, c: string, d: string)
    requires '/' !in a && '/' !in c
    requires a + "/" + b == c + "/" + d
    ensures a == c && b == d
  {
    var s := a + "/" + b;
    // both |a| and |c| are the position of the first slash in s
    assert forall k | 0 <= k < |a| :: s[k] == a[k];
    assert forall k | 0 <= k < |c| :: s[k] == c[k];
    assert s[|a|] == '/' && s[|c|] == '/';
    assert a == s[..|a|] == c;
    assert b == s[|a| + 1..] == d;
  }
}
