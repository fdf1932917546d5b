/** String helpers shared by the indexer model: the behaviour of Python's
    `str.rfind`, of formatting an integer with an f-string, and a lemma about
    strings that end in a dash-free field. */
module TextUtil {

  /** `pat` occurs in `s` starting at index `i`. */
  predicate OccursAt(s: string, pat: string, i: int) {
    0 <= i && i + |pat| <= |s| && s[i..i + |pat|] == pat
  }

  /** Greatest index `j <= i` at which `pat` occurs in `s`, or -1. */
  function LastOccurrenceAtOrBelow(s: string, pat: string, i: int): (r: int)
    ensures r == -1 || (OccursAt(s, pat, r) && r <= i)
    ensures forall j {:trigger OccursAt(s, pat, j)} :: r < j <= i ==> !OccursAt(s, pat, j)
    decreases if i < 0 then 0 else i + 1
  {
    if i < 0 then -1
    else if OccursAt(s, pat, i) then i
    else LastOccurrenceAtOrBelow(s, pat, i - 1)
  }

  /** Python's `s.rfind(pat)`: the last index at which `pat` occurs, or -1. */
  function RFind(s: string, pat: string): (r: int)
    ensures r == -1 || OccursAt(s, pat, r)
    ensures forall j {:trigger OccursAt(s, pat, j)} :: r < j ==> !OccursAt(s, pat, j)
  {
    LastOccurrenceAtOrBelow(s, pat, |s| - |pat|)
  }

  /** An occurrence inside a slice is an occurrence in the whole string. */
  lemma OccursInSlice(s: string, a: nat, b: nat, pat: string, i: int)
    requires a <= b <= |s|
    requires OccursAt(s[a..b], pat, i)
    ensures OccursAt(s, pat, a + i)
  {
    assert i + |pat| <= b - a;
    var t := s[a..b];
    assert forall k | 0 <= k < |pat| :: pat[k] == t[i..i + |pat|][k] == t[i + k] == s[a + i..a + i + |pat|][k];
  }

  /** An occurrence at or after `a` is an occurrence in the suffix from `a`. */
  lemma OccursInSuffix(s: string, a: nat, pat: string, i: int)
    requires a <= i && OccursAt(s, pat, i)
    ensures OccursAt(s[a..], pat, i - a)
  {
    assert s[a..][i - a..i - a + |pat|] == s[i..i + |pat|];
  }

  /** An occurrence inside `[a, b)` is an occurrence in the slice `s[a..b]`. */
  lemma OccursInRange(s: string, a: nat, b: nat, pat: string, i: int)
    requires a <= i && i + |pat| <= b <= |s| && OccursAt(s, pat, i)
    ensures OccursAt(s[a..b], pat, i - a)
  {
    var t := s[a..b];
    forall k | 0 <= k < |pat| ensures t[i - a + k] == pat[k] {
      assert t[i - a + k] == s[i + k] == s[i..i + |pat|][k];
    }
    assert t[i - a..i - a + |pat|] == pat;
  }

  /** `s[a:].rfind(pat)` is `s.rfind(pat)` shifted by `a`, or -1 when the last
      occurrence starts before `a`. */
  lemma RFindInSuffix(s: string, a: nat, pat: string)
    requires a <= |s|
    ensures RFind(s[a..], pat) == if RFind(s, pat) >= a then RFind(s, pat) - a else -1
  {
    var r, q := RFind(s, pat), RFind(s[a..], pat);
    assert s[a..] == s[a..|s|];
    if q != -1 {
      OccursInSlice(s, a, |s|, pat, q);
    }
    if r >= a {
      OccursInSuffix(s, a, pat, r);
    }
  }

  function DigitChar(d: nat): (c: char)
    requires d < 10
    ensures '0' <= c <= '9'
  {
    (48 + d) as char
  }

  predicate IsDigit(c: char) { '0' <= c <= '9' }

  /** `f"{n}"` for a non-negative integer: its decimal digits, no leading zeros. */
  function NatToString(n: nat): (s: string)
    ensures |s| >= 1
    ensures forall k | 0 <= k < |s| :: IsDigit(s[k])
    decreases n
  {
    if n < 10 then [DigitChar(n)] else NatToString(n / 10) + [DigitChar(n % 10)]
  }

  /** `f"{i}"` for any integer. */
  function IntToString(i: int): (s: string)
    ensures |s| >= 1
    ensures forall k | 0 <= k < |s| :: IsDigit(s[k]) || (k == 0 && s[k] == '-')
    ensures (s[0] == '-') <==> i < 0
  {
    if i < 0 then "-" + NatToString(-i) else NatToString(i)
  }

  /** `int(s)` for a string of decimal digits. */
  function ParseNat(s: string): nat
    requires forall k | 0 <= k < |s| :: IsDigit(s[k])
  {
    if |s| == 0 then 0
    else ParseNat(s[..|s| - 1]) * 10 + DigitValue(s[|s| - 1])
  }

  function DigitValue(c: char): (d: nat)
    requires IsDigit(c)
    ensures d < 10
  {
    (c as int) - ('0' as int)
  }

  /** Parsing the decimal rendering gives the number back. */
  lemma {:induction false} ParseNatToString(n: nat)
    ensures ParseNat(NatToString(n)) == n
    decreases n
  {
    var s := NatToString(n);
    if n >= 10 {
      ParseNatToString(n / 10);
      assert s[..|s| - 1] == NatToString(n / 10);
    }
  }

  lemma NatToStringInjective(a: nat, b: nat)
    requires NatToString(a) == NatToString(b)
    ensures a == b
  {
    ParseNatToString(a);
    ParseNatToString(b);
  }

  /** Distinct integers render to distinct strings. */
  lemma IntToStringInjective(a: int, b: int)
    requires IntToString(a) == IntToString(b)
    ensures a == b
  {
    if a < 0 {
      assert IntToString(b)[1..] == NatToString(-a);
      NatToStringInjective(-a, -b);
    } else {
      NatToStringInjective(a, b);
    }
  }

  predicate DashFree(s: string) {
    forall k | 0 <= k < |s| :: s[k] != '-'
  }

  /** A string of the form `x + "-" + h` with a dash-free `h` splits in only
      one way: `h` is everything after the last dash. */
  lemma SplitAtLastDash(x1: string, h1: string, x2: string, h2: string)
    requires x1 + "-" + h1 == x2 + "-" + h2
    requires DashFree(h1) && DashFree(h2)
    ensures x1 == x2 && h1 == h2
  {
    var s := x1 + "-" + h1;
    if |h1| < |h2| {
      CharAfterDash(x2, h2, |x1|);
      assert false;
    } else if |h2| < |h1| {
      CharAfterDash(x1, h1, |x2|);
      assert false;
    }
    assert x1 == s[..|x1|];
    assert x2 == s[..|x2|];
    assert h1 == s[|x1| + 1..];
    assert h2 == s[|x2| + 1..];
  }

  /** Splitting `x + sep + h` at its last dash, for a `sep` that ends in a
      dash, recovers `x` and `h`. */
  lemma SplitAtLastDashAfter(x1: string, h1: string, x2: string, h2: string, sep: string)
    requires |sep| > 0 && sep[|sep| - 1] == '-'
    requires x1 + sep + h1 == x2 + sep + h2
    requires DashFree(h1) && DashFree(h2)
    ensures x1 == x2 && h1 == h2
  {
    var stem := sep[..|sep| - 1];
    assert sep == stem + "-";
    assert x1 + sep + h1 == (x1 + stem) + "-" + h1;
    assert x2 + sep + h2 == (x2 + stem) + "-" + h2;
    SplitAtLastDash(x1 + stem, h1, x2 + stem, h2);
    assert x1 == (x1 + stem)[..|x1|];
    assert x2 == (x2 + stem)[..|x2|];
  }

  lemma NatToStringDashFree(n: nat)
    ensures DashFree(NatToString(n))
  {
    var s := NatToString(n);
    assert forall k | 0 <= k < |s| :: IsDigit(s[k]);
  }

  lemma CharAfterDash(x: string, h: string, k: nat)
    requires |x| < k < |x| + 1 + |h|
    ensures (x + "-" + h)[|x|] == '-'
    ensures (x + "-" + h)[k] == h[k - |x| - 1]
  {
  }
}
