/**
 * The JavaScript string operations the dashboard uses, on `seq<char>`:
 * `endsWith`, `includes`, `indexOf`, `replace` with a string pattern (first
 * occurrence only), `split(c)[1]`, `toUpperCase` (ASCII letters) and the
 * decimal rendering of integers in template literals.
 */
module Strings {
  import opened Wrappers

  /** `s.endsWith(suffix)`. */
  predicate EndsWith(s: string, suffix: string) {
    |suffix| <= |s| && s[|s| - |suffix|..] == suffix
  }

  /** `pat` occurs in `s` starting at index `i`. */
  predicate OccursAt(s: string, pat: string, i: nat) {
    i + |pat| <= |s| && s[i..i + |pat|] == pat
  }

  /** `s.indexOf(pat, k)`, with "not found" as `None`. */
  function IndexOfFrom(s: string, pat: string, k: nat): (r: Option<nat>)
    requires k <= |s|
    ensures r.Some? ==> k <= r.value && OccursAt(s, pat, r.value)
    ensures forall j :: k <= j && (r.None? || j < r.value) ==> !OccursAt(s, pat, j)
    decreases |s| - k
  {
    if OccursAt(s, pat, k) then Some(k)
    else if k == |s| then None
    else IndexOfFrom(s, pat, k + 1)
  }

  /** `s.indexOf(pat)`: the first occurrence of `pat` in `s`. */
  function IndexOf(s: string, pat: string): Option<nat> {
    IndexOfFrom(s, pat, 0)
  }

  /** `s.includes(pat)`. */
  predicate Includes(s: string, pat: string) {
    IndexOf(s, pat).Some?
  }

  /** `s.replace(pat, rep)` with a string pattern: only the first occurrence is replaced. */
  function ReplaceFirst(s: string, pat: string, rep: string): string {
    match IndexOf(s, pat)
    case None => s
    case Some(i) => s[..i] + rep + s[i + |pat|..]
  }

  /**
   * `s.split([c])[1]`: the text between the first `c` and the next `c` (or the
   * end of `s`); `None` (JavaScript's `undefined`) when `c` does not occur.
   */
  function SecondPiece(s: string, c: char): Option<string> {
    match IndexOf(s, [c])
    case None => None
    case Some(i) =>
      var rest := s[i + 1..];
      match IndexOf(rest, [c])
      case None => Some(rest)
      case Some(j) => Some(rest[..j])
  }

  lemma OccursAtChar(s: string, c: char, i: nat)
    ensures OccursAt(s, [c], i) <==> i < |s| && s[i] == c
  {
  }

  /** Searching for a character skips a prefix in which it does not occur. */
  lemma {:induction false} IndexOfCharAfter(a: string, b: string, c: char)
    requires c !in a
    ensures IndexOf(a + b, [c]) == match IndexOf(b, [c]) case None => None case Some(i) => Some(|a| + i)
  {
    var r, rb := IndexOf(a + b, [c]), IndexOf(b, [c]);
    forall j | 0 <= j < |a| ensures !OccursAt(a + b, [c], j) {
      OccursAtChar(a + b, c, j);
      assert (a + b)[j] == a[j];
    }
    forall j | 0 <= j < |b| ensures OccursAt(a + b, [c], |a| + j) <==> OccursAt(b, [c], j) {
      OccursAtChar(a + b, c, |a| + j);
      OccursAtChar(b, c, j);
    }
    OccursAtChar(a + b, c, |a + b|);
    if rb.Some? {
      OccursAtChar(b, c, rb.value);
      assert OccursAt(a + b, [c], |a| + rb.value);
    }
    if r.Some? {
      OccursAtChar(a + b, c, r.value);
      assert r.value >= |a|;
      assert OccursAt(b, [c], r.value - |a|);
    }
  }

  /** A character that does not occur in `s` is not found. */
  lemma IndexOfAbsentChar(s: string, c: char)
    requires c !in s
    ensures IndexOf(s, [c]) == None
  {
    IndexOfCharAfter(s, [], c);
    assert s + [] == s;
  }

  /**
   * Removing the first occurrence of `pat` from `base + pat` gives back
   * `base`, when `pat` does not occur in `base` and cannot overlap itself
   * (its first character does not recur in it).
   */
  lemma StripAppended(base: string, pat: string)
    requires |pat| > 0 && pat[0] !in pat[1..] && !Includes(base, pat)
    ensures ReplaceFirst(base + pat, pat, "") == base
  {
    var s := base + pat;
    assert s[|base|..] == pat;
    assert OccursAt(s, pat, |base|) by { assert s[|base|..|base| + |pat|] == s[|base|..]; }
    forall j | 0 <= j < |base| ensures !OccursAt(s, pat, j) {
      if j + |pat| <= |base| {
        assert s[j..j + |pat|] == base[j..j + |pat|];
        assert !OccursAt(base, pat, j);
      }
    }
    var r := IndexOf(s, pat);
    assert r == Some(|base|);
    assert s[..|base|] == base && s[|base| + |pat|..] == [];
  }

  /**
   * A separator that occurs in neither head splits a string in one way only:
   * if `a1 + b1 == a2 + b2` and both tails start with `c`, the heads are
   * equal and so are the tails.
   */
  lemma SplitAtSeparator(a1: string, b1: string, a2: string, b2: string, c: char)
    requires c !in a1 && c !in a2
    requires |b1| > 0 && b1[0] == c && |b2| > 0 && b2[0] == c
    requires a1 + b1 == a2 + b2
    ensures a1 == a2 && b1 == b2
  {
    var s := a1 + b1;
    assert s[|a1|] == c && s[|a2|] == c;
    assert forall j :: 0 <= j < |a1| ==> s[j] == a1[j] != c;
    assert forall j :: 0 <= j < |a2| ==> s[j] == a2[j] != c;
    assert |a1| == |a2|;
    assert a1 == s[..|a1|] == a2;
    assert b1 == s[|a1|..] == b2;
  }

  /** A common prefix cancels. */
  lemma PrefixCancel(p: string, x: string, y: string)
    requires p + x == p + y
    ensures x == y
  {
    assert x == (p + x)[|p|..];
  }

  /** The ASCII upper-case of `c`; other characters are unchanged. */
  function UpperChar(c: char): char {
    if 'a' <= c <= 'z' then (c as int - 32) as char else c
  }

  predicate IsLowerAscii(c: char) {
    'a' <= c <= 'z'
  }

  /** `s.toUpperCase()` on ASCII letters. */
  function ToUpper(s: string): (r: string)
    ensures |r| == |s|
    ensures forall i :: 0 <= i < |s| ==> r[i] == UpperChar(s[i])
  {
    if s == [] then [] else [UpperChar(s[0])] + ToUpper(s[1..])
  }

  /** Upper-casing leaves no lower-case ASCII letter and is idempotent. */
  lemma ToUpperNormalises(s: string)
    ensures forall i :: 0 <= i < |s| ==> !IsLowerAscii(ToUpper(s)[i])
    ensures ToUpper(ToUpper(s)) == ToUpper(s)
  {
  }

  function DigitChar(d: nat): (c: char)
    requires d < 10
    ensures '0' <= c <= '9'
    ensures c as int - '0' as int == d
  {
    (d + '0' as int) as char
  }

  /** The decimal rendering of `n`, as a template literal `${n}` writes it. */
  function NatToString(n: nat): (r: string)
    ensures |r| >= 1
    ensures forall i :: 0 <= i < |r| ==> '0' <= r[i] <= '9'
    ensures r[0] == '0' ==> n == 0
  {
    if n < 10 then [DigitChar(n)] else NatToString(n / 10) + [DigitChar(n % 10)]
  }

  /** The decimal rendering of `n`, with a leading `-` when negative. */
  function IntToString(n: int): string {
    if n < 0 then "-" + NatToString(-n) else NatToString(n)
  }

  /** The value of a string of decimal digits. */
  function DigitsValue(s: string): int
    requires forall i :: 0 <= i < |s| ==> '0' <= s[i] <= '9'
  {
    if s == [] then 0 else 10 * DigitsValue(s[..|s| - 1]) + (s[|s| - 1] as int - '0' as int)
  }

  /** Reading back the digits `NatToString` writes gives the number. */
  lemma {:induction false} NatToStringRoundTrip(n: nat)
    ensures DigitsValue(NatToString(n)) == n
  {
    var s := NatToString(n);
    if n >= 10 {
      NatToStringRoundTrip(n / 10);
      assert s[..|s| - 1] == NatToString(n / 10);
      assert s[|s| - 1] == DigitChar(n % 10);
      assert DigitsValue(s) == 10 * (n / 10) + n % 10;
    } else {
      assert s[..|s| - 1] == [];
    }
  }
}
