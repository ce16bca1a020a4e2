/**
 String helpers with the meaning of the Python `str` operations the verifier uses:
 `in`, `startswith`, `endswith`, `strip`, `split`, `replace`, `isdigit` (ASCII digits only),
 slicing and `join`.
 */
module Strings {

  /** `s.startswith(p)` */
  predicate StartsWith(s: string, p: string) {
    |p| <= |s| && s[..|p|] == p
  }

  /** `s.endswith(p)` */
  predicate EndsWith(s: string, p: string) {
    |p| <= |s| && s[|s| - |p|..] == p
  }

  /** `t in s`: t occurs in s as a contiguous substring. */
  predicate Contains(s: string, t: string)
    decreases |s|
  {
    StartsWith(s, t) || (|s| > 0 && Contains(s[1..], t))
  }

  /** An occurrence of `t` at index `k` of `s`. */
  predicate OccursAt(s: string, t: string, k: int) {
    0 <= k && k + |t| <= |s| && s[k..k + |t|] == t
  }

  /** `Contains` means exactly that `t` occurs at some index of `s`. */
  lemma {:induction false} ContainsIffOccurs(s: string, t: string)
    ensures Contains(s, t) <==> exists k :: OccursAt(s, t, k)
    decreases |s|
  {
    if StartsWith(s, t) {
      assert s[0..|t|] == s[..|t|];
      assert OccursAt(s, t, 0);
    }
    if |s| > 0 {
      ContainsIffOccurs(s[1..], t);
      if exists k :: OccursAt(s[1..], t, k) {
        var k :| OccursAt(s[1..], t, k);
        assert OccursAt(s, t, k + 1);
      }
      if exists k :: OccursAt(s, t, k) {
        var k :| OccursAt(s, t, k);
        if k == 0 {
          assert s[..|t|] == s[k..k + |t|];
        } else {
          assert s[1..][k - 1..k - 1 + |t|] == s[k..k + |t|];
          assert OccursAt(s[1..], t, k - 1);
        }
      }
    } else {
      if exists k :: OccursAt(s, t, k) {
        var k :| OccursAt(s, t, k);
        assert |t| == 0;
      }
    }
  }

  /** A string that lacks some character of `t` cannot contain `t`. */
  lemma {:induction false} AbsentChar(s: string, t: string, c: char)
    requires c in t && c !in s
    ensures !Contains(s, t)
    decreases |s|
  {
    if |s| > 0 {
      assert forall j :: 0 <= j < |s| - 1 ==> s[1..][j] == s[j + 1];
      AbsentChar(s[1..], t, c);
    }
  }

  /** A string that never shows the two adjacent characters `t[j], t[j+1]` cannot contain `t`. */
  lemma AbsentPair(s: string, t: string, j: int)
    requires 0 <= j < |t| - 1
    requires forall k :: 0 <= k < |s| - 1 ==> !(s[k] == t[j] && s[k + 1] == t[j + 1])
    ensures !Contains(s, t)
  {
    ContainsIffOccurs(s, t);
  }

  /** A string that begins with `t` contains it. */
  lemma PrefixContains(s: string, t: string)
    requires StartsWith(s, t)
    ensures Contains(s, t)
  {
  }

  /** The characters Python's `str.isspace` accepts: these are what `strip()`, `split()`
      and the regular-expression class `\s` treat as whitespace. */
  predicate IsSpace(c: char) {
    c == ' ' || ('\t' <= c <= '\r') || ('\U{1c}' <= c <= '\U{1f}')
    || c == '\U{85}' || c == '\U{a0}' || c == '\U{1680}' || ('\U{2000}' <= c <= '\U{200a}')
    || c == '\U{2028}' || c == '\U{2029}' || c == '\U{202f}' || c == '\U{205f}' || c == '\U{3000}'
  }

  /** Index of the first non-whitespace character at or after `i` (or |s|). */
  function SkipSpace(s: string, i: nat): (r: nat)
    requires i <= |s|
    ensures i <= r <= |s|
    ensures forall k :: i <= k < r ==> IsSpace(s[k])
    ensures r == |s| || !IsSpace(s[r])
    decreases |s| - i
  {
    if i < |s| && IsSpace(s[i]) then SkipSpace(s, i + 1) else i
  }

  /** `s.lstrip()` */
  function TrimStart(s: string): (r: string)
    ensures |r| <= |s| && r == s[|s| - |r|..]
    ensures forall k :: 0 <= k < |s| - |r| ==> IsSpace(s[k])
    ensures r == [] || !IsSpace(r[0])
  {
    s[SkipSpace(s, 0)..]
  }

  /** `s.rstrip()` */
  function TrimEnd(s: string): (r: string)
    ensures |r| <= |s| && r == s[..|r|]
    ensures forall k :: |r| <= k < |s| ==> IsSpace(s[k])
    ensures r == [] || !IsSpace(r[|r| - 1])
    decreases |s|
  {
    if |s| > 0 && IsSpace(s[|s| - 1]) then TrimEnd(s[..|s| - 1]) else s
  }

  /** Index of the first character `strip()` keeps. */
  function StripStart(s: string): nat
    ensures StripStart(s) <= |s|
  {
    SkipSpace(s, 0)
  }

  /** `s.strip()`: the slice of `s` between its leading and trailing whitespace. */
  function Strip(s: string): (r: string)
    ensures StripStart(s) + |r| <= |s|
    ensures r == s[StripStart(s)..StripStart(s) + |r|]
    ensures forall k :: 0 <= k < StripStart(s) ==> IsSpace(s[k])
    ensures forall k :: StripStart(s) + |r| <= k < |s| ==> IsSpace(s[k])
    ensures r == [] || (!IsSpace(r[0]) && !IsSpace(r[|r| - 1]))
  {
    TrimEnd(s[StripStart(s)..])
  }

  /** A string made only of whitespace strips to the empty string, and conversely. */
  lemma StripEmptyIffBlank(s: string)
    ensures Strip(s) == [] <==> forall k :: 0 <= k < |s| ==> IsSpace(s[k])
  {
    var r := Strip(s);
    if r != [] {
      assert r[0] == s[StripStart(s)];
    }
  }

  /** `sep.join(xs)` */
  function JoinWith(xs: seq<string>, sep: string): string
  {
    if |xs| == 0 then "" else if |xs| == 1 then xs[0] else xs[0] + sep + JoinWith(xs[1..], sep)
  }

  /** `s.split(sep)` for a one-character separator: the pieces between separators, kept
      even when empty. */
  function Split(s: string, sep: char): (r: seq<string>)
    ensures |r| >= 1
    ensures forall i :: 0 <= i < |r| ==> sep !in r[i]
    decreases |s|
  {
    if |s| == 0 then [""]
    else if s[0] == sep then [""] + Split(s[1..], sep)
    else
      var rest := Split(s[1..], sep);
      [[s[0]] + rest[0]] + rest[1..]
  }

  /** A string without the separator is one piece. */
  lemma {:induction false} SplitNoSeparator(s: string, sep: char)
    requires sep !in s
    ensures Split(s, sep) == [s]
    decreases |s|
  {
    if |s| > 0 {
      SplitNoSeparator(s[1..], sep);
      assert s == [s[0]] + s[1..];
    }
  }

  /** Joining the pieces with the separator gives back the original string. */
  lemma {:induction false} SplitJoin(s: string, sep: char)
    ensures JoinWith(Split(s, sep), [sep]) == s
    decreases |s|
  {
    if |s| > 0 {
      SplitJoin(s[1..], sep);
      var rest := Split(s[1..], sep);
      if s[0] == sep {
        assert s == "" + [sep] + JoinWith(rest, [sep]);
      } else {
        assert s == [s[0]] + s[1..];
      }
    }
  }

  /** `s.split()` with no argument: the maximal runs of non-whitespace characters. */
  function Words(s: string): (r: seq<string>)
    ensures forall i :: 0 <= i < |r| ==> |r[i]| > 0
    ensures forall i, k :: 0 <= i < |r| && 0 <= k < |r[i]| ==> !IsSpace(r[i][k])
    ensures |r| <= |s|
    decreases |s|
  {
    var a := SkipSpace(s, 0);
    if a == |s| then []
    else
      var b := WordEnd(s, a);
      [s[a..b]] + Words(s[b..])
  }

  /** The number of word starts in `s`: characters that are not whitespace and follow
      whitespace (or, when `afterSpace` holds, the start of the text). An independent count
      of what `split()` returns. */
  function WordStarts(s: string, afterSpace: bool): nat
    decreases |s|
  {
    if |s| == 0 then 0
    else (if afterSpace && !IsSpace(s[0]) then 1 else 0) + WordStarts(s[1..], IsSpace(s[0]))
  }

  /** `split()` returns one word per word start: the words are the maximal non-whitespace
      runs, so `len(s.split())` counts them. */
  lemma {:induction false} WordsCount(s: string)
    ensures |Words(s)| == WordStarts(s, true)
    decreases |s|
  {
    var a := SkipSpace(s, 0);
    LeadingSpace(s, true, a);
    if a < |s| {
      var b := WordEnd(s, a);
      var w := s[a..];
      assert w[1..][b - a - 1..] == s[b..];
      LeadingWord(w[1..], b - a - 1);
      assert WordStarts(s[b..], false) == WordStarts(s[b..], true);
      WordsCount(s[b..]);
    }
  }

  /** Skipping `k` leading whitespace characters leaves the count unchanged. */
  lemma {:induction false} LeadingSpace(s: string, afterSpace: bool, k: nat)
    requires k <= |s| && forall j :: 0 <= j < k ==> IsSpace(s[j])
    ensures WordStarts(s, afterSpace) == WordStarts(s[k..], if k == 0 then afterSpace else true)
  {
    if k > 0 {
      assert s[1..][k - 1..] == s[k..];
      LeadingSpace(s[1..], true, k - 1);
    }
  }

  /** Inside a word, skipping `k` non-whitespace characters adds no word start. */
  lemma {:induction false} LeadingWord(s: string, k: nat)
    requires k <= |s| && forall j :: 0 <= j < k ==> !IsSpace(s[j])
    ensures WordStarts(s, false) == WordStarts(s[k..], false)
  {
    if k > 0 {
      assert s[1..][k - 1..] == s[k..];
      LeadingWord(s[1..], k - 1);
    }
  }

  /** Index just past the run of non-whitespace characters starting at `i`. */
  function WordEnd(s: string, i: nat): (r: nat)
    requires i <= |s|
    ensures i <= r <= |s|
    ensures forall k :: i <= k < r ==> !IsSpace(s[k])
    ensures r == |s| || IsSpace(s[r])
    decreases |s| - i
  {
    if i < |s| && !IsSpace(s[i]) then WordEnd(s, i + 1) else i
  }

  /** `s[:n]` for n >= 0 */
  function Take(s: string, n: nat): (r: string)
    ensures |r| == if n < |s| then n else |s|
    ensures StartsWith(s, r)
  {
    if n < |s| then s[..n] else s
  }

  predicate IsDigit(c: char) {
    '0' <= c <= '9'
  }

  /** `s.isdigit()` over the ASCII digits: non-empty and every character in `0`-`9`. Python
      also accepts the other Unicode digits, which this predicate rejects. */
  predicate IsDigits(s: string) {
    |s| > 0 && forall k :: 0 <= k < |s| ==> IsDigit(s[k])
  }

  /** `s.replace(p, "")` for a non-empty `p`: every occurrence found by a left-to-right scan
      is removed, and the scan resumes after the removed text. */
  function RemoveAll(s: string, p: string): (r: string)
    requires |p| > 0
    ensures |r| <= |s|
    ensures !Contains(s, p) ==> r == s
    decreases |s|
  {
    if |s| == 0 then ""
    else if StartsWith(s, p) then RemoveAll(s[|p|..], p)
    else [s[0]] + RemoveAll(s[1..], p)
  }

  /** A string of digits contains no occurrence of a pattern that has a non-digit character. */
  lemma DigitsAvoid(d: string, p: string, c: char)
    requires forall k :: 0 <= k < |d| ==> IsDigit(d[k])
    requires c in p && !IsDigit(c)
    ensures !Contains(d, p)
  {
    AbsentChar(d, p, c);
  }

  /** Removing a prefix pattern from "pattern + digits" leaves exactly the digits, provided
      the pattern has a character that is not a digit. */
  lemma RemovePrefixThenDigits(p: string, d: string, c: char)
    requires |p| > 0 && c in p && !IsDigit(c)
    requires IsDigits(d)
    ensures RemoveAll(p + d, p) == d
  {
    assert StartsWith(p + d, p);
    assert (p + d)[|p|..] == d;
    DigitsAvoid(d, p, c);
  }

  /** Decimal rendering of an integer, as `str(n)` gives it. */
  function IntToString(n: int): (r: string)
    ensures |r| > 0
    ensures n >= 0 ==> IsDigits(r)
    ensures n < 0 ==> r[0] == '-' && IsDigits(r[1..])
  {
    if n < 0 then
      var d := NatToString(-n);
      assert ("-" + d)[1..] == d;
      "-" + d
    else NatToString(n)
  }

  function NatToString(n: nat): (r: string)
    ensures IsDigits(r)
    decreases n
  {
    var d := [(('0' as int) + n % 10) as char];
    if n < 10 then d else NatToString(n / 10) + d
  }

  /** The value of a string of decimal digits. */
  function DigitsValue(s: string): nat
    requires forall k :: 0 <= k < |s| ==> IsDigit(s[k])
  {
    if |s| == 0 then 0
    else
      var c := s[|s| - 1];
      assert IsDigit(c);
      10 * DigitsValue(s[..|s| - 1]) + (c as int - '0' as int)
  }

  /** `NatToString` is inverted by reading the digits back. */
  lemma {:induction false} NatToStringRoundTrip(n: nat)
    ensures DigitsValue(NatToString(n)) == n
    decreases n
  {
    var d := [(('0' as int) + n % 10) as char];
    if n >= 10 {
      NatToStringRoundTrip(n / 10);
      var s := NatToString(n / 10) + d;
      assert s[..|s| - 1] == NatToString(n / 10);
    }
  }
}
