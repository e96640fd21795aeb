/**
 * The parts of Python's `str` that the core relies on: `isspace`, `strip()`,
 * `replace(old, "")`, `str(n)` for a natural number and `"".join`.
 */
module PyStrings {

  /** The code points Python's `str.isspace` accepts (Unicode bidirectional
      class WS, B or S, or category Zs), as inclusive ranges. */
  const SpaceRanges: seq<(int, int)> := [
    (0x09, 0x0D), (0x1C, 0x20), (0x85, 0x85), (0xA0, 0xA0), (0x1680, 0x1680),
    (0x2000, 0x200A), (0x2028, 0x2029), (0x202F, 0x202F), (0x205F, 0x205F), (0x3000, 0x3000)
  ]

  predicate InRanges(n: int, ranges: seq<(int, int)>) {
    ranges != [] && ((ranges[0].0 <= n <= ranges[0].1) || InRanges(n, ranges[1..]))
  }

  /** Python's `str.isspace` for one character. */
  predicate IsSpace(c: char) {
    InRanges(c as int, SpaceRanges)
  }

  lemma {:induction false} InRangesAt(n: int, ranges: seq<(int, int)>, i: int)
    requires 0 <= i < |ranges| && ranges[i].0 <= n <= ranges[i].1
    ensures InRanges(n, ranges)
    decreases i
  {
    if i > 0 {
      InRangesAt(n, ranges[1..], i - 1);
    }
  }

  lemma {:induction false} OutsideRanges(n: int, ranges: seq<(int, int)>)
    requires forall i :: 0 <= i < |ranges| ==> !(ranges[i].0 <= n <= ranges[i].1)
    ensures !InRanges(n, ranges)
    decreases |ranges|
  {
    if ranges != [] {
      assert !(ranges[0].0 <= n <= ranges[0].1);
      OutsideRanges(n, ranges[1..]);
    }
  }

  /** A character below the tab, or strictly between the highest space
      below 0x100 and the first space above it, is not whitespace. */
  lemma NotSpace(c: char)
    requires c as int < 0x09 || 0x21 <= c as int < 0x85 || 0x86 <= c as int < 0xA0
             || 0xA0 < c as int < 0x1680 || 0x3000 < c as int
    ensures !IsSpace(c)
  {
    OutsideRanges(c as int, SpaceRanges);
  }

  /** The blank and the newline are whitespace. */
  lemma BlankAndNewlineAreSpace()
    ensures IsSpace(' ') && IsSpace('\n')
  {
    InRangesAt(' ' as int, SpaceRanges, 1);
    InRangesAt('\n' as int, SpaceRanges, 0);
  }

  /** The fence character is not whitespace. */
  lemma BacktickIsNotSpace()
    ensures !IsSpace('`')
  {
    NotSpace('`');
  }

  /** The end of the run of whitespace that starts at `i`, not looking past `end`. */
  function SkipSpaces(s: string, i: nat, end: nat): (j: nat)
    requires i <= end <= |s|
    ensures i <= j <= end
    ensures forall k :: i <= k < j ==> IsSpace(s[k])
    ensures j < end ==> !IsSpace(s[j])
    decreases end - i
  {
    if i < end && IsSpace(s[i]) then SkipSpaces(s, i + 1, end) else i
  }

  /** The start of the run of whitespace that ends just before `end`. */
  function SkipSpacesBack(s: string, end: nat): (i: nat)
    requires end <= |s|
    ensures i <= end
    ensures forall k :: i <= k < end ==> IsSpace(s[k])
    ensures 0 < i ==> !IsSpace(s[i - 1])
  {
    if 0 < end && IsSpace(s[end - 1]) then SkipSpacesBack(s, end - 1) else end
  }

  /** `r` is `s[a..a + |r|]` and everything of `s` outside that slice is whitespace. */
  ghost predicate IsTrimOf(s: string, r: string, a: int) {
    0 <= a <= |s| - |r| && r == s[a..a + |r|]
    && (forall k :: 0 <= k < a ==> IsSpace(s[k]))
    && (forall k :: a + |r| <= k < |s| ==> IsSpace(s[k]))
  }

  /** `str.strip()`: the slice of `s` left after removing whitespace at both
      ends, so that it neither starts nor ends with whitespace. */
  function Strip(s: string): (r: string)
    ensures exists a :: IsTrimOf(s, r, a)
    ensures r != [] ==> !IsSpace(r[0]) && !IsSpace(r[|r| - 1])
  {
    var end := SkipSpacesBack(s, |s|);
    var start := SkipSpaces(s, 0, end);
    assert IsTrimOf(s, s[start..end], start);
    s[start..end]
  }

  /** A string that neither starts nor ends with whitespace is its own strip. */
  lemma StripTrimmed(s: string)
    requires s != [] ==> !IsSpace(s[0]) && !IsSpace(s[|s| - 1])
    ensures Strip(s) == s
  {
    assert s[0..|s|] == s;
  }

  lemma StripIdempotent(s: string)
    ensures Strip(Strip(s)) == Strip(s)
  {
    StripTrimmed(Strip(s));
  }

  predicate AllSpace(w: string) {
    forall k :: 0 <= k < |w| ==> IsSpace(w[k])
  }

  /** A whitespace run from `i` to `j` that stops at `end` or at a non-space is what `SkipSpaces` finds. */
  lemma {:induction false} SkipSpacesExact(s: string, i: nat, j: nat, end: nat)
    requires i <= j <= end <= |s|
    requires forall k :: i <= k < j ==> IsSpace(s[k])
    requires j < end ==> !IsSpace(s[j])
    ensures SkipSpaces(s, i, end) == j
    decreases j - i
  {
    if i < j {
      SkipSpacesExact(s, i + 1, j, end);
    }
  }

  lemma {:induction false} SkipSpacesBackExact(s: string, i: nat, end: nat)
    requires i <= end <= |s|
    requires forall k :: i <= k < end ==> IsSpace(s[k])
    requires 0 < i ==> !IsSpace(s[i - 1])
    ensures SkipSpacesBack(s, end) == i
    decreases end - i
  {
    if i < end {
      SkipSpacesBackExact(s, i, end - 1);
    }
  }

  /** Strip removes exactly the whitespace padding around a text that has none at its ends. */
  lemma StripPadded(w1: string, x: string, w2: string)
    requires AllSpace(w1) && AllSpace(w2)
    requires x != [] ==> !IsSpace(x[0]) && !IsSpace(x[|x| - 1])
    ensures Strip(w1 + x + w2) == x
  {
    var s := w1 + x + w2;
    if x == [] {
      assert forall k :: 0 <= k < |s| ==> IsSpace(s[k]) by {
        assert forall k :: 0 <= k < |w1| ==> s[k] == w1[k];
        assert forall k :: |w1| <= k < |s| ==> s[k] == w2[k - |w1|];
      }
      SkipSpacesBackExact(s, 0, |s|);
      assert Strip(s) == s[0..0];
    } else {
      var end := |w1| + |x|;
      assert s[end - 1] == x[|x| - 1];
      assert s[|w1|] == x[0];
      assert forall k :: end <= k < |s| ==> s[k] == w2[k - end];
      assert forall k :: 0 <= k < |w1| ==> s[k] == w1[k];
      SkipSpacesBackExact(s, end, |s|);
      SkipSpacesExact(s, 0, |w1|, end);
      assert s[|w1|..end] == x;
    }
  }

  predicate StartsWith(s: string, p: string) {
    |p| <= |s| && s[..|p|] == p
  }

  /** `p` occurs somewhere in `s` (Python's `p in s`). */
  predicate Occurs(s: string, p: string) {
    exists i :: 0 <= i <= |s| && StartsWith(s[i..], p)
  }

  /** `s.replace(pat, "")`: scan left to right and drop every non-overlapping occurrence of `pat`. */
  function RemoveAll(s: string, pat: string): (r: string)
    requires pat != []
    ensures |r| <= |s|
    decreases |s|
  {
    if StartsWith(s, pat) then RemoveAll(s[|pat|..], pat)
    else if s == [] then []
    else [s[0]] + RemoveAll(s[1..], pat)
  }

  /** An occurrence of `pat` at the head is removed whole. */
  lemma RemoveAllHead(pat: string, t: string)
    requires pat != []
    ensures RemoveAll(pat + t, pat) == RemoveAll(t, pat)
  {
    assert (pat + t)[..|pat|] == pat;
    assert (pat + t)[|pat|..] == t;
  }

  /** Text without the first character of `pat` passes through unchanged. */
  lemma {:induction false} RemoveAllSkips(s: string, t: string, pat: string)
    requires pat != [] && pat[0] !in s
    ensures RemoveAll(s + t, pat) == s + RemoveAll(t, pat)
  {
    if s == [] {
      assert s + t == t;
    } else {
      assert (s + t)[0] == s[0];
      assert (s + t)[1..] == s[1..] + t;
      RemoveAllSkips(s[1..], t, pat);
    }
  }

  /** A text shorter than `pat` cannot contain it. */
  lemma {:induction false} RemoveAllShort(s: string, pat: string)
    requires pat != [] && |s| < |pat|
    ensures RemoveAll(s, pat) == s
  {
    if s != [] {
      RemoveAllShort(s[1..], pat);
    }
  }

  const Backticks: string := "```"

  lemma RemoveBackticksHead(u: string)
    ensures RemoveAll(u, Backticks) != [] && RemoveAll(u, Backticks)[0] == '`'
      ==> u != [] && u[0] == '`'
  {
  }

  lemma RemoveBackticksHeadPair(t: string)
    ensures StartsWith(RemoveAll(t, Backticks), "``") ==> StartsWith(t, "``")
  {
    var r := RemoveAll(t, Backticks);
    if StartsWith(r, "``") && !StartsWith(t, Backticks) {
      assert t != [];
      assert r == [t[0]] + RemoveAll(t[1..], Backticks);
      RemoveBackticksHead(t[1..]);
      assert r[1] == RemoveAll(t[1..], Backticks)[0];
    }
  }

  /** Removing every "```" leaves no "```": removal never joins backticks into a new one. */
  lemma {:induction false} RemoveBackticksComplete(s: string)
    ensures !Occurs(RemoveAll(s, Backticks), Backticks)
    decreases |s|
  {
    if StartsWith(s, Backticks) {
      RemoveBackticksComplete(s[3..]);
    } else if s != [] {
      var r := RemoveAll(s, Backticks);
      var rest := RemoveAll(s[1..], Backticks);
      RemoveBackticksComplete(s[1..]);
      RemoveBackticksHeadPair(s[1..]);
      assert r == [s[0]] + rest;
      forall i | 0 <= i <= |r|
        ensures !StartsWith(r[i..], Backticks)
      {
        if i > 0 {
          assert r[i..] == rest[i - 1..];
        }
      }
    }
  }

  function DigitChar(d: nat): (c: char)
    requires d < 10
    ensures '0' <= c <= '9'
  {
    (('0' as int) + d) as char
  }

  /** `str(n)` for a natural number: decimal digits, most significant first. */
  function NatToDecimal(n: nat): (r: string)
    ensures r != []
    ensures forall k :: 0 <= k < |r| ==> '0' <= r[k] <= '9'
    decreases n
  {
    if n < 10 then [DigitChar(n)] else NatToDecimal(n / 10) + [DigitChar(n % 10)]
  }

  /** The number a string of decimal digits denotes (Python's `int(s)`). */
  function DecimalValue(s: string): nat
    requires forall k :: 0 <= k < |s| ==> '0' <= s[k] <= '9'
  {
    if s == [] then 0
    else DecimalValue(s[..|s| - 1]) * 10 + (s[|s| - 1] as int - '0' as int)
  }

  /** Reading back the decimal form gives the number, and there is no leading zero. */
  lemma {:induction false} DecimalRoundTrip(n: nat)
    ensures DecimalValue(NatToDecimal(n)) == n
    ensures NatToDecimal(n)[0] == '0' <==> n == 0
    decreases n
  {
    var r := NatToDecimal(n);
    if n >= 10 {
      DecimalRoundTrip(n / 10);
      assert r[..|r| - 1] == NatToDecimal(n / 10);
    }
  }

  /** `"".join(parts)` */
  function Join(parts: seq<string>): string {
    if parts == [] then [] else Join(parts[..|parts| - 1]) + parts[|parts| - 1]
  }
}
