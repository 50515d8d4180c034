/**
 * The few Python `str` operations the core relies on, on `seq<char>`:
 * `isspace`, `strip`, `split(sep)`, `replace(c, "")`, the substring test `in`
 * and the decimal rendering of a non-negative `int` inside an f-string.
 *
 * The recursive definitions walk an index over the string rather than
 * slicing it, so that unfolding them creates no new sequences.
 */
module Strings {

  /** Python's `str.isspace()` for a single code point. */
  predicate IsSpace(c: char) {
    var n := c as int;
    n == 0x20 || 0x09 <= n <= 0x0D || 0x1C <= n <= 0x1F || n == 0x85 || n == 0xA0
    || n == 0x1680 || 0x2000 <= n <= 0x200A || n == 0x2028 || n == 0x2029
    || n == 0x202F || n == 0x205F || n == 0x3000
  }

  predicate AllSpace(s: string) {
    forall i :: 0 <= i < |s| ==> IsSpace(s[i])
  }

  /** Neither end of `s` is whitespace. */
  predicate IsTrimmed(s: string) {
    s == [] || (!IsSpace(s[0]) && !IsSpace(s[|s| - 1]))
  }

  // ---------------------------------------------------------------- strip

  /** The first index at or after `i` that does not hold whitespace (`|s|` if none). */
  function SkipSpace(s: string, i: nat): (j: nat)
    requires i <= |s|
    ensures i <= j <= |s|
    decreases |s| - i
  {
    if i < |s| && IsSpace(s[i]) then SkipSpace(s, i + 1) else i
  }

  /** `SkipSpace` passes over whitespace only, and stops at the first other character. */
  lemma {:induction false} SkipSpaceSkips(s: string, i: nat)
    requires i <= |s|
    ensures forall k :: i <= k < SkipSpace(s, i) ==> IsSpace(s[k])
    ensures SkipSpace(s, i) == |s| || !IsSpace(s[SkipSpace(s, i)])
    decreases |s| - i
  {
    if i < |s| && IsSpace(s[i]) {
      SkipSpaceSkips(s, i + 1);
    }
  }

  /** The end of `s[lo..j]` once its trailing whitespace is dropped. */
  function SkipSpaceBack(s: string, lo: nat, j: nat): (e: nat)
    requires lo <= j <= |s|
    ensures lo <= e <= j
    decreases j
  {
    if lo < j && IsSpace(s[j - 1]) then SkipSpaceBack(s, lo, j - 1) else j
  }

  /** `SkipSpaceBack` passes back over whitespace only, and stops after the last other character. */
  lemma {:induction false} SkipSpaceBackSkips(s: string, lo: nat, j: nat)
    requires lo <= j <= |s|
    ensures forall k :: SkipSpaceBack(s, lo, j) <= k < j ==> IsSpace(s[k])
    ensures SkipSpaceBack(s, lo, j) == lo || !IsSpace(s[SkipSpaceBack(s, lo, j) - 1])
    decreases j
  {
    if lo < j && IsSpace(s[j - 1]) {
      SkipSpaceBackSkips(s, lo, j - 1);
    }
  }

  /**
   * `r` is the infix of `s` starting at offset `i`, and everything of `s`
   * before and after it is whitespace.
   */
  predicate IsInfixBetweenSpace(s: string, r: string, i: int) {
    0 <= i && i + |r| <= |s| && r == s[i..i + |r|] && AllSpace(s[..i]) && AllSpace(s[i + |r|..])
  }

  /**
   * `s.strip()`: the infix of `s` between its leading and its trailing
   * whitespace. The result is trimmed, and it is empty exactly when `s` is
   * empty or whitespace only.
   */
  function Strip(s: string): string {
    var i := SkipSpace(s, 0);
    s[i..SkipSpaceBack(s, i, |s|)]
  }

  /**
   * The stripped string is trimmed, it is what lies between whitespace at
   * both ends of `s`, and it is empty exactly when `s` is all whitespace.
   */
  lemma StripSpec(s: string)
    ensures IsTrimmed(Strip(s))
    ensures IsInfixBetweenSpace(s, Strip(s), SkipSpace(s, 0))
    ensures Strip(s) == [] <==> AllSpace(s)
  {
    var i := SkipSpace(s, 0);
    SkipSpaceSkips(s, 0);
    SkipSpaceBackSkips(s, i, |s|);
    StripBounds(s, i, SkipSpaceBack(s, i, |s|));
  }

  /** The facts `Strip` promises, from those of `SkipSpace` and `SkipSpaceBack`. */
  lemma StripBounds(s: string, i: nat, e: nat)
    requires i <= e <= |s|
    requires forall k :: 0 <= k < i ==> IsSpace(s[k])
    requires i == |s| || !IsSpace(s[i])
    requires forall k :: e <= k < |s| ==> IsSpace(s[k])
    requires e == i || !IsSpace(s[e - 1])
    ensures IsTrimmed(s[i..e])
    ensures IsInfixBetweenSpace(s, s[i..e], i)
    ensures s[i..e] == [] <==> AllSpace(s)
  {
    if i < e {
      assert s[i..e][0] == s[i];
      assert s[i..e][e - i - 1] == s[e - 1];
    }
    assert forall k :: 0 <= k < |s[..i]| ==> s[..i][k] == s[k];
    assert forall k :: 0 <= k < |s[e..]| ==> s[e..][k] == s[e + k];
  }

  // ---------------------------------------------------------------- split

  /**
   * `s[..i].split(sep)` for a one-character separator: the pieces between
   * consecutive separators, always at least one (`"".split("\n") == [""]`).
   */
  function SplitUpTo(s: string, sep: char, i: nat): (r: seq<string>)
    requires i <= |s|
    ensures |r| >= 1
    decreases i
  {
    if i == 0 then [[]]
    else
      var r := SplitUpTo(s, sep, i - 1);
      if s[i - 1] == sep then r + [[]]
      else r[..|r| - 1] + [r[|r| - 1] + [s[i - 1]]]
  }

  /** `s.split(sep)`. */
  function Split(s: string, sep: char): (r: seq<string>)
    ensures |r| >= 1
  {
    SplitUpTo(s, sep, |s|)
  }

  /** No piece of a split holds the separator. */
  lemma {:induction false} SplitPiecesSepFree(s: string, sep: char, i: nat)
    requires i <= |s|
    ensures forall k :: 0 <= k < |SplitUpTo(s, sep, i)| ==> sep !in SplitUpTo(s, sep, i)[k]
    decreases i
  {
    if i > 0 {
      SplitPiecesSepFree(s, sep, i - 1);
      var r := SplitUpTo(s, sep, i - 1);
      if s[i - 1] != sep {
        assert forall k :: 0 <= k < |r| - 1 ==> r[..|r| - 1][k] == r[k];
      }
    }
  }

  /** `sep.join(parts)`. */
  function Join(parts: seq<string>, sep: char): string
    requires |parts| >= 1
    decreases |parts|
  {
    if |parts| == 1 then parts[0] else Join(parts[..|parts| - 1], sep) + [sep] + parts[|parts| - 1]
  }

  /** Appending a character to the last part appends it to the join. */
  lemma JoinExtendLast(parts: seq<string>, sep: char, c: char)
    requires |parts| >= 1
    ensures Join(parts[..|parts| - 1] + [parts[|parts| - 1] + [c]], sep) == Join(parts, sep) + [c]
  {
    var q := parts[..|parts| - 1] + [parts[|parts| - 1] + [c]];
    assert q[..|q| - 1] == parts[..|parts| - 1];
  }

  /** Joining the pieces of a split with the separator gives back the string. */
  lemma {:induction false} JoinSplitUpTo(s: string, sep: char, i: nat)
    requires i <= |s|
    ensures Join(SplitUpTo(s, sep, i), sep) == s[..i]
    decreases i
  {
    if i > 0 {
      var r := SplitUpTo(s, sep, i - 1);
      JoinSplitUpTo(s, sep, i - 1);
      assert s[..i] == s[..i - 1] + [s[i - 1]];
      if s[i - 1] == sep {
        assert (r + [[]])[..|r|] == r;
      } else {
        JoinExtendLast(r, sep, s[i - 1]);
      }
    }
  }

  lemma JoinSplit(s: string, sep: char)
    ensures Join(Split(s, sep), sep) == s
  {
    JoinSplitUpTo(s, sep, |s|);
    assert s[..|s|] == s;
  }

  /** A split of a prefix depends on nothing past that prefix. */
  lemma {:induction false} SplitUpToPrefix(s: string, t: string, sep: char, i: nat)
    requires i <= |s| && i <= |t| && s[..i] == t[..i]
    ensures SplitUpTo(s, sep, i) == SplitUpTo(t, sep, i)
    decreases i
  {
    if i > 0 {
      assert s[i - 1] == s[..i][i - 1] == t[..i][i - 1] == t[i - 1];
      assert s[..i - 1] == s[..i][..i - 1];
      assert t[..i - 1] == t[..i][..i - 1];
      SplitUpToPrefix(s, t, sep, i - 1);
    }
  }

  /** After a separator at `p`, the split grows by the separator-free text that follows it. */
  lemma {:induction false} SplitAfterSep(s: string, sep: char, p: nat, m: nat)
    requires p + m < |s| && s[p] == sep && sep !in s[p + 1..p + 1 + m]
    ensures SplitUpTo(s, sep, p + 1 + m) == SplitUpTo(s, sep, p) + [s[p + 1..p + 1 + m]]
    decreases m
  {
    if m == 0 {
      assert s[p + 1..p + 1] == [];
    } else {
      var piece := s[p + 1..p + m];
      assert s[p + 1..p + 1 + m] == piece + [s[p + m]];
      SplitAfterSep(s, sep, p, m - 1);
      var r := SplitUpTo(s, sep, p + m);
      assert r == SplitUpTo(s, sep, p) + [piece];
      assert r[..|r| - 1] == SplitUpTo(s, sep, p);
      assert r[|r| - 1] == piece;
    }
  }

  /** Splitting a separator-free prefix gives that prefix alone. */
  lemma {:induction false} SplitNoSep(s: string, sep: char, i: nat)
    requires i <= |s|
    requires forall k :: 0 <= k < i ==> s[k] != sep
    ensures SplitUpTo(s, sep, i) == [s[..i]]
    decreases i
  {
    if i > 0 {
      SplitNoSep(s, sep, i - 1);
      assert s[..i] == s[..i - 1] + [s[i - 1]];
    }
  }

  /** Splitting `a + [sep] + b`, where `b` holds no separator, splits `a` and adds `b`. */
  lemma SplitSnoc(a: string, b: string, sep: char)
    requires sep !in b
    ensures Split(a + [sep] + b, sep) == Split(a, sep) + [b]
  {
    var s := a + [sep] + b;
    assert s[|a|] == sep;
    assert s[|a| + 1..|a| + 1 + |b|] == b;
    SplitAfterSep(s, sep, |a|, |b|);
    assert SplitUpTo(s, sep, |a|) == Split(a, sep) by {
      assert s[..|a|] == a[..|a|];
      SplitUpToPrefix(s, a, sep, |a|);
      assert a[..|a|] == a;
    }
  }

  /** The other round trip: splitting a join of separator-free pieces gives the pieces. */
  lemma {:induction false} SplitJoin(parts: seq<string>, sep: char)
    requires |parts| >= 1
    requires forall k :: 0 <= k < |parts| ==> sep !in parts[k]
    ensures Split(Join(parts, sep), sep) == parts
    decreases |parts|
  {
    var s := Join(parts, sep);
    if |parts| == 1 {
      SplitNoSep(s, sep, |s|);
      assert s[..|s|] == s;
    } else {
      var init := parts[..|parts| - 1];
      SplitJoin(init, sep);
      SplitSnoc(Join(init, sep), parts[|parts| - 1], sep);
      assert init + [parts[|parts| - 1]] == parts;
    }
  }

  // ---------------------------------------------------------------- replace

  /** `s[..i].replace(c, "")` for a one-character `c`. */
  function RemoveCharUpTo(s: string, c: char, i: nat): (r: string)
    requires i <= |s|
    ensures |r| <= i
    decreases i
  {
    if i == 0 then []
    else RemoveCharUpTo(s, c, i - 1) + (if s[i - 1] == c then [] else [s[i - 1]])
  }

  /** `s.replace(c, "")` for a one-character `c`. */
  function RemoveChar(s: string, c: char): (r: string)
    ensures |r| <= |s|
  {
    RemoveCharUpTo(s, c, |s|)
  }

  /**
   * `RemoveChar` removes every `c` and nothing else: the other characters
   * keep their number of occurrences.
   */
  lemma RemoveCharKeepsOthers(s: string, c: char)
    ensures c !in RemoveChar(s, c)
    ensures forall d :: d in RemoveChar(s, c) <==> d in s && d != c
    ensures multiset(RemoveChar(s, c)) == multiset(s)[c := 0]
  {
    RemoveCharUpToKeepsOthers(s, c, |s|);
    assert s[..|s|] == s;
  }

  lemma {:induction false} RemoveCharUpToKeepsOthers(s: string, c: char, i: nat)
    requires i <= |s|
    ensures forall d :: d in RemoveCharUpTo(s, c, i) <==> d in s[..i] && d != c
    ensures multiset(RemoveCharUpTo(s, c, i)) == multiset(s[..i])[c := 0]
    decreases i
  {
    if i > 0 {
      RemoveCharUpToKeepsOthers(s, c, i - 1);
      assert s[..i] == s[..i - 1] + [s[i - 1]];
    }
  }

  /** `RemoveChar` works character by character: it keeps the order of what it keeps. */
  lemma RemoveCharAppend(a: string, b: string, c: char)
    ensures RemoveChar(a + b, c) == RemoveChar(a, c) + RemoveChar(b, c)
  {
    RemoveCharUpToPrefix(a + b, a, c, |a|);
    RemoveCharUpToAppend(a, b, c, |b|);
  }

  /** `RemoveCharUpTo` reads only the first `i` characters. */
  lemma {:induction false} RemoveCharUpToPrefix(s: string, t: string, c: char, i: nat)
    requires i <= |s| && i <= |t| && s[..i] == t[..i]
    ensures RemoveCharUpTo(s, c, i) == RemoveCharUpTo(t, c, i)
    decreases i
  {
    if i > 0 {
      assert s[i - 1] == s[..i][i - 1] == t[..i][i - 1] == t[i - 1];
      assert s[..i - 1] == s[..i][..i - 1] == t[..i][..i - 1] == t[..i - 1];
      RemoveCharUpToPrefix(s, t, c, i - 1);
    }
  }

  lemma {:induction false} RemoveCharUpToAppend(a: string, b: string, c: char, j: nat)
    requires j <= |b|
    ensures RemoveCharUpTo(a + b, c, |a| + j) == RemoveCharUpTo(a + b, c, |a|) + RemoveCharUpTo(b, c, j)
    decreases j
  {
    if j > 0 {
      RemoveCharUpToAppend(a, b, c, j - 1);
      assert (a + b)[|a| + j - 1] == b[j - 1];
    }
  }

  /** Removing a character that does not occur changes nothing. */
  lemma RemoveAbsentChar(s: string, c: char)
    requires c !in s
    ensures RemoveChar(s, c) == s
  {
    RemoveAbsentCharUpTo(s, c, |s|);
    assert s[..|s|] == s;
  }

  lemma {:induction false} RemoveAbsentCharUpTo(s: string, c: char, i: nat)
    requires i <= |s| && c !in s
    ensures RemoveCharUpTo(s, c, i) == s[..i]
    decreases i
  {
    if i > 0 {
      RemoveAbsentCharUpTo(s, c, i - 1);
      assert s[..i] == s[..i - 1] + [s[i - 1]];
    }
  }

  // ---------------------------------------------------------------- `in`

  /** `sub` occurs in `s` at offset `i`. */
  predicate OccursAt(s: string, sub: string, i: int) {
    0 <= i <= |s| - |sub| && s[i..i + |sub|] == sub
  }

  /** Python's `sub in s`. */
  predicate Contains(s: string, sub: string) {
    exists i | 0 <= i <= |s| - |sub| :: OccursAt(s, sub, i)
  }

  // ---------------------------------------------------------------- f'{n}'

  function DigitChar(d: nat): (c: char)
    requires d < 10
    ensures '0' <= c <= '9' && c as int - '0' as int == d
  {
    "0123456789"[d]
  }

  /** The decimal digits of `n`, without leading zeros: Python's `f'{n}'` for `n >= 0`. */
  function NatToString(n: nat): (s: string)
    ensures 1 <= |s|
    ensures forall i :: 0 <= i < |s| ==> '0' <= s[i] <= '9'
    ensures n >= 10 ==> |s| >= 2 && s[0] != '0'
    ensures n < 10 ==> |s| == 1
    decreases n
  {
    if n < 10 then [DigitChar(n)] else NatToString(n / 10) + [DigitChar(n % 10)]
  }

  /** The number a string of decimal digits denotes, most significant digit first. */
  function DigitsValue(s: string): (v: nat)
    requires forall i :: 0 <= i < |s| ==> '0' <= s[i] <= '9'
    ensures |s| == 1 ==> v == s[0] as int - '0' as int
    decreases |s|
  {
    if |s| == 0 then 0
    else DigitsValue(s[..|s| - 1]) * 10 + (s[|s| - 1] as int - '0' as int)
  }

  /** `NatToString(n)` spells `n`: its digits denote `n` again. */
  lemma {:induction false} NatToStringValue(n: nat)
    ensures DigitsValue(NatToString(n)) == n
    decreases n
  {
    if n >= 10 {
      var s := NatToString(n);
      assert s[..|s| - 1] == NatToString(n / 10);
      assert s[|s| - 1] == DigitChar(n % 10);
      NatToStringValue(n / 10);
    }
  }

  /** Distinct numbers render differently. */
  lemma {:induction false} NatToStringInjective(a: nat, b: nat)
    ensures NatToString(a) == NatToString(b) ==> a == b
    decreases a
  {
    var sa, sb := NatToString(a), NatToString(b);
    if a >= 10 && b >= 10 {
      assert sa[|sa| - 1] == DigitChar(a % 10) && sb[|sb| - 1] == DigitChar(b % 10);
      assert sa[..|sa| - 1] == NatToString(a / 10);
      assert sb[..|sb| - 1] == NatToString(b / 10);
      NatToStringInjective(a / 10, b / 10);
    } else if a < 10 && b < 10 {
      assert sa[0] == DigitChar(a) && sb[0] == DigitChar(b);
    }
  }
}
