/**
 * The few Python string operations the scraper relies on, written over
 * `string` (a sequence of `char`): prefix and suffix tests, the `in`
 * substring test, `str.replace`, `str.rfind` for one character,
 * `str.strip` and `str.lower`.
 */
module Strings {

  /** `s.startswith(p)` */
  predicate StartsWith(s: string, p: string) {
    |p| <= |s| && s[..|p|] == p
  }

  /** `s.endswith(p)` */
  predicate EndsWith(s: string, p: string) {
    |p| <= |s| && s[|s| - |p|..] == p
  }

  /** `t` occurs in `s` starting at index `i`. */
  ghost predicate OccursAt(s: string, t: string, i: int) {
    0 <= i && i + |t| <= |s| && s[i..i + |t|] == t
  }

  /** Python's `t in s`, scanning from the left. */
  function Contains(s: string, t: string): (r: bool)
    ensures r <==> exists i :: OccursAt(s, t, i)
  {
    if StartsWith(s, t) then
      assert OccursAt(s, t, 0);
      true
    else if s == [] then
      false
    else
      var r := Contains(s[1..], t);
      assert forall i :: OccursAt(s[1..], t, i) ==> OccursAt(s, t, i + 1);
      assert forall i :: OccursAt(s, t, i) ==> i >= 1 && OccursAt(s[1..], t, i - 1);
      r
  }

  /** A string that lacks one of the characters of `t` does not contain `t`. */
  lemma NotContainsWhenCharAbsent(s: string, t: string, k: nat)
    requires k < |t| && t[k] !in s
    ensures !Contains(s, t)
  {
    forall i | 0 <= i && i + |t| <= |s| ensures !OccursAt(s, t, i) {
      assert s[i..i + |t|][k] == s[i + k] && s[i + k] in s;
    }
  }

  /**
   * Python's `s.replace(pat, rep)` for a non-empty pattern: scan from the
   * left, and at every position where `pat` starts emit `rep` and skip the
   * pattern, otherwise keep the character.
   */
  function Replace(s: string, pat: string, rep: string): string
    requires |pat| > 0
    decreases |s|
  {
    if |s| < |pat| then s
    else if s[..|pat|] == pat then rep + Replace(s[|pat|..], pat, rep)
    else [s[0]] + Replace(s[1..], pat, rep)
  }

  /** Replacing a pattern that does not occur changes nothing. */
  lemma {:induction false} ReplaceAbsent(s: string, pat: string, rep: string)
    requires |pat| > 0 && !Contains(s, pat)
    ensures Replace(s, pat, rep) == s
    decreases |s|
  {
    if |s| >= |pat| {
      assert !StartsWith(s, pat);
      ReplaceAbsent(s[1..], pat, rep);
      assert [s[0]] + s[1..] == s;
    }
  }

  /** An occurrence in `s[1..]` is one in `s`, one place further on. */
  lemma OccursAfterFirst(s: string, t: string, i: nat)
    requires s != []
    ensures OccursAt(s[1..], t, i) <==> OccursAt(s, t, i + 1)
  {
    if i + |t| <= |s| - 1 {
      assert s[1..][i..i + |t|] == s[i + 1..i + 1 + |t|];
    }
  }

  /** When no occurrence of `pat` starts before index `n`, the scan copies `s[..n]` and goes on with `s[n..]` alone. */
  lemma {:induction false} ReplaceAfterClean(s: string, n: nat, pat: string, rep: string)
    requires |pat| > 0 && n <= |s|
    requires forall i :: 0 <= i < n ==> !OccursAt(s, pat, i)
    ensures Replace(s, pat, rep) == s[..n] + Replace(s[n..], pat, rep)
    decreases n
  {
    if n == 0 {
      assert s[..0] + Replace(s[0..], pat, rep) == Replace(s, pat, rep);
    } else {
      var t := s[1..];
      forall i | 0 <= i < n - 1 ensures !OccursAt(t, pat, i) {
        OccursAfterFirst(s, pat, i);
      }
      ReplaceAfterClean(t, n - 1, pat, rep);
      assert t[n - 1..] == s[n..];
      assert s[..n] == [s[0]] + t[..n - 1];
      if |s| < |pat| {
        assert Replace(s[n..], pat, rep) == s[n..];
        assert s[..n] + s[n..] == s;
      } else {
        assert !OccursAt(s, pat, 0);
        assert s[..|pat|] != pat;
        assert Replace(s, pat, rep) == [s[0]] + Replace(t, pat, rep);
        assert Replace(t, pat, rep) == t[..n - 1] + Replace(s[n..], pat, rep);
      }
    }
  }

  /** The leftmost occurrence of `pat` becomes `rep`; what precedes it is kept. */
  lemma ReplaceFirst(a: string, pat: string, b: string, rep: string)
    requires |pat| > 0
    requires forall i :: 0 <= i < |a| ==> !OccursAt(a + pat + b, pat, i)
    ensures Replace(a + pat + b, pat, rep) == a + rep + Replace(b, pat, rep)
  {
    var s := a + pat + b;
    ReplaceAfterClean(s, |a|, pat, rep);
    assert s[..|a|] == a && s[|a|..] == pat + b;
    assert (pat + b)[..|pat|] == pat && (pat + b)[|pat|..] == b;
  }

  /**
   * What `ReplaceLeavesNone` carries through its induction: `r` holds no
   * occurrence of `pat`, and a proper suffix of `pat` at the front of `r`
   * was already at the front of `s`.
   */
  ghost predicate NoneLeft(r: string, s: string, pat: string) {
    (forall i :: !OccursAt(r, pat, i)) &&
    forall j :: 1 <= j < |pat| && StartsWith(r, pat[j..]) ==> StartsWith(s, pat[j..])
  }

  /** The replacement in front of a piece without occurrences adds none. */
  lemma NoneLeftAfterRep(rep: string, rr: string, rest: string, s: string, pat: string)
    requires |pat| > 0 && |rep| > 0 && pat[0] !in rep && rep[0] !in pat[1..]
    requires NoneLeft(rr, rest, pat)
    ensures NoneLeft(rep + rr, s, pat)
  {
    var r := rep + rr;
    forall i | 0 <= i && i + |pat| <= |r| ensures !OccursAt(r, pat, i) {
      if i < |rep| {
        assert r[i] == rep[i] && r[i..i + |pat|][0] == r[i];
      } else {
        assert r[i..i + |pat|] == rr[i - |rep|..i - |rep| + |pat|];
        assert !OccursAt(rr, pat, i - |rep|);
      }
    }
    forall j | 1 <= j < |pat| ensures !StartsWith(r, pat[j..]) {
      assert pat[j] == pat[1..][j - 1];
      assert r[0] == rep[0];
    }
  }

  /** A kept character in front of a piece without occurrences adds none, since no occurrence starts at it. */
  lemma NoneLeftAfterKept(s: string, rr: string, pat: string)
    requires |pat| > 0 && |pat| <= |s| && s[..|pat|] != pat
    requires NoneLeft(rr, s[1..], pat)
    ensures NoneLeft([s[0]] + rr, s, pat)
  {
    var r := [s[0]] + rr;
    var rest := s[1..];
    forall j | 1 <= j < |pat| && StartsWith(r, pat[j..]) ensures StartsWith(s, pat[j..]) {
      assert s[0] == r[0] == pat[j];
      if j + 1 < |pat| {
        assert rr[..|pat| - j - 1] == r[1..|pat| - j] == pat[j + 1..];
        assert StartsWith(rest, pat[j + 1..]);
        assert s[..|pat| - j] == [s[0]] + rest[..|pat| - j - 1];
      } else {
        assert s[..1] == [s[0]];
      }
    }
    forall i | 0 <= i && i + |pat| <= |r| ensures !OccursAt(r, pat, i) {
      if i == 0 {
        assert s[..|pat|] == [s[0]] + rest[..|pat| - 1];
        assert r[..|pat|] == [r[0]] + rr[..|pat| - 1];
        assert pat == [pat[0]] + pat[1..];
      } else {
        assert r[i..i + |pat|] == rr[i - 1..i - 1 + |pat|];
        assert !OccursAt(rr, pat, i - 1);
      }
    }
  }

  /**
   * When `rep` cannot take part in an occurrence of `pat` (it does not hold
   * the first character of `pat`, and its own first character occurs
   * nowhere else in `pat`), no occurrence of `pat` is left.
   */
  lemma {:induction false} ReplaceLeavesNone(s: string, pat: string, rep: string)
    requires |pat| > 0 && |rep| > 0 && pat[0] !in rep && rep[0] !in pat[1..]
    ensures !Contains(Replace(s, pat, rep), pat)
    ensures NoneLeft(Replace(s, pat, rep), s, pat)
    decreases |s|
  {
    if |s| < |pat| {
      assert Replace(s, pat, rep) == s;
    } else if s[..|pat|] == pat {
      ReplaceLeavesNone(s[|pat|..], pat, rep);
      NoneLeftAfterRep(rep, Replace(s[|pat|..], pat, rep), s[|pat|..], s, pat);
    } else {
      ReplaceLeavesNone(s[1..], pat, rep);
      NoneLeftAfterKept(s, Replace(s[1..], pat, rep), pat);
    }
  }

  /** `s` with every occurrence of the character `c` removed. */
  function Without(s: string, c: char): (r: string)
    ensures c !in r
    ensures forall x :: x != c ==> (x in r <==> x in s)
  {
    if s == [] then []
    else if s[0] == c then Without(s[1..], c)
    else [s[0]] + Without(s[1..], c)
  }

  /** Number of occurrences of the character `c` in `s`. */
  function Count(s: string, c: char): (n: nat)
    ensures n <= |s|
    ensures n == 0 <==> c !in s
  {
    if s == [] then 0 else (if s[0] == c then 1 else 0) + Count(s[1..], c)
  }

  /** Removing one character deletes exactly its occurrences. */
  lemma {:induction false} WithoutLength(s: string, c: char)
    ensures |Without(s, c)| == |s| - Count(s, c)
  {
    if s != [] {
      WithoutLength(s[1..], c);
    }
  }

  /** `s.replace(c, '')` for a one-character pattern is `Without(s, c)`. */
  lemma {:induction false} ReplaceCharByNothing(s: string, c: char)
    ensures Replace(s, [c], "") == Without(s, c)
    decreases |s|
  {
    if s != [] {
      ReplaceCharByNothing(s[1..], c);
      if s[0] == c {
        assert s[..1] == [c];
      } else {
        assert s[..1] != [c];
      }
    }
  }

  /**
   * Python's `s.rfind(c)` for one character: the index of the last `c`,
   * or -1 when there is none.
   */
  function LastIndexOf(s: string, c: char): (r: int)
    ensures -1 <= r < |s|
    ensures r == -1 <==> c !in s
    ensures r >= 0 ==> s[r] == c
    ensures forall k :: r < k < |s| ==> s[k] != c
  {
    if s == [] then -1
    else if s[|s| - 1] == c then |s| - 1
    else
      var r := LastIndexOf(s[..|s| - 1], c);
      assert s == s[..|s| - 1] + [s[|s| - 1]];
      r
  }

  /** `s[s.rfind(c) + 1:]`: what follows the last `c`, or all of `s` when there is none. */
  function AfterLast(s: string, c: char): (r: string)
    ensures c !in r
    ensures c !in s ==> r == s
    ensures c in s ==> |r| < |s| && s[|s| - |r| - 1] == c
  {
    var i := LastIndexOf(s, c);
    if i == -1 then s else s[i + 1..]
  }

  /** When `c` occurs, `s` ends with `c` followed by what `AfterLast` returns. */
  lemma AfterLastIsSuffix(s: string, c: char)
    requires c in s
    ensures EndsWith(s, [c] + AfterLast(s, c))
  {
    var i := LastIndexOf(s, c);
    assert s[i..] == [c] + s[i + 1..];
  }

  /** The characters Python's `str.isspace` accepts, hence those `str.strip()` removes. */
  predicate IsSpace(c: char) {
    var n := c as int;
    n == 0x20 || 0x09 <= n <= 0x0D || 0x1C <= n <= 0x1F || n == 0x85 || n == 0xA0 ||
    n == 0x1680 || 0x2000 <= n <= 0x200A || n == 0x2028 || n == 0x2029 ||
    n == 0x202F || n == 0x205F || n == 0x3000
  }

  /** Every character of `s` is whitespace. */
  predicate AllSpace(s: string) {
    forall k :: 0 <= k < |s| ==> IsSpace(s[k])
  }

  /** `s.lstrip()`: `s` without its leading whitespace. */
  function StripLeading(s: string): (r: string)
    ensures |r| <= |s|
    ensures r == [] <==> AllSpace(s)
    ensures r != [] ==> !IsSpace(r[0]) && r[|r| - 1] == s[|s| - 1]
  {
    if s != [] && IsSpace(s[0]) then StripLeading(s[1..]) else s
  }

  /** `s.rstrip()`: `s` without its trailing whitespace. */
  function StripTrailing(s: string): (r: string)
    ensures |r| <= |s|
    ensures r == [] <==> AllSpace(s)
    ensures r != [] ==> !IsSpace(r[|r| - 1]) && r[0] == s[0]
  {
    if s != [] && IsSpace(s[|s| - 1]) then StripTrailing(s[..|s| - 1]) else s
  }

  /** Python's `s.strip()`: `s` without its leading and trailing whitespace. */
  function Strip(s: string): (r: string)
    ensures |r| <= |s|
    ensures r == [] <==> AllSpace(s)
    ensures r != [] ==> !IsSpace(r[0]) && !IsSpace(r[|r| - 1])
  {
    StripTrailing(StripLeading(s))
  }

  /** What `StripLeading` removes is whitespace. */
  lemma {:induction false} StripLeadingSplit(s: string)
    ensures exists a :: AllSpace(a) && s == a + StripLeading(s)
  {
    if s != [] && IsSpace(s[0]) {
      StripLeadingSplit(s[1..]);
      var a :| AllSpace(a) && s[1..] == a + StripLeading(s[1..]);
      assert AllSpace([s[0]] + a);
      assert s == ([s[0]] + a) + StripLeading(s);
    } else {
      assert AllSpace([]) && s == [] + s;
    }
  }

  /** What `StripTrailing` removes is whitespace. */
  lemma {:induction false} StripTrailingSplit(s: string)
    ensures exists b :: AllSpace(b) && s == StripTrailing(s) + b
  {
    if s != [] && IsSpace(s[|s| - 1]) {
      var init := s[..|s| - 1];
      StripTrailingSplit(init);
      var b :| AllSpace(b) && init == StripTrailing(init) + b;
      assert AllSpace(b + [s[|s| - 1]]);
      assert s == init + [s[|s| - 1]];
      assert s == StripTrailing(s) + (b + [s[|s| - 1]]);
    } else {
      assert AllSpace([]) && s == s + [];
    }
  }

  /** `s` is the stripped text with whitespace before and after it. */
  lemma StripSplit(s: string)
    ensures exists a, b :: AllSpace(a) && AllSpace(b) && s == a + Strip(s) + b
  {
    StripLeadingSplit(s);
    var a :| AllSpace(a) && s == a + StripLeading(s);
    StripTrailingSplit(StripLeading(s));
    var b :| AllSpace(b) && StripLeading(s) == Strip(s) + b;
    assert s == a + Strip(s) + b;
  }

  /** ASCII `str.lower()` of one character. */
  function LowerChar(c: char): (d: char)
    ensures d == '.' <==> c == '.'
  {
    if 'A' <= c <= 'Z' then (c as int + 32) as char else c
  }

  /** `s.lower()`, character by character. */
  function Lower(s: string): (r: string)
    ensures |r| == |s|
    ensures forall i :: 0 <= i < |s| ==> r[i] == LowerChar(s[i])
  {
    if s == [] then [] else [LowerChar(s[0])] + Lower(s[1..])
  }
}
