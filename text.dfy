/**
 * The JavaScript string operations the page relies on: `String.prototype.trim`,
 * `toUpperCase` / `toLowerCase` (ASCII letters only) and `includes`.
 */
module Text {

  /** The characters `trim` removes: ECMAScript WhiteSpace and LineTerminator. */
  predicate IsWhitespace(c: char) {
    || c == '\t' || c == '\n' || c == '\U{000B}' || c == '\U{000C}' || c == '\r' || c == ' '
    || c == '\U{00A0}' || c == '\U{1680}' || ('\U{2000}' <= c <= '\U{200A}')
    || c == '\U{2028}' || c == '\U{2029}' || c == '\U{202F}' || c == '\U{205F}'
    || c == '\U{3000}' || c == '\U{FEFF}'
  }

  /** The first index at or after `k` that does not hold whitespace (or `|s|`). */
  function SkipForward(s: string, k: nat): (j: nat)
    requires k <= |s|
    ensures k <= j <= |s|
    ensures forall i :: k <= i < j ==> IsWhitespace(s[i])
    ensures j < |s| ==> !IsWhitespace(s[j])
    decreases |s| - k
  {
    if k < |s| && IsWhitespace(s[k]) then SkipForward(s, k + 1) else k
  }

  /** The end of `s[lo..k]` once its trailing whitespace is dropped. */
  function SkipBackward(s: string, lo: nat, k: nat): (j: nat)
    requires lo <= k <= |s|
    ensures lo <= j <= k
    ensures forall i :: j <= i < k ==> IsWhitespace(s[i])
    ensures j > lo ==> !IsWhitespace(s[j - 1])
    decreases k
  {
    if k > lo && IsWhitespace(s[k - 1]) then SkipBackward(s, lo, k - 1) else k
  }

  /** `s.trim()`: the slice of `s` left after removing whitespace at both ends. */
  function Trim(s: string): (r: string)
    ensures |r| <= |s|
    ensures |r| > 0 ==> !IsWhitespace(r[0]) && !IsWhitespace(r[|r| - 1])
    ensures r == [] <==> forall i :: 0 <= i < |s| ==> IsWhitespace(s[i])
    ensures |s| == 0 || (!IsWhitespace(s[0]) && !IsWhitespace(s[|s| - 1])) ==> r == s
  {
    var a := SkipForward(s, 0);
    s[a..SkipBackward(s, a, |s|)]
  }

  /** Where `Trim(s)` starts in `s`. */
  function TrimStart(s: string): nat {
    SkipForward(s, 0)
  }

  lemma TrimIsSlice(s: string)
    ensures TrimStart(s) + |Trim(s)| <= |s|
    ensures Trim(s) == s[TrimStart(s)..TrimStart(s) + |Trim(s)|]
    ensures forall i :: 0 <= i < TrimStart(s) ==> IsWhitespace(s[i])
    ensures forall i :: TrimStart(s) + |Trim(s)| <= i < |s| ==> IsWhitespace(s[i])
  {
  }

  /** Trimming twice is trimming once. */
  lemma TrimIdempotent(s: string)
    ensures Trim(Trim(s)) == Trim(s)
  {
  }

  /** Lower-cases an ASCII capital and leaves every other character alone. */
  function LowerChar(c: char): (d: char)
    ensures IsWhitespace(d) == IsWhitespace(c)
    ensures !('A' <= d <= 'Z')
    ensures !('A' <= c <= 'Z') ==> d == c
  {
    if 'A' <= c <= 'Z' then (c as int + 32) as char else c
  }

  /** Upper-cases an ASCII small letter and leaves every other character alone. */
  function UpperChar(c: char): (d: char)
    ensures IsWhitespace(d) == IsWhitespace(c)
    ensures !('a' <= d <= 'z')
    ensures !('a' <= c <= 'z') ==> d == c
  {
    if 'a' <= c <= 'z' then (c as int - 32) as char else c
  }

  /** Each ASCII letter goes to the same letter in the other case, and back. */
  lemma CaseInverse(c: char)
    ensures 'A' <= c <= 'Z' ==> 'a' <= LowerChar(c) <= 'z' && UpperChar(LowerChar(c)) == c
    ensures 'a' <= c <= 'z' ==> 'A' <= UpperChar(c) <= 'Z' && LowerChar(UpperChar(c)) == c
  {
  }

  /** `s.toLowerCase()`, restricted to ASCII letters. */
  function Lower(s: string): (r: string)
    ensures |r| == |s|
    ensures forall i :: 0 <= i < |s| ==> r[i] == LowerChar(s[i])
  {
    seq(|s|, i requires 0 <= i < |s| => LowerChar(s[i]))
  }

  /** `s.toUpperCase()`, restricted to ASCII letters. */
  function Upper(s: string): (r: string)
    ensures |r| == |s|
    ensures forall i :: 0 <= i < |s| ==> r[i] == UpperChar(s[i])
  {
    seq(|s|, i requires 0 <= i < |s| => UpperChar(s[i]))
  }

  /** `pat` appears in `s` starting at index `i`. */
  predicate OccursAt(s: string, pat: string, i: int) {
    0 <= i <= |s| - |pat| && s[i..i + |pat|] == pat
  }

  /** `s.includes(pat)`. */
  predicate Contains(s: string, pat: string): (r: bool)
    ensures r ==> |pat| <= |s|
    ensures pat == [] ==> r
    ensures |pat| == |s| ==> (r <==> s == pat)
  {
    assert pat == [] ==> OccursAt(s, pat, 0);
    assert s == pat ==> OccursAt(s, pat, 0);
    exists i | 0 <= i <= |s| :: OccursAt(s, pat, i)
  }

  /** `s` and `t` have whitespace at exactly the same positions. */
  predicate SameWhitespace(s: string, t: string) {
    |s| == |t| && forall i :: 0 <= i < |s| ==> IsWhitespace(s[i]) == IsWhitespace(t[i])
  }

  /** Skipping leading whitespace only looks at which positions hold whitespace. */
  lemma {:induction false} SkipForwardFollowsWhitespace(s: string, t: string, k: nat)
    requires SameWhitespace(s, t)
    requires k <= |s|
    ensures SkipForward(s, k) == SkipForward(t, k)
    decreases |s| - k
  {
    if k < |s| && IsWhitespace(s[k]) {
      SkipForwardFollowsWhitespace(s, t, k + 1);
    }
  }

  /** Skipping trailing whitespace only looks at which positions hold whitespace. */
  lemma {:induction false} SkipBackwardFollowsWhitespace(s: string, t: string, lo: nat, k: nat)
    requires SameWhitespace(s, t)
    requires lo <= k <= |s|
    ensures SkipBackward(s, lo, k) == SkipBackward(t, lo, k)
    decreases k
  {
    if k > lo && IsWhitespace(s[k - 1]) {
      SkipBackwardFollowsWhitespace(s, t, lo, k - 1);
    }
  }

  /** Lower-casing a slice is slicing the lower-cased string. */
  lemma LowerSlice(s: string, a: nat, b: nat)
    requires a <= b <= |s|
    ensures Lower(s)[a..b] == Lower(s[a..b])
  {
    assert forall i :: 0 <= i < b - a ==> Lower(s)[a..b][i] == Lower(s[a..b])[i];
  }

  /** Upper-casing a slice is slicing the upper-cased string. */
  lemma UpperSlice(s: string, a: nat, b: nat)
    requires a <= b <= |s|
    ensures Upper(s)[a..b] == Upper(s[a..b])
  {
    assert forall i :: 0 <= i < b - a ==> Upper(s)[a..b][i] == Upper(s[a..b])[i];
  }

  /** Lower-casing and trimming commute. */
  lemma LowerTrimCommute(s: string)
    ensures Trim(Lower(s)) == Lower(Trim(s))
  {
    var u := Lower(s);
    assert SameWhitespace(s, u);
    var a := SkipForward(s, 0);
    SkipForwardFollowsWhitespace(s, u, 0);
    SkipBackwardFollowsWhitespace(s, u, a, |s|);
    LowerSlice(s, a, SkipBackward(s, a, |s|));
  }

  /** Upper-casing and trimming commute. */
  lemma UpperTrimCommute(s: string)
    ensures Trim(Upper(s)) == Upper(Trim(s))
  {
    var u := Upper(s);
    assert SameWhitespace(s, u);
    var a := SkipForward(s, 0);
    SkipForwardFollowsWhitespace(s, u, 0);
    SkipBackwardFollowsWhitespace(s, u, a, |s|);
    UpperSlice(s, a, SkipBackward(s, a, |s|));
  }

  /**
   * A pattern that neither starts nor ends with whitespace occurs in `u`
   * exactly when it occurs in the part of `u` between whitespace margins.
   */
  lemma {:induction false} ContainsWithinMargins(u: string, a: nat, b: nat, pat: string)
    requires a <= b <= |u|
    requires pat != [] && !IsWhitespace(pat[0]) && !IsWhitespace(pat[|pat| - 1])
    requires forall i :: 0 <= i < a ==> IsWhitespace(u[i])
    requires forall i :: b <= i < |u| ==> IsWhitespace(u[i])
    ensures Contains(u[a..b], pat) <==> Contains(u, pat)
  {
    var core := u[a..b];
    if Contains(u, pat) {
      var i :| 0 <= i <= |u| && OccursAt(u, pat, i);
      assert u[i] == pat[0];
      assert u[i + |pat| - 1] == pat[|pat| - 1];
      assert a <= i && i + |pat| <= b;
      var w := core[i - a..i - a + |pat|];
      assert forall k :: 0 <= k < |pat| ==> w[k] == u[i..i + |pat|][k];
      assert OccursAt(core, pat, i - a);
    }
    if Contains(core, pat) {
      var j :| 0 <= j <= |core| && OccursAt(core, pat, j);
      var w := u[j + a..j + a + |pat|];
      assert forall k :: 0 <= k < |pat| ==> w[k] == core[j..j + |pat|][k];
      assert OccursAt(u, pat, j + a);
    }
  }

  /**
   * A pattern that neither starts nor ends with whitespace occurs in the
   * lower-cased text exactly when it occurs in the lower-cased trimmed text.
   */
  lemma {:induction false} ContainsIgnoresTrim(s: string, pat: string)
    requires pat != [] && !IsWhitespace(pat[0]) && !IsWhitespace(pat[|pat| - 1])
    ensures Contains(Lower(Trim(s)), pat) <==> Contains(Lower(s), pat)
  {
    TrimIsSlice(s);
    var a, b := TrimStart(s), TrimStart(s) + |Trim(s)|;
    var ls := Lower(s);
    assert Lower(Trim(s)) == ls[a..b];
    ContainsWithinMargins(ls, a, b, pat);
  }

  /** Lower-casing forgets any earlier change of case. */
  lemma LowerAfterUpper(s: string)
    ensures Lower(Upper(s)) == Lower(s)
    ensures Lower(Lower(s)) == Lower(s)
  {
  }

  /** Upper-casing forgets any earlier change of case. */
  lemma UpperAfterLower(s: string)
    ensures Upper(Lower(s)) == Upper(s)
    ensures Upper(Upper(s)) == Upper(s)
  {
  }
}
