/** The two Python string methods the classifier relies on, `str.strip()` and
    `str.lower()`, and the substring test behind `word in text`. */
module Text {

  /** The characters Python's `str.isspace()` accepts, the ones `str.strip()`
      with no argument removes from both ends. */
  predicate IsSpace(c: char) {
    || '\U{9}' <= c <= '\U{D}'
    || '\U{1C}' <= c <= '\U{20}'
    || c == '\U{85}' || c == '\U{A0}' || c == '\U{1680}'
    || '\U{2000}' <= c <= '\U{200A}'
    || c == '\U{2028}' || c == '\U{2029}' || c == '\U{202F}' || c == '\U{205F}'
    || c == '\U{3000}'
  }

  /** Every character of `s` is whitespace (the empty string included). */
  predicate IsBlank(s: string) {
    forall i :: 0 <= i < |s| ==> IsSpace(s[i])
  }

  /** Drops the leading whitespace: the result is a suffix of `s`, what was
      dropped is all whitespace, and the result does not start with whitespace. */
  function TrimLeft(s: string): (r: string)
    ensures |r| <= |s| && r == s[|s| - |r|..]
    ensures forall i :: 0 <= i < |s| - |r| ==> IsSpace(s[i])
    ensures r != [] ==> !IsSpace(r[0])
  {
    if s != [] && IsSpace(s[0]) then TrimLeft(s[1..]) else s
  }

  /** Drops the trailing whitespace: the result is a prefix of `s`, what was
      dropped is all whitespace, and the result does not end with whitespace. */
  function TrimRight(s: string): (r: string)
    ensures |r| <= |s| && r == s[..|r|]
    ensures forall i :: |r| <= i < |s| ==> IsSpace(s[i])
    ensures r != [] ==> !IsSpace(r[|r| - 1])
  {
    if s != [] && IsSpace(s[|s| - 1]) then TrimRight(s[..|s| - 1]) else s
  }

  /** Python's `s.strip()`: the piece of `s` left once the whitespace at both
      ends is gone. It occurs in `s` at some offset `k`, everything before and
      after it is whitespace, and it neither starts nor ends with whitespace. */
  function Strip(s: string): (r: string)
    ensures exists k :: 0 <= k <= |s| - |r| && OccursAt(r, s, k)
                        && (forall i :: 0 <= i < k ==> IsSpace(s[i]))
                        && (forall i :: k + |r| <= i < |s| ==> IsSpace(s[i]))
    ensures r != [] ==> !IsSpace(r[0]) && !IsSpace(r[|r| - 1])
  {
    var l := TrimLeft(s);
    var r := TrimRight(l);
    var k := |s| - |l|;
    assert OccursAt(r, s, k) by {
      assert s[k..k + |r|] == l[..|r|];
    }
    assert forall i :: k + |r| <= i < |s| ==> s[i] == l[i - k];
    r
  }

  /** `not s.strip()` holds exactly when every character of `s` is whitespace. */
  lemma StripEmptyIffBlank(s: string)
    ensures Strip(s) == [] <==> IsBlank(s)
  {
  }

  /** ASCII `A`-`Z` to `a`-`z`; every other character is left alone. */
  function LowerChar(c: char): char {
    if 'A' <= c <= 'Z' then (c as int - 'A' as int + 'a' as int) as char else c
  }

  /** `s.lower()`, character by character. */
  function Lower(s: string): (r: string)
    ensures |r| == |s|
    ensures forall i :: 0 <= i < |s| ==> r[i] == LowerChar(s[i])
  {
    if s == [] then [] else [LowerChar(s[0])] + Lower(s[1..])
  }

  /** Lowering twice is lowering once. */
  lemma LowerIdempotent(s: string)
    ensures Lower(Lower(s)) == Lower(s)
  {
  }

  /** `w` occurs in `t` starting at offset `k`. */
  predicate OccursAt(w: string, t: string, k: nat) {
    k + |w| <= |t| && t[k..k + |w|] == w
  }

  /** Python's `w in t` for two strings: `w` is a contiguous piece of `t`. */
  predicate IsSubstring(w: string, t: string) {
    exists k :: 0 <= k <= |t| - |w| && OccursAt(w, t, k)
  }

  /** Occurrence is transitive: a piece of a piece of `u` is a piece of `u`. */
  lemma SubstringTransitive(w: string, t: string, u: string)
    requires IsSubstring(w, t) && IsSubstring(t, u)
    ensures IsSubstring(w, u)
  {
    var j :| 0 <= j <= |t| - |w| && OccursAt(w, t, j);
    var k :| 0 <= k <= |u| - |t| && OccursAt(t, u, k);
    forall i | 0 <= i < |w| ensures u[k + j + i] == w[i] {
      assert w[i] == t[j + i] == u[k + j + i];
    }
    assert OccursAt(w, u, k + j);
  }

  /** Lowering commutes with taking a piece. */
  lemma LowerSubstring(t: string, u: string)
    requires IsSubstring(t, u)
    ensures IsSubstring(Lower(t), Lower(u))
  {
    var k :| 0 <= k <= |u| - |t| && OccursAt(t, u, k);
    assert Lower(u)[k..k + |t|] == Lower(t);
    assert OccursAt(Lower(t), Lower(u), k);
  }

  /** A character of `w` that `t` lacks rules out every occurrence of `w` in `t`. */
  lemma MissingCharRulesOut(w: string, t: string, c: char)
    requires c in w && c !in t
    ensures !IsSubstring(w, t)
  {
  }
}
