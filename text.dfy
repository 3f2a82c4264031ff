/**
 * The string operations the classifier relies on: lower-casing and
 * substring search (Python's `str.lower` and the `in` operator on strings).
 */
module Text {

  /** True when `c` is an ASCII upper-case letter. */
  predicate IsUpper(c: char) {
    'A' <= c <= 'Z'
  }

  /**
   * Lower-cases one character. Only the ASCII letters A-Z are mapped;
   * every other character is returned unchanged.
   */
  function LowerChar(c: char): (r: char)
    ensures !IsUpper(r)
    ensures !IsUpper(c) ==> r == c
    ensures IsUpper(c) ==> r as int - c as int == 'a' as int - 'A' as int
  {
    if IsUpper(c) then (c as int - 'A' as int + 'a' as int) as char else c
  }

  /** Lower-cases a whole string, character by character. */
  function Lower(s: string): (r: string)
    ensures |r| == |s|
    ensures forall i :: 0 <= i < |s| ==> r[i] == LowerChar(s[i])
  {
    seq(|s|, i requires 0 <= i < |s| => LowerChar(s[i]))
  }

  /** Lower-casing twice is lower-casing once. */
  lemma LowerIdempotent(s: string)
    ensures Lower(Lower(s)) == Lower(s)
  {
  }

  /** Lower-casing distributes over concatenation. */
  lemma LowerAppend(s: string, t: string)
    ensures Lower(s + t) == Lower(s) + Lower(t)
  {
  }

  /** A string without upper-case letters is its own lower-cased form. */
  lemma LowerOfLowerCase(s: string)
    requires forall i :: 0 <= i < |s| ==> !IsUpper(s[i])
    ensures Lower(s) == s
  {
  }

  /** Lower-casing commutes with slicing. */
  lemma LowerSlice(s: string, i: int, j: int)
    requires 0 <= i <= j <= |s|
    ensures Lower(s)[i..j] == Lower(s[i..j])
  {
  }

  /** A slice of a headline that lower-cases to `w` puts `w` in the lower-cased headline. */
  lemma OccursLowered(s: string, w: string, i: int)
    requires 0 <= i && i + |w| <= |s| && Lower(s[i..i + |w|]) == w
    ensures Contains(Lower(s), w)
  {
    LowerSlice(s, i, i + |w|);
    OccursAtContains(Lower(s), w, i);
  }

  /** An occurrence at a known index is an occurrence. */
  lemma OccursAtContains(s: string, w: string, i: int)
    requires OccursAt(s, w, i)
    ensures Contains(s, w)
  {
  }

  /** Every character of an occurring string is a character of the string it occurs in. */
  lemma ContainsChar(s: string, sub: string, k: int)
    requires Contains(s, sub) && 0 <= k < |sub|
    ensures sub[k] in s
  {
    var i :| 0 <= i <= |s| && OccursAt(s, sub, i);
    assert s[i + k] == s[i..i + |sub|][k];
  }

  /** A word with a letter that the headline lacks in both cases does not occur in the lower-cased headline. */
  lemma MissingLetter(s: string, w: string, k: int)
    requires 0 <= k < |w| && 'a' <= w[k] <= 'z'
    requires w[k] !in s && (w[k] as int - 'a' as int + 'A' as int) as char !in s
    ensures !Contains(Lower(s), w)
  {
    if Contains(Lower(s), w) {
      ContainsChar(Lower(s), w, k);
    }
  }

  /** `sub` occurs in `s` starting at index `i`. */
  predicate OccursAt(s: string, sub: string, i: int) {
    0 <= i && i + |sub| <= |s| && s[i..i + |sub|] == sub
  }

  /** `sub in s`: `sub` occurs somewhere in `s` (the empty string occurs in every string). */
  function Contains(s: string, sub: string): (r: bool)
    ensures sub == [] ==> r
    ensures r ==> |sub| <= |s|
    ensures |sub| <= |s| && s[..|sub|] == sub ==> r
  {
    assert OccursAt(s, [], 0);
    assert |sub| <= |s| && s[..|sub|] == sub ==> OccursAt(s, sub, 0);
    exists i :: 0 <= i <= |s| && OccursAt(s, sub, i)
  }

  /** `any(w in s for w in words)`. */
  function ContainsAny(s: string, words: seq<string>): (r: bool)
    ensures r <==> exists k :: 0 <= k < |words| && Contains(s, words[k])
  {
    if words == [] then false
    else Contains(s, words[0]) || ContainsAny(s, words[1..])
  }
}
