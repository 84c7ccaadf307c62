/**
 * The two built-in string operations the message classifier relies on:
 * `toLowerCase` (restricted to ASCII case folding) and `indexOf`
 * (literal substring search, no word boundaries).
 */
module Text {

  predicate IsAsciiUpper(c: char) {
    'A' <= c <= 'Z'
  }

  /** ASCII case folding of one character: 'A'..'Z' become 'a'..'z', all else is kept. */
  function LowerChar(c: char): char {
    if IsAsciiUpper(c) then (c as int + 32) as char else c
  }

  /** `s.toLowerCase()`, restricted to ASCII letters. */
  function Lower(s: string): (r: string)
    ensures |r| == |s|
    ensures forall i :: 0 <= i < |s| ==> r[i] == LowerChar(s[i])
  {
    if s == [] then [] else [LowerChar(s[0])] + Lower(s[1..])
  }

  /** `x` and `y` are the same character, or the upper- and lower-case forms of one ASCII letter. */
  predicate CaseVariants(x: char, y: char) {
    x == y ||
    (IsAsciiUpper(x) && y as int == x as int + 32) ||
    (IsAsciiUpper(y) && x as int == y as int + 32)
  }

  /** `a` and `b` differ at most in the case of ASCII letters. */
  predicate SameUpToCase(a: string, b: string) {
    |a| == |b| && forall i :: 0 <= i < |a| ==> CaseVariants(a[i], b[i])
  }

  /** Folding a character leaves no upper-case ASCII letter, and folding twice is folding once. */
  lemma LowerCharFolds(c: char)
    ensures !IsAsciiUpper(LowerChar(c))
    ensures LowerChar(LowerChar(c)) == LowerChar(c)
    ensures IsAsciiUpper(c) ==> LowerChar(c) as int == c as int + 32
  {
  }

  /** Two characters fold to the same character exactly when they are case variants of each other. */
  lemma LowerCharEqualIff(x: char, y: char)
    ensures LowerChar(x) == LowerChar(y) <==> CaseVariants(x, y)
  {
  }

  /** Two strings lower-case to the same text exactly when they differ only in ASCII case. */
  lemma LowerEqualIff(a: string, b: string)
    ensures Lower(a) == Lower(b) <==> SameUpToCase(a, b)
  {
  }

  /** Lower-casing an already lower-cased text changes nothing. */
  lemma LowerIdempotent(s: string)
    ensures Lower(Lower(s)) == Lower(s)
  {
  }

  /** Lower-casing works character by character, so it distributes over concatenation. */
  lemma LowerAppend(a: string, b: string)
    ensures Lower(a + b) == Lower(a) + Lower(b)
  {
  }

  /** `sub` occurs in `s` starting at position `i`. */
  predicate OccursAt(s: string, sub: string, i: int) {
    0 <= i && i + |sub| <= |s| && s[i..i + |sub|] == sub
  }

  /** `sub` occurs somewhere in `s` as a contiguous substring. */
  predicate Contains(s: string, sub: string) {
    exists i :: 0 <= i <= |s| - |sub| && OccursAt(s, sub, i)
  }

  /** `s.indexOf(sub, from)` on a text with no occurrence before `from`. */
  function SearchFrom(s: string, sub: string, from: nat): (r: int)
    requires forall j :: 0 <= j < from ==> !OccursAt(s, sub, j)
    ensures r == -1 || (from <= r && OccursAt(s, sub, r))
    ensures r == -1 ==> !Contains(s, sub)
    ensures r != -1 ==> forall j :: 0 <= j < r ==> !OccursAt(s, sub, j)
    decreases |s| - from
  {
    if from + |sub| > |s| then -1
    else if s[from..from + |sub|] == sub then from
    else SearchFrom(s, sub, from + 1)
  }

  /**
   * `s.indexOf(sub)`: the first position where `sub` occurs, or -1 when it
   * occurs nowhere. The empty string occurs at position 0 of every text.
   */
  function IndexOf(s: string, sub: string): (r: int)
    ensures r == -1 <==> !Contains(s, sub)
    ensures r != -1 ==> OccursAt(s, sub, r) && forall j :: 0 <= j < r ==> !OccursAt(s, sub, j)
  {
    SearchFrom(s, sub, 0)
  }

  /** Substring search is loose: an occurrence stays an occurrence inside any longer text. */
  lemma ContainsWithin(s: string, sub: string, p: string, q: string)
    requires Contains(s, sub)
    ensures Contains(p + s + q, sub)
  {
    var i :| 0 <= i <= |s| - |sub| && OccursAt(s, sub, i);
    var t := p + s + q;
    assert t[|p|..|p| + |s|] == s;
    assert t[|p| + i..|p| + i + |sub|] == s[i..i + |sub|];
    assert OccursAt(t, sub, |p| + i);
  }
}
