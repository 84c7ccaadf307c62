/** The keyword matcher `matchesArray` (index.js:184-194). */
module Keywords {
  import opened Text

  /** Some keyword of the list occurs in `message` as a literal substring. */
  predicate MatchesAny(message: string, keywords: seq<string>) {
    exists k :: k in keywords && Contains(message, k)
  }

  /**
   * `matchesArray`: a `found` flag, initially false, is set by every keyword
   * that `indexOf` finds and is never reset; every keyword is tried.
   */
  method MatchesArray(message: string, keywords: seq<string>) returns (found: bool)
    ensures found <==> MatchesAny(message, keywords)
    ensures keywords == [] ==> !found
  {
    found := false;
    for n := 0 to |keywords|
      invariant found <==> exists j :: 0 <= j < n && Contains(message, keywords[j])
    {
      if IndexOf(message, keywords[n]) != -1 {
        found := true;
      }
    }
  }

  /** Matching against a concatenated keyword list is matching against either part. */
  lemma MatchesAnyAppend(message: string, a: seq<string>, b: seq<string>)
    ensures MatchesAny(message, a + b) <==> MatchesAny(message, a) || MatchesAny(message, b)
  {
  }

  /** The verdict does not depend on the order (or repetition) of the keywords. */
  lemma MatchesAnyOrderFree(message: string, a: seq<string>, b: seq<string>)
    requires multiset(a) == multiset(b)
    ensures MatchesAny(message, a) == MatchesAny(message, b)
  {
    if MatchesAny(message, a) {
      var k :| k in a && Contains(message, k);
      assert k in multiset(a);
    }
    if MatchesAny(message, b) {
      var k :| k in b && Contains(message, k);
      assert k in multiset(b);
    }
  }

  /** A message that matches keeps matching when more text surrounds it. */
  lemma MatchesAnyWithin(message: string, keywords: seq<string>, p: string, q: string)
    requires MatchesAny(message, keywords)
    ensures MatchesAny(p + message + q, keywords)
  {
    var k :| k in keywords && Contains(message, k);
    ContainsWithin(message, k, p, q);
  }
}
