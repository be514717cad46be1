/** ASCII case folding, as PHP's `strtolower` does in the default locale. */
module Strings {

  function LowerChar(c: char): char {
    if 'A' <= c <= 'Z' then (c as int + 32) as char else c
  }

  function UpperChar(c: char): char {
    if 'a' <= c <= 'z' then (c as int - 32) as char else c
  }

  function ToLower(s: string): (r: string)
    ensures |r| == |s|
    ensures forall i :: 0 <= i < |s| ==> r[i] == LowerChar(s[i])
  {
    seq(|s|, i requires 0 <= i < |s| => LowerChar(s[i]))
  }

  /** Every character of `word` is a lower-case ASCII letter. */
  predicate IsLowerWord(word: string) {
    forall i :: 0 <= i < |word| ==> 'a' <= word[i] <= 'z'
  }

  /** `s` spells the lower-case `word` with each letter in either case ("TRUE", "True", "true", ...). */
  predicate SpellsIgnoringCase(s: string, word: string) {
    && |s| == |word|
    && forall i :: 0 <= i < |s| ==> s[i] == word[i] || s[i] == UpperChar(word[i])
  }

  /** Lower-casing `s` gives `word` exactly when `s` spells `word` in some mix of cases. */
  lemma {:induction false} ToLowerIsSpelling(s: string, word: string)
    requires IsLowerWord(word)
    ensures ToLower(s) == word <==> SpellsIgnoringCase(s, word)
  {
    if ToLower(s) == word {
      forall i | 0 <= i < |s|
        ensures s[i] == word[i] || s[i] == UpperChar(word[i])
      {
        assert LowerChar(s[i]) == word[i];
      }
    }
    if SpellsIgnoringCase(s, word) {
      forall i | 0 <= i < |s|
        ensures ToLower(s)[i] == word[i]
      {
        assert s[i] == word[i] || s[i] == UpperChar(word[i]);
      }
    }
  }
}
