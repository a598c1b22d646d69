/** Order facts about lists of package names. */
module Sequences {
  /** `s` is `full` with some elements left out, the rest in their order. */
  predicate IsSubsequence(s: seq<string>, full: seq<string>)
  {
    if s == [] then true
    else if full == [] then false
    else (s[0] == full[0] && IsSubsequence(s[1..], full[1..])) || IsSubsequence(s, full[1..])
  }

  /** No name is listed twice. */
  predicate Distinct(s: seq<string>)
  {
    forall i, j :: 0 <= i < j < |s| ==> s[i] != s[j]
  }
}
