/** Order-preservation facts about list comprehensions that filter a list. */
module Sequences {

  /** `r` is obtained from `s` by deleting elements: what a Python list
      comprehension with an `if` clause produces from the list it walks. */
  predicate Subsequence<T(==)>(r: seq<T>, s: seq<T>)
    decreases |s|
  {
    if r == [] then true
    else if s == [] then false
    else (r[|r| - 1] == s[|s| - 1] && Subsequence(r[..|r| - 1], s[..|s| - 1]))
         || Subsequence(r, s[..|s| - 1])
  }

  /** No element occurs twice. */
  predicate Distinct<T(==)>(s: seq<T>)
  {
    forall i, j :: 0 <= i < j < |s| ==> s[i] != s[j]
  }

  /** A subsequence only holds elements of the sequence it was taken from. */
  lemma {:induction false} SubsequenceMembers<T>(r: seq<T>, s: seq<T>)
    requires Subsequence(r, s)
    ensures forall x :: x in r ==> x in s
  {
    if r != [] && s != [] {
      var r', s' := r[..|r| - 1], s[..|s| - 1];
      if r[|r| - 1] == s[|s| - 1] && Subsequence(r', s') {
        SubsequenceMembers(r', s');
        assert r == r' + [r[|r| - 1]];
        assert s == s' + [s[|s| - 1]];
      } else {
        SubsequenceMembers(r, s');
        assert s == s' + [s[|s| - 1]];
      }
    }
  }

  /** Extending a prefix by one element. */
  lemma PrefixExtend<T>(s: seq<T>, i: nat)
    requires i < |s|
    ensures s[..i + 1] == s[..i] + [s[i]]
  {
  }
}
