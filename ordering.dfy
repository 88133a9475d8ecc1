/**
 * LINQ's OrderBy(key).ThenBy…(key').FirstOrDefault() over the eligible
 * elements of a list: a stable sort followed by taking the head, i.e. the
 * earliest element whose key is least.
 */
module Ordering {
  import opened Wrappers

  /** Lexicographic order on (primary, secondary) keys. */
  predicate KeyLe(a: (int, int), b: (int, int))
  {
    a.0 < b.0 || (a.0 == b.0 && a.1 <= b.1)
  }

  /** `k` is what a stable ordering followed by First picks among the eligible elements of `s`. */
  ghost predicate IsFirstMinimum<X>(s: seq<X>, eligible: X -> bool, key: X -> (int, int), k: nat)
  {
    && k < |s| && eligible(s[k])
    && (forall i :: 0 <= i < |s| && eligible(s[i]) ==> KeyLe(key(s[k]), key(s[i])))
    && (forall i :: 0 <= i < k && eligible(s[i]) ==> !KeyLe(key(s[i]), key(s[k])))
  }

  /** The index of the earliest eligible element of least key, if any element is eligible. */
  function FirstMinimum<X>(s: seq<X>, eligible: X -> bool, key: X -> (int, int)): (r: Option<nat>)
    ensures r.None? <==> forall i :: 0 <= i < |s| ==> !eligible(s[i])
    ensures r.Some? ==> IsFirstMinimum(s, eligible, key, r.value)
    decreases |s|
  {
    if |s| == 0 then None
    else
      var rest := FirstMinimum(s[1..], eligible, key);
      if eligible(s[0]) && (rest.None? || KeyLe(key(s[0]), key(s[1..][rest.value]))) then
        Some(0)
      else if rest.None? then
        None
      else
        assert forall i :: 1 <= i < |s| ==> s[i] == s[1..][i - 1];
        Some(rest.value + 1)
  }

  /** The choice is determined: only one index satisfies IsFirstMinimum. */
  lemma FirstMinimumUnique<X>(s: seq<X>, eligible: X -> bool, key: X -> (int, int), j: nat, k: nat)
    requires IsFirstMinimum(s, eligible, key, j) && IsFirstMinimum(s, eligible, key, k)
    ensures j == k
  {
  }
}
