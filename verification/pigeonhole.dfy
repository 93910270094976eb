/** Sequences with more elements than there are values. */
module Pigeonhole {

  predicate NoRepeats<T(==)>(s: seq<T>) {
    forall i, j :: 0 <= i < j < |s| ==> s[i] != s[j]
  }

  lemma {:induction false} Distinct<T>(s: seq<T>, values: set<T>)
    requires NoRepeats(s) && forall i :: 0 <= i < |s| ==> s[i] in values
    ensures |s| <= |values|
    decreases |s|
  {
    if s != [] {
      var n := |s| - 1;
      Distinct(s[..n], values - {s[n]});
    }
  }

  /** Some two elements are equal. */
  lemma LongSequenceRepeats<T>(s: seq<T>, values: set<T>)
    requires |s| > |values| && forall i :: 0 <= i < |s| ==> s[i] in values
    ensures !NoRepeats(s)
  {
    if NoRepeats(s) {
      Distinct(s, values);
    }
  }
}
