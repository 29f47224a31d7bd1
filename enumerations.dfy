/**
 * Sequences that list the elements of a set once each: the order in which a
 * Java `HashMap` or a sorted Python key list hands out its keys.
 */
module Enumerations {

  /** No element occurs twice in `ks`. */
  ghost predicate Distinct<T>(ks: seq<T>)
  {
    forall i, j :: 0 <= i < j < |ks| ==> ks[i] != ks[j]
  }

  /** `ks` lists every element of `s` exactly once and nothing else. */
  ghost predicate Enumerates<T>(ks: seq<T>, s: set<T>)
  {
    && Distinct(ks)
    && (forall i :: 0 <= i < |ks| ==> ks[i] in s)
    && (forall x :: x in s ==> x in ks)
  }

  /** An enumeration of a set is as long as the set is large. */
  lemma {:induction false} EnumerationLength<T>(ks: seq<T>, s: set<T>)
    requires Enumerates(ks, s)
    ensures |ks| == |s|
  {
    if ks != [] {
      var last := ks[|ks| - 1];
      var init := ks[..|ks| - 1];
      assert ks == init + [last];
      forall x
        ensures x in init <==> x in s - {last}
      {
        if x in init {
          var i :| 0 <= i < |init| && init[i] == x;
          assert ks[i] == x && ks[|ks| - 1] == last;
        }
      }
      EnumerationLength(init, s - {last});
    }
  }
}
