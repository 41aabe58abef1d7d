/** Where the elements of a sequence stand. */
module Sequences {

  lemma Position<T>(s: seq<T>, x: T) returns (k: nat)
    requires x in s
    ensures k < |s| && s[k] == x
  {
    k :| 0 <= k < |s| && s[k] == x;
  }

  /** r is c with some left out. */
  ghost predicate InOrderOf<T>(r: seq<T>, c: seq<T>, places: seq<nat>) {
    && |places| == |r|
    && (forall k :: 0 <= k < |r| ==> places[k] < |c| && r[k] == c[places[k]])
    && (forall i, j :: 0 <= i < j < |r| ==> places[i] < places[j])
  }

  lemma OneMoreInOrder<T>(x: T, r: seq<T>, c: seq<T>, places: seq<nat>) returns (first: seq<nat>, next: seq<nat>)
    requires InOrderOf(r, c, places)
    ensures InOrderOf([x] + r, [x] + c, first) && InOrderOf(r, [x] + c, next)
  {
    next := seq(|places|, k requires 0 <= k < |places| => places[k] + 1);
    first := [0] + next;
  }
}
