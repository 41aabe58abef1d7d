/** Adding up a weight over the elements of a sequence: the threads of a state machine, mostly. */
module Sums {

  ghost function Sum<T>(f: T -> int, s: seq<T>): int {
    if s == [] then 0 else f(s[0]) + Sum(f, s[1..])
  }

  lemma {:induction false} SumUpdate<T>(f: T -> int, s: seq<T>, i: nat, x: T)
    requires i < |s|
    ensures Sum(f, s[i := x]) == Sum(f, s) - f(s[i]) + f(x)
  {
    if i == 0 {
      assert s[0 := x][1..] == s[1..];
    } else {
      assert s[i := x][1..] == s[1..][i - 1 := x];
      SumUpdate(f, s[1..], i - 1, x);
    }
  }

  lemma {:induction false} SumAppend<T>(f: T -> int, s: seq<T>, x: T)
    ensures Sum(f, s + [x]) == Sum(f, s) + f(x)
  {
    if s == [] {
      assert s + [x] == [x];
    } else {
      assert (s + [x])[1..] == s[1..] + [x];
      SumAppend(f, s[1..], x);
    }
  }

  /** Non-negative weights: every element's weight is at most the sum. */
  lemma {:induction false} SumCovers<T>(f: T -> int, s: seq<T>)
    requires forall k :: 0 <= k < |s| ==> f(s[k]) >= 0
    ensures Sum(f, s) >= 0
    ensures forall k :: 0 <= k < |s| ==> f(s[k]) <= Sum(f, s)
  {
    if s != [] {
      SumCovers(f, s[1..]);
      assert forall k :: 1 <= k < |s| ==> s[k] == s[1..][k - 1];
    }
  }

  lemma {:induction false} SumZero<T>(f: T -> int, s: seq<T>)
    requires forall k :: 0 <= k < |s| ==> f(s[k]) == 0
    ensures Sum(f, s) == 0
  {
    if s != [] {
      SumZero(f, s[1..]);
    }
  }

  lemma {:induction false} SumMono<T>(f: T -> int, g: T -> int, s: seq<T>)
    requires forall k :: 0 <= k < |s| ==> f(s[k]) <= g(s[k])
    ensures Sum(f, s) <= Sum(g, s)
  {
    if s != [] {
      SumMono(f, g, s[1..]);
    }
  }
}
