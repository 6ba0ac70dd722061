/** In-order subsequences, and the last element of a sequence. */
module Sequences {
  /** Element i of x is element at[i] of y, and the positions climb. */
  ghost predicate Embeds<T>(at: seq<nat>, x: seq<T>, y: seq<T>) {
    && |at| == |x|
    && (forall i :: 0 <= i < |x| ==> at[i] < |y| && y[at[i]] == x[i])
    && (forall i, j :: 0 <= i < j < |x| ==> at[i] < at[j])
  }

  /** x can be obtained from y by leaving elements out. */
  ghost predicate Subsequence<T>(x: seq<T>, y: seq<T>) {
    exists at: seq<nat> :: Embeds(at, x, y)
  }

  lemma EmptySubsequence<T>(y: seq<T>)
    ensures Subsequence([], y)
  {
    assert Embeds([], [], y);
  }

  lemma SubsequencePrefix<T>(x: seq<T>, y: seq<T>, z: seq<T>)
    requires Subsequence(x, y)
    ensures Subsequence(x, y + z)
  {
    var at: seq<nat> :| Embeds(at, x, y);
    assert Embeds(at, x, y + z);
  }

  lemma SubsequenceExtends<T>(x: seq<T>, y: seq<T>, last: T)
    requires Subsequence(x, y)
    ensures Subsequence(x + [last], y + [last])
  {
    var at: seq<nat> :| Embeds(at, x, y);
    assert Embeds(at + [|y|], x + [last], y + [last]);
  }

  lemma SubsequenceWithoutLast<T>(x: seq<T>, last: T, y: seq<T>)
    requires Subsequence(x + [last], y)
    ensures Subsequence(x, y)
  {
    var at: seq<nat> :| Embeds(at, x + [last], y);
    assert forall i :: 0 <= i < |x| ==> (x + [last])[i] == x[i];
    assert Embeds(at[..|x|], x, y);
  }

  ghost predicate Distinct<T>(x: seq<T>) {
    forall i, j :: 0 <= i < j < |x| ==> x[i] != x[j]
  }
}
