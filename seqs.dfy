/** Small facts about sequences, stated over plain values so that they are cheap to use. */
module Seqs {
  /** A prefix of a stays a prefix when something is appended to a. */
  lemma PrefixAppend<T>(p: seq<T>, a: seq<T>, b: seq<T>)
    requires p <= a
    ensures p <= a + b
  {
    assert forall i :: 0 <= i < |p| ==> (a + b)[i] == a[i];
  }

  /** Equal parts make equal concatenations. */
  lemma AppendBoth<T>(a: seq<T>, b: seq<T>, c: seq<T>, d: seq<T>)
    requires a == c && b == d
    ensures a + b == c + d
  {
  }

  /** Element k of part b of p + ((a + (b + c)) + q). */
  lemma IndexInside<T>(w: seq<T>, p: seq<T>, a: seq<T>, b: seq<T>, c: seq<T>, q: seq<T>, k: nat)
    requires w == p + ((a + (b + c)) + q) && k < |b|
    ensures |p| + |a| + k < |w| && w[|p| + |a| + k] == b[k]
  {
    var y := (a + (b + c)) + q;
    assert (p + y)[|p| + (|a| + k)] == y[|a| + k];
    assert y[|a| + k] == (a + (b + c))[|a| + k];
    assert (a + (b + c))[|a| + k] == (b + c)[k];
  }
}
