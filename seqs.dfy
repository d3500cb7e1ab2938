/** Facts about sequences that the array loops and the folds share. */
module Seqs {

  /** Writing position `i` of a sequence whose tail from `i` on is still `orig[i..]`. */
  lemma UpdateSplit<T>(before: seq<T>, orig: seq<T>, i: nat, x: T)
    requires i < |before| == |orig| && before[i..] == orig[i..]
    ensures before[i := x][..i + 1] == before[..i] + [x]
    ensures before[i := x][i + 1..] == orig[i + 1..]
  {
    assert before[i + 1..] == before[i..][1..];
    assert orig[i + 1..] == orig[i..][1..];
  }

  lemma AppendAssoc<T>(a: seq<T>, b: seq<T>, c: seq<T>)
    ensures a + b + c == a + (b + c)
  {
  }

  /** The tail of a sequence from `i` on is the tail of its prefix, then its last element. */
  lemma TailSnoc<T>(s: seq<T>, i: nat)
    requires i < |s|
    ensures s[i..] == s[..|s| - 1][i..] + [s[|s| - 1]]
  {
  }

  lemma AppendTail<T>(a: seq<T>, x: T, i: nat)
    requires i <= |a|
    ensures (a + [x])[i..] == a[i..] + [x]
  {
  }
}
