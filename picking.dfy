/** The random choices of the pipeline (`DataFrame.sample`, the shuffle with
    `frac=1`, the index draws of the stratified splitter) seen from outside:
    a chooser hands over positions, and the result is the rows at those
    positions. A choice of `k` distinct positions below `n` is a draw
    without replacement; a choice of `n` of them is a permutation. */
module Picking {
  import opened Tables

  predicate InRange(idx: seq<nat>, n: nat) {
    forall j :: 0 <= j < |idx| ==> idx[j] < n
  }

  /** `k` distinct positions among `n`. */
  predicate IsSample(idx: seq<nat>, n: nat, k: nat) {
    |idx| == k && Distinct(idx) && InRange(idx, n)
  }

  /** An ordering of all `n` positions. */
  predicate IsPermutation(idx: seq<nat>, n: nat) {
    IsSample(idx, n, n)
  }

  /** The elements at the chosen positions, in the chosen order. */
  function Pick<T>(s: seq<T>, idx: seq<nat>): (r: seq<T>)
    requires InRange(idx, |s|)
    ensures |r| == |idx|
    ensures forall j :: 0 <= j < |idx| ==> r[j] == s[idx[j]]
  {
    seq(|idx|, j requires 0 <= j < |idx| => s[idx[j]])
  }

  lemma PickConcat<T>(s: seq<T>, a: seq<nat>, b: seq<nat>)
    requires InRange(a, |s|) && InRange(b, |s|)
    ensures InRange(a + b, |s|)
    ensures Pick(s, a + b) == Pick(s, a) + Pick(s, b)
  {
  }

  /** Taking position `p` out of a choice of distinct positions below
      `k + 1` that holds `k` at `p` leaves distinct positions below `k`. */
  lemma RemoveTop(idx: seq<nat>, p: nat, k: nat)
    requires Distinct(idx) && InRange(idx, k + 1)
    requires p < |idx| && idx[p] == k
    ensures Distinct(idx[..p] + idx[p + 1..])
    ensures InRange(idx[..p] + idx[p + 1..], k)
  {
    var idx' := idx[..p] + idx[p + 1..];
    forall j | 0 <= j < |idx'| ensures idx'[j] < k {
      if j < p { assert idx'[j] == idx[j]; } else { assert idx'[j] == idx[j + 1]; }
    }
    forall i, j | 0 <= i < j < |idx'| ensures idx'[i] != idx'[j] {
      var i' := if i < p then i else i + 1;
      var j' := if j < p then j else j + 1;
      assert idx'[i] == idx[i'] && idx'[j] == idx[j'];
    }
  }

  /** Picking from a prefix with positions inside it is picking from the
      whole sequence. */
  lemma PickPrefix<T>(s: seq<T>, k: nat, idx: seq<nat>)
    requires k <= |s| && InRange(idx, k)
    ensures InRange(idx, |s|) && Pick(s[..k], idx) == Pick(s, idx)
  {
  }

  lemma PickSplit<T>(s: seq<T>, idx: seq<nat>, p: nat)
    requires InRange(idx, |s|) && p < |idx|
    ensures multiset(Pick(s, idx)) == multiset(Pick(s, idx[..p] + idx[p + 1..])) + multiset{s[idx[p]]}
  {
    var a, b := idx[..p], idx[p + 1..];
    assert idx == a + [idx[p]] + b;
    PickConcat(s, a, [idx[p]]);
    PickConcat(s, a + [idx[p]], b);
    PickConcat(s, a, b);
  }

  /** Drawing distinct positions takes a sub-multiset of the elements, and
      never more positions than there are; drawing all of them takes the
      whole multiset. */
  lemma {:induction false} PickSubMultiset<T>(s: seq<T>, idx: seq<nat>)
    requires Distinct(idx) && InRange(idx, |s|)
    ensures |idx| <= |s|
    ensures multiset(Pick(s, idx)) <= multiset(s)
    ensures |idx| == |s| ==> multiset(Pick(s, idx)) == multiset(s)
  {
    if s == [] {
      var x: int := (idx + [0])[0];
      assert idx != [] ==> x < 0;
    } else {
      var k := |s| - 1;
      var s' := s[..k];
      assert s == s' + [s[k]];
      if k in idx {
        var p :| 0 <= p < |idx| && idx[p] == k;
        var idx' := idx[..p] + idx[p + 1..];
        RemoveTop(idx, p, k);
        PickSubMultiset(s', idx');
        PickPrefix(s, k, idx');
        PickSplit(s, idx, p);
      } else {
        assert InRange(idx, k) by {
          forall j | 0 <= j < |idx| ensures idx[j] < k { assert idx[j] != k; }
        }
        PickSubMultiset(s', idx);
        PickPrefix(s, k, idx);
      }
    }
  }

  /** A permutation reaches every position. */
  lemma PermutationCovers(idx: seq<nat>, n: nat)
    requires IsPermutation(idx, n)
    ensures forall i :: 0 <= i < n ==> i in idx
  {
    var id: seq<nat> := seq(n, i requires 0 <= i < n => i);
    PickSubMultiset(id, idx);
    assert Pick(id, idx) == idx;
    forall i | 0 <= i < n ensures i in idx {
      assert id[i] == i;
      assert i in multiset(id);
    }
  }

  /** Every element of a sequence equals `x`: then `x` occurs `|s|` times
      and nothing else occurs. */
  lemma {:induction false} UniformCount<T>(s: seq<T>, x: T)
    requires forall j :: 0 <= j < |s| ==> s[j] == x
    ensures multiset(s)[x] == |s|
    ensures forall y :: y != x ==> multiset(s)[y] == 0
  {
    if s != [] {
      UniformCount(s[1..], x);
      assert s == [s[0]] + s[1..];
    }
  }
}
