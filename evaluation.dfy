/** The computations behind two of the evaluator's figures: the confusion
    matrix of `plot_confusion_matrix` and the top-10 ranking of
    `plot_feature_importance`. The predictions and the importances come from
    the fitted model and are inputs here. */
module Evaluation {
  import opened Tables
  import opened Ordering

  // ---------------------------------------------------------------------
  // Confusion matrix
  // ---------------------------------------------------------------------

  function CountOf(xs: seq<int>, v: int): nat {
    multiset(xs)[v]
  }

  /** The number of rows whose true label is `a` and predicted label `b`. */
  function CountPair(truth: seq<int>, pred: seq<int>, a: int, b: int): nat
    requires |truth| == |pred|
  {
    if truth == [] then 0
    else (if truth[0] == a && pred[0] == b then 1 else 0) + CountPair(truth[1..], pred[1..], a, b)
  }

  /** The number of rows whose prediction equals the truth. */
  function CountCorrect(truth: seq<int>, pred: seq<int>): nat
    requires |truth| == |pred|
  {
    if truth == [] then 0
    else (if truth[0] == pred[0] then 1 else 0) + CountCorrect(truth[1..], pred[1..])
  }

  /** The labels of the matrix's axes: every label that occurs in the truth
      or in the predictions, in increasing order (scikit-learn's
      `unique_labels`). */
  function AxisLabels(truth: seq<int>, pred: seq<int>): (labs: seq<int>)
    ensures Distinct(labs) && StrictlySorted(labs, IntLess)
    ensures forall v :: v in labs <==> v in truth || v in pred
  {
    IntLessIsStrictTotal();
    var labs := SortedUnique(truth + pred, IntLess);
    SortedIsDistinct(labs, IntLess);
    labs
  }

  function Matrix(truth: seq<int>, pred: seq<int>, labs: seq<int>): (m: seq<seq<nat>>)
    requires |truth| == |pred|
    ensures |m| == |labs|
    ensures forall i :: 0 <= i < |labs| ==> |m[i]| == |labs|
    ensures forall i, j :: 0 <= i < |labs| && 0 <= j < |labs| ==> m[i][j] == CountPair(truth, pred, labs[i], labs[j])
  {
    seq(|labs|, i requires 0 <= i < |labs| =>
      seq(|labs|, j requires 0 <= j < |labs| => CountPair(truth, pred, labs[i], labs[j])))
  }

  /** `confusion_matrix(y_test, y_pred)`: rows are the true label, columns
      the predicted one; inputs of different lengths are a ValueError. */
  function ConfusionMatrix(truth: seq<int>, pred: seq<int>): (r: Result<seq<seq<nat>>>)
    ensures r.Err? <==> |truth| != |pred|
    ensures r.Err? ==> r.error == LengthMismatch
    ensures r.Ok? ==> (
      && |r.value| == |AxisLabels(truth, pred)|
      && forall i, j :: 0 <= i < |r.value| && 0 <= j < |r.value| ==>
           |r.value[i]| == |r.value| &&
           r.value[i][j] == CountPair(truth, pred, AxisLabels(truth, pred)[i], AxisLabels(truth, pred)[j]))
  {
    if |truth| != |pred| then Err(LengthMismatch)
    else Ok(Matrix(truth, pred, AxisLabels(truth, pred)))
  }

  /** Binary labels in which both classes occur give the 2x2 matrix of the
      figure, licit (0) first and fraud (1) second on both axes. */
  lemma ConfusionBinary(truth: seq<int>, pred: seq<int>)
    requires |truth| == |pred|
    requires forall k :: 0 <= k < |truth| ==> truth[k] in {0, 1} && pred[k] in {0, 1}
    requires (0 in truth || 0 in pred) && (1 in truth || 1 in pred)
    ensures AxisLabels(truth, pred) == [0, 1]
    ensures var m := ConfusionMatrix(truth, pred).value;
      && |m| == 2 && |m[0]| == 2 && |m[1]| == 2
      && forall a, b :: 0 <= a < 2 && 0 <= b < 2 ==> m[a][b] == CountPair(truth, pred, a, b)
  {
    var labs := AxisLabels(truth, pred);
    assert (set v | v in labs) == {0, 1};
    DistinctCard(labs);
    assert labs[0] < labs[1];
  }

  function Sum(s: seq<nat>): nat {
    if s == [] then 0 else s[0] + Sum(s[1..])
  }

  /** The count of each label of `labs` among `xs`. */
  function CountsOver(xs: seq<int>, labs: seq<int>): (r: seq<nat>)
    ensures |r| == |labs| && forall j :: 0 <= j < |labs| ==> r[j] == CountOf(xs, labs[j])
  {
    seq(|labs|, j requires 0 <= j < |labs| => CountOf(xs, labs[j]))
  }

  /** `xs` without the occurrences of `a`. */
  function RemoveAll(xs: seq<int>, a: int): (r: seq<int>)
    ensures |r| + CountOf(xs, a) == |xs|
    ensures a !in r
    ensures forall v :: v != a ==> CountOf(r, v) == CountOf(xs, v)
    ensures forall v :: v in r ==> v in xs
  {
    if xs == [] then []
    else
      assert xs == [xs[0]] + xs[1..];
      if xs[0] == a then RemoveAll(xs[1..], a) else [xs[0]] + RemoveAll(xs[1..], a)
  }

  /** Counting every label of a list without repetitions that holds all of
      `xs` counts every element of `xs` once. */
  lemma {:induction false} SumOfCounts(xs: seq<int>, labs: seq<int>)
    requires Distinct(labs)
    requires forall v :: v in xs ==> v in labs
    ensures Sum(CountsOver(xs, labs)) == |xs|
    decreases |labs|
  {
    if labs == [] {
      var x := (xs + [0])[0];
      assert xs != [] ==> x in xs;
    } else {
      var a := labs[0];
      var rest := RemoveAll(xs, a);
      forall v | v in rest ensures v in labs[1..] {
        assert v in labs && v != a;
      }
      SumOfCounts(rest, labs[1..]);
      assert CountsOver(xs, labs)[1..] == CountsOver(rest, labs[1..]) by {
        forall j | 0 <= j < |labs| - 1 ensures CountsOver(xs, labs)[1..][j] == CountsOver(rest, labs[1..])[j] {
          assert labs[1..][j] != a;
        }
      }
    }
  }

  /** The predictions of the rows whose true label is `a`. */
  function PredsFor(truth: seq<int>, pred: seq<int>, a: int): (r: seq<int>)
    requires |truth| == |pred|
    ensures |r| == CountOf(truth, a)
    ensures forall b :: CountOf(r, b) == CountPair(truth, pred, a, b)
    ensures forall v :: v in r ==> v in pred
  {
    if truth == [] then []
    else
      assert truth == [truth[0]] + truth[1..];
      assert pred == [pred[0]] + pred[1..];
      if truth[0] == a then [pred[0]] + PredsFor(truth[1..], pred[1..], a)
      else PredsFor(truth[1..], pred[1..], a)
  }

  /** The true labels of the rows that are predicted correctly. */
  function Agreements(truth: seq<int>, pred: seq<int>): (r: seq<int>)
    requires |truth| == |pred|
    ensures |r| == CountCorrect(truth, pred)
    ensures forall v :: CountOf(r, v) == CountPair(truth, pred, v, v)
    ensures forall v :: v in r ==> v in truth
  {
    if truth == [] then []
    else
      assert truth == [truth[0]] + truth[1..];
      if truth[0] == pred[0] then [truth[0]] + Agreements(truth[1..], pred[1..])
      else Agreements(truth[1..], pred[1..])
  }

  function RowTotals(m: seq<seq<nat>>): (r: seq<nat>)
    ensures |r| == |m| && forall i :: 0 <= i < |m| ==> r[i] == Sum(m[i])
  {
    seq(|m|, i requires 0 <= i < |m| => Sum(m[i]))
  }

  function Diagonal(m: seq<seq<nat>>): (r: seq<nat>)
    requires forall i :: 0 <= i < |m| ==> |m[i]| == |m|
    ensures |r| == |m| && forall i :: 0 <= i < |m| ==> r[i] == m[i][i]
  {
    seq(|m|, i requires 0 <= i < |m| => m[i][i])
  }

  /** Row `i` of the matrix adds up to the number of rows whose true label
      is the `i`-th label. */
  lemma ConfusionRowSums(truth: seq<int>, pred: seq<int>)
    requires |truth| == |pred|
    ensures var m := ConfusionMatrix(truth, pred).value;
      var labs := AxisLabels(truth, pred);
      forall i :: 0 <= i < |m| ==> Sum(m[i]) == CountOf(truth, labs[i])
  {
    var m := ConfusionMatrix(truth, pred).value;
    var labs := AxisLabels(truth, pred);
    forall i | 0 <= i < |m| ensures Sum(m[i]) == CountOf(truth, labs[i]) {
      var p := PredsFor(truth, pred, labs[i]);
      assert m[i] == CountsOver(p, labs);
      SumOfCounts(p, labs);
    }
  }

  /** All entries together count every test row once. */
  lemma ConfusionTotal(truth: seq<int>, pred: seq<int>)
    requires |truth| == |pred|
    ensures Sum(RowTotals(ConfusionMatrix(truth, pred).value)) == |truth|
  {
    var m := ConfusionMatrix(truth, pred).value;
    var labs := AxisLabels(truth, pred);
    ConfusionRowSums(truth, pred);
    assert RowTotals(m) == CountsOver(truth, labs);
    SumOfCounts(truth, labs);
  }

  /** The trace is the number of rows predicted correctly. */
  lemma ConfusionTrace(truth: seq<int>, pred: seq<int>)
    requires |truth| == |pred|
    ensures Sum(Diagonal(ConfusionMatrix(truth, pred).value)) == CountCorrect(truth, pred)
  {
    var m := ConfusionMatrix(truth, pred).value;
    var labs := AxisLabels(truth, pred);
    var agree := Agreements(truth, pred);
    assert Diagonal(m) == CountsOver(agree, labs);
    SumOfCounts(agree, labs);
  }

  // ---------------------------------------------------------------------
  // Feature ranking
  // ---------------------------------------------------------------------

  type Ranked = (string, real)

  const TopCount: nat := 10

  /** `pd.DataFrame({'Feature': names, 'Importance': importances})`. */
  function Zip(names: seq<string>, imps: seq<real>): (r: seq<Ranked>)
    requires |names| == |imps|
    ensures |r| == |names| && forall i :: 0 <= i < |r| ==> r[i] == (names[i], imps[i])
  {
    seq(|names|, i requires 0 <= i < |names| => (names[i], imps[i]))
  }

  ghost predicate NonIncreasing(s: seq<Ranked>) {
    forall i, j :: 0 <= i < j < |s| ==> s[i].1 >= s[j].1
  }

  function InsertDesc(p: Ranked, s: seq<Ranked>): (r: seq<Ranked>)
    ensures multiset(r) == multiset(s) + multiset{p}
  {
    if s == [] then [p]
    else if p.1 >= s[0].1 then [p] + s
    else
      assert s == [s[0]] + s[1..];
      [s[0]] + InsertDesc(p, s[1..])
  }

  /** An entry at least as important as everything in a non-increasing
      list can go in front of it. */
  lemma ConsSorted(x: Ranked, rest: seq<Ranked>)
    requires NonIncreasing(rest)
    requires forall y :: y in rest ==> y.1 <= x.1
    ensures NonIncreasing([x] + rest)
  {
    var r := [x] + rest;
    forall i, j | 0 <= i < j < |r| ensures r[i].1 >= r[j].1 {
      assert r[j] == rest[j - 1];
      if i > 0 { assert r[i] == rest[i - 1]; } else { assert rest[j - 1] in rest; }
    }
  }

  /** The head of a non-increasing list is at least as important as every
      entry of its tail. */
  lemma HeadBounds(s: seq<Ranked>)
    requires NonIncreasing(s) && s != []
    ensures forall y :: y in multiset(s[1..]) ==> y.1 <= s[0].1
  {
    forall y | y in multiset(s[1..]) ensures y.1 <= s[0].1 {
      assert y in s[1..];
      var j :| 0 <= j < |s| - 1 && s[1..][j] == y;
      assert s[j + 1] == y;
    }
  }

  lemma {:induction false} InsertDescSorted(p: Ranked, s: seq<Ranked>)
    requires NonIncreasing(s)
    ensures NonIncreasing(InsertDesc(p, s))
  {
    if s == [] {
      assert InsertDesc(p, s) == [p];
    } else if p.1 < s[0].1 {
      var tail := s[1..];
      var rest := InsertDesc(p, tail);
      assert InsertDesc(p, s) == [s[0]] + rest;
      assert NonIncreasing(tail);
      InsertDescSorted(p, tail);
      HeadBounds(s);
      assert multiset(rest) == multiset(tail) + multiset{p};
      assert forall y :: y in rest ==> y in multiset(tail) + multiset{p};
      ConsSorted(s[0], rest);
    } else {
      assert InsertDesc(p, s) == [p] + s;
      ConsSorted(p, s) by {
        forall y | y in s ensures y.1 <= p.1 {
          var j :| 0 <= j < |s| && s[j] == y;
          if j > 0 { assert s[0].1 >= s[j].1; }
        }
      }
    }
  }

  /** `sort_values(by='Importance', ascending=False)`. The order among equal
      importances is one particular choice, and nothing below depends on it. */
  function SortDesc(ps: seq<Ranked>): (r: seq<Ranked>)
    ensures NonIncreasing(r) && multiset(r) == multiset(ps)
  {
    if ps == [] then [] else
      assert ps == [ps[0]] + ps[1..];
      var rest := SortDesc(ps[1..]);
      InsertDescSorted(ps[0], rest);
      InsertDesc(ps[0], rest)
  }

  function Min(a: nat, b: nat): nat { if a <= b then a else b }

  /** The sort and `head(10)`; columns of different lengths are a
      ValueError of the frame constructor. */
  function TopFeatures(names: seq<string>, imps: seq<real>): (r: Result<seq<Ranked>>)
    ensures r.Err? <==> |names| != |imps|
    ensures r.Err? ==> r.error == LengthMismatch
  {
    if |names| != |imps| then Err(LengthMismatch)
    else
      var sorted := SortDesc(Zip(names, imps));
      Ok(sorted[..Min(TopCount, |sorted|)])
  }

  lemma TwiceCounted<T>(s: seq<T>, i: nat, j: nat)
    requires i < j < |s| && s[i] == s[j]
    ensures multiset(s)[s[i]] >= 2
  {
    assert s == s[..j] + s[j..];
    assert s[i] in s[..j];
    assert s[j] in s[j..];
  }

  lemma {:induction false} DistinctOnce<T>(s: seq<T>, x: T)
    requires Distinct(s)
    ensures multiset(s)[x] <= 1
  {
    if s != [] {
      DistinctOnce(s[1..], x);
      assert s == [s[0]] + s[1..];
    }
  }

  ghost predicate DistinctNames(s: seq<Ranked>) {
    forall i, j :: 0 <= i < j < |s| ==> s[i].0 != s[j].0
  }

  /** Entries taken, as a sub-multiset, from a list without repeated names
      have no repeated names either. */
  lemma DistinctNamesSub(ps: seq<Ranked>, r: seq<Ranked>)
    requires DistinctNames(ps) && multiset(r) <= multiset(ps)
    ensures DistinctNames(r)
  {
    assert Distinct(ps);
    forall i, j | 0 <= i < j < |r| ensures r[i].0 != r[j].0 {
      if r[i].0 == r[j].0 {
        assert r[i] in multiset(ps) && r[j] in multiset(ps);
        var p :| 0 <= p < |ps| && ps[p] == r[i];
        var q :| 0 <= q < |ps| && ps[q] == r[j];
        assert p == q;
        TwiceCounted(r, i, j);
        DistinctOnce(ps, r[i]);
      }
    }
  }

  /** The first `min(10, n)` entries of the sorted list are that many
      entries taken from the list. */
  lemma TopShape(ps: seq<Ranked>)
    ensures var sorted := SortDesc(ps);
      var r := sorted[..Min(TopCount, |sorted|)];
      |r| == Min(TopCount, |ps|) && multiset(r) <= multiset(ps)
  {
    var sorted := SortDesc(ps);
    var k := Min(TopCount, |sorted|);
    assert sorted == sorted[..k] + sorted[k..];
    assert |sorted| == |multiset(sorted)| == |multiset(ps)| == |ps|;
  }

  /** The ranking has `min(10, n)` entries, each a feature name paired with
      that feature's own importance, and no feature twice when the names
      are distinct. */
  lemma RankingShape(names: seq<string>, imps: seq<real>)
    requires |names| == |imps|
    ensures var r := TopFeatures(names, imps).value;
      && |r| == Min(TopCount, |names|)
      && multiset(r) <= multiset(Zip(names, imps))
      && (forall e :: e in r ==> exists i :: 0 <= i < |names| && e == (names[i], imps[i]))
      && (Distinct(names) ==> DistinctNames(r))
  {
    var z := Zip(names, imps);
    var r := TopFeatures(names, imps).value;
    TopShape(z);
    forall e | e in r ensures exists i :: 0 <= i < |names| && e == (names[i], imps[i]) {
      assert e in multiset(r);
      assert e in multiset(z);
      var i :| 0 <= i < |z| && z[i] == e;
    }
    if Distinct(names) {
      assert DistinctNames(z);
      DistinctNamesSub(z, r);
    }
  }

  /** In a list of non-increasing importances, everything after position
      `k - 1` is no more important than the entry there. */
  lemma TailBelow(s: seq<Ranked>, k: nat)
    requires NonIncreasing(s) && 0 < k <= |s|
    ensures forall e :: e in s[k..] ==> e.1 <= s[k - 1].1
  {
    forall e | e in s[k..] ensures e.1 <= s[k - 1].1 {
      var m :| 0 <= m < |s| - k && s[k..][m] == e;
      assert s[k + m] == e;
    }
  }

  /** What a prefix of a non-increasing list leaves out is no more
      important than the prefix's last entry. */
  lemma PrefixOrder(s: seq<Ranked>, k: nat)
    requires NonIncreasing(s) && k <= |s|
    ensures NonIncreasing(s[..k])
    ensures k > 0 ==> forall e: Ranked :: e in multiset(s) - multiset(s[..k]) ==> e.1 <= s[k - 1].1
  {
    assert s == s[..k] + s[k..];
    assert multiset(s) - multiset(s[..k]) == multiset(s[k..]);
    if k > 0 { TailBelow(s, k); }
  }

  /** The first `min(10, n)` entries of the sorted list are in order, and
      what they leave out is no more important than their last entry. */
  lemma TopOrder(ps: seq<Ranked>)
    ensures var sorted := SortDesc(ps);
      var r := sorted[..Min(TopCount, |sorted|)];
      && NonIncreasing(r)
      && (r != [] ==> forall e: Ranked :: e in multiset(ps) - multiset(r) ==> e.1 <= r[|r| - 1].1)
  {
    var sorted := SortDesc(ps);
    PrefixOrder(sorted, Min(TopCount, |sorted|));
  }

  /** The importances in the ranking do not increase, and every feature
      left out of it is no more important than the last one ranked. */
  lemma RankingOrder(names: seq<string>, imps: seq<real>)
    requires |names| == |imps|
    ensures var r := TopFeatures(names, imps).value;
      && NonIncreasing(r)
      && (r != [] ==> forall e: Ranked :: e in multiset(Zip(names, imps)) - multiset(r) ==> e.1 <= r[|r| - 1].1)
  {
    TopOrder(Zip(names, imps));
  }
}
