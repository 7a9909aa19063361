/** The partition half of `split_and_save`: the features are the frame
    without the label column, the labels are that column, and
    `train_test_split(X, y, test_size=0.20, stratify=y)` cuts both into a
    train and a test part with aligned rows.

    The random draw is taken from a chooser: `train` and `test` are the
    positions of the rows that go to each part, in the order they appear
    there. What scikit-learn guarantees about that draw is stated by
    `StratifiedChoice`: together the two lists order every row once, the
    test part has `ceil(0.2 * n)` rows, and each class contributes to the
    train part the floor or the ceiling of its proportional share (the
    rest of the class goes to the test part). */
module Splitter {
  import opened Tables
  import opened Picking

  datatype Split = Split(xTrain: Table, xTest: Table, yTrain: seq<Cell>, yTest: seq<Cell>)

  /** `ceil(test_size * n)` for `test_size = 0.20`. */
  function TestSize(n: nat): (k: nat)
    ensures 5 * k >= n
    ensures k > 0 ==> 5 * (k - 1) < n
  {
    (n + 4) / 5
  }

  /** With `train_size=None` the train part takes the remaining rows. */
  function TrainSize(n: nat): nat {
    n - TestSize(n)
  }

  function Count(ys: seq<Cell>, y: Cell): nat {
    multiset(ys)[y]
  }

  /** `k` items of a class of `c` among `n`, in a part of `size`, differ
      from the class's proportional share `size * c / n` by less than one. */
  predicate NearShare(k: nat, size: nat, c: nat, n: nat) {
    n * k - size * c < n && size * c - n * k < n
  }

  /** The checks `train_test_split` makes before drawing: no missing label
      (a NaN in `y` is refused), no mix of texts with other labels (numpy
      cannot sort them to find the classes), a non-empty train part, at
      least two members in every class, and room for every class in both
      parts. */
  predicate Feasible(ys: seq<Cell>) {
    var classes := set y | y in ys;
    && Missing !in ys
    && (forall a, b :: a in ys && b in ys ==> (a.Text? <==> b.Text?))
    && TrainSize(|ys|) > 0
    && (forall y :: y in ys ==> Count(ys, y) >= 2)
    && |classes| <= TrainSize(|ys|)
    && |classes| <= TestSize(|ys|)
  }

  /** What the stratified draw can deliver. */
  predicate StratifiedChoice(ys: seq<Cell>, train: seq<nat>, test: seq<nat>) {
    var n := |ys|;
    && InRange(train, n) && InRange(test, n)
    && IsPermutation(train + test, n)
    && |test| == TestSize(n)
    && forall y :: y in ys ==> NearShare(Count(Pick(ys, train), y), TrainSize(n), Count(ys, y), n)
  }

  /** A missing label column is a KeyError of the drop; a draw that the
      splitter refuses is a ValueError; otherwise the two parts. */
  function SplitFrame(t: Table, target: string, train: seq<nat>, test: seq<nat>): (r: Result<Split>)
    requires target in t.columns && Feasible(Labels(t.rows, target)) ==>
      StratifiedChoice(Labels(t.rows, target), train, test)
    ensures r.Err? ==> r.error == (if target in t.columns then InvalidSplit else MissingColumn(target))
    ensures r.Ok? <==> target in t.columns && Feasible(Labels(t.rows, target))
    ensures r.Ok? ==>
      var n := |t.rows|;
      && r.value.xTrain.columns == Without(t.columns, {target})
      && (forall c :: c in r.value.xTrain.columns <==> c in t.columns && c != target)
      && r.value.xTest.columns == r.value.xTrain.columns
      && |r.value.xTest.rows| == |r.value.yTest| == TestSize(n)
      && |r.value.xTrain.rows| == |r.value.yTrain| == n - TestSize(n)
  {
    if target !in t.columns then Err(MissingColumn(target))
    else
      var ys := Labels(t.rows, target);
      if !Feasible(ys) then Err(InvalidSplit)
      else
        var x := Drop(t, {target});
        assert |train + test| == |t.rows|;
        Ok(Split(Table(x.columns, Pick(x.rows, train)), Table(x.columns, Pick(x.rows, test)),
                 Pick(ys, train), Pick(ys, test)))
  }

  /** Row `j` of each feature part and label `j` of the matching label part
      come from the same input row: the row without its label, and its
      label. Both feature parts are well formed when the frame is. */
  lemma SplitAligned(t: Table, target: string, train: seq<nat>, test: seq<nat>)
    requires target in t.columns && Feasible(Labels(t.rows, target))
    requires StratifiedChoice(Labels(t.rows, target), train, test)
    ensures var s := SplitFrame(t, target, train, test).value;
      && (forall j :: 0 <= j < |train| ==>
            train[j] < |t.rows| &&
            s.xTrain.rows[j] == t.rows[train[j]] - {target} && s.yTrain[j] == LabelOf(t.rows[train[j]], target))
      && (forall j :: 0 <= j < |test| ==>
            test[j] < |t.rows| &&
            s.xTest.rows[j] == t.rows[test[j]] - {target} && s.yTest[j] == LabelOf(t.rows[test[j]], target))
      && (WellFormed(t) ==> WellFormed(s.xTrain) && WellFormed(s.xTest))
  {
  }

  /** Two lists of positions that together order all of `s` pick two
      parts whose multisets add up to that of `s`. */
  lemma PartsAddUp<T>(s: seq<T>, train: seq<nat>, test: seq<nat>)
    requires InRange(train, |s|) && InRange(test, |s|) && IsPermutation(train + test, |s|)
    ensures multiset(Pick(s, train)) + multiset(Pick(s, test)) == multiset(s)
  {
    PickConcat(s, train, test);
    PickSubMultiset(s, train + test);
  }

  /** Two lists of positions that together order `n` positions are
      disjoint and cover them all. */
  lemma PositionsPartition(train: seq<nat>, test: seq<nat>, n: nat)
    requires IsPermutation(train + test, n)
    ensures forall i, j :: 0 <= i < |train| && 0 <= j < |test| ==> train[i] != test[j]
    ensures forall k :: 0 <= k < n ==> k in train || k in test
  {
    forall i, j | 0 <= i < |train| && 0 <= j < |test| ensures train[i] != test[j] {
      assert (train + test)[i] == train[i] && (train + test)[|train| + j] == test[j];
    }
    PermutationCovers(train + test, n);
    forall k | 0 <= k < n ensures k in train || k in test {
      var all := train + test;
      assert k in all;
      var p :| 0 <= p < |all| && all[p] == k;
      if p >= |train| { assert test[p - |train|] == k; } else { assert train[p] == k; }
    }
  }

  lemma SplitParts(t: Table, target: string, train: seq<nat>, test: seq<nat>)
    requires target in t.columns && Feasible(Labels(t.rows, target))
    requires StratifiedChoice(Labels(t.rows, target), train, test)
    ensures var s := SplitFrame(t, target, train, test).value;
      && s.xTrain.rows == Pick(Drop(t, {target}).rows, train)
      && s.xTest.rows == Pick(Drop(t, {target}).rows, test)
      && s.yTrain == Pick(Labels(t.rows, target), train)
      && s.yTest == Pick(Labels(t.rows, target), test)
  {
  }

  /** The two parts share no row and together hold every row once. */
  lemma SplitPartition(t: Table, target: string, train: seq<nat>, test: seq<nat>)
    requires target in t.columns && Feasible(Labels(t.rows, target))
    requires StratifiedChoice(Labels(t.rows, target), train, test)
    ensures forall i, j :: 0 <= i < |train| && 0 <= j < |test| ==> train[i] != test[j]
    ensures forall k :: 0 <= k < |t.rows| ==> k in train || k in test
    ensures var s := SplitFrame(t, target, train, test).value;
      && multiset(s.xTrain.rows) + multiset(s.xTest.rows) == multiset(Drop(t, {target}).rows)
      && multiset(s.yTrain) + multiset(s.yTest) == multiset(Labels(t.rows, target))
  {
    PositionsPartition(train, test, |t.rows|);
    SplitParts(t, target, train, test);
    PartsAddUp(Drop(t, {target}).rows, train, test);
    PartsAddUp(Labels(t.rows, target), train, test);
  }

  /** If the train part holds `a` of a class of `c` within its share, the
      test part, holding the other `b`, is within its share too. */
  lemma ShareOfRest(n: nat, c: nat, a: nat, b: nat)
    requires a + b == c && NearShare(a, TrainSize(n), c, n)
    ensures NearShare(b, TestSize(n), c, n)
  {
    assert n * b == n * c - n * a;
    assert TestSize(n) * c == n * c - TrainSize(n) * c;
  }

  /** Every class gets its proportional share of the test part, within one
      row: what the train part takes of a class within its share, the test
      part receives of the rest. */
  lemma SplitStratified(t: Table, target: string, train: seq<nat>, test: seq<nat>)
    requires target in t.columns && Feasible(Labels(t.rows, target))
    requires StratifiedChoice(Labels(t.rows, target), train, test)
    ensures var s := SplitFrame(t, target, train, test).value;
      var ys := Labels(t.rows, target);
      forall y :: y in ys ==> NearShare(Count(s.yTest, y), TestSize(|ys|), Count(ys, y), |ys|)
  {
    var ys := Labels(t.rows, target);
    var s := SplitFrame(t, target, train, test).value;
    SplitParts(t, target, train, test);
    PartsAddUp(ys, train, test);
    forall y | y in ys ensures NearShare(Count(s.yTest, y), TestSize(|ys|), Count(ys, y), |ys|) {
      ShareOfRest(|ys|, Count(ys, y), Count(s.yTrain, y), Count(s.yTest, y));
    }
  }

  /** A balanced frame of 10 fraud and 10 normal rows splits into 16 train
      and 4 test rows, and each part holds both classes equally: 8 and 8,
      2 and 2. */
  lemma SplitTwentyRows(t: Table, target: string, train: seq<nat>, test: seq<nat>)
    requires target in t.columns && |t.rows| == 20
    requires Count(Labels(t.rows, target), Num(1)) == 10 && Count(Labels(t.rows, target), Num(0)) == 10
    requires target in t.columns && Feasible(Labels(t.rows, target)) ==>
      StratifiedChoice(Labels(t.rows, target), train, test)
    ensures SplitFrame(t, target, train, test).Ok?
    ensures var s := SplitFrame(t, target, train, test).value;
      && |s.xTrain.rows| == 16 && |s.xTest.rows| == 4
      && Count(s.yTest, Num(1)) == 2 && Count(s.yTest, Num(0)) == 2
      && Count(s.yTrain, Num(1)) == 8 && Count(s.yTrain, Num(0)) == 8
  {
    var ys := Labels(t.rows, target);
    BinaryClasses(ys);
    assert TestSize(20) == 4;
    SplitPartition(t, target, train, test);
    SplitStratified(t, target, train, test);
    var s := SplitFrame(t, target, train, test).value;
    assert Num(1) in ys && Num(0) in ys;
    assert NearShare(Count(s.yTest, Num(1)), 4, 10, 20);
    assert NearShare(Count(s.yTest, Num(0)), 4, 10, 20);
    assert multiset(s.yTrain)[Num(1)] + multiset(s.yTest)[Num(1)] == 10;
    assert multiset(s.yTrain)[Num(0)] + multiset(s.yTest)[Num(0)] == 10;
  }

  /** Three different values together occur at most as often as the
      sequence is long. */
  lemma {:induction false} ThreeCounts<T>(s: seq<T>, a: T, b: T, c: T)
    ensures a != b && b != c && a != c ==> multiset(s)[a] + multiset(s)[b] + multiset(s)[c] <= |s|
  {
    if s != [] {
      ThreeCounts(s[1..], a, b, c);
      assert s == [s[0]] + s[1..];
    }
  }

  /** A label column of 20 cells, 10 of them 1 and 10 of them 0, holds
      nothing else and passes the splitter's checks. */
  lemma BinaryClasses(ys: seq<Cell>)
    requires |ys| == 20 && Count(ys, Num(1)) == 10 && Count(ys, Num(0)) == 10
    ensures (set y | y in ys) == {Num(0), Num(1)}
    ensures Feasible(ys)
  {
    forall y | y in ys ensures y == Num(0) || y == Num(1) {
      assert Count(ys, y) >= 1;
      ThreeCounts(ys, Num(0), Num(1), y);
    }
    assert Num(0) in multiset(ys) && Num(1) in multiset(ys);
  }
}
