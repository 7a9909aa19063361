/** The balancing and splitting stages of `main`, chained: what a frame with
    few fraud rows looks like once it has been undersampled and split. */
module Pipeline {
  import opened Tables
  import opened Balancer
  import opened Splitter

  /** Ten fraud rows among more normal rows balance to twenty rows, which
      split into 16 train and 4 test rows, with two rows of each class in
      the test part and eight of each in the train part. */
  lemma BalanceThenSplit(t: Table, target: string, sample: seq<nat>, order: seq<nat>,
                         train: seq<nat>, test: seq<nat>)
    requires target in t.columns && ValidChoice(t.rows, target, sample, order)
    requires CountFraud(t.rows, target) == 10 < CountNormal(t.rows, target)
    requires var b := Balance(t, target, sample, order).value;
      Feasible(Labels(b.rows, target)) ==> StratifiedChoice(Labels(b.rows, target), train, test)
    ensures var b := Balance(t, target, sample, order).value;
      && SplitFrame(b, target, train, test).Ok?
      && var s := SplitFrame(b, target, train, test).value;
      && |s.xTrain.rows| == 16 && |s.xTest.rows| == 4
      && Count(s.yTest, Fraud) == 2 && Count(s.yTest, Normal) == 2
      && Count(s.yTrain, Fraud) == 8 && Count(s.yTrain, Normal) == 8
  {
    var b := Balance(t, target, sample, order).value;
    BalanceUndersamples(t, target, sample, order);
    SplitTwentyRows(b, target, train, test);
  }
}
