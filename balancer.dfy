/** `balance_data`: count-based undersampling of the normal class.

    The random draw `normal_df.sample(n=count_fraud)` and the final shuffle
    `sample(frac=1)` are taken from a chooser: `sample` names the positions
    within the normal rows that are drawn, in draw order, and `order` is the
    permutation the shuffle applies. Any such choice is allowed; the seed
    that fixes one of them is not modelled. */
module Balancer {
  import opened Tables
  import opened Picking

  const Fraud: Cell := Num(1)
  const Normal: Cell := Num(0)

  /** `df[df[target] == label]`: the rows carrying that label, in order. */
  function Select(rows: seq<Row>, target: string, lab: Cell): (r: seq<Row>)
    ensures forall j :: 0 <= j < |r| ==> LabelOf(r[j], target) == lab
  {
    if rows == [] then []
    else if LabelOf(rows[0], target) == lab then [rows[0]] + Select(rows[1..], target, lab)
    else Select(rows[1..], target, lab)
  }

  /** The selection has as many rows as the label column has cells equal
      to the label. */
  lemma {:induction false} SelectCount(rows: seq<Row>, target: string, lab: Cell)
    ensures |Select(rows, target, lab)| == multiset(Labels(rows, target))[lab]
  {
    if rows != [] {
      SelectCount(rows[1..], target, lab);
      var x, rest := rows[0], Select(rows[1..], target, lab);
      assert rows == [x] + rows[1..];
      LabelsConcat([x], rows[1..], target);
      assert Labels([x], target) == [LabelOf(x, target)];
      assert multiset(Labels(rows, target)) == multiset{LabelOf(x, target)} + multiset(Labels(rows[1..], target));
      if LabelOf(x, target) == lab {
        assert Select(rows, target, lab) == [x] + rest;
      } else {
        assert Select(rows, target, lab) == rest;
      }
    }
  }

  /** Rows of two different labels never overlap: both selections together
      are still a sub-multiset of the frame. */
  lemma {:induction false} SelectDisjoint(rows: seq<Row>, target: string, a: Cell, b: Cell)
    requires a != b
    ensures multiset(Select(rows, target, a)) + multiset(Select(rows, target, b)) <= multiset(rows)
  {
    if rows != [] {
      SelectDisjoint(rows[1..], target, a, b);
      assert rows == [rows[0]] + rows[1..];
      var x := rows[0];
      var sa, sb := Select(rows[1..], target, a), Select(rows[1..], target, b);
      if LabelOf(x, target) == a {
        assert Select(rows, target, a) == [x] + sa && Select(rows, target, b) == sb;
      } else if LabelOf(x, target) == b {
        assert Select(rows, target, a) == sa && Select(rows, target, b) == [x] + sb;
      } else {
        assert Select(rows, target, a) == sa && Select(rows, target, b) == sb;
      }
    }
  }

  function CountFraud(rows: seq<Row>, target: string): nat {
    |Select(rows, target, Fraud)|
  }

  function CountNormal(rows: seq<Row>, target: string): nat {
    |Select(rows, target, Normal)|
  }

  /** Size of the frame before the shuffle. */
  function CombinedSize(rows: seq<Row>, target: string): nat {
    if CountFraud(rows, target) < CountNormal(rows, target)
    then 2 * CountFraud(rows, target) else |rows|
  }

  /** What the random draw and the shuffle can deliver. */
  predicate ValidChoice(rows: seq<Row>, target: string, sample: seq<nat>, order: seq<nat>) {
    && (CountFraud(rows, target) < CountNormal(rows, target) ==>
          IsSample(sample, CountNormal(rows, target), CountFraud(rows, target)))
    && IsPermutation(order, CombinedSize(rows, target))
  }

  /** The frame before the shuffle. */
  function Combined(rows: seq<Row>, target: string, sample: seq<nat>): (c: seq<Row>)
    requires CountFraud(rows, target) < CountNormal(rows, target) ==>
      IsSample(sample, CountNormal(rows, target), CountFraud(rows, target))
    ensures |c| == CombinedSize(rows, target)
  {
    var fraud := Select(rows, target, Fraud);
    var normal := Select(rows, target, Normal);
    if |fraud| < |normal| then fraud + Pick(normal, sample) else rows
  }

  /** A missing label column is a KeyError; otherwise the frame keeps its
      columns, and has `2 * count_fraud` rows when fraud is the minority
      and all its rows otherwise. */
  function Balance(t: Table, target: string, sample: seq<nat>, order: seq<nat>): (r: Result<Table>)
    requires target in t.columns ==> ValidChoice(t.rows, target, sample, order)
    ensures r.Err? <==> target !in t.columns
    ensures r.Err? ==> r.error == MissingColumn(target)
    ensures r.Ok? ==> r.value.columns == t.columns
    ensures r.Ok? && CountFraud(t.rows, target) < CountNormal(t.rows, target) ==>
      |r.value.rows| == 2 * CountFraud(t.rows, target)
    ensures r.Ok? && CountFraud(t.rows, target) >= CountNormal(t.rows, target) ==>
      |r.value.rows| == |t.rows|
  {
    if target !in t.columns then Err(MissingColumn(target))
    else Ok(Table(t.columns, Pick(Combined(t.rows, target, sample), order)))
  }

  lemma LabelsPick(rows: seq<Row>, target: string, idx: seq<nat>)
    requires InRange(idx, |rows|)
    ensures Labels(Pick(rows, idx), target) == Pick(Labels(rows, target), idx)
  {
  }

  /** The shuffle keeps the multiset of rows, and so the label counts. */
  lemma ShuffleKeeps(c: seq<Row>, target: string, order: seq<nat>)
    requires IsPermutation(order, |c|)
    ensures multiset(Pick(c, order)) == multiset(c)
    ensures multiset(Labels(Pick(c, order), target)) == multiset(Labels(c, target))
  {
    PickSubMultiset(c, order);
    LabelsPick(c, target, order);
    PickSubMultiset(Labels(c, target), order);
  }

  /** In both branches every output row is an input row, taken as a
      sub-multiset, and a well-formed frame stays well formed. */
  lemma BalanceSubMultiset(t: Table, target: string, sample: seq<nat>, order: seq<nat>)
    requires target in t.columns && ValidChoice(t.rows, target, sample, order)
    ensures multiset(Balance(t, target, sample, order).value.rows) <= multiset(t.rows)
    ensures WellFormed(t) ==> WellFormed(Balance(t, target, sample, order).value)
  {
    var fraud := Select(t.rows, target, Fraud);
    var normal := Select(t.rows, target, Normal);
    var c := Combined(t.rows, target, sample);
    ShuffleKeeps(c, target, order);
    if |fraud| < |normal| {
      PickSubMultiset(normal, sample);
      SelectDisjoint(t.rows, target, Fraud, Normal);
      assert multiset(c) == multiset(fraud) + multiset(Pick(normal, sample));
    }
    var out := Balance(t, target, sample, order).value;
    forall j | 0 <= j < |out.rows| ensures out.rows[j] in t.rows {
      assert out.rows[j] in multiset(out.rows);
    }
  }

  /** Before the shuffle, the undersampled frame is the fraud rows followed
      by the drawn normal rows: `f` labels 1, then `f` labels 0. */
  lemma CombinedLabels(rows: seq<Row>, target: string, sample: seq<nat>)
    requires CountFraud(rows, target) < CountNormal(rows, target)
    requires IsSample(sample, CountNormal(rows, target), CountFraud(rows, target))
    ensures var c := Labels(Combined(rows, target, sample), target);
      var f := CountFraud(rows, target);
      && multiset(c)[Fraud] == f && multiset(c)[Normal] == f
      && forall k :: 0 <= k < |c| ==> c[k] in {Fraud, Normal}
  {
    var fraud := Select(rows, target, Fraud);
    var normal := Select(rows, target, Normal);
    var drawn := Pick(normal, sample);
    assert Combined(rows, target, sample) == fraud + drawn;
    LabelsConcat(fraud, drawn, target);
    UniformCount(Labels(fraud, target), Fraud);
    assert forall k :: 0 <= k < |drawn| ==> drawn[k] == normal[sample[k]];
    UniformCount(Labels(drawn, target), Normal);
  }

  /** When fraud is the minority the result holds every fraud row, exactly
      `count_fraud` fraud rows and `count_fraud` normal rows, and nothing
      else: rows with any other label are dropped. */
  lemma BalanceUndersamples(t: Table, target: string, sample: seq<nat>, order: seq<nat>)
    requires target in t.columns && ValidChoice(t.rows, target, sample, order)
    requires CountFraud(t.rows, target) < CountNormal(t.rows, target)
    ensures var out := Balance(t, target, sample, order).value.rows;
      var f := CountFraud(t.rows, target);
      && |out| == 2 * f
      && multiset(Labels(out, target))[Fraud] == f
      && multiset(Labels(out, target))[Normal] == f
      && multiset(Select(t.rows, target, Fraud)) <= multiset(out)
      && forall j :: 0 <= j < |out| ==> LabelOf(out[j], target) in {Fraud, Normal}
  {
    var c := Combined(t.rows, target, sample);
    ShuffleKeeps(c, target, order);
    assert c == Select(t.rows, target, Fraud) + Pick(Select(t.rows, target, Normal), sample);
    CombinedLabels(t.rows, target, sample);
    var out := Balance(t, target, sample, order).value.rows;
    forall j | 0 <= j < |out| ensures LabelOf(out[j], target) in {Fraud, Normal} {
      assert out[j] == c[order[j]];
      assert Labels(c, target)[order[j]] == LabelOf(c[order[j]], target);
    }
  }

  /** When fraud is not the minority the result is a permutation of the
      input: the same multiset of rows, every label count unchanged, and
      rows with a label other than 0 or 1 kept. */
  lemma BalanceKeepsAll(t: Table, target: string, sample: seq<nat>, order: seq<nat>)
    requires target in t.columns && ValidChoice(t.rows, target, sample, order)
    requires CountFraud(t.rows, target) >= CountNormal(t.rows, target)
    ensures multiset(Balance(t, target, sample, order).value.rows) == multiset(t.rows)
    ensures multiset(Labels(Balance(t, target, sample, order).value.rows, target)) ==
            multiset(Labels(t.rows, target))
  {
    ShuffleKeeps(t.rows, target, order);
  }
}
