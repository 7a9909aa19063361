/** A data frame as the pre-processing stages see it: an ordered list of
    column names and a sequence of rows, each row mapping a column name to
    its cell. */
module Tables {

  /** One cell: an integer, a text, a boolean (the dtype of indicator
      columns) or an absent value. */
  datatype Cell = Num(n: int) | Text(s: string) | Flag(b: bool) | Missing

  type Row = map<string, Cell>

  datatype Table = Table(columns: seq<string>, rows: seq<Row>)

  /** The failures the stages raise: a KeyError for an absent column, the
      ValueError of the stratified splitter, the ValueError of a frame built
      from columns of different lengths. */
  datatype Error = MissingColumn(name: string) | InvalidSplit | LengthMismatch

  datatype Result<T> = Ok(value: T) | Err(error: Error)

  predicate Distinct<T(==)>(s: seq<T>) {
    forall i, j :: 0 <= i < j < |s| ==> s[i] != s[j]
  }

  /** The shape every frame has: no column named twice, and every row holds
      exactly the table's columns. */
  predicate WellFormed(t: Table) {
    && Distinct(t.columns)
    && forall i :: 0 <= i < |t.rows| ==> t.rows[i].Keys == set c | c in t.columns
  }

  /** Position of a column in a list of names. */
  function IndexOf(cols: seq<string>, c: string): (k: nat)
    requires c in cols
    ensures k < |cols| && cols[k] == c
    ensures forall j :: 0 <= j < k ==> cols[j] != c
  {
    if cols[0] == c then 0 else 1 + IndexOf(cols[1..], c)
  }

  /** The names of `cols` that are not in `ds`, in their original order. */
  function Without(cols: seq<string>, ds: set<string>): (r: seq<string>)
    ensures forall c :: c in r <==> c in cols && c !in ds
    ensures Distinct(cols) ==> Distinct(r)
  {
    if cols == [] then []
    else if cols[0] in ds then Without(cols[1..], ds)
    else [cols[0]] + Without(cols[1..], ds)
  }

  /** Removing names keeps the relative order of the names that stay. */
  lemma {:induction false} WithoutKeepsOrder(cols: seq<string>, ds: set<string>)
    requires Distinct(cols)
    ensures forall i, j :: 0 <= i < j < |Without(cols, ds)| ==>
      IndexOf(cols, Without(cols, ds)[i]) < IndexOf(cols, Without(cols, ds)[j])
  {
    if cols != [] {
      var rest := Without(cols[1..], ds);
      WithoutKeepsOrder(cols[1..], ds);
      forall x | x in rest ensures IndexOf(cols, x) == 1 + IndexOf(cols[1..], x) {
        assert x != cols[0];
      }
    }
  }

  /** Removing names that do not occur leaves the list as it is. */
  lemma {:induction false} WithoutNothing(cols: seq<string>, ds: set<string>)
    requires forall c :: c in cols ==> c !in ds
    ensures Without(cols, ds) == cols
  {
    if cols != [] {
      WithoutNothing(cols[1..], ds);
      assert [cols[0]] + cols[1..] == cols;
    }
  }

  /** Removing one name that occurs in a list without repetitions shortens
      it by exactly one. */
  lemma {:induction false} WithoutOne(cols: seq<string>, c: string)
    requires Distinct(cols) && c in cols
    ensures |Without(cols, {c})| == |cols| - 1
  {
    if cols[0] == c {
      WithoutNothing(cols[1..], {c});
    } else {
      WithoutOne(cols[1..], c);
    }
  }

  /** `df.drop(columns=ds)`: the columns of `ds` go, the rows lose those
      keys, nothing else changes. */
  function Drop(t: Table, ds: set<string>): (r: Table)
    ensures |r.rows| == |t.rows|
    ensures forall c :: c in r.columns <==> c in t.columns && c !in ds
    ensures forall i, c :: 0 <= i < |r.rows| && c in t.rows[i] && c !in ds ==>
      c in r.rows[i] && r.rows[i][c] == t.rows[i][c]
    ensures forall i, c :: 0 <= i < |r.rows| && c in ds ==> c !in r.rows[i]
    ensures WellFormed(t) ==> WellFormed(r)
  {
    Table(Without(t.columns, ds), seq(|t.rows|, i requires 0 <= i < |t.rows| => t.rows[i] - ds))
  }

  /** The cell a row holds under a column, or Missing. */
  function LabelOf(row: Row, target: string): Cell {
    if target in row then row[target] else Missing
  }

  /** The column `target` of a row sequence (`df[target]`). */
  function Labels(rows: seq<Row>, target: string): (ys: seq<Cell>)
    ensures |ys| == |rows|
    ensures forall i :: 0 <= i < |rows| ==> ys[i] == LabelOf(rows[i], target)
  {
    seq(|rows|, i requires 0 <= i < |rows| => LabelOf(rows[i], target))
  }

  lemma LabelsConcat(a: seq<Row>, b: seq<Row>, target: string)
    ensures Labels(a + b, target) == Labels(a, target) + Labels(b, target)
  {
  }
}
