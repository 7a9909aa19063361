/** `clean_data`: drops the identifier columns and the pre-existing rule
    flag when the frame has them, and otherwise returns an equal copy. */
module Cleaner {
  import opened Tables

  /** `cols_to_drop`, in the order `clean_data` lists them. */
  const DropCandidates: seq<string> := ["nameOrig", "nameDest", "isFlaggedFraud"]

  const DropSet: set<string> := {"nameOrig", "nameDest", "isFlaggedFraud"}

  /** `[c for c in cols_to_drop if c in df.columns]`. */
  function Present(cands: seq<string>, cols: seq<string>): (r: seq<string>)
    ensures forall c :: c in r <==> c in cands && c in cols
  {
    if cands == [] then []
    else if cands[0] in cols then [cands[0]] + Present(cands[1..], cols)
    else Present(cands[1..], cols)
  }

  function Clean(t: Table): (r: Table)
    ensures forall c :: c in r.columns <==> c in t.columns && c !in DropSet
    ensures |r.rows| == |t.rows|
    ensures (forall c :: c in DropSet ==> c !in t.columns) ==> r == t
  {
    var existing := Present(DropCandidates, t.columns);
    assert forall c :: c in DropCandidates <==> c in DropSet;
    assert existing != [] ==> existing[0] in existing;
    if existing != [] then Drop(t, set c | c in existing) else t
  }

  /** On a well-formed frame the cleaner keeps the surviving columns in
      their order and every surviving cell of every row, and the result is
      well formed again. */
  lemma CleanKeepsOrderAndCells(t: Table)
    requires WellFormed(t)
    ensures WellFormed(Clean(t))
    ensures forall i, j :: 0 <= i < j < |Clean(t).columns| ==>
      IndexOf(t.columns, Clean(t).columns[i]) < IndexOf(t.columns, Clean(t).columns[j])
    ensures forall i, c :: 0 <= i < |t.rows| && c in Clean(t).columns ==>
      c in Clean(t).rows[i] && Clean(t).rows[i][c] == t.rows[i][c]
  {
    var existing := Present(DropCandidates, t.columns);
    if existing != [] {
      WithoutKeepsOrder(t.columns, set c | c in existing);
    } else {
      WithoutNothing(t.columns, DropSet);
    }
  }

  /** Cleaning a cleaned frame changes nothing. */
  lemma CleanIdempotent(t: Table)
    ensures Clean(Clean(t)) == Clean(t)
  {
    var r := Clean(t);
    assert forall c :: c in DropSet ==> c !in r.columns;
  }
}
