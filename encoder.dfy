/** `encode_features`: one-hot encoding of the `type` column with
    `pd.get_dummies(df, columns=['type'], drop_first=True)`. The levels are
    the distinct texts of the column in sorted order; the first (smallest)
    is the reference category and gets no indicator; every other level `v`
    gets a boolean column `type_v` appended after the remaining columns. */
module Encoder {
  import opened Tables
  import opened Ordering

  const TypeColumn: string := "type"
  const Prefix: string := "type_"

  predicate HasType(row: Row, v: string) {
    LabelOf(row, TypeColumn) == Text(v)
  }

  /** The texts in the `type` column, row by row (other cells are not
      levels: get_dummies leaves a missing value without indicator). */
  function TypeTexts(rows: seq<Row>): (r: seq<string>)
    ensures forall v :: v in r <==> exists i :: 0 <= i < |rows| && HasType(rows[i], v)
  {
    if rows == [] then []
    else
      var rest := TypeTexts(rows[1..]);
      match LabelOf(rows[0], TypeColumn)
      case Text(v) => [v] + rest
      case _ => rest
  }

  /** The levels of the column, distinct and in increasing order. */
  function Categories(rows: seq<Row>): (cats: seq<string>)
    ensures StrictlySorted(cats, StrLess) && Distinct(cats)
    ensures forall v :: v in cats <==> exists i :: 0 <= i < |rows| && HasType(rows[i], v)
  {
    StrLessIsStrictTotal();
    var cats := SortedUnique(TypeTexts(rows), StrLess);
    SortedIsDistinct(cats, StrLess);
    cats
  }

  /** `drop_first=True`: every level but the first. */
  function Kept(cats: seq<string>): (kept: seq<string>)
    ensures |kept| == (if cats == [] then 0 else |cats| - 1)
    ensures forall v :: v in kept ==> v in cats
  {
    if cats == [] then [] else cats[1..]
  }

  function IndicatorNames(kept: seq<string>): (names: seq<string>)
    ensures |names| == |kept|
    ensures forall j :: 0 <= j < |kept| ==> names[j] == Prefix + kept[j]
  {
    seq(|kept|, j requires 0 <= j < |kept| => Prefix + kept[j])
  }

  lemma PrefixInjective(a: string, b: string)
    requires Prefix + a == Prefix + b
    ensures a == b
  {
    assert a == (Prefix + a)[|Prefix|..];
    assert b == (Prefix + b)[|Prefix|..];
  }

  /** The indicator cells of one row: `type_v` is set exactly when the
      row's type is the text `v`. */
  function Indicators(row: Row, kept: seq<string>): (m: map<string, Cell>)
    ensures m.Keys == set name | name in IndicatorNames(kept)
    ensures forall v :: v in kept ==> Prefix + v in m && m[Prefix + v] == Flag(HasType(row, v))
  {
    var ty := LabelOf(row, TypeColumn);
    IndicatorOfLevel(kept, ty);
    map name | name in IndicatorNames(kept) :: Flag(ty.Text? && name == Prefix + ty.s)
  }

  lemma IndicatorOfLevel(kept: seq<string>, ty: Cell)
    ensures forall v :: v in kept ==>
      (Prefix + v in IndicatorNames(kept) && ((ty.Text? && Prefix + v == Prefix + ty.s) <==> ty == Text(v)))
  {
    forall v | v in kept
      ensures Prefix + v in IndicatorNames(kept)
      ensures (ty.Text? && Prefix + v == Prefix + ty.s) <==> ty == Text(v)
    {
      var j :| 0 <= j < |kept| && kept[j] == v;
      assert IndicatorNames(kept)[j] == Prefix + v;
      if ty.Text? && Prefix + v == Prefix + ty.s { PrefixInjective(v, ty.s); }
    }
  }

  /** One encoded row: `type` removed, the indicators added; a former
      column whose name is an indicator's is overwritten by it. */
  function EncodeRow(row: Row, kept: seq<string>): (r: Row)
    ensures r.Keys == (row.Keys - {TypeColumn}) + (set name | name in IndicatorNames(kept))
    ensures forall c :: c in row && c != TypeColumn && c !in IndicatorNames(kept) ==> r[c] == row[c]
    ensures forall v :: v in kept ==> Prefix + v in r && r[Prefix + v] == Flag(HasType(row, v))
  {
    (row - {TypeColumn}) + Indicators(row, kept)
  }

  lemma TypeIsNoIndicator(kept: seq<string>)
    ensures TypeColumn !in IndicatorNames(kept)
  {
    forall j | 0 <= j < |kept| ensures IndicatorNames(kept)[j] != TypeColumn {
      assert |IndicatorNames(kept)[j]| >= |Prefix|;
    }
  }

  /** The KeyError guard, then the encoding. */
  function Encode(t: Table): (r: Result<Table>)
    ensures r.Err? <==> TypeColumn !in t.columns
    ensures r.Err? ==> r.error == MissingColumn(TypeColumn)
    ensures r.Ok? ==> |r.value.rows| == |t.rows| && TypeColumn !in r.value.columns
  {
    if TypeColumn !in t.columns then Err(MissingColumn(TypeColumn))
    else
      var kept := Kept(Categories(t.rows));
      TypeIsNoIndicator(kept);
      Ok(Table(Without(t.columns, {TypeColumn}) + IndicatorNames(kept),
               seq(|t.rows|, i requires 0 <= i < |t.rows| => EncodeRow(t.rows[i], kept))))
  }

  /** An indicator name never coincides with a column the frame already
      has (pandas would otherwise produce two columns of that name). */
  predicate NoIndicatorClash(t: Table) {
    forall v :: v in Kept(Categories(t.rows)) ==> Prefix + v !in t.columns
  }

  lemma EncodedRowAt(t: Table, i: nat)
    requires TypeColumn in t.columns && i < |t.rows|
    ensures Encode(t).Ok? && |Encode(t).value.rows| == |t.rows|
    ensures Encode(t).value.rows[i] == EncodeRow(t.rows[i], Kept(Categories(t.rows)))
  {
  }

  /** With `k` distinct levels the encoded frame has lost `type` and gained
      `k - 1` indicator columns (none when the frame has no level): the
      other columns come first, in their order, then one indicator per
      non-reference level. */
  lemma EncodeColumns(t: Table)
    requires Distinct(t.columns) && TypeColumn in t.columns
    ensures Encode(t).Ok?
    ensures Encode(t).value.columns ==
      Without(t.columns, {TypeColumn}) + IndicatorNames(Kept(Categories(t.rows)))
    ensures var k := |set v | v in TypeTexts(t.rows)|;
      |Encode(t).value.columns| == |t.columns| - 1 + (if k == 0 then 0 else k - 1)
  {
    var cats := Categories(t.rows);
    DistinctCard(cats);
    assert (set v | v in cats) == (set v | v in TypeTexts(t.rows));
    WithoutOne(t.columns, TypeColumn);
  }

  lemma IndicatorNamesDistinct(cats: seq<string>)
    requires Distinct(cats)
    ensures Distinct(IndicatorNames(Kept(cats)))
  {
    var kept := Kept(cats);
    var names := IndicatorNames(kept);
    forall i, j | 0 <= i < j < |names| ensures names[i] != names[j] {
      assert kept[i] == cats[i + 1] && kept[j] == cats[j + 1];
      if names[i] == names[j] { PrefixInjective(kept[i], kept[j]); }
    }
  }

  /** Without a clash of names the encoded frame is well formed again. */
  lemma EncodeWellFormed(t: Table)
    requires WellFormed(t) && TypeColumn in t.columns && NoIndicatorClash(t)
    ensures Encode(t).Ok? && WellFormed(Encode(t).value)
  {
    var kept := Kept(Categories(t.rows));
    var out := Encode(t).value;
    var base := Without(t.columns, {TypeColumn});
    var names := IndicatorNames(kept);
    IndicatorNamesDistinct(Categories(t.rows));
    assert Distinct(base + names) by {
      forall i, j | 0 <= i < j < |base + names| ensures (base + names)[i] != (base + names)[j] {
        if j >= |base| && i < |base| {
          assert kept[j - |base|] in kept;
        }
      }
    }
    forall i | 0 <= i < |out.rows| ensures out.rows[i].Keys == set c | c in out.columns {
      EncodedRowAt(t, i);
    }
  }

  /** Row count and row order are kept, and every cell outside `type`
      survives in its row, unless its column's name is also an indicator's. */
  lemma EncodeKeepsCells(t: Table)
    requires WellFormed(t) && TypeColumn in t.columns
    ensures forall i, c ::
      (0 <= i < |t.rows| && c in t.columns && c != TypeColumn && c !in IndicatorNames(Kept(Categories(t.rows)))) ==>
      c in Encode(t).value.rows[i] && Encode(t).value.rows[i][c] == t.rows[i][c]
  {
    forall i, c | 0 <= i < |t.rows| && c in t.columns && c != TypeColumn &&
      c !in IndicatorNames(Kept(Categories(t.rows)))
      ensures c in Encode(t).value.rows[i] && Encode(t).value.rows[i][c] == t.rows[i][c]
    {
      EncodedRowAt(t, i);
    }
  }

  /** The indicator of level `v` in row `i` is set exactly when that row's
      type is `v`, so at most one indicator of a row is set. */
  lemma EncodeIndicatorSet(t: Table, i: nat)
    requires TypeColumn in t.columns && i < |t.rows|
    ensures var kept := Kept(Categories(t.rows));
      var out := Encode(t).value.rows[i];
      && (forall v :: v in kept ==> Prefix + v in out && (out[Prefix + v] == Flag(true) <==> HasType(t.rows[i], v)))
      && (forall v, w ::
            (v in kept && w in kept && out[Prefix + v] == Flag(true) && out[Prefix + w] == Flag(true)) ==> v == w)
  {
    EncodedRowAt(t, i);
  }

  /** The reference category is the smallest level. */
  lemma ReferenceIsSmallest(rows: seq<Row>)
    ensures var cats := Categories(rows);
      cats != [] ==> forall v :: v in Kept(cats) ==> StrLess(cats[0], v)
  {
    var cats := Categories(rows);
    if cats != [] {
      forall v | v in Kept(cats) ensures StrLess(cats[0], v) {
        var j :| 0 <= j < |cats| - 1 && cats[1..][j] == v;
        assert cats[j + 1] == v;
      }
    }
  }

  /** The reference level keeps no indicator; every other level does. */
  lemma KeptLevels(cats: seq<string>, v: string)
    requires Distinct(cats) && cats != []
    ensures v in Kept(cats) <==> v in cats && v != cats[0]
  {
    if v in Kept(cats) {
      var j :| 0 <= j < |cats| - 1 && cats[1..][j] == v;
      assert cats[j + 1] == v;
    }
    if v in cats && v != cats[0] {
      var j :| 0 <= j < |cats| && cats[j] == v;
      assert cats[1..][j - 1] == v;
    }
  }

  /** No indicator of row `i` is set exactly when its type is the reference
      category, or is not a text at all. */
  lemma EncodeReferenceRow(t: Table, i: nat)
    requires TypeColumn in t.columns && i < |t.rows|
    ensures var cats := Categories(t.rows);
      var out := Encode(t).value.rows[i];
      (forall v :: v in Kept(cats) ==> out[Prefix + v] == Flag(false)) <==>
        (cats == [] || HasType(t.rows[i], cats[0]) || !LabelOf(t.rows[i], TypeColumn).Text?)
  {
    var cats := Categories(t.rows);
    var out := Encode(t).value.rows[i];
    EncodeIndicatorSet(t, i);
    var ty := LabelOf(t.rows[i], TypeColumn);
    if ty.Text? && cats != [] {
      assert HasType(t.rows[i], ty.s);
      KeptLevels(cats, ty.s);
      if ty.s == cats[0] {
        forall v | v in Kept(cats) ensures out[Prefix + v] == Flag(false) {
          KeptLevels(cats, v);
        }
      }
    }
  }
}
