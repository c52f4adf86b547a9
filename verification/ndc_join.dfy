/**
 `reduce_dimension_ndc`: every encounter row gets the generic drug name of
 its NDC code, read from a lookup table of drug codes in which only the
 first row of each code counts
 (`drop_duplicates(subset='NDC_Code', keep='first')`, `set_index`, `map`).
 */
module NdcJoin {
  import opened Results
  import opened Seqs
  import opened Frames

  const NdcCode := "NDC_Code"
  const NonProprietaryName := "Non-proprietary Name"
  const RowCode := "ndc_code"
  const GenericDrugName := "generic_drug_name"

  /** A column the join reads is absent (pandas' `KeyError`). */
  datatype JoinError = MissingColumn(column: string)

  /** The code of a lookup-table row. */
  function CodeOf(r: Row): Cell
  {
    CellAt(r, NdcCode)
  }

  function CodeIs(code: Cell): Row -> bool
  {
    r => CodeOf(r) == code
  }

  /** Reference reading of the join: the name on the first table row whose
      code is `code`, missing when there is none. */
  function FirstMatch(table: seq<Row>, code: Cell): Cell
  {
    match FirstWhere(table, CodeIs(code))
    case None => Missing
    case Some(i) => CellAt(table[i], NonProprietaryName)
  }

  /** `set_index('NDC_Code')['Non-proprietary Name']` on a table: code to
      name, a later row overriding an earlier one of the same code. */
  function Index(table: seq<Row>): map<Cell, Cell>
  {
    if |table| == 0 then map[]
    else
      var last := table[|table| - 1];
      Index(table[..|table| - 1])[CodeOf(last) := CellAt(last, NonProprietaryName)]
  }

  /** `Series.map` with a lookup series: the indexed value, or missing. */
  function MapCode(index: map<Cell, Cell>, code: Cell): Cell
  {
    if code in index then index[code] else Missing
  }

  /** Looking a code up in the index of the de-duplicated table gives the
      name on the first row of the original table with that code. */
  lemma {:induction false} IndexOfFirstRows(table: seq<Row>)
    ensures forall code :: code in Index(KeepFirst(table, CodeOf)) <==> HasKey(table, CodeOf, code)
    ensures forall code :: MapCode(Index(KeepFirst(table, CodeOf)), code) == FirstMatch(table, code)
  {
    if |table| > 0 {
      var init := table[..|table| - 1];
      var last := table[|table| - 1];
      assert table == init + [last];
      IndexOfFirstRows(init);
      forall code
        ensures code in Index(KeepFirst(table, CodeOf)) <==> HasKey(table, CodeOf, code)
        ensures MapCode(Index(KeepFirst(table, CodeOf)), code) == FirstMatch(table, code)
      {
        IndexStep(init, last, code);
      }
    }
  }

  /** One row appended to the table: the index of its first rows changes
      exactly where the row's code is new. */
  lemma IndexStep(init: seq<Row>, last: Row, code: Cell)
    requires code in Index(KeepFirst(init, CodeOf)) <==> HasKey(init, CodeOf, code)
    requires MapCode(Index(KeepFirst(init, CodeOf)), code) == FirstMatch(init, code)
    ensures code in Index(KeepFirst(init + [last], CodeOf)) <==> HasKey(init + [last], CodeOf, code)
    ensures MapCode(Index(KeepFirst(init + [last], CodeOf)), code) == FirstMatch(init + [last], code)
  {
    IndexOfSnoc(init, last);
    FirstMatchSnoc(init, last, code);
    HasKeySnoc(init, last, code);
  }

  /** The index of the first rows grows by the appended row only when its
      code is new. */
  lemma IndexOfSnoc(init: seq<Row>, last: Row)
    ensures Index(KeepFirst(init + [last], CodeOf)) ==
      if HasKey(init, CodeOf, CodeOf(last)) then Index(KeepFirst(init, CodeOf))
      else Index(KeepFirst(init, CodeOf))[CodeOf(last) := CellAt(last, NonProprietaryName)]
  {
    var table := init + [last];
    assert table[..|table| - 1] == init;
    var d := KeepFirst(init, CodeOf);
    var kept := KeepFirst(table, CodeOf);
    assert table[|table| - 1] == last;
    if HasKey(init, CodeOf, CodeOf(last)) {
      assert kept == d;
    } else {
      assert kept == d + [last];
      assert kept[..|kept| - 1] == d;
      assert kept[|kept| - 1] == last;
    }
  }

  /** The first match in an extended table is the old one, or the appended
      row when the code did not occur before. */
  lemma FirstMatchSnoc(init: seq<Row>, last: Row, code: Cell)
    ensures FirstMatch(init + [last], code) ==
      if HasKey(init, CodeOf, code) then FirstMatch(init, code)
      else if CodeOf(last) == code then CellAt(last, NonProprietaryName)
      else Missing
  {
    var table := init + [last];
    FirstWhereSnoc(init, last, CodeIs(code));
    if HasKey(init, CodeOf, code) {
      var i :| 0 <= i < |init| && CodeOf(init[i]) == code;
      assert CodeIs(code)(init[i]);
      var k := FirstWhere(init, CodeIs(code)).value;
      assert table[k] == init[k];
    } else {
      assert FirstWhere(init, CodeIs(code)).None?;
      assert table[|init|] == last;
    }
  }

  /** A key occurs in an extended sequence when it occurs before or is the
      key of the new element. */
  lemma HasKeySnoc(s: seq<Row>, x: Row, code: Cell)
    ensures HasKey(s + [x], CodeOf, code) <==> HasKey(s, CodeOf, code) || CodeOf(x) == code
  {
    var t := s + [x];
    if HasKey(s, CodeOf, code) {
      var i :| 0 <= i < |s| && CodeOf(s[i]) == code;
      assert t[i] == s[i];
    }
    if HasKey(t, CodeOf, code) && CodeOf(x) != code {
      var i :| 0 <= i < |t| && CodeOf(t[i]) == code;
      assert t[i] == s[i];
    }
    assert t[|s|] == x;
  }

  /** `df['generic_drug_name'] = df['ndc_code'].map(...)` on one row. */
  function WithGenericName(row: Row, index: map<Cell, Cell>): Row
  {
    row[GenericDrugName := MapCode(index, CellAt(row, RowCode))]
  }

  /** `reduce_dimension_ndc(df, ndc_df)`. Fails on the first absent column
      in the order the code reads them; otherwise keeps every row, in
      order, with every column it had, and sets `generic_drug_name` to the
      name on the first table row carrying the row's code. */
  function ReduceDimensionNdc(df: Frame, ndc: Frame): (r: Result<Frame, JoinError>)
    ensures r == Failure(MissingColumn(NdcCode)) <==> NdcCode !in ndc.columns
    ensures r == Failure(MissingColumn(RowCode)) <==> NdcCode in ndc.columns && RowCode !in df.columns
    ensures r == Failure(MissingColumn(NonProprietaryName)) <==>
      NdcCode in ndc.columns && RowCode in df.columns && NonProprietaryName !in ndc.columns
    ensures r.Success? ==>
      && r.value.columns == df.columns + {GenericDrugName}
      && |r.value.rows| == |df.rows|
      && (forall i, c :: 0 <= i < |df.rows| && c != GenericDrugName ==>
            CellAt(r.value.rows[i], c) == CellAt(df.rows[i], c))
      && (forall i :: 0 <= i < |df.rows| ==>
            CellAt(r.value.rows[i], GenericDrugName) == FirstMatch(ndc.rows, CellAt(df.rows[i], RowCode)))
    ensures r.Success? && WellFormed(df) ==> WellFormed(r.value)
  {
    if NdcCode !in ndc.columns then Failure(MissingColumn(NdcCode))
    else if RowCode !in df.columns then Failure(MissingColumn(RowCode))
    else if NonProprietaryName !in ndc.columns then Failure(MissingColumn(NonProprietaryName))
    else
      var index := Index(KeepFirst(ndc.rows, CodeOf));
      IndexOfFirstRows(ndc.rows);
      var rows := seq(|df.rows|, i requires 0 <= i < |df.rows| => WithGenericName(df.rows[i], index));
      Success(Frame(df.columns + {GenericDrugName}, rows))
  }
}
