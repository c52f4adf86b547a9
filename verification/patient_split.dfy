/**
 `patient_dataset_splitter`: the distinct patients are split into training,
 validation and test patients, and every row goes to the part of its
 patient. Which patients land where (`train_test_split`, twice, with a fixed
 seed) is a parameter: any partition of the distinct patients with the
 part sizes `train_test_split` produces. The sizes themselves, and the
 error `train_test_split` raises when a training part would be empty, are
 modelled.
 */
module PatientSplit {
  import opened Results
  import opened Seqs
  import opened Frames

  /** `df[patient_key]` on a frame without that column, or the ValueError
      of a `train_test_split` call on `samples` patients whose training part
      would be empty. */
  datatype SplitError = MissingColumn(column: string) | EmptyTrainSet(samples: nat)

  datatype Partition = Partition(train: set<Cell>, validation: set<Cell>, test: set<Cell>)

  datatype Split = Split(train: seq<Row>, validation: seq<Row>, test: seq<Row>)

  /** `ceil(0.4 * n)`: the number of patients the first `train_test_split`
      (test_size 0.4) holds out of `n`. */
  function HeldOut(n: nat): (r: nat)
    ensures r <= n
    ensures 10 * r >= 4 * n && 10 * r < 4 * n + 10
  {
    (4 * n + 9) / 10
  }

  /** The part sizes (train, validation, test) of the two `train_test_split`
      calls on `n` distinct patients: the first keeps `n - ceil(0.4 n)`
      for training; the second splits the held-out patients in half,
      `ceil` of the half going to test. Each call fails when its training
      part would be empty, which happens exactly for fewer than three
      patients. */
  function SplitSizes(n: nat): (r: Result<(nat, nat, nat), SplitError>)
    ensures r.Failure? <==> n < 3
    ensures r.Failure? ==> r.error == EmptyTrainSet(if n < 2 then n else 1)
    ensures r.Success? ==>
      && r.value.0 >= 1 && r.value.1 >= 1 && r.value.2 >= 1
      && r.value.0 + r.value.1 + r.value.2 == n
      && r.value.1 <= r.value.2 <= r.value.1 + 1
  {
    var held := HeldOut(n);
    if n - held == 0 then Failure(EmptyTrainSet(n))
    else
      var test := (held + 1) / 2;
      if held - test == 0 then Failure(EmptyTrainSet(held))
      else Success((n - held, held - test, test))
  }

  /** `df[patient_key].unique()`, as a set. */
  function Patients(rows: seq<Row>, key: string): set<Cell>
  {
    set i | 0 <= i < |rows| :: CellAt(rows[i], key)
  }

  /** `part` has the sizes `train_test_split` gives `patients`. */
  predicate HasSplitSizes(part: Partition, patients: set<Cell>)
  {
    var sizes := SplitSizes(|patients|);
    sizes.Success? ==>
      |part.train| == sizes.value.0 && |part.validation| == sizes.value.1 && |part.test| == sizes.value.2
  }

  /** The three patient sets cover `patients` and share no patient. */
  predicate IsPartitionOf(part: Partition, patients: set<Cell>)
  {
    && part.train + part.validation + part.test == patients
    && part.train !! part.validation
    && part.train !! part.test
    && part.validation !! part.test
  }

  /** `df[patient_key].isin(group)` as a row predicate. */
  function InGroup(key: string, group: set<Cell>): Row -> bool
  {
    r => CellAt(r, key) in group
  }

  /** The three `df[mask]` selections. */
  function SplitRows(rows: seq<Row>, key: string, part: Partition): Split
  {
    Split(Filter(rows, InGroup(key, part.train)),
          Filter(rows, InGroup(key, part.validation)),
          Filter(rows, InGroup(key, part.test)))
  }

  /** Under a partition of the patients every row lands in exactly one part,
      as often as it occurs in the input. */
  lemma SplitCounts(rows: seq<Row>, key: string, part: Partition)
    requires IsPartitionOf(part, Patients(rows, key))
    ensures var s := SplitRows(rows, key, part);
      multiset(s.train) + multiset(s.validation) + multiset(s.test) == multiset(rows)
  {
    var s := SplitRows(rows, key, part);
    FilterCount(rows, InGroup(key, part.train));
    FilterCount(rows, InGroup(key, part.validation));
    FilterCount(rows, InGroup(key, part.test));
    forall x
      ensures (multiset(s.train) + multiset(s.validation) + multiset(s.test))[x] == multiset(rows)[x]
    {
      if x in rows {
        var i :| 0 <= i < |rows| && rows[i] == x;
        assert CellAt(x, key) in Patients(rows, key);
      }
    }
  }

  /** Splitting respects row order: the split of two consecutive blocks of
      rows is the split of the first block followed by that of the second. */
  lemma SplitConcat(a: seq<Row>, b: seq<Row>, key: string, part: Partition)
    ensures var s := SplitRows(a + b, key, part);
      var sa := SplitRows(a, key, part);
      var sb := SplitRows(b, key, part);
      && s.train == sa.train + sb.train
      && s.validation == sa.validation + sb.validation
      && s.test == sa.test + sb.test
  {
    FilterConcat(a, b, InGroup(key, part.train));
    FilterConcat(a, b, InGroup(key, part.validation));
    FilterConcat(a, b, InGroup(key, part.test));
  }

  /** A group that holds at least one patient of the rows selects at least
      one row. */
  lemma GroupNonEmpty(rows: seq<Row>, key: string, group: set<Cell>)
    requires group <= Patients(rows, key) && |group| > 0
    ensures |Filter(rows, InGroup(key, group))| > 0
  {
    var a :| a in group;
    assert a in Patients(rows, key);
    var i :| 0 <= i < |rows| && CellAt(rows[i], key) == a;
    assert InGroup(key, group)(rows[i]);
    assert rows[i] in Filter(rows, InGroup(key, group));
  }

  /** A part that holds at least one patient holds at least one row. */
  lemma SplitNonEmpty(rows: seq<Row>, key: string, part: Partition)
    requires IsPartitionOf(part, Patients(rows, key))
    requires |part.train| > 0 && |part.validation| > 0 && |part.test| > 0
    ensures var s := SplitRows(rows, key, part);
      |s.train| > 0 && |s.validation| > 0 && |s.test| > 0
  {
    GroupNonEmpty(rows, key, part.train);
    GroupNonEmpty(rows, key, part.validation);
    GroupNonEmpty(rows, key, part.test);
  }

  /** `patient_dataset_splitter(df, patient_key)` for the patient partition
      `part`. Fails when the patient column is absent, and otherwise when
      there are fewer than three distinct patients; on success every part
      holds only rows of its own patients, every input row is in exactly
      one part, no patient is in two parts and no part is empty. */
  function PatientDatasetSplitter(df: Frame, key: string, part: Partition): (r: Result<Split, SplitError>)
    requires IsPartitionOf(part, Patients(df.rows, key))
    requires HasSplitSizes(part, Patients(df.rows, key))
    ensures r == Failure(MissingColumn(key)) <==> key !in df.columns
    ensures r.Failure? <==> key !in df.columns || |Patients(df.rows, key)| < 3
    ensures r.Success? ==>
      && (forall x :: x in r.value.train <==> x in df.rows && CellAt(x, key) in part.train)
      && (forall x :: x in r.value.validation <==> x in df.rows && CellAt(x, key) in part.validation)
      && (forall x :: x in r.value.test <==> x in df.rows && CellAt(x, key) in part.test)
      && multiset(r.value.train) + multiset(r.value.validation) + multiset(r.value.test) == multiset(df.rows)
      && (forall x, y :: x in r.value.train && y in r.value.validation ==> CellAt(x, key) != CellAt(y, key))
      && (forall x, y :: x in r.value.train && y in r.value.test ==> CellAt(x, key) != CellAt(y, key))
      && (forall x, y :: x in r.value.validation && y in r.value.test ==> CellAt(x, key) != CellAt(y, key))
      && |r.value.train| > 0 && |r.value.validation| > 0 && |r.value.test| > 0
    ensures r.Success? ==> r.value == SplitRows(df.rows, key, part)
  {
    if key !in df.columns then Failure(MissingColumn(key))
    else
      var sizes := SplitSizes(|Patients(df.rows, key)|);
      if sizes.Failure? then Failure(sizes.error)
      else
        SplitCounts(df.rows, key, part);
        SplitNonEmpty(df.rows, key, part);
        Success(SplitRows(df.rows, key, part))
  }
}
