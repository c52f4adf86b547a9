/**
 The choice of study directory in the driver of the inference script: the
 routed study directories are tried newest first (by modification time)
 until one holds a series to run inference on, and after the report has
 been sent a study directory is deleted. Reading directories, their
 modification times and the deletion itself are outside the model: a
 directory is its modification time and the slices read from it.
 */
module StudyRouting {
  import opened Results
  import opened Dicom
  import opened Seqs
  import opened StableSort
  import opened SeriesSelection

  datatype StudyDir = StudyDir(path: string, mtime: int, records: seq<SliceRecord>)

  /** `[0]` on an empty directory list, and no directory with a series. */
  datatype RouteError = NoSubdirectories | NoSeriesFound

  /** The series to process, the directory it was read from and the
      directory deleted at the end of the run. */
  datatype Routed = Routed(series: seq<SliceRecord>, source: StudyDir, removed: StudyDir)

  function NegatedMtime(d: StudyDir): int
  {
    -d.mtime
  }

  /** `sorted(subdirs, key=st_mtime, reverse=True)`: a permutation with
      non-increasing modification times, in which directories with equal
      times keep their input order (Python's sort is stable under
      `reverse=True` too). */
  function NewestFirst(dirs: seq<StudyDir>): (r: seq<StudyDir>)
    ensures |r| == |dirs|
    ensures forall i, j :: 0 <= i < j < |r| ==> r[i].mtime >= r[j].mtime
    ensures forall d :: d in r <==> d in dirs
    ensures multiset(r) == multiset(dirs)
    ensures forall k :: WithKey(r, NegatedMtime, k) == WithKey(dirs, NegatedMtime, k)
  {
    var r := SortBy(dirs, NegatedMtime);
    SortByCount(dirs, NegatedMtime);
    forall k
      ensures WithKey(r, NegatedMtime, k) == WithKey(dirs, NegatedMtime, k)
    {
      SortByStable(dirs, NegatedMtime, k);
    }
    assert forall d :: d in r <==> d in multiset(r);
    assert forall d :: d in dirs <==> d in multiset(dirs);
    r
  }

  /** Does `get_series_for_inference` find a series in this directory? */
  predicate HasSeries(d: StudyDir)
  {
    SelectSeries(d.records) != []
  }

  /** No directory newer than the first one of the newest-first order that
      satisfies `p` satisfies `p`. */
  lemma NewerFail(dirs: seq<StudyDir>, p: StudyDir -> bool, i: nat)
    requires FirstWhere(NewestFirst(dirs), p) == Some(i)
    ensures NewestFirst(dirs)[i] in dirs
    ensures forall d :: d in dirs && d.mtime > NewestFirst(dirs)[i].mtime ==> !p(d)
  {
    FirstInOrder(NewestFirst(dirs), dirs, p, i);
  }

  /** The same for any non-increasing order of the directories. */
  lemma FirstInOrder(sorted: seq<StudyDir>, dirs: seq<StudyDir>, p: StudyDir -> bool, i: nat)
    requires forall a, b :: 0 <= a < b < |sorted| ==> sorted[a].mtime >= sorted[b].mtime
    requires forall d :: d in sorted <==> d in dirs
    requires FirstWhere(sorted, p) == Some(i)
    ensures sorted[i] in dirs
    ensures forall d :: d in dirs && d.mtime > sorted[i].mtime ==> !p(d)
  {
    assert sorted[i] in sorted;
    forall d | d in dirs && d.mtime > sorted[i].mtime
      ensures !p(d)
    {
      var j :| 0 <= j < |sorted| && sorted[j] == d;
      NewerComesFirst(sorted, i, j);
    }
  }

  /** In newest-first order a strictly newer directory comes earlier. */
  lemma NewerComesFirst(sorted: seq<StudyDir>, i: nat, j: nat)
    requires i < |sorted| && j < |sorted|
    requires forall a, b :: 0 <= a < b < |sorted| ==> sorted[a].mtime >= sorted[b].mtime
    requires sorted[j].mtime > sorted[i].mtime
    ensures j < i
  {
  }

  /** When no directory of the newest-first order satisfies `p`, none does. */
  lemma AllFail(dirs: seq<StudyDir>, p: StudyDir -> bool)
    requires FirstWhere(NewestFirst(dirs), p).None?
    ensures forall d :: d in dirs ==> !p(d)
  {
    var sorted := NewestFirst(dirs);
    forall d | d in dirs
      ensures !p(d)
    {
      var j :| 0 <= j < |sorted| && sorted[j] == d;
    }
  }

  /** The directory loop of the script as written: the series comes from the
      newest directory that holds one, and the directory deleted is the
      newest directory, wherever the series came from. */
  function RouteAsWritten(dirs: seq<StudyDir>): (r: Result<Routed, RouteError>)
    ensures r == Failure(NoSubdirectories) <==> |dirs| == 0
    ensures r.Success? ==>
      && r.value.removed in dirs
      && forall d :: d in dirs ==> d.mtime <= r.value.removed.mtime
  {
    if |dirs| == 0 then Failure(NoSubdirectories)
    else
      var sorted := NewestFirst(dirs);
      assert sorted[0] in dirs;
      forall d | d in dirs
        ensures d.mtime <= sorted[0].mtime
      {
        var j :| 0 <= j < |sorted| && sorted[j] == d;
      }
      match FirstWhere(sorted, HasSeries)
      case None => Failure(NoSeriesFound)
      case Some(i) => Success(Routed(SelectSeries(sorted[i].records), sorted[i], sorted[0]))
  }

  /** Of two directories, the newer one comes first. */
  lemma NewestFirstTwo(newer: StudyDir, older: StudyDir)
    requires newer.mtime > older.mtime
    ensures NewestFirst([newer, older]) == [newer, older]
  {
    var sorted := NewestFirst([newer, older]);
    assert sorted[0] in [newer, older] && sorted[1] in [newer, older];
    assert newer in sorted && older in sorted;
  }

  /** The deleted directory need not be the one the series was read from:
      when the newest directory holds no series and an older one does, the
      run processes the older one and deletes the newer one. */
  lemma RemovesOtherDirectory(newer: StudyDir, older: StudyDir)
    requires newer.mtime > older.mtime
    requires !HasSeries(newer) && HasSeries(older)
    ensures RouteAsWritten([newer, older]).Success?
    ensures RouteAsWritten([newer, older]).value.source == older
    ensures RouteAsWritten([newer, older]).value.removed == newer != older
  {
    NewestFirstTwo(newer, older);
    var sorted := NewestFirst([newer, older]);
    assert sorted[1..] == [older];
    assert FirstWhere(sorted, HasSeries) == Some(1) by {
      assert !HasSeries(sorted[0]) && HasSeries(sorted[1]);
    }
  }

  /** The directory loop with the directory that was processed deleted.
      Fails with `NoSubdirectories` when there is no directory and with
      `NoSeriesFound` when none holds a series; otherwise the series is the
      selection of the newest directory that has one, and that directory is
      the one deleted. */
  function Route(dirs: seq<StudyDir>): (r: Result<Routed, RouteError>)
    ensures r == Failure(NoSubdirectories) <==> |dirs| == 0
    ensures r == Failure(NoSeriesFound) <==> |dirs| > 0 && forall d :: d in dirs ==> !HasSeries(d)
    ensures r.Success? ==>
      && r.value.source in dirs
      && r.value.series != []
      && r.value.series == SelectSeries(r.value.source.records)
      && (forall d :: d in dirs && d.mtime > r.value.source.mtime ==> !HasSeries(d))
      && r.value.removed == r.value.source
  {
    if |dirs| == 0 then Failure(NoSubdirectories)
    else
      var sorted := NewestFirst(dirs);
      match FirstWhere(sorted, HasSeries)
      case None =>
        AllFail(dirs, HasSeries);
        Failure(NoSeriesFound)
      case Some(i) =>
        NewerFail(dirs, HasSeries, i);
        Success(Routed(SelectSeries(sorted[i].records), sorted[i], sorted[i]))
  }

  /** Apart from the deleted directory the corrected loop agrees with the
      script: same outcome, same series, same source directory. */
  lemma RouteAgreesOnSeries(dirs: seq<StudyDir>)
    ensures Route(dirs).Failure? <==> RouteAsWritten(dirs).Failure?
    ensures Route(dirs).Failure? ==> Route(dirs) == RouteAsWritten(dirs)
    ensures Route(dirs).Success? ==>
      && Route(dirs).value.series == RouteAsWritten(dirs).value.series
      && Route(dirs).value.source == RouteAsWritten(dirs).value.source
  {
  }
}
