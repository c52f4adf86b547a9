/**
 Choice of the series to run inference on among the slices of one study
 directory: the slices labelled by the HippoCrop tool, provided they form a
 single series.
 */
module SeriesSelection {
  import opened Dicom
  import opened Seqs

  /** The series description the HippoCrop tool writes on its output. */
  const TargetDescription: string := "HippoCrop"

  predicate IsTarget(r: SliceRecord)
  {
    r.seriesDescription == TargetDescription
  }

  /** The distinct series identifiers carried by `s`. */
  function SeriesUids(s: seq<SliceRecord>): set<string>
  {
    set i | 0 <= i < |s| :: s[i].seriesInstanceUid
  }

  /** Two target slices belong to different series. */
  predicate Ambiguous(records: seq<SliceRecord>)
  {
    exists i, j :: 0 <= i < |records| && 0 <= j < |records|
      && IsTarget(records[i]) && IsTarget(records[j])
      && records[i].seriesInstanceUid != records[j].seriesInstanceUid
  }

  /** A non-empty sequence carries exactly one series identifier iff all
      its elements agree on it. */
  lemma {:induction false} OneUidIff(s: seq<SliceRecord>)
    requires |s| > 0
    ensures |SeriesUids(s)| == 1 <==>
      forall i :: 0 <= i < |s| ==> s[i].seriesInstanceUid == s[0].seriesInstanceUid
  {
    var u := s[0].seriesInstanceUid;
    if forall i :: 0 <= i < |s| ==> s[i].seriesInstanceUid == u {
      assert SeriesUids(s) == {u};
    } else {
      var i :| 0 <= i < |s| && s[i].seriesInstanceUid != u;
      assert {u, s[i].seriesInstanceUid} <= SeriesUids(s);
      assert |{u, s[i].seriesInstanceUid}| == 2;
      SubsetCard({u, s[i].seriesInstanceUid}, SeriesUids(s));
    }
  }

  lemma SubsetCard<T>(a: set<T>, b: set<T>)
    requires a <= b
    ensures |a| <= |b|
  {
    assert b == a + (b - a);
  }

  /** The target slices carry more than one series identifier exactly when
      two of them disagree. */
  lemma AmbiguousIff(records: seq<SliceRecord>)
    requires |Filter(records, IsTarget)| > 0
    ensures |SeriesUids(Filter(records, IsTarget))| != 1 <==> Ambiguous(records)
  {
    var matches := Filter(records, IsTarget);
    OneUidIff(matches);
    if |SeriesUids(matches)| != 1 {
      var i :| 0 <= i < |matches| && matches[i].seriesInstanceUid != matches[0].seriesInstanceUid;
      assert matches[i] in records && matches[0] in records;
      var a :| 0 <= a < |records| && records[a] == matches[i];
      var b :| 0 <= b < |records| && records[b] == matches[0];
      assert IsTarget(records[a]) && IsTarget(records[b]);
    } else {
      forall i, j | 0 <= i < |records| && 0 <= j < |records| && IsTarget(records[i]) && IsTarget(records[j])
        ensures records[i].seriesInstanceUid == records[j].seriesInstanceUid
      {
        assert records[i] in matches && records[j] in matches;
      }
    }
  }

  /** `get_series_for_inference` once the directory has been read: the
      target slices in directory order, or nothing when there is none or
      when they span more than one series. */
  function SelectSeries(records: seq<SliceRecord>): (r: seq<SliceRecord>)
    ensures r == [] <==>
      (forall i :: 0 <= i < |records| ==> !IsTarget(records[i])) || Ambiguous(records)
    ensures r != [] ==> r == Filter(records, IsTarget)
    ensures forall i, j :: 0 <= i < |r| && 0 <= j < |r| ==>
      r[i].seriesInstanceUid == r[j].seriesInstanceUid
    ensures forall x :: x in r ==> x in records && IsTarget(x)
  {
    var matches := Filter(records, IsTarget);
    if |matches| == 0 then
      assert forall i :: 0 <= i < |records| ==> records[i] !in matches;
      []
    else
      AmbiguousIff(records);
      OneUidIff(matches);
      assert matches[0] in records;
      if |SeriesUids(matches)| != 1 then [] else matches
  }
}
