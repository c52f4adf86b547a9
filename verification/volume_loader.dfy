/**
 Assembly of the slices of one series into a volume
 (`load_dicom_volume_as_numpy_from_list`): the records are ordered by
 instance number, each pixel grid is re-oriented with `np.flip(...).T`, and
 the grids are stacked along a third axis. The header returned with the
 volume is the first record of the list as given, with its pixel data set
 to `None`.
 */
module VolumeLoader {
  import opened Results
  import opened Geometry
  import opened Dicom
  import opened StableSort

  /** `dcmlist[0]` on an empty list, and `np.stack` on grids of different
      shapes. */
  datatype LoadError = EmptyInput | ShapeMismatch

  datatype Loaded = Loaded(volume: Volume, header: Dataset)

  function InstanceKey(r: SliceRecord): int
  {
    r.instanceNumber
  }

  /** `sorted(dcmlist, key=lambda dcm: dcm.InstanceNumber)`. */
  function SortByInstance(records: seq<SliceRecord>): (s: seq<SliceRecord>)
    ensures |s| == |records|
  {
    SortBy(records, InstanceKey)
  }

  /** The record's dataset with `PixelData` cleared and nothing else changed. */
  function HeaderOf(r: SliceRecord): (h: Dataset)
    ensures PixelData in h && h[PixelData] == Null
    ensures forall k :: k != PixelData ==>
      (k in h <==> k in AsDataset(r)) && (k in h ==> h[k] == AsDataset(r)[k])
  {
    AsDataset(r)[PixelData := Null]
  }

  /** Every record has the pixel-grid shape of the first one. */
  predicate UniformShape(records: seq<SliceRecord>)
  {
    forall k :: 0 <= k < |records| ==>
      records[k].pixels.rows == records[0].pixels.rows && records[k].pixels.cols == records[0].pixels.cols
  }

  /** `[np.flip(dcm.pixel_array).T for dcm in s]`: the k-th record's
      H x W grid becomes a W x H plane whose cell (i, j) is the record's
      pixel (H - 1 - j, W - 1 - i). */
  function OrientAll(s: seq<SliceRecord>): (planes: seq<Plane>)
    ensures |planes| == |s|
    ensures forall k :: 0 <= k < |s| ==>
      planes[k].rows == s[k].pixels.cols && planes[k].cols == s[k].pixels.rows
    ensures forall k, i, j :: 0 <= k < |s| && 0 <= i < planes[k].rows && 0 <= j < planes[k].cols ==>
      planes[k].px[i][j] == s[k].pixels.px[s[k].pixels.rows - 1 - j][s[k].pixels.cols - 1 - i]
  {
    seq(|s|, k requires 0 <= k < |s| => Orient(s[k].pixels))
  }

  /** Sorting does not change which shapes occur. */
  lemma UniformShapeSorted(records: seq<SliceRecord>)
    requires |records| > 0
    ensures UniformShape(SortByInstance(records)) <==> UniformShape(records)
  {
    var s := SortByInstance(records);
    SortByCount(records, InstanceKey);
    assert forall x :: x in s <==> x in records by {
      forall x
        ensures x in s <==> x in records
      {
        assert x in s <==> x in multiset(s);
        assert x in records <==> x in multiset(records);
      }
    }
    assert s[0] in records && records[0] in s;
    if UniformShape(records) {
      forall k | 0 <= k < |s|
        ensures s[k].pixels.rows == s[0].pixels.rows && s[k].pixels.cols == s[0].pixels.cols
      {
        assert s[k] in records;
      }
    }
    if UniformShape(s) {
      forall k | 0 <= k < |records|
        ensures records[k].pixels.rows == records[0].pixels.rows && records[k].pixels.cols == records[0].pixels.cols
      {
        assert records[k] in s;
      }
    }
  }

  /** When the records share one shape, the sorted records have the shape
      of the first input record. */
  lemma SortedShape(records: seq<SliceRecord>)
    requires |records| > 0 && UniformShape(records)
    ensures var s := SortByInstance(records);
      forall k :: 0 <= k < |s| ==>
        s[k].pixels.rows == records[0].pixels.rows && s[k].pixels.cols == records[0].pixels.cols
  {
    var s := SortByInstance(records);
    SortByCount(records, InstanceKey);
    forall k | 0 <= k < |s|
      ensures s[k].pixels.rows == records[0].pixels.rows && s[k].pixels.cols == records[0].pixels.cols
    {
      assert s[k] in multiset(records);
    }
  }

  /** Re-oriented grids of one shape H x W all have shape W x H. */
  lemma OrientedSameShape(s: seq<SliceRecord>)
    requires |s| > 0 && UniformShape(s)
    ensures var planes := OrientAll(s);
      forall k :: 0 <= k < |planes| ==>
        planes[k].rows == s[0].pixels.cols && planes[k].cols == s[0].pixels.rows
  {
  }

  /** One voxel of the stacked, re-oriented grids. */
  lemma StackOrientedCell(s: seq<SliceRecord>, i: nat, j: nat, k: nat)
    requires |s| > 0 && UniformShape(s) && SameShape(OrientAll(s))
    requires i < s[0].pixels.cols && j < s[0].pixels.rows && k < |s|
    ensures Stack(OrientAll(s)).cells[i][j][k]
      == s[k].pixels.px[s[0].pixels.rows - 1 - j][s[0].pixels.cols - 1 - i]
  {
    var planes := OrientAll(s);
    var g := s[k].pixels;
    assert g.rows == s[0].pixels.rows && g.cols == s[0].pixels.cols;
    assert Stack(planes).cells[i][j][k] == planes[k].px[i][j];
  }

  /** Stacking re-oriented grids of shape H x W gives a (W, H, N) volume
      whose voxel (i, j, k) is pixel (H - 1 - j, W - 1 - i) of grid k. */
  lemma StackOriented(s: seq<SliceRecord>)
    requires |s| > 0 && UniformShape(s)
    ensures SameShape(OrientAll(s))
    ensures var v := Stack(OrientAll(s));
      var h := s[0].pixels.rows;
      var w := s[0].pixels.cols;
      && v.d0 == w && v.d1 == h && v.d2 == |s|
      && forall i, j, k :: 0 <= i < w && 0 <= j < h && 0 <= k < |s| ==>
           v.cells[i][j][k] == s[k].pixels.px[h - 1 - j][w - 1 - i]
  {
    OrientedSameShape(s);
    var v := Stack(OrientAll(s));
    var h := s[0].pixels.rows;
    var w := s[0].pixels.cols;
    forall i, j, k | 0 <= i < w && 0 <= j < h && 0 <= k < |s|
      ensures v.cells[i][j][k] == s[k].pixels.px[h - 1 - j][w - 1 - i]
    {
      StackOrientedCell(s, i, j, k);
    }
  }

  /** `load_dicom_volume_as_numpy_from_list`. For records of shape H x W
      the volume has shape (W, H, N) and voxel (i, j, k) is the pixel
      (H - 1 - j, W - 1 - i) of the k-th record in ascending instance-number
      order; the header is the first record of the input list. */
  function LoadVolume(records: seq<SliceRecord>): (r: Result<Loaded, LoadError>)
    ensures r == Failure(EmptyInput) <==> |records| == 0
    ensures r == Failure(ShapeMismatch) <==> |records| > 0 && !UniformShape(records)
    ensures r.Success? ==>
      var s := SortByInstance(records);
      var h := records[0].pixels.rows;
      var w := records[0].pixels.cols;
      && r.value.volume.d0 == w
      && r.value.volume.d1 == h
      && r.value.volume.d2 == |records|
      && (forall k :: 0 <= k < |s| ==> s[k].pixels.rows == h && s[k].pixels.cols == w)
      && (forall i, j, k :: 0 <= i < w && 0 <= j < h && 0 <= k < |records| ==>
            r.value.volume.cells[i][j][k] == s[k].pixels.px[h - 1 - j][w - 1 - i])
      && r.value.header == HeaderOf(records[0])
  {
    if |records| == 0 then Failure(EmptyInput)
    else
      var s := SortByInstance(records);
      var planes := OrientAll(s);
      UniformShapeSorted(records);
      if !SameShape(planes) then
        assert !UniformShape(s) by {
          if UniformShape(s) {
            OrientedSameShape(s);
          }
        }
        Failure(ShapeMismatch)
      else
        SortedShape(records);
        StackOriented(s);
        Success(Loaded(Stack(planes), HeaderOf(records[0])))
  }

  /** Reading slice `k` of a loaded volume back through `np.flip(...).T`,
      as the report does, yields the pixel grid of the k-th record in
      instance-number order. */
  lemma ReportSliceIsRecord(records: seq<SliceRecord>, k: nat)
    requires LoadVolume(records).Success?
    requires k < |records|
    ensures Orient(SliceAt(LoadVolume(records).value.volume, k)) == SortByInstance(records)[k].pixels
  {
    var s := SortByInstance(records);
    var planes := OrientAll(s);
    UniformShapeSorted(records);
    SliceOfStack(planes, k);
    PlaneExt(planes[k], Orient(s[k].pixels));
    OrientInvolution(s[k].pixels);
  }

  /** The k-th plane of the volume comes from a record whose instance number
      is no larger than that of the plane after it, and the planes with one
      instance number keep their input order. */
  lemma LoadOrder(records: seq<SliceRecord>, n: int)
    ensures SortedBy(SortByInstance(records), InstanceKey)
    ensures multiset(SortByInstance(records)) == multiset(records)
    ensures WithKey(SortByInstance(records), InstanceKey, n) == WithKey(records, InstanceKey, n)
  {
    SortByCount(records, InstanceKey);
    SortByStable(records, InstanceKey, n);
  }

  /** Two slices in descending instance-number order swap places. */
  lemma SortTwo(a: SliceRecord, b: SliceRecord)
    requires a.instanceNumber > b.instanceNumber
    ensures SortByInstance([a, b]) == [b, a]
  {
    assert [a, b][1..] == [b];
    assert [b][1..] == [];
    assert SortBy([b], InstanceKey) == [b];
    assert Insert(a, [b], InstanceKey) == [b] + Insert(a, [], InstanceKey);
  }

  /** The header is taken from the first record of the list as given, not
      from the one with the lowest instance number: of two slices listed in
      descending instance-number order, the volume starts with the second
      and the header describes the first. */
  lemma HeaderFromInputOrder(a: SliceRecord, b: SliceRecord)
    requires a.instanceNumber > b.instanceNumber
    requires a.pixels.rows == b.pixels.rows && a.pixels.cols == b.pixels.cols
    ensures SortByInstance([a, b])[0] == b
    ensures LoadVolume([a, b]).Success?
    ensures LoadVolume([a, b]).value.header[InstanceNumber] == Int(a.instanceNumber) != Int(b.instanceNumber)
  {
    SortTwo(a, b);
    assert UniformShape([a, b]);
  }
}
