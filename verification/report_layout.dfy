/**
 The deterministic part of `create_report`: which three slices the report
 shows, how large each overlay is drawn and where the three overlays are
 pasted on the 1000 x 1000 canvas. Pixel rendering is not modelled.
 */
module ReportLayout {
  import opened Results
  import opened Geometry

  const XOffset: nat := 10
  const XPadding: nat := 10
  const YOffset: nat := 450

  /** Upper-left corner of a pasted overlay. */
  datatype Box = Box(x: nat, y: nat)

  /** `size` is the PIL size (width, height) of each overlay. */
  datatype Layout = Layout(sliceNums: seq<nat>, width: nat, height: nat, boxes: seq<Box>)

  /** `orig_vol[:, :, slice_nums[0]]` on a volume without slices, or
      `np.max(slice)` in `get_overlaid_image` on a slice without rows or
      columns (numpy's reduction over a zero-size array). */
  datatype LayoutError = NoSlices | EmptySlice

  /** Slices at one third, one half and three quarters of the depth
      (integer division); for a non-empty volume all three are in range and
      in non-decreasing order. */
  function SliceNumbers(depth: nat): (r: seq<nat>)
    ensures r == [depth / 3, depth / 2, depth * 3 / 4]
    ensures depth >= 1 ==> 0 <= r[0] <= r[1] <= r[2] < depth
  {
    assert depth / 3 <= depth / 2;
    assert depth / 2 <= depth * 3 / 4;
    assert depth >= 1 ==> depth * 3 / 4 < depth;
    [depth / 3, depth / 2, depth * 3 / 4]
  }

  /** The report layout for a volume of shape (d0, d1, d2). */
  function LayoutReport(v: Volume): (r: Result<Layout, LayoutError>)
    ensures r == Failure(NoSlices) <==> v.d2 == 0
    ensures r == Failure(EmptySlice) <==> v.d2 > 0 && (v.d0 == 0 || v.d1 == 0)
    ensures r.Success? ==>
      && r.value.sliceNums == [v.d2 / 3, v.d2 / 2, v.d2 * 3 / 4]
      && (forall k :: 0 <= k < 3 ==> r.value.sliceNums[k] < v.d2)
      && r.value.width == 3 * SliceAt(v, r.value.sliceNums[0]).cols
      && r.value.height == 5 * SliceAt(v, r.value.sliceNums[0]).rows
      && |r.value.boxes| == 3
      && r.value.boxes[0] == Box(XOffset, YOffset)
      && (forall i :: 0 <= i < 2 ==>
            r.value.boxes[i + 1].x == r.value.boxes[i].x + r.value.width + XPadding
            && r.value.boxes[i + 1].y == r.value.boxes[i].y)
  {
    if v.d2 == 0 then Failure(NoSlices)
    else if v.d0 == 0 || v.d1 == 0 then Failure(EmptySlice)
    else
      var nums := SliceNumbers(v.d2);
      var w := 3 * v.d1;
      var h := 5 * v.d0;
      Success(Layout(nums, w, h,
        [Box(XOffset, YOffset),
         Box(XOffset + w + XPadding, YOffset),
         Box(XOffset + 2 * (w + XPadding), YOffset)]))
  }

  /** Overlay `i` occupies columns [x, x + width) of the canvas; any two
      overlays are disjoint and consecutive ones are exactly `XPadding`
      pixels apart. */
  lemma {:induction false} BoxesDisjoint(v: Volume, i: nat, j: nat)
    requires LayoutReport(v).Success?
    requires i < j < 3
    ensures var l := LayoutReport(v).value;
      && l.boxes[i].x + l.width < l.boxes[j].x
      && (j == i + 1 ==> l.boxes[j].x - (l.boxes[i].x + l.width) == XPadding)
      && l.boxes[j].x == XOffset + j * (l.width + XPadding)
  {
    var l := LayoutReport(v).value;
    assert l.boxes[1].x == XOffset + (l.width + XPadding);
    assert l.boxes[2].x == XOffset + 2 * (l.width + XPadding);
  }
}
