/**
 The report as a DICOM Secondary Capture object (`save_report_as_dcm`).
 The output dataset is the input header with a fixed set of attributes
 overwritten: the Secondary Capture Image Storage SOP class (section B.5 of
 DICOM PS3.4, IOD in section A.8 of DICOM PS3.3), a new series of one
 instance, the Image Pixel module of an 8-bit interleaved RGB image
 (section C.7.6.3 of DICOM PS3.3) and the report's bytes as pixel data; the
 file meta information declares Explicit VR Little Endian (section A.2 of
 DICOM PS3.5). Fresh UIDs and the current date and time are parameters.
 */
module SecondaryCapture {
  import opened Results
  import opened Dicom

  const SecondaryCaptureImageStorage: string := "1.2.840.10008.5.1.4.1.1.7"
  const ExplicitVrLittleEndian: string := "1.2.840.10008.1.2.1"

  datatype Rgb = Rgb(red: byte, green: byte, blue: byte)

  /** A PIL image in mode "RGB": `pixels` in row-major order. */
  datatype RgbImage = RgbImage(width: nat, height: nat, pixels: seq<Rgb>)

  type Report = img: RgbImage | |img.pixels| == img.width * img.height
    witness RgbImage(0, 0, [])

  /** What `generate_uid()` (twice) and the clock supply. */
  datatype Stamp = Stamp(seriesUid: string, instanceUid: string, date: string, time: string)

  /** A dataset with its file meta information and encoding flags. */
  datatype DicomFile = DicomFile(meta: Dataset, data: Dataset, littleEndian: bool, implicitVr: bool)

  /** `Image.tobytes()` for mode "RGB": samples interleaved R1 G1 B1 R2 ... */
  function ToBytes(px: seq<Rgb>): (b: seq<byte>)
    ensures |b| == 3 * |px|
  {
    if |px| == 0 then []
    else [px[0].red, px[0].green, px[0].blue] + ToBytes(px[1..])
  }

  /** Reads interleaved RGB samples back into pixels. */
  function FromBytes(b: seq<byte>): seq<Rgb>
  {
    if |b| < 3 then []
    else [Rgb(b[0], b[1], b[2])] + FromBytes(b[3..])
  }

  lemma {:induction false} BytesRoundTrip(px: seq<Rgb>)
    ensures FromBytes(ToBytes(px)) == px
  {
    if |px| > 0 {
      var b := ToBytes(px);
      assert b[3..] == ToBytes(px[1..]);
      BytesRoundTrip(px[1..]);
      assert px == [px[0]] + px[1..];
    }
  }

  /** Attributes whose value in the output does not come from the header,
      in ascending tag order. */
  const Overwritten: seq<Tag> := [
    ImageType, SOPClassUID, SOPInstanceUID, StudyDate, SeriesDate, StudyTime, SeriesTime,
    Modality, SeriesDescription, SeriesInstanceUID, ImagesInAcquisition,
    SamplesPerPixel, PhotometricInterpretation, PlanarConfiguration, Rows, Columns,
    BitsAllocated, BitsStored, HighBit, PixelRepresentation, BurnedInAnnotation,
    WindowCenter, WindowWidth, PixelData]

  /** One data element written by `save_report_as_dcm`. */
  datatype Element = Element(tag: Tag, value: Value)

  /** The elements `save_report_as_dcm` assigns, in ascending tag order. */
  function Assignments(report: Report, stamp: Stamp): seq<Element>
  {
    [
      // General Image: derived from patient data
      Element(ImageType, Text("DERIVED\\PRIMARY\\AXIAL")),
      // SOP Common: a Secondary Capture image with a new instance UID
      Element(SOPClassUID, Text(SecondaryCaptureImageStorage)),
      Element(SOPInstanceUID, Text(stamp.instanceUid)),
      // General Study and General Series: date and time of encoding
      Element(StudyDate, Text(stamp.date)),
      Element(SeriesDate, Text(stamp.date)),
      Element(StudyTime, Text(stamp.time)),
      Element(SeriesTime, Text(stamp.time)),
      // General Series: a new series of modality "other"
      Element(Modality, Text("OT")),
      Element(SeriesDescription, Text("HippoVolume.AI")),
      Element(SeriesInstanceUID, Text(stamp.seriesUid)),
      Element(ImagesInAcquisition, Int(1)),
      // Image Pixel: 8-bit interleaved RGB of the report's size
      Element(SamplesPerPixel, Int(3)),
      Element(PhotometricInterpretation, Text("RGB")),
      Element(PlanarConfiguration, Int(0)),
      Element(Rows, Int(report.height)),
      Element(Columns, Int(report.width)),
      Element(BitsAllocated, Int(8)),
      Element(BitsStored, Int(8)),
      Element(HighBit, Int(7)),
      Element(PixelRepresentation, Int(0)),
      // General Image and VOI LUT: annotated, no window hints
      Element(BurnedInAnnotation, Text("YES")),
      Element(WindowCenter, Text("")),
      Element(WindowWidth, Text("")),
      Element(PixelData, Bytes(ToBytes(report.pixels)))
    ]
  }

  function Tags(elems: seq<Element>): (tags: seq<Tag>)
    ensures |tags| == |elems|
    ensures forall i :: 0 <= i < |elems| ==> tags[i] == elems[i].tag
  {
    seq(|elems|, i requires 0 <= i < |elems| => elems[i].tag)
  }

  predicate Increasing(tags: seq<Tag>)
  {
    forall i :: 0 < i < |tags| ==> tags[i - 1] < tags[i]
  }

  /** The assignments are exactly the overwritten attributes, in tag order. */
  lemma AssignmentTags(report: Report, stamp: Stamp)
    ensures Tags(Assignments(report, stamp)) == Overwritten
  {
  }

  /** No attribute is assigned twice. */
  lemma OverwrittenIncreasing()
    ensures Increasing(Overwritten)
  {
  }

  /** In an increasing sequence no tag occurs twice. */
  lemma {:induction false} IncreasingDistinct(tags: seq<Tag>, i: int, j: int)
    requires Increasing(tags)
    requires 0 <= i < j < |tags|
    ensures tags[i] < tags[j]
    decreases j - i
  {
    if i + 1 < j {
      IncreasingDistinct(tags, i, j - 1);
    }
  }

  /** Writes the elements over `d`, the last one first. */
  function Overlay(d: Dataset, elems: seq<Element>): Dataset
  {
    if |elems| == 0 then d
    else Overlay(d, elems[1..])[elems[0].tag := elems[0].value]
  }

  /** Dropping the first element drops the first tag. */
  lemma TagsTail(elems: seq<Element>)
    requires |elems| > 0
    ensures Tags(elems[1..]) == Tags(elems)[1..]
    ensures forall k :: k in Tags(elems) <==> k == elems[0].tag || k in Tags(elems[1..])
  {
    var rest := elems[1..];
    assert Tags(rest) == Tags(elems)[1..];
    forall k
      ensures k in Tags(elems) <==> k == elems[0].tag || k in Tags(rest)
    {
      if k in Tags(elems) {
        var i :| 0 <= i < |elems| && Tags(elems)[i] == k;
        if i > 0 {
          assert Tags(rest)[i - 1] == k;
        }
      }
    }
  }

  /** The overlay holds the tags of `d` and of the elements. */
  lemma {:induction false} OverlayKeys(d: Dataset, elems: seq<Element>)
    ensures forall k :: k in Overlay(d, elems) <==> k in d || k in Tags(elems)
  {
    if |elems| > 0 {
      TagsTail(elems);
      OverlayKeys(d, elems[1..]);
    }
  }

  /** Away from the elements' tags the overlay agrees with `d`. */
  lemma {:induction false} OverlayElsewhere(d: Dataset, elems: seq<Element>)
    ensures forall k :: k in d && k !in Tags(elems) ==> k in Overlay(d, elems) && Overlay(d, elems)[k] == d[k]
  {
    if |elems| > 0 {
      TagsTail(elems);
      OverlayElsewhere(d, elems[1..]);
    }
  }

  /** With distinct tags every element's value survives at its tag. */
  lemma {:induction false} OverlayValues(d: Dataset, elems: seq<Element>)
    requires Increasing(Tags(elems))
    ensures forall i :: 0 <= i < |elems| ==>
      elems[i].tag in Overlay(d, elems) && Overlay(d, elems)[elems[i].tag] == elems[i].value
  {
    if |elems| > 0 {
      var rest := elems[1..];
      TagsTail(elems);
      OverlayValues(d, rest);
      forall i | 0 < i < |elems|
        ensures elems[i].tag != elems[0].tag
      {
        IncreasingDistinct(Tags(elems), 0, i);
      }
      assert forall i :: 0 < i < |elems| ==> elems[i] == rest[i - 1];
    }
  }

  /** With distinct tags the overlay holds every element's value at its tag
      and the value of `d`, or nothing, at every other tag. */
  lemma OverlayAt(d: Dataset, elems: seq<Element>)
    requires Increasing(Tags(elems))
    ensures forall k :: k in Overlay(d, elems) <==> k in d || k in Tags(elems)
    ensures forall i :: 0 <= i < |elems| ==> Overlay(d, elems)[elems[i].tag] == elems[i].value
    ensures forall k :: k in d && k !in Tags(elems) ==> Overlay(d, elems)[k] == d[k]
  {
    OverlayKeys(d, elems);
    OverlayValues(d, elems);
    OverlayElsewhere(d, elems);
  }

  /** The output dataset: a copy of the header with the assigned elements
      written over it. */
  function ReportDataset(header: Dataset, report: Report, stamp: Stamp): Dataset
  {
    Overlay(header, Assignments(report, stamp))
  }

  /** `data` holds the attributes of `header` and the overwritten ones, and
      agrees with `header` on every attribute that is not overwritten. */
  ghost predicate CarriesOver(header: Dataset, data: Dataset)
  {
    && (forall k :: k in data <==> k in header || k in Overwritten)
    && (forall k :: k in header && k !in Overwritten ==> data[k] == header[k])
  }

  lemma ReportDatasetKeys(header: Dataset, report: Report, stamp: Stamp)
    ensures CarriesOver(header, ReportDataset(header, report, stamp))
  {
    AssignmentTags(report, stamp);
    OverwrittenIncreasing();
    OverlayAt(header, Assignments(report, stamp));
  }

  /** The i-th assigned element is in the output, whatever the header. */
  lemma AssignedAt(header: Dataset, report: Report, stamp: Stamp, i: nat, e: Element)
    requires i < |Overwritten| && Assignments(report, stamp)[i] == e
    ensures e.tag in ReportDataset(header, report, stamp)
    ensures ReportDataset(header, report, stamp)[e.tag] == e.value
  {
    AssignmentTags(report, stamp);
    OverwrittenIncreasing();
    OverlayAt(header, Assignments(report, stamp));
    assert Tags(Assignments(report, stamp))[i] == e.tag;
  }

  function IntOf(d: Dataset, k: Tag): int
  {
    if k in d && d[k].Int? then d[k].number else -1
  }

  /** The Image Pixel module of an unsigned 8-bit-per-sample, pixel-interleaved
      RGB image whose pixel data has exactly Rows x Columns x SamplesPerPixel
      samples of one byte each. */
  predicate IsRgb8Image(d: Dataset)
  {
    && PixelData in d && d[PixelData].Bytes?
    && Rows in d && Columns in d && SamplesPerPixel in d
    && BitsAllocated in d && BitsStored in d && HighBit in d
    && d[SamplesPerPixel] == Int(3)
    && PhotometricInterpretation in d && d[PhotometricInterpretation] == Text("RGB")
    && PlanarConfiguration in d && d[PlanarConfiguration] == Int(0)
    && d[BitsAllocated] == Int(8)
    && d[BitsStored] == d[BitsAllocated]
    && IntOf(d, HighBit) == IntOf(d, BitsStored) - 1
    && PixelRepresentation in d && d[PixelRepresentation] == Int(0)
    && IntOf(d, Rows) >= 0 && IntOf(d, Columns) >= 0
    && |d[PixelData].bytes| == IntOf(d, Rows) * IntOf(d, Columns) * IntOf(d, SamplesPerPixel)
  }

  /** File meta information naming the same SOP class and instance as the
      dataset and the Explicit VR Little Endian transfer syntax. */
  predicate MetaMatches(f: DicomFile)
  {
    && f.littleEndian && !f.implicitVr
    && TransferSyntaxUID in f.meta && f.meta[TransferSyntaxUID] == Text(ExplicitVrLittleEndian)
    && MediaStorageSOPClassUID in f.meta && SOPClassUID in f.data
    && f.meta[MediaStorageSOPClassUID] == f.data[SOPClassUID]
    && MediaStorageSOPInstanceUID in f.meta && SOPInstanceUID in f.data
    && f.meta[MediaStorageSOPInstanceUID] == f.data[SOPInstanceUID]
  }

  /** The Image Pixel values `save_report_as_dcm` assigns make a dataset
      an RGB8 image whenever the pixel data holds three bytes per pixel. */
  lemma Rgb8FromValues(d: Dataset, rows: nat, cols: nat, bytes: seq<byte>)
    requires Rows in d && Columns in d && SamplesPerPixel in d && PhotometricInterpretation in d
    requires PlanarConfiguration in d && PixelRepresentation in d && PixelData in d
    requires BitsAllocated in d && BitsStored in d && HighBit in d
    requires d[Rows] == Int(rows) && d[Columns] == Int(cols)
    requires d[SamplesPerPixel] == Int(3) && d[PhotometricInterpretation] == Text("RGB")
    requires d[PlanarConfiguration] == Int(0) && d[PixelRepresentation] == Int(0)
    requires d[BitsAllocated] == Int(8) && d[BitsStored] == Int(8) && d[HighBit] == Int(7)
    requires d[PixelData] == Bytes(bytes) && |bytes| == rows * cols * 3
    ensures IsRgb8Image(d)
  {
  }

  /** Three bytes per pixel, Rows x Columns pixels. */
  lemma ByteCount(report: Report)
    ensures |ToBytes(report.pixels)| == report.height * report.width * 3
  {
  }

  lemma ReportDatasetFormat(header: Dataset, report: Report, stamp: Stamp)
    ensures var d := ReportDataset(header, report, stamp);
      && SamplesPerPixel in d && PhotometricInterpretation in d
      && PlanarConfiguration in d && PixelRepresentation in d
      && BitsAllocated in d && BitsStored in d && HighBit in d
      && d[SamplesPerPixel] == Int(3) && d[PhotometricInterpretation] == Text("RGB")
      && d[PlanarConfiguration] == Int(0) && d[PixelRepresentation] == Int(0)
      && d[BitsAllocated] == Int(8) && d[BitsStored] == Int(8) && d[HighBit] == Int(7)
  {
    ReportDatasetSamples(header, report, stamp);
    ReportDatasetBits(header, report, stamp);
  }

  /** Three interleaved colour samples per pixel. */
  lemma ReportDatasetSamples(header: Dataset, report: Report, stamp: Stamp)
    ensures var d := ReportDataset(header, report, stamp);
      && SamplesPerPixel in d && PhotometricInterpretation in d && PlanarConfiguration in d
      && d[SamplesPerPixel] == Int(3) && d[PhotometricInterpretation] == Text("RGB")
      && d[PlanarConfiguration] == Int(0)
  {
    AssignedAt(header, report, stamp, 11, Element(SamplesPerPixel, Int(3)));
    AssignedAt(header, report, stamp, 12, Element(PhotometricInterpretation, Text("RGB")));
    AssignedAt(header, report, stamp, 13, Element(PlanarConfiguration, Int(0)));
  }

  /** Unsigned samples of eight bits. */
  lemma ReportDatasetBits(header: Dataset, report: Report, stamp: Stamp)
    ensures var d := ReportDataset(header, report, stamp);
      && PixelRepresentation in d && BitsAllocated in d && BitsStored in d && HighBit in d
      && d[PixelRepresentation] == Int(0)
      && d[BitsAllocated] == Int(8) && d[BitsStored] == Int(8) && d[HighBit] == Int(7)
  {
    AssignedAt(header, report, stamp, 19, Element(PixelRepresentation, Int(0)));
    AssignedAt(header, report, stamp, 16, Element(BitsAllocated, Int(8)));
    AssignedAt(header, report, stamp, 17, Element(BitsStored, Int(8)));
    AssignedAt(header, report, stamp, 18, Element(HighBit, Int(7)));
  }

  lemma ReportDatasetRgb8(header: Dataset, report: Report, stamp: Stamp)
    ensures IsRgb8Image(ReportDataset(header, report, stamp))
  {
    ReportDatasetFormat(header, report, stamp);
    ReportDatasetSize(header, report, stamp);
    ByteCount(report);
    Rgb8FromValues(ReportDataset(header, report, stamp), report.height, report.width, ToBytes(report.pixels));
  }

  /** The output is a Secondary Capture image with the new instance UID. */
  lemma ReportDatasetIdentity(header: Dataset, report: Report, stamp: Stamp)
    ensures var d := ReportDataset(header, report, stamp);
      && SOPClassUID in d && SOPInstanceUID in d
      && d[SOPClassUID] == Text(SecondaryCaptureImageStorage)
      && d[SOPInstanceUID] == Text(stamp.instanceUid)
  {
    AssignedAt(header, report, stamp, 1, Element(SOPClassUID, Text(SecondaryCaptureImageStorage)));
    AssignedAt(header, report, stamp, 2, Element(SOPInstanceUID, Text(stamp.instanceUid)));
  }

  /** The output starts a new series. */
  lemma ReportDatasetSeries(header: Dataset, report: Report, stamp: Stamp)
    ensures var d := ReportDataset(header, report, stamp);
      SeriesInstanceUID in d && d[SeriesInstanceUID] == Text(stamp.seriesUid)
  {
    AssignedAt(header, report, stamp, 9, Element(SeriesInstanceUID, Text(stamp.seriesUid)));
  }

  lemma ReportDatasetSize(header: Dataset, report: Report, stamp: Stamp)
    ensures var d := ReportDataset(header, report, stamp);
      && Rows in d && Columns in d && PixelData in d
      && d[Rows] == Int(report.height) && d[Columns] == Int(report.width)
      && d[PixelData] == Bytes(ToBytes(report.pixels))
  {
    AssignedAt(header, report, stamp, 14, Element(Rows, Int(report.height)));
    AssignedAt(header, report, stamp, 15, Element(Columns, Int(report.width)));
    AssignedAt(header, report, stamp, 23, Element(PixelData, Bytes(ToBytes(report.pixels))));
  }

  /** Study and series carry the same date of encoding. */
  lemma ReportDatasetDates(header: Dataset, report: Report, stamp: Stamp)
    ensures var d := ReportDataset(header, report, stamp);
      && StudyDate in d && SeriesDate in d
      && d[StudyDate] == d[SeriesDate] == Text(stamp.date)
  {
    AssignedAt(header, report, stamp, 3, Element(StudyDate, Text(stamp.date)));
    AssignedAt(header, report, stamp, 4, Element(SeriesDate, Text(stamp.date)));
  }

  /** Study and series carry the same time of encoding. */
  lemma ReportDatasetTimes(header: Dataset, report: Report, stamp: Stamp)
    ensures var d := ReportDataset(header, report, stamp);
      && StudyTime in d && SeriesTime in d
      && d[StudyTime] == d[SeriesTime] == Text(stamp.time)
  {
    AssignedAt(header, report, stamp, 5, Element(StudyTime, Text(stamp.time)));
    AssignedAt(header, report, stamp, 6, Element(SeriesTime, Text(stamp.time)));
  }

  /** The report is labelled as "other" modality from this product. */
  lemma ReportDatasetLabels(header: Dataset, report: Report, stamp: Stamp)
    ensures var d := ReportDataset(header, report, stamp);
      && Modality in d && SeriesDescription in d
      && d[Modality] == Text("OT") && d[SeriesDescription] == Text("HippoVolume.AI")
  {
    AssignedAt(header, report, stamp, 7, Element(Modality, Text("OT")));
    AssignedAt(header, report, stamp, 8, Element(SeriesDescription, Text("HippoVolume.AI")));
  }

  /** The text is burnt into the pixels and no window is suggested. */
  lemma ReportDatasetDisplay(header: Dataset, report: Report, stamp: Stamp)
    ensures var d := ReportDataset(header, report, stamp);
      && BurnedInAnnotation in d && WindowCenter in d && WindowWidth in d
      && d[BurnedInAnnotation] == Text("YES")
      && d[WindowCenter] == Text("") && d[WindowWidth] == Text("")
  {
    AssignedAt(header, report, stamp, 20, Element(BurnedInAnnotation, Text("YES")));
    AssignedAt(header, report, stamp, 21, Element(WindowCenter, Text("")));
    AssignedAt(header, report, stamp, 22, Element(WindowWidth, Text("")));
  }

  /** `save_report_as_dcm` without the write: every header attribute outside
      `Overwritten` is carried over unchanged, and the overwritten ones
      describe a one-image Secondary Capture series holding the report. */
  function SaveReport(header: Dataset, report: Report, stamp: Stamp): (f: DicomFile)
    ensures MetaMatches(f)
    ensures f.meta.Keys == {TransferSyntaxUID, MediaStorageSOPClassUID, MediaStorageSOPInstanceUID}
    ensures CarriesOver(header, f.data)
  {
    ReportDatasetKeys(header, report, stamp);
    ReportDatasetIdentity(header, report, stamp);
    var data := ReportDataset(header, report, stamp);
    var meta := map[
      TransferSyntaxUID := Text(ExplicitVrLittleEndian),
      MediaStorageSOPClassUID := data[SOPClassUID],
      MediaStorageSOPInstanceUID := data[SOPInstanceUID]];
    DicomFile(meta, data, true, false)
  }

  /** The file is a Secondary Capture instance in the meta information and
      the dataset alike, and its series and instance identifiers are the
      generated ones, so they differ from the header's whenever the
      generator returns new identifiers. */
  lemma SaveReportIdentity(header: Dataset, report: Report, stamp: Stamp)
    requires SeriesInstanceUID in header ==> header[SeriesInstanceUID] != Text(stamp.seriesUid)
    requires SOPInstanceUID in header ==> header[SOPInstanceUID] != Text(stamp.instanceUid)
    ensures var f := SaveReport(header, report, stamp);
      && MediaStorageSOPClassUID in f.meta && SOPClassUID in f.data
      && MediaStorageSOPInstanceUID in f.meta && SOPInstanceUID in f.data
      && SeriesInstanceUID in f.data
      && f.meta[MediaStorageSOPClassUID] == f.data[SOPClassUID] == Text(SecondaryCaptureImageStorage)
      && f.meta[MediaStorageSOPInstanceUID] == f.data[SOPInstanceUID] == Text(stamp.instanceUid)
      && f.data[SeriesInstanceUID] == Text(stamp.seriesUid)
      && (SeriesInstanceUID in header ==> f.data[SeriesInstanceUID] != header[SeriesInstanceUID])
      && (SOPInstanceUID in header ==> f.data[SOPInstanceUID] != header[SOPInstanceUID])
  {
    ReportDatasetIdentity(header, report, stamp);
    ReportDatasetSeries(header, report, stamp);
  }

  /** Study and patient identity are taken over from the header untouched:
      the report joins the study of the images it was computed from. */
  lemma SaveReportKeepsStudy(header: Dataset, report: Report, stamp: Stamp)
    ensures var d := SaveReport(header, report, stamp).data;
      && (StudyInstanceUID in d <==> StudyInstanceUID in header)
      && (StudyInstanceUID in header ==> d[StudyInstanceUID] == header[StudyInstanceUID])
      && (PatientID in d <==> PatientID in header)
      && (PatientID in header ==> d[PatientID] == header[PatientID])
  {
    assert StudyInstanceUID !in Overwritten;
    assert PatientID !in Overwritten;
  }

  /** How a viewer reads the image back: Rows x Columns pixels of three
      interleaved 8-bit samples. */
  function ReadImage(f: DicomFile): (r: Option<Report>)
    ensures r.Some? ==> IsRgb8Image(f.data)
  {
    if !IsRgb8Image(f.data) then None
    else
      var rows := IntOf(f.data, Rows);
      var cols := IntOf(f.data, Columns);
      var px := FromBytes(f.data[PixelData].bytes);
      if |px| == rows * cols then Some(RgbImage(cols, rows, px)) else None
  }

  /** Encoding and reading back reproduces the report: same dimensions and
      the same pixels. */
  lemma EncodeReadRoundTrip(header: Dataset, report: Report, stamp: Stamp)
    ensures ReadImage(SaveReport(header, report, stamp)) == Some(report)
  {
    var d := ReportDataset(header, report, stamp);
    assert SaveReport(header, report, stamp).data == d;
    ReportDatasetRgb8(header, report, stamp);
    ReportDatasetSize(header, report, stamp);
    BytesRoundTrip(report.pixels);
    assert FromBytes(d[PixelData].bytes) == report.pixels;
    assert |report.pixels| == IntOf(d, Rows) * IntOf(d, Columns);
  }
}
