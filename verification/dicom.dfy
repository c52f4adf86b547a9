/**
 DICOM data as the pipeline sees it after `pydicom.dcmread`: a dataset is a
 map from attribute keyword to value, and a slice record exposes the
 attributes the pipeline reads by name next to the rest of its dataset.
 */
module Dicom {
  import opened Geometry

  newtype byte = x: int | 0 <= x < 256

  /** An attribute value: text (UI, CS, LO, DA, TM, IS, ...), an integer
      (US), raw bytes (OB/OW), a decoded pixel array, or `None`. */
  datatype Value = Text(text: string) | Int(number: int) | Bytes(bytes: seq<byte>) | Pixels(plane: Plane) | Null

  /** A data element tag, (group, element) packed as group * 0x10000 + element. */
  type Tag = nat

  /** A dataset: data elements keyed by tag (pydicom's keyword access is a
      lookup of the keyword's tag). */
  type Dataset = map<Tag, Value>

  // Tags of the attributes the pipeline reads or writes, from the data
  // dictionary of DICOM PS3.6 (file meta elements in group 0002).
  const MediaStorageSOPClassUID: Tag := 0x0002_0002
  const MediaStorageSOPInstanceUID: Tag := 0x0002_0003
  const TransferSyntaxUID: Tag := 0x0002_0010
  const ImageType: Tag := 0x0008_0008
  const SOPClassUID: Tag := 0x0008_0016
  const SOPInstanceUID: Tag := 0x0008_0018
  const StudyDate: Tag := 0x0008_0020
  const SeriesDate: Tag := 0x0008_0021
  const StudyTime: Tag := 0x0008_0030
  const SeriesTime: Tag := 0x0008_0031
  const Modality: Tag := 0x0008_0060
  const SeriesDescription: Tag := 0x0008_103E
  const PatientID: Tag := 0x0010_0020
  const StudyInstanceUID: Tag := 0x0020_000D
  const SeriesInstanceUID: Tag := 0x0020_000E
  const InstanceNumber: Tag := 0x0020_0013
  const ImagesInAcquisition: Tag := 0x0020_1002
  const SamplesPerPixel: Tag := 0x0028_0002
  const PhotometricInterpretation: Tag := 0x0028_0004
  const PlanarConfiguration: Tag := 0x0028_0006
  const Rows: Tag := 0x0028_0010
  const Columns: Tag := 0x0028_0011
  const BitsAllocated: Tag := 0x0028_0100
  const BitsStored: Tag := 0x0028_0101
  const HighBit: Tag := 0x0028_0102
  const PixelRepresentation: Tag := 0x0028_0103
  const BurnedInAnnotation: Tag := 0x0028_0301
  const WindowCenter: Tag := 0x0028_1050
  const WindowWidth: Tag := 0x0028_1051
  const PixelData: Tag := 0x7FE0_0010

  /** One parsed slice file. `elements` holds every attribute other than
      the four below; keys of `elements` that name one of the four are
      shadowed by the typed field. */
  datatype SliceRecord = SliceRecord(
    instanceNumber: int,
    seriesInstanceUid: string,
    seriesDescription: string,
    pixels: Plane,
    elements: Dataset)

  /** The whole dataset of a record, attributes and pixel data together. */
  function AsDataset(r: SliceRecord): (d: Dataset)
    ensures d.Keys == r.elements.Keys + {InstanceNumber, SeriesInstanceUID, SeriesDescription, PixelData}
    ensures d[PixelData] == Pixels(r.pixels)
    ensures d[InstanceNumber] == Int(r.instanceNumber)
    ensures d[SeriesInstanceUID] == Text(r.seriesInstanceUid)
    ensures d[SeriesDescription] == Text(r.seriesDescription)
  {
    r.elements
      [InstanceNumber := Int(r.instanceNumber)]
      [SeriesInstanceUID := Text(r.seriesInstanceUid)]
      [SeriesDescription := Text(r.seriesDescription)]
      [PixelData := Pixels(r.pixels)]
  }
}
