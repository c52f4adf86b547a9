# HippoVolume.AI inference pipeline and cohort helpers, modelled in Dafny

This project models two groups of sequential logic.

The first is the deterministic part of the hippocampal-volume inference
script `Course3/section_3/out/src/inference_dcm.py`:

- choosing the HippoCrop series among the slices of a study directory;
- assembling the slices into a volume: sorted by instance number,
  re-oriented with `np.flip(...).T` and stacked;
- counting the voxels of the two predicted hippocampal structures;
- the slice indices and overlay layout of the report image;
- deriving the DICOM Secondary Capture dataset that carries the report;
- the newest-first choice of the study directory to process.

The second is the tabular helpers of the diabetes cohort in
`Course4/student_utils.py`:

- keeping each patient's first encounter;
- joining generic drug names from an NDC lookup table;
- splitting rows by a patient-level partition;
- thresholding predictions into binary labels.

Modules:

- `Results`: the `Result` and `Option` types.
- `Seqs`: mask filtering, first-match search, reversal, and "drop duplicates, keep first".
- `StableSort`: Python's stable `sorted` with an integer key.
- `Geometry`: two- and three-dimensional integer arrays; flip, transpose, stack and slice.
- `Dicom`: datasets as maps from tag to value, and parsed slice records.
- `SeriesSelection`, `VolumeLoader`, `Quantifier`, `ReportLayout`, `SecondaryCapture`, `StudyRouting`: the pipeline.
- `Frames`: data frames as column sets and sequences of rows.
- `FirstEncounter`, `NdcJoin`, `PatientSplit`, `BinaryPrediction`: the cohort helpers.

Tags follow the data dictionary of DICOM PS3.6. The Secondary Capture Image
Storage SOP class `1.2.840.10008.5.1.4.1.1.7` is from section B.5 of DICOM
PS3.4. The Explicit VR Little Endian transfer syntax `1.2.840.10008.1.2.1`
is from section A.2 of DICOM PS3.5. The Image Pixel attributes of an 8-bit
interleaved RGB image follow section C.7.6.3 of DICOM PS3.3.

## Model

| member | source | states |
|---|---|---|
| SeriesSelection.SelectSeries | Course3/section_3/out/src/inference_dcm.py:285-295 | the result is empty iff no slice is described "HippoCrop" or two such slices carry different series UIDs; otherwise it is exactly the HippoCrop slices in directory order, all of one series |
| SeriesSelection.AmbiguousIff | Course3/section_3/out/src/inference_dcm.py:290-293 | the set of series UIDs of the HippoCrop slices has a size other than one exactly when two HippoCrop slices disagree on their series |
| SeriesSelection.OneUidIff | Course3/section_3/out/src/inference_dcm.py:291 | a non-empty list of slices has one distinct series UID iff every slice has the first slice's UID |
| StableSort.SortBy | Course3/section_3/out/src/inference_dcm.py:42 | sorting by a key gives a sequence of the same length whose keys never decrease |
| StableSort.SortByCount | Course3/section_3/out/src/inference_dcm.py:42 | the sorted sequence is a permutation of the input (same multiset) |
| StableSort.SortByStable | Course3/section_3/out/src/inference_dcm.py:42 | for every key, the elements with that key appear in the sorted output in their input order |
| StableSort.Insert | Course3/section_3/out/src/inference_dcm.py:42 | inserting into a sorted sequence keeps it sorted, adds one element and loses none |
| StableSort.InsertStable | Course3/section_3/out/src/inference_dcm.py:42 | an inserted element goes ahead of every element with the same key |
| Geometry.FlipAll | Course3/section_3/out/src/inference_dcm.py:42 | `np.flip` with no axis keeps the shape and maps cell (i, j) to (H-1-i, W-1-j) |
| Geometry.Transpose | Course3/section_3/out/src/inference_dcm.py:42 | `.T` swaps the two dimensions, and cell (i, j) of the result is cell (j, i) of the input |
| Geometry.Orient | Course3/section_3/out/src/inference_dcm.py:42 | flip then transpose turns an H x W grid into a W x H grid whose cell (i, j) is input cell (H-1-j, W-1-i) |
| Geometry.OrientInvolution | Course3/section_3/out/src/inference_dcm.py:159 | applying flip-then-transpose twice gives back the original grid |
| Geometry.Stack | Course3/section_3/out/src/inference_dcm.py:52 | `np.stack(planes, 2)` of N planes of shape (h, w) has shape (h, w, N), and voxel (i, j, k) is cell (i, j) of plane k |
| Geometry.SliceOfStack | Course3/section_3/out/src/inference_dcm.py:141 | slicing a stacked volume at k (`v[:, :, k]`) returns the k-th stacked plane |
| Geometry.SliceAt | Course3/section_3/out/src/inference_dcm.py:141 | `v[:, :, k]` of a (d0, d1, d2) volume is a d0 x d1 plane whose cell (i, j) is voxel (i, j, k) |
| VolumeLoader.LoadVolume | Course3/section_3/out/src/inference_dcm.py:30-52 | fails with EmptyInput iff the list is empty and with ShapeMismatch iff the slices differ in shape; otherwise the volume has shape (W, H, N), voxel (i, j, k) is pixel (H-1-j, W-1-i) of the k-th slice by instance number, and the header is the input's first slice with pixel data cleared |
| VolumeLoader.SortByInstance | Course3/section_3/out/src/inference_dcm.py:42 | sorting the slices by instance number keeps their number |
| VolumeLoader.OrientAll | Course3/section_3/out/src/inference_dcm.py:42 | one plane per slice; for slice k of shape H x W, plane k has shape W x H and its cell (i, j) is the slice's pixel (H-1-j, W-1-i) |
| VolumeLoader.OrientedSameShape | Course3/section_3/out/src/inference_dcm.py:42 | when all slices share the shape H x W, every re-oriented plane has shape W x H |
| VolumeLoader.HeaderOf | Course3/section_3/out/src/inference_dcm.py:45-51 | the header has PixelData set to None and every other attribute of the slice unchanged |
| VolumeLoader.LoadOrder | Course3/section_3/out/src/inference_dcm.py:42 | the planes are in non-decreasing instance-number order, are a permutation of the input slices, and slices with equal instance numbers keep their input order |
| VolumeLoader.StackOriented | Course3/section_3/out/src/inference_dcm.py:42-52 | stacking the re-oriented grids gives shape (W, H, N) and the voxel formula above |
| VolumeLoader.UniformShapeSorted | Course3/section_3/out/src/inference_dcm.py:42-52 | sorting does not change whether all slices share one shape |
| VolumeLoader.HeaderFromInputOrder | Course3/section_3/out/src/inference_dcm.py:42-45 | for two slices listed in descending instance order, the volume starts with the second slice while the header is that of the first |
| VolumeLoader.ReportSliceIsRecord | Course3/section_3/out/src/inference_dcm.py:42-52 | re-orienting plane k of a loaded volume, as the report does, gives back the k-th slice's pixel grid |
| Quantifier.Count | Course3/section_3/out/src/inference_dcm.py:65-66 | `np.sum(pred == lab)` is the number of occurrences of `lab` and is at most the number of voxels |
| Quantifier.PredictedVolumes | Course3/section_3/out/src/inference_dcm.py:54-69 | anterior is the number of voxels labelled 1, posterior the number labelled 2, total their sum, and total is at most the voxel count |
| Quantifier.TotalPlusOthers | Course3/section_3/out/src/inference_dcm.py:65-67 | total plus the voxels of every other label is the whole volume, so other labels are ignored |
| Quantifier.CountOther | Course3/section_3/out/src/inference_dcm.py:65-67 | the voxels labelled neither 1 nor 2 are all the voxels minus the two structures' counts |
| Quantifier.VoxelCount | Course3/section_3/out/src/inference_dcm.py:65-66 | a (d0, d1, d2) volume has d0·d1·d2 voxels |
| ReportLayout.SliceNumbers | Course3/section_3/out/src/inference_dcm.py:96 | the report shows slices S//3, S//2 and S*3//4 of a depth-S volume (floor division); for S ≥ 1 they are non-decreasing and all three are in range |
| ReportLayout.LayoutReport | Course3/section_3/out/src/inference_dcm.py:96-159 | fails with NoSlices iff the volume has no slice, and with EmptySlice iff it has slices without rows or columns (`np.max` at line 159 on a zero-size slice); otherwise the slice indices are S//3, S//2 and S*3//4 of the depth S, all in range, the overlay size is (3·cols, 5·rows) of the chosen slice, box 0 is at (10, 450), and each next box lies the width plus 10 pixels to the right on the same row |
| ReportLayout.BoxesDisjoint | Course3/section_3/out/src/inference_dcm.py:141-143 | box j starts at 10 + j·(width + 10); the boxes do not overlap, and consecutive boxes are exactly 10 pixels apart |
| SecondaryCapture.SaveReport | Course3/section_3/out/src/inference_dcm.py:196-257 | the file is Explicit VR Little Endian; its meta information names the dataset's SOP class and instance; every header attribute outside the overwritten list is kept with its value, and no attribute is added beyond that list |
| SecondaryCapture.SaveReportIdentity | Course3/section_3/out/src/inference_dcm.py:216-222 | SOPClassUID and MediaStorageSOPClassUID are both the Secondary Capture class; SOPInstanceUID and MediaStorageSOPInstanceUID are both the generated UID; the series UID is the generated one; with new generated UIDs, both differ from the header's |
| SecondaryCapture.SaveReportKeepsStudy | Course3/section_3/out/src/inference_dcm.py:196 | StudyInstanceUID and PatientID are carried over from the header unchanged |
| SecondaryCapture.EncodeReadRoundTrip | Course3/section_3/out/src/inference_dcm.py:226-255 | reading the written image back gives the report: same width, height and pixels |
| SecondaryCapture.BytesRoundTrip | Course3/section_3/out/src/inference_dcm.py:255 | `tobytes()` on RGB pixels can be decoded back to the same pixels |
| SecondaryCapture.ToBytes | Course3/section_3/out/src/inference_dcm.py:255 | `tobytes()` of an RGB image has three bytes per pixel |
| SecondaryCapture.ReportDatasetKeys | Course3/section_3/out/src/inference_dcm.py:196-255 | the written dataset holds exactly the header's attributes plus the overwritten ones, and agrees with the header outside the overwritten list |
| SecondaryCapture.ReportDatasetIdentity | Course3/section_3/out/src/inference_dcm.py:216-221 | SOPClassUID is the Secondary Capture class and SOPInstanceUID the generated instance UID |
| SecondaryCapture.ReportDatasetSeries | Course3/section_3/out/src/inference_dcm.py:220 | SeriesInstanceUID is the generated series UID |
| SecondaryCapture.ReportDatasetSize | Course3/section_3/out/src/inference_dcm.py:226-255 | Rows is the report height, Columns its width, PixelData its interleaved bytes |
| SecondaryCapture.ReportDatasetSamples | Course3/section_3/out/src/inference_dcm.py:230-232 | three samples per pixel, photometric interpretation "RGB", planar configuration 0 |
| SecondaryCapture.ReportDatasetBits | Course3/section_3/out/src/inference_dcm.py:233-236 | 8 bits allocated and stored, high bit 7, unsigned samples |
| SecondaryCapture.ReportDatasetRgb8 | Course3/section_3/out/src/inference_dcm.py:226-255 | the dataset written to the file is an 8-bit interleaved RGB image whose pixel data has Rows·Columns·3 bytes |
| SecondaryCapture.ReportDatasetDates | Course3/section_3/out/src/inference_dcm.py:239-243 | StudyDate = SeriesDate = the date of encoding |
| SecondaryCapture.ReportDatasetTimes | Course3/section_3/out/src/inference_dcm.py:240-244 | StudyTime = SeriesTime = the time of encoding |
| SecondaryCapture.ReportDatasetLabels | Course3/section_3/out/src/inference_dcm.py:223-224 | Modality "OT" and SeriesDescription "HippoVolume.AI" |
| SecondaryCapture.ReportDatasetDisplay | Course3/section_3/out/src/inference_dcm.py:248-253 | BurnedInAnnotation "YES", with WindowCenter and WindowWidth empty |
| SecondaryCapture.OverlayAt | Course3/section_3/out/src/inference_dcm.py:196-255 | writing elements with distinct tags over a copied dataset leaves each element's value at its tag and the copy's value at every other tag |
| StudyRouting.NewestFirst | Course3/section_3/out/src/inference_dcm.py:323 | the directories sorted by modification time, newest first: a permutation of the input (same multiset) with non-increasing times, in which directories with equal times keep their input order, as Python's stable sort does under `reverse=True` |
| StudyRouting.RouteAsWritten | Course3/section_3/out/src/inference_dcm.py:318-333 | fails with NoSubdirectories iff there is no directory; on success the deleted directory is a newest one, whichever directory the series came from |
| StudyRouting.RemovesOtherDirectory | Course3/section_3/out/src/inference_dcm.py:318-371 | with a newer directory without a series and an older one with a series, the script processes the older one and deletes the newer one |
| StudyRouting.Route | Course3/section_3/out/src/inference_dcm.py:323-333 | fails with NoSubdirectories iff there is no directory and with NoSeriesFound iff none has a series; otherwise the series is the selection of a directory that has one, no newer directory has one, and that same directory is the one deleted |
| StudyRouting.NewerFail | Course3/section_3/out/src/inference_dcm.py:324-329 | the loop stops at the first directory that has a series, so no strictly newer directory has one |
| StudyRouting.AllFail | Course3/section_3/out/src/inference_dcm.py:331-333 | when the loop finds no series, no directory has one |
| StudyRouting.RouteAgreesOnSeries | Course3/section_3/out/src/inference_dcm.py:318-333 | the corrected loop fails exactly when the script does, and processes the same series from the same directory |
| Seqs.Filter | Course3/section_3/out/src/inference_dcm.py:285 | a mask selection keeps exactly the elements that pass, and is no longer than its input |
| Seqs.FilterConcat | Course4/student_utils.py:58-60 | selecting from two consecutive blocks gives the selection of the first block followed by the second's, so row order is kept |
| Seqs.FilterCount | Course4/student_utils.py:58-60 | a selection keeps every occurrence of a passing row and none of the others |
| Seqs.FirstWhere | Course3/section_3/out/src/inference_dcm.py:324-329 | the search returns the first position that satisfies the test, or nothing iff no position does |
| Seqs.KeepFirstFirst | Course4/student_utils.py:17 | `drop_duplicates(keep='first')` keeps only elements that are the first occurrence of their key |
| Seqs.KeepFirstDistinct | Course4/student_utils.py:17 | the kept elements have pairwise distinct keys |
| Seqs.KeepFirstKeys | Course4/student_utils.py:17 | the kept elements carry exactly the keys of the input, and there are no more of them than input elements |
| FirstEncounter.SelectFirstEncounter | Course4/student_utils.py:25-34 | every patient of the input appears once and no other patient appears; each kept row is an input row whose encounter_id is not larger than any of that patient's; the output is sorted by encounter_id |
| FirstEncounter.SortByEncounter | Course4/student_utils.py:32 | `sort_values('encounter_id')` is sorted, keeps the same rows, and so keeps the same patients |
| FirstEncounter.KeepFirstSorted | Course4/student_utils.py:32 | dropping later duplicates of a sorted sequence leaves it sorted |
| FirstEncounter.FirstIsMinimal | Course4/student_utils.py:32 | in encounter order, a patient's first row has that patient's smallest encounter_id |
| NdcJoin.ReduceDimensionNdc | Course4/student_utils.py:9-22 | fails with the first absent column in the order the code reads them (`NDC_Code`, `ndc_code`, `Non-proprietary Name`); otherwise the rows keep their number, order and every other column, `generic_drug_name` is added to the columns, and each row's value is the name on the first lookup row with its code, or missing |
| NdcJoin.IndexOfFirstRows | Course4/student_utils.py:17-20 | looking a code up in the index of the de-duplicated table gives the name on the first table row with that code, or missing if no row has it |
| NdcJoin.FirstMatchSnoc | Course4/student_utils.py:17-20 | appending a row to the table changes the first match only for a code that did not occur before |
| NdcJoin.IndexOfSnoc | Course4/student_utils.py:17-20 | appending a row extends the index of first rows only when its code is new |
| PatientSplit.PatientDatasetSplitter | Course4/student_utils.py:38-63 | for a partition of the distinct patients with `train_test_split`'s sizes: fails with MissingColumn iff the patient column is absent, and otherwise fails iff there are fewer than three distinct patients; each part holds exactly the input rows of its patients; the three parts together are the input rows with multiplicity; no patient is in two parts; no part is empty; the result is the three mask selections of the input rows, so each part keeps the input row order (see SplitConcat) |
| PatientSplit.SplitSizes | Course4/student_utils.py:53-56 | the two `train_test_split` calls (test sizes 0.4 and 0.5) raise ValueError for an empty training part exactly when there are fewer than three patients; otherwise the three sizes are positive, sum to the number of patients, and test has the validation size or one more |
| PatientSplit.SplitCounts | Course4/student_utils.py:58-60 | every input row goes to exactly one part, as often as it occurs |
| PatientSplit.SplitConcat | Course4/student_utils.py:58-60 | splitting two consecutive blocks of rows gives, in every part, the first block's rows followed by the second's, so each part keeps the input order |
| BinaryPrediction.StudentBinaryPrediction | Course4/student_utils.py:123-136 | one label per value; a label is 1 iff the value is strictly above 5, and 0 otherwise, NaN included |
| BinaryPrediction.OnesCount | Course4/student_utils.py:134 | the number of 1 labels equals the number of values above 5 |
| BinaryPrediction.ThresholdStrict | Course4/student_utils.py:134 | exactly 5 gives 0, and any larger value gives 1 |
| BinaryPrediction.LabelMonotone | Course4/student_utils.py:134 | a larger finite value never gets a smaller label |

## Left out

- Reading and writing files, listing directories, modification times, the `storescu` call, the sleep and the deletion itself: directories are given as values carrying their modification time and parsed slices, and the deleted directory is a result.
- `UNetInferenceAgent.single_volume_inference_unpadded`: a neural network whose source is not part of this model; `PredictedVolumes` takes its label volume as input.
- Pixel rendering in `create_report` and `get_overlaid_image` (fonts, text, colour maps, resizing, blending, pasting, the floating-point normalisation by the maximum): only slice indices, overlay size and paste positions are modelled.
- SeriesSelection.SelectSeries: every slice record carries a SeriesDescription and a SeriesInstanceUID. SeriesDescription (0008,103E) is optional (type 3); a slice without it makes `dcm.SeriesDescription` at line 285 raise AttributeError and stops the script. Such a slice cannot be represented, so that failure is not modelled.
- VolumeLoader.LoadVolume: every slice record carries an integer InstanceNumber. InstanceNumber (0020,0013) may be empty (type 2); an empty value makes the sort at line 42 raise TypeError. That failure is not modelled.
- StudyRouting.NewestFirst: `st_mtime` is a float; directories carry an integer modification time, and only its ordering is used.
- ReportLayout.LayoutReport: an empty volume fails at the first slice access, and a slice without rows or columns fails in `np.max`; these are modelled as `NoSlices` and `EmptySlice`, not as numpy's exact errors.
- Byte-level DICOM encoding and `dcmwrite`: a dataset is a map from tag to value, and pixel data is the `tobytes()` byte sequence.
- SecondaryCapture.SaveReportIdentity: `generate_uid()` and the clock are inputs of `SaveReport`. That new UIDs differ from the header's is therefore a precondition of the lemma, not a proved fact.
- SecondaryCapture.SaveReport: `pydicom.Dataset(header)` shares the header's element dictionary, so every assignment in `save_report_as_dcm` also changes `header`, and the log message at line 373 prints the report's new SOPInstanceUID rather than the first slice's SOPInstanceUID. The model keeps the header and the written dataset as separate values, so this side effect on the header is not modelled.
- VolumeLoader.LoadVolume: follows the code, which takes the header from the first slice of the input list. The script's documentation calls it the header of the first image. The volume's first plane is the lowest instance number, which can be a different slice; `HeaderFromInputOrder` exhibits this.
- VolumeLoader.LoadVolume: `hdr = dcmlist[0]` makes the header another name for the caller's first slice, so `hdr.PixelData = None` at line 51 clears that slice's pixel data in place, before the stack at line 52 and also when the slices then turn out to differ in shape. The model returns a new header value and leaves the input slices unchanged, so this side effect is not modelled.
- VolumeLoader.LoadVolume: `np.flip` and `.T` are modelled on integer pixel grids. The pixel type, its width and its conversion are not modelled.
- FirstEncounter.SelectFirstEncounter: pandas' `sort_values` uses an unstable sort by default, and the model uses a stable one. The contract holds for any order among equal encounter ids, since it only states minimality. Which of two rows with the same patient and the same encounter id is kept is not stated.
- FirstEncounter.SelectFirstEncounter: encounter_id and patient_nbr are integer columns without missing values.
- NdcJoin.ReduceDimensionNdc: pandas changes `df` in place and returns it; the model returns the new frame.
- NdcJoin.ReduceDimensionNdc: row labels (the frame index) are not modelled.
- NdcJoin.ReduceDimensionNdc: a missing code is treated as an ordinary value, so it matches the first lookup row whose code is missing. This is how `drop_duplicates` groups NaN and how an index lookup finds it.
- PatientSplit.PatientDatasetSplitter: which patients `train_test_split` (random_state 42) picks is replaced by a parameter: any partition of the distinct patients with the sizes it produces. The sizes are computed with the exact ceiling of 0.4·n and 0.5·m, not the floating-point product.
- BinaryPrediction.StudentBinaryPrediction: takes the values of the column, so the `KeyError` of an absent column is not modelled.
- BinaryPrediction.StudentBinaryPrediction: values are exact reals or NaN; floating-point rounding is not modelled.
- The TensorFlow helpers `create_tf_categorical_feature_cols`, `create_tf_numeric_feature` and `get_mean_std_from_preds`, and the floating-point `normalize_numeric_with_zscore`: they are library wrappers and floating point, outside the modelled logic.
- Console messages and `sys.exit`: the routing's failures are the `NoSubdirectories` and `NoSeriesFound` results.

## Findings

| source | as written | input that shows it | evidently intended | confidence | as-written member | corrected member |
|---|---|---|---|---|---|---|
| Course3/section_3/out/src/inference_dcm.py:318-371 | `study_dir` is the newest directory (line 318), and that directory is deleted at line 371, while the series is searched newest-first and may come from an older directory (lines 323-329) | a newer directory without a HippoCrop series and an older one with a series: the older one is processed, and the newer, unprocessed one is deleted | delete the directory whose series was processed | not executed | StudyRouting.RemovesOtherDirectory | StudyRouting.Route |
