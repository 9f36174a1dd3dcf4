# Bone analysis modules: a Dafny model of the labelling core

This project models the voxel-labelling and bookkeeping logic of the
ManskeLab bone analysis modules for 3D Slicer: automatic contouring,
AutoMask, cortical break detection (the method of Peters and the CBCT
variant), erosion detection and erosion volume, the training module, the
file converters, and the `ormir_xct` utilities (segmentation evaluation,
Scanco unit rescaling, Hildebrand local thickness). It states and proves
what these modules promise about the images and lists they produce.

How the program is represented:

- A volume is an immutable `map<Idx, int>` from voxel index `(x, y, z)` to
  value (`Volumes`). Binary image operations require equal grids, since
  SimpleITK raises on a size mismatch.
- The SimpleITK filters whose internals are not modelled (Gaussian
  smoothing, distance maps, morphology kernels, level sets, automatic
  threshold methods) enter as given images or given functions. The
  pipelines are compositions of mask algebra over those inputs: threshold,
  mask product, inversion, union, flood-fill reachability (`Connectivity`)
  and size-filtered components (`Labelling`).
- The step-counter classes (`ContourLogic`, `FastContourLogic`,
  `TrainingVoidVolume`, `DetectionVoidVolume`, `ErosionSteps`,
  `PetersBreaks`, `CbctBreaks`) are records of state with pure transition
  functions. An exception raised by a filter is a `raised` flag or a
  `Result` failure.
- Seed lists, erosion ids, table rows and file names are sequences. Python
  details that matter are written out: the floored remainder and
  half-to-even `round` (`PyNum`), `int()` truncation, `str.find`,
  `os.path.splitext` and slicing (`PyStr`, `Paths`).
- Files that exist twice in the repository (the two `segmentation_evaluation.py`
  and `scanco_rescale.py` copies, the two `AutomaticContourTestLogic.py`
  copies, `ErosionVolumeCmd.py` / `VoidVolumeLogicCmd.py`,
  `AutomaticContourCmd.py` / `ContourLogicCmd.py`) are modelled once. Their
  table rows cite either copy.

## Model

| member | source | states |
|---|---|---|
| `Thresholds.RoundNearest` | FileConverter/FileConverterLib/FileConverterLogic.py:143-144 | the result is a multiple of roundTo, within roundTo / 2 of num, no farther than any other multiple, and below num at a tie |
| `Thresholds.RoundingSteps` | FileConverter/FileConverterLib/FileConverterLogic.py:143-144 | num - num % roundTo plus the rounded share of the remainder is a nearest multiple, the lower one at a tie |
| `Thresholds.PickedMultiple` | FileConverter/FileConverterLib/FileConverterLogic.py:144 | the expression picks the floored multiple or the next one, within half a step of num and below it at a tie |
| `Thresholds.NearestFrom` | FileConverter/FileConverterLib/FileConverterLogic.py:143-144 | a multiple within half a step of num, below it at a tie, meets the nearest-multiple contract |
| `Thresholds.RoundedMultiple` | FileConverter/FileConverterLib/FileConverterLogic.py:144 | taking the floored multiple or the next one by the rounded share gives a multiple within half a step, and int() leaves it unchanged |
| `Thresholds.RoundedShare` | FileConverter/FileConverterLib/FileConverterLogic.py:144 | round() of a remainder share in [0, 1) is 0 up to one half, the tie included, and 1 above |
| `Thresholds.NearestOfAll` | FileConverter/FileConverterLib/FileConverterLogic.py:143-144 | a multiple within half a step of num is at least as near as every other multiple |
| `Thresholds.GetThreshold` | FileConverter/FileConverterLib/FileConverterLogic.py:137-140 | the thresholds are 3000 and 10000 Scanco units in HU, rounded to the nearest 10 and 100; a zero calibration constant divides by zero |
| `Thresholds.ScancoInHu` | FileConverter/FileConverterLib/FileConverterLogic.py:138-139 | the converters' threshold expression is the Scanco-to-HU conversion |
| `Thresholds.TiesRoundDown` | FileConverter/FileConverterLib/FileConverterLogic.py:144 | 15 rounds to 10 and -15 to -20, while 16 rounds to 20 |
| `Thresholds.RoundsTo` | FileConverter/FileConverterLib/FileConverterLogic.py:144 | with num = q roundTo + m and m / roundTo rounding to b, roundNearest returns (q + b) roundTo |
| `Labelling.ChangeLabel` | Training/TrainingLib/VoidVolumeLogic.py:327-330 | a voxel whose label is not a key keeps it; voxels with equal labels end equal; without a key for 0 no background voxel gains a label |
| `Labelling.SeedMap` | Training/TrainingLib/VoidVolumeLogic.py:321-325 | the map's keys are exactly the non-background labels under the seeds, and each maps to the id of the last seed on it |
| `Labelling.SeedComponentGetsId` | Training/TrainingLib/VoidVolumeLogic.py:316-332 | every voxel of a seeded component ends with the id of the last seed in that component |
| `Labelling.UnseededComponentKeepsLabel` | Training/TrainingLib/VoidVolumeLogic.py:316-332 | a component without a seed keeps its component label |
| `Labelling.PositionMap` | ErosionVolume/ErosionVolumeLib/ErosionVolumeLogic.py:233-245 | the export map sends each position 1..n to the label of that visible segment |
| `Labelling.ExportRelabel` | ErosionVolume/ErosionVolumeLib/ErosionVolumeLogic.py:250-254 | relabelling each position from the untouched copy is a single simultaneous label change |
| `Labelling.ReplaceSingle` | ErosionVolume/ErosionVolumeLib/ErosionVolumeLogic.py:254 | one assignment rewrites a voxel exactly when it holds the replaced label |
| `Labelling.CopyPreventsChaining` | ErosionVolume/ErosionVolumeLib/ErosionVolumeLogic.py:251-254 | with labels 2 and 3, a voxel labelled 1 ends as 2 reading the copy, but would chain to 3 in place |
| `Connectivity.Component` | Training/TrainingLib/VoidVolumeLogic.py:317-319 | a voxel of the object lies in its own component, and components lie in the object |
| `Connectivity.ComponentShared` | Training/TrainingLib/VoidVolumeLogic.py:317-319 | the component of any voxel in a component is that same component |
| `Connectivity.SizeFilter` | CorticalBreakDetection/CorticalBreakDetectionLib/PetersCorticalBreakDetectionLogicCommandLine.py:239 | the filter keeps exactly the voxels whose component has at least the minimum size |
| `Connectivity.SizeFilterWholeComponents` | CorticalBreakDetection/CorticalBreakDetectionLib/PetersCorticalBreakDetectionLogicCommandLine.py:239 | the size filter keeps or drops whole components |
| `SegmentationEvaluation.Binarize` | AutomaticContour/AutomaticContourLib/ormir_xct/util/segmentation_evaluation.py:15-29 | the binarised array has the input's length, with 1 exactly where the input is nonzero and 0 where it is zero |
| `SegmentationEvaluation.BinarizeIdempotent` | AutomaticContour/AutomaticContourLib/ormir_xct/util/segmentation_evaluation.py:15-29 | binarising an already binarised array changes nothing |
| `SegmentationEvaluation.InclusionExclusion` | AutomaticContour/AutomaticContourLib/ormir_xct/util/segmentation_evaluation.py:95-98 | voxels in either mask plus voxels in both equal the two mask sizes added, and the shared count is at most either size |
| `SegmentationEvaluation.CountsSymmetric` | AutomaticContour/AutomaticContourLib/ormir_xct/util/segmentation_evaluation.py:97-98 | intersection and union counts do not depend on the order of the masks |
| `SegmentationEvaluation.CountsSelf` | AutomaticContour/AutomaticContourLib/ormir_xct/util/segmentation_evaluation.py:97-98 | a mask against itself shares and covers exactly its own voxels |
| `SegmentationEvaluation.DiceAndJaccard` | AutomaticContour/AutomaticContourLib/ormir_xct/util/segmentation_evaluation.py:80-99 | both scores lie in [0, 1]; they are undefined exactly when both masks are empty |
| `SegmentationEvaluation.ScoresSymmetric` | AutomaticContour/AutomaticContourLib/ormir_xct/util/segmentation_evaluation.py:80-99 | swapping reference and segmentation gives the same Dice and Jaccard |
| `SegmentationEvaluation.DiceFromJaccard` | AutomaticContour/AutomaticContourLib/ormir_xct/util/segmentation_evaluation.py:97-98 | Dice is 2J / (1 + J) for the Jaccard index J of the same masks |
| `SegmentationEvaluation.IdenticalScoresOne` | AutomaticContour/AutomaticContourLib/ormir_xct/util/segmentation_evaluation.py:80-99 | a non-empty mask scored against itself has Dice and Jaccard 1 |
| `SegmentationEvaluation.NonZero` | AutomaticContour/AutomaticContourLib/ormir_xct/util/segmentation_evaluation.py:70-71 | the kept distances are nonzero, and each nonzero distance is kept as often as it occurs |
| `SegmentationEvaluation.DistanceListAsWritten` | AutomaticContour/AutomaticContourLib/ormir_xct/util/segmentation_evaluation.py:56-77 | as written the returned list holds only the nonzero distances: the zero padding is built and then dropped |
| `SegmentationEvaluation.DistanceList` | AutomaticContour/AutomaticContourLib/ormir_xct/util/segmentation_evaluation.py:56-77 | corrected: the nonzero distances followed by zeros up to the surface voxel count |
| `SegmentationEvaluation.OverlapDropped` | AutomaticContour/AutomaticContourLib/ormir_xct/util/segmentation_evaluation.py:70-77 | for distances [0, 2] on a two-voxel surface, the as-written list is [2] and the corrected one [2, 0] |
| `ScancoRescale.ScancoToLinatt` | AutomaticContour/AutomaticContourLib/ormir_xct/util/scanco_rescale.py:12-18 | the linear attenuation times mu_scaling gives the Scanco value back; a zero mu_scaling has no result |
| `ScancoRescale.LinattToScanco` | AutomaticContour/AutomaticContourLib/ormir_xct/util/scanco_rescale.py:88-94 | with a nonzero mu_scaling, converting the result back to linear attenuation gives the input |
| `ScancoRescale.ScancoRoundTrip` | AutomaticContour/AutomaticContourLib/ormir_xct/util/scanco_rescale.py:12-94 | Scanco to linear attenuation and back is the identity |
| `ScancoRescale.HuToLinatt` | AutomaticContour/AutomaticContourLib/ormir_xct/util/scanco_rescale.py:45-52 | the attenuation satisfies 1000 l = (HU + 1000) mu_water |
| `ScancoRescale.LinattToHu` | AutomaticContour/AutomaticContourLib/ormir_xct/util/scanco_rescale.py:78-85 | the HU value satisfies (HU + 1000) mu_water = 1000 l; a zero mu_water has no result |
| `ScancoRescale.HuRoundTrip` | AutomaticContour/AutomaticContourLib/ormir_xct/util/scanco_rescale.py:45-85 | HU to attenuation and back, and attenuation to HU and back, are identities |
| `ScancoRescale.ScancoToHu` | AutomaticContour/AutomaticContourLib/ormir_xct/util/scanco_rescale.py:21-30 | Scanco to HU is Scanco to attenuation followed by attenuation to HU; it fails exactly when a constant is zero |
| `ScancoRescale.LinattToHuValue` | AutomaticContour/AutomaticContourLib/ormir_xct/util/scanco_rescale.py:26-29 | the HU value is -1000 + l (1000 / mu_water), the formula the Scanco conversion writes |
| `ScancoRescale.LinattToBmd` | AutomaticContour/AutomaticContourLib/ormir_xct/util/scanco_rescale.py:97-104 | with a nonzero slope, removing the intercept and dividing by the slope recovers the attenuation |
| `ScancoRescale.ScancoToBmd` | AutomaticContour/AutomaticContourLib/ormir_xct/util/scanco_rescale.py:33-42 | Scanco to density goes through the linear attenuation; it fails exactly when mu_scaling is zero |
| `ScancoRescale.HuToScanco` | AutomaticContour/AutomaticContourLib/ormir_xct/util/scanco_rescale.py:55-63 | HU to Scanco goes through the linear attenuation |
| `ScancoRescale.HuScancoRoundTrip` | AutomaticContour/AutomaticContourLib/ormir_xct/util/scanco_rescale.py:21-63 | HU to Scanco and back to HU is the identity for nonzero constants |
| `ScancoRescale.HuToBmd` | AutomaticContour/AutomaticContourLib/ormir_xct/util/scanco_rescale.py:66-75 | HU to density goes through the linear attenuation |
| `ScancoRescale.WaterAndAir` | AutomaticContour/AutomaticContourLib/ormir_xct/util/scanco_rescale.py:45-75 | water (0 HU) has attenuation mu_water and air (-1000 HU) none; air maps to the intercept density |
| `HildebrandThickness.VoxelWidths` | AutomaticContour/AutomaticContourLib/ormir_xct/util/hildebrand_thickness.py:122-132 | a number is used on all three axes, a three-item iterable gives the three widths, anything else is a ValueError |
| `HildebrandThickness.FillUnheld` | AutomaticContour/AutomaticContourLib/ormir_xct/util/hildebrand_thickness.py:69-94 | a voxel that no ridge ball holds keeps thickness 0 |
| `HildebrandThickness.FillLastHolding` | AutomaticContour/AutomaticContourLib/ormir_xct/util/hildebrand_thickness.py:69-94 | a voxel some ball holds takes the value of the last ball in the order that holds it |
| `HildebrandThickness.AscendingKeepsLargest` | AutomaticContour/AutomaticContourLib/ormir_xct/util/hildebrand_thickness.py:69-157 | with the balls in ascending order, a held voxel's value is at least every holding ball's value |
| `HildebrandThickness.OrderMatters` | AutomaticContour/AutomaticContourLib/ormir_xct/util/hildebrand_thickness.py:155-157 | without the sort a smaller ball listed later overwrites a larger one |
| `HildebrandThickness.LocalThickness` | AutomaticContour/AutomaticContourLib/ormir_xct/util/hildebrand_thickness.py:134-164 | the field is zero off the mask and on an empty mask; on the mask it is the largest radius of the ridge balls holding the voxel, or 0 if none does |
| `HildebrandThickness.Diameters` | AutomaticContour/AutomaticContourLib/ormir_xct/util/hildebrand_thickness.py:93 | every voxel of the filled field holds the diameter of its squared radius, the value the source writes |
| `HildebrandThickness.SeqMin` | AutomaticContour/AutomaticContourLib/ormir_xct/util/hildebrand_thickness.py:227 | the minimum is one of the values and no value is below it |
| `HildebrandThickness.SeqMax` | AutomaticContour/AutomaticContourLib/ormir_xct/util/hildebrand_thickness.py:228 | the maximum is one of the values and no value is above it |
| `HildebrandThickness.SumBounds` | AutomaticContour/AutomaticContourLib/ormir_xct/util/hildebrand_thickness.py:225 | a sum of values between lo and hi lies between n lo and n hi |
| `HildebrandThickness.MeanBetween` | AutomaticContour/AutomaticContourLib/ormir_xct/util/hildebrand_thickness.py:225 | the mean of values between lo and hi lies between lo and hi |
| `HildebrandThickness.Summary` | AutomaticContour/AutomaticContourLib/ormir_xct/util/hildebrand_thickness.py:224-229 | the mean is the sum of the values over their count and lies between minimum and maximum; the minimum and the maximum are each one of the values, and every value lies between them |
| `HildebrandThickness.Sample` | AutomaticContour/AutomaticContourLib/ormir_xct/util/hildebrand_thickness.py:218-222 | the sample has one value per listed voxel, the thickness field there raised to min_thickness, so no value is below min_thickness (StructureStats hands it the diameter field) |
| `HildebrandThickness.SampleStats` | AutomaticContour/AutomaticContourLib/ormir_xct/util/hildebrand_thickness.py:218-229 | the statistics are the mean, an attained minimum and an attained maximum of the thickness field at the listed voxels, each value raised to min_thickness; the minimum is at least min_thickness |
| `HildebrandThickness.StructureStats` | AutomaticContour/AutomaticContourLib/ormir_xct/util/hildebrand_thickness.py:167-230 | an empty mask or empty sub_mask gives no statistics; a bad width or a sub_mask of another shape raises; otherwise the field is the local thickness with every value turned into its diameter 2*sqrt(rd), and the mean, minimum and maximum are the average, an attained least and an attained greatest of those diameters on the sub_mask (or mask), each raised to min_thickness |
| `Cropping.Crop` | Training/TrainingLib/VoidVolumeLogic.py:391-393 | the crop raises exactly for a negative amount or amounts exceeding an axis; otherwise the result is the shrunken grid holding the voxels shifted by the low amounts |
| `Cropping.CropKept` | Training/TrainingLib/VoidVolumeLogic.py:391-393 | a voxel survives the crop exactly when it lies between the low and high amounts, and keeps its value |
| `Cropping.ExactAmountsAsWritten` | Training/TrainingLib/VoidVolumeLogic.py:383-390 | as written the low amounts are the box minimum and size minus the high amount is the box maximum, an inclusive index |
| `Cropping.ExactAmounts` | Training/TrainingLib/VoidVolumeLogic.py:383-390 | corrected: size minus the high amount is one past the box maximum |
| `Cropping.MarginAmountsAsWritten` | CorticalBreakDetection/CorticalBreakDetectionLib/PetersCorticalBreakDetectionLogicCommandLine.py:537-547 | as written a margin of 2 in x and y, none in z, every amount clamped at 0, and the high amounts measured from the inclusive maximum |
| `Cropping.MarginAmounts` | CorticalBreakDetection/CorticalBreakDetectionLib/PetersCorticalBreakDetectionLogicCommandLine.py:537-547 | corrected: the high amounts are measured from one past the box maximum, keeping the margin on both sides |
| `Cropping.CropContour` | Training/TrainingLib/VoidVolumeLogic.py:377-393 | the cropped contour is a 0/1 mask |
| `Cropping.ExactCropDropsMaxFace` | Training/TrainingLib/VoidVolumeLogic.py:383-393 | as written, a contour voxel on the box's high face in any axis is cut off by the crop |
| `Cropping.ExactCropSingleVoxel` | Training/TrainingLib/VoidVolumeLogic.py:383-393 | as written, a one-voxel contour crops to an empty image |
| `Cropping.ExactCropKeepsContour` | Training/TrainingLib/VoidVolumeLogic.py:383-393 | corrected: every contour voxel survives the crop with value 1 |
| `Cropping.MarginCropDropsTopSlice` | CorticalBreakDetection/CorticalBreakDetectionLib/PetersCorticalBreakDetectionLogicCommandLine.py:537-550 | as written the cortical-break crop succeeds and keeps a box voxel exactly when it is below the box's top z slice |
| `Cropping.MarginCropKeepsContour` | CorticalBreakDetection/CorticalBreakDetectionLib/PetersCorticalBreakDetectionLogicCommandLine.py:537-550 | corrected: the cortical-break crop succeeds and every contour voxel survives with value 1 |
| `Intensity.SquaredDeviations` | ErosionVolume/ErosionVolumeLib/ErosionVolumeLogic.py:419 | the sum of squared deviations is never negative |
| `Intensity.Variance` | ErosionVolume/ErosionVolumeLib/ErosionVolumeLogic.py:419 | the population variance is never negative |
| `Intensity.CountAbove` | ErosionVolume/ErosionVolumeLib/ErosionVolumeLogic.py:414-415 | the count of values above t is at most the size and is zero exactly when no value exceeds t |
| `Intensity.CountBelow` | ErosionVolume/ErosionVolumeLib/ErosionVolumeLogic.py:416-417 | the count of values below t is at most the size and is zero exactly when no value is below t |
| `Intensity.Check` | ErosionVolume/ErosionVolumeLib/ErosionVolumeLogic.py:402-425 | the check has no answer exactly for an empty scan |
| `Intensity.CheckWithinRange` | ErosionVolume/ErosionVolumeLib/ErosionVolumeLogic.py:418-425 | a scan with every value in range passes exactly when its mean lies in (-1000, 1000) and its standard deviation in (500, 1000) |
| `Intensity.CheckShares` | ErosionVolume/ErosionVolumeLib/ErosionVolumeLogic.py:414-425 | a nonempty scan passes exactly when mean and standard deviation are in range and ten times the count of voxels above hi or below lo stays under the voxel count |
| `Intensity.ShareRule` | ErosionVolume/ErosionVolumeLib/ErosionVolumeLogic.py:421-425 | the two out-of-range shares sum below 0.1 exactly when ten times the two counts stays below the voxel count |
| `Intensity.ManyAboveRejected` | ErosionVolume/ErosionVolumeLib/ErosionVolumeLogic.py:414-425 | a scan with a tenth or more of its voxels above the upper bound is rejected |
| `Intensity.UniformRejected` | ErosionVolume/ErosionVolumeLib/ErosionVolumeLogic.py:418-425 | a uniform scan has mean equal to its value and no spread, and is rejected |
| `Intensity.TwoValueScan` | ErosionVolume/ErosionVolumeLib/ErosionVolumeLogic.py:418-425 | a scan of -600 and 600 has mean 0 and standard deviation 600 and passes under both sets of bounds |
| `ContourLogic.New` | AutomaticContour/AutomaticContourLib/ContourLogic.py:30-43 | a new object is at step 0 with no output and no separation map; it stores its step count as `_stepNum` = 6 * boneNum + 1 and leaves `stepNum` unset |
| `ContourLogic.SetBoneNum` | AutomaticContour/AutomaticContourLib/ContourLogic.py:382-388 | setBoneNum sets the bone count and `stepNum` = 6 * boneNum + 1, and changes nothing else |
| `ContourLogic.GetStepNumAsWritten` | AutomaticContour/AutomaticContourLib/ContourLogic.py:396-401 | getStepNum succeeds exactly when `stepNum` has been set, i.e. after setBoneNum; otherwise it raises AttributeError |
| `ContourLogic.GetStepNumFreshFails` | AutomaticContour/AutomaticContourLib/ContourLogic.py:30-39 | on a freshly built object getStepNum as written raises, although the constructor computed 6 * boneNum + 1 under another name |
| `ContourLogic.GetStepNumAfterSet` | AutomaticContour/AutomaticContourLib/ContourLogic.py:382-401 | after construction or after any setBoneNum, the corrected getStepNum reports 6 * boneNum + 1; as written it does so only after setBoneNum |
| `ContourLogic.Threshold` | AutomaticContour/AutomaticContourLib/ContourLogic.py:58-72 | the thresholded image is 0/1 on the same grid, 1 exactly where lower <= value <= upper, and empty when lower > upper |
| `ContourLogic.RelabelWithMap` | AutomaticContour/AutomaticContourLib/ContourLogic.py:74-89 | the labelled voxels are those set in both the bone image and the separation map; the bone count becomes the number of labels minus one, and the step count follows it |
| `ContourLogic.RelabelWithConnect` | AutomaticContour/AutomaticContourLib/ContourLogic.py:91-115 | the bone count becomes the number of components found only when that is fewer; it never increases, and nothing changes otherwise |
| `ContourLogic.Extract` | AutomaticContour/AutomaticContourLib/ContourLogic.py:117-156 | the extract is a 0/f image whose size is the bounding box plus 2 * margin on every axis, and each box voxel lands shifted by the margin, as f exactly when it has label f |
| `ContourLogic.PasteBack` | AutomaticContour/AutomaticContourLib/ContourLogic.py:280-313 | the result has the label image's size, is 0 outside the bounding box, and inside it holds the extract's voxel shifted by the margin |
| `ContourLogic.ExtractPasteRoundTrip` | AutomaticContour/AutomaticContourLib/ContourLogic.py:117-156 | pasting back an untouched extract gives f exactly on the voxels of label f inside the box and 0 everywhere else |
| `ContourLogic.ExtractPasteBoundingBox` | AutomaticContour/AutomaticContourLib/ContourLogic.py:128-156 | when the box encloses every voxel of label f, extract followed by pasteBack is exactly the mask of label f |
| `ContourLogic.Connect` | AutomaticContour/AutomaticContourLib/ContourLogic.py:212-257 | connect returns a 0/f image on the same grid |
| `ContourLogic.ConnectFillsHoles` | AutomaticContour/AutomaticContourLib/ContourLogic.py:212-257 | a voxel ends as f exactly when it is not background reachable from its slice's four corners, so every object voxel stays and every enclosed hole is filled |
| `ContourLogic.SliceZerosAfterConnect` | AutomaticContour/AutomaticContourLib/ContourLogic.py:231-254 | after one pass, the zeros of each slice are exactly the background flooded from that slice's corners |
| `ContourLogic.ConnectIdempotent` | AutomaticContour/AutomaticContourLib/ContourLogic.py:212-257 | filling holes twice gives the same image as filling once |
| `ContourLogic.MergeOr` | AutomaticContour/AutomaticContourLib/ContourLogic.py:341-345 | or-ing a pasted bone into the output keeps the grid; the foreground is the union of both, and voxels where the pasted bone is 0 keep the output's value |
| `ContourLogic.Execute` | AutomaticContour/AutomaticContourLib/ContourLogic.py:315-357 | steps 1-6 advance the counter and report True; step 7 merges the bone, decrements the bone count and returns to step 1 while bones remain; a later step resets the counter to 0 and reports False; an exception resets it and propagates |
| `ContourLogic.DriveBones` | AutomaticContour/AutomaticContourLib/ContourLogic.py:331-352 | from the end of step 1 with n bones left, the following calls report True 6n times and then False, leaving the counter at 0 |
| `ContourLogic.RunMatchesStepNum` | AutomaticContour/AutomaticContourLib/ContourLogic.py:315-401 | a full run reports True exactly 6 * boneNum + 1 times, getStepNum's count for the bone count step 1 leaves, and then False |
| `FastContourLogic.Inflate` | AutomaticContour/AutomaticContourLib/FastContourLogic.py:30-55 | inflate keeps the image's grid |
| `FastContourLogic.InflateGrows` | AutomaticContour/AutomaticContourLib/FastContourLogic.py:30-55 | for a 0/f mask, inflate gives a 0/f mask whose foreground is the object plus every voxel at distance 1..radius from it |
| `FastContourLogic.Deflate` | AutomaticContour/AutomaticContourLib/FastContourLogic.py:57-83 | deflate keeps the image's grid |
| `FastContourLogic.DeflateShrinks` | AutomaticContour/AutomaticContourLib/FastContourLogic.py:57-83 | for a 0/f mask, deflate gives a 0/f mask whose foreground is the object minus every voxel at distance 1..radius from the background |
| `FastContourLogic.Merge` | AutomaticContour/AutomaticContourLib/FastContourLogic.py:112-120 | the merge sets the voxels that equal boneNum in the new bone to boneNum and keeps every other voxel of the previous output |
| `FastContourLogic.MergeKeepsEarlierBones` | AutomaticContour/AutomaticContourLib/FastContourLogic.py:112-120 | a voxel of an earlier bone survives the merge unless the new bone claims it |
| `FastContourLogic.Execute` | AutomaticContour/AutomaticContourLib/FastContourLogic.py:85-132 | corrected: steps 1-7 advance and report True; step 8 merges, decrements the bone count and returns to step 3 while bones remain; a step past 8 resets the counter to 0 and reports False; an exception resets it and propagates |
| `FastContourLogic.ExecuteAsWritten` | AutomaticContour/AutomaticContourLib/FastContourLogic.py:85-132 | as written, step 1 clears the output and fails with an AttributeError (`binarize`), step 6 fails the same way (`fillHole`), steps 2 and 3 fail on wrong argument counts; each failure resets the counter to 0; every other step behaves as the corrected execute |
| `FastContourLogic.AsWrittenNeverStarts` | AutomaticContour/AutomaticContourLib/FastContourLogic.py:92-97 | as written, a run from the start fails at its first call and stays at step 0, so every retry fails the same way, while the corrected first step reports True |
| `FastContourLogic.DriveBones` | AutomaticContour/AutomaticContourLib/FastContourLogic.py:104-126 | corrected: from the end of step 3 with n bones left, the following calls report True 5n times and then False, leaving the counter at 0 |
| `FastContourLogic.RunLength` | AutomaticContour/AutomaticContourLib/FastContourLogic.py:85-132 | corrected: a full run reports True 5 * boneNum + 3 times, for the bone count step 3 leaves, and then False |
| `AutocontourKnee.Invert` | AutomaticContour/AutomaticContourLib/ormir_xct/autocontour/AutocontourKnee.py:338-353 | the inversion is a mask of the foreground value holding exactly the voxels that do not carry it |
| `AutocontourKnee.InvertTwice` | AutomaticContour/AutomaticContourLib/ormir_xct/autocontour/AutocontourKnee.py:338-353 | inverting twice keeps the foreground voxels and clears every other value |
| `AutocontourKnee.InvertInvolution` | AutomaticContour/AutomaticContourLib/ormir_xct/autocontour/AutocontourKnee.py:338-353 | on a mask of 0 and the foreground value, inverting twice gives the mask back |
| `AutocontourKnee.KeepLabel` | AutomaticContour/AutomaticContourLib/ormir_xct/autocontour/AutocontourKnee.py:488 | in_value * (labels == k) is a mask holding exactly the voxels labelled k |
| `AutocontourKnee.LabelOneExists` | AutomaticContour/AutomaticContourLib/ormir_xct/autocontour/AutocontourKnee.py:332-334 | a size-sorted labelling of a non-empty object uses label 1 |
| `AutocontourKnee.LevelIsComponent` | AutomaticContour/AutomaticContourLib/ormir_xct/autocontour/AutocontourKnee.py:332-334 | in a component labelling, the voxels carrying a voxel's label are exactly its component |
| `AutocontourKnee.LargestComponent` | AutomaticContour/AutomaticContourLib/ormir_xct/autocontour/AutocontourKnee.py:316-336 | the result lies in the object, is empty for an empty object, and is otherwise one whole component of it that no other component outsizes |
| `AutocontourKnee.LargestIsLabelOne` | AutomaticContour/AutomaticContourLib/ormir_xct/autocontour/AutocontourKnee.py:332-334 | after the size-sorted relabelling, label 1 is a whole component and the largest one |
| `AutocontourKnee.ExtractLargeRegions` | AutomaticContour/AutomaticContourLib/ormir_xct/autocontour/AutocontourKnee.py:433-456 | the region filter keeps exactly the voxels whose fully connected component has at least the given size |
| `AutocontourKnee.LargeRegionsWhole` | AutomaticContour/AutomaticContourLib/ormir_xct/autocontour/AutocontourKnee.py:433-456 | the region filter keeps or drops whole components |
| `AutocontourKnee.FillHoles` | AutomaticContour/AutomaticContourLib/ormir_xct/autocontour/AutocontourKnee.py:505-512 | filling keeps every foreground voxel, and what stays background is the largest component of the background |
| `AutocontourKnee.Diff` | AutomaticContour/AutomaticContourLib/ormir_xct/autocontour/AutocontourKnee.py:570-574 | the disagreement mask holds exactly the voxels in one of the step-2 and step-3 masks but not the other |
| `AutocontourKnee.DiffCompletesUnion` | AutomaticContour/AutomaticContourLib/ormir_xct/autocontour/AutocontourKnee.py:570-587 | adding the disagreement to step 3 gives the union of steps 2 and 3 |
| `AutocontourKnee.Union` | AutomaticContour/AutomaticContourLib/ormir_xct/autocontour/AutocontourKnee.py:585-587 | the or-ed mask holds exactly the voxels of either mask |
| `AutocontourKnee.MaskBy` | AutomaticContour/AutomaticContourLib/ormir_xct/autocontour/AutocontourKnee.py:601 | masking keeps a voxel's value where the mask is nonzero and zeroes it elsewhere |
| `AutocontourKnee.PeriostealStep4` | AutomaticContour/AutomaticContourLib/ormir_xct/autocontour/AutocontourKnee.py:566-603 | the periosteal mask lies in the rough step-1 mask, and with an extensive closing it holds every step-3 voxel of that mask |
| `AutocontourKnee.AndNotAsWritten` | AutomaticContour/AutomaticContourLib/ormir_xct/autocontour/AutocontourKnee.py:648 | as written the and-not is the bitwise and of the mask with the 0/1 result of Not, scaled by in_value |
| `AutocontourKnee.AndNotOdd` | AutomaticContour/AutomaticContourLib/ormir_xct/autocontour/AutocontourKnee.py:648 | with an odd foreground value the bitwise form is the set difference |
| `AutocontourKnee.AndNotEven` | AutomaticContour/AutomaticContourLib/ormir_xct/autocontour/AutocontourKnee.py:648 | with an even foreground value the bitwise form is always empty |
| `AutocontourKnee.EvenForegroundLosesDifference` | AutomaticContour/AutomaticContourLib/ormir_xct/autocontour/AutocontourKnee.py:648 | with foreground 126 a voxel outside the cortex is kept corrected but lost as written |
| `AutocontourKnee.AndNot` | AutomaticContour/AutomaticContourLib/ormir_xct/autocontour/AutocontourKnee.py:648 | corrected: the result holds exactly the voxels of the first mask outside the second, with the foreground value |
| `AutocontourKnee.EndoFirstGuess` | AutomaticContour/AutomaticContourLib/ormir_xct/autocontour/AutocontourKnee.py:646-651 | corrected: the first endosteal guess is the periosteal mask less the cortex, inside the eroded periosteal mask |
| `AutocontourKnee.TrabFirstGuess` | AutomaticContour/AutomaticContourLib/ormir_xct/autocontour/AutocontourKnee.py:653-664 | corrected: the first trabecular guess lies in the periosteal mask and holds the endosteal guess there |
| `AutocontourKnee.EndostealSplit` | AutomaticContour/AutomaticContourLib/ormir_xct/autocontour/AutocontourKnee.py:718-735 | corrected: the trabecular region lies in the eroded periosteal mask; the cortex lies in the periosteal mask apart from it; with the erosion inside the periosteal mask the two split it exactly |
| `AutocontourGobj.BitAndSelf` | AutomaticContour/AutomaticContourLib/ormir_xct/autocontour/autocontour_gobj.py:71 | a mask value and-ed with itself is unchanged |
| `AutocontourGobj.OverlapIsShared` | AutomaticContour/AutomaticContourLib/ormir_xct/autocontour/autocontour_gobj.py:65-70 | the overlap test fires exactly when some voxel is in both bone masks |
| `AutocontourGobj.Subtract` | AutomaticContour/AutomaticContourLib/ormir_xct/autocontour/autocontour_gobj.py:71 | the distal-minus-proximal byte mask stays on the grid and inside the distal mask |
| `AutocontourGobj.RemoveOverlap` | AutomaticContour/AutomaticContourLib/ormir_xct/autocontour/autocontour_gobj.py:65-71 | the de-overlapped distal mask stays inside the distal mask and is the distal mask itself when nothing overlaps |
| `AutocontourGobj.ProximalWins` | AutomaticContour/AutomaticContourLib/ormir_xct/autocontour/autocontour_gobj.py:65-71 | for two binary masks the shared voxels go to the proximal bone: the new distal mask is the old one less the proximal mask |
| `AutocontourGobj.Joint` | AutomaticContour/AutomaticContourLib/ormir_xct/autocontour/autocontour_gobj.py:74 | the joint mask adds the two bone masks voxel by voxel wherever the sum fits in a byte |
| `AutocontourGobj.JointCoversBoth` | AutomaticContour/AutomaticContourLib/ormir_xct/autocontour/autocontour_gobj.py:65-74 | after the overlap removal the joint mask is binary and covers exactly the voxels of either bone |
| `AutocontourGobj.ContoursAsWritten` | AutomaticContour/AutomaticContourLib/ormir_xct/autocontour/autocontour_gobj.py:57-63 | as written the mask named proximal is contoured from the distal-masked image and so lies in the distal GOBJ |
| `AutocontourGobj.Contours` | AutomaticContour/AutomaticContourLib/ormir_xct/autocontour/autocontour_gobj.py:57-63 | corrected: each bone's mask is contoured from its own GOBJ and lies inside it |
| `AutocontourGobj.SwappedBones` | AutomaticContour/AutomaticContourLib/ormir_xct/autocontour/autocontour_gobj.py:57-63 | with a one-voxel distal GOBJ and a one-voxel proximal GOBJ, the as-written proximal mask is the distal voxel, the corrected one the proximal voxel |
| `AutocontourGobj.Combine` | AutomaticContour/AutomaticContourLib/ormir_xct/autocontour/autocontour_gobj.py:65-74 | the first mask is kept, the second loses exactly the voxels it shares with the first, and for masks of one value the joint mask is binary and covers both |
| `AutocontourGobj.Gobj` | AutomaticContour/AutomaticContourLib/ormir_xct/autocontour/autocontour_gobj.py:51-78 | as written the mask returned as proximal is the contour of the distal-masked image; the other mask, contoured from the proximal-masked image, loses the voxels the first covers; the joint mask is binary and covers both |
| `AutocontourGobj.GobjCorrected` | AutomaticContour/AutomaticContourLib/ormir_xct/autocontour/autocontour_gobj.py:51-78 | corrected: the proximal mask is the contour of the proximal-masked image, the distal mask the contour of the distal-masked image less the proximal voxels, and the joint mask is binary and covers both |
| `AutoMaskLogic.SetParameters` | AutoMask/AutoMaskLib/AutoMaskLogic.py:223-268 | the call fails iff input and output coincide, or no method is given and lower > upper; otherwise the scan, rough mask, sigma, bone count and radius are set, and either the method or the thresholds |
| `AutoMaskLogic.MethodSkipsThresholds` | AutoMask/AutoMaskLib/AutoMaskLogic.py:245-260 | with a threshold method, reversed thresholds are accepted and leave the stored thresholds unchanged |
| `AutoMaskLogic.SliceIndex` | AutoMask/AutoMaskLib/AutoMaskLogic.py:189-190 | numpy's slice index: defined iff -d <= vox < d, counting negatives from the end |
| `AutoMaskLogic.DeletedSlices` | AutoMask/AutoMaskLib/AutoMaskLogic.py:189-190 | the slices cleared are exactly the indices of start..finish, and an out-of-range one raises |
| `AutoMaskLogic.DeletedSlicesInRange` | AutoMask/AutoMaskLib/AutoMaskLogic.py:189-190 | for 0 <= start and finish < depth the cleared slices are exactly start..finish |
| `AutoMaskLogic.ClearSlices` | AutoMask/AutoMaskLib/AutoMaskLogic.py:189-190 | clearing keeps the grid and removes exactly the segment's voxels on the cleared slices |
| `AutoMaskLogic.ClearSlicesIdempotent` | AutoMask/AutoMaskLib/AutoMaskLogic.py:189-190 | clearing the same slices twice is clearing them once |
| `AutoMaskLogic.ClearSlicesKeeps` | AutoMask/AutoMaskLib/AutoMaskLogic.py:189-190 | a voxel off the cleared slices keeps its value |
| `AutoMaskLogic.ApplyDeleteMask` | AutoMask/AutoMaskLib/AutoMaskLogic.py:173-193 | the deletion raises iff there is a segment and some slice index is out of range; otherwise every segment loses exactly its voxels on slices start..finish |
| `AutoMaskLogic.Loop` | AutoMask/AutoMaskLib/AutoMaskLogic.py:287-295 | the loop calls steps step, step + 1, ... while they report True, stops at the first that does not, and notes whether it raised |
| `AutoMaskLogic.GetMask` | AutoMask/AutoMaskLib/AutoMaskLogic.py:270-305 | algorithm 1 runs steps 1, 2, ... until one does not report True, reporting k (100 // stepNum) before step k + 1 and returning False iff a step raised; algorithm 0 runs step 0 once; any other algorithm runs nothing |
| `AutoMaskLogic.LoopRunsAllSteps` | AutoMask/AutoMaskLib/AutoMaskLogic.py:287-295 | a mask object whose steps 1..n report True and n + 1 False is run through exactly those steps without error |
| `AutoMaskLogic.IntensityCheck` | AutoMask/AutoMaskLib/AutoMaskLogic.py:506-529 | a nonempty scan passes exactly when its mean lies in (-1000, 1000), its standard deviation in (500, 1000) and fewer than a tenth of its voxels lie above 4000 or below -1000; on a scan within [-1000, 4000] only mean and deviation matter; a uniform scan is rejected; an empty scan has no answer |
| `AutomaticContourLogic.CastUInt8` | AutomaticContour/AutomaticContourLib/AutomaticContourLogic.py:182-187 | the UInt8 cast keeps the grid, gives values in 0..255, keeps values already in range and is congruent mod 256 |
| `AutomaticContourLogic.SetParameters` | AutomaticContour/AutomaticContourLib/AutomaticContourLogic.py:154-189 | the call fails iff input and output coincide or lower > upper; otherwise the contour object gets the thresholds, the bone count with step count 6 boneNum + 1, and the separate map iff one is given |
| `AutomaticContourLogic.RunLoop` | AutomaticContour/AutomaticContourLib/AutomaticContourLogic.py:205-215 | an execute that raises ends the loop in an exception, never in a finished state |
| `AutomaticContourLogic.GetContour` | AutomaticContour/AutomaticContourLib/AutomaticContourLogic.py:191-222 | getContour returns False when a step raises, and True only with the output of a finished loop |
| `AutomaticContourLogic.LoopBones` | AutomaticContour/AutomaticContourLib/AutomaticContourLogic.py:205-213 | from the end of step 1 with k >= 1 bones the loop finishes after 6k more True steps, each adding 100 // stepNum, back at step 0 |
| `AutomaticContourLogic.GetContourProgress` | AutomaticContour/AutomaticContourLib/AutomaticContourLogic.py:191-222 | a full run after setParameters finishes and returns True, its progress n (100 // n) lies in (100 - n, 100] for n = 6 bones + 1 |
| `TrainingVoidVolume.DefaultIds` | Training/TrainingLib/VoidVolumeLogic.py:47-49 | the default erosion ids are 1..n for n seeds |
| `TrainingVoidVolume.New` | Training/TrainingLib/VoidVolumeLogic.py:36-54 | the constructor keeps the seeds, numbers them 1..n when given, and starts with manual thresholds; seeds and ids stay paired |
| `TrainingVoidVolume.SetSeeds` | Training/TrainingLib/VoidVolumeLogic.py:458-464 | setSeeds stores the seeds and resets the erosion ids to 1..n |
| `TrainingVoidVolume.SetErosionIds` | Training/TrainingLib/VoidVolumeLogic.py:475-484 | the ids are taken only when their number equals the number of seeds, otherwise the old ids stay; without seeds len() raises |
| `TrainingVoidVolume.Shift` | Training/TrainingLib/VoidVolumeLogic.py:427-429 | every seed is moved by the paste destination, in order |
| `TrainingVoidVolume.KeptIndices` | Training/TrainingLib/VoidVolumeLogic.py:430-437 | the indices of the seeds kept are those whose shifted position lies inside the mask's grid |
| `TrainingVoidVolume.KeptIncreasing` | Training/TrainingLib/VoidVolumeLogic.py:430-437 | the kept seeds keep their original order |
| `TrainingVoidVolume.KeptComplete` | Training/TrainingLib/VoidVolumeLogic.py:430-437 | every seed whose shifted position lies inside the grid is kept |
| `TrainingVoidVolume.KeepIsSelection` | Training/TrainingLib/VoidVolumeLogic.py:430-495 | filtering a parallel list keeps exactly the entries at the kept indices |
| `TrainingVoidVolume.RemovalStep` | Training/TrainingLib/VoidVolumeLogic.py:430-437 | one step of the reversed removal loop: an in-range seed stays and an out-of-range seed is popped, and the list so far agrees with the filter |
| `TrainingVoidVolume.RemoveOutOfRange` | Training/TrainingLib/VoidVolumeLogic.py:430-495 | popping out-of-range seeds from the back removes the same index from the shifted seeds, the seeds and the erosion ids, leaving each list the in-range selection of itself |
| `TrainingVoidVolume.InitializeSeeds` | Training/TrainingLib/VoidVolumeLogic.py:395-437 | _initializeParams leaves seeds and ids paired, every shifted seed inside the grid and equal to its seed plus the destination, and the kept seeds and ids are the originals at the kept indices; without seeds it raises |
| `TrainingVoidVolume.CreateROI` | Training/TrainingLib/VoidVolumeLogic.py:76-117 | manual mode gives the contour voxels whose smoothed value lies outside [lower, upper]; automatic mode gives the contour minus the histogram filter's bone; an automatic method outside 0..4 raises |
| `TrainingVoidVolume.SeedsAndVoids` | Training/TrainingLib/VoidVolumeLogic.py:202-222 | the region grown from is the eroded voids plus every voxel within the erode distance of a seed |
| `TrainingVoidVolume.ConnectVoid` | Training/TrainingLib/VoidVolumeLogic.py:192-235 | the connected voids are the eroded voids reached from the seeds through that region; the output lies inside the eroded voids |
| `TrainingVoidVolume.DilateVoid` | Training/TrainingLib/VoidVolumeLogic.py:237-258 | the dilated voids are masked by the contour, so the output lies inside the contour |
| `TrainingVoidVolume.GrowVoid` | Training/TrainingLib/VoidVolumeLogic.py:260-304 | the grown region is the level set's region (values in 1..255) inside the contour, or-ed with the input voids, which it therefore contains |
| `TrainingVoidVolume.LabelVoid` | Training/TrainingLib/VoidVolumeLogic.py:306-332 | a component holding a seed gets that seed's id, the last such seed winning; no voxel outside the components is labelled |
| `TrainingVoidVolume.Execute` | Training/TrainingLib/VoidVolumeLogic.py:334-363 | steps 1..8 report True and any other step reports False with nothing changed; step 6 leaves the voids inside the contour, step 7 grows a region between the voids and contour plus voids, step 8 only relabels inside the grown region |
| `TrainingVoidVolume.Run` | Training/TrainingLib/VoidVolumeLogic.py:334-363 | running the steps in order keeps the state consistent and the contour unchanged |
| `TrainingVoidVolume.RunCompletes` | Training/TrainingLib/VoidVolumeLogic.py:334-363 | with seeds and a valid method, steps 1..8 succeed and the labelled output lies inside the contour |
| `DetectionVoidVolume.New` | ErosionDetection/ErosionDetectionLib/VoidVolumeLogic.py:37-51 | a new object is at step 0 with thresholds 3000 and 10000, distance 3 and morphological radius 4, the given images and seeds, and no intermediate images |
| `DetectionVoidVolume.SetContourImage` | ErosionDetection/ErosionDetectionLib/VoidVolumeLogic.py:328-337 | the stored contour is 0/1 on the same grid, 1 exactly where the given mask lies in 1..255 (BinaryThreshold's default upper bound), and nothing else changes |
| `DetectionVoidVolume.Binarize` | ErosionDetection/ErosionDetectionLib/VoidVolumeLogic.py:53-87 | binarize keeps the smoothed voxels within [lower, upper] whose component has at least 420 voxels |
| `DetectionVoidVolume.SeedImage` | ErosionDetection/ErosionDetectionLib/VoidVolumeLogic.py:100-102 | the seed image is 1 exactly at the seed voxels |
| `DetectionVoidVolume.CreateROI` | ErosionDetection/ErosionDetectionLib/VoidVolumeLogic.py:89-130 | the region of interest is the seeds plus the voxels at distance 1..63 from a seed, inside the contour and outside the bone |
| `DetectionVoidVolume.CombineVoid` | ErosionDetection/ErosionDetectionLib/VoidVolumeLogic.py:240-267 | the combined voids are the voxels of dilated ero1 times ero2 reachable from a seed, so they lie in both |
| `DetectionVoidVolume.LabelVoid` | ErosionDetection/ErosionDetectionLib/VoidVolumeLogic.py:269-283 | labelling keeps exactly the voids whose component has at least 927 voxels, with their component labels |
| `DetectionVoidVolume.Reset` | ErosionDetection/ErosionDetectionLib/VoidVolumeLogic.py:312-318 | resetting sets the step counter to 0 and changes nothing else |
| `DetectionVoidVolume.Execute` | ErosionDetection/ErosionDetectionLib/VoidVolumeLogic.py:285-319 | the counter advances 1..8 with True, and the call after step 8 resets it to 0 with False; a seed outside the grid makes step 2 raise and resets the counter; per step: binarised bone within the thresholds, connected voids inside the eroded ones, the combined and the labelled output as above |
| `DetectionVoidVolume.StepBinarize` | ErosionDetection/ErosionDetectionLib/VoidVolumeLogic.py:294-296 | step 1 replaces the scan by its binarised bone, within the thresholds, and changes nothing else |
| `DetectionVoidVolume.StepRoi` | ErosionDetection/ErosionDetectionLib/VoidVolumeLogic.py:297-298 | step 2 builds the region of interest and keeps the contour |
| `DetectionVoidVolume.StepVoids` | ErosionDetection/ErosionDetectionLib/VoidVolumeLogic.py:299-302 | steps 3 and 4 change only ero1; step 4 stores the eroded voids |
| `DetectionVoidVolume.StepConnect` | ErosionDetection/ErosionDetectionLib/VoidVolumeLogic.py:303-304 | step 5 changes only ero1 and leaves it inside the eroded voids |
| `DetectionVoidVolume.StepDilate` | ErosionDetection/ErosionDetectionLib/VoidVolumeLogic.py:305-306 | step 6 changes only ero1 and leaves it inside the contour |
| `DetectionVoidVolume.StepOutput` | ErosionDetection/ErosionDetectionLib/VoidVolumeLogic.py:307-311 | step 7 stores the seed-reachable part of dilated ero1 times ero2; step 8 keeps the components of at least 927 voxels |
| `DetectionVoidVolume.Run` | ErosionDetection/ErosionDetectionLib/VoidVolumeLogic.py:285-319 | repeated calls keep the state consistent and the contour unchanged; a raise leaves the counter at 0 |
| `DetectionVoidVolume.RestartAfterFailure` | ErosionDetection/ErosionDetectionLib/VoidVolumeLogic.py:316-319 | after a raise the counter is 0, so the next call runs step 1 again |
| `DetectionVoidVolume.RunCompletes` | ErosionDetection/ErosionDetectionLib/VoidVolumeLogic.py:285-319 | with seeds inside the grid, nine calls run the eight steps, end with the counter at 0 and leave an output inside the contour |
| `ErosionSteps.CorticalMasks` | ErosionDetection/ErosionDetectionLib/Erosion.py:36-50 | the cortical shell is exactly the mask minus the eroded inner contour and the background is the complement of the mask, all 0/1 |
| `ErosionSteps.MaskBreaks` | ErosionDetection/ErosionDetectionLib/Erosion.py:52-55 | the masked bone is 0/1 and is 1 exactly where the bone meets the cortical shell |
| `ErosionSteps.BreaksBackground` | ErosionDetection/ErosionDetectionLib/Erosion.py:75-91 | the first flood keeps exactly the voxels face-connected to the corner voxel through non-bone voxels outside the inner contour; none of them is bone or inner |
| `ErosionSteps.TrabecularLevel` | ErosionDetection/ErosionDetectionLib/Erosion.py:93-94 | in the second image the voxels of value 1 are only inner voxels and background-connected gaps inside the mask |
| `ErosionSteps.ConnectBreaks` | ErosionDetection/ErosionDetectionLib/Erosion.py:72-103 | the breaks are the voxels the seed's flood reaches through the second image, minus the inner contour |
| `ErosionSteps.ConnectBreaksInShell` | ErosionDetection/ErosionDetectionLib/Erosion.py:72-103 | every reported break is a non-bone voxel of the cortical shell |
| `ErosionSteps.DilateBreaks` | ErosionDetection/ErosionDetectionLib/Erosion.py:105-125 | a voxel is kept iff it is in the dilated breaks and the shell and its face-connected component there has at least 48 voxels |
| `ErosionSteps.MaskVoidVolume` | ErosionDetection/ErosionDetectionLib/Erosion.py:127-151 | the result is 0/1 and 0 exactly at the non-bone voxels of the dilated breaks inside the mask |
| `ErosionSteps.VoidValue` | ErosionDetection/ErosionDetectionLib/Erosion.py:137-149 | the per-voxel sum (roi * bone) + (1 - roi) is 0 or 1, and 0 iff the voxel is in the region of interest and not bone |
| `ErosionSteps.CropBox` | ErosionDetection/ErosionDetectionLib/Erosion.py:163-165 | the crop covers the box re-indexed from 0 and each voxel holds the value at its offset in the full image |
| `ErosionSteps.VoidSeeds` | ErosionDetection/ErosionDetectionLib/Erosion.py:171-173 | the void seeds are exactly the voxels whose distance lies in [6, 100000] |
| `ErosionSteps.Regrown` | ErosionDetection/ErosionDetectionLib/Erosion.py:175-180 | the regrown voids are exactly the voxels whose distance to a seed lies in [0, 6] |
| `ErosionSteps.Paste` | ErosionDetection/ErosionDetectionLib/Erosion.py:182-189 | pasting writes the source at the offset where it overlaps the destination and keeps the destination elsewhere |
| `ErosionSteps.DistanceVoidAsWritten` | ErosionDetection/ErosionDetectionLib/Erosion.py:153-191 | as written, the cropped image is pasted onto the regrown one, so the result has the crop's grid |
| `ErosionSteps.DistanceAsWrittenReturnsCrop` | ErosionDetection/ErosionDetectionLib/Erosion.py:182-191 | with the box at the corner the as-written step returns the crop itself, discarding the regrown voids |
| `ErosionSteps.PasteAtCorner` | ErosionDetection/ErosionDetectionLib/Erosion.py:182-189 | pasting an image of the same grid at the corner yields that image |
| `ErosionSteps.CropWhole` | ErosionDetection/ErosionDetectionLib/Erosion.py:163-165 | cropping to the whole image's box is the identity |
| `ErosionSteps.DistanceAsWrittenIdentity` | ErosionDetection/ErosionDetectionLib/Erosion.py:153-191 | when label 1 spans the whole image the as-written step returns its input unchanged |
| `ErosionSteps.DistanceAsWrittenShrinks` | ErosionDetection/ErosionDetectionLib/Erosion.py:153-191 | a box narrower than the image makes the as-written result a different size from the image |
| `ErosionSteps.DistanceVoid` | ErosionDetection/ErosionDetectionLib/Erosion.py:153-191 | corrected: inside the box a voxel is 1 iff its distance lies in [0, 6]; outside the box the input is kept |
| `ErosionSteps.DistanceVoidBinary` | ErosionDetection/ErosionDetectionLib/Erosion.py:153-191 | the corrected step keeps a 0/1 image 0/1 |
| `ErosionSteps.ErodeVoid` | ErosionDetection/ErosionDetectionLib/Erosion.py:193-210 | the or-ed image is nonzero exactly at the eroded voids and at the breaks |
| `ErosionSteps.ConnectVoid` | ErosionDetection/ErosionDetectionLib/Erosion.py:212-234 | the voids are the largest face-connected object of voids, breaks and background, cut to the inner contour |
| `ErosionSteps.DilateVoid` | ErosionDetection/ErosionDetectionLib/Erosion.py:236-255 | the erosion image is nonzero exactly at the dilated voids inside the inner contour and at the breaks |
| `ErosionSteps.New` | ErosionDetection/ErosionDetectionLib/Erosion.py:7-18 | a new object is at step 0 with thresholds 2900 and 10000, the given images and seed, and no masks or output |
| `ErosionSteps.Execute` | ErosionDetection/ErosionDetectionLib/Erosion.py:257-289 | corrected: execute fails iff it reaches step 4 without a seed; otherwise the counter advances and True is returned below step 10, and past it the counter resets to 0 with False; step 1 thresholds, step 4 keeps breaks in the shell and step 10 adds the voids to the breaks |
| `ErosionSteps.StepBreaks` | ErosionDetection/ErosionDetectionLib/Erosion.py:266-273 | steps 2-5 advance the counter, keep the bone model and keep the breaks of step 4 inside the shell, outside the bone |
| `ErosionSteps.StepVoids` | ErosionDetection/ErosionDetectionLib/Erosion.py:275-284 | corrected: steps 6-10 advance the counter, keep the masks, and step 10 joins the dilated inner voids to the breaks |
| `ErosionSteps.Run` | ErosionDetection/ErosionDetectionLib/Erosion.py:334-336 | corrected: the driver loop ends in a consistent state with the same mask |
| `ErosionSteps.RunCompletes` | ErosionDetection/ErosionDetectionLib/Erosion.py:334-336 | corrected: with a seed, eleven execute calls complete all ten steps, reset the counter to 0, and the erosions lie inside the mask |
| `ErosionVolumeLogic.RasToIjk` | ErosionVolume/ErosionVolumeLib/ErosionVolumeLogic.py:40-54 | each index component is within 0.5 of the matrix applied to (x, y, z, 1) |
| `ErosionVolumeLogic.RasToIjkNearest` | ErosionVolume/ErosionVolumeLib/ErosionVolumeLogic.py:40-54 | an index strictly within 0.5 of the transformed point on every axis is the one returned |
| `ErosionVolumeLogic.ErosionIdAsWritten` | ErosionVolume/ErosionVolumeLib/ErosionVolumeLogic.py:121-132 | as written, a numbered label gets its suffix and every other label gets 1, because the maximum restarts at 0 for each seed |
| `ErosionVolumeLogic.ErosionIdsAsWritten` | ErosionVolume/ErosionVolumeLib/ErosionVolumeLogic.py:116-132 | as written, one id per label, in order, each decided by its own label alone |
| `ErosionVolumeLogic.AsWrittenUnnumberedCollide` | ErosionVolume/ErosionVolumeLib/ErosionVolumeLogic.py:125-131 | as written, any two labels without a numeric suffix get the same id 1 |
| `ErosionVolumeLogic.IdsFrom` | ErosionVolume/ErosionVolumeLib/ErosionVolumeLogic.py:116-132 | corrected: over parsed suffixes, a present number is kept and a missing one gets an id above the running maximum |
| `ErosionVolumeLogic.UnnumberedAboveEarlier` | ErosionVolume/ErosionVolumeLib/ErosionVolumeLogic.py:125-131 | corrected: an entry without a number gets an id above every earlier id |
| `ErosionVolumeLogic.ErosionIdsFrom` | ErosionVolume/ErosionVolumeLib/ErosionVolumeLogic.py:116-132 | corrected: numbered labels keep their suffix, each unnumbered label gets an id above the starting maximum |
| `ErosionVolumeLogic.ErosionIds` | ErosionVolume/ErosionVolumeLib/ErosionVolumeLogic.py:116-132 | corrected: one id per label |
| `ErosionVolumeLogic.UnnumberedIdsDistinct` | ErosionVolume/ErosionVolumeLib/ErosionVolumeLogic.py:125-131 | corrected: unnumbered labels get distinct, increasing ids of at least 1 |
| `ErosionVolumeLogic.DashLabelId` | ErosionVolume/ErosionVolumeLib/ErosionVolumeLogic.py:124-128 | a label "prefix-n" is numbered with id n |
| `ErosionVolumeLogic.ErosionIdsCounterexample` | ErosionVolume/ErosionVolumeLib/ErosionVolumeLogic.py:125-131 | labels "F-1", "Seed" get ids [1, 1] as written and [1, 2] corrected |
| `ErosionVolumeLogic.SetErosionParameters` | ErosionVolume/ErosionVolumeLib/ErosionVolumeLogic.py:69-136 | the call fails iff manual thresholds have lower > upper or there is no seed; otherwise the threshold choice and radii are set and each fiducial gives, in order, its rounded index as a seed and its erosion id as the loop writes it, erosion_id_max restarting at 0 for each seed |
| `ErosionVolumeLogic.SetErosionParametersCorrected` | ErosionVolume/ErosionVolumeLib/ErosionVolumeLogic.py:116-132 | corrected: the same outcome and parameters, except that unnumbered seeds get distinct, increasing ids of at least 1 |
| `ErosionVolumeLogic.Increment` | ErosionVolume/ErosionVolumeLib/ErosionVolumeLogic.py:153 | the increment is 100 // stepNum: stepNum increments fit in 100 and one more does not |
| `ErosionVolumeLogic.FinalProgress` | ErosionVolume/ErosionVolumeLib/ErosionVolumeLogic.py:153-164 | after stepNum steps the bar stands within one increment of 100, at 96 for eight steps |
| `ErosionVolumeLogic.UndetectedInIntegers` | ErosionVolume/ErosionVolumeLib/ErosionVolumeLogic.py:176 | the failure test abs(found - contour) < 0.05 size is the integer test 20 abs(found - contour) < size |
| `ErosionVolumeLogic.GetErosions` | ErosionVolume/ErosionVolumeLib/ErosionVolumeLogic.py:138-192 | getErosions returns the run's output when it completes and differs from the mask by at least 5% of the image, fails with an error when a step raises, and reports undetected otherwise |
| `ErosionVolumeLogic.GetErosionsSeeded` | ErosionVolume/ErosionVolumeLib/ErosionVolumeLogic.py:138-192 | with seeds and a valid method no step raises, and an output equal to the mask is reported undetected |
| `ErosionVolumeLogic.SeedsWithId` | ErosionVolume/ErosionVolumeLib/ErosionVolumeLogic.py:360-361 | the seeds listed for an erosion are exactly those whose id equals its index |
| `ErosionVolumeLogic.ErosionName` | ErosionVolume/ErosionVolumeLib/ErosionVolumeLogic.py:356-357 | the new name "source\| Erosion_suffix" keeps the old name's suffix after '_' |
| `ErosionVolumeLogic.SetErosionInfo` | ErosionVolume/ErosionVolumeLib/ErosionVolumeLogic.py:335-369 | the mask segment is untouched; every other segment is renamed, tagged with the radii and source, and, when its suffix parses, tagged with the seeds of that erosion id |
| `ErosionVolumeLogic.SetErosionInfoIdempotent` | ErosionVolume/ErosionVolumeLib/ErosionVolumeLogic.py:335-369 | applying the tagging twice gives the same segments as once |
| `ErosionVolumeLogic.ExportLabel` | ErosionVolume/ErosionVolumeLib/ErosionVolumeLogic.py:237-244 | a segment id with an integer suffix after '_' gets that label, any other gets its position |
| `ErosionVolumeLogic.ExportNamedSegment` | ErosionVolume/ErosionVolumeLib/ErosionVolumeLogic.py:223-244 | the segment "prefix_n" is exported with label n |
| `ErosionVolumeLogic.NamedSuffix` | ErosionVolume/ErosionVolumeLib/ErosionVolumeLogic.py:223-244 | the number after the last underscore of "prefix_n" parses back to n |
| `ErosionVolumeLogic.ExportErosions` | ErosionVolume/ErosionVolumeLib/ErosionVolumeLogic.py:250-255 | each voxel with value k in 1..count takes the label of segment k, read from the copy so no voxel is relabelled twice; other voxels are unchanged |
| `ErosionDetectionLogic.RasToIjk` | ErosionDetection/ErosionDetectionLib/ErosionDetectionLogic.py:43-57 | each index component is the transformed coordinate truncated toward zero by int() |
| `ErosionDetectionLogic.TruncateVersusRound` | ErosionDetection/ErosionDetectionLib/ErosionDetectionLogic.py:57 | truncation here and rounding in the erosion volume module differ: 0.6 gives 0 against 1 |
| `ErosionDetectionLogic.SetErosionParametersAsWritten` | ErosionDetection/ErosionDetectionLib/ErosionDetectionLogic.py:59-125 | as written the call never succeeds: it refuses exactly the invalid inputs (same contour and output, lower > upper, no seed) and raises on every valid one at setErosionIds |
| `ErosionDetectionLogic.SetErosionParametersCounterexample` | ErosionDetection/ErosionDetectionLib/ErosionDetectionLogic.py:59-125 | one seed "F-1" with thresholds 3000..10000 raises as written and succeeds corrected |
| `ErosionDetectionLogic.SetErosionParameters` | ErosionDetection/ErosionDetectionLib/ErosionDetectionLogic.py:59-125 | corrected for the missing setErosionIds only: it refuses exactly the invalid inputs; otherwise it sets the thresholds and radii, the 0/1 contour of the mask and one truncated seed per fiducial in order, and returns the erosion ids the loop computes as written, erosion_id_max restarting at 0 for each seed |
| `ErosionDetectionLogic.GetErosions` | ErosionDetection/ErosionDetectionLib/ErosionDetectionLogic.py:127-168 | a result is the output of the completed run, and a run that raises gives none |
| `ErosionDetectionLogic.GetErosionsOutcome` | ErosionDetection/ErosionDetectionLib/ErosionDetectionLogic.py:127-168 | from step 0 the run completes, inside the contour, iff all seeds lie in the image |
| `ErosionDetectionLogic.CorrectionLabels` | ErosionDetection/ErosionDetectionLib/ErosionDetectionLogic.py:349-359 | the map has key i + 1 exactly for the segments whose name ends in "_n" with n an integer, and maps it to n |
| `ErosionDetectionLogic.ApplyManualCorrection` | ErosionDetection/ErosionDetectionLib/ErosionDetectionLogic.py:360-366 | a voxel with a mapped key takes its segment's number and every other voxel is unchanged, all read from the copy |
| `ErosionDetectionLogic.CorrectionUsesName` | ErosionDetection/ErosionDetectionLib/ErosionDetectionLogic.py:349-359 | the segment named "Erosion_n" at position k is relabelled from k + 1 to n |
| `MarkupsTable.RasToItk` | ErosionDetection/ErosionDetectionLib/MarkupsTable.py:345-348 | the ITK point times the spacing scale is the RAS point with x and y negated; a zero scale raises |
| `MarkupsTable.ItkToRas` | ErosionDetection/ErosionDetectionLib/MarkupsTable.py:350-353 | for a nonzero scale, converting the RAS result back to ITK gives the input |
| `MarkupsTable.CoordRoundTrip` | ErosionDetection/ErosionDetectionLib/MarkupsTable.py:345-353 | RAS to ITK and back is the identity for a nonzero scale |
| `MarkupsTable.CellValue` | ErosionDetection/ErosionDetectionLib/MarkupsTable.py:124-127 | the cell's number is the parsed float, or 0 when the text does not parse |
| `MarkupsTable.Edit` | ErosionDetection/ErosionDetectionLib/MarkupsTable.py:109-136 | the label column renames the point; a coordinate column replaces that ITK axis by the cell's number and keeps the other axes and the label; another column changes nothing; a zero scale raises |
| `MarkupsTable.EditRow` | ErosionDetection/ErosionDetectionLib/MarkupsTable.py:109-136 | only the edited row changes, and it changes as a single-point edit |
| `MarkupsTable.SelectedRows` | ErosionDetection/ErosionDetectionLib/MarkupsTable.py:166-171 | the collected rows are increasing and are exactly the rows below the row count that intersect the selection |
| `MarkupsTable.DeleteDescending` | ErosionDetection/ErosionDetectionLib/MarkupsTable.py:173-177 | removing the collected rows leaves as many points fewer as rows were listed |
| `MarkupsTable.DeleteDescendingKeeps` | ErosionDetection/ErosionDetectionLib/MarkupsTable.py:173-177 | removing from the last listed row down deletes exactly the listed rows and keeps the rest in order |
| `MarkupsTable.DeleteSelectedKeeps` | ErosionDetection/ErosionDetectionLib/MarkupsTable.py:163-177 | the delete action deletes exactly the selected points and keeps the others in order |
| `MarkupsTable.RemoveKept` | ErosionDetection/ErosionDetectionLib/MarkupsTable.py:174-176 | removing a row above all rows already listed is deleting it together with them |
| `MarkupsTable.Swap` | ErosionDetection/ErosionDetectionLib/MarkupsTable.py:180-184 | swapping exchanges the two points and leaves the rest; the points are permuted |
| `MarkupsTable.MoveUp` | ErosionDetection/ErosionDetectionLib/MarkupsTable.py:179-180 | the current point swaps with the one above; the first row stays; nothing else moves |
| `MarkupsTable.MoveDown` | ErosionDetection/ErosionDetectionLib/MarkupsTable.py:182-184 | the current point swaps with the one below; the last row stays; nothing else moves |
| `MarkupsTable.MovesUndo` | ErosionDetection/ErosionDetectionLib/MarkupsTable.py:179-184 | moving a point up and then down again, or down and then up, restores the table |
| `VolumeMarkupsTable.TableRoundsToVoxel` | ErosionVolume/ErosionVolumeLib/MarkupsTable.py:575-577 | the voxel the logic picks for a point is within half a voxel of the table's transformed coordinates on every axis |
| `VolumeMarkupsTable.Compose` | ErosionVolume/ErosionVolumeLib/MarkupsTable.py:575-581 | transforming by an affine matrix and then by another is transforming by their product |
| `VolumeMarkupsTable.CoordRoundTrip` | ErosionVolume/ErosionVolumeLib/MarkupsTable.py:575-581 | with mutually inverse matrices, RAS to IJK and back, and IJK to RAS and back, are identities |
| `VolumeMarkupsTable.AdvancedLayout` | ErosionVolume/ErosionVolumeLib/MarkupsTable.py:375-384 | the advanced view moves each coordinate column one to the right |
| `VolumeMarkupsTable.NormalLayout` | ErosionVolume/ErosionVolumeLib/MarkupsTable.py:420-429 | the normal view moves each coordinate column one to the left |
| `VolumeMarkupsTable.ViewToggleRestores` | ErosionVolume/ErosionVolumeLib/MarkupsTable.py:375-429 | switching views there and back restores the column layout |
| `VolumeMarkupsTable.SharedColumns` | ErosionVolume/ErosionVolumeLib/MarkupsTable.py:4-13 | in the start layout the y column is the large-erosion column, and after the advanced switch x and y sit in the spin-box columns |
| `VolumeMarkupsTable.Edit` | ErosionVolume/ErosionVolumeLib/MarkupsTable.py:121-148 | the label column renames the point; with inverse matrices a coordinate column replaces only that IJK axis by the cell's number, and the label stays |
| `VolumeMarkupsTable.MinimalRadii` | ErosionVolume/ErosionVolumeLib/MarkupsTable.py:293-307 | one radius per point: the spin box in the advanced view, otherwise 6 for a large erosion and 3 |
| `VolumeMarkupsTable.DilateErodeDistances` | ErosionVolume/ErosionVolumeLib/MarkupsTable.py:309-325 | one distance per point: the spin box in the advanced view, otherwise 6 for a large erosion and 4 |
| `VolumeMarkupsTable.AdvancedView` | ErosionVolume/ErosionVolumeLib/MarkupsTable.py:389-405 | the advanced switch sets every row's spin boxes to 3 and 4 |
| `VolumeMarkupsTable.NormalView` | ErosionVolume/ErosionVolumeLib/MarkupsTable.py:434-438 | the normal switch leaves every row's large-erosion box unchecked |
| `VolumeMarkupsTable.ViewSwitchDefaults` | ErosionVolume/ErosionVolumeLib/MarkupsTable.py:293-438 | right after either switch every point gets radius 3 and distance 4 |
| `VolumeMarkupsTable.UpdateLabels` | ErosionVolume/ErosionVolumeLib/MarkupsTable.py:454-463 | each label becomes the bone name, '_' and the point's label, and the point's label is recovered after the last '_' |
| `VolumeMarkupsTable.Save` | ErosionVolume/ErosionVolumeLib/MarkupsTable.py:211-223 | one cached row per point: its label, bone index and type index |
| `VolumeMarkupsTable.SetIndex` | ErosionVolume/ErosionVolumeLib/MarkupsTable.py:244 | setCurrentIndex accepts an index and raises on a text cell |
| `VolumeMarkupsTable.Restore` | ErosionVolume/ErosionVolumeLib/MarkupsTable.py:239-245 | a successful restore keeps one row per point and every point's name |
| `VolumeMarkupsTable.RestoreAsWritten` | ErosionVolume/ErosionVolumeLib/MarkupsTable.py:243-245 | the as-written restore keeps one row per point when it succeeds |
| `VolumeMarkupsTable.RestoreChoices` | ErosionVolume/ErosionVolumeLib/MarkupsTable.py:243-245 | corrected: the restore reads the columns the cache was written with, one row per point |
| `VolumeMarkupsTable.RestoreAsWrittenRaises` | ErosionVolume/ErosionVolumeLib/MarkupsTable.py:211-245 | as written, restoring a cache onto a node with any point raises, because the first cached cell is the label text |
| `VolumeMarkupsTable.RestoreRoundTrip` | ErosionVolume/ErosionVolumeLib/MarkupsTable.py:211-245 | saving the choices and restoring them onto the same points gives them back |
| `VolumeMarkupsTable.RestoreExample` | ErosionVolume/ErosionVolumeLib/MarkupsTable.py:211-245 | one point with bone 1: as written the restore raises, corrected it restores bone 1 |
| `CorticalBreaks.ComponentsAtMost` | CorticalBreakDetection/CorticalBreakDetectionLib/PetersCorticalBreakDetectionLogicCommandLine.py:553-556 | no more components meet a set of voxels than it has voxels, so the bone count is bounded by the mask's size |
| `CorticalBreaks.BoneNum` | CorticalBreakDetection/CorticalBreakDetectionLib/PetersCorticalBreakDetectionLogicCommandLine.py:552-556 | corrected: the bone count is the number of face-connected components of the mask, 0 exactly for an empty mask and at most its voxel count |
| `CorticalBreaks.ComponentsNonEmpty` | CorticalBreakDetection/CorticalBreakDetectionLib/PetersCorticalBreakDetectionLogicCommandLine.py:552-556 | a non-empty mask has at least one component |
| `CorticalBreaks.BoneNumAsWritten` | CorticalBreakDetection/CorticalBreakDetectionLib/PetersCorticalBreakDetectionLogicCommandLine.py:552-556 | as written, the label count includes background label 0 whenever some voxel is 0, giving one more than the number of bones |
| `CorticalBreaks.BoneNumCountsBackground` | CorticalBreakDetection/CorticalBreakDetectionLib/PetersCorticalBreakDetectionLogicCommandLine.py:552-556 | one bone in a two-voxel image is counted as 2 as written and 1 corrected |
| `CorticalBreaks.SetContour` | CorticalBreakDetection/CorticalBreakDetectionLib/PetersCorticalBreakDetectionLogicCommandLine.py:526-556 | corrected: setContour raises iff no voxel lies in 1..255 (BinaryThreshold's default upper bound); otherwise the cut contour is 0/1 on the cut grid, 1 exactly at the mask's voxels in 1..255 moved by the crop origin, and the bone count is that of the mask |
| `CorticalBreaks.CutContour` | CorticalBreakDetection/CorticalBreakDetectionLib/PetersCorticalBreakDetectionLogicCommandLine.py:532-548 | corrected: the binarised mask cropped with a margin of 2 in x and y holds every voxel of the mask and nothing else |
| `CorticalBreaks.CutHoldsContour` | CorticalBreakDetection/CorticalBreakDetectionLib/PetersCorticalBreakDetectionLogicCommandLine.py:532-548 | corrected: the crop with the margin amounts exists and maps the mask's voxels one to one onto the 1s of the cut |
| `CorticalBreaks.SetContourAsWritten` | CorticalBreakDetection/CorticalBreakDetectionLib/PetersCorticalBreakDetectionLogicCommandLine.py:526-556 | as written setContour raises iff no voxel lies in 1..255; otherwise the cut is 0/1 on its grid, holds a mask voxel exactly when it lies below the box's top slice, and the bone count includes the background label |
| `CorticalBreaks.CutBelowTop` | CorticalBreakDetection/CorticalBreakDetectionLib/PetersCorticalBreakDetectionLogicCommandLine.py:537-550 | the crop with the amounts as written exists, and its 1s are the mask's voxels below the box's top slice |
| `CorticalBreaks.BoxCut` | CorticalBreakDetection/CorticalBreakDetectionLib/PetersCorticalBreakDetectionLogicCommandLine.py:461-496 | the cut image covers the contour's grid, holds the image's value at the same physical voxel and 0 where the image does not reach |
| `CorticalBreaks.BoxCutIsCrop` | CorticalBreakDetection/CorticalBreakDetectionLib/PetersCorticalBreakDetectionLogicCommandLine.py:461-496 | for an image on the mask's grid, pasting into the contour's box equals cropping by the contour's amounts |
| `CorticalBreaks.OpenBackground` | CorticalBreakDetection/CorticalBreakDetectionLib/PetersCorticalBreakDetectionLogicCommandLine.py:178-192 | the first flood holds only non-break voxels outside the endosteal region, is closed under face neighbours among them and contains the corner when it is open |
| `CorticalBreaks.TrabecularSet` | CorticalBreakDetection/CorticalBreakDetectionLib/PetersCorticalBreakDetectionLogicCommandLine.py:194-195 | the second image is the background-connected voxels inside the contour, or-ed with the endosteal region |
| `CorticalBreaks.ConnectBreaks` | CorticalBreakDetection/CorticalBreakDetectionLib/PetersCorticalBreakDetectionLogicCommandLine.py:167-207 | the breaks are the kept components minus the endosteal region, and lie in the cortical shell outside the thresholded bone |
| `CorticalBreaks.ShellOfTrabecular` | CorticalBreakDetection/CorticalBreakDetectionLib/PetersCorticalBreakDetectionLogicCommandLine.py:194-205 | outside the endosteal region the second image holds only cortical voxels that are not bone |
| `CorticalBreaks.SizeFilterBreaks` | CorticalBreakDetection/CorticalBreakDetectionLib/PetersCorticalBreakDetectionLogicCommandLine.py:228-241 | a voxel is kept iff it is in the dilated breaks inside the shell and its face-connected component there is at least the minimum size |
| `CorticalBreaks.SizeFilterNoOp` | CorticalBreakDetection/CorticalBreakDetectionLib/PetersCorticalBreakDetectionLogicCommandLine.py:236-241 | a minimum size of at most 1 keeps every dilated break voxel of the shell |
| `CorticalBreaks.DistinctCount` | CorticalBreakDetection/CorticalBreakDetectionLib/PetersCorticalBreakDetectionLogicCommandLine.py:408-417 | a list of labelled components without repeats counts as many components as entries |
| `CorticalBreaks.EnumerationDistinct` | CorticalBreakDetection/CorticalBreakDetectionLib/PetersCorticalBreakDetectionLogicCommandLine.py:407-408 | the relabelled components are pairwise different |
| `CorticalBreaks.EnumerationCovers` | CorticalBreakDetection/CorticalBreakDetectionLib/PetersCorticalBreakDetectionLogicCommandLine.py:407-408 | the relabelled components are exactly the components of the breaks |
| `CorticalBreaks.EnumerationCount` | CorticalBreakDetection/CorticalBreakDetectionLib/PetersCorticalBreakDetectionLogicCommandLine.py:407-412 | the label count equals the number of components |
| `CorticalBreaks.MaskToSeeds` | CorticalBreakDetection/CorticalBreakDetectionLib/PetersCorticalBreakDetectionLogicCommandLine.py:399-417 | maskToSeeds keeps the held seeds and appends one centroid per break component, in label order |
| `PetersBreaks.Default` | CorticalBreakDetection/CorticalBreakDetectionLib/PetersCorticalBreakDetectionLogicCommandLine.py:40-60 | a new object without images has no contour, images or seeds, 82 micrometre voxels, thresholds 3000..10000, cortical thickness 4 and dilate/erode distance 1 |
| `PetersBreaks.SetContour` | CorticalBreakDetection/CorticalBreakDetectionLib/PetersCorticalBreakDetectionLogicCommandLine.py:526-556 | corrected: setting the contour changes only the contour and bone count, and raises iff the mask has no voxel in 1..255 |
| `PetersBreaks.SetSeg` | CorticalBreakDetection/CorticalBreakDetectionLib/PetersCorticalBreakDetectionLogicCommandLine.py:516-521 | the stored segmentation is 0/1 on the same grid, 1 exactly where the input lies in 1..255 (BinaryThreshold's default upper bound), and nothing else changes |
| `PetersBreaks.New` | CorticalBreakDetection/CorticalBreakDetectionLib/PetersCorticalBreakDetectionLogicCommandLine.py:40-60 | corrected: the constructor with a mask raises iff the mask is empty; otherwise it holds the scan, the parameters, no seeds and the contour set up from the mask |
| `PetersBreaks.NewAsWritten` | CorticalBreakDetection/CorticalBreakDetectionLib/PetersCorticalBreakDetectionLogicCommandLine.py:40-60 | as written the constructor raises iff the mask is empty; otherwise it is ready for step 1 with the scan, the parameters, no seeds and the contour from setContour as written |
| `PetersBreaks.MinBreakSize` | CorticalBreakDetection/CorticalBreakDetectionLib/PetersCorticalBreakDetectionLogicCommandLine.py:234-238 | the minimum break size is within 0.5 of 20 (82 / voxelSize)^3 |
| `PetersBreaks.MinBreakSizes` | CorticalBreakDetection/CorticalBreakDetectionLib/PetersCorticalBreakDetectionLogicCommandLine.py:234-238 | the minimum is 20 voxels at 82 micrometres and 49 at 60.7 |
| `PetersBreaks.CreateRoi` | CorticalBreakDetection/CorticalBreakDetectionLib/PetersCorticalBreakDetectionLogicCommandLine.py:243-262 | the region of interest is exactly the contour's voxels that are not bone |
| `PetersBreaks.DistanceVoid` | CorticalBreakDetection/CorticalBreakDetectionLib/PetersCorticalBreakDetectionLogicCommandLine.py:264-297 | when the distance maps measure from the voids and from the deep voids, the result is 0/1 and holds the deep voids plus the band within radius of them |
| `PetersBreaks.DistanceVoidValues` | CorticalBreakDetection/CorticalBreakDetectionLib/PetersCorticalBreakDetectionLogicCommandLine.py:276-296 | per voxel, outer + roi - shallow is 0 or 1 and 1 exactly on the deep voids and the regrown band |
| `PetersBreaks.VoidObject` | CorticalBreakDetection/CorticalBreakDetectionLib/PetersCorticalBreakDetectionLogicCommandLine.py:336-342 | connectVoidVolume's object is the eroded voids, the dilated breaks off the bone, and the background |
| `PetersBreaks.ConnectVoid` | CorticalBreakDetection/CorticalBreakDetectionLib/PetersCorticalBreakDetectionLogicCommandLine.py:344-355 | the voids kept are the eroded voids inside the largest object |
| `PetersBreaks.CombineVoid` | CorticalBreakDetection/CorticalBreakDetectionLib/PetersCorticalBreakDetectionLogicCommandLine.py:383-396 | the combined image is 1 on the breaks and the voids, and equals the void image off the breaks |
| `PetersBreaks.Smoothen` | CorticalBreakDetection/CorticalBreakDetectionLib/PetersCorticalBreakDetectionLogicCommandLine.py:62-88 | step 1 stores a 0/1 segmentation that is 1 exactly where the smoothed scan lies in [lower, upper], and changes nothing else |
| `PetersBreaks.CreateMasks` | CorticalBreakDetection/CorticalBreakDetectionLib/PetersCorticalBreakDetectionLogicCommandLine.py:115-140 | step 2 cuts the segmentation to the contour's box and sets the cortical masks of the contour and its deflation |
| `PetersBreaks.ErodeBreaks` | CorticalBreakDetection/CorticalBreakDetectionLib/PetersCorticalBreakDetectionLogicCommandLine.py:142-165 | step 3 keeps the opened segmentation's voxels that lie in the cortical shell |
| `PetersBreaks.ConnectBreaksStep` | CorticalBreakDetection/CorticalBreakDetectionLib/PetersCorticalBreakDetectionLogicCommandLine.py:167-207 | step 4 keeps the boneNum largest components of the background-connected image and endosteal region, minus the endosteal region; they are non-bone shell voxels |
| `PetersBreaks.DilateBreaks` | CorticalBreakDetection/CorticalBreakDetectionLib/PetersCorticalBreakDetectionLogicCommandLine.py:209-241 | step 5 raises iff the voxel size is 0; otherwise a voxel is kept iff it is a dilated break in the shell whose component has at least the minimum size |
| `PetersBreaks.CreateRoiStep` | CorticalBreakDetection/CorticalBreakDetectionLib/PetersCorticalBreakDetectionLogicCommandLine.py:243-262 | step 6 sets the output to the contour's non-bone voxels and keeps the breaks |
| `PetersBreaks.DistanceVoidStep` | CorticalBreakDetection/CorticalBreakDetectionLib/PetersCorticalBreakDetectionLogicCommandLine.py:264-297 | step 7 selects the large voids with the cortical thickness as radius |
| `PetersBreaks.ErodeVoidStep` | CorticalBreakDetection/CorticalBreakDetectionLib/PetersCorticalBreakDetectionLogicCommandLine.py:299-318 | step 8 sets the output to the eroded voids |
| `PetersBreaks.ConnectVoidStep` | CorticalBreakDetection/CorticalBreakDetectionLib/PetersCorticalBreakDetectionLogicCommandLine.py:320-357 | step 9 keeps the eroded voids in the largest object of voids, dilated breaks off the bone, and background |
| `PetersBreaks.DilateVoidStep` | CorticalBreakDetection/CorticalBreakDetectionLib/PetersCorticalBreakDetectionLogicCommandLine.py:359-381 | step 10 keeps the dilated voids inside the contour |
| `PetersBreaks.CombineVoidStep` | CorticalBreakDetection/CorticalBreakDetectionLib/PetersCorticalBreakDetectionLogicCommandLine.py:383-396 | step 11 joins the breaks to the voids |
| `PetersBreaks.MaskToSeedsStep` | CorticalBreakDetection/CorticalBreakDetectionLib/PetersCorticalBreakDetectionLogicCommandLine.py:399-417 | step 12 keeps the held seeds and appends one per break component |
| `PetersBreaks.Execute` | CorticalBreakDetection/CorticalBreakDetectionLib/PetersCorticalBreakDetectionLogicCommandLine.py:419-457 | a step number outside 1..12 reports False and changes nothing; a step in range reports True, and fails only at step 5 with a zero voxel size; only step 12 touches the seeds |
| `PetersBreaks.RunEnd` | CorticalBreakDetection/CorticalBreakDetectionLib/PetersCorticalBreakDetectionLogicCommandLine.py:674-676 | the driver loop stops at once past the last step |
| `PetersBreaks.RunStep` | CorticalBreakDetection/CorticalBreakDetectionLib/PetersCorticalBreakDetectionLogicCommandLine.py:674-676 | one turn of the driver loop hands the successful step's state to the next step |
| `PetersBreaks.FullRun` | CorticalBreakDetection/CorticalBreakDetectionLib/PetersCorticalBreakDetectionLogicCommandLine.py:672-676 | from any consistent state at step 1, whichever setContour built its contour, the run succeeds; its output is 0/1, holds every break, lies inside the contour, and one seed is listed per break |
| `PetersBreaks.CommandLineRun` | CorticalBreakDetection/CorticalBreakDetectionLib/PetersCorticalBreakDetectionLogicCommandLine.py:668-676 | corrected: the command line's constructor leaves an object ready for step 1 with no seeds, and its loop ends with a 0/1 output between the breaks and the contour and one seed per break |
| `PetersBreaks.CommandLineAsWritten` | CorticalBreakDetection/CorticalBreakDetectionLib/PetersCorticalBreakDetectionLogicCommandLine.py:668-676 | as written the command line builds a contour without the box's top slice and a bone count that includes the background, and its loop still completes with the contour unchanged |
| `CbctBreaks.Default` | CorticalBreakDetection/CorticalBreakDetectionLib/CBCTCorticalBreakDetectionLogic.py:36-57 | a new object without images has no images, masks or seeds, voxel size 250, thresholds 600..10000, cortical thickness 1 and dilate/erode distance 0 |
| `CbctBreaks.SetModel` | CorticalBreakDetection/CorticalBreakDetectionLib/CBCTCorticalBreakDetectionLogic.py:397-403 | setModel sets both the scan and its working copy and nothing else |
| `CbctBreaks.SetSeg` | CorticalBreakDetection/CorticalBreakDetectionLib/CBCTCorticalBreakDetectionLogic.py:408-413 | setSeg stores the segmentation as given, without binarising, and nothing else |
| `CbctBreaks.New` | CorticalBreakDetection/CorticalBreakDetectionLib/CBCTCorticalBreakDetectionLogic.py:36-57 | corrected: the contour is set up only when both the scan and the mask are given, and then an empty mask raises |
| `CbctBreaks.NewAsWritten` | CorticalBreakDetection/CorticalBreakDetectionLib/CBCTCorticalBreakDetectionLogic.py:36-57 | as written the contour is set up by setContour as written, only when both the scan and the mask are given, and then an empty mask raises |
| `CbctBreaks.MinBreakSize` | CorticalBreakDetection/CorticalBreakDetectionLib/CBCTCorticalBreakDetectionLogic.py:231-236 | the minimum break size is within 0.5 of 20 (0.082 / voxelSize)^3 |
| `CbctBreaks.MinBreakSizes` | CorticalBreakDetection/CorticalBreakDetectionLib/CBCTCorticalBreakDetectionLogic.py:231-236 | the minimum is 20 voxels at 0.082, 11 at 0.1, and 0 when the size is given as 100 micrometres |
| `CbctBreaks.Smoothen` | CorticalBreakDetection/CorticalBreakDetectionLib/CBCTCorticalBreakDetectionLogic.py:59-85 | step 1 stores a 0/1 segmentation that is 1 exactly where the smoothed scan lies in [lower, upper], and changes nothing else |
| `CbctBreaks.CreateMasks` | CorticalBreakDetection/CorticalBreakDetectionLib/CBCTCorticalBreakDetectionLogic.py:386-395 | step 2 fails iff no segmentation is set; otherwise the segmentation and scan are cut to the contour's box and the cortical masks set |
| `CbctBreaks.ErodeBreaks` | CorticalBreakDetection/CorticalBreakDetectionLib/CBCTCorticalBreakDetectionLogic.py:139-162 | step 3 keeps the dilated segmentation's voxels in the cortical shell |
| `CbctBreaks.ConnectBreaksStep` | CorticalBreakDetection/CorticalBreakDetectionLib/CBCTCorticalBreakDetectionLogic.py:164-204 | step 4 keeps the boneNum largest components of the background-connected image and endosteal region, minus the endosteal region; they are non-bone shell voxels |
| `CbctBreaks.DilateBreaks` | CorticalBreakDetection/CorticalBreakDetectionLib/CBCTCorticalBreakDetectionLogic.py:206-238 | step 5 raises iff the voxel size is 0; otherwise a voxel is kept iff it is a dilated break in the shell whose component has at least the minimum size |
| `CbctBreaks.GrowBreaks` | CorticalBreakDetection/CorticalBreakDetectionLib/CBCTCorticalBreakDetectionLogic.py:240-292 | step 6 outputs the voxels the level set reaches (value in 0..255, the default upper bound) inside the contour and keeps the breaks |
| `CbctBreaks.MaskToSeedsStep` | CorticalBreakDetection/CorticalBreakDetectionLib/CBCTCorticalBreakDetectionLogic.py:294-312 | step 7 keeps the held seeds and appends one per break component |
| `CbctBreaks.Execute` | CorticalBreakDetection/CorticalBreakDetectionLib/CBCTCorticalBreakDetectionLogic.py:314-347 | a step number outside 1..7 reports False and changes nothing; a step in range reports True and fails only at step 2 without a segmentation or at step 5 with a zero voxel size |
| `CbctBreaks.RunStep` | CorticalBreakDetection/CorticalBreakDetectionLib/CBCTCorticalBreakDetectionLogic.py:539-540 | one turn of the driver loop hands the successful step's state to the next step |
| `CbctBreaks.RunEnd` | CorticalBreakDetection/CorticalBreakDetectionLib/CBCTCorticalBreakDetectionLogic.py:539-540 | the driver loop stops at once past the last step |
| `CbctBreaks.FullRun` | CorticalBreakDetection/CorticalBreakDetectionLib/CBCTCorticalBreakDetectionLogic.py:314-347 | from any consistent state at step 1, whichever setContour built its contour, a full run succeeds with the breaks in the cortical shell, a 0/1 output inside the contour and one seed appended per break |
| `CbctBreaks.CommandLineAsWritten` | CorticalBreakDetection/CorticalBreakDetectionLib/CBCTCorticalBreakDetectionLogic.py:533-540 | as written the command line sets the contour up by setContour as written and starts at step 2 with no segmentation, so the first step raises and nothing is written |
| `CbctBreaks.CommandLineRun` | CorticalBreakDetection/CorticalBreakDetectionLib/CBCTCorticalBreakDetectionLogic.py:533-540 | corrected: started at step 1, on the contour set up by the corrected setContour, the run completes with a 0/1 output inside the contour and one seed per break |
| `BreakDetectionLogic.SetPreprocessParameters` | CorticalBreakDetection/CorticalBreakDetectionLib/CorticalBreakDetectionLogic.py:66-94 | the call fails iff lower > upper; otherwise exactly the scan and thresholds of the chosen algorithm change |
| `BreakDetectionLogic.Preprocess` | CorticalBreakDetection/CorticalBreakDetectionLib/CorticalBreakDetectionLogic.py:96-122 | preprocessing runs step 1 alone and returns a 0/1 segmentation that is 1 exactly where the smoothed scan lies in [lower, upper] |
| `BreakDetectionLogic.Configure` | CorticalBreakDetection/CorticalBreakDetectionLib/CorticalBreakDetectionLogic.py:155-174 | corrected: once the checks pass, the chosen algorithm gets the binarised bone, the contour set up from the mask, the scan, distances and thresholds; an empty mask raises |
| `BreakDetectionLogic.PetersSetup` | CorticalBreakDetection/CorticalBreakDetectionLib/CorticalBreakDetectionLogic.py:155-174 | corrected: the Peters object is ready for step 1: the binarised segmentation (voxels in 1..255), the contour, the scan and the given distances and thresholds, with no seeds yet |
| `BreakDetectionLogic.CbctSetup` | CorticalBreakDetection/CorticalBreakDetectionLib/CorticalBreakDetectionLogic.py:155-174 | corrected: the cone-beam CT object is ready to run: segmentation, contour and scan set, the given distances and thresholds, with no seeds yet |
| `BreakDetectionLogic.SetCorticalBreaksParametersAsWritten` | CorticalBreakDetection/CorticalBreakDetectionLib/CorticalBreakDetectionLogic.py:124-176 | as written the call is refused iff an input is the output or lower > upper, raises iff the mask is empty, and hands 1000 times the voxel size to either algorithm |
| `BreakDetectionLogic.SetCorticalBreaksParameters` | CorticalBreakDetection/CorticalBreakDetectionLib/CorticalBreakDetectionLogic.py:124-176 | corrected: the same checks, with the Peters algorithm given micrometres and the cone-beam CT algorithm millimetres |
| `BreakDetectionLogic.SameRuleInBothUnits` | CorticalBreakDetection/CorticalBreakDetectionLib/CorticalBreakDetectionLogic.py:174 | the cone-beam CT minimum break size at v millimetres equals the Peters one at 1000 v micrometres |
| `BreakDetectionLogic.CbctLimitAsWritten` | CorticalBreakDetection/CorticalBreakDetectionLib/CorticalBreakDetectionLogic.py:174 | as written, any cone-beam CT scan of at least 0.01 mm gets a minimum break size of 0 |
| `BreakDetectionLogic.CbctLimitAt` | CorticalBreakDetection/CorticalBreakDetectionLib/CorticalBreakDetectionLogic.py:174 | the cone-beam CT limit is 0 for any voxel size of 10 or more |
| `BreakDetectionLogic.CbctLimitCorrected` | CorticalBreakDetection/CorticalBreakDetectionLib/CorticalBreakDetectionLogic.py:174 | corrected, the cone-beam CT limit at 0.082 mm is 20 voxels, the Peters limit at 82 micrometres |
| `BreakDetectionLogic.StepNum` | CorticalBreakDetection/CorticalBreakDetectionLib/CorticalBreakDetectionLogic.py:186 | each algorithm has at least one step |
| `BreakDetectionLogic.GetCorticalBreaks` | CorticalBreakDetection/CorticalBreakDetectionLib/CorticalBreakDetectionLogic.py:178-210 | the run from step 2 keeps the chosen algorithm, and an exception gives no result |
| `BreakDetectionLogic.GetCorticalBreaksResult` | CorticalBreakDetection/CorticalBreakDetectionLib/CorticalBreakDetectionLogic.py:178-210 | corrected: the run from step 2 fails exactly when the voxel size is 0, and otherwise leaves a 0/1 output inside the contour and one seed appended per break |
| `BreakDetectionLogic.PetersFromStep2` | CorticalBreakDetection/CorticalBreakDetectionLib/CorticalBreakDetectionLogic.py:193-198 | the Peters steps 2..12 complete with a nonzero voxel size, keep the contour and append one seed per break |
| `BreakDetectionLogic.PetersZeroVoxel` | CorticalBreakDetection/CorticalBreakDetectionLib/CorticalBreakDetectionLogic.py:193-203 | with a zero voxel size the Peters run raises |
| `BreakDetectionLogic.CbctFromStep2` | CorticalBreakDetection/CorticalBreakDetectionLib/CorticalBreakDetectionLogic.py:193-198 | the cone-beam CT steps 2..7 complete with a segmentation and a nonzero voxel size, with a 0/1 output inside the contour |
| `BreakDetectionLogic.CbctZeroVoxel` | CorticalBreakDetection/CorticalBreakDetectionLib/CorticalBreakDetectionLogic.py:193-203 | with a zero voxel size the cone-beam CT run raises |
| `BreakDetectionLogic.Progress` | CorticalBreakDetection/CorticalBreakDetectionLib/CorticalBreakDetectionLogic.py:186-198 | the bar starts at 100 // stepNum and gains as much after every step that reports True |
| `BreakDetectionLogic.FinalProgress` | CorticalBreakDetection/CorticalBreakDetectionLib/CorticalBreakDetectionLogic.py:186-198 | a complete run ends less than stepNum short of 100 and not above it: 96 for Peters, 98 for cone-beam CT |
| `BreakDetectionLogic.LastProgress` | CorticalBreakDetection/CorticalBreakDetectionLib/CorticalBreakDetectionLogic.py:186-198 | the last report of a complete run is stepNum (100 // stepNum), less than stepNum short of 100 |
| `BreakDetectionLogic.IntensityCheckAsWritten` | CorticalBreakDetection/CorticalBreakDetectionLib/CorticalBreakDetectionLogic.py:227-250 | as written the check is undefined only on an empty scan, and both out-of-range shares are the whole array |
| `BreakDetectionLogic.IntensityNeverHounsfield` | CorticalBreakDetection/CorticalBreakDetectionLib/CorticalBreakDetectionLogic.py:238-250 | as written no scan is ever found to be in Hounsfield units |
| `BreakDetectionLogic.IntensityCheck` | CorticalBreakDetection/CorticalBreakDetectionLib/CorticalBreakDetectionLogic.py:227-250 | corrected: a nonempty scan passes exactly when its mean lies in (-1000, 1000), its standard deviation in (500, 1000) and fewer than a tenth of its voxels lie above 5000 or below -2000; on a scan within [-2000, 5000] only mean and deviation matter; an empty scan has no answer |
| `BreakDetectionLogic.IntensityCheckAccepts` | CorticalBreakDetection/CorticalBreakDetectionLib/CorticalBreakDetectionLogic.py:238-250 | the scan [-600, 600] is accepted corrected and rejected as written |
| `PyFloat.ParseAgreesWithInt` | ErosionDetection/ErosionDetectionLib/VoidVolumeLogic.py:413-415 | float() reads every literal int() accepts as the same number |
| `PyFloat.ReadBackInt` | ErosionDetection/ErosionDetectionLib/VoidVolumeLogic.py:413-415 | int(float(s)) of an integer written out gives that integer back |
| `PyFloat.ParseDecimal` | ErosionDetection/ErosionDetectionLib/VoidVolumeLogic.py:413-415 | float("w.f") is the decimal value of w.f |
| `PyFloat.TruncOfDecimal` | ErosionDetection/ErosionDetectionLib/VoidVolumeLogic.py:413-415 | int(float("w.f")) is the whole part w, since the fraction is below one |
| `PyFloat.ParseExponent` | ErosionDetection/ErosionDetectionLib/MarkupsTable.py:124-127 | float() reads the exponent form "1e-05" as 0.00001 |
| `CommandPaths.Derived` | ErosionVolume/ErosionVolumeLib/ErosionVolumeCmd.py:64-71 | the default path is the input up to its first '.' followed by the marker; an input without '.' has none (the index call raises) |
| `CommandPaths.WithExtension` | ErosionVolume/ErosionVolumeLib/ErosionVolumeCmd.py:68-69 | a path without '.' gets the extension appended; a path with one is kept |
| `CommandPaths.WithExtensionIdempotent` | ErosionVolume/ErosionVolumeLib/ErosionVolumeCmd.py:68-69 | fixing the extension twice is fixing it once, and the fixed path has a dot |
| `CommandPaths.InputPath` | ErosionVolume/ErosionVolumeLib/ErosionVolumeCmd.py:64-65 | the marker default becomes the derived path; any other argument is used as given |
| `CommandPaths.OutputPath` | ErosionVolume/ErosionVolumeLib/ErosionVolumeCmd.py:66-69 | the output path fails only for the default with a dotless input; a given path with '.' is kept, and with dotted marker and extension the result has a dot |
| `CommandPaths.DerivedHasDot` | ErosionVolume/ErosionVolumeLib/ErosionVolumeCmd.py:64-71 | a derived path from a dotted marker keeps a dot |
| `CommandPaths.ErosionVolumePaths` | ErosionVolume/ErosionVolumeLib/ErosionVolumeCmd.py:63-71 | the three paths fail exactly when a default is taken for a dotless input; given mask and seed paths are kept and the default seed path ends in "_SEEDS.csv" |
| `CommandPaths.SeedOfColumns` | ErosionVolume/ErosionVolumeLib/ErosionVolumeCmd.py:84-88 | a seed is read only from a line with at least four columns |
| `CommandPaths.ReadLines` | ErosionVolume/ErosionVolumeLib/ErosionVolumeCmd.py:77-89 | the reader succeeds exactly when every line after the three header lines parses, and returns those values in file order |
| `CommandPaths.SeedOfMarkupLine` | ErosionVolume/ErosionVolumeLib/ErosionVolumeCmd.py:82-88 | a markup line written with integer coordinates is read back as that seed |
| `CommandPaths.MarkupColumns` | ErosionVolume/ErosionVolumeLib/ErosionVolumeCmd.py:84 | splitting a written markup line on commas gives back its id, the three coordinates and the remaining columns |
| `CommandPaths.ColumnsOfInts` | ErosionVolume/ErosionVolumeLib/ErosionVolumeCmd.py:85-87 | columns 1 to 3 holding integer strings give the seed of those integers |
| `CommandPaths.ReadWrittenSeeds` | ErosionVolume/ErosionVolumeLib/ErosionVolumeCmd.py:77-89 | writing seeds after three header lines and reading the file gives back the seeds in order |
| `CommandPaths.ReadBodyOf` | ErosionVolume/ErosionVolumeLib/ErosionVolumeCmd.py:77-89 | after the header lines, lines that each parse to a value are read as exactly those values |
| `CommandPaths.ContourOutput` | AutomaticContour/AutomaticContourLib/AutomaticContourCmd.py:59-63 | no output argument gives the input's stem plus "_MASK.mha"; a dotless path gets ".mha"; a dotted path is kept |
| `CommandPaths.RoughMaskPath` | AutomaticContour/AutomaticContourLib/AutomaticContourCmd.py:46-71 | the empty default means no rough mask; any other argument is read as the rough mask path |
| `CommandPaths.AcceptsAsWritten` | AutomaticContour/AutomaticContourLib/BatchContourLogic.py:72-80 | as written no file passes the filter, since splitext keeps the dot and "mha" and "nii" have none |
| `CommandPaths.Accepts` | AutomaticContour/AutomaticContourLib/BatchContourLogic.py:72-80 | corrected: an accepted file name ends in '.' followed by three characters that lower-case to mha or nii |
| `CommandPaths.ScanSkipped` | AutomaticContour/AutomaticContourLib/BatchContourLogic.py:72-80 | "scan.mha" is skipped as written and processed once corrected |
| `CommandPaths.AcceptsExtension` | AutomaticContour/AutomaticContourLib/BatchContourLogic.py:72-80 | corrected: a scan is processed exactly when its extension lower-cases to mha or nii and its base name holds neither mask postfix |
| `CommandPaths.BatchOutput` | AutomaticContour/AutomaticContourLib/BatchContourLogic.py:82 | the output name ends in the base name, "_MASK", a dot and the lower-cased extension |
| `CommandPaths.DirectoryScans` | FileConverter/FileConverterLib/FileConverterCmd.py:99-106 | directory mode takes exactly the listed files with a Scanco extension, as folder/name |
| `CommandPaths.SelectFiles` | FileConverter/FileConverterLib/FileConverterCmd.py:98-109 | a mode containing 'd' lists the folder, otherwise one containing 'f' takes the paths, and any other mode leaves the file list undefined |
| `CommandPaths.OutputFormat` | FileConverter/FileConverterLib/FileConverterCmd.py:111-114 | the output format is ".mha" or ".nii", and a given ".mha" or ".nii" is kept |
| `CommandPaths.ConvertedPath` | FileConverter/FileConverterLib/FileConverterCmd.py:46-68 | the converted file's name ends in the output format |
| `CommandPaths.ConvertedPathOf` | FileConverter/FileConverterLib/FileConverterCmd.py:46-68 | for a scan root + ext the output replaces the extension in place, or goes under the output folder with root's last component |
| `CommandPaths.ProgressIsShare` | FileConverter/FileConverterLib/FileConverterCmd.py:40-71 | after k of n files the progress is k times 100 / n, and it stays within [0, 100] |
| `BreakCommands.SeedsPathAsWritten` | CorticalBreakDetection/CorticalBreakDetectionLib/PetersCorticalBreakDetectionLogicCommandLine.py:646-649 | as written any explicit seeds path gets ".csv" appended, since one character never equals ".csv"; a path under four characters raises |
| `BreakCommands.SeedsPathAlwaysAppends` | CorticalBreakDetection/CorticalBreakDetectionLib/PetersCorticalBreakDetectionLogicCmd.py:85-88 | as written an explicit "out.csv" becomes "out.csv.csv" |
| `BreakCommands.SeedsPath` | CorticalBreakDetection/CorticalBreakDetectionLib/PetersCorticalBreakDetectionLogicCmd.py:85-88 | corrected: the seeds path ends in ".csv", a path that already does is kept, and any other gets ".csv" once |
| `BreakCommands.SeedsPathIdempotent` | CorticalBreakDetection/CorticalBreakDetectionLib/PetersCorticalBreakDetectionLogicCmd.py:85-88 | feeding the corrected seeds path back in changes nothing |
| `BreakCommands.PetersPaths` | CorticalBreakDetection/CorticalBreakDetectionLib/PetersCorticalBreakDetectionLogicCmd.py:78-88 | the paths fail exactly when a default is taken for a dotless input or an explicit seeds path is shorter than four characters; the output has a dot; an explicit seeds path always gets ".csv" appended; given contour and dotted output paths are kept |
| `BreakCommands.SeedsAsWrittenCsv` | CorticalBreakDetection/CorticalBreakDetectionLib/PetersCorticalBreakDetectionLogicCmd.py:85-88 | as written the seeds path, when there is one, ends in ".csv" |
| `BreakCommands.PetersPathsCorrected` | CorticalBreakDetection/CorticalBreakDetectionLib/PetersCorticalBreakDetectionLogicCmd.py:78-88 | corrected: the paths fail exactly when a default is taken for a dotless input; a seeds path already ending in ".csv" is kept, and every seeds path ends in ".csv" |
| `BreakCommands.PetersPreset` | CorticalBreakDetection/CorticalBreakDetectionLib/PetersCorticalBreakDetectionLogicCmd.py:90-98 | preset 1 sets 82 um, thickness 4 and distance 1; preset 2 sets 60.7 um, 5 and 2; anything else keeps the arguments |
| `BreakCommands.PresetBreakSizes` | CorticalBreakDetection/CorticalBreakDetectionLib/PetersCorticalBreakDetectionLogicCmd.py:90-98 | the XCT I preset keeps breaks of 20 voxels and more, XCT II of 49 and more |
| `BreakCommands.BatchPreset` | CorticalBreakDetection/CorticalBreakDetectionLib/CorticalBreakDetectionCmd.py:84-92 | the batch presets set 82, 4, 2 and 60.7, 5, 3; anything else keeps the arguments |
| `BreakCommands.PresetsDiffer` | CorticalBreakDetection/CorticalBreakDetectionLib/CorticalBreakDetectionCmd.py:84-92 | the batch script agrees with the single-scan script except that its dilate/erode distance is one higher |
| `BreakCommands.SeedRows` | CorticalBreakDetection/CorticalBreakDetectionLib/CorticalBreakDetectionCmd.py:139-142 | row i of the seed table is i followed by the coordinates of seed i |
| `BreakCommands.RowRoundTrip` | CorticalBreakDetection/CorticalBreakDetectionLib/CorticalBreakDetectionCmd.py:139-142 | a written row of integers reads back as the same integers |
| `BreakCommands.SeedTableRoundTrip` | CorticalBreakDetection/CorticalBreakDetectionLib/PetersCorticalBreakDetectionLogicCommandLine.py:673-676 | each line of the seeds file reads back as its index and seed |
| `BreakCommands.SeedsFolder` | CorticalBreakDetection/CorticalBreakDetectionLib/CorticalBreakDetectionCmd.py:80-82 | the seeds folder is the output folder unless one is given |
| `BreakCommands.ContoursFor` | CorticalBreakDetection/CorticalBreakDetectionLib/CorticalBreakDetectionCmd.py:104-110 | the contours of a scan are exactly the listed names that contain the scan's name without its extension |
| `BreakCommands.OutputFiles` | CorticalBreakDetection/CorticalBreakDetectionLib/CorticalBreakDetectionCmd.py:130-139 | the breaks image is written for output types 1 and 3, the erosions image for 2 and 3, and the seeds table always, last |
| `Paths.RFind` | AutomaticContour/AutomaticContourLib/BatchContourLogic.py:72 | the last index of the character, or -1 exactly when it does not occur |
| `Paths.Splitext` | AutomaticContour/AutomaticContourLib/BatchContourLogic.py:72 | root and extension concatenate to the path; the extension is empty or one dot and a dot-free, slash-free tail |
| `Paths.SplitextOfExtension` | FileConverter/FileConverterLib/FileConverterCmd.py:47 | a path built from a root and a one-dot extension splits back into them |
| `Paths.SplitextNoDot` | AutomaticContour/AutomaticContourLib/BatchContourLogic.py:72 | a path without a dot has no extension |
| `Paths.Basename` | FileConverter/FileConverterLib/FileConverterCmd.py:48 | the last component has no '/' and ends the path right after a '/' or at its start |
| `Paths.Join` | AutomaticContour/AutomaticContourLib/BatchContourLogic.py:71 | the joined path ends in b; an absolute b replaces a; otherwise a, a '/' and b |
| `Paths.BasenameOfJoin` | AutomaticContour/AutomaticContourLib/BatchContourLogic.py:71-82 | the last component of a joined path is that of b |
| `TrainingWidget.ClickLarge` | Training/Training.py:385-393 | a click toggles the large box; checked gives radius 6 and distance 6 and unchecks the small box; unchecked gives 3 and 4 and leaves the small box |
| `TrainingWidget.ClickSmall` | Training/Training.py:395-403 | a click toggles the small box; checked gives radius 2 and distance 3 and unchecks the large box; unchecked gives 3 and 4 and leaves the large box |
| `TrainingWidget.ClicksKeepConsistent` | Training/Training.py:385-403 | the widget starts with the parameters its boxes show, and each click keeps it so |
| `TrainingWidget.ClicksConsistent` | Training/Training.py:385-403 | after any sequence of clicks the parameters match the boxes shown |
| `TrainingWidget.LastClose` | Training/Training.py:478-487 | a detected erosion maps to the last reference erosion whose centroid is within 5% on every axis, and to none exactly when no reference is that close |
| `TrainingWidget.ScanFindsLast` | Training/Training.py:480-487 | the inner loop over the references ends on the last close one |
| `TrainingWidget.MapLabels` | Training/Training.py:476-487 | every detected erosion is mapped as above; a reference centroid with a zero coordinate raises when any erosion was detected |
| `TrainingWidget.Judge` | Training/Training.py:508-541 | the error flag is raised exactly by a mapped erosion with similarity at most 0.9 (or an unmapped one when counted as an error); the sim flag by any unmapped erosion or similarity at most 0.9 |
| `TrainingWidget.Messages` | Training/Training.py:544-559 | "Success!" appears exactly without an error; otherwise each reason appears exactly when its condition holds, the wrong-locations line only with the sim flag and equal seed and reference counts |
| `TrainingWidget.CountErrorOnly` | Training/Training.py:544-553 | an error from the counts alone with every erosion matched names only the missing detection, not the seed locations |
| `TrainingWidget.Feedback` | Training/Training.py:489-563 | an error is reported exactly when the seed count exceeds the detected count, differs from the reference count, or an erosion fails the similarity test; the wrong-locations line appears in an error exactly with the sim flag and equal seed and reference counts |
| `TrainingWidget.FeedbackAsWritten` | Training/Training.py:493-559 | as written, "Success!" is shown exactly when the error flag stays down, which an unmapped seed does not raise |
| `TrainingWidget.CorrectedFeedback` | Training/Training.py:489-563 | corrected: "Success!" means the counts agree and every detected erosion matches a reference erosion with similarity above 0.9 |
| `TrainingWidget.UnmappedSeedSucceeds` | Training/Training.py:511-559 | one seed far from the only reference erosion: as written the message is "Success!", corrected it is an error |
| `TestOracles.PadFront` | CorticalBreakDetection/Testing/CorticalBreakDetectionTestLogic.py:124-125 | edge padding in front grows each axis by its pad, keeps the array at the back and fills the pad with the nearest edge layer; padding an empty axis raises |
| `TestOracles.Padded` | CorticalBreakDetection/Testing/CorticalBreakDetectionTestLogic.py:124-125 | every voxel of the padded array holds the value of its clamped source voxel |
| `TestOracles.PaddedKeepsArray` | CorticalBreakDetection/Testing/CorticalBreakDetectionTestLogic.py:124-125 | the original array sits behind the front padding |
| `TestOracles.PaddedRepeatsEdge` | CorticalBreakDetection/Testing/CorticalBreakDetectionTestLogic.py:124-125 | every padded layer repeats the array's first layer on its axis |
| `TestOracles.CropFront` | CorticalBreakDetection/Testing/CorticalBreakDetectionTestLogic.py:124-125 | the part behind the front padding is a well-formed array |
| `TestOracles.PadCropRoundTrip` | CorticalBreakDetection/Testing/CorticalBreakDetectionTestLogic.py:124-125 | padding in front and cutting the padding away gives the array back |
| `TestOracles.PadArray` | CorticalBreakDetection/Testing/CorticalBreakDetectionTestLogic.py:97-127 | both arrays come out with the larger extent on every axis, each holding its original behind the padding; growing an empty axis raises |
| `TestOracles.PadNothing` | CorticalBreakDetection/Testing/CorticalBreakDetectionTestLogic.py:119-125 | padding by zero on every axis changes nothing |
| `TestOracles.PadSameShape` | CorticalBreakDetection/Testing/CorticalBreakDetectionTestLogic.py:146-148 | arrays of the same shape come out of the padding unchanged, so the shape guard changes nothing |
| `TestOracles.Aligned` | CorticalBreakDetection/Testing/CorticalBreakDetectionTestLogic.py:146-148 | the compared arrays are the padded pair, on the same grid |
| `TestOracles.DiffWithin` | CorticalBreakDetection/Testing/CorticalBreakDetectionTestLogic.py:150-158 | the comparison passes exactly when at most the limit percentage of voxels differ; an empty array divides by zero |
| `TestOracles.VerifyBreaks` | CorticalBreakDetection/Testing/CorticalBreakDetectionTestLogic.py:129-161 | the break mask passes exactly when at most 0.5 % of the aligned voxels differ from the sample |
| `TestOracles.BreaksMatchThemselves` | CorticalBreakDetection/Testing/CorticalBreakDetectionTestLogic.py:129-161 | a non-empty output equal to its sample passes |
| `TestOracles.Binarized` | AutomaticContour/Testing/AutomaticContourTestLogic.py:148-149 | the binarized sample is a 0/1 mask with exactly the sample's nonzero voxels |
| `TestOracles.VerifyMask` | AutomaticContour/Testing/AutomaticContourTestLogic.py:127-160 | the contour passes exactly when at most 2 % of the aligned voxels differ from the binarized sample |
| `TestOracles.MaskOfSamplePasses` | AutomaticContour/Testing/AutomaticContourTestLogic.py:127-160 | a 0/1 mask of exactly the sample's nonzero voxels passes, whatever the sample's foreground value |
| `TestOracles.Lookup` | ErosionVolume/Testing/ErosionVolumeTestLogic.py:170 | a segment is found exactly when some sample segment has the id, and it is that segment's mask |
| `TestOracles.SegmentVerdict` | ErosionVolume/Testing/ErosionVolumeTestLogic.py:166-182 | one output segment passes exactly when the sample has its id and the aligned masks differ in at most 0.5 % of voxels |
| `TestOracles.Verdicts` | ErosionVolume/Testing/ErosionVolumeTestLogic.py:165-182 | one verdict per output segment, each a pass exactly when that segment matches |
| `TestOracles.Scan` | ErosionVolume/Testing/ErosionVolumeTestLogic.py:165-184 | the loop passes exactly when every verdict from its start passes, and otherwise ends with the first verdict that does not |
| `TestOracles.VerifyErosionAsWritten` | ErosionVolume/Testing/ErosionVolumeTestLogic.py:159-184 | as written the test passes exactly when every output segment after the first matches, whatever the segment counts |
| `TestOracles.VerifyErosion` | ErosionVolume/Testing/ErosionVolumeTestLogic.py:159-184 | corrected: a different segment count fails; otherwise the test passes exactly when every segment after the first matches |
| `TestOracles.MissingSegmentsPass` | ErosionVolume/Testing/ErosionVolumeTestLogic.py:159-165 | an output with only the mask segment passes as written against a sample with two erosions, and fails corrected |
| `TestOracles.VerifyTable` | ErosionVolume/Testing/ErosionVolumeTestLogic.py:186-215 | the table passes exactly when volume and surface area are each within 1 % of nonzero sample values; a zero sample value reached raises |
| `TestOracles.UnmatchedPrefix` | CorticalBreakDetection/Testing/CorticalBreakDetectionTestLogic.py:207-219 | a prefix of the seeds has no more unmatched seeds than the whole list |
| `TestOracles.VerifySeeds` | CorticalBreakDetection/Testing/CorticalBreakDetectionTestLogic.py:164-221 | the loop passes exactly when there are at most 9 extra seeds, none missing, and no more unmatched seeds than extra seeds |
| `TestOracles.AllMatched` | CorticalBreakDetection/Testing/CorticalBreakDetectionTestLogic.py:207-212 | seeds that each lie near a sample seed leave none unmatched |
| `TestOracles.UnmatchedAppend` | CorticalBreakDetection/Testing/CorticalBreakDetectionTestLogic.py:207-219 | each extra seed adds at most one unmatched seed |
| `TestOracles.ExtraSeedsPass` | CorticalBreakDetection/Testing/CorticalBreakDetectionTestLogic.py:190-221 | the sample's own seeds with up to 9 extra seeds anywhere pass |
| `TestOracles.MissingSeedPasses` | CorticalBreakDetection/Testing/CorticalBreakDetectionTestLogic.py:207-219 | a sample seed nobody found passes when a spare output seed lies near another sample seed |
| `TestOracles.FilePath` | CorticalBreakDetection/Testing/CorticalBreakDetectionTestLogic.py:22-40 | the file lies under TestFiles after the root, with backslashes exactly when the root holds one and slashes otherwise |
| `TestOracles.FilePathAsWritten` | ErosionVolume/Testing/ErosionVolumeTestLogic.py:35 | the erosion-volume test's root.contains call raises for every root |

## Left out

- Slicer and Qt plumbing: widgets, MRML nodes, signals, progress bars, dialogs and logging. Only the values these callbacks compute are modelled.
- File and directory I/O: reading and writing images, CSV files and AIM/ISQ scans. File contents enter as sequences of lines, and directory listings as sequences of names.
- SimpleITK filter internals: Gaussian smoothing, distance maps, dilation and erosion kernels, level-set growth, Otsu and the other automatic threshold methods, and the size-sorted relabelling. Each enters as a given image or function that meets the stated relation, since their numerics are not part of the labelling logic.
- Floating-point rounding: reals are exact. `int()` truncation and half-to-even `round` are modelled, and float error is not.
- PyFloat.Parse: float() also accepts "inf", "nan", "infinity" and underscores between digits. These give None here, and the seed files and table cells hold plain decimals or exponent forms such as "1e-05", which are modelled.
- MarkupsTable.CellValue: reads a cell through PyFloat.Parse, so a cell holding "inf", "nan" or digit underscores reads as 0 here, where float() gives a value.
- Python `int()` on strings: modelled as an optional sign followed by ASCII digits. Surrounding whitespace and underscores are not accepted, because the seed files and labels never use them.
- The `while True` driver loops run on a `fuel` bound. Separate lemmas show that enough fuel always reaches the end of a run.
- DetectionVoidVolume.CombineVoid: the dilation radius, 3 when ero1_radius > 5 and otherwise 5, is not modelled. It only sets the given dilated image, whose contents are abstract.
- DetectionVoidVolume.Binarize: after RelabelComponent with minimum size 420, binarize keeps only labels 1..10000 (ErosionDetection/ErosionDetectionLib/VoidVolumeLogic.py:83-86). That upper cut is not modelled: components past the 10000th largest are kept. The component numbering is given, and no scan in scope has that many components.
- ErosionSteps.Execute: the uint8 wrap-around in the break difference is not modelled. Only value-1 voxels are read afterwards, and neither -1 nor 255 equals 1.
- ErosionSteps.Execute: maskBreaks (ErosionDetection/ErosionDetectionLib/Erosion.py:42) erodes the name `contour_img`, not `self.contour_img`. Run as a script, that is the module-level image read at Erosion.py:319, the same image handed to the constructor at :332; imported, the name is undefined and the step raises NameError. It is modelled as the contour the object holds.
- FastContourLogic.Execute: models the run as evidently intended. As written, `binarize` and `fillHole` do not exist on ContourLogic, and denoise, relabelWithConnect and relabelWithMap are called with the wrong number of arguments; ExecuteAsWritten models that, and the steps are modelled with the arguments the intended calls would pass.
- FastContourLogic.DriveBones: is stated for the corrected Execute; as written the run never reaches step 3 (AsWrittenNeverStarts).
- FastContourLogic.RunLength: is stated for the corrected Execute; as written the first call raises (AsWrittenNeverStarts).
- HildebrandThickness.LocalThickness: the field holds the squared radius rd of the largest containing ball, not 2*sqrt(rd). Square root is monotone, so "the largest ball wins" carries over unchanged. Diameters then applies the diameter map, which enters as a parameter because Dafny has no square root.
- HildebrandThickness.StructureStats: the standard deviation of the sample is not modelled. The mean, minimum and maximum of the clamped diameters are. The diameter map rd |-> 2*sqrt(rd) is a parameter, and the statements hold for any map passed there.
- Intensity.Check: np.std enters through the variance. The bounds 500 < std < 1000 are stated as 250000 < variance < 1000000, which is the same condition.
- Thresholds.RoundNearest: requires roundTo > 0. Both converters only call it with 10 and 100.
- MarkupsTable and VolumeMarkupsTable: `currentRow() == -1` (no selection), the '%.3f' cell formatting, the jump-to-slice on selection and the cellChanged re-entrancy guard around updateLabels are not modelled. They affect the display only.
- TrainingVoidVolume: erosion ids are assumed to be distinct positive labels. Nonconsecutive label images from the Slicer side are not modelled.
- CbctBreaks.Execute: the `sigma` argument only feeds the Gaussian filter, and it is not modelled.
- CbctBreaks: the IJK-to-RAS conversion of the break seeds in getSeeds is not modelled. Seeds stay in voxel indices.
- TestOracles.VerifySeeds: matching runs one way only, so a reference seed that no output seed matched can still pass (TestOracles.MissingSeedPasses). This weakness of the test is stated, not corrected.
- CorticalBreaks.SetContour: uses the corrected Cropping.MarginAmounts and CorticalBreaks.BoneNum. The as-written crop, which loses the top contour slice, and the count that includes the background are CorticalBreaks.SetContourAsWritten.
- CorticalBreaks.CutContour: states the cut with the corrected margin amounts. As written the top slice is lost (CorticalBreaks.CutBelowTop).
- CorticalBreaks.CutHoldsContour: holds for the corrected margin amounts only. As written the mask's top slice has no 1 in the cut (Cropping.MarginCropDropsTopSlice).
- PetersBreaks.SetContour: stores the contour of the corrected CorticalBreaks.SetContour.
- PetersBreaks.New: builds its contour with the corrected setContour. The as-written constructor is PetersBreaks.NewAsWritten.
- PetersBreaks.CommandLineRun: runs on the corrected contour and bone count. The as-written command line is PetersBreaks.CommandLineAsWritten, which also completes.
- CbctBreaks.New: builds its contour with the corrected setContour. The as-written constructor is CbctBreaks.NewAsWritten.
- CbctBreaks.CommandLineRun: corrects both the start step and the contour set-up. CbctBreaks.CommandLineAsWritten keeps both as written.
- BreakDetectionLogic.Configure: sets up the contour with the corrected CorticalBreaks.SetContour.
- BreakDetectionLogic.PetersSetup: through PetersBreaks.New, holds the corrected contour and bone count.
- BreakDetectionLogic.CbctSetup: through CbctBreaks.New, holds the corrected contour.
- BreakDetectionLogic.GetCorticalBreaksResult: runs on the state the corrected set-up built. PetersBreaks.FullRun and CbctBreaks.FullRun hold for any consistent state, including the as-written one.
- ErosionSteps.Execute: step 7 (distanceVoidVolume) uses the corrected ErosionSteps.DistanceVoid, which pastes the selection back into the full image. As written the step returns a cropped image (ErosionSteps.DistanceVoidAsWritten).
- ErosionSteps.StepVoids: the voids it works on come from the corrected distance step.
- ErosionSteps.Run: drives the corrected ErosionSteps.Execute.
- ErosionSteps.RunCompletes: shows completion for the corrected distance step only. As written step 7 returns a cropped image (ErosionSteps.DistanceAsWrittenShrinks), and completion is not shown for that.
- AutocontourKnee.EndoFirstGuess: uses the corrected AutocontourKnee.AndNot. As written an even in_value empties the result (AutocontourKnee.AndNotEven).
- AutocontourKnee.TrabFirstGuess: built on the corrected AutocontourKnee.AndNot.
- AutocontourKnee.EndostealSplit: built on the corrected AutocontourKnee.AndNot.
- ErosionVolumeLogic.GetErosions: ErosionVolume/ErosionVolumeLib/VoidVolumeLogic.py is not part of this model. Its step chain is taken to be the training one, so TrainingVoidVolume runs in its place.
- ErosionVolumeLogic.GetErosionsSeeded: runs TrainingVoidVolume in place of ErosionVolume/ErosionVolumeLib/VoidVolumeLogic.py, as for ErosionVolumeLogic.GetErosions.
- CorticalBreaks.SizeFilterBreaks: keeps every face-connected piece of at least minSize voxels. The source keeps only labels 1..255 after RelabelComponent (the default upper bound of BinaryThreshold), so beyond 255 such pieces the smallest are dropped. RelabelComponent's size ranking is not modelled.
- CorticalBreaks.SizeFilterNoOp: holds while the shell has at most 255 break pieces. Beyond that the source drops the smallest pieces even with minSize <= 1.
- PetersBreaks.DilateBreaks: filters through CorticalBreaks.SizeFilterBreaks, so the cap of 255 labels is not modelled.
- CbctBreaks.DilateBreaks: filters through CorticalBreaks.SizeFilterBreaks, so the cap of 255 labels is not modelled. With the as-written minimum size 0 (BreakDetectionLogic.CbctLimitAsWritten), that cap is the only filter left.
- ErosionSteps.DilateBreaks: the threshold to labels 1..10000 after RelabelComponent (ErosionDetection/ErosionDetectionLib/Erosion.py:124) is not modelled. Beyond 10000 pieces of 48 voxels or more the source drops the smallest.
- TrainingVoidVolume.Execute: step 3 (distanceVoidVolume) opens five ImageJ windows through sitk.ImageViewer with the fixed command "Z:\Programs\ImageJ\ImageJ.exe" (Training/TrainingLib/VoidVolumeLogic.py:136-168). The model assumes the viewer starts; where that program is missing, Execute raises at step 3.
- TrainingVoidVolume.RunCompletes: assumes, as Execute does, that the ImageJ viewer of step 3 starts.
- SegmentationEvaluation.Binarize: assumes NumPy before 1.24, where `np.int` still exists. On NumPy 1.24 or later the `.astype(np.int)` at AutomaticContour/AutomaticContourLib/ormir_xct/util/segmentation_evaluation.py:29 raises AttributeError.
- Registration, morphometry, BMD, JSW, DICOM export and the other repository modules outside the labelling core are not part of this model.

## Findings

| source | as written | input that shows it | evidently intended | confidence | as-written member | corrected member |
|---|---|---|---|---|---|---|
| CorticalBreakDetection/CorticalBreakDetectionLib/PetersCorticalBreakDetectionLogicCommandLine.py:646-649 | `seeds_dir[-4] != ".csv"` compares one character with a four-character string, so ".csv" is always appended | seeds path "out.csv" becomes "out.csv.csv" | append ".csv" only when the path does not already end in ".csv" | not executed; high | `BreakCommands.SeedsPathAsWritten`, `BreakCommands.SeedsPathAlwaysAppends`, `BreakCommands.PetersPaths` | `BreakCommands.SeedsPath`, `BreakCommands.PetersPathsCorrected` |
| Training/TrainingLib/VoidVolumeLogic.py:383-390 | the upper crop amount is `size - max` with `max` an inclusive index, so the crop drops the contour's top face | a 1x1x1 image whose one voxel is contour crops to an empty image | crop `size - max - 1` so that the bounding box is kept | not executed; high | `Cropping.ExactAmountsAsWritten`, `Cropping.ExactCropDropsMaxFace`, `Cropping.ExactCropSingleVoxel` | `Cropping.ExactAmounts`, `Cropping.ExactCropKeepsContour` |
| CorticalBreakDetection/CorticalBreakDetectionLib/PetersCorticalBreakDetectionLogicCommandLine.py:537-547 | the upper crop amounts subtract the inclusive maximum, so with no z margin the top contour slice is cut off | a contour whose top slice is below the image top loses that slice | measure the upper amounts from max + 1 | not executed; high | `Cropping.MarginAmountsAsWritten`, `Cropping.MarginCropDropsTopSlice`, `CorticalBreaks.SetContourAsWritten`, `PetersBreaks.CommandLineAsWritten` | `Cropping.MarginAmounts`, `Cropping.MarginCropKeepsContour`, `CorticalBreaks.SetContour` |
| ErosionVolume/ErosionVolumeLib/ErosionVolumeLogic.py:116-132 | `erosion_id_max = 0` is reset inside the loop, so every label without a numeric suffix gets id 1 | labels "a" and "b" both get id 1 | number unnumbered seeds after the largest id seen so far | not executed; high | `ErosionVolumeLogic.ErosionIdsAsWritten`, `ErosionVolumeLogic.AsWrittenUnnumberedCollide`, `ErosionVolumeLogic.ErosionIdsCounterexample`, `ErosionVolumeLogic.SetErosionParameters` | `ErosionVolumeLogic.ErosionIds`, `ErosionVolumeLogic.SetErosionParametersCorrected` |
| CorticalBreakDetection/CorticalBreakDetectionLib/CorticalBreakDetectionLogic.py:227-250 | both out-of-range shares divide an array's size by the same size, so each is 1 and the check never accepts | any non-empty scan is reported as not in Hounsfield units | the shares count only the voxels above and below the range | not executed; high | `BreakDetectionLogic.IntensityCheckAsWritten`, `BreakDetectionLogic.IntensityNeverHounsfield` | `BreakDetectionLogic.IntensityCheck`, `BreakDetectionLogic.IntensityCheckAccepts` |
| AutomaticContour/AutomaticContourLib/BatchContourLogic.py:72-80 | `splitext` keeps the leading dot, and ".mha" is compared with "mha" and "nii" | "scan.mha" is skipped, so no file is processed | compare the extension without its dot | not executed; high | `CommandPaths.AcceptsAsWritten`, `CommandPaths.ScanSkipped` | `CommandPaths.Accepts`, `CommandPaths.AcceptsExtension` |
| AutomaticContour/AutomaticContourLib/ormir_xct/util/segmentation_evaluation.py:56-77 | the zero-padded list is stored in a misspelled variable and the unpadded list is returned | a surface voxel lying on the other surface has distance 0 and is dropped | return the padded list, zeros included | not executed; medium | `SegmentationEvaluation.DistanceListAsWritten`, `SegmentationEvaluation.OverlapDropped` | `SegmentationEvaluation.DistanceList` |
| Training/Training.py:493-559 | an unmapped seed sets only `sim_flag`, and the message depends on `error_flag` alone | one seed that matches no reference erosion still gives "Success!" | an unmapped seed is an error | not executed; medium | `TrainingWidget.FeedbackAsWritten`, `TrainingWidget.UnmappedSeedSucceeds` | `TrainingWidget.CorrectedFeedback` |
| CorticalBreakDetection/CorticalBreakDetectionLib/CorticalBreakDetectionLogic.py:124-176 | the voxel size is passed in micrometres, and the CBCT logic scales by 0.082 / voxelSize, which expects millimetres | a voxel size of 0.082 mm gives a minimum break size of 0 voxels | the same size rule in both units | not executed; medium | `BreakDetectionLogic.SetCorticalBreaksParametersAsWritten`, `BreakDetectionLogic.CbctLimitAsWritten` | `BreakDetectionLogic.SetCorticalBreaksParameters`, `BreakDetectionLogic.CbctLimitCorrected` |
| AutomaticContour/AutomaticContourLib/ContourLogic.py:396-401 | getStepNum reads `self.stepNum`, which the constructor never sets | getStepNum on a fresh object raises AttributeError | a defined step count before setBoneNum | not executed; medium | `ContourLogic.GetStepNumAsWritten`, `ContourLogic.GetStepNumFreshFails` | `ContourLogic.GetStepNum` |
| ErosionDetection/ErosionDetectionLib/Erosion.py:153-191 | the cropped result is pasted onto the overwritten `void_volume_img`, so the step returns a cropped image | with the box at the origin the step returns the crop of its input, and the distance selection is lost | paste the selection back into the full image | not executed; high | `ErosionSteps.DistanceVoidAsWritten`, `ErosionSteps.DistanceAsWrittenReturnsCrop`, `ErosionSteps.DistanceAsWrittenShrinks` | `ErosionSteps.DistanceVoid` |
| ErosionDetection/ErosionDetectionLib/ErosionDetectionLogic.py:59-125 | it calls `setErosionIds`, which the erosion detection VoidVolumeLogic does not define | any valid call raises AttributeError once the checks pass | set the erosion ids on the void-volume logic | not executed; high | `ErosionDetectionLogic.SetErosionParametersAsWritten`, `ErosionDetectionLogic.SetErosionParametersCounterexample` | `ErosionDetectionLogic.SetErosionParameters` |
| CorticalBreakDetection/CorticalBreakDetectionLib/PetersCorticalBreakDetectionLogicCommandLine.py:552-556 | the bone count is the label count of the connected-component image, which includes background label 0 | one bone in an image with background counts as 2 | the number of components | not executed; medium | `CorticalBreaks.BoneNumAsWritten`, `CorticalBreaks.BoneNumCountsBackground`, `CorticalBreaks.SetContourAsWritten` | `CorticalBreaks.BoneNum`, `CorticalBreaks.SetContour` |
| CorticalBreakDetection/CorticalBreakDetectionLib/CBCTCorticalBreakDetectionLogic.py:533-540 | the command line starts its loop at step 2 before any segmentation exists | every command-line run raises in the first step | start at step 1 | not executed; high | `CbctBreaks.CommandLineAsWritten`, `CbctBreaks.NewAsWritten` | `CbctBreaks.CommandLineRun` |
| AutomaticContour/AutomaticContourLib/ormir_xct/autocontour/AutocontourKnee.py:648 | the and-not takes a bitwise and of the mask with a 0/1 image, so an even `in_value` yields an empty result | in_value 2 turns mask-and-not-other into an empty mask | mask times the inverted other mask | not executed; medium | `AutocontourKnee.AndNotAsWritten`, `AutocontourKnee.AndNotEven`, `AutocontourKnee.EvenForegroundLosesDifference` | `AutocontourKnee.AndNot` |
| AutomaticContour/AutomaticContourLib/ormir_xct/autocontour/autocontour_gobj.py:57-63 | the proximal mask is contoured from the distal-masked image | the proximal bone contour lies in the distal GOBJ | contour each bone from its own GOBJ | not executed; medium | `AutocontourGobj.ContoursAsWritten`, `AutocontourGobj.SwappedBones`, `AutocontourGobj.Gobj` | `AutocontourGobj.Contours`, `AutocontourGobj.GobjCorrected` |
| ErosionVolume/ErosionVolumeLib/MarkupsTable.py:211-245 | the restore reads the bone index from the label column and the interruption type from the bone column | returning to a node with one control point raises, because the label text is not an index | read each combo-box index from the column it was saved in | not executed; medium | `VolumeMarkupsTable.RestoreAsWritten`, `VolumeMarkupsTable.RestoreAsWrittenRaises`, `VolumeMarkupsTable.RestoreExample` | `VolumeMarkupsTable.RestoreChoices`, `VolumeMarkupsTable.RestoreRoundTrip` |
| ErosionVolume/Testing/ErosionVolumeTestLogic.py:35 | `root.contains` is not a str method | every call raises AttributeError | use `'\\' in root` as in the other test logics | not executed; high | `TestOracles.FilePathAsWritten` | `TestOracles.FilePath` |
| ErosionVolume/Testing/ErosionVolumeTestLogic.py:159-184 | a segment-count mismatch is only printed | an output with fewer segments than the reference can pass | fail on a segment-count mismatch | not executed; medium | `TestOracles.VerifyErosionAsWritten`, `TestOracles.MissingSegmentsPass` | `TestOracles.VerifyErosion` |
| AutomaticContour/AutomaticContourLib/FastContourLogic.py:96 | step 1 calls `self.binarize`, which neither FastContourLogic nor ContourLogic defines (the base class names it `threshold`); step 6 likewise calls an undefined `fillHole`, and steps 2-3 pass the wrong number of arguments | any run: the first call of execute raises AttributeError and resets the step to 0 | call `self.threshold` and the base-class methods with their own parameters | not executed; high | `FastContourLogic.ExecuteAsWritten`, `FastContourLogic.AsWrittenNeverStarts` | `FastContourLogic.Execute`, `FastContourLogic.RunLength` |
