# Pose estimation: heatmap peaks and skeleton drawing

The program reads video frames, runs a pretrained pose network through
OpenCV's DNN module, and annotates each frame. The logic it adds on top of
the library is small and is what this project models and proves:

- **`findBodyPartPositions`** takes the network output `nnoutput` (shape
  batch × channel × rows × columns). For each body part of the catalogue
  `BODY_PARTS` it takes channel `i` of batch 0 and locates its maximum with
  `cv.minMaxLoc`. It then rescales the `(column, row)` location to image
  pixels by `int(imageDim * loc / outputDim)`, one axis at a time. It
  appends the point to the caller's `locations` list when the maximum is
  strictly above `thresh`, and `None` otherwise.
- **`drawSkeleton`** walks `POSE_PAIRS` in order and looks both names up in
  `BODY_PARTS`. When both locations are present it draws a line between them
  and a filled circle on each end.
- **The frame step of `poseest.py`** reads the heatmap size from the
  tensor's shape (`shape[3]` columns, `shape[2]` rows). It starts an empty
  `locations` list, extracts, and draws on the frame. `poseest.py` holds a
  word-for-word copy of both functions. The copies are modelled once, in
  `PoseFunctions`, and `PoseEst` uses them.

Files and modules:

- `types.dfy` (`PoseTypes`): `Option`, `Point`, the `Grid` and `Tensor`
  types, and their shape predicates.
- `opencv.dfy` (`OpenCv`): the library behaviour the code relies on.
  `MaxLoc` is the maximum half of `cv.minMaxLoc`. `Canvas` is the frame;
  it logs `cv.line` and `cv.ellipse` calls as draw operations.
- `posefunctions.dfy` (`PoseFunctions`): the `locations` list as a class,
  the extraction and its specification `Extract`, and the drawing and its
  specification `SkeletonOps`, with the lemmas about both.
- `poseest.dfy` (`PoseEst`): the tensor shape, the per-frame sequence
  `ProcessFrame`, and lemmas about a whole frame.

`BODY_PARTS` and `POSE_PAIRS` live in a module `posesetup`, which is not
part of this model. Both are parameters here: a `map<string, nat>` and a
sequence of name pairs. `IsCatalogue` states the assumption made about
them: every index is below the catalogue's size, and every pair names two
catalogued parts.

`findBodyPartPositions` returns nothing: it appends to a list the caller
passes in. `FindBodyPartPositions` does the same to a `LocationList`
object, and its contract keeps the entries already there.

## Model

| member | source | states |
|---|---|---|
| `OpenCv.RowArgMax` | posefunctions.py:29 | the index returned is in range, holds a value at least every other element of the row, and every earlier element is strictly smaller (the first maximum) |
| `OpenCv.MaxLoc` | posefunctions.py:26-29 | the returned `(column, row)` lies in the grid, holds a value at least every cell's, comes first in row-major order among the maximal cells, and the returned value is that cell's |
| `OpenCv.MaxLocUnique` | posefunctions.py:29 | the maximum-and-first-in-scan property determines the location, so the tie-break leaves nothing open |
| `OpenCv.Canvas.constructor` | poseest.py:87-95 | a frame has a fixed width and height and nothing drawn on it yet |
| `OpenCv.Canvas.DrawLine` | posefunctions.py:51 | `cv.line` appends exactly one line with the given endpoints, colour and thickness to what was drawn before |
| `OpenCv.Canvas.DrawEllipse` | posefunctions.py:56-59 | `cv.ellipse` appends exactly one ellipse with the given arguments to what was drawn before |
| `PoseFunctions.LocationList.constructor` | poseest.py:119 | a new `locations` list is empty |
| `PoseFunctions.LocationList.Append` | posefunctions.py:37-39 | `append` adds one entry at the end and keeps the earlier entries |
| `PoseFunctions.Scale` | posefunctions.py:32-33 | the rescaled coordinate `v` is the truncated quotient: `v * outputDim <= imageDim * loc < (v + 1) * outputDim` |
| `PoseFunctions.ScaleInRange` | posefunctions.py:32-33 | a heatmap coordinate below `outputDim` rescales to one below `imageDim` when the image is not empty |
| `PoseFunctions.ScalePoint` | posefunctions.py:32-33 | each axis is rescaled on its own: `x * outputW <= imageW * mx < (x + 1) * outputW` and `y * outputH <= imageH * my < (y + 1) * outputH`, the floor contract of `Scale` per axis |
| `PoseFunctions.ChannelEntry` | posefunctions.py:24-39 | one channel's entry is present exactly when some cell of the channel is strictly above the threshold |
| `PoseFunctions.Extract` | posefunctions.py:21-39 | the extraction yields exactly one entry per catalogue channel |
| `PoseFunctions.ExtractAt` | posefunctions.py:21-24 | entry `i` of the extraction is the entry for channel `i` of batch 0 |
| `PoseFunctions.ExtractEntry` | posefunctions.py:29-39 | entry `i` is present iff some cell beats the threshold, and `None` iff every cell is at most the threshold (so a maximum equal to it gives `None`); a present entry is `(floor(imageW*mx/outputW), floor(imageH*my/outputH))` for the first maximum `(mx, my)`, whose value is above the threshold |
| `PoseFunctions.ExtractReadsOnlySlices` | posefunctions.py:24 | two tensors whose slices `[0, i, :, :]` agree for every catalogue channel give the same entries, so nothing else of the tensor is read |
| `PoseFunctions.ExtractInImage` | posefunctions.py:32-37 | when every slice fits in `outputW` × `outputH` and the image is not empty, every present entry is a pixel of the image |
| `PoseFunctions.FindBodyPartPositions` | posefunctions.py:20-39 | the caller's list keeps its old entries and gains exactly the extraction's entries after them, in channel order |
| `PoseFunctions.PairOps` | posefunctions.py:48-59 | one loop iteration draws something exactly when both endpoints are present, and then three operations: a line, and a marker on its first and on its second endpoint; `SkeletonOpsAt` places them in the whole drawing |
| `PoseFunctions.SkeletonOps` | posefunctions.py:42-59 | everything the loop draws, at most three operations per pose pair; `SkeletonOpsCount` gives the exact count and `SkeletonOpsAt` each operation in `POSE_PAIRS` order |
| `PoseFunctions.DrawnPairs` | posefunctions.py:42-48 | the pairs that get drawn, no more of them than pose pairs, each one a pose pair; `DrawnPairsExactly` shows these are exactly the pairs with both endpoints present |
| `PoseFunctions.DrawnPairsExactly` | posefunctions.py:42-48 | a pair is among the drawn pairs iff it is a pose pair whose two endpoints are both present (`None` is the only falsy entry) |
| `PoseFunctions.SkeletonOpsCount` | posefunctions.py:42-59 | the number of draw operations is three times the number of pairs with both endpoints present |
| `PoseFunctions.SkeletonOpsAt` | posefunctions.py:48-59 | the `j`-th pair with both endpoints present, in `POSE_PAIRS` order, gives operations `3j`, `3j+1` and `3j+2`: the line between its endpoints, then a marker on the first and on the second endpoint |
| `PoseFunctions.SkeletonOpsInImage` | posefunctions.py:48-59 | when every present location is a pixel of the image, every point drawn is too |
| `PoseFunctions.DrawSkeleton` | posefunctions.py:41-59 | given that every lookup the loop makes succeeds (the second index only when the first entry is present), the frame gains exactly the skeleton's operations in `POSE_PAIRS` order after what it held, and `locations` is unchanged |
| `PoseFunctions.ExampleOneAbsent` | posefunctions.py:36-48 | with a 2×2 heatmap, a 10×10 frame and threshold 0.5, a peak of 0.9 at (1, 1) gives (5, 5), a peak of 0.3 gives `None`, and the pair joining them draws nothing |
| `PoseFunctions.ExampleShortCircuit` | posefunctions.py:43-48 | a pair whose first endpoint is absent draws nothing, and its second index need not lie inside `locations`, because the `and` never looks it up |
| `PoseFunctions.ExampleBothPresent` | posefunctions.py:32-59 | in the same setting a second peak of 0.6 at (0, 1) gives (0, 5), and the pair draws the line from (5, 5) to (0, 5) and a marker on each end |
| `PoseEst.OutputW` | poseest.py:115 | `shape[3]` is positive and every row of every channel has that many columns |
| `PoseEst.OutputH` | poseest.py:116 | `shape[2]` is positive and every channel has that many rows |
| `PoseEst.FrameLocations` | poseest.py:119-120 | a frame's list, filled from empty, has exactly one entry per catalogued part |
| `PoseEst.FrameLookupsInRange` | poseest.py:118-143 | with the catalogue's indices, every lookup `drawSkeleton` makes into a frame's list is in range |
| `PoseEst.FrameEntry` | poseest.py:13-32 | entry `i` of a frame is present iff channel `i` has a cell strictly above the threshold; then it is the first maximum scaled by `imageW / shape[3]` and `imageH / shape[2]`, and it is a pixel of the frame |
| `PoseEst.FrameDrawingInImage` | poseest.py:34-52 | every point drawn on a frame lies inside the frame |
| `PoseEst.ProcessFrame` | poseest.py:93-143 | the frame's new `locations` list is exactly the extraction with the frame's own size and the shape's heatmap size, and the frame gains exactly the skeleton's operations for that list |

## Left out

- Network inference (`process`, `cv.dnn.blobFromImage`, `nnet.forward`, `cv.dnn.readNetFromTensorflow`): foreign code. The heatmap tensor is an input. So the `--width` and `--height` options, which only size the network input, do not appear.
- The frame loop (`cv.VideoCapture`, `vidcap.read`, `cv.waitKey`, `cv.imwrite`, `cv.imshow`): I/O and GUI. `ProcessFrame` is one pass of its body. When the first `read` fails, the loop ends before any frame is processed.
- The latency readout (`addFrameInfo`, `getPerfProfile`, `getTickFrequency`, `putText`): float timing arithmetic and text rendering.
- Command-line parsing (`argparse`): the threshold is a parameter.
- The pixels that `cv.line` and `cv.ellipse` change: each call is recorded as one draw operation with its arguments.
- The minimum value and its location, which `cv.minMaxLoc` also returns: the code discards them.
- `OpenCv.MaxLoc`: where several cells hold the maximum, the model assumes the first maximum in row-major order. The code makes no assumption about which maximal cell the library reports.
- Floating point: heatmap values and the threshold are exact reals, with no NaN and no float32 rounding.
- `PoseFunctions.Scale`: Python computes `int(imageDim * loc / outputDim)` through a float. The model uses exact floor division on non-negative integers. The two agree while `imageDim * loc * outputDim` stays below 2^53, which real frame and heatmap sizes do.
- The contents of `posesetup` (`BODY_PARTS`, `POSE_PAIRS`): not part of this model. They are parameters, constrained by `IsCatalogue`.
- Failures the code does not handle (a name missing from `BODY_PARTS`, fewer channels than body parts, a zero heatmap size, and an index past the end of `locations` at a lookup that happens): these are preconditions, because the program would raise an exception there. `PoseFunctions.Resolves` demands the `idxTo` index be in range only when `locations[idxFrom]` is present, since the `and` of the test skips that lookup otherwise. Catalogue indices are `nat`, so Python's negative-index wrap-around does not arise.
- Aliasing: the `locations` list and the frame are separate objects, as they are in the program.
