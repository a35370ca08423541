/** `poseest.py`: the per-frame processing of the command-line program.
    Its copies of `findBodyPartPositions` and `drawSkeleton` are the same
    code as in `posefunctions.py` and are modelled once, in
    `PoseFunctions`. What is added here is the frame sequence: the heatmap
    size is read from the tensor's shape, a fresh `locations` list is
    filled, then the skeleton is drawn on the frame. */
module PoseEst {
  import opened PoseTypes
  import opened OpenCv
  import opened PoseFunctions

  /** An array of shape (1, channels, rows, columns): at least one channel,
      every channel slice a grid of the same size. */
  predicate IsHeatmapTensor(t: Tensor)
  {
    |t| > 0 && |t[0]| > 0 && IsGrid(t[0][0]) &&
    forall i | 0 <= i < |t[0]| ::
      IsGrid(t[0][i]) && |t[0][i]| == |t[0][0]| && |t[0][i][0]| == |t[0][0][0]|
  }

  /** `nnoutput.shape[3]`, the number of heatmap columns. */
  function OutputW(t: Tensor): (w: nat)
    requires IsHeatmapTensor(t)
    ensures w > 0 && forall i | 0 <= i < |t[0]| :: forall r | 0 <= r < |t[0][i]| :: |t[0][i][r]| == w
  {
    |t[0][0][0]|
  }

  /** `nnoutput.shape[2]`, the number of heatmap rows. */
  function OutputH(t: Tensor): (h: nat)
    requires IsHeatmapTensor(t)
    ensures h > 0 && forall i | 0 <= i < |t[0]| :: |t[0][i]| == h
  {
    |t[0][0]|
  }

  /** What the tables in `posesetup` are taken to be: the catalogue maps the
      names onto indices below its size, and every pose pair names two
      catalogued parts. */
  predicate IsCatalogue(bodyParts: map<string, nat>, posePairs: seq<PosePair>)
  {
    (forall name | name in bodyParts :: bodyParts[name] < |bodyParts|) &&
    (forall p | p in posePairs :: p.0 in bodyParts && p.1 in bodyParts)
  }

  /** The list a frame's extraction produces from an empty `locations`. */
  function FrameLocations(t: Tensor, imageW: nat, imageH: nat, thresh: real,
                          bodyParts: map<string, nat>): (r: seq<Option<Point>>)
    requires IsHeatmapTensor(t) && |bodyParts| <= |t[0]|
    ensures |r| == |bodyParts|
  {
    Extract(t, |bodyParts|, imageW, imageH, OutputW(t), OutputH(t), thresh)
  }

  /** After extraction there is one entry per catalogued part, so with the
      catalogue's indices every lookup `drawSkeleton` makes is in range. */
  lemma FrameLookupsInRange(t: Tensor, imageW: nat, imageH: nat, thresh: real,
                            bodyParts: map<string, nat>, posePairs: seq<PosePair>)
    requires IsHeatmapTensor(t) && |bodyParts| <= |t[0]| && IsCatalogue(bodyParts, posePairs)
    ensures PairsResolve(bodyParts, posePairs, FrameLocations(t, imageW, imageH, thresh, bodyParts))
  {
  }

  /** Entry `i` of a frame's locations is present exactly when channel `i`
      holds a value strictly above the threshold, and then it is the first
      maximum of that channel scaled by `imageW / shape[3]` and
      `imageH / shape[2]`, a pixel of the frame. */
  lemma FrameEntry(t: Tensor, imageW: nat, imageH: nat, thresh: real,
                   bodyParts: map<string, nat>, i: nat)
    requires IsHeatmapTensor(t) && |bodyParts| <= |t[0]| && i < |bodyParts|
    requires imageW > 0 && imageH > 0
    ensures var e := FrameLocations(t, imageW, imageH, thresh, bodyParts)[i];
            var m := MaxLoc(t[0][i]);
            (e.Some? <==> AboveThreshold(t[0][i], thresh)) &&
            (e.Some? ==> e.value == ScalePoint(m.loc, imageW, imageH, OutputW(t), OutputH(t)) &&
                         InImage(e.value, imageW, imageH))
  {
    ExtractEntry(t, |bodyParts|, imageW, imageH, OutputW(t), OutputH(t), thresh, i);
    ExtractInImage(t, |bodyParts|, imageW, imageH, OutputW(t), OutputH(t), thresh);
  }

  /** Everything drawn on a frame lies inside it. */
  lemma FrameDrawingInImage(t: Tensor, imageW: nat, imageH: nat, thresh: real,
                            bodyParts: map<string, nat>, posePairs: seq<PosePair>)
    requires IsHeatmapTensor(t) && |bodyParts| <= |t[0]| && IsCatalogue(bodyParts, posePairs)
    requires imageW > 0 && imageH > 0
    ensures PairsResolve(bodyParts, posePairs, FrameLocations(t, imageW, imageH, thresh, bodyParts))
    ensures var locs := FrameLocations(t, imageW, imageH, thresh, bodyParts);
            forall k | 0 <= k < |SkeletonOps(locs, bodyParts, posePairs)| ::
              OpInImage(SkeletonOps(locs, bodyParts, posePairs)[k], imageW, imageH)
  {
    var locs := FrameLocations(t, imageW, imageH, thresh, bodyParts);
    ExtractInImage(t, |bodyParts|, imageW, imageH, OutputW(t), OutputH(t), thresh);
    SkeletonOpsInImage(locs, bodyParts, posePairs, imageW, imageH);
  }

  /** One pass of the frame loop's body up to the drawing: read the heatmap
      size from the shape, start `locations` empty, extract, draw. The image
      size is the frame's own (`image.shape[1]`, `image.shape[0]`). */
  method ProcessFrame(nnoutput: Tensor, image: Canvas, thresh: real,
                      bodyParts: map<string, nat>, posePairs: seq<PosePair>)
    returns (locations: LocationList)
    requires IsHeatmapTensor(nnoutput) && |bodyParts| <= |nnoutput[0]|
    requires IsCatalogue(bodyParts, posePairs)
    modifies image
    ensures fresh(locations)
    ensures locations.entries == FrameLocations(nnoutput, image.width, image.height, thresh, bodyParts)
    ensures image.ops == old(image.ops) + SkeletonOps(locations.entries, bodyParts, posePairs)
  {
    var imageH := image.height;
    var imageW := image.width;
    var outputW := OutputW(nnoutput);
    var outputH := OutputH(nnoutput);
    locations := new LocationList();
    FindBodyPartPositions(locations, nnoutput, bodyParts, imageW, imageH, outputW, outputH, thresh);
    FrameLookupsInRange(nnoutput, imageW, imageH, thresh, bodyParts, posePairs);
    DrawSkeleton(locations, image, bodyParts, posePairs);
  }
}
