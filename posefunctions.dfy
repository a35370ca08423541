/** `posefunctions.py`: turning the network's heatmaps into one optional
    pixel location per body part (`findBodyPartPositions`), and drawing the
    skeleton between detected parts (`drawSkeleton`). The body-part
    catalogue `BODY_PARTS` (name to channel index) and the list
    `POSE_PAIRS` (pairs of names), module globals in the program, are
    parameters here. */
module PoseFunctions {
  import opened PoseTypes
  import opened OpenCv

  /** A pose pair: the names of the two body parts a skeleton edge joins. */
  type PosePair = (string, string)

  /** Line colour, line thickness, marker axes and marker colour used by `drawSkeleton`. */
  const LineColor: Bgr := Bgr(0, 255, 255)
  const LineThickness: int := 4
  const MarkerAxes: (int, int) := (3, 3)
  const MarkerColor: Bgr := Bgr(0, 0, 255)

  /** The caller's `locations` list, which extraction appends to. */
  class LocationList {
    var entries: seq<Option<Point>>

    constructor ()
      ensures entries == []
    {
      entries := [];
    }

    /** `locations.append(e)`. */
    method Append(e: Option<Point>)
      modifies this
      ensures entries == old(entries) + [e]
    {
      entries := entries + [e];
    }
  }

  // ---------------------------------------------------------------------
  // Extraction

  /** `int((imageDim * loc) / outputDim)` on non-negative operands: the
      grid coordinate `loc` rescaled to image space and truncated. */
  function Scale(imageDim: nat, loc: nat, outputDim: nat): (v: nat)
    requires outputDim > 0
    ensures v * outputDim <= imageDim * loc < (v + 1) * outputDim
  {
    imageDim * loc / outputDim
  }

  /** A coordinate inside the heatmap lands inside the image. */
  lemma ScaleInRange(imageDim: nat, loc: nat, outputDim: nat)
    requires 0 < imageDim && loc < outputDim
    ensures Scale(imageDim, loc, outputDim) < imageDim
  {
  }

  /** A heatmap location `(column, row)` rescaled into image space, each
      axis independently. */
  function ScalePoint(loc: Point, imageW: nat, imageH: nat, outputW: nat, outputH: nat): (p: Point)
    requires loc.x >= 0 && loc.y >= 0 && outputW > 0 && outputH > 0
    ensures p.x >= 0 && p.x * outputW <= imageW * loc.x < (p.x + 1) * outputW
    ensures p.y >= 0 && p.y * outputH <= imageH * loc.y < (p.y + 1) * outputH
  {
    Point(Scale(imageW, loc.x, outputW), Scale(imageH, loc.y, outputH))
  }

  /** Some cell of the heatmap strictly beats the threshold. */
  ghost predicate AboveThreshold(g: Grid, thresh: real)
  {
    exists r, c | 0 <= r < |g| && 0 <= c < |g[r]| :: g[r][c] > thresh
  }

  /** The entry one loop iteration of `findBodyPartPositions` appends for
      heatmap slice `g`: the rescaled location of its maximum when that
      maximum is strictly above `thresh`, `None` otherwise. */
  function ChannelEntry(g: Grid, imageW: nat, imageH: nat, outputW: nat, outputH: nat,
                        thresh: real): (e: Option<Point>)
    requires IsGrid(g) && outputW > 0 && outputH > 0
    ensures e.Some? <==> AboveThreshold(g, thresh)
  {
    var m := MaxLoc(g);
    if m.value > thresh then Some(ScalePoint(m.loc, imageW, imageH, outputW, outputH)) else None
  }

  /** The entries `findBodyPartPositions` appends for channels `0 .. n-1`
      of batch 0, in channel order. */
  function Extract(t: Tensor, n: nat, imageW: nat, imageH: nat, outputW: nat, outputH: nat,
                   thresh: real): (r: seq<Option<Point>>)
    requires HasChannels(t, n) && outputW > 0 && outputH > 0
    ensures |r| == n
  {
    if n == 0 then []
    else Extract(t, n - 1, imageW, imageH, outputW, outputH, thresh)
         + [ChannelEntry(t[0][n - 1], imageW, imageH, outputW, outputH, thresh)]
  }

  /** Entry `i` of the extraction belongs to channel `i`. */
  lemma {:induction false} ExtractAt(t: Tensor, n: nat, imageW: nat, imageH: nat, outputW: nat,
                                     outputH: nat, thresh: real, i: nat)
    requires HasChannels(t, n) && outputW > 0 && outputH > 0 && i < n
    ensures Extract(t, n, imageW, imageH, outputW, outputH, thresh)[i]
            == ChannelEntry(t[0][i], imageW, imageH, outputW, outputH, thresh)
  {
    if i < n - 1 {
      ExtractAt(t, n - 1, imageW, imageH, outputW, outputH, thresh, i);
    }
  }

  /** Entry `i` is present exactly when some cell of channel `i` is strictly
      above the threshold (a maximum equal to the threshold gives `None`);
      a present entry is the rescaled first maximum of that channel. */
  lemma ExtractEntry(t: Tensor, n: nat, imageW: nat, imageH: nat, outputW: nat,
                     outputH: nat, thresh: real, i: nat)
    requires HasChannels(t, n) && outputW > 0 && outputH > 0 && i < n
    ensures var e := Extract(t, n, imageW, imageH, outputW, outputH, thresh)[i];
            var m := MaxLoc(t[0][i]);
            (e.Some? <==> AboveThreshold(t[0][i], thresh)) &&
            (e.None? <==> forall r, c | 0 <= r < |t[0][i]| && 0 <= c < |t[0][i][r]| :: t[0][i][r][c] <= thresh) &&
            (e.Some? ==> IsMaxLoc(t[0][i], m.loc) && m.value > thresh &&
                         e.value == ScalePoint(m.loc, imageW, imageH, outputW, outputH))
  {
    ExtractAt(t, n, imageW, imageH, outputW, outputH, thresh, i);
  }

  /** Channel `i`'s entry depends on nothing but `nnoutput[0, i, :, :]`. */
  lemma {:induction false} ExtractReadsOnlySlices(t: Tensor, u: Tensor, n: nat, imageW: nat,
                                                  imageH: nat, outputW: nat, outputH: nat, thresh: real)
    requires HasChannels(t, n) && HasChannels(u, n) && outputW > 0 && outputH > 0
    requires forall i | 0 <= i < n :: t[0][i] == u[0][i]
    ensures Extract(t, n, imageW, imageH, outputW, outputH, thresh)
            == Extract(u, n, imageW, imageH, outputW, outputH, thresh)
  {
    if n > 0 {
      ExtractReadsOnlySlices(t, u, n - 1, imageW, imageH, outputW, outputH, thresh);
    }
  }

  /** When every slice fits in an `outputW` by `outputH` heatmap and the image
      is not empty, every present entry is a pixel of the image. */
  lemma ExtractInImage(t: Tensor, n: nat, imageW: nat, imageH: nat, outputW: nat,
                       outputH: nat, thresh: real)
    requires HasChannels(t, n) && outputW > 0 && outputH > 0 && imageW > 0 && imageH > 0
    requires forall i | 0 <= i < n :: |t[0][i]| <= outputH && |t[0][i][0]| <= outputW
    ensures forall i | 0 <= i < n && Extract(t, n, imageW, imageH, outputW, outputH, thresh)[i].Some? ::
              InImage(Extract(t, n, imageW, imageH, outputW, outputH, thresh)[i].value, imageW, imageH)
  {
    var r := Extract(t, n, imageW, imageH, outputW, outputH, thresh);
    forall i | 0 <= i < n && r[i].Some?
      ensures InImage(r[i].value, imageW, imageH)
    {
      ExtractAt(t, n, imageW, imageH, outputW, outputH, thresh, i);
      var loc := MaxLoc(t[0][i]).loc;
      ScaleInRange(imageW, loc.x, outputW);
      ScaleInRange(imageH, loc.y, outputH);
    }
  }

  /** `findBodyPartPositions`: for each catalogue channel, in order, append
      the rescaled maximum location if it beats `thresh`, `None` otherwise. */
  method FindBodyPartPositions(locations: LocationList, nnoutput: Tensor, bodyParts: map<string, nat>,
                               imageW: nat, imageH: nat, outputW: nat, outputH: nat, thresh: real)
    requires HasChannels(nnoutput, |bodyParts|) && outputW > 0 && outputH > 0
    modifies locations
    ensures locations.entries
            == old(locations.entries) + Extract(nnoutput, |bodyParts|, imageW, imageH, outputW, outputH, thresh)
  {
    for i := 0 to |bodyParts|
      invariant locations.entries
                == old(locations.entries) + Extract(nnoutput, i, imageW, imageH, outputW, outputH, thresh)
    {
      var heatMap := nnoutput[0][i];
      var m := MaxLoc(heatMap);
      var w := Scale(imageW, m.loc.x, outputW);
      var h := Scale(imageH, m.loc.y, outputH);
      if m.value > thresh {
        locations.Append(Some(Point(w, h)));
      } else {
        locations.Append(None);
      }
    }
  }

  // ---------------------------------------------------------------------
  // Skeleton drawing

  /** The lookups `drawSkeleton` makes for `pair` succeed: both names are in
      the catalogue, the first index is in range, and the second index is in
      range whenever its lookup happens, that is when the first entry is
      present (the `and` in the test short-circuits on `None`). */
  predicate Resolves(bodyParts: map<string, nat>, pair: PosePair, locations: seq<Option<Point>>)
  {
    pair.0 in bodyParts && pair.1 in bodyParts && bodyParts[pair.0] < |locations| &&
    (locations[bodyParts[pair.0]].Some? ==> bodyParts[pair.1] < |locations|)
  }

  /** Every pose pair can be looked up, as `drawSkeleton` needs of its caller. */
  predicate PairsResolve(bodyParts: map<string, nat>, posePairs: seq<PosePair>, locations: seq<Option<Point>>)
  {
    forall p | p in posePairs :: Resolves(bodyParts, p, locations)
  }

  /** The filled circle `drawSkeleton` puts on a joint. */
  function MarkerAt(p: Point): (op: DrawOp)
  {
    Ellipse(p, MarkerAxes, 0, 0, 360, MarkerColor, FILLED)
  }

  /** The line `drawSkeleton` draws between two joints. */
  function LineBetween(p: Point, q: Point): (op: DrawOp)
  {
    Line(p, q, LineColor, LineThickness)
  }

  /** Both endpoints of `pair` were detected (a tuple is truthy, `None` is not). */
  predicate BothPresent(locations: seq<Option<Point>>, bodyParts: map<string, nat>, pair: PosePair)
    requires Resolves(bodyParts, pair, locations)
  {
    locations[bodyParts[pair.0]].Some? && locations[bodyParts[pair.1]].Some?
  }

  /** What one iteration of `drawSkeleton` draws for `pair`: nothing unless
      both endpoints are present, and then a line with a marker on each of
      its two ends. */
  function PairOps(locations: seq<Option<Point>>, bodyParts: map<string, nat>, pair: PosePair): (ops: seq<DrawOp>)
    requires Resolves(bodyParts, pair, locations)
    ensures ops != [] <==> BothPresent(locations, bodyParts, pair)
    ensures ops != [] ==> |ops| == 3 && ops[0].Line? && ops[1].Ellipse? && ops[2].Ellipse? &&
                          ops[1].center == ops[0].pt1 && ops[2].center == ops[0].pt2
  {
    if BothPresent(locations, bodyParts, pair) then
      var a := locations[bodyParts[pair.0]].value;
      var b := locations[bodyParts[pair.1]].value;
      [LineBetween(a, b), MarkerAt(a), MarkerAt(b)]
    else []
  }

  /** Every prefix of resolvable pose pairs is resolvable. */
  lemma PrefixResolves(bodyParts: map<string, nat>, posePairs: seq<PosePair>,
                       locations: seq<Option<Point>>, k: nat)
    requires PairsResolve(bodyParts, posePairs, locations) && k <= |posePairs|
    ensures PairsResolve(bodyParts, posePairs[..k], locations)
  {
    forall p | p in posePairs[..k] ensures Resolves(bodyParts, p, locations) {
      var j :| 0 <= j < k && posePairs[..k][j] == p;
      assert posePairs[j] == p;
    }
  }

  /** Everything `drawSkeleton` draws, pair by pair in `POSE_PAIRS` order. */
  function SkeletonOps(locations: seq<Option<Point>>, bodyParts: map<string, nat>,
                       posePairs: seq<PosePair>): (ops: seq<DrawOp>)
    requires PairsResolve(bodyParts, posePairs, locations)
    ensures |ops| <= 3 * |posePairs|
    decreases |posePairs|
  {
    if posePairs == [] then []
    else
      var k := |posePairs| - 1;
      PrefixResolves(bodyParts, posePairs, locations, k);
      SkeletonOps(locations, bodyParts, posePairs[..k]) + PairOps(locations, bodyParts, posePairs[k])
  }

  /** The pose pairs whose two endpoints are both present, in `POSE_PAIRS` order. */
  function DrawnPairs(locations: seq<Option<Point>>, bodyParts: map<string, nat>,
                      posePairs: seq<PosePair>): (drawn: seq<PosePair>)
    requires PairsResolve(bodyParts, posePairs, locations)
    ensures |drawn| <= |posePairs| && forall p | p in drawn :: p in posePairs
    decreases |posePairs|
  {
    if posePairs == [] then []
    else
      var k := |posePairs| - 1;
      PrefixResolves(bodyParts, posePairs, locations, k);
      DrawnPairs(locations, bodyParts, posePairs[..k])
      + (if BothPresent(locations, bodyParts, posePairs[k]) then [posePairs[k]] else [])
  }

  /** A pair is drawn exactly when it is a pose pair with both endpoints present. */
  lemma {:induction false} DrawnPairsExactly(locations: seq<Option<Point>>, bodyParts: map<string, nat>,
                                             posePairs: seq<PosePair>, p: PosePair)
    requires PairsResolve(bodyParts, posePairs, locations)
    ensures p in DrawnPairs(locations, bodyParts, posePairs)
            <==> p in posePairs && BothPresent(locations, bodyParts, p)
  {
    if posePairs != [] {
      var k := |posePairs| - 1;
      PrefixResolves(bodyParts, posePairs, locations, k);
      DrawnPairsExactly(locations, bodyParts, posePairs[..k], p);
      assert posePairs == posePairs[..k] + [posePairs[k]];
    }
  }

  /** Three operations per pair with both endpoints present, none for the others. */
  lemma {:induction false} SkeletonOpsCount(locations: seq<Option<Point>>, bodyParts: map<string, nat>,
                                            posePairs: seq<PosePair>)
    requires PairsResolve(bodyParts, posePairs, locations)
    ensures |SkeletonOps(locations, bodyParts, posePairs)| == 3 * |DrawnPairs(locations, bodyParts, posePairs)|
  {
    if posePairs != [] {
      var k := |posePairs| - 1;
      PrefixResolves(bodyParts, posePairs, locations, k);
      SkeletonOpsCount(locations, bodyParts, posePairs[..k]);
    }
  }

  /** The `j`-th drawn pair contributes operations `3j`, `3j+1` and `3j+2`:
      the line between its endpoints, then a marker on each endpoint. */
  lemma {:induction false} SkeletonOpsAt(locations: seq<Option<Point>>, bodyParts: map<string, nat>,
                                         posePairs: seq<PosePair>, j: nat)
    requires PairsResolve(bodyParts, posePairs, locations)
    requires j < |DrawnPairs(locations, bodyParts, posePairs)|
    ensures var d := DrawnPairs(locations, bodyParts, posePairs)[j];
            var ops := SkeletonOps(locations, bodyParts, posePairs);
            Resolves(bodyParts, d, locations) && BothPresent(locations, bodyParts, d) &&
            3 * j + 2 < |ops| &&
            ops[3 * j] == LineBetween(locations[bodyParts[d.0]].value, locations[bodyParts[d.1]].value) &&
            ops[3 * j + 1] == MarkerAt(locations[bodyParts[d.0]].value) &&
            ops[3 * j + 2] == MarkerAt(locations[bodyParts[d.1]].value)
  {
    var k := |posePairs| - 1;
    PrefixResolves(bodyParts, posePairs, locations, k);
    var front := DrawnPairs(locations, bodyParts, posePairs[..k]);
    SkeletonOpsCount(locations, bodyParts, posePairs[..k]);
    SkeletonOpsCount(locations, bodyParts, posePairs);
    if j < |front| {
      SkeletonOpsAt(locations, bodyParts, posePairs[..k], j);
    } else {
      assert posePairs[k] in posePairs;
    }
  }

  /** The points an operation draws at. */
  predicate OpInImage(op: DrawOp, width: int, height: int)
  {
    match op
    case Line(p, q, _, _) => InImage(p, width, height) && InImage(q, width, height)
    case Ellipse(c, _, _, _, _, _, _) => InImage(c, width, height)
  }

  /** If every detected location is a pixel of the image, so is every point
      the skeleton is drawn at. */
  lemma {:induction false} SkeletonOpsInImage(locations: seq<Option<Point>>, bodyParts: map<string, nat>,
                                              posePairs: seq<PosePair>, width: int, height: int)
    requires PairsResolve(bodyParts, posePairs, locations)
    requires forall i | 0 <= i < |locations| && locations[i].Some? :: InImage(locations[i].value, width, height)
    ensures forall k | 0 <= k < |SkeletonOps(locations, bodyParts, posePairs)| ::
              OpInImage(SkeletonOps(locations, bodyParts, posePairs)[k], width, height)
  {
    if posePairs != [] {
      var k := |posePairs| - 1;
      PrefixResolves(bodyParts, posePairs, locations, k);
      SkeletonOpsInImage(locations, bodyParts, posePairs[..k], width, height);
      assert posePairs[k] in posePairs;
      var front := SkeletonOps(locations, bodyParts, posePairs[..k]);
      var last := PairOps(locations, bodyParts, posePairs[k]);
      assert forall j | 0 <= j < |last| :: OpInImage(last[j], width, height);
      assert SkeletonOps(locations, bodyParts, posePairs) == front + last;
      forall j | 0 <= j < |front + last| ensures OpInImage((front + last)[j], width, height) {
        if j < |front| {
          assert (front + last)[j] == front[j];
          assert OpInImage(front[j], width, height);
        } else {
          assert (front + last)[j] == last[j - |front|];
          assert OpInImage(last[j - |front|], width, height);
        }
      }
    }
  }

  /** `drawSkeleton`: for each pose pair in order, when both endpoints are
      present, draw the line between them and a marker on each; `locations`
      is only read. */
  method DrawSkeleton(locations: LocationList, image: Canvas, bodyParts: map<string, nat>,
                      posePairs: seq<PosePair>)
    requires PairsResolve(bodyParts, posePairs, locations.entries)
    modifies image
    ensures image.ops == old(image.ops) + SkeletonOps(locations.entries, bodyParts, posePairs)
    ensures locations.entries == old(locations.entries)
  {
    for k := 0 to |posePairs|
      invariant PairsResolve(bodyParts, posePairs[..k], locations.entries)
      invariant image.ops == old(image.ops) + SkeletonOps(locations.entries, bodyParts, posePairs[..k])
    {
      var pair := posePairs[k];
      assert pair in posePairs;
      PrefixResolves(bodyParts, posePairs, locations.entries, k + 1);
      assert posePairs[..k + 1][..k] == posePairs[..k];
      assert SkeletonOps(locations.entries, bodyParts, posePairs[..k + 1])
             == SkeletonOps(locations.entries, bodyParts, posePairs[..k])
                + PairOps(locations.entries, bodyParts, pair);
      var idxFrom := bodyParts[pair.0];
      var idxTo := bodyParts[pair.1];
      if locations.entries[idxFrom].Some? && locations.entries[idxTo].Some? {
        image.DrawLine(locations.entries[idxFrom].value, locations.entries[idxTo].value, LineColor, LineThickness);
        image.DrawEllipse(locations.entries[idxFrom].value, MarkerAxes, 0, 0, 360, MarkerColor, FILLED);
        image.DrawEllipse(locations.entries[idxTo].value, MarkerAxes, 0, 0, 360, MarkerColor, FILLED);
      }
    }
    assert posePairs[..|posePairs|] == posePairs;
  }

  // ---------------------------------------------------------------------
  // Worked example: three parts, one pair (A, B), 2x2 heatmaps, a 10x10 frame, threshold 0.5

  const ExampleParts: map<string, nat> := map["A" := 0, "B" := 1, "C" := 2]
  const ExamplePairs: seq<PosePair> := [("A", "B")]

  /** Part A peaks at 0.9 in cell (1, 1) and is found at (5, 5); part B
      peaks at 0.3 and is absent, so the pair draws nothing. */
  lemma ExampleOneAbsent()
    ensures var t := [[ [[0.1, 0.2], [0.3, 0.9]], [[0.3, 0.1], [0.1, 0.2]], [[0.0, 0.0], [0.0, 0.0]] ]];
            var locs := Extract(t, 3, 10, 10, 2, 2, 0.5);
            locs == [Some(Point(5, 5)), None, None] &&
            PairsResolve(ExampleParts, ExamplePairs, locs) &&
            SkeletonOps(locs, ExampleParts, ExamplePairs) == []
  {
    var t := [[ [[0.1, 0.2], [0.3, 0.9]], [[0.3, 0.1], [0.1, 0.2]], [[0.0, 0.0], [0.0, 0.0]] ]];
    assert MaxLoc(t[0][0]).loc == Point(1, 1);
    assert MaxLoc(t[0][1]).value == 0.3;
    assert MaxLoc(t[0][2]).value == 0.0;
    assert ExamplePairs[..0] == [];
  }

  /** The test's `and` stops at an absent first endpoint: with B absent, a
      pair (B, D) whose D index lies past the end of the list is still
      looked up safely and draws nothing. */
  lemma ExampleShortCircuit()
    ensures var locs := [Some(Point(5, 5)), None, None];
            var parts := map["A" := 0, "B" := 1, "D" := 5];
            PairsResolve(parts, [("B", "D")], locs) &&
            !(parts["D"] < |locs|) &&
            SkeletonOps(locs, parts, [("B", "D")]) == []
  {
  }

  /** Part B instead peaks at 0.6 in cell (0, 1) and is found at (0, 5):
      one line from (5, 5) to (0, 5) and a marker on each end. */
  lemma ExampleBothPresent()
    ensures var t := [[ [[0.1, 0.2], [0.3, 0.9]], [[0.1, 0.2], [0.6, 0.3]], [[0.0, 0.0], [0.0, 0.0]] ]];
            var locs := Extract(t, 3, 10, 10, 2, 2, 0.5);
            locs == [Some(Point(5, 5)), Some(Point(0, 5)), None] &&
            PairsResolve(ExampleParts, ExamplePairs, locs) &&
            SkeletonOps(locs, ExampleParts, ExamplePairs)
            == [LineBetween(Point(5, 5), Point(0, 5)), MarkerAt(Point(5, 5)), MarkerAt(Point(0, 5))]
  {
    var t := [[ [[0.1, 0.2], [0.3, 0.9]], [[0.1, 0.2], [0.6, 0.3]], [[0.0, 0.0], [0.0, 0.0]] ]];
    assert MaxLoc(t[0][0]).loc == Point(1, 1);
    assert MaxLoc(t[0][1]).loc == Point(0, 1);
    assert MaxLoc(t[0][2]).value == 0.0;
    assert ExamplePairs[..0] == [];
  }
}
