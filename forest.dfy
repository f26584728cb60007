/** `create_segmentation`: validates the requested shape, accumulates the
    skeleton seeds in a working volume of twice the shape, crops its centre,
    suppresses non-maximal seeds and bundles the result.

    Randomness and foreign code are parameters: `clouds` are the points the
    random sampler drew for each object, `skeletonOf` the voxels of the
    linear skeleton built over a cloud, `flood` the distance-transform and
    watershed stage (with its noise fixed) and `findBoundaries` the boundary
    detection. */
module Forest {
  import opened Volumes
  import opened Placement
  import opened Border
  import opened Suppression

  datatype Result<T, E> = Success(value: T) | Failure(error: E)

  datatype Error =
    | NotThreeD          // "Provide 3D shape."
    | OddDimension       // "All shape dimensions have to be even."
    | NegativeDimension  // numpy refuses to draw noise of a negative extent
    | EmptySampleRange   // numpy refuses to draw a point from [0, 0)

  /** The requested interpolation; the skeleton is always built "linear". */
  datatype Interpolation = Linear | RandomWalk

  /** The returned mapping {"segmentation", "skeletons", "raw"}; "raw" holds
      the boundary mask. */
  datatype Bundle = Bundle(segmentation: Volume, skeletons: Volume, raw: Volume)

  /** The shape checks: exactly three entries, each of them even. */
  function ValidateShape(shape: seq<int>): (r: Result<Shape, Error>)
    ensures r.Success? <==> |shape| == 3 && forall d :: 0 <= d < 3 ==> shape[d] % 2 == 0
    ensures r.Success? ==> r.value == Shape(shape[0], shape[1], shape[2]) && Even(r.value)
    ensures r.Failure? ==> (r.error == NotThreeD <==> |shape| != 3)
    ensures r.Failure? ==> r.error == NotThreeD || r.error == OddDimension
  {
    if |shape| != 3 then Failure(NotThreeD)
    else if exists d :: 0 <= d < 3 && shape[d] % 2 != 0 then Failure(OddDimension)
    else Success(Shape(shape[0], shape[1], shape[2]))
  }

  /** An accepted shape is cropped back exactly: the slice bounds on each axis
      keep shape[d] indices, centred in the working extent 2 * shape[d]. A
      shape with an odd entry would be cropped off-centre, which is what the
      evenness check prevents. */
  lemma AcceptedShapeCropsToCentre(shape: seq<int>)
    requires ValidateShape(shape).Success?
    requires forall d :: 0 <= d < 3 ==> 0 <= shape[d]
    ensures forall d :: 0 <= d < 3 ==>
              && SliceStop(shape[d]) - SliceStart(shape[d]) == shape[d]
              && SliceStart(shape[d]) == 2 * shape[d] - SliceStop(shape[d])
  {
    forall d | 0 <= d < 3
      ensures SliceStop(shape[d]) - SliceStart(shape[d]) == shape[d]
      ensures SliceStart(shape[d]) == 2 * shape[d] - SliceStop(shape[d])
    {
      SliceKeepsCentre(shape[d]);
    }
  }

  /** An odd extent is not cropped to the centre. */
  lemma OddExtentCropsOffCentre(s: int)
    requires 0 <= s && s % 2 == 1
    ensures SliceStart(s) < 2 * s - SliceStop(s)
  {
    SliceKeepsCentre(s);
  }

  /** The number of iterations of `for i in range(n_objects)`. */
  function Count(nObjects: int): nat {
    if nObjects < 0 then 0 else nObjects
  }

  predicate Positive(s: Shape) {
    0 < s.n0 && 0 < s.n1 && 0 < s.n2
  }

  /** Sampling fails: objects are requested with at least one point each,
      but some axis of the working domain is empty, so numpy has no integer
      in [0, 0) to draw. */
  predicate SamplingFails(s: Shape, nObjects: int, pointsPerSkeleton: nat) {
    0 < nObjects && 0 < pointsPerSkeleton && !Positive(s)
  }

  /** What the random sampler and the skeleton collaborator deliver whenever
      the shape is accepted and sampling succeeds: one cloud per object, each
      holding 8 * pointsPerSkeleton points of the working domain, and a
      skeleton that stays inside that domain. */
  predicate SamplesFit(shape: seq<int>, nObjects: int, pointsPerSkeleton: nat,
                       clouds: seq<Cloud>, skeletonOf: Cloud -> seq<Voxel>)
  {
    var checked := ValidateShape(shape);
    checked.Success? && NonNegative(checked.value) && !SamplingFails(checked.value, nObjects, pointsPerSkeleton) ==>
      var working := Twice(checked.value);
      && |clouds| == Count(nObjects)
      && forall i :: 0 <= i < |clouds| ==>
           Sampled(clouds[i], pointsPerSkeleton, working) && AllInside(skeletonOf(clouds[i]), working)
  }

  /** The "skeletons" volume: the centre crop of the accumulated seeds, with
      non-maximal seeds suppressed. */
  function SeedVolume(shape: Shape, strokes: seq<seq<Voxel>>): (v: Volume)
    requires NonNegative(shape)
    ensures Shaped(v, shape)
  {
    Suppressed(Crop(Accumulated(Twice(shape), strokes), shape), shape)
  }

  /** Voxel (i, j, k) of the cropped seeds holds the label of voxel
      (s0/2 + i, s1/2 + j, s2/2 + k) of the working volume. */
  lemma CropReadsCentreLabels(shape: Shape, strokes: seq<seq<Voxel>>, i: int, j: int, k: int)
    requires NonNegative(shape) && 0 <= i < shape.n0 && 0 <= j < shape.n1 && 0 <= k < shape.n2
    ensures Crop(Accumulated(Twice(shape), strokes), shape)[i][j][k] == LastLabel(strokes, CentreVoxel(shape, i, j, k))
  {
    SliceKeepsCentre(shape.n0);
    SliceKeepsCentre(shape.n1);
    SliceKeepsCentre(shape.n2);
  }

  /** Voxel (i, j, k) of the cropped volume sits at this voxel of the
      working volume. */
  function CentreVoxel(shape: Shape, i: int, j: int, k: int): Voxel
    requires NonNegative(shape)
  {
    Voxel(SliceStart(shape.n0) + i, SliceStart(shape.n1) + j, SliceStart(shape.n2) + k)
  }

  /** `id` is the label of voxel p, object id - 1 drew p, and no later object
      drew it. */
  predicate LabelNamesLastWriter(id: int, strokes: seq<seq<Voxel>>, p: Voxel) {
    && 1 <= id <= |strokes|
    && id == LastLabel(strokes, p)
    && p in strokes[id - 1]
    && forall later :: id <= later < |strokes| ==> p !in strokes[later]
  }

  /** A value that is either 0 or the label of voxel p is a label of the
      last object that drew p. */
  lemma LabelOrZeroNamesLastWriter(id: int, strokes: seq<seq<Voxel>>, p: Voxel)
    requires id == LastLabel(strokes, p) || id == 0
    ensures 0 <= id <= |strokes|
    ensures id > 0 ==> LabelNamesLastWriter(id, strokes, p)
  {
    LastLabelIsLastWriter(strokes, p);
  }

  /** Every voxel of the skeletons volume is 0 or one of the labels 1..n of
      the objects drawn; a non-zero voxel holds the label of the last object
      whose skeleton covered the matching voxel of the working volume. */
  lemma SeedLabelsAreObjectLabels(shape: Shape, strokes: seq<seq<Voxel>>, i: int, j: int, k: int)
    requires NonNegative(shape) && 0 <= i < shape.n0 && 0 <= j < shape.n1 && 0 <= k < shape.n2
    ensures 0 <= SeedVolume(shape, strokes)[i][j][k] <= |strokes|
    ensures SeedVolume(shape, strokes)[i][j][k] > 0 ==>
              LabelNamesLastWriter(SeedVolume(shape, strokes)[i][j][k], strokes, CentreVoxel(shape, i, j, k))
  {
    SeedIsCentreLabelOrZero(shape, strokes, i, j, k);
    LabelOrZeroNamesLastWriter(SeedVolume(shape, strokes)[i][j][k], strokes, CentreVoxel(shape, i, j, k));
  }

  /** A voxel of the skeletons volume is the label of the matching working
      voxel or 0. */
  lemma SeedIsCentreLabelOrZero(shape: Shape, strokes: seq<seq<Voxel>>, i: int, j: int, k: int)
    requires NonNegative(shape) && 0 <= i < shape.n0 && 0 <= j < shape.n1 && 0 <= k < shape.n2
    ensures || SeedVolume(shape, strokes)[i][j][k] == LastLabel(strokes, CentreVoxel(shape, i, j, k))
            || SeedVolume(shape, strokes)[i][j][k] == 0
  {
    var cropped := Crop(Accumulated(Twice(shape), strokes), shape);
    CropReadsCentreLabels(shape, strokes, i, j, k);
    SuppressionKeepsOrZeroes(cropped, shape, i, j, k);
  }

  /** The skeletons volume holds only non-negative labels, so a second
      suppression would leave it unchanged. */
  lemma SeedVolumeIsSuppressionFixpoint(shape: Shape, strokes: seq<seq<Voxel>>)
    requires NonNegative(shape)
    ensures Suppressed(SeedVolume(shape, strokes), shape) == SeedVolume(shape, strokes)
  {
    var cropped := Crop(Accumulated(Twice(shape), strokes), shape);
    CroppedLabelsAreNonNegative(shape, strokes);
    SuppressionIsIdempotent(cropped, shape);
  }

  /** The cropped seeds hold labels, which are never negative. */
  lemma CroppedLabelsAreNonNegative(shape: Shape, strokes: seq<seq<Voxel>>)
    requires NonNegative(shape)
    ensures AllNonNegative(Crop(Accumulated(Twice(shape), strokes), shape))
  {
    var cropped := Crop(Accumulated(Twice(shape), strokes), shape);
    forall i, j, k | 0 <= i < |cropped| && 0 <= j < |cropped[i]| && 0 <= k < |cropped[i][j]|
      ensures 0 <= cropped[i][j][k]
    {
      CropReadsCentreLabels(shape, strokes, i, j, k);
      LastLabelIsLastWriter(strokes, CentreVoxel(shape, i, j, k));
    }
  }

  /** create_segmentation(shape, n_objects, points_per_skeleton,
      interpolation, ...). The shape is checked before anything else; the
      requested interpolation has no effect on the result. */
  method CreateSegmentation(shape: seq<int>, nObjects: int, pointsPerSkeleton: nat, interpolation: Interpolation,
                            clouds: seq<Cloud>, skeletonOf: Cloud -> seq<Voxel>,
                            flood: Volume -> Volume, findBoundaries: Volume -> Volume)
    returns (r: Result<Bundle, Error>)
    requires SamplesFit(shape, nObjects, pointsPerSkeleton, clouds, skeletonOf)
    ensures ValidateShape(shape).Failure? ==> r == Failure(ValidateShape(shape).error)
    ensures ValidateShape(shape).Success? ==>
              var s := ValidateShape(shape).value;
              if !NonNegative(s) then r == Failure(NegativeDimension)
              else if SamplingFails(s, nObjects, pointsPerSkeleton) then r == Failure(EmptySampleRange)
              else
                var skeletons := SeedVolume(s, Strokes(clouds, skeletonOf));
                r == Success(Bundle(flood(skeletons), skeletons, findBoundaries(flood(skeletons))))
  {
    var checked := ValidateShape(shape);
    if checked.Failure? {
      return Failure(checked.error);
    }
    var s := checked.value;
    if !NonNegative(s) {
      return Failure(NegativeDimension);
    }
    if SamplingFails(s, nObjects, pointsPerSkeleton) {
      return Failure(EmptySampleRange);
    }
    assert |clouds| == Count(nObjects);
    var seeds := PlaceSeeds(s, pointsPerSkeleton, clouds, skeletonOf);
    ghost var strokes := Strokes(clouds, skeletonOf);
    ghost var whole := View(seeds, Voxel(0, 0, 0), Twice(s));
    SameVoxelsSameVolume(whole, Accumulated(Twice(s), strokes), Twice(s));
    CropIsCentreView(seeds, s);
    var origin := CropOrigin(s);
    Suppress(seeds, origin, s);
    var skeletons := View(seeds, origin, s);
    var segmentation := flood(skeletons);
    r := Success(Bundle(segmentation, skeletons, findBoundaries(segmentation)));
  }
}
