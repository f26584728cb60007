/** The seed accumulation of `create_segmentation`: a zero-filled working
    volume of twice the requested extent, into which each object's skeleton
    is drawn in turn with label i + 1. Later objects overwrite the voxels of
    earlier ones (last write wins).

    The random points and the tree/skeleton construction are not computed
    here: a point cloud per object is an input, and `skeletonOf` stands for
    the linear skeleton built over a cloud, giving the voxels its draw call
    covers. */
module Placement {
  import opened Volumes

  /** The points sampled for one object. */
  type Cloud = seq<Voxel>

  /** A cloud as the sampler produces it: 8 * pointsPerSkeleton points, each
      coordinate within [0, 2 * shape[d]), i.e. inside the working domain. */
  predicate Sampled(c: Cloud, pointsPerSkeleton: nat, working: Shape) {
    |c| == 8 * pointsPerSkeleton && AllInside(c, working)
  }

  /** The voxel lists drawn by the objects, in drawing order. */
  function Strokes(clouds: seq<Cloud>, skeletonOf: Cloud -> seq<Voxel>): (st: seq<seq<Voxel>>)
    ensures |st| == |clouds|
    ensures forall i :: 0 <= i < |clouds| ==> st[i] == skeletonOf(clouds[i])
  {
    seq(|clouds|, i requires 0 <= i < |clouds| => skeletonOf(clouds[i]))
  }

  /** The label a voxel holds after the objects drawing `strokes` have been
      drawn in order into a zero-filled volume, object i with label i + 1. */
  function LastLabel(strokes: seq<seq<Voxel>>, p: Voxel): int
  {
    if |strokes| == 0 then 0
    else if p in strokes[|strokes| - 1] then |strokes|
    else LastLabel(strokes[..|strokes| - 1], p)
  }

  /** The label at a voxel is 0 exactly when no object drew it, and otherwise
      names the last object that drew it: labels lie in 1..n and the write
      of a later object wins. */
  lemma {:induction false} LastLabelIsLastWriter(strokes: seq<seq<Voxel>>, p: Voxel)
    ensures 0 <= LastLabel(strokes, p) <= |strokes|
    ensures LastLabel(strokes, p) == 0 <==> forall i :: 0 <= i < |strokes| ==> p !in strokes[i]
    ensures LastLabel(strokes, p) > 0 ==>
              && p in strokes[LastLabel(strokes, p) - 1]
              && forall j :: LastLabel(strokes, p) <= j < |strokes| ==> p !in strokes[j]
  {
    if |strokes| > 0 {
      var n := |strokes| - 1;
      var prefix := strokes[..n];
      LastLabelIsLastWriter(prefix, p);
      assert forall i :: 0 <= i < n ==> strokes[i] == prefix[i];
    }
  }

  /** Conversely, an object that drew a voxel and is followed by no other
      object drawing it determines the voxel's label. */
  lemma LastWriterDeterminesLabel(strokes: seq<seq<Voxel>>, p: Voxel, k: int)
    requires 1 <= k <= |strokes|
    requires p in strokes[k - 1]
    requires forall j :: k <= j < |strokes| ==> p !in strokes[j]
    ensures LastLabel(strokes, p) == k
  {
    LastLabelIsLastWriter(strokes, p);
  }

  /** The working volume after all objects are drawn, as a value. */
  function Accumulated(working: Shape, strokes: seq<seq<Voxel>>): (v: Volume)
    requires NonNegative(working)
    ensures Shaped(v, working)
    ensures forall i, j, k :: 0 <= i < working.n0 && 0 <= j < working.n1 && 0 <= k < working.n2 ==>
              v[i][j][k] == LastLabel(strokes, Voxel(i, j, k))
  {
    seq(working.n0, i requires 0 <= i < working.n0 =>
      seq(working.n1, j requires 0 <= j < working.n1 =>
        seq(working.n2, k requires 0 <= k < working.n2 => LastLabel(strokes, Voxel(i, j, k)))))
  }

  /** `skeleton.draw(seeds, [0,0,0], label)`: writes `id` into every voxel
      the skeleton covers and leaves every other voxel as it was. */
  method Draw(seeds: array3<int>, voxels: seq<Voxel>, id: int)
    requires AllInside(voxels, Extent(seeds))
    modifies seeds
    ensures forall x, y, z :: 0 <= x < seeds.Length0 && 0 <= y < seeds.Length1 && 0 <= z < seeds.Length2 ==>
              seeds[x, y, z] == if Voxel(x, y, z) in voxels then id else old(seeds[x, y, z])
  {
    for n := 0 to |voxels|
      invariant forall x, y, z :: 0 <= x < seeds.Length0 && 0 <= y < seeds.Length1 && 0 <= z < seeds.Length2 ==>
                  seeds[x, y, z] == if Voxel(x, y, z) in voxels[..n] then id else old(seeds[x, y, z])
    {
      var p := voxels[n];
      assert Inside(p, Extent(seeds));
      assert voxels[..n + 1] == voxels[..n] + [p];
      seeds[p.x, p.y, p.z] := id;
    }
    assert voxels[..|voxels|] == voxels;
  }

  /** Allocates the zero-filled working volume of extent 2 * shape and draws
      object i's skeleton into it with label i + 1, for i = 0 .. n - 1 in
      increasing order. */
  method PlaceSeeds(shape: Shape, pointsPerSkeleton: nat, clouds: seq<Cloud>, skeletonOf: Cloud -> seq<Voxel>)
    returns (seeds: array3<int>)
    requires NonNegative(shape)
    requires forall i :: 0 <= i < |clouds| ==>
               Sampled(clouds[i], pointsPerSkeleton, Twice(shape)) && AllInside(skeletonOf(clouds[i]), Twice(shape))
    ensures fresh(seeds) && Extent(seeds) == Twice(shape)
    ensures forall x, y, z :: 0 <= x < seeds.Length0 && 0 <= y < seeds.Length1 && 0 <= z < seeds.Length2 ==>
              seeds[x, y, z] == LastLabel(Strokes(clouds, skeletonOf), Voxel(x, y, z))
  {
    var working := Twice(shape);
    seeds := new int[working.n0, working.n1, working.n2]((x, y, z) => 0);
    ghost var strokes := Strokes(clouds, skeletonOf);
    for i := 0 to |clouds|
      invariant Extent(seeds) == working
      invariant forall x, y, z :: 0 <= x < seeds.Length0 && 0 <= y < seeds.Length1 && 0 <= z < seeds.Length2 ==>
                  seeds[x, y, z] == LastLabel(strokes[..i], Voxel(x, y, z))
    {
      Draw(seeds, skeletonOf(clouds[i]), i + 1);
      assert strokes[..i + 1][..i] == strokes[..i];
    }
    assert strokes[..|clouds|] == strokes;
  }
}
