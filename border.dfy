/** Border correction: the working volume of extent 2 * shape is cut back to
    the requested shape by the slice [int(s/2) : int(3*s/2)] on every axis,
    keeping its centre. */
module Border {
  import opened Volumes

  /** int(s/2): the first index kept on an axis of requested extent s, i.e.
      s halved and rounded down (for s >= 0 Python's truncation and Dafny's
      division agree). */
  function SliceStart(s: int): (r: int)
    requires 0 <= s
    ensures 2 * r <= s < 2 * r + 2
  {
    s / 2
  }

  /** int(3*s/2): one past the last index kept on that axis (again exact
      halving rounded down). */
  function SliceStop(s: int): (r: int)
    requires 0 <= s
    ensures 2 * r <= 3 * s < 2 * r + 2
  {
    3 * s / 2
  }

  /** The slice keeps exactly s indices of the 2s on the axis, and it is
      centred (as many indices cut before it as after it) exactly when s is
      even: for odd s one more index is cut at the far end. */
  lemma SliceKeepsCentre(s: int)
    requires 0 <= s
    ensures 0 <= SliceStart(s) <= SliceStop(s) <= 2 * s
    ensures SliceStop(s) - SliceStart(s) == s
    ensures SliceStart(s) == 2 * s - SliceStop(s) <==> s % 2 == 0
  {
    if s % 2 == 0 {
      assert s == 2 * (s / 2);
    } else {
      assert s == 2 * (s / 2) + 1;
      assert 3 * s / 2 == 3 * (s / 2) + 1;
    }
  }

  /** The corner of the kept box inside the working volume. */
  function CropOrigin(shape: Shape): Voxel
    requires NonNegative(shape)
  {
    Voxel(SliceStart(shape.n0), SliceStart(shape.n1), SliceStart(shape.n2))
  }

  /** seeds[s0/2 : 3*s0/2, s1/2 : 3*s1/2, s2/2 : 3*s2/2] */
  function Crop(v: Volume, shape: Shape): (r: Volume)
    requires NonNegative(shape) && Shaped(v, Twice(shape))
    ensures Shaped(r, shape)
    ensures forall i, j, k :: 0 <= i < shape.n0 && 0 <= j < shape.n1 && 0 <= k < shape.n2 ==>
              r[i][j][k] == v[SliceStart(shape.n0) + i][SliceStart(shape.n1) + j][SliceStart(shape.n2) + k]
  {
    SliceKeepsCentre(shape.n0);
    SliceKeepsCentre(shape.n1);
    SliceKeepsCentre(shape.n2);
    var o := CropOrigin(shape);
    seq(shape.n0, i requires 0 <= i < shape.n0 =>
      seq(shape.n1, j requires 0 <= j < shape.n1 =>
        v[o.x + i][o.y + j][o.z .. o.z + shape.n2]))
  }

  /** For an even shape the crop keeps the centre of the working volume: every
      kept voxel has the same number of voxels cut before it and after it on
      each axis, and the crop has exactly the requested extent. */
  lemma CropIsCentred(v: Volume, shape: Shape)
    requires NonNegative(shape) && Even(shape) && Shaped(v, Twice(shape))
    ensures Shaped(Crop(v, shape), shape)
    ensures CropOrigin(shape) == Voxel(shape.n0 / 2, shape.n1 / 2, shape.n2 / 2)
    ensures var o := CropOrigin(shape);
            && o.x + shape.n0 + o.x == 2 * shape.n0
            && o.y + shape.n1 + o.y == 2 * shape.n1
            && o.z + shape.n2 + o.z == 2 * shape.n2
  {
    SliceKeepsCentre(shape.n0);
    SliceKeepsCentre(shape.n1);
    SliceKeepsCentre(shape.n2);
  }

  /** Cropping the contents of an array is reading the centre box of that
      array: the numpy slice is a view whose voxels are those of the working
      volume, shifted by the crop origin. */
  lemma CropIsCentreView(a: array3<int>, shape: Shape)
    requires NonNegative(shape) && Extent(a) == Twice(shape)
    ensures Fits(a, Voxel(0, 0, 0), Twice(shape)) && Fits(a, CropOrigin(shape), shape)
    ensures Crop(View(a, Voxel(0, 0, 0), Twice(shape)), shape) == View(a, CropOrigin(shape), shape)
  {
    SliceKeepsCentre(shape.n0);
    SliceKeepsCentre(shape.n1);
    SliceKeepsCentre(shape.n2);
    var whole := View(a, Voxel(0, 0, 0), Twice(shape));
    SameVoxelsSameVolume(Crop(whole, shape), View(a, CropOrigin(shape), shape), shape);
  }
}
