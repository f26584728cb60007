/** Extents, voxel coordinates and 3-D label volumes shared by every stage of
    the synthesis pipeline. A volume is held either as a value
    (`Volume`, nested sequences indexed [x][y][z]) or as the mutable numpy
    array the pipeline threads through its stages (`array3<int>`); `View`
    reads a box of such an array as a value, the way a numpy slice is a view
    of the array it was cut from. */
module Volumes {

  /** The extent of a volume along its three axes. */
  datatype Shape = Shape(n0: int, n1: int, n2: int)

  /** An integer voxel coordinate (also used for sampled skeleton points). */
  datatype Voxel = Voxel(x: int, y: int, z: int)

  type Volume = seq<seq<seq<int>>>

  predicate NonNegative(s: Shape) {
    0 <= s.n0 && 0 <= s.n1 && 0 <= s.n2
  }

  predicate Even(s: Shape) {
    s.n0 % 2 == 0 && s.n1 % 2 == 0 && s.n2 % 2 == 0
  }

  /** The oversized working domain: twice the extent on every axis. */
  function Twice(s: Shape): Shape {
    Shape(2 * s.n0, 2 * s.n1, 2 * s.n2)
  }

  predicate Inside(p: Voxel, s: Shape) {
    0 <= p.x < s.n0 && 0 <= p.y < s.n1 && 0 <= p.z < s.n2
  }

  predicate AllInside(ps: seq<Voxel>, s: Shape) {
    forall p :: p in ps ==> Inside(p, s)
  }

  /** `v` has extent `s`: it is a full s.n0 x s.n1 x s.n2 block. */
  predicate Shaped(v: Volume, s: Shape) {
    && |v| == s.n0
    && (forall i :: 0 <= i < |v| ==> |v[i]| == s.n1)
    && (forall i, j :: 0 <= i < |v| && 0 <= j < |v[i]| ==> |v[i][j]| == s.n2)
  }

  function Extent(a: array3<int>): Shape {
    Shape(a.Length0, a.Length1, a.Length2)
  }

  /** The box with corner `o` and extent `s` lies within the array. */
  predicate Fits(a: array3<int>, o: Voxel, s: Shape) {
    && NonNegative(s)
    && 0 <= o.x && o.x + s.n0 <= a.Length0
    && 0 <= o.y && o.y + s.n1 <= a.Length1
    && 0 <= o.z && o.z + s.n2 <= a.Length2
  }

  /** The voxel (x, y, z) of an array lies in the box with corner `o` and extent `s`. */
  predicate InBox(x: int, y: int, z: int, o: Voxel, s: Shape) {
    o.x <= x < o.x + s.n0 && o.y <= y < o.y + s.n1 && o.z <= z < o.z + s.n2
  }

  /** The contents of the box with corner `o` and extent `s` of `a`, as a value. */
  function View(a: array3<int>, o: Voxel, s: Shape): (v: Volume)
    reads a
    requires Fits(a, o, s)
    ensures Shaped(v, s)
    ensures forall i, j, k :: 0 <= i < s.n0 && 0 <= j < s.n1 && 0 <= k < s.n2 ==>
              v[i][j][k] == a[o.x + i, o.y + j, o.z + k]
  {
    seq(s.n0, i reads a requires 0 <= i < s.n0 =>
      seq(s.n1, j reads a requires 0 <= j < s.n1 =>
        seq(s.n2, k reads a requires 0 <= k < s.n2 => a[o.x + i, o.y + j, o.z + k])))
  }

  /** Two volumes of the same extent that agree voxel by voxel are equal. */
  lemma SameVoxelsSameVolume(v: Volume, w: Volume, s: Shape)
    requires Shaped(v, s) && Shaped(w, s)
    requires forall i, j, k :: 0 <= i < s.n0 && 0 <= j < s.n1 && 0 <= k < s.n2 ==> v[i][j][k] == w[i][j][k]
    ensures v == w
  {
    forall i | 0 <= i < s.n0
      ensures v[i] == w[i]
    {
      forall j | 0 <= j < s.n1
        ensures v[i][j] == w[i][j]
      {
        assert |v[i][j]| == |w[i][j]| == s.n2;
      }
      assert |v[i]| == |w[i]| == s.n1;
    }
  }
}
