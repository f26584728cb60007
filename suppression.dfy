/** Non-maximum seed suppression:
      seeds[maximum_filter(seeds, size=4) != seeds] = 0
    A voxel keeps its label only when that label equals the largest value of
    the ORIGINAL volume over the size-4 window around it; otherwise it is set
    to 0. The whole maximum-filter output is computed before anything is
    zeroed. */
module Suppression {
  import opened Volumes

  /** The filter size, and the offsets of the window it gives: an even size
      is centred at size // 2, so the window of index i spans
      i - Before .. i + After, i.e. i - 2 .. i + 1. */
  const Size: nat := 4
  const Before: nat := Size / 2
  const After: nat := Size - 1 - Size / 2

  /** The default boundary mode 'reflect' (d c b a | a b c d | d c b a): the
      index of an axis of extent n that a filter position t outside 0 .. n-1
      reads from. */
  function Reflect(t: int, n: int): (r: int)
    requires 0 < n
    ensures 0 <= r < n
  {
    var m := t % (2 * n);
    if m < n then m else 2 * n - 1 - m
  }

  /** Within one extent of the axis, 'reflect' mirrors about the axis ends:
      position -1 reads index 0, -2 reads 1, and so on, and position n reads
      index n - 1, n + 1 reads n - 2, and so on. */
  lemma ReflectMirrorsAtEnds(t: int, n: int)
    requires 0 < n && -n <= t < 2 * n
    ensures Reflect(t, n) == if t < 0 then -1 - t else if t < n then t else 2 * n - 1 - t
  {
    if t < 0 {
      ModOfShifted(t, 2 * n);
    } else {
      ModOfShifted(t - 2 * n, 2 * n);
    }
  }

  /** First and last index of the window of index i on an axis of extent n,
      clipped to the axis. */
  function Lo(i: int): int {
    if i - Before < 0 then 0 else i - Before
  }

  function Hi(i: int, n: int): int {
    if i + After > n - 1 then n - 1 else i + After
  }

  /** Under 'reflect', the filter positions i - 2 .. i + 1 read exactly the
      indices of the clipped window Lo(i) .. Hi(i, n): every position reads an
      index of it, and every index of it is read (from its own position). So
      the reflected window and the clipped box have the same maximum. */
  lemma ReflectedWindowIsClippedBox(i: int, n: int)
    requires 0 <= i < n
    ensures forall t :: i - Before <= t <= i + After ==> Lo(i) <= Reflect(t, n) <= Hi(i, n)
    ensures forall t :: Lo(i) <= t <= Hi(i, n) ==> i - Before <= t <= i + After && Reflect(t, n) == t
  {
    forall t | i - Before <= t <= i + After
      ensures Lo(i) <= Reflect(t, n) <= Hi(i, n)
    {
      if t < 0 {
        assert t % (2 * n) == t + 2 * n by {
          ModOfShifted(t, 2 * n);
        }
      } else if t < n {
        assert t % (2 * n) == t by {
          ModOfShifted(t - 2 * n, 2 * n);
        }
      } else {
        assert t == n;
        assert t % (2 * n) == t by {
          ModOfShifted(t - 2 * n, 2 * n);
        }
      }
    }
    forall t | Lo(i) <= t <= Hi(i, n)
      ensures Reflect(t, n) == t
    {
      assert t % (2 * n) == t by {
        ModOfShifted(t - 2 * n, 2 * n);
      }
    }
  }

  /** For -m <= t < 0, t mod m is t + m. */
  lemma ModOfShifted(t: int, m: int)
    requires 0 < m && -m <= t < 0
    ensures (t + m) % m == t + m && t % m == t + m
  {
  }

  /** Largest of row[lo..hi] (both ends included). */
  function MaxRow(row: seq<int>, lo: int, hi: int): int
    requires 0 <= lo <= hi < |row|
    decreases hi - lo
  {
    if lo == hi then row[lo]
    else
      var m := MaxRow(row, lo, hi - 1);
      if row[hi] > m then row[hi] else m
  }

  /** Largest of plane[b][c] over lo.y <= b <= hi.y, lo.z <= c <= hi.z. */
  function MaxPlane(plane: seq<seq<int>>, lo: Voxel, hi: Voxel): int
    requires 0 <= lo.y <= hi.y < |plane| && 0 <= lo.z <= hi.z
    requires forall b :: lo.y <= b <= hi.y ==> hi.z < |plane[b]|
    decreases hi.y - lo.y
  {
    var last := MaxRow(plane[hi.y], lo.z, hi.z);
    if lo.y == hi.y then last
    else
      var m := MaxPlane(plane, lo, hi.(y := hi.y - 1));
      if last > m then last else m
  }

  /** Largest of v[a][b][c] over the box with corners lo and hi (included). */
  function MaxBox(v: Volume, s: Shape, lo: Voxel, hi: Voxel): int
    requires Shaped(v, s)
    requires 0 <= lo.x <= hi.x < s.n0 && 0 <= lo.y <= hi.y < s.n1 && 0 <= lo.z <= hi.z < s.n2
    decreases hi.x - lo.x
  {
    var last := MaxPlane(v[hi.x], lo, hi);
    if lo.x == hi.x then last
    else
      var m := MaxBox(v, s, lo, hi.(x := hi.x - 1));
      if last > m then last else m
  }

  /** MaxRow is an upper bound of the range that the range attains. */
  lemma {:induction false} MaxRowIsMaximum(row: seq<int>, lo: int, hi: int)
    requires 0 <= lo <= hi < |row|
    ensures forall c :: lo <= c <= hi ==> row[c] <= MaxRow(row, lo, hi)
    ensures exists c :: lo <= c <= hi && row[c] == MaxRow(row, lo, hi)
    decreases hi - lo
  {
    if lo < hi {
      MaxRowIsMaximum(row, lo, hi - 1);
      var m := MaxRow(row, lo, hi - 1);
      if row[hi] <= m {
        var c :| lo <= c <= hi - 1 && row[c] == m;
        assert row[c] == MaxRow(row, lo, hi);
      } else {
        assert row[hi] == MaxRow(row, lo, hi);
      }
    } else {
      assert row[lo] == MaxRow(row, lo, hi);
    }
  }

  /** MaxPlane is an upper bound of the rectangle that the rectangle attains. */
  lemma {:induction false} MaxPlaneIsMaximum(plane: seq<seq<int>>, lo: Voxel, hi: Voxel)
    requires 0 <= lo.y <= hi.y < |plane| && 0 <= lo.z <= hi.z
    requires forall b :: lo.y <= b <= hi.y ==> hi.z < |plane[b]|
    ensures forall b, c :: lo.y <= b <= hi.y && lo.z <= c <= hi.z ==> plane[b][c] <= MaxPlane(plane, lo, hi)
    ensures exists b, c :: lo.y <= b <= hi.y && lo.z <= c <= hi.z && plane[b][c] == MaxPlane(plane, lo, hi)
    decreases hi.y - lo.y
  {
    MaxRowIsMaximum(plane[hi.y], lo.z, hi.z);
    if lo.y < hi.y {
      MaxPlaneIsMaximum(plane, lo, hi.(y := hi.y - 1));
    }
  }

  /** MaxBox is an upper bound of the box that the box attains. */
  lemma {:induction false} MaxBoxIsMaximum(v: Volume, s: Shape, lo: Voxel, hi: Voxel)
    requires Shaped(v, s)
    requires 0 <= lo.x <= hi.x < s.n0 && 0 <= lo.y <= hi.y < s.n1 && 0 <= lo.z <= hi.z < s.n2
    ensures forall a, b, c :: lo.x <= a <= hi.x && lo.y <= b <= hi.y && lo.z <= c <= hi.z ==> v[a][b][c] <= MaxBox(v, s, lo, hi)
    ensures exists a, b, c :: lo.x <= a <= hi.x && lo.y <= b <= hi.y && lo.z <= c <= hi.z && v[a][b][c] == MaxBox(v, s, lo, hi)
    decreases hi.x - lo.x
  {
    MaxPlaneIsMaximum(v[hi.x], lo, hi);
    if lo.x < hi.x {
      MaxBoxIsMaximum(v, s, lo, hi.(x := hi.x - 1));
    }
  }

  /** The voxel (a, b, c) lies in the clipped window of voxel (i, j, k). */
  predicate InWindow(a: int, b: int, c: int, i: int, j: int, k: int, s: Shape) {
    && Lo(i) <= a <= Hi(i, s.n0)
    && Lo(j) <= b <= Hi(j, s.n1)
    && Lo(k) <= c <= Hi(k, s.n2)
  }

  /** maximum_filter(v, size=4) at voxel (i, j, k). */
  function WindowMax(v: Volume, s: Shape, i: int, j: int, k: int): int
    requires Shaped(v, s) && 0 <= i < s.n0 && 0 <= j < s.n1 && 0 <= k < s.n2
  {
    MaxBox(v, s, Voxel(Lo(i), Lo(j), Lo(k)), Voxel(Hi(i, s.n0), Hi(j, s.n1), Hi(k, s.n2)))
  }

  /** The filter output at a voxel is the largest value of its window, which
      always contains the voxel itself. */
  lemma WindowMaxIsWindowMaximum(v: Volume, s: Shape, i: int, j: int, k: int)
    requires Shaped(v, s) && 0 <= i < s.n0 && 0 <= j < s.n1 && 0 <= k < s.n2
    ensures v[i][j][k] <= WindowMax(v, s, i, j, k)
    ensures forall a, b, c :: InWindow(a, b, c, i, j, k, s) ==> v[a][b][c] <= WindowMax(v, s, i, j, k)
    ensures exists a, b, c :: InWindow(a, b, c, i, j, k, s) && v[a][b][c] == WindowMax(v, s, i, j, k)
  {
    MaxBoxIsMaximum(v, s, Voxel(Lo(i), Lo(j), Lo(k)), Voxel(Hi(i, s.n0), Hi(j, s.n1), Hi(k, s.n2)));
    assert InWindow(i, j, k, i, j, k, s);
  }

  /** The 4 x 4 x 4 values that maximum_filter(size=4) in 'reflect' mode
      combines at (i, j, k): tap (d0, d1, d2) is filter position
      (i - 2 + d0, j - 2 + d1, k - 2 + d2), mirrored back into the volume. */
  function Taps(v: Volume, s: Shape, i: int, j: int, k: int): (w: Volume)
    requires Shaped(v, s) && 0 <= i < s.n0 && 0 <= j < s.n1 && 0 <= k < s.n2
    ensures Shaped(w, Shape(Size, Size, Size))
  {
    seq(Size, d0 requires 0 <= d0 < Size =>
      seq(Size, d1 requires 0 <= d1 < Size =>
        seq(Size, d2 requires 0 <= d2 < Size =>
          v[Reflect(i - Before + d0, s.n0)][Reflect(j - Before + d1, s.n1)][Reflect(k - Before + d2, s.n2)])))
  }

  /** maximum_filter(v, size=4) at (i, j, k), read literally: the largest of
      the reflected taps. */
  function ReflectedMax(v: Volume, s: Shape, i: int, j: int, k: int): int
    requires Shaped(v, s) && 0 <= i < s.n0 && 0 <= j < s.n1 && 0 <= k < s.n2
  {
    MaxBox(Taps(v, s, i, j, k), Shape(Size, Size, Size), Voxel(0, 0, 0), Voxel(Size - 1, Size - 1, Size - 1))
  }

  /** On one axis, tap d of index i reads an index of the clipped window. */
  lemma TapOnAxis(i: int, n: int, d: int)
    requires 0 <= i < n && 0 <= d < Size
    ensures Lo(i) <= Reflect(i - Before + d, n) <= Hi(i, n)
  {
    ReflectedWindowIsClippedBox(i, n);
  }

  /** On one axis, index a of the clipped window of i is read by tap
      a - i + 2, unreflected. */
  lemma WindowIndexOnAxis(i: int, n: int, a: int)
    requires 0 <= i < n && Lo(i) <= a <= Hi(i, n)
    ensures 0 <= a - i + Before < Size && Reflect(i - Before + (a - i + Before), n) == a
  {
    ReflectedWindowIsClippedBox(i, n);
  }

  /** Every tap reads a voxel of the clipped window. */
  lemma TapIsWindowVoxel(v: Volume, s: Shape, i: int, j: int, k: int, d0: int, d1: int, d2: int)
    requires Shaped(v, s) && 0 <= i < s.n0 && 0 <= j < s.n1 && 0 <= k < s.n2
    requires 0 <= d0 < Size && 0 <= d1 < Size && 0 <= d2 < Size
    ensures var a, b, c := Reflect(i - Before + d0, s.n0), Reflect(j - Before + d1, s.n1), Reflect(k - Before + d2, s.n2);
            InWindow(a, b, c, i, j, k, s) && Taps(v, s, i, j, k)[d0][d1][d2] == v[a][b][c]
  {
    TapOnAxis(i, s.n0, d0);
    TapOnAxis(j, s.n1, d1);
    TapOnAxis(k, s.n2, d2);
  }

  /** Every voxel of the clipped window is read by the tap at its own
      position. */
  lemma WindowVoxelIsTap(v: Volume, s: Shape, i: int, j: int, k: int, a: int, b: int, c: int)
    requires Shaped(v, s) && 0 <= i < s.n0 && 0 <= j < s.n1 && 0 <= k < s.n2
    requires InWindow(a, b, c, i, j, k, s)
    ensures 0 <= a - i + Before < Size && 0 <= b - j + Before < Size && 0 <= c - k + Before < Size
    ensures Taps(v, s, i, j, k)[a - i + Before][b - j + Before][c - k + Before] == v[a][b][c]
  {
    WindowIndexOnAxis(i, s.n0, a);
    WindowIndexOnAxis(j, s.n1, b);
    WindowIndexOnAxis(k, s.n2, c);
  }

  /** The reflected filter and the maximum over the clipped window agree at
      every voxel, so the model may use the clipped window throughout. */
  lemma ReflectedMaxIsWindowMax(v: Volume, s: Shape, i: int, j: int, k: int)
    requires Shaped(v, s) && 0 <= i < s.n0 && 0 <= j < s.n1 && 0 <= k < s.n2
    ensures ReflectedMax(v, s, i, j, k) == WindowMax(v, s, i, j, k)
  {
    var w := Taps(v, s, i, j, k);
    MaxBoxIsMaximum(w, Shape(Size, Size, Size), Voxel(0, 0, 0), Voxel(Size - 1, Size - 1, Size - 1));
    WindowMaxIsWindowMaximum(v, s, i, j, k);
    // The largest tap reads a voxel of the clipped window ...
    var d0, d1, d2 :| 0 <= d0 <= Size - 1 && 0 <= d1 <= Size - 1 && 0 <= d2 <= Size - 1
                      && w[d0][d1][d2] == ReflectedMax(v, s, i, j, k);
    TapIsWindowVoxel(v, s, i, j, k, d0, d1, d2);
    // ... and the largest voxel of the clipped window is read by a tap.
    var a, b, c :| InWindow(a, b, c, i, j, k, s) && v[a][b][c] == WindowMax(v, s, i, j, k);
    WindowVoxelIsTap(v, s, i, j, k, a, b, c);
  }

  /** The suppressed volume: each voxel kept where it equals the filter
      output, zero elsewhere. */
  function Suppressed(v: Volume, s: Shape): (r: Volume)
    requires NonNegative(s) && Shaped(v, s)
    ensures Shaped(r, s)
  {
    seq(s.n0, i requires 0 <= i < s.n0 =>
      seq(s.n1, j requires 0 <= j < s.n1 =>
        seq(s.n2, k requires 0 <= k < s.n2 =>
          if WindowMax(v, s, i, j, k) != v[i][j][k] then 0 else v[i][j][k])))
  }

  /** No value in the window of (i, j, k) exceeds the value at (i, j, k). */
  ghost predicate IsWindowPeak(v: Volume, s: Shape, i: int, j: int, k: int)
    requires Shaped(v, s) && 0 <= i < s.n0 && 0 <= j < s.n1 && 0 <= k < s.n2
  {
    forall a, b, c :: InWindow(a, b, c, i, j, k, s) ==> v[a][b][c] <= v[i][j][k]
  }

  predicate AllNonNegative(v: Volume) {
    forall i, j, k :: 0 <= i < |v| && 0 <= j < |v[i]| && 0 <= k < |v[i][j]| ==> 0 <= v[i][j][k]
  }

  /** Every voxel either keeps its value or becomes 0: suppression introduces
      no new label, and on non-negative labels it never increases a voxel. */
  lemma SuppressionKeepsOrZeroes(v: Volume, s: Shape, i: int, j: int, k: int)
    requires Shaped(v, s) && 0 <= i < s.n0 && 0 <= j < s.n1 && 0 <= k < s.n2
    ensures Suppressed(v, s)[i][j][k] == v[i][j][k] || Suppressed(v, s)[i][j][k] == 0
    ensures 0 <= v[i][j][k] ==> 0 <= Suppressed(v, s)[i][j][k] <= v[i][j][k]
  {
  }

  /** A voxel keeps its value exactly when no voxel of its window holds a
      larger value, and becomes 0 otherwise. */
  lemma SuppressionKeepsPeaksOnly(v: Volume, s: Shape, i: int, j: int, k: int)
    requires Shaped(v, s) && 0 <= i < s.n0 && 0 <= j < s.n1 && 0 <= k < s.n2
    ensures Suppressed(v, s)[i][j][k] == if IsWindowPeak(v, s, i, j, k) then v[i][j][k] else 0
  {
    var m := WindowMax(v, s, i, j, k);
    WindowMaxIsWindowMaximum(v, s, i, j, k);
    if IsWindowPeak(v, s, i, j, k) {
      var a, b, c :| InWindow(a, b, c, i, j, k, s) && v[a][b][c] == m;
      assert m <= v[i][j][k];
    }
  }

  /** A voxel holding the largest value of the whole volume survives. */
  lemma GlobalMaximumSurvives(v: Volume, s: Shape, i: int, j: int, k: int)
    requires Shaped(v, s) && 0 <= i < s.n0 && 0 <= j < s.n1 && 0 <= k < s.n2
    requires forall a, b, c :: 0 <= a < s.n0 && 0 <= b < s.n1 && 0 <= c < s.n2 ==> v[a][b][c] <= v[i][j][k]
    ensures Suppressed(v, s)[i][j][k] == v[i][j][k]
  {
    SuppressionKeepsPeaksOnly(v, s, i, j, k);
  }

  /** Background stays background. */
  lemma ZeroStaysZero(v: Volume, s: Shape, i: int, j: int, k: int)
    requires Shaped(v, s) && 0 <= i < s.n0 && 0 <= j < s.n1 && 0 <= k < s.n2
    requires v[i][j][k] == 0
    ensures Suppressed(v, s)[i][j][k] == 0
  {
    SuppressionKeepsOrZeroes(v, s, i, j, k);
  }

  /** On a volume of non-negative labels, a second suppression changes
      nothing: each survivor is still the largest value of its window, since
      the other voxels of the window only kept their values or dropped to 0. */
  lemma SuppressionIsIdempotent(v: Volume, s: Shape)
    requires NonNegative(s) && Shaped(v, s) && AllNonNegative(v)
    ensures Suppressed(Suppressed(v, s), s) == Suppressed(v, s)
  {
    var w := Suppressed(v, s);
    forall i, j, k | 0 <= i < s.n0 && 0 <= j < s.n1 && 0 <= k < s.n2
      ensures Suppressed(w, s)[i][j][k] == w[i][j][k]
    {
      SuppressionKeepsOrZeroes(v, s, i, j, k);
      SuppressionKeepsPeaksOnly(v, s, i, j, k);
      SuppressionKeepsPeaksOnly(w, s, i, j, k);
      if w[i][j][k] != 0 {
        assert IsWindowPeak(v, s, i, j, k);
        forall a, b, c | InWindow(a, b, c, i, j, k, s)
          ensures w[a][b][c] <= w[i][j][k]
        {
          SuppressionKeepsOrZeroes(v, s, a, b, c);
        }
        assert IsWindowPeak(w, s, i, j, k);
      }
    }
    SameVoxelsSameVolume(Suppressed(w, s), w, s);
  }

  /** maximum_filter(v, size=4), written to fresh storage. */
  method MaxFilter(v: Volume, n: Shape) returns (peaks: array3<int>)
    requires NonNegative(n) && Shaped(v, n)
    ensures fresh(peaks) && Extent(peaks) == n
    ensures forall a, b, c :: 0 <= a < n.n0 && 0 <= b < n.n1 && 0 <= c < n.n2 ==>
              peaks[a, b, c] == WindowMax(v, n, a, b, c)
  {
    peaks := new int[n.n0, n.n1, n.n2];
    for i := 0 to n.n0
      invariant forall a, b, c :: 0 <= a < i && 0 <= b < n.n1 && 0 <= c < n.n2 ==>
                  peaks[a, b, c] == WindowMax(v, n, a, b, c)
    {
      FilterPlane(v, n, peaks, i);
    }
  }

  /** Fills plane i of the filter output, leaving the other planes as they were. */
  method FilterPlane(v: Volume, n: Shape, peaks: array3<int>, i: int)
    requires NonNegative(n) && Shaped(v, n) && Extent(peaks) == n && 0 <= i < n.n0
    modifies peaks
    ensures forall a, b, c :: 0 <= a < n.n0 && 0 <= b < n.n1 && 0 <= c < n.n2 ==>
              peaks[a, b, c] == if a == i then WindowMax(v, n, a, b, c) else old(peaks[a, b, c])
  {
    for j := 0 to n.n1
      invariant forall a, b, c :: 0 <= a < n.n0 && 0 <= b < n.n1 && 0 <= c < n.n2 ==>
                  peaks[a, b, c] == if a == i && b < j then WindowMax(v, n, a, b, c) else old(peaks[a, b, c])
    {
      for k := 0 to n.n2
        invariant forall a, b, c :: 0 <= a < n.n0 && 0 <= b < n.n1 && 0 <= c < n.n2 ==>
                    peaks[a, b, c] ==
                      if a == i && (b < j || (b == j && c < k)) then WindowMax(v, n, a, b, c) else old(peaks[a, b, c])
      {
        peaks[i, j, k] := WindowMax(v, n, i, j, k);
      }
    }
  }

  /** Voxel (a, b, c) of the box after the mask assignment: zeroed where the
      filter output differs from the original value. */
  function Masked(v: Volume, peaks: array3<int>, a: int, b: int, c: int): int
    reads peaks
    requires 0 <= a < |v| && 0 <= b < |v[a]| && 0 <= c < |v[a][b]|
    requires 0 <= a < peaks.Length0 && 0 <= b < peaks.Length1 && 0 <= c < peaks.Length2
  {
    if peaks[a, b, c] != v[a][b][c] then 0 else v[a][b][c]
  }

  /** seeds[peaks != seeds] = 0 on plane i of the box with corner `o`, where
      the box still holds `v`; every other voxel is left as it was. */
  method ZeroPlane(seeds: array3<int>, o: Voxel, n: Shape, v: Volume, peaks: array3<int>, i: int)
    requires Fits(seeds, o, n) && Shaped(v, n) && Extent(peaks) == n && peaks != seeds && 0 <= i < n.n0
    requires forall b, c :: 0 <= b < n.n1 && 0 <= c < n.n2 ==> seeds[o.x + i, o.y + b, o.z + c] == v[i][b][c]
    modifies seeds
    ensures forall x, y, z :: 0 <= x < seeds.Length0 && 0 <= y < seeds.Length1 && 0 <= z < seeds.Length2 ==>
              seeds[x, y, z] ==
                if x == o.x + i && InBox(x, y, z, o, n) then Masked(v, peaks, i, y - o.y, z - o.z)
                else old(seeds[x, y, z])
  {
    for j := 0 to n.n1
      invariant forall x, y, z :: 0 <= x < seeds.Length0 && 0 <= y < seeds.Length1 && 0 <= z < seeds.Length2 ==>
                  seeds[x, y, z] ==
                    if x == o.x + i && InBox(x, y, z, o, n) && y < o.y + j then Masked(v, peaks, i, y - o.y, z - o.z)
                    else old(seeds[x, y, z])
    {
      for k := 0 to n.n2
        invariant forall x, y, z :: 0 <= x < seeds.Length0 && 0 <= y < seeds.Length1 && 0 <= z < seeds.Length2 ==>
                    seeds[x, y, z] ==
                      if x == o.x + i && InBox(x, y, z, o, n) && (y < o.y + j || (y == o.y + j && z < o.z + k))
                      then Masked(v, peaks, i, y - o.y, z - o.z)
                      else old(seeds[x, y, z])
      {
        if peaks[i, j, k] != seeds[o.x + i, o.y + j, o.z + k] {
          seeds[o.x + i, o.y + j, o.z + k] := 0;
        }
      }
    }
  }

  /** seeds[peaks != seeds] = 0 on the box with corner `o`, where the box
      holds `v`; every voxel outside the box is left as it was. */
  method ZeroBox(seeds: array3<int>, o: Voxel, n: Shape, v: Volume, peaks: array3<int>)
    requires Fits(seeds, o, n) && Shaped(v, n) && Extent(peaks) == n && peaks != seeds
    requires forall a, b, c :: 0 <= a < n.n0 && 0 <= b < n.n1 && 0 <= c < n.n2 ==>
               seeds[o.x + a, o.y + b, o.z + c] == v[a][b][c]
    modifies seeds
    ensures forall a, b, c :: 0 <= a < n.n0 && 0 <= b < n.n1 && 0 <= c < n.n2 ==>
              seeds[o.x + a, o.y + b, o.z + c] == Masked(v, peaks, a, b, c)
    ensures forall x, y, z :: 0 <= x < seeds.Length0 && 0 <= y < seeds.Length1 && 0 <= z < seeds.Length2 ==>
              (InBox(x, y, z, o, n) || seeds[x, y, z] == old(seeds[x, y, z]))
  {
    for i := 0 to n.n0
      invariant forall x, y, z :: 0 <= x < seeds.Length0 && 0 <= y < seeds.Length1 && 0 <= z < seeds.Length2 ==>
                  seeds[x, y, z] ==
                    if InBox(x, y, z, o, n) && x < o.x + i then Masked(v, peaks, x - o.x, y - o.y, z - o.z)
                    else old(seeds[x, y, z])
    {
      ZeroPlane(seeds, o, n, v, peaks, i);
    }
  }

  /** The suppression as numpy performs it, on the box with corner `o` and
      extent `n` of `seeds` (the cropped view of the working volume): first
      the maximum filter of the box's original contents is written to
      separate storage, then every voxel of the box that differs from it is
      zeroed in place. Voxels outside the box are untouched. */
  method Suppress(seeds: array3<int>, o: Voxel, n: Shape)
    requires Fits(seeds, o, n)
    modifies seeds
    ensures View(seeds, o, n) == Suppressed(old(View(seeds, o, n)), n)
    ensures forall x, y, z :: 0 <= x < seeds.Length0 && 0 <= y < seeds.Length1 && 0 <= z < seeds.Length2 ==>
              (InBox(x, y, z, o, n) || seeds[x, y, z] == old(seeds[x, y, z]))
  {
    var v := View(seeds, o, n);
    var peaks := MaxFilter(v, n);
    ZeroBox(seeds, o, n, v, peaks);
    MaskIsSuppression(seeds, o, n, v, peaks);
  }

  /** Zeroing the box where the filter output differs gives the suppressed
      volume. */
  lemma MaskIsSuppression(seeds: array3<int>, o: Voxel, n: Shape, v: Volume, peaks: array3<int>)
    requires Fits(seeds, o, n) && Shaped(v, n) && Extent(peaks) == n
    requires forall a, b, c :: 0 <= a < n.n0 && 0 <= b < n.n1 && 0 <= c < n.n2 ==>
               peaks[a, b, c] == WindowMax(v, n, a, b, c)
    requires forall a, b, c :: 0 <= a < n.n0 && 0 <= b < n.n1 && 0 <= c < n.n2 ==>
               seeds[o.x + a, o.y + b, o.z + c] == Masked(v, peaks, a, b, c)
    ensures View(seeds, o, n) == Suppressed(v, n)
  {
    var after := View(seeds, o, n);
    forall a, b, c | 0 <= a < n.n0 && 0 <= b < n.n1 && 0 <= c < n.n2
      ensures after[a][b][c] == Suppressed(v, n)[a][b][c]
    {
      assert after[a][b][c] == Masked(v, peaks, a, b, c);
    }
    SameVoxelsSameVolume(after, Suppressed(v, n), n);
  }
}
