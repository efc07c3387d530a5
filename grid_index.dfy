/**
 * Addressing of the voxel grid: the bijection between a voxel's linear index
 * and its (x, y, z) index, and the world position of a voxel's centre
 * (MarchingCubes.i1toi3, i3toi1 and i3toPos).
 */
module GridIndex {
  import opened Geometry

  /** A 3D voxel index `[x, y, z]`. */
  datatype Index3 = Index3(x: int, y: int, z: int)

  const TWO_POW_31: int := 0x8000_0000
  const TWO_POW_32: int := 0x1_0000_0000

  /**
   * ToInt32 applied to an integral value: the conversion that `~~` performs
   * after truncating its operand. Values at or above 2^31 wrap to negatives.
   */
  function Int32(n: int): (r: int)
    ensures -TWO_POW_31 <= r < TWO_POW_31
    ensures 0 <= n < TWO_POW_31 ==> r == n
  {
    var m := n % TWO_POW_32;
    if m >= TWO_POW_31 then m - TWO_POW_32 else m
  }

  /**
   * i1toi3: `[i % res, ~~((i % res2) / res), ~~(i / res2)]` with res2 = res * res.
   * For a non-negative operand the truncation of `~~` is the floor, that is,
   * Dafny's integer division; the 32-bit conversion is kept explicit.
   */
  function I1toI3(res: nat, i: nat): (t: Index3)
    requires res > 0
  {
    Index3(i % res, Int32((i % (res * res)) / res), Int32(i / (res * res)))
  }

  /** i3toi1: `x + y * res + z * res2`. */
  function I3toI1(res: nat, x: int, y: int, z: int): (i: int) {
    x + y * res + z * (res * res)
  }

  /** True when every component of `t` lies in `[0, res)`. */
  predicate InRange(res: nat, t: Index3) {
    0 <= t.x < res && 0 <= t.y < res && 0 <= t.z < res
  }

  /**
   * i3toPos: `index * gridCellWidth + origin + halfCellWidth` on each axis,
   * the centre of the voxel with that index.
   */
  function I3toPos(gridCellWidth: real, halfCellWidth: real, origin: Vec3, t: Index3): (p: Vec3) {
    Vec3(t.x as real * gridCellWidth + origin.x + halfCellWidth,
         t.y as real * gridCellWidth + origin.y + halfCellWidth,
         t.z as real * gridCellWidth + origin.z + halfCellWidth)
  }

  // ---------------------------------------------------------------------
  // Integer division facts used by the round trips.

  /** Division and remainder are determined by any decomposition `n == q * d + r` with `0 <= r < d`. */
  lemma DivModUnique(n: int, d: int, q: int, r: int)
    requires d > 0 && 0 <= r < d && n == q * d + r
    ensures n / d == q && n % d == r
  {
    var q', r' := n / d, n % d;
    assert n == q' * d + r';
    if q' < q {
      assert (q - q') * d == r' - r;
      assert (q - q') * d >= d by { MulAtLeast(q - q', d); }
    } else if q' > q {
      assert (q' - q) * d == r - r';
      assert (q' - q) * d >= d by { MulAtLeast(q' - q, d); }
    }
  }

  lemma MulAtLeast(k: int, d: int)
    requires k >= 1 && d > 0
    ensures k * d >= d
  {
  }

  /** The remainder modulo `res` is unchanged by first reducing modulo `res * res`. */
  lemma ModOfMod(i: nat, res: nat)
    requires res > 0
    ensures (i % (res * res)) % res == i % res
  {
    var r2 := res * res;
    var a, b := i / r2, i % r2;
    assert i == a * r2 + b;
    var c, e := b / res, b % res;
    assert b == c * res + e;
    assert i == (a * res + c) * res + e;
    DivModUnique(i, res, a * res + c, e);
  }

  // ---------------------------------------------------------------------
  // The bijection.

  /** `n < d * k` bounds the quotient `n / d` by `k`. */
  lemma DivBelow(n: nat, d: nat, k: nat)
    requires d > 0 && n < d * k
    ensures 0 <= n / d < k
  {
    var q := n / d;
    assert n == q * d + n % d;
    if q >= k {
      MulMono(d, k, q);
    }
  }

  lemma MulMono(c: nat, a: int, b: int)
    requires a <= b
    ensures a * c <= b * c
  {
  }

  /** Every component of `i1toi3(i)` lies in `[0, res)` for `i < res^3`. */
  lemma I1toI3InRange(res: nat, i: nat)
    requires res > 0 && res <= TWO_POW_31
    requires i < res * res * res
    ensures InRange(res, I1toI3(res, i))
  {
    var r2 := res * res;
    assert r2 > 0;
    var y, z := (i % r2) / res, i / r2;
    assert 0 <= y < res by { DivBelow(i % r2, res, res); }
    assert 0 <= z < res by { DivBelow(i, r2, res); }
    assert I1toI3(res, i) == Index3(i % res, y, z);
  }

  /** Round trip from the linear index: `i3toi1(i1toi3(i)) == i` for every `i < res^3`. */
  lemma LinearRoundTrip(res: nat, i: nat)
    requires res > 0 && res <= TWO_POW_31
    requires i < res * res * res
    ensures var t := I1toI3(res, i); I3toI1(res, t.x, t.y, t.z) == i
  {
    var r2 := res * res;
    assert r2 > 0;
    var a, b := i / r2, i % r2;
    var y, x := b / res, b % res;
    assert 0 <= y < res by { DivBelow(b, res, res); }
    assert 0 <= a < res by { DivBelow(i, r2, res); }
    assert I1toI3(res, i) == Index3(x, y, a) by { ModOfMod(i, res); }
    assert i == x + y * res + a * r2 by {
      assert i == a * r2 + b;
      assert b == y * res + x;
    }
  }

  /** For components in `[0, res)` the linear index lies in `[0, res^3)`. */
  lemma Index3ToLinearInRange(res: nat, x: int, y: int, z: int)
    requires res > 0
    requires InRange(res, Index3(x, y, z))
    ensures 0 <= x + y * res < res * res
    ensures 0 <= I3toI1(res, x, y, z) < res * res * res
  {
    var r2 := res * res;
    assert 0 <= x + y * res < r2 by {
      MulMono(res, y, res - 1);
    }
    MulMono(r2, z, res - 1);
    assert (res - 1) * r2 + r2 == res * res * res;
  }

  /** Decomposing the linear index of `(x, y, z)` gives the components back. */
  lemma LinearDecomposes(res: nat, x: int, y: int, z: int)
    requires res > 0
    requires InRange(res, Index3(x, y, z))
    ensures var i := I3toI1(res, x, y, z);
      i / (res * res) == z && (i % (res * res)) / res == y && i % res == x
  {
    var r2 := res * res;
    var i := I3toI1(res, x, y, z);
    var low := x + y * res;
    Index3ToLinearInRange(res, x, y, z);
    DivModUnique(i, r2, z, low);
    DivModUnique(low, res, y, x);
    ModOfMod(i, res);
  }

  /**
   * Round trip from the 3D index: for components in `[0, res)` the linear
   * index lies in `[0, res^3)` and `i1toi3` gives the components back.
   */
  lemma Index3RoundTrip(res: nat, x: int, y: int, z: int)
    requires res > 0 && res <= TWO_POW_31
    requires InRange(res, Index3(x, y, z))
    ensures 0 <= I3toI1(res, x, y, z) < res * res * res
    ensures I1toI3(res, I3toI1(res, x, y, z)) == Index3(x, y, z)
  {
    Index3ToLinearInRange(res, x, y, z);
    LinearDecomposes(res, x, y, z);
  }

  /** The linear index is injective on in-range 3D indices. */
  lemma Index3Injective(res: nat, s: Index3, t: Index3)
    requires res > 0
    requires InRange(res, s) && InRange(res, t)
    requires I3toI1(res, s.x, s.y, s.z) == I3toI1(res, t.x, t.y, t.z)
    ensures s == t
  {
    LinearDecomposes(res, s.x, s.y, s.z);
    LinearDecomposes(res, t.x, t.y, t.z);
  }

  // ---------------------------------------------------------------------
  // Cell centres.

  /** On one axis: the centre `p = k * w + o + w / 2` lies strictly inside cell `k`, and flooring recovers `k`. */
  lemma CentreOnAxis(k: int, w: real, o: real, p: real)
    requires w > 0.0 && p == k as real * w + o + w / 2.0
    ensures o + k as real * w < p < o + (k + 1) as real * w
    ensures ((p - o) / w).Floor == k
  {
    var q := k as real + 0.5;
    assert p - o == q * w;
    assert (p - o) / w == q;
    assert k as real <= q < (k + 1) as real;
  }

  /** `p` lies strictly inside the cell `[origin + t * w, origin + (t + 1) * w)` on each axis. */
  predicate InsideCell(w: real, origin: Vec3, t: Index3, p: Vec3) {
    origin.x + t.x as real * w < p.x < origin.x + (t.x + 1) as real * w &&
    origin.y + t.y as real * w < p.y < origin.y + (t.y + 1) as real * w &&
    origin.z + t.z as real * w < p.z < origin.z + (t.z + 1) as real * w
  }

  /**
   * The position i3toPos gives is the centre of the voxel: it lies inside the
   * cell `[origin + t * w, origin + (t + 1) * w)` on each axis, when the half
   * width is half of the cell width, and the index is recovered from it.
   */
  lemma {:induction false} I3toPosIsCellCentre(w: real, origin: Vec3, t: Index3)
    requires w > 0.0
    ensures var p := I3toPos(w, w / 2.0, origin, t);
      InsideCell(w, origin, t, p) &&
      Index3(((p.x - origin.x) / w).Floor, ((p.y - origin.y) / w).Floor, ((p.z - origin.z) / w).Floor) == t
  {
    var p := I3toPos(w, w / 2.0, origin, t);
    CentreOnAxis(t.x, w, origin.x, p.x);
    CentreOnAxis(t.y, w, origin.y, p.y);
    CentreOnAxis(t.z, w, origin.z, p.z);
  }

  /**
   * The voxel with linear index `i < res^3` has an in-range 3D index, and its
   * centre lies strictly inside the cell of that index.
   */
  lemma LinearIndexCell(res: nat, w: real, origin: Vec3, i: nat)
    requires res > 0 && res <= TWO_POW_31 && i < res * res * res && w > 0.0
    ensures InRange(res, I1toI3(res, i))
    ensures InsideCell(w, origin, I1toI3(res, i), I3toPos(w, w / 2.0, origin, I1toI3(res, i)))
  {
    I1toI3InRange(res, i);
    I3toPosIsCellCentre(w, origin, I1toI3(res, i));
  }

  /** Distinct voxels have distinct centres. */
  lemma I3toPosInjective(w: real, origin: Vec3, s: Index3, t: Index3)
    requires w > 0.0
    requires I3toPos(w, w / 2.0, origin, s) == I3toPos(w, w / 2.0, origin, t)
    ensures s == t
  {
    I3toPosIsCellCentre(w, origin, s);
    I3toPosIsCellCentre(w, origin, t);
  }
}
