/** Ray generation (CalculateRayDirection in ConsoleApp1/RayTracer.cs), up to
    the final normalisation, which the model leaves abstract. */
module Camera {
  import opened Vectors

  /** One image-plane coordinate: the pixel index plus its jitter, mapped
      linearly from [0, size] onto [lo, hi]. The same formula gives px from
      (l, r, x, rx, width) and py from (b, t, y, ry, height). */
  function ImageCoord(lo: real, hi: real, i: int, jitter: real, size: int): real
    requires size != 0
  {
    lo + (hi - lo) * (i as real + jitter) / size as real
  }

  /** The direction -w*d + u*px + v*py before it is normalised. */
  function RayDirection(x: int, y: int, rx: real, ry: real, width: int, height: int,
                        l: real, r: real, b: real, t: real, d: real,
                        u: Vec3, v: Vec3, w: Vec3): Vec3
    requires width != 0 && height != 0
  {
    var px := ImageCoord(l, r, x, rx, width);
    var py := ImageCoord(b, t, y, ry, height);
    Add(Add(Scale(Neg(w), d), Scale(u, px)), Scale(v, py))
  }

  /** A sample position inside the frame lands inside the image-plane window. */
  lemma ImageCoordInWindow(lo: real, hi: real, i: int, jitter: real, size: int)
    requires lo <= hi && 0 < size
    requires 0.0 <= i as real + jitter <= size as real
    ensures lo <= ImageCoord(lo, hi, i, jitter, size) <= hi
  {
    var k, f := hi - lo, (i as real + jitter) / size as real;
    FractionInUnit(i as real + jitter, size as real);
    ImageCoordAsFraction(lo, hi, i, jitter, size);
    ProductWithin(k, f);
    assert ImageCoord(lo, hi, i, jitter, size) == lo + k * f;
  }

  /** The coordinate is lo plus the fraction (i + jitter) / size of the window. */
  lemma ImageCoordAsFraction(lo: real, hi: real, i: int, jitter: real, size: int)
    requires size != 0
    ensures ImageCoord(lo, hi, i, jitter, size) == lo + (hi - lo) * ((i as real + jitter) / size as real)
  {
    ScaledQuotient(hi - lo, i as real + jitter, size as real);
  }

  /** Pixel i with no jitter, at the middle of a frame of 2*i pixels, maps to
      the middle of the window. */
  lemma ImageCoordMidpoint(lo: real, hi: real, i: int, size: int)
    requires 0 < i && size == 2 * i
    ensures ImageCoord(lo, hi, i, 0.0, size) == (lo + hi) / 2.0
  {
    ScaledQuotient(hi - lo, i as real + 0.0, size as real);
    assert (i as real + 0.0) / size as real == 0.5;
  }

  /** The mapping is monotone in the sample position i + jitter. */
  lemma ImageCoordMonotone(lo: real, hi: real, i1: int, j1: real, i2: int, j2: real, size: int)
    requires lo <= hi && 0 < size
    requires i1 as real + j1 <= i2 as real + j2
    ensures ImageCoord(lo, hi, i1, j1, size) <= ImageCoord(lo, hi, i2, j2, size)
  {
    var f1 := (i1 as real + j1) / size as real;
    var f2 := (i2 as real + j2) / size as real;
    assert f1 <= f2;
    assert (hi - lo) * (i1 as real + j1) / size as real == (hi - lo) * f1;
    assert (hi - lo) * (i2 as real + j2) / size as real == (hi - lo) * f2;
    assert (hi - lo) * f2 - (hi - lo) * f1 == (hi - lo) * (f2 - f1);
    ProductNonNegative(hi - lo, f2 - f1);
  }

  /** In the camera basis the renderer uses (u, v, w the coordinate axes) the
      un-normalised direction is (px, py, -d), so it is never the zero vector
      when d is non-zero and normalising it is well defined. */
  lemma RayDirectionInAxisBasis(x: int, y: int, rx: real, ry: real, width: int, height: int,
                                l: real, r: real, b: real, t: real, d: real)
    requires width != 0 && height != 0
    ensures RayDirection(x, y, rx, ry, width, height, l, r, b, t, d,
                         Vec3(1.0, 0.0, 0.0), Vec3(0.0, 1.0, 0.0), Vec3(0.0, 0.0, 1.0))
         == Vec3(ImageCoord(l, r, x, rx, width), ImageCoord(b, t, y, ry, height), -d)
  {
    var px := ImageCoord(l, r, x, rx, width);
    var py := ImageCoord(b, t, y, ry, height);
    assert Scale(Neg(Vec3(0.0, 0.0, 1.0)), d) == Vec3(0.0, 0.0, -d);
    assert Scale(Vec3(1.0, 0.0, 0.0), px) == Vec3(px, 0.0, 0.0);
    assert Scale(Vec3(0.0, 1.0, 0.0), py) == Vec3(0.0, py, 0.0);
  }

  /** A quotient n / s with 0 <= n <= s lies in [0, 1]. */
  lemma FractionInUnit(n: real, s: real)
    requires 0.0 < s && 0.0 <= n <= s
    ensures 0.0 <= n / s <= 1.0
  {
  }

  lemma ScaledQuotient(k: real, n: real, s: real)
    requires s != 0.0
    ensures k * n / s == k * (n / s)
  {
  }

  lemma ProductWithin(k: real, f: real)
    requires 0.0 <= k && 0.0 <= f <= 1.0
    ensures 0.0 <= k * f
    ensures k * f <= k
  {
    ProductNonNegative(k, f);
    ProductNonNegative(k, 1.0 - f);
    assert k * (1.0 - f) == k - k * f;
  }
}
