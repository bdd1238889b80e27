/** The thin-lens camera (src/camera.rs): an orthonormal frame `u, v, w`
    built from the look-from and look-at points, a viewport on the focus
    plane, and rays through a random point of the lens. `to_radians`, `tan`
    and `sqrt` are passed in; the lens and time samples are parameters. */
module Cameras {
  import opened Utils
  import opened Vectors
  import opened Rays

  datatype Camera = Camera(
    origin: Vec3,
    lowerLeftCorner: Vec3,
    horizontal: Vec3,
    vertical: Vec3,
    u: Vec3,
    v: Vec3,
    w: Vec3,
    lensRadius: real,
    time0: real,
    time1: real)

  /** The viewing frame of `Camera::new`: `w` points from the look-at point
      back to the eye, `u` is across the view and `v = w x u` is up. The
      three directions are pairwise orthogonal whatever the inputs. */
  function Frame(lookFrom: Vec3, lookAt: Vec3, viewUp: Vec3, sqrt: real -> real): (f: (Vec3, Vec3, Vec3))
    ensures Dot(f.0, f.2) == 0.0 && Dot(f.1, f.0) == 0.0 && Dot(f.1, f.2) == 0.0
  {
    var w := Norm(Sub(lookFrom, lookAt), sqrt);
    var c := Cross(viewUp, w);
    var u := Norm(c, sqrt);
    FrameOrthogonal(viewUp, w, sqrt);
    (u, Cross(w, u), w)
  }

  /** `u = norm(up x w)` is orthogonal to `w`, and `w x u` to both. */
  lemma FrameOrthogonal(viewUp: Vec3, w: Vec3, sqrt: real -> real)
    ensures Dot(Norm(Cross(viewUp, w), sqrt), w) == 0.0
    ensures Dot(Cross(w, Norm(Cross(viewUp, w), sqrt)), Norm(Cross(viewUp, w), sqrt)) == 0.0
    ensures Dot(Cross(w, Norm(Cross(viewUp, w), sqrt)), w) == 0.0
  {
    var c := Cross(viewUp, w);
    var u := Norm(c, sqrt);
    CrossOrthogonal(viewUp, w);
    DotSymmetric(w, c);
    NormKeepsOrthogonal(c, w, sqrt);
    CrossOrthogonal(w, u);
    DotSymmetric(w, Cross(w, u));
    DotSymmetric(u, Cross(w, u));
  }

  /** The fields of `Camera::new` from the frame, the half extents of the
      viewport at unit distance and the focus distance. */
  function FromFrame(origin: Vec3, u: Vec3, v: Vec3, w: Vec3, halfWidth: real, halfHeight: real,
                     aperture: real, focusDist: real, time0: real, time1: real): (c: Camera)
    ensures c.origin == origin && c.u == u && c.v == v && c.w == w
    ensures c.lensRadius == aperture / 2.0
    ensures c.time0 == time0 && c.time1 == time1
    ensures c.horizontal == Scale(u, 2.0 * halfWidth * focusDist)
    ensures c.vertical == Scale(v, 2.0 * halfHeight * focusDist)
    ensures Add(Add(c.lowerLeftCorner, Scale(c.horizontal, 0.5)), Scale(c.vertical, 0.5)) ==
            Sub(origin, Scale(w, focusDist))
  {
    var lowerLeftCorner :=
      Sub(Sub(Sub(origin, Scale(u, halfWidth * focusDist)), Scale(v, halfHeight * focusDist)), Scale(w, focusDist));
    var horizontal := Scale(u, 2.0 * halfWidth * focusDist);
    var vertical := Scale(v, 2.0 * halfHeight * focusDist);
    HalfOfDoubled(u, halfWidth * focusDist);
    HalfOfDoubled(v, halfHeight * focusDist);
    assert 2.0 * halfWidth * focusDist == 2.0 * (halfWidth * focusDist);
    assert 2.0 * halfHeight * focusDist == 2.0 * (halfHeight * focusDist);
    Camera(origin, lowerLeftCorner, horizontal, vertical, u, v, w, aperture / 2.0, time0, time1)
  }

  /** Half of `v` scaled by `2 s` is `v` scaled by `s`. */
  lemma HalfOfDoubled(v: Vec3, s: real)
    ensures Scale(Scale(v, 2.0 * s), 0.5) == Scale(v, s)
  {
  }

  /** `theta / 2` for a vertical field of view in degrees, `to_radians`
      being passed in. */
  function HalfAngle(verticalFieldOfView: real, toRadians: real -> real): real
  {
    toRadians(verticalFieldOfView) / 2.0
  }

  /** `Camera::new` as written: the half height is `tan(theta / 2)` scaled
      by `aspect`, and the half width is `aspect` times that. */
  function NewAsWritten(lookFrom: Vec3, lookAt: Vec3, viewUp: Vec3, verticalFieldOfView: real, aspect: real,
                        aperture: real, focusDist: real, time0: real, time1: real,
                        toRadians: real -> real, tan: real -> real, sqrt: real -> real): (c: Camera)
    ensures c.lensRadius == aperture / 2.0
    ensures c.time0 == time0 && c.time1 == time1
    ensures c.origin == lookFrom
    ensures (c.u, c.v, c.w) == Frame(lookFrom, lookAt, viewUp, sqrt)
    ensures Add(Add(c.lowerLeftCorner, Scale(c.horizontal, 0.5)), Scale(c.vertical, 0.5)) ==
            Sub(lookFrom, Scale(c.w, focusDist))
  {
    var f := Frame(lookFrom, lookAt, viewUp, sqrt);
    var halfHeight := aspect * tan(HalfAngle(verticalFieldOfView, toRadians));
    var c := FromFrame(lookFrom, f.0, f.1, f.2, aspect * halfHeight, halfHeight, aperture, focusDist, time0, time1);
    c
  }

  /** `Camera::new` with the half height `tan(theta / 2)` that the vertical
      field of view calls for, and the half width `aspect` times it. */
  function New(lookFrom: Vec3, lookAt: Vec3, viewUp: Vec3, verticalFieldOfView: real, aspect: real,
               aperture: real, focusDist: real, time0: real, time1: real,
               toRadians: real -> real, tan: real -> real, sqrt: real -> real): (c: Camera)
    ensures c.lensRadius == aperture / 2.0
    ensures c.time0 == time0 && c.time1 == time1
    ensures c.origin == lookFrom
    ensures (c.u, c.v, c.w) == Frame(lookFrom, lookAt, viewUp, sqrt)
    ensures c.v == Cross(c.w, c.u)
    ensures Add(Add(c.lowerLeftCorner, Scale(c.horizontal, 0.5)), Scale(c.vertical, 0.5)) ==
            Sub(lookFrom, Scale(c.w, focusDist))
    ensures c.vertical == Scale(c.v, 2.0 * tan(HalfAngle(verticalFieldOfView, toRadians)) * focusDist)
    ensures c.horizontal == Scale(c.u, 2.0 * (aspect * tan(HalfAngle(verticalFieldOfView, toRadians))) * focusDist)
  {
    var f := Frame(lookFrom, lookAt, viewUp, sqrt);
    FromFrame(lookFrom, f.0, f.1, f.2, aspect * tan(HalfAngle(verticalFieldOfView, toRadians)),
              tan(HalfAngle(verticalFieldOfView, toRadians)), aperture, focusDist, time0, time1)
  }

  /** The camera frame is orthonormal whenever the eye is away from the
      look-at point and the up vector is not along the view. */
  lemma FrameOrthonormal(lookFrom: Vec3, lookAt: Vec3, viewUp: Vec3, sqrt: real -> real)
    requires IsSqrt(sqrt)
    requires lookFrom != lookAt
    requires Cross(viewUp, Norm(Sub(lookFrom, lookAt), sqrt)) != Zero
    ensures var f := Frame(lookFrom, lookAt, viewUp, sqrt);
      LengthSquared(f.0) == 1.0 && LengthSquared(f.1) == 1.0 && LengthSquared(f.2) == 1.0 &&
      Dot(f.0, f.1) == 0.0 && Dot(f.1, f.2) == 0.0 && Dot(f.0, f.2) == 0.0
  {
    var w := Norm(Sub(lookFrom, lookAt), sqrt);
    var c := Cross(viewUp, w);
    var u := Norm(c, sqrt);
    var v := Cross(w, u);
    assert Sub(lookFrom, lookAt) != Zero by {
      if Sub(lookFrom, lookAt) == Zero {
        AddSubCancel(lookAt, lookFrom);
      }
    }
    CrossOrthogonal(viewUp, w);
    NormKeepsOrthogonal(c, w, sqrt);
    CrossOrthogonal(w, u);
    DotSymmetric(u, w);
    Lagrange(w, u);
    DotSymmetric(u, v);
    DotSymmetric(v, w);
  }

  /** Normalising a vector orthogonal to `w` keeps it orthogonal. */
  lemma NormKeepsOrthogonal(c: Vec3, w: Vec3, sqrt: real -> real)
    requires Dot(c, w) == 0.0
    ensures Dot(Norm(c, sqrt), w) == 0.0
  {
    var m := Magnitude(c, sqrt);
    if m != 0.0 {
      var k := 1.0 / m;
      assert Norm(c, sqrt) == Vec3(c.x / m, c.y / m, c.z / m);
      assert c.x / m == k * c.x && c.y / m == k * c.y && c.z / m == k * c.z;
      assert Dot(Vec3(k * c.x, k * c.y, k * c.z), w) == k * Dot(c, w);
    }
  }

  /** With a unit `v`, the vertical edge of the viewport of `New` spans
      `2 tan(theta / 2)` at unit distance: the requested field of view. */
  lemma NewVerticalSpan(lookFrom: Vec3, lookAt: Vec3, viewUp: Vec3, verticalFieldOfView: real, aspect: real,
                        aperture: real, focusDist: real, time0: real, time1: real,
                        toRadians: real -> real, tan: real -> real, sqrt: real -> real)
    requires IsSqrt(sqrt)
    requires lookFrom != lookAt
    requires Cross(viewUp, Norm(Sub(lookFrom, lookAt), sqrt)) != Zero
    ensures var c := New(lookFrom, lookAt, viewUp, verticalFieldOfView, aspect, aperture, focusDist,
                         time0, time1, toRadians, tan, sqrt);
      LengthSquared(c.vertical) == Square(2.0 * tan(HalfAngle(verticalFieldOfView, toRadians)) * focusDist)
  {
    FrameOrthonormal(lookFrom, lookAt, viewUp, sqrt);
    UnitFrameVerticalSpan(lookFrom, lookAt, viewUp, verticalFieldOfView, aspect, aperture, focusDist,
                          time0, time1, toRadians, tan, sqrt);
  }

  lemma UnitFrameVerticalSpan(lookFrom: Vec3, lookAt: Vec3, viewUp: Vec3, verticalFieldOfView: real, aspect: real,
                              aperture: real, focusDist: real, time0: real, time1: real,
                              toRadians: real -> real, tan: real -> real, sqrt: real -> real)
    requires LengthSquared(Frame(lookFrom, lookAt, viewUp, sqrt).1) == 1.0
    ensures var c := New(lookFrom, lookAt, viewUp, verticalFieldOfView, aspect, aperture, focusDist,
                         time0, time1, toRadians, tan, sqrt);
      LengthSquared(c.vertical) == Square(2.0 * tan(HalfAngle(verticalFieldOfView, toRadians)) * focusDist)
  {
    var c := New(lookFrom, lookAt, viewUp, verticalFieldOfView, aspect, aperture, focusDist,
                 time0, time1, toRadians, tan, sqrt);
    UnitSpan(c.v, 2.0 * tan(HalfAngle(verticalFieldOfView, toRadians)) * focusDist);
  }

  /** A unit vector scaled by `s` has squared length `s^2`. */
  lemma UnitSpan(v: Vec3, s: real)
    requires LengthSquared(v) == 1.0
    ensures LengthSquared(Scale(v, s)) == Square(s)
  {
    LengthSquaredScaled(v, s);
  }

  /** Scaling a vector scales its squared length by the square. */
  lemma LengthSquaredScaled(v: Vec3, s: real)
    ensures LengthSquared(Scale(v, s)) == Square(s) * LengthSquared(v)
  {
    assert Square(v.x * s) == Square(s) * Square(v.x);
    assert Square(v.y * s) == Square(s) * Square(v.y);
    assert Square(v.z * s) == Square(s) * Square(v.z);
  }

  /** The camera as written widens the vertical view: with an orthonormal
      frame, aspect 2, a field of view whose `tan(theta / 2)` is 1 (90
      degrees) and focus distance 1, the vertical edge of the viewport has
      squared length 16, where that field of view calls for 4, which `New`
      gives. */
  lemma NewAsWrittenWidensView(lookFrom: Vec3, lookAt: Vec3, viewUp: Vec3, verticalFieldOfView: real,
                               aperture: real, time0: real, time1: real,
                               toRadians: real -> real, tan: real -> real, sqrt: real -> real)
    requires IsSqrt(sqrt)
    requires lookFrom != lookAt
    requires Cross(viewUp, Norm(Sub(lookFrom, lookAt), sqrt)) != Zero
    requires tan(HalfAngle(verticalFieldOfView, toRadians)) == 1.0
    ensures LengthSquared(NewAsWritten(lookFrom, lookAt, viewUp, verticalFieldOfView, 2.0, aperture, 1.0,
                                       time0, time1, toRadians, tan, sqrt).vertical) == 16.0
    ensures LengthSquared(New(lookFrom, lookAt, viewUp, verticalFieldOfView, 2.0, aperture, 1.0,
                              time0, time1, toRadians, tan, sqrt).vertical) == 4.0
  {
    var f := Frame(lookFrom, lookAt, viewUp, sqrt);
    FrameOrthonormal(lookFrom, lookAt, viewUp, sqrt);
    var h := tan(HalfAngle(verticalFieldOfView, toRadians));
    var c := FromFrame(lookFrom, f.0, f.1, f.2, 2.0 * (2.0 * h), 2.0 * h, aperture, 1.0, time0, time1);
    assert NewAsWritten(lookFrom, lookAt, viewUp, verticalFieldOfView, 2.0, aperture, 1.0,
                        time0, time1, toRadians, tan, sqrt) == c;
    assert 2.0 * (2.0 * h) * 1.0 == 4.0;
    UnitSpan(c.v, 4.0);
    NewVerticalSpan(lookFrom, lookAt, viewUp, verticalFieldOfView, 2.0, aperture, 1.0,
                    time0, time1, toRadians, tan, sqrt);
    assert 2.0 * h * 1.0 == 2.0;
  }

  /** `get_ray(s, t)` for a lens sample `disk` in the unit disk and a time
      draw `timeDraw` in [0, 1): the ray leaves a point of the lens and
      aims at the viewport point for `(s, t)`. */
  function GetRay(c: Camera, s: real, t: real, disk: Vec3, timeDraw: real): (r: Ray)
    ensures At(r, 1.0) == Add(Add(c.lowerLeftCorner, Scale(c.horizontal, s)), Scale(c.vertical, t))
    ensures disk.x == 0.0 && disk.y == 0.0 ==> r.origin == c.origin
    ensures 0.0 <= timeDraw < 1.0 && c.time0 <= c.time1 ==> c.time0 <= r.time <= c.time1
  {
    var rd := ScaleLeft(c.lensRadius, disk);
    var offset := Add(Scale(c.u, rd.x), Scale(c.v, rd.y));
    Ray(Add(c.origin, offset),
        Sub(Sub(Add(Add(c.lowerLeftCorner, Scale(c.horizontal, s)), Scale(c.vertical, t)), c.origin), offset),
        RandomInRange(c.time0, c.time1, timeDraw))
  }

  /** With an orthonormal `u, v` the ray of `get_ray` leaves the lens within
      the lens radius of the camera origin. */
  lemma GetRayWithinLens(c: Camera, s: real, t: real, disk: Vec3, timeDraw: real)
    requires LengthSquared(c.u) == 1.0 && LengthSquared(c.v) == 1.0 && Dot(c.u, c.v) == 0.0
    requires Square(disk.x) + Square(disk.y) < 1.0
    ensures LengthSquared(Sub(GetRay(c, s, t, disk, timeDraw).origin, c.origin)) <= Square(c.lensRadius)
  {
    var offset := Add(Scale(c.u, disk.x * c.lensRadius), Scale(c.v, disk.y * c.lensRadius));
    assert GetRay(c, s, t, disk, timeDraw).origin == Add(c.origin, offset);
    assert Sub(Add(c.origin, offset), c.origin) == offset;
    LensOffsetBound(c.u, c.v, disk.x, disk.y, c.lensRadius);
  }

  /** A point `r (dx u + dy v)` of a lens of radius `r` spanned by an
      orthonormal `u, v`, for `(dx, dy)` in the unit disk, is within `r` of
      the lens centre. */
  lemma LensOffsetBound(u: Vec3, v: Vec3, dx: real, dy: real, r: real)
    requires LengthSquared(u) == 1.0 && LengthSquared(v) == 1.0 && Dot(u, v) == 0.0
    requires Square(dx) + Square(dy) < 1.0
    ensures LengthSquared(Add(Scale(u, dx * r), Scale(v, dy * r))) <= Square(r)
  {
    OffsetLength(u, v, dx * r, dy * r);
    SquareOfProduct(dx, r);
    SquareOfProduct(dy, r);
    SquareFacts(r);
    ScaledBelow(Square(dx * r) + Square(dy * r), Square(dx) + Square(dy), Square(r));
  }

  lemma ScaledBelow(x: real, d: real, l: real)
    requires x == d * l && d < 1.0 && 0.0 <= l
    ensures x <= l
  {
    MulLe(d, 1.0, l);
  }

  lemma SquareOfProduct(a: real, b: real)
    ensures Square(a * b) == Square(a) * Square(b)
  {
  }

  /** `|a u + b v|^2 = a^2 + b^2` for orthonormal `u, v`. */
  lemma OffsetLength(u: Vec3, v: Vec3, a: real, b: real)
    requires LengthSquared(u) == 1.0 && LengthSquared(v) == 1.0 && Dot(u, v) == 0.0
    ensures LengthSquared(Add(Scale(u, a), Scale(v, b))) == Square(a) + Square(b)
  {
    LengthSquaredOfSum(Scale(u, a), Scale(v, b));
    LengthSquaredScaled(u, a);
    LengthSquaredScaled(v, b);
    DotScaled(u, v, a, b);
    Times(Square(a), LengthSquared(u), 1.0);
    Times(Square(b), LengthSquared(v), 1.0);
    Times(a * b, Dot(u, v), 0.0);
  }

  lemma LengthSquaredOfSum(x: Vec3, y: Vec3)
    ensures LengthSquared(Add(x, y)) == LengthSquared(x) + 2.0 * Dot(x, y) + LengthSquared(y)
  {
    assert Square(x.x + y.x) == Square(x.x) + 2.0 * (x.x * y.x) + Square(y.x);
    assert Square(x.y + y.y) == Square(x.y) + 2.0 * (x.y * y.y) + Square(y.y);
    assert Square(x.z + y.z) == Square(x.z) + 2.0 * (x.z * y.z) + Square(y.z);
  }

  lemma DotScaled(u: Vec3, v: Vec3, a: real, b: real)
    ensures Dot(Scale(u, a), Scale(v, b)) == (a * b) * Dot(u, v)
  {
    assert (u.x * a) * (v.x * b) == (a * b) * (u.x * v.x);
    assert (u.y * a) * (v.y * b) == (a * b) * (u.y * v.y);
    assert (u.z * a) * (v.z * b) == (a * b) * (u.z * v.z);
  }

  /** Substituting a known value into a product. */
  lemma Times(x: real, y: real, k: real)
    requires y == k
    ensures x * y == x * k
  {
  }

}
