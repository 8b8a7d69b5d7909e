/**
 * Points, path segments and affine transforms over the reals, in the shape of
 * tiny_skia's `Point`, `PathSegment` and `Transform` (f32 idealised as real).
 */
module Geometry {

  datatype Point = Point(x: real, y: real)

  /** One drawing primitive of a path. */
  datatype Segment =
    | MoveTo(p: Point)
    | LineTo(p: Point)
    | QuadTo(c: Point, p: Point)
    | CubicTo(c1: Point, c2: Point, p: Point)
    | Close

  /**
   * tiny_skia's row-major affine matrix
   *   x' = sx * x + kx * y + tx
   *   y' = ky * x + sy * y + ty
   */
  datatype Transform = Transform(sx: real, ky: real, kx: real, sy: real, tx: real, ty: real)

  /** `Transform::default()` / `Transform::identity()`. */
  function Identity(): Transform {
    Transform(1.0, 0.0, 0.0, 1.0, 0.0, 0.0)
  }

  function FromTranslate(tx: real, ty: real): Transform {
    Transform(1.0, 0.0, 0.0, 1.0, tx, ty)
  }

  function FromScale(sx: real, sy: real): Transform {
    Transform(sx, 0.0, 0.0, sy, 0.0, 0.0)
  }

  /** Matrix product `a * b`: apply `b` first, then `a`. */
  function Concat(a: Transform, b: Transform): Transform {
    Transform(
      a.sx * b.sx + a.kx * b.ky,
      a.ky * b.sx + a.sy * b.ky,
      a.sx * b.kx + a.kx * b.sy,
      a.ky * b.kx + a.sy * b.sy,
      a.sx * b.tx + a.kx * b.ty + a.tx,
      a.ky * b.tx + a.sy * b.ty + a.ty)
  }

  /** `t.pre_scale(sx, sy)`: scale first, then `t`. */
  function PreScale(t: Transform, sx: real, sy: real): Transform {
    Concat(t, FromScale(sx, sy))
  }

  function MapPoint(t: Transform, p: Point): Point {
    Point(t.sx * p.x + t.kx * p.y + t.tx, t.ky * p.x + t.sy * p.y + t.ty)
  }

  function MapSegment(t: Transform, s: Segment): Segment {
    match s
    case MoveTo(p) => MoveTo(MapPoint(t, p))
    case LineTo(p) => LineTo(MapPoint(t, p))
    case QuadTo(c, p) => QuadTo(MapPoint(t, c), MapPoint(t, p))
    case CubicTo(c1, c2, p) => CubicTo(MapPoint(t, c1), MapPoint(t, c2), MapPoint(t, p))
    case Close => Close
  }

  /** `Path::transform`: every point of every segment mapped, order and kinds kept. */
  function MapPath(t: Transform, path: seq<Segment>): (r: seq<Segment>)
    ensures |r| == |path|
    ensures forall i :: 0 <= i < |path| ==> r[i] == MapSegment(t, path[i])
  {
    if path == [] then [] else [MapSegment(t, path[0])] + MapPath(t, path[1..])
  }

  lemma MapPathAppend(t: Transform, a: seq<Segment>, b: seq<Segment>)
    ensures MapPath(t, a + b) == MapPath(t, a) + MapPath(t, b)
  {
  }

  /** The identity transform leaves every point where it is. */
  lemma MapIdentity(path: seq<Segment>)
    ensures MapPath(Identity(), path) == path
  {
    forall i | 0 <= i < |path| ensures MapPath(Identity(), path)[i] == path[i] {
      match path[i]
      case _ =>
    }
  }

  /** Concatenation composes: mapping by `a * b` is mapping by `b`, then by `a`. */
  lemma MapPointConcat(a: Transform, b: Transform, p: Point)
    ensures MapPoint(Concat(a, b), p) == MapPoint(a, MapPoint(b, p))
  {
    ConcatMapsX(a, b, p);
    ConcatMapsY(a, b, p);
  }

  lemma ConcatMapsX(a: Transform, b: Transform, p: Point)
    ensures MapPoint(Concat(a, b), p).x == MapPoint(a, MapPoint(b, p)).x
  {
    var q, c := MapPoint(b, p), Concat(a, b);
    ConcatRow(a.sx, a.kx, a.tx, b, p, q.x, q.y, c.sx, c.kx, c.tx);
  }

  lemma ConcatMapsY(a: Transform, b: Transform, p: Point)
    ensures MapPoint(Concat(a, b), p).y == MapPoint(a, MapPoint(b, p)).y
  {
    var q, c := MapPoint(b, p), Concat(a, b);
    ConcatRow(a.ky, a.sy, a.ty, b, p, q.x, q.y, c.ky, c.sy, c.ty);
  }

  /**
   * One row (u, v, w) of the left matrix: applied to the point `b` made, it
   * gives what the row (cs, ck, ct) of the product gives on the original.
   */
  lemma ConcatRow(u: real, v: real, w: real, b: Transform, p: Point, qx: real, qy: real,
                  cs: real, ck: real, ct: real)
    requires qx == b.sx * p.x + b.kx * p.y + b.tx && qy == b.ky * p.x + b.sy * p.y + b.ty
    requires cs == u * b.sx + v * b.ky && ck == u * b.kx + v * b.sy && ct == u * b.tx + v * b.ty + w
    ensures u * qx + v * qy + w == cs * p.x + ck * p.y + ct
  {
    calc {
      u * qx + v * qy + w;
      u * (b.sx * p.x + b.kx * p.y + b.tx) + v * (b.ky * p.x + b.sy * p.y + b.ty) + w;
      u * b.sx * p.x + u * b.kx * p.y + u * b.tx + v * b.ky * p.x + v * b.sy * p.y + v * b.ty + w;
      (u * b.sx + v * b.ky) * p.x + (u * b.kx + v * b.sy) * p.y + (u * b.tx + v * b.ty + w);
    }
  }

  /** `pre_scale` scales the point first and then applies the original transform. */
  lemma PreScaleMaps(t: Transform, sx: real, sy: real, p: Point)
    ensures MapPoint(PreScale(t, sx, sy), p) == MapPoint(t, Point(sx * p.x, sy * p.y))
  {
    MapPointConcat(t, FromScale(sx, sy), p);
  }

  /** The matrix of translate(tx, ty) after scale(sx, sy), written out. */
  function TranslateScale(tx: real, ty: real, sx: real, sy: real): Transform {
    Transform(sx, 0.0, 0.0, sy, tx, ty)
  }

  /** `Transform::from_translate(tx, ty).pre_scale(sx, sy)` is that matrix. */
  lemma PreScaleOfTranslate(tx: real, ty: real, sx: real, sy: real)
    ensures PreScale(FromTranslate(tx, ty), sx, sy) == TranslateScale(tx, ty, sx, sy)
  {
  }

  /** translate(tx, ty) after scale(sx, sy) sends (x, y) to (sx x + tx, sy y + ty). */
  lemma TranslateScalePoint(tx: real, ty: real, sx: real, sy: real, p: Point)
    ensures MapPoint(PreScale(FromTranslate(tx, ty), sx, sy), p) == Point(sx * p.x + tx, sy * p.y + ty)
  {
    MapPointConcat(FromTranslate(tx, ty), FromScale(sx, sy), p);
  }

  /** Reflection about the horizontal line y == c. */
  function MirrorPoint(p: Point, c: real): (r: Point)
    ensures r.x == p.x && r.y - c == c - p.y
  {
    Point(p.x, 2.0 * c - p.y)
  }

  function MirrorSegment(s: Segment, c: real): Segment {
    match s
    case MoveTo(p) => MoveTo(MirrorPoint(p, c))
    case LineTo(p) => LineTo(MirrorPoint(p, c))
    case QuadTo(q, p) => QuadTo(MirrorPoint(q, c), MirrorPoint(p, c))
    case CubicTo(c1, c2, p) => CubicTo(MirrorPoint(c1, c), MirrorPoint(c2, c), MirrorPoint(p, c))
    case Close => Close
  }

  function MirrorPath(path: seq<Segment>, c: real): (r: seq<Segment>)
    ensures |r| == |path|
    ensures forall i :: 0 <= i < |path| ==> r[i] == MirrorSegment(path[i], c)
  {
    if path == [] then [] else [MirrorSegment(path[0], c)] + MirrorPath(path[1..], c)
  }

  lemma MirrorPathAppend(a: seq<Segment>, b: seq<Segment>, c: real)
    ensures MirrorPath(a + b, c) == MirrorPath(a, c) + MirrorPath(b, c)
  {
  }

  /**
   * Negating the vertical scale of translate(tx, ty) * scale(sx, sy) mirrors
   * every mapped point about y == ty.
   */
  lemma FlipScaleMirrorsPoint(tx: real, ty: real, sx: real, sy: real, p: Point)
    ensures MapPoint(TranslateScale(tx, ty, sx, -sy), p)
         == MirrorPoint(MapPoint(TranslateScale(tx, ty, sx, sy), p), ty)
  {
  }

  lemma {:induction false} FlipScaleMirrorsPath(tx: real, ty: real, sx: real, sy: real, path: seq<Segment>)
    ensures MapPath(TranslateScale(tx, ty, sx, -sy), path)
         == MirrorPath(MapPath(TranslateScale(tx, ty, sx, sy), path), ty)
  {
    var up := TranslateScale(tx, ty, sx, sy);
    var down := TranslateScale(tx, ty, sx, -sy);
    forall i | 0 <= i < |path|
      ensures MapSegment(down, path[i]) == MirrorSegment(MapSegment(up, path[i]), ty)
    {
      match path[i]
      case MoveTo(p) =>
        FlipScaleMirrorsPoint(tx, ty, sx, sy, p);
      case LineTo(p) =>
        FlipScaleMirrorsPoint(tx, ty, sx, sy, p);
      case QuadTo(c, p) =>
        FlipScaleMirrorsPoint(tx, ty, sx, sy, c);
        FlipScaleMirrorsPoint(tx, ty, sx, sy, p);
      case CubicTo(c1, c2, p) =>
        FlipScaleMirrorsPoint(tx, ty, sx, sy, c1);
        FlipScaleMirrorsPoint(tx, ty, sx, sy, c2);
        FlipScaleMirrorsPoint(tx, ty, sx, sy, p);
      case Close =>
    }
  }
}
