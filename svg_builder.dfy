/**
 * `SVGPathBuilder`: two segment buffers. The outline callbacks append only to
 * the scratch buffer `current`; `Clear` moves the transformed scratch onto the
 * accumulated `builder` and empties the scratch.
 */
module SvgBuilder {
  import opened Wrappers
  import opened Geometry
  import PathData

  /** tiny_skia's `PathBuilder::finish`: no path from an empty builder. */
  function Finish(segs: seq<Segment>): (r: Option<seq<Segment>>)
    ensures r.None? <==> segs == []
    ensures r.Some? ==> r.value == segs
  {
    if segs == [] then None else Some(segs)
  }

  class SvgPathBuilder {
    var builder: seq<Segment>
    var current: seq<Segment>

    constructor ()
      ensures builder == [] && current == []
    {
      builder := [];
      current := [];
    }

    /** `path`: the accumulated path, absent when nothing was accumulated. */
    method Path() returns (p: Option<seq<Segment>>)
      ensures p.None? <==> builder == []
      ensures p.Some? ==> p.value == builder
    {
      p := Finish(builder);
    }

    /**
     * `path_raw`: the path-data text of the accumulated path mapped by `ts`
     * (identity when absent), and the empty text when there is no path.
     */
    method PathRaw(ts: Option<Transform>, fmt: real -> string) returns (r: Result<string, PathData.FormatError>)
      ensures r.Ok?
      ensures builder == [] ==> r.value == ""
      ensures r.value == PathData.PathText(MapPath(ts.GetOr(Identity()), builder), fmt)
    {
      var path := Finish(builder);
      if path.Some? {
        var mapped := MapPath(ts.GetOr(Identity()), path.value);
        r := PathData.PathRaw(mapped, fmt);
        return;
      }
      return Ok("");
    }

    /**
     * `clear`: the scratch path, mapped by `ts`, is appended to `builder`
     * (nothing is appended when the scratch is empty); the scratch is emptied.
     */
    method Clear(ts: Transform)
      modifies this
      ensures current == []
      ensures builder == old(builder) + MapPath(ts, old(current))
      ensures old(current) == [] ==> builder == old(builder)
    {
      var path := Finish(current);
      if path.Some? {
        builder := builder + MapPath(ts, path.value);
      }
      current := [];
    }

    method MoveTo(x: real, y: real)
      modifies this
      ensures builder == old(builder)
      ensures current == old(current) + [Segment.MoveTo(Point(x, y))]
    {
      current := current + [Segment.MoveTo(Point(x, y))];
    }

    method LineTo(x: real, y: real)
      modifies this
      ensures builder == old(builder)
      ensures current == old(current) + [Segment.LineTo(Point(x, y))]
    {
      current := current + [Segment.LineTo(Point(x, y))];
    }

    method QuadTo(x1: real, y1: real, x: real, y: real)
      modifies this
      ensures builder == old(builder)
      ensures current == old(current) + [Segment.QuadTo(Point(x1, y1), Point(x, y))]
    {
      current := current + [Segment.QuadTo(Point(x1, y1), Point(x, y))];
    }

    /** ttf_parser's `curve_to`, recorded as tiny_skia's `cubic_to`. */
    method CurveTo(x1: real, y1: real, x2: real, y2: real, x: real, y: real)
      modifies this
      ensures builder == old(builder)
      ensures current == old(current) + [CubicTo(Point(x1, y1), Point(x2, y2), Point(x, y))]
    {
      current := current + [CubicTo(Point(x1, y1), Point(x2, y2), Point(x, y))];
    }

    method Close()
      modifies this
      ensures builder == old(builder)
      ensures current == old(current) + [Segment.Close]
    {
      current := current + [Segment.Close];
    }
  }
}
