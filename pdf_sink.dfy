/**
 * The PDF side of text2path: `PDFPathBuilder` replays a tiny_skia path into a
 * pdfium page path object. PDF has no quadratic segment, so every quadratic
 * is raised to the cubic that traces the same curve, starting from the last
 * point the builder drew to.
 *
 * The pdfium page object is foreign; it is modelled as the log of the drawing
 * calls made on it, every one of them taken to succeed.
 */
module PdfSink {
  import opened Geometry

  // ---------------------------------------------------------------------------
  // Degree elevation: `quadratic_to_cubic`.

  /** One coordinate of the quadratic Bezier curve through a0, a1, a2 at t. */
  function QuadCoord(a0: real, a1: real, a2: real, t: real): real {
    (1.0 - t) * (1.0 - t) * a0 + 2.0 * (1.0 - t) * t * a1 + t * t * a2
  }

  /** One coordinate of the cubic Bezier curve through b0, b1, b2, b3 at t. */
  function CubicCoord(b0: real, b1: real, b2: real, b3: real, t: real): real {
    var s := 1.0 - t;
    s * s * s * b0 + 3.0 * s * s * t * b1 + 3.0 * s * t * t * b2 + t * t * t * b3
  }

  function QuadAt(p0: Point, p1: Point, p2: Point, t: real): Point {
    Point(QuadCoord(p0.x, p1.x, p2.x, t), QuadCoord(p0.y, p1.y, p2.y, t))
  }

  function CubicAt(q0: Point, q1: Point, q2: Point, q3: Point, t: real): Point {
    Point(CubicCoord(q0.x, q1.x, q2.x, q3.x, t), CubicCoord(q0.y, q1.y, q2.y, q3.y, t))
  }

  /** Two thirds of the way from `from` towards the quadratic control point. */
  function TwoThirds(from: real, control: real): real {
    from + (2.0 / 3.0) * (control - from)
  }

  /**
   * `quadratic_to_cubic(p0, p1, p2)`: the end points stay, the cubic's control
   * points sit two thirds of the way from each end towards `p1`.
   */
  function QuadraticToCubic(p0: Point, p1: Point, p2: Point): (r: (Point, Point, Point, Point))
    ensures r.0 == p0 && r.3 == p2
  {
    (p0,
     Point(TwoThirds(p0.x, p1.x), TwoThirds(p0.y, p1.y)),
     Point(TwoThirds(p2.x, p1.x), TwoThirds(p2.y, p1.y)),
     p2)
  }

  lemma ElevateCoord(a0: real, a1: real, a2: real, t: real)
    ensures CubicCoord(a0, TwoThirds(a0, a1), TwoThirds(a2, a1), a2, t) == QuadCoord(a0, a1, a2, t)
  {
    var s := 1.0 - t;
    var e1, e2 := TwoThirds(a0, a1), TwoThirds(a2, a1);
    assert 3.0 * e1 == a0 + 2.0 * a1;
    assert 3.0 * e2 == a2 + 2.0 * a1;
    var ss, st, tt := s * s, s * t, t * t;
    calc {
      CubicCoord(a0, e1, e2, a2, t);
      ss * s * a0 + ss * t * (3.0 * e1) + st * t * (3.0 * e2) + tt * t * a2;
      ss * s * a0 + ss * t * (a0 + 2.0 * a1) + st * t * (a2 + 2.0 * a1) + tt * t * a2;
      ss * (s + t) * a0 + 2.0 * st * (s + t) * a1 + tt * (s + t) * a2;
      ss * a0 + 2.0 * st * a1 + tt * a2;
      QuadCoord(a0, a1, a2, t);
    }
  }

  /** Degree elevation is exact: the cubic passes through the quadratic's every point. */
  lemma ElevationExact(p0: Point, p1: Point, p2: Point, t: real)
    ensures var r := QuadraticToCubic(p0, p1, p2);
      CubicAt(r.0, r.1, r.2, r.3, t) == QuadAt(p0, p1, p2, t)
  {
    ElevateCoord(p0.x, p1.x, p2.x, t);
    ElevateCoord(p0.y, p1.y, p2.y, t);
  }

  // ---------------------------------------------------------------------------
  // The pdfium page path object, as the log of the calls made on it.

  /** `move_to`, `line_to`, `bezier_to(x, y, x1, y1, x2, y2)` and `close_path`. */
  datatype PdfCommand =
    | PdfMoveTo(x: real, y: real)
    | PdfLineTo(x: real, y: real)
    | PdfBezierTo(x: real, y: real, x1: real, y1: real, x2: real, y2: real)
    | PdfClosePath

  class PdfPagePathObject {
    /** What `get_translation` reports: where the object was placed on the page. */
    const translation: Point
    var commands: seq<PdfCommand>

    constructor(translation: Point)
      ensures this.translation == translation && commands == []
    {
      this.translation := translation;
      commands := [];
    }

    method MoveTo(x: real, y: real)
      modifies this
      ensures commands == old(commands) + [PdfMoveTo(x, y)]
    {
      commands := commands + [PdfMoveTo(x, y)];
    }

    method LineTo(x: real, y: real)
      modifies this
      ensures commands == old(commands) + [PdfLineTo(x, y)]
    {
      commands := commands + [PdfLineTo(x, y)];
    }

    /** The end point comes first, then the two control points. */
    method BezierTo(x: real, y: real, x1: real, y1: real, x2: real, y2: real)
      modifies this
      ensures commands == old(commands) + [PdfBezierTo(x, y, x1, y1, x2, y2)]
    {
      commands := commands + [PdfBezierTo(x, y, x1, y1, x2, y2)];
    }

    method ClosePath()
      modifies this
      ensures commands == old(commands) + [PdfClosePath]
    {
      commands := commands + [PdfClosePath];
    }
  }

  // ---------------------------------------------------------------------------
  // What `PDFPathBuilder` sends for each segment.

  /** The command for one segment when the builder last drew to `last`. */
  function SinkCommand(last: Point, s: Segment): PdfCommand {
    match s
    case MoveTo(p) => PdfMoveTo(p.x, p.y)
    case LineTo(p) => PdfLineTo(p.x, p.y)
    case QuadTo(c, p) =>
      var q := QuadraticToCubic(last, c, p);
      PdfBezierTo(q.3.x, q.3.y, q.1.x, q.1.y, q.2.x, q.2.y)
    case CubicTo(c1, c2, p) => PdfBezierTo(p.x, p.y, c1.x, c1.y, c2.x, c2.y)
    case Close => PdfClosePath
  }

  /** `last` after one segment: its end point; `close` leaves it alone. */
  function EndPoint(last: Point, s: Segment): Point {
    if s.Close? then last else s.p
  }

  /** `last` after a whole path, starting from `last0`. */
  function LastAfter(last0: Point, segs: seq<Segment>): Point {
    if segs == [] then last0 else EndPoint(LastAfter(last0, segs[..|segs| - 1]), segs[|segs| - 1])
  }

  /** The commands `set` sends for a whole path, starting from `last0`. */
  function SinkCommands(last0: Point, segs: seq<Segment>): (r: seq<PdfCommand>)
    ensures |r| == |segs|
  {
    if segs == [] then []
    else
      var init := segs[..|segs| - 1];
      SinkCommands(last0, init) + [SinkCommand(LastAfter(last0, init), segs[|segs| - 1])]
  }

  class PdfPathBuilder {
    var last: Point
    const path: PdfPagePathObject

    /** `PDFPathBuilder::new`: the first "last point" is the object's translation. */
    constructor(path: PdfPagePathObject)
      ensures this.path == path && last == path.translation
    {
      this.path := path;
      last := path.translation;
    }

    method MoveTo(x: real, y: real)
      modifies this, path
      ensures last == Point(x, y)
      ensures path.commands == old(path.commands) + [PdfMoveTo(x, y)]
    {
      last := Point(x, y);
      path.MoveTo(last.x, last.y);
    }

    method LineTo(x: real, y: real)
      modifies this, path
      ensures last == Point(x, y)
      ensures path.commands == old(path.commands) + [PdfLineTo(x, y)]
    {
      last := Point(x, y);
      path.LineTo(last.x, last.y);
    }

    method CurveTo(x1: real, y1: real, x2: real, y2: real, x: real, y: real)
      modifies this, path
      ensures last == Point(x, y)
      ensures path.commands == old(path.commands) + [PdfBezierTo(x, y, x1, y1, x2, y2)]
    {
      last := Point(x, y);
      path.BezierTo(x, y, x1, y1, x2, y2);
    }

    /** Raised to the cubic from the last point drawn to, then sent as `curve_to`. */
    method QuadTo(x1: real, y1: real, x: real, y: real)
      modifies this, path
      ensures last == Point(x, y)
      ensures path.commands == old(path.commands) + [SinkCommand(old(last), Segment.QuadTo(Point(x1, y1), Point(x, y)))]
    {
      var current := last;
      var q := QuadraticToCubic(current, Point(x1, y1), Point(x, y));
      CurveTo(q.1.x, q.1.y, q.2.x, q.2.y, q.3.x, q.3.y);
    }

    method Close()
      modifies path
      ensures path.commands == old(path.commands) + [PdfClosePath]
    {
      path.ClosePath();
    }

    /** `set`: every segment of the path, in order, through the callbacks. */
    method Set(segs: seq<Segment>)
      modifies this, path
      ensures last == LastAfter(old(last), segs)
      ensures path.commands == old(path.commands) + SinkCommands(old(last), segs)
    {
      for i := 0 to |segs|
        invariant last == LastAfter(old(last), segs[..i])
        invariant path.commands == old(path.commands) + SinkCommands(old(last), segs[..i])
      {
        assert segs[..i + 1][..i] == segs[..i];
        match segs[i]
        case MoveTo(p) => MoveTo(p.x, p.y);
        case LineTo(p) => LineTo(p.x, p.y);
        case QuadTo(c, p) => QuadTo(c.x, c.y, p.x, p.y);
        case CubicTo(c1, c2, p) => CurveTo(c1.x, c1.y, c2.x, c2.y, p.x, p.y);
        case Close => Close();
      }
      assert segs[..|segs|] == segs;
    }
  }

  // ---------------------------------------------------------------------------
  // What the command log says about the path.

  /** One command per segment, in order, each made from `last` as the prefix left it. */
  lemma {:induction false} CommandPerSegment(last0: Point, segs: seq<Segment>)
    ensures forall i :: 0 <= i < |segs| ==>
      SinkCommands(last0, segs)[i] == SinkCommand(LastAfter(last0, segs[..i]), segs[i])
  {
    if segs != [] {
      var init := segs[..|segs| - 1];
      CommandPerSegment(last0, init);
      forall i | 0 <= i < |segs|
        ensures SinkCommands(last0, segs)[i] == SinkCommand(LastAfter(last0, segs[..i]), segs[i])
      {
        if i < |init| {
          assert segs[..i] == init[..i];
        } else {
          assert segs[..i] == init;
        }
      }
    }
  }

  /** Every command has the kind of its segment; a cubic keeps its points, reordered. */
  lemma CommandKinds(last: Point, s: Segment)
    ensures SinkCommand(last, s).PdfMoveTo? <==> s.MoveTo?
    ensures SinkCommand(last, s).PdfLineTo? <==> s.LineTo?
    ensures SinkCommand(last, s).PdfBezierTo? <==> s.QuadTo? || s.CubicTo?
    ensures SinkCommand(last, s).PdfClosePath? <==> s.Close?
    ensures !s.Close? ==> SinkCommand(last, s).x == s.p.x && SinkCommand(last, s).y == s.p.y
    ensures s.CubicTo? ==> SinkCommand(last, s) == PdfBezierTo(s.p.x, s.p.y, s.c1.x, s.c1.y, s.c2.x, s.c2.y)
  {
  }

  /** With only `close` segments `last` stays where it started. */
  lemma {:induction false} LastAfterCloses(last0: Point, segs: seq<Segment>)
    requires forall i :: 0 <= i < |segs| ==> segs[i].Close?
    ensures LastAfter(last0, segs) == last0
  {
    if segs != [] {
      LastAfterCloses(last0, segs[..|segs| - 1]);
    }
  }

  /** Otherwise `last` is the end point of the last segment that is not a `close`. */
  lemma {:induction false} LastAfterDrawn(last0: Point, segs: seq<Segment>, j: nat)
    requires j < |segs| && !segs[j].Close?
    requires forall k :: j < k < |segs| ==> segs[k].Close?
    ensures LastAfter(last0, segs) == segs[j].p
  {
    var init := segs[..|segs| - 1];
    if j < |segs| - 1 {
      LastAfterDrawn(last0, init, j);
    }
  }

  /**
   * The Bezier sent for a quadratic segment traces that quadratic exactly,
   * starting from the last point drawn to before it.
   */
  lemma QuadCommandExact(last0: Point, segs: seq<Segment>, i: nat, t: real)
    requires i < |segs| && segs[i].QuadTo?
    ensures var from := LastAfter(last0, segs[..i]);
      var cmd := SinkCommands(last0, segs)[i];
      && cmd.PdfBezierTo?
      && CubicAt(from, Point(cmd.x1, cmd.y1), Point(cmd.x2, cmd.y2), Point(cmd.x, cmd.y), t)
         == QuadAt(from, segs[i].c, segs[i].p, t)
  {
    CommandPerSegment(last0, segs);
    ElevationExact(LastAfter(last0, segs[..i]), segs[i].c, segs[i].p, t);
  }
}
