/**
 * `TextPath::to_path`: places the outline of every shaped glyph, run by run
 * in visual order, with a running horizontal cursor.
 *
 * The bidi resolver, the shaper and the font parser are foreign: a call gets
 * the shaped glyph ids of each visual run of the first paragraph as an input
 * (None when the text has no paragraph), and a font face is a record of the
 * metrics and outlines the parser would report.
 */
module TextLayout {
  import opened Wrappers
  import opened Geometry
  import opened SvgBuilder

  /** The request: origin, text, font key, size, spacing and orientation. */
  datatype TextPath = TextPath(
    x: real, y: real, text: string, font: string,
    fontSize: real, fontStep: real, notReverse: bool)

  /** ttf_parser's `GlyphId(u16)`. */
  type GlyphId = g: nat | g < 0x1_0000

  /** A font never reports zero units per em. */
  type UnitsPerEm = n: nat | 0 < n witness 1

  /**
   * What `outline_glyph` does for one glyph: the outline callbacks it makes,
   * in order, and the `x_max` of the bounding box it returns (None: no outline).
   */
  datatype GlyphOutline = GlyphOutline(segments: seq<Segment>, xMax: Option<int>)

  /**
   * A parsed font as the layout sees it: `units_per_em`, the glyph that
   * `glyph_index(' ')` finds, `glyph_hor_advance` per glyph and the outlines.
   */
  datatype Face = Face(
    unitsPerEm: UnitsPerEm,
    spaceGlyph: Option<GlyphId>,
    advances: map<GlyphId, nat>,
    outlines: map<GlyphId, GlyphOutline>)

  /** A glyph the font has no outline for makes no callbacks and returns None. */
  function OutlineOf(face: Face, g: GlyphId): GlyphOutline {
    if g in face.outlines then face.outlines[g] else GlyphOutline([], None)
  }

  /** `GlyphId(glyph.glyph_id as u16)`: the shaper's id truncated to 16 bits. */
  function ToGlyphId(id: nat): GlyphId {
    id % 0x1_0000
  }

  /**
   * `glyph_hor_advance(glyph_index(' ').unwrap_or_default()).unwrap_or_default()`:
   * the advance of the space glyph, of glyph 0 when the font maps no space,
   * and 0 when that glyph has no advance.
   */
  function SpaceAdvanceUnits(face: Face): nat {
    var g := face.spaceGlyph.GetOr(0);
    if g in face.advances then face.advances[g] else 0
  }

  /** The constants of one call: origin, scales, space advance and run spacing. */
  datatype Placement = Placement(
    originX: real, originY: real, scaleX: real, scaleY: real,
    spaceAdvance: real, fontStep: real)

  function PlacementOf(tp: TextPath, face: Face): Placement {
    var scaleX := tp.fontSize / face.unitsPerEm as real;
    var scaleY := if tp.notReverse then scaleX else -scaleX;
    Placement(tp.x, tp.y, scaleX, scaleY, SpaceAdvanceUnits(face) as real * scaleX, tp.fontStep)
  }

  /** The cast keeps the low 16 bits: ids that fit are unchanged. */
  lemma GlyphIdTruncates(id: nat)
    ensures id < 0x1_0000 ==> ToGlyphId(id) == id
    ensures (id - ToGlyphId(id)) % 0x1_0000 == 0
  {
  }

  /** The space glyph's advance, else glyph 0's when no space is mapped, else 0. */
  lemma SpaceAdvanceFallback(face: Face)
    ensures face.spaceGlyph.Some? && face.spaceGlyph.value in face.advances
            ==> SpaceAdvanceUnits(face) == face.advances[face.spaceGlyph.value]
    ensures face.spaceGlyph.None? && 0 in face.advances ==> SpaceAdvanceUnits(face) == face.advances[0]
    ensures face.spaceGlyph.GetOr(0) !in face.advances ==> SpaceAdvanceUnits(face) == 0
  {
  }

  /**
   * The constants of a call: the origin and spacing as given, a horizontal
   * scale that turns `units_per_em` font units into `font_size`, a vertical
   * scale of the same size whose sign is `not_reverse`, and the space advance
   * in font units times the horizontal scale.
   */
  lemma PlacementScales(tp: TextPath, face: Face)
    ensures var r := PlacementOf(tp, face);
      && r.originX == tp.x && r.originY == tp.y && r.fontStep == tp.fontStep
      && r.scaleX * face.unitsPerEm as real == tp.fontSize
      && (tp.notReverse ==> r.scaleY == r.scaleX)
      && (!tp.notReverse ==> r.scaleY == -r.scaleX)
      && r.spaceAdvance == SpaceAdvanceUnits(face) as real * r.scaleX
  {
  }

  /**
   * `Transform::from_translate(x + self.x, self.y).pre_scale(scale_x, scale_y)`,
   * written out as a matrix (`PreScaleOfTranslate`).
   */
  function GlyphTransform(pl: Placement, x: real): Transform {
    TranslateScale(pl.originX + x, pl.originY, pl.scaleX, pl.scaleY)
  }

  /** How far one glyph moves the cursor. */
  function Advance(face: Face, pl: Placement, id: nat): real {
    var o := OutlineOf(face, ToGlyphId(id));
    if o.xMax.Some? then o.xMax.value as real * pl.scaleX else pl.spaceAdvance
  }

  /** The cursor and the two buffers of the builder while the loop runs. */
  datatype LayoutState = LayoutState(x: real, builder: seq<Segment>, current: seq<Segment>)

  /**
   * One glyph: its callbacks go to the scratch; with an outline the scratch is
   * flushed through the glyph's transform at the cursor, and the cursor moves
   * by the ink width; without one the scratch is kept and the cursor moves by
   * the space advance.
   */
  function PlaceGlyph(face: Face, pl: Placement, st: LayoutState, id: nat): LayoutState {
    var o := OutlineOf(face, ToGlyphId(id));
    var cur := st.current + o.segments;
    if o.xMax.Some? then
      LayoutState(st.x + o.xMax.value as real * pl.scaleX,
                  st.builder + MapPath(GlyphTransform(pl, st.x), cur), [])
    else
      LayoutState(st.x + pl.spaceAdvance, st.builder, cur)
  }

  /**
   * What one glyph does to the state: the cursor moves by the glyph's advance;
   * nothing already accumulated changes and no callback is lost. With an
   * outline, the scratch and the new callbacks are flushed, mapped at the
   * cursor; without one, they all stay in the scratch.
   */
  lemma PlaceGlyphEffect(face: Face, pl: Placement, st: LayoutState, id: nat)
    ensures var r := PlaceGlyph(face, pl, st, id);
      var segs := OutlineOf(face, ToGlyphId(id)).segments;
      && r.x == st.x + Advance(face, pl, id)
      && |r.builder| + |r.current| == |st.builder| + |st.current| + |segs|
      && |st.builder| <= |r.builder| && r.builder[..|st.builder|] == st.builder
      && (OutlineOf(face, ToGlyphId(id)).xMax.Some? ==>
            r.current == [] && r.builder[|st.builder|..] == MapPath(GlyphTransform(pl, st.x), st.current + segs))
      && (OutlineOf(face, ToGlyphId(id)).xMax.None? ==>
            && r.builder == st.builder && |st.current| <= |r.current|
            && r.current[..|st.current|] == st.current && r.current[|st.current|..] == segs)
  {
    var r := PlaceGlyph(face, pl, st, id);
    var segs := OutlineOf(face, ToGlyphId(id)).segments;
    if OutlineOf(face, ToGlyphId(id)).xMax.Some? {
      var flushed := MapPath(GlyphTransform(pl, st.x), st.current + segs);
      assert r.builder == st.builder + flushed;
      assert r.builder[..|st.builder|] == st.builder;
      assert r.builder[|st.builder|..] == flushed;
    } else {
      assert r.current == st.current + segs;
      assert r.current[..|st.current|] == st.current;
    }
  }

  lemma PlaceGlyphStep(face: Face, pl: Placement, st: LayoutState, id: nat)
    ensures var o := OutlineOf(face, ToGlyphId(id));
      PlaceGlyph(face, pl, st, id)
        == if o.xMax.Some? then
             LayoutState(st.x + o.xMax.value as real * pl.scaleX,
                         st.builder + MapPath(GlyphTransform(pl, st.x), st.current + o.segments), [])
           else LayoutState(st.x + pl.spaceAdvance, st.builder, st.current + o.segments)
  {
  }

  /** The glyphs of one run, placed in shaping order. */
  function PlaceGlyphs(face: Face, pl: Placement, st: LayoutState, run: seq<nat>): LayoutState {
    if run == [] then st
    else PlaceGlyph(face, pl, PlaceGlyphs(face, pl, st, run[..|run| - 1]), run[|run| - 1])
  }

  /** One run: its glyphs, then the run spacing once. */
  function PlaceRun(face: Face, pl: Placement, st: LayoutState, run: seq<nat>): (r: LayoutState)
    ensures r.x == st.x + RunWidth(face, pl, run) + pl.fontStep
    ensures r.builder == PlaceGlyphs(face, pl, st, run).builder
    ensures r.current == PlaceGlyphs(face, pl, st, run).current
  {
    GlyphsCursor(face, pl, st, run);
    var s := PlaceGlyphs(face, pl, st, run);
    s.(x := s.x + pl.fontStep)
  }

  /** Every run, in visual order. */
  function PlaceRuns(face: Face, pl: Placement, st: LayoutState, runs: seq<seq<nat>>): LayoutState {
    if runs == [] then st
    else PlaceRun(face, pl, PlaceRuns(face, pl, st, runs[..|runs| - 1]), runs[|runs| - 1])
  }

  /** What `to_path` computes: nothing for an unknown font or a text without paragraph. */
  function ToPathSpec(tp: TextPath, faces: map<string, Face>, visualRuns: Option<seq<seq<nat>>>): (r: Option<LayoutState>)
    ensures r.None? <==> tp.font !in faces || visualRuns.None?
    ensures r.Some? ==>
      r.value.x == RunsWidth(faces[tp.font], PlacementOf(tp, faces[tp.font]), visualRuns.value)
  {
    if tp.font !in faces || visualRuns.None? then None
    else
      var face := faces[tp.font];
      RunsCursor(face, PlacementOf(tp, face), LayoutState(0.0, [], []), visualRuns.value);
      Some(PlaceRuns(face, PlacementOf(tp, face), LayoutState(0.0, [], []), visualRuns.value))
  }

  /** ttf_parser's `outline_glyph`, replaying a glyph's outline through the builder's callbacks. */
  method OutlineGlyph(face: Face, g: GlyphId, b: SvgPathBuilder) returns (xMax: Option<int>)
    modifies b
    ensures b.builder == old(b.builder)
    ensures b.current == old(b.current) + OutlineOf(face, g).segments
    ensures xMax == OutlineOf(face, g).xMax
  {
    var o := OutlineOf(face, g);
    for k := 0 to |o.segments|
      invariant b.builder == old(b.builder)
      invariant b.current == old(b.current) + o.segments[..k]
    {
      assert o.segments[..k + 1] == o.segments[..k] + [o.segments[k]];
      match o.segments[k]
      case MoveTo(p) => b.MoveTo(p.x, p.y);
      case LineTo(p) => b.LineTo(p.x, p.y);
      case QuadTo(c, p) => b.QuadTo(c.x, c.y, p.x, p.y);
      case CubicTo(c1, c2, p) => b.CurveTo(c1.x, c1.y, c2.x, c2.y, p.x, p.y);
      case Close => b.Close();
    }
    assert o.segments[..|o.segments|] == o.segments;
    xMax := o.xMax;
  }

  /** One glyph of the inner loop of `to_path`: outline it, flush or advance. */
  method PlaceGlyphInto(face: Face, pl: Placement, id: nat, builder: SvgPathBuilder, x: real)
    returns (x': real)
    modifies builder
    ensures PlaceGlyph(face, pl, LayoutState(x, old(builder.builder), old(builder.current)), id)
         == LayoutState(x', builder.builder, builder.current)
  {
    ghost var before := LayoutState(x, builder.builder, builder.current);
    var xMax := OutlineGlyph(face, ToGlyphId(id), builder);
    PlaceGlyphStep(face, pl, before, id);
    if xMax.Some? {
      PreScaleOfTranslate(pl.originX + x, pl.originY, pl.scaleX, pl.scaleY);
      builder.Clear(PreScale(FromTranslate(pl.originX + x, pl.originY), pl.scaleX, pl.scaleY));
      x' := x + xMax.value as real * pl.scaleX;
    } else {
      x' := x + pl.spaceAdvance;
    }
    ghost var want := PlaceGlyph(face, pl, before, id);
    assert want.x == x';
    assert want.builder == builder.builder;
    assert want.current == builder.current;
  }

  /** `to_path`. */
  method ToPath(tp: TextPath, faces: map<string, Face>, visualRuns: Option<seq<seq<nat>>>)
    returns (r: Option<SvgPathBuilder>)
    ensures r.None? <==> tp.font !in faces || visualRuns.None?
    ensures r.Some? ==> fresh(r.value) && ToPathSpec(tp, faces, visualRuns).Some?
    ensures r.Some? ==> r.value.builder == ToPathSpec(tp, faces, visualRuns).value.builder
    ensures r.Some? ==> r.value.current == ToPathSpec(tp, faces, visualRuns).value.current
  {
    if tp.font !in faces {
      return None;
    }
    var face := faces[tp.font];
    if visualRuns.None? {
      return None;
    }
    var runs := visualRuns.value;
    var scaleX := tp.fontSize / face.unitsPerEm as real;
    var scaleY := if tp.notReverse then scaleX else -scaleX;
    var spaceAdvanceWidth := SpaceAdvanceUnits(face) as real * scaleX;
    var pl := Placement(tp.x, tp.y, scaleX, scaleY, spaceAdvanceWidth, tp.fontStep);
    assert pl == PlacementOf(tp, face);
    var x := 0.0;
    var builder := new SvgPathBuilder();
    for i := 0 to |runs|
      invariant PlaceRuns(face, pl, LayoutState(0.0, [], []), runs[..i])
             == LayoutState(x, builder.builder, builder.current)
    {
      var run := runs[i];
      ghost var start := LayoutState(x, builder.builder, builder.current);
      for j := 0 to |run|
        invariant PlaceGlyphs(face, pl, start, run[..j]) == LayoutState(x, builder.builder, builder.current)
      {
        assert run[..j + 1][..j] == run[..j];
        x := PlaceGlyphInto(face, pl, run[j], builder, x);
      }
      assert run[..|run|] == run;
      assert runs[..i + 1][..i] == runs[..i];
      x := x + tp.fontStep;
    }
    assert runs[..|runs|] == runs;
    return Some(builder);
  }

  // ---------------------------------------------------------------------------
  // The cursor, and where each glyph lands: a reference placement, front to back.

  /** How far a run's glyphs move the cursor. */
  function RunWidth(face: Face, pl: Placement, ids: seq<nat>): real {
    if ids == [] then 0.0 else Advance(face, pl, ids[0]) + RunWidth(face, pl, ids[1..])
  }

  /** How far whole runs move the cursor, spacing included. */
  function RunsWidth(face: Face, pl: Placement, runs: seq<seq<nat>>): real {
    if runs == [] then 0.0 else RunWidth(face, pl, runs[0]) + pl.fontStep + RunsWidth(face, pl, runs[1..])
  }

  /** Each glyph's outline through the transform at the cursor before its own advance. */
  function PlacedGlyphs(face: Face, pl: Placement, ids: seq<nat>, x: real): seq<Segment> {
    if ids == [] then []
    else
      MapPath(GlyphTransform(pl, x), OutlineOf(face, ToGlyphId(ids[0])).segments)
        + PlacedGlyphs(face, pl, ids[1..], x + Advance(face, pl, ids[0]))
  }

  /** The runs placed one after the other, each starting where the last one ended. */
  function PlacedRuns(face: Face, pl: Placement, runs: seq<seq<nat>>, x: real): seq<Segment> {
    if runs == [] then []
    else
      PlacedGlyphs(face, pl, runs[0], x)
        + PlacedRuns(face, pl, runs[1..], x + RunWidth(face, pl, runs[0]) + pl.fontStep)
  }

  lemma {:induction false} RunWidthSnoc(face: Face, pl: Placement, ids: seq<nat>, id: nat)
    ensures RunWidth(face, pl, ids + [id]) == RunWidth(face, pl, ids) + Advance(face, pl, id)
  {
    if ids == [] {
      assert [id][1..] == [];
    } else {
      assert (ids + [id])[1..] == ids[1..] + [id];
      RunWidthSnoc(face, pl, ids[1..], id);
    }
  }

  lemma {:induction false} RunsWidthSnoc(face: Face, pl: Placement, runs: seq<seq<nat>>, run: seq<nat>)
    ensures RunsWidth(face, pl, runs + [run]) == RunsWidth(face, pl, runs) + RunWidth(face, pl, run) + pl.fontStep
  {
    if runs == [] {
      assert [run][1..] == [];
    } else {
      assert (runs + [run])[1..] == runs[1..] + [run];
      RunsWidthSnoc(face, pl, runs[1..], run);
    }
  }

  /** A glyph moves the cursor by its advance and by nothing else. */
  lemma PlaceGlyphCursor(face: Face, pl: Placement, st: LayoutState, id: nat)
    ensures PlaceGlyph(face, pl, st, id).x == st.x + Advance(face, pl, id)
  {
  }

  lemma {:induction false} GlyphsCursor(face: Face, pl: Placement, st: LayoutState, run: seq<nat>)
    ensures PlaceGlyphs(face, pl, st, run).x == st.x + RunWidth(face, pl, run)
  {
    if run != [] {
      var init, id := run[..|run| - 1], run[|run| - 1];
      assert run == init + [id];
      GlyphsCursor(face, pl, st, init);
      PlaceGlyphCursor(face, pl, PlaceGlyphs(face, pl, st, init), id);
      RunWidthSnoc(face, pl, init, id);
    }
  }

  /** The loop's cursor ends at its start plus the width of every run, spacing included. */
  lemma {:induction false} RunsCursor(face: Face, pl: Placement, st: LayoutState, runs: seq<seq<nat>>)
    ensures PlaceRuns(face, pl, st, runs).x == st.x + RunsWidth(face, pl, runs)
  {
    if runs != [] {
      var init, run := runs[..|runs| - 1], runs[|runs| - 1];
      assert runs == init + [run];
      RunsCursor(face, pl, st, init);
      GlyphsCursor(face, pl, PlaceRuns(face, pl, st, init), run);
      RunsWidthSnoc(face, pl, init, run);
    }
  }

  /** The sum of `x_max` over the glyphs that have an outline. */
  function InkWidth(face: Face, ids: seq<nat>): real {
    if ids == [] then 0.0
    else
      var o := OutlineOf(face, ToGlyphId(ids[0]));
      (if o.xMax.Some? then o.xMax.value as real else 0.0) + InkWidth(face, ids[1..])
  }

  /** How many glyphs have no outline. */
  function BlankCount(face: Face, ids: seq<nat>): nat {
    if ids == [] then 0
    else
      var o := OutlineOf(face, ToGlyphId(ids[0]));
      (if o.xMax.Some? then 0 else 1) + BlankCount(face, ids[1..])
  }

  /** All glyphs, run after run. */
  function Flatten(runs: seq<seq<nat>>): seq<nat> {
    if runs == [] then [] else runs[0] + Flatten(runs[1..])
  }

  /** A run's width is `scale_x` times its ink plus one space advance per blank glyph. */
  lemma {:induction false} RunWidthTerms(face: Face, pl: Placement, ids: seq<nat>)
    ensures RunWidth(face, pl, ids)
         == InkWidth(face, ids) * pl.scaleX + BlankCount(face, ids) as real * pl.spaceAdvance
  {
    if ids != [] {
      RunWidthTerms(face, pl, ids[1..]);
      var o := OutlineOf(face, ToGlyphId(ids[0]));
      var ink, blanks := InkWidth(face, ids[1..]), BlankCount(face, ids[1..]) as real;
      var sx, sa := pl.scaleX, pl.spaceAdvance;
      if o.xMax.Some? {
        var w := o.xMax.value as real;
        assert (w + ink) * sx == w * sx + ink * sx;
      } else {
        assert (1.0 + blanks) * sa == sa + blanks * sa;
      }
    }
  }

  lemma {:induction false} RunWidthAppend(face: Face, pl: Placement, a: seq<nat>, b: seq<nat>)
    ensures RunWidth(face, pl, a + b) == RunWidth(face, pl, a) + RunWidth(face, pl, b)
  {
    if a == [] {
      assert a + b == b;
    } else {
      assert (a + b)[1..] == a[1..] + b;
      RunWidthAppend(face, pl, a[1..], b);
    }
  }

  /** `font_step` added `n` times. */
  function Spacing(n: nat, fs: real): real {
    if n == 0 then 0.0 else Spacing(n - 1, fs) + fs
  }

  lemma {:induction false} SpacingIsProduct(n: nat, fs: real)
    ensures Spacing(n, fs) == n as real * fs
  {
    if n > 0 {
      SpacingIsProduct(n - 1, fs);
      var k := (n - 1) as real;
      assert n as real == k + 1.0;
      assert (k + 1.0) * fs == k * fs + fs;
    }
  }

  /** The width of the runs is the width of all their glyphs plus `font_step` once per run. */
  lemma {:induction false} RunsWidthTerms(face: Face, pl: Placement, runs: seq<seq<nat>>)
    ensures RunsWidth(face, pl, runs) == RunWidth(face, pl, Flatten(runs)) + Spacing(|runs|, pl.fontStep)
  {
    if runs != [] {
      var rest := runs[1..];
      RunsWidthTerms(face, pl, rest);
      RunWidthAppend(face, pl, runs[0], Flatten(rest));
      assert Flatten(runs) == runs[0] + Flatten(rest);
    }
  }

  /**
   * For `to_path` itself the cursor starts at 0 and ends at the advance of
   * every glyph of every run plus `font_step` once per run.
   */
  lemma ToPathCursor(tp: TextPath, faces: map<string, Face>, runs: seq<seq<nat>>)
    requires tp.font in faces
    ensures ToPathSpec(tp, faces, Some(runs)).Some?
    ensures var face := faces[tp.font];
      ToPathSpec(tp, faces, Some(runs)).value.x
        == RunWidth(face, PlacementOf(tp, face), Flatten(runs)) + Spacing(|runs|, tp.fontStep)
  {
    var face := faces[tp.font];
    var pl := PlacementOf(tp, face);
    RunsCursor(face, pl, LayoutState(0.0, [], []), runs);
    RunsWidthTerms(face, pl, runs);
  }

  /** Every glyph without an outline also made no callbacks. */
  ghost predicate NoStrayCallbacks(face: Face) {
    forall g :: g in face.outlines && face.outlines[g].xMax.None? ==> face.outlines[g].segments == []
  }

  lemma {:induction false} PlacedGlyphsSnoc(face: Face, pl: Placement, ids: seq<nat>, id: nat, x: real)
    ensures PlacedGlyphs(face, pl, ids + [id], x)
         == PlacedGlyphs(face, pl, ids, x)
            + MapPath(GlyphTransform(pl, x + RunWidth(face, pl, ids)), OutlineOf(face, ToGlyphId(id)).segments)
  {
    if ids == [] {
      assert [id][1..] == [];
    } else {
      assert (ids + [id])[1..] == ids[1..] + [id];
      PlacedGlyphsSnoc(face, pl, ids[1..], id, x + Advance(face, pl, ids[0]));
    }
  }

  lemma {:induction false} PlacedRunsSnoc(face: Face, pl: Placement, runs: seq<seq<nat>>, run: seq<nat>, x: real)
    ensures PlacedRuns(face, pl, runs + [run], x)
         == PlacedRuns(face, pl, runs, x) + PlacedGlyphs(face, pl, run, x + RunsWidth(face, pl, runs))
  {
    if runs == [] {
      assert [run][1..] == [];
    } else {
      assert (runs + [run])[1..] == runs[1..] + [run];
      PlacedRunsSnoc(face, pl, runs[1..], run, x + RunWidth(face, pl, runs[0]) + pl.fontStep);
    }
  }

  /** The buffers after one glyph, when glyphs without outline make no callbacks. */
  lemma PlaceGlyphBuffers(face: Face, pl: Placement, st: LayoutState, id: nat)
    requires NoStrayCallbacks(face) && st.current == []
    ensures PlaceGlyph(face, pl, st, id).current == []
    ensures PlaceGlyph(face, pl, st, id).builder
         == st.builder + MapPath(GlyphTransform(pl, st.x), OutlineOf(face, ToGlyphId(id)).segments)
  {
    var o := OutlineOf(face, ToGlyphId(id));
    assert st.current + o.segments == o.segments;
    if o.xMax.None? {
      assert o.segments == [];
      assert st.builder + MapPath(GlyphTransform(pl, st.x), o.segments) == st.builder;
    }
  }

  lemma PlaceGlyphsSnoc(face: Face, pl: Placement, st: LayoutState, init: seq<nat>, id: nat)
    ensures PlaceGlyphs(face, pl, st, init + [id]) == PlaceGlyph(face, pl, PlaceGlyphs(face, pl, st, init), id)
  {
    assert (init + [id])[..|init|] == init;
  }

  lemma PlaceRunsSnoc(face: Face, pl: Placement, st: LayoutState, init: seq<seq<nat>>, run: seq<nat>)
    ensures PlaceRuns(face, pl, st, init + [run]) == PlaceRun(face, pl, PlaceRuns(face, pl, st, init), run)
  {
    assert (init + [run])[..|init|] == init;
  }

  lemma AppendAssoc(a: seq<Segment>, b: seq<Segment>, c: seq<Segment>)
    ensures (a + b) + c == a + (b + c)
  {
  }

  /** One more glyph keeps the fold equal to the reference placement. */
  lemma GlyphsMatchStep(face: Face, pl: Placement, st: LayoutState, init: seq<nat>, id: nat)
    requires NoStrayCallbacks(face) && st.current == []
    requires PlaceGlyphs(face, pl, st, init).current == []
    requires PlaceGlyphs(face, pl, st, init).builder == st.builder + PlacedGlyphs(face, pl, init, st.x)
    ensures PlaceGlyphs(face, pl, st, init + [id]).current == []
    ensures PlaceGlyphs(face, pl, st, init + [id]).builder == st.builder + PlacedGlyphs(face, pl, init + [id], st.x)
  {
    var mid := PlaceGlyphs(face, pl, st, init);
    var t := GlyphTransform(pl, mid.x);
    var segs := OutlineOf(face, ToGlyphId(id)).segments;
    var done := PlacedGlyphs(face, pl, init, st.x);
    var next := PlaceGlyph(face, pl, mid, id);
    assert PlaceGlyphs(face, pl, st, init + [id]) == next by {
      PlaceGlyphsSnoc(face, pl, st, init, id);
    }
    assert next.current == [] && next.builder == mid.builder + MapPath(t, segs) by {
      PlaceGlyphBuffers(face, pl, mid, id);
    }
    assert PlacedGlyphs(face, pl, init + [id], st.x) == done + MapPath(t, segs) by {
      GlyphsCursor(face, pl, st, init);
      PlacedGlyphsSnoc(face, pl, init, id, st.x);
    }
    AppendAssoc(st.builder, done, MapPath(t, segs));
  }

  lemma {:induction false} GlyphsMatchReference(face: Face, pl: Placement, st: LayoutState, run: seq<nat>)
    requires NoStrayCallbacks(face) && st.current == []
    ensures PlaceGlyphs(face, pl, st, run).current == []
    ensures PlaceGlyphs(face, pl, st, run).builder == st.builder + PlacedGlyphs(face, pl, run, st.x)
  {
    if run == [] {
      assert st.builder + [] == st.builder;
    } else {
      var init, id := run[..|run| - 1], run[|run| - 1];
      assert run == init + [id];
      GlyphsMatchReference(face, pl, st, init);
      GlyphsMatchStep(face, pl, st, init, id);
    }
  }

  /** The buffers after one more run, when the scratch was empty before it. */
  lemma RunStepBuffers(face: Face, pl: Placement, st: LayoutState, init: seq<seq<nat>>, run: seq<nat>)
    requires NoStrayCallbacks(face) && PlaceRuns(face, pl, st, init).current == []
    ensures var mid := PlaceRuns(face, pl, st, init);
      && PlaceRuns(face, pl, st, init + [run]).current == []
      && PlaceRuns(face, pl, st, init + [run]).builder == mid.builder + PlacedGlyphs(face, pl, run, mid.x)
  {
    var mid := PlaceRuns(face, pl, st, init);
    var next := PlaceGlyphs(face, pl, mid, run);
    var whole := PlaceRuns(face, pl, st, init + [run]);
    assert whole.current == next.current && whole.builder == next.builder by {
      PlaceRunsSnoc(face, pl, st, init, run);
    }
    GlyphsMatchReference(face, pl, mid, run);
  }

  /** The reference placement of one more run starts at the cursor the fold reached. */
  lemma PlacedRunStep(face: Face, pl: Placement, st: LayoutState, init: seq<seq<nat>>, run: seq<nat>)
    ensures PlacedRuns(face, pl, init + [run], st.x)
         == PlacedRuns(face, pl, init, st.x) + PlacedGlyphs(face, pl, run, PlaceRuns(face, pl, st, init).x)
  {
    RunsCursor(face, pl, st, init);
    PlacedRunsSnoc(face, pl, init, run, st.x);
  }

  /** One more run keeps the fold equal to the reference placement. */
  lemma RunsMatchStep(face: Face, pl: Placement, st: LayoutState, init: seq<seq<nat>>, run: seq<nat>)
    requires NoStrayCallbacks(face) && st.current == []
    requires PlaceRuns(face, pl, st, init).current == []
    requires PlaceRuns(face, pl, st, init).builder == st.builder + PlacedRuns(face, pl, init, st.x)
    ensures PlaceRuns(face, pl, st, init + [run]).current == []
    ensures PlaceRuns(face, pl, st, init + [run]).builder == st.builder + PlacedRuns(face, pl, init + [run], st.x)
  {
    var mid := PlaceRuns(face, pl, st, init);
    var step := PlacedGlyphs(face, pl, run, mid.x);
    RunStepBuffers(face, pl, st, init, run);
    PlacedRunStep(face, pl, st, init, run);
    AppendAssoc(st.builder, PlacedRuns(face, pl, init, st.x), step);
  }

  lemma {:induction false} RunsMatchReference(face: Face, pl: Placement, st: LayoutState, runs: seq<seq<nat>>)
    requires NoStrayCallbacks(face) && st.current == []
    ensures PlaceRuns(face, pl, st, runs).current == []
    ensures PlaceRuns(face, pl, st, runs).builder == st.builder + PlacedRuns(face, pl, runs, st.x)
  {
    if runs == [] {
      assert st.builder + [] == st.builder;
    } else {
      var init, run := runs[..|runs| - 1], runs[|runs| - 1];
      assert runs == init + [run];
      RunsMatchReference(face, pl, st, init);
      RunsMatchStep(face, pl, st, init, run);
    }
  }

  /**
   * When glyphs without an outline make no callbacks, `to_path` emits the
   * glyphs in visual run order, then shaping order, each placed at the cursor
   * reached before its own advance, and leaves the scratch empty.
   */
  lemma ToPathPlacesInVisualOrder(tp: TextPath, faces: map<string, Face>, runs: seq<seq<nat>>)
    requires tp.font in faces && NoStrayCallbacks(faces[tp.font])
    ensures var face := faces[tp.font];
      var pl := PlacementOf(tp, face);
      ToPathSpec(tp, faces, Some(runs))
        == Some(LayoutState(RunsWidth(face, pl, runs), PlacedRuns(face, pl, runs, 0.0), []))
  {
    var face := faces[tp.font];
    var pl := PlacementOf(tp, face);
    var init := LayoutState(0.0, [], []);
    RunsMatchReference(face, pl, init, runs);
    RunsCursor(face, pl, init, runs);
    assert [] + PlacedRuns(face, pl, runs, 0.0) == PlacedRuns(face, pl, runs, 0.0);
  }

  // ---------------------------------------------------------------------------
  // Orientation: `not_reverse` only flips the sign of the vertical scale.

  function Flipped(pl: Placement): Placement {
    pl.(scaleY := -pl.scaleY)
  }

  function Mirrored(st: LayoutState, c: real): LayoutState {
    st.(builder := MirrorPath(st.builder, c))
  }

  /** Flushing a scratch with the flipped transform onto a mirrored path mirrors the flush. */
  lemma FlushMirror(b: seq<Segment>, cur: seq<Segment>, tx: real, c: real, sx: real, sy: real)
    ensures MirrorPath(b, c) + MapPath(TranslateScale(tx, c, sx, -sy), cur)
         == MirrorPath(b + MapPath(TranslateScale(tx, c, sx, sy), cur), c)
  {
    FlipScaleMirrorsPath(tx, c, sx, sy, cur);
    MirrorPathAppend(b, MapPath(TranslateScale(tx, c, sx, sy), cur), c);
  }

  /** A glyph with an outline: the flipped flush is the mirror of the flush. */
  lemma InkGlyphMirror(face: Face, pl: Placement, st: LayoutState, id: nat)
    requires OutlineOf(face, ToGlyphId(id)).xMax.Some?
    ensures PlaceGlyph(face, Flipped(pl), Mirrored(st, pl.originY), id)
         == Mirrored(PlaceGlyph(face, pl, st, id), pl.originY)
  {
    var o := OutlineOf(face, ToGlyphId(id));
    var c := pl.originY;
    var ms := Mirrored(st, c);
    var up := PlaceGlyph(face, pl, st, id);
    var down := PlaceGlyph(face, Flipped(pl), ms, id);
    var cur := st.current + o.segments;
    var w := o.xMax.value as real * pl.scaleX;
    var tx := pl.originX + st.x;
    var placed := MapPath(TranslateScale(tx, c, pl.scaleX, pl.scaleY), cur);
    var flipped := MapPath(TranslateScale(tx, c, pl.scaleX, -pl.scaleY), cur);
    assert up.x == st.x + w && up.current == [] && up.builder == st.builder + placed by {
      PlaceGlyphStep(face, pl, st, id);
    }
    assert down.x == st.x + w && down.current == [] && down.builder == MirrorPath(st.builder, c) + flipped by {
      PlaceGlyphStep(face, Flipped(pl), ms, id);
    }
    FlushMirror(st.builder, cur, tx, c, pl.scaleX, pl.scaleY);
  }

  lemma GlyphMirror(face: Face, pl: Placement, st: LayoutState, id: nat)
    ensures PlaceGlyph(face, Flipped(pl), Mirrored(st, pl.originY), id)
         == Mirrored(PlaceGlyph(face, pl, st, id), pl.originY)
  {
    var o := OutlineOf(face, ToGlyphId(id));
    if o.xMax.Some? {
      InkGlyphMirror(face, pl, st, id);
    } else {
      var c := pl.originY;
      var ms := Mirrored(st, c);
      var up := PlaceGlyph(face, pl, st, id);
      var down := PlaceGlyph(face, Flipped(pl), ms, id);
      var cur := st.current + o.segments;
      assert up.x == st.x + pl.spaceAdvance && up.current == cur && up.builder == st.builder by {
        PlaceGlyphStep(face, pl, st, id);
      }
      assert down.x == st.x + pl.spaceAdvance && down.current == cur && down.builder == MirrorPath(st.builder, c) by {
        PlaceGlyphStep(face, Flipped(pl), ms, id);
      }
    }
  }

  lemma {:induction false} GlyphsMirror(face: Face, pl: Placement, st: LayoutState, run: seq<nat>)
    ensures PlaceGlyphs(face, Flipped(pl), Mirrored(st, pl.originY), run)
         == Mirrored(PlaceGlyphs(face, pl, st, run), pl.originY)
  {
    if run != [] {
      GlyphsMirror(face, pl, st, run[..|run| - 1]);
      GlyphMirror(face, pl, PlaceGlyphs(face, pl, st, run[..|run| - 1]), run[|run| - 1]);
    }
  }

  lemma {:induction false} RunsMirror(face: Face, pl: Placement, st: LayoutState, runs: seq<seq<nat>>)
    ensures PlaceRuns(face, Flipped(pl), Mirrored(st, pl.originY), runs)
         == Mirrored(PlaceRuns(face, pl, st, runs), pl.originY)
  {
    if runs != [] {
      RunsMirror(face, pl, st, runs[..|runs| - 1]);
      GlyphsMirror(face, pl, PlaceRuns(face, pl, st, runs[..|runs| - 1]), runs[|runs| - 1]);
    }
  }

  /**
   * Toggling `not_reverse` leaves the outcome, the cursor and the scratch as
   * they are and mirrors every emitted point about y = self.y.
   */
  lemma OrientationMirrors(tp: TextPath, faces: map<string, Face>, visualRuns: Option<seq<seq<nat>>>)
    ensures var up := ToPathSpec(tp, faces, visualRuns);
      var down := ToPathSpec(tp.(notReverse := !tp.notReverse), faces, visualRuns);
      && (up.None? <==> down.None?)
      && (up.Some? ==> down.value.builder == MirrorPath(up.value.builder, tp.y)
                       && down.value.x == up.value.x && down.value.current == up.value.current)
  {
    if tp.font in faces && visualRuns.Some? {
      var face := faces[tp.font];
      var pl := PlacementOf(tp, face);
      assert PlacementOf(tp.(notReverse := !tp.notReverse), face) == Flipped(pl);
      var init := LayoutState(0.0, [], []);
      assert Mirrored(init, pl.originY) == init;
      RunsMirror(face, pl, init, visualRuns.value);
    }
  }

  // ---------------------------------------------------------------------------
  // A worked case: one square glyph at scale 1 from the origin.

  /** A square of side 100 font units, drawn counter-clockwise from the origin. */
  function Square(): seq<Segment> {
    [MoveTo(Point(0.0, 0.0)), LineTo(Point(100.0, 0.0)),
     LineTo(Point(100.0, 100.0)), LineTo(Point(0.0, 100.0)), Segment.Close]
  }

  /** 1000 units per em, a space glyph 3 of advance 250, the square as glyph 36. */
  function SquareFace(): Face {
    Face(1000, Some(3), map[3 := 250], map[36 := GlyphOutline(Square(), Some(100))])
  }

  lemma SquareUnmoved()
    ensures MapPath(GlyphTransform(Placement(0.0, 0.0, 1.0, 1.0, 250.0, 0.0), 0.0), Square()) == Square()
  {
    assert GlyphTransform(Placement(0.0, 0.0, 1.0, 1.0, 250.0, 0.0), 0.0) == Identity();
    MapIdentity(Square());
  }

  lemma SquareGlyphPlaced()
    ensures PlaceGlyph(SquareFace(), Placement(0.0, 0.0, 1.0, 1.0, 250.0, 0.0), LayoutState(0.0, [], []), 36)
         == LayoutState(100.0, Square(), [])
  {
    assert OutlineOf(SquareFace(), ToGlyphId(36)) == GlyphOutline(Square(), Some(100));
    assert [] + Square() == Square();
    SquareUnmoved();
  }

  lemma SquareRunGlyphs()
    ensures PlaceGlyphs(SquareFace(), Placement(0.0, 0.0, 1.0, 1.0, 250.0, 0.0), LayoutState(0.0, [], []), [36])
         == LayoutState(100.0, Square(), [])
  {
    var face, pl := SquareFace(), Placement(0.0, 0.0, 1.0, 1.0, 250.0, 0.0);
    var init := LayoutState(0.0, [], []);
    assert [36][..0] == [];
    assert PlaceGlyphs(face, pl, init, [36]) == PlaceGlyph(face, pl, init, 36);
    SquareGlyphPlaced();
  }

  /** A single run: its glyphs, then the spacing once. */
  lemma PlaceSingleRun(face: Face, pl: Placement, st: LayoutState, run: seq<nat>)
    ensures PlaceRuns(face, pl, st, [run])
         == PlaceGlyphs(face, pl, st, run).(x := PlaceGlyphs(face, pl, st, run).x + pl.fontStep)
  {
    assert [run][..0] == [];
  }

  lemma SquarePlaced()
    ensures PlaceRuns(SquareFace(), Placement(0.0, 0.0, 1.0, 1.0, 250.0, 0.0), LayoutState(0.0, [], []), [[36]])
         == LayoutState(100.0, Square(), [])
  {
    var face, pl := SquareFace(), Placement(0.0, 0.0, 1.0, 1.0, 250.0, 0.0);
    var init := LayoutState(0.0, [], []);
    PlaceSingleRun(face, pl, init, [36]);
    SquareRunGlyphs();
  }

  /**
   * One glyph at font size 1000 from the origin: scale 1, the square is
   * emitted unchanged and the cursor ends at its `x_max`.
   */
  lemma SquareGlyph()
    ensures ToPathSpec(TextPath(0.0, 0.0, "A", "square", 1000.0, 0.0, true), map["square" := SquareFace()], Some([[36]]))
         == Some(LayoutState(100.0, Square(), []))
  {
    var tp := TextPath(0.0, 0.0, "A", "square", 1000.0, 0.0, true);
    assert PlacementOf(tp, SquareFace()) == Placement(0.0, 0.0, 1.0, 1.0, 250.0, 0.0);
    assert map["square" := SquareFace()]["square"] == SquareFace();
    SquarePlaced();
  }
}
