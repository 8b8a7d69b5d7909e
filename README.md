# text2path in Dafny

text2path turns a line of text into vector outlines. `TextPath::to_path` looks
up a font face and takes the visual runs of the text's first bidi paragraph.
It shapes each run and walks the shaped glyphs with a horizontal cursor. Each
glyph's outline goes through the callbacks of an `SVGPathBuilder` into a
scratch buffer. When the glyph has an outline, the scratch is moved onto the
accumulated path through the transform
`translate(self.x + cursor, self.y) · scale(scale_x, scale_y)`, and the cursor
moves by `x_max · scale_x`. A glyph without an outline moves the cursor by the
space advance. Every run adds `font_step` to the cursor.

The accumulated path is then either written as SVG path data (`path_raw`) or
replayed into a pdfium page path object (`PDFPathBuilder`). PDF has no
quadratic segment, so each quadratic is raised to an equivalent cubic
(`quadratic_to_cubic`).

Modules:

- `Wrappers`: `Option` and `Result`.
- `Geometry`: the tiny_skia side.
  - `Point`, `Segment` and the affine `Transform`.
  - `Concat` and `PreScale`, and `MapPath` (`Path::transform`).
  - Mirroring about a horizontal line.
- `PathData`: the free function `path_raw`, as a loop.
  - Its specification is `PathText`, which joins the tokens with single spaces.
  - A tokenizer and a parser prove that the text reads back to the same segments.
- `SvgBuilder`: class `SvgPathBuilder` with `builder` and `current` fields.
  - The callbacks append to `current`.
  - `Clear` moves the mapped scratch onto `builder`.
  - `Path` and `PathRaw` read the accumulated path.
- `TextLayout`: the `to_path` loop as methods over an `SvgPathBuilder`.
  - They are proved equal to `ToPathSpec`, a functional fold over the runs.
  - Lemmas give the final cursor, where each glyph lands, and what `not_reverse` does.
- `PdfSink`: `quadratic_to_cubic` and the proof that degree elevation is exact.
  - Class `PdfPathBuilder` tracks `last` and drives a page path object.
  - That object is modelled as a log of `move_to` / `line_to` / `bezier_to` / `close_path` calls.

Inputs that come from foreign code are parameters:

- The visual runs come from the bidi resolver and the shaper. They are given to `ToPath` as the shaped glyph ids of each run, in visual order, or None when the text has no paragraph.
- A font face is a record: units per em, the glyph `glyph_index(' ')` finds, the advances, and the outline of each glyph (its callbacks and its `x_max`).
- Number formatting (`{}` on f32) is a function `fmt` with no spaces in its output.

Where the code and the prose description of the library differ, the model follows the code:

- Text with no bidi paragraph, such as the empty string, makes `to_path` return None (`paragraphs.get(0)?`). It does not return an empty builder.
- When the font maps no space, the space advance is the advance of glyph 0 (`glyph_index(' ').unwrap_or_default()`), not 0.

## Model

| member | source | states |
|---|---|---|
| Geometry.MapPath | src/path.rs:95 | `transform` keeps the number and kinds of the segments and maps every point of segment i by the matrix |
| Geometry.MapPathAppend | src/path.rs:94-97 | mapping a concatenation is concatenating the mapped parts, so pushing paths one by one maps like one path |
| Geometry.MapIdentity | src/path.rs:86 | the default transform used by `path_raw(None)` leaves every segment unchanged |
| Geometry.MapPointConcat | src/path.rs:52 | mapping by `Concat(a, b)`, the matrix product, is mapping by `b`, then by `a` |
| Geometry.PreScaleMaps | src/path.rs:52 | `t.pre_scale(sx, sy)` scales the point by (sx, sy) first, then applies `t` |
| Geometry.PreScaleOfTranslate | src/path.rs:52 | `from_translate(tx, ty).pre_scale(sx, sy)` is the matrix with diagonal (sx, sy), no skew, and offset (tx, ty) |
| Geometry.TranslateScalePoint | src/path.rs:52 | that transform sends (x, y) to (sx·x + tx, sy·y + ty) |
| Geometry.FlipScaleMirrorsPoint | src/path.rs:28 | negating the vertical scale of the glyph transform mirrors the mapped point about y = ty |
| Geometry.FlipScaleMirrorsPath | src/path.rs:28 | the same holds for every segment of a mapped path |
| PathData.Coords | src/path.rs:135-148 | each letter is followed by as many coordinates as its arity: 2 for M and L, 4 for Q, 6 for C, 0 for Z |
| PathData.PathRaw | src/path.rs:131-153 | the loop writes every segment's letter and coordinates, each followed by a space, then drops the last character. The result is always `Ok` and equals the tokens joined by single spaces |
| PathData.PathTextShape | src/path.rs:131-153 | the text is empty exactly when the path is, never ends in a space, and splits at spaces into exactly the tokens written |
| PathData.PathTokensShape | src/path.rs:132-150 | the path writes no tokens exactly when it has no segments, and every token is non-empty and space-free |
| PathData.ParseTokensRoundTrip | src/path.rs:133-150 | reading the tokens back gives exactly the segments written, whenever the number parser reads back each coordinate of the path as the formatter wrote it |
| PathData.PathTextRoundTrip | src/path.rs:131-153 | parsing the text `path_raw` writes gives back the segments, for any space-free formatter whose output for this path's coordinates a parser reads back |
| PathData.RoundTripWitness | src/path.rs:131-153 | the round trip's hypotheses can be met: a formatter for 0 and 1 with its parser meets them on a move to (0, 1) and a close, whose text reads back to that path |
| SvgBuilder.Finish | src/path.rs:80 | `finish` gives no path exactly when nothing was pushed, otherwise the segments pushed |
| SvgBuilder.SvgPathBuilder.constructor | src/path.rs:72-77 | both buffers start empty |
| SvgBuilder.SvgPathBuilder.Path | src/path.rs:79-81 | None exactly when nothing was accumulated, else the accumulated segments |
| SvgBuilder.SvgPathBuilder.PathRaw | src/path.rs:84-91 | always `Ok`. The text is "" for an empty builder, otherwise the path-data text of the accumulated path mapped by `ts` (the identity when `ts` is None) |
| SvgBuilder.SvgPathBuilder.Clear | src/path.rs:93-100 | the scratch, mapped by `ts`, is appended to the accumulated path; an empty scratch appends nothing; the scratch is emptied |
| SvgBuilder.SvgPathBuilder.MoveTo | src/path.rs:110-112 | appends a MoveTo to the scratch and leaves the accumulated path unchanged |
| SvgBuilder.SvgPathBuilder.LineTo | src/path.rs:114-116 | appends a LineTo to the scratch and leaves the accumulated path unchanged |
| SvgBuilder.SvgPathBuilder.QuadTo | src/path.rs:118-120 | appends a QuadTo with its control point and end point to the scratch |
| SvgBuilder.SvgPathBuilder.CurveTo | src/path.rs:122-124 | appends a CubicTo with both control points and the end point to the scratch |
| SvgBuilder.SvgPathBuilder.Close | src/path.rs:126-128 | appends a Close to the scratch and leaves the accumulated path unchanged |
| TextLayout.GlyphIdTruncates | src/path.rs:49 | `glyph_id as u16` leaves ids below 2^16 unchanged and otherwise keeps the id modulo 2^16 |
| TextLayout.SpaceAdvanceFallback | src/path.rs:29-32 | the space advance in font units is the advance of the space glyph; of glyph 0 when no space is mapped; and 0 when that glyph has no advance |
| TextLayout.PlacementScales | src/path.rs:27-32 | `scale_x · units_per_em = font_size`; `scale_y` is `scale_x` when `not_reverse` holds and `-scale_x` otherwise; the space advance is its width in units times `scale_x`; origin and `font_step` are passed on |
| TextLayout.PlaceGlyphEffect | src/path.rs:49-57 | one glyph (`PlaceGlyph`) moves the cursor by its advance, keeps what was accumulated, and loses no callback. With an outline, the scratch and the new callbacks are appended, mapped by the transform at the cursor, and the scratch is emptied. Without one, they all stay in the scratch |
| TextLayout.PlaceRun | src/path.rs:47-59 | a run moves the cursor by the width of its glyphs plus `font_step` once, and leaves the buffers as its glyphs left them |
| TextLayout.ToPathSpec | src/path.rs:22-63 | None exactly when the font key is missing or the text has no paragraph; otherwise the cursor ends at the width of all runs |
| TextLayout.OutlineGlyph | src/path.rs:49 | outlining a glyph appends its outline callbacks to the scratch, leaves the accumulated path alone, and returns the glyph's `x_max` (None without an outline) |
| TextLayout.PlaceGlyphInto | src/path.rs:49-57 | one iteration of the inner loop changes the cursor and both buffers as `PlaceGlyph` says |
| TextLayout.ToPath | src/path.rs:22-63 | None exactly when the font key is missing or the text has no paragraph. Otherwise a fresh builder whose two buffers are those of `ToPathSpec` |
| TextLayout.GlyphsCursor | src/path.rs:48-58 | after a run's glyphs, the cursor has moved by the sum of their advances |
| TextLayout.RunsCursor | src/path.rs:35-60 | after all runs, the cursor has moved by the width of every run plus `font_step` for each |
| TextLayout.RunWidthTerms | src/path.rs:54-56 | a run's width is `scale_x` times the sum of `x_max` over its outlined glyphs, plus one space advance per glyph without an outline |
| TextLayout.SpacingIsProduct | src/path.rs:59 | adding `font_step` once per run adds (number of runs)·`font_step` |
| TextLayout.RunsWidthTerms | src/path.rs:35-60 | the width of all runs is the advance of all their glyphs, run after run, plus `font_step` once per run |
| TextLayout.ToPathCursor | src/path.rs:33-60 | `to_path` ends with the cursor at the advance of every glyph of every run plus `font_step` once per run |
| TextLayout.GlyphsMatchReference | src/path.rs:48-58 | when glyphs without outline make no callbacks, a run leaves the scratch empty and appends each glyph's outline mapped at the cursor reached before that glyph, in shaping order |
| TextLayout.RunsMatchReference | src/path.rs:35-60 | the same for all runs, in visual order, each run starting where the previous one ended plus `font_step` |
| TextLayout.ToPathPlacesInVisualOrder | src/path.rs:33-62 | under that condition, `to_path`'s result equals the reference placement of every glyph, with the cursor at the total width and the scratch empty |
| TextLayout.GlyphMirror | src/path.rs:28 | placing a glyph with the vertical scale negated gives the mirror image, about y = `self.y`, of placing it unflipped |
| TextLayout.GlyphsMirror | src/path.rs:48-58 | the same for a whole run |
| TextLayout.RunsMirror | src/path.rs:35-60 | the same for all runs |
| TextLayout.OrientationMirrors | src/path.rs:28 | toggling `not_reverse` keeps whether there is a result, the cursor and the scratch, and mirrors every emitted point about y = `self.y` |
| TextLayout.SquareGlyphPlaced | src/path.rs:49-54 | at scale 1 from the origin, a square glyph is emitted unchanged and the cursor moves by its `x_max` |
| TextLayout.SquareGlyph | src/path.rs:22-63 | font size 1000 at 1000 units per em with run spacing 0: one run of the square glyph gives exactly the square, with the cursor at 100 |
| PdfSink.QuadraticToCubic | src/path.rs:167-181 | the cubic keeps both end points of the quadratic |
| PdfSink.ElevateCoord | src/path.rs:170-178 | on one coordinate, control points two thirds of the way towards the quadratic's control point give the same curve at every t |
| PdfSink.ElevationExact | src/path.rs:167-181 | the cubic from `quadratic_to_cubic` passes through the same point as the quadratic at every parameter t |
| PdfSink.SinkCommands | src/path.rs:194-215 | `set` sends exactly one command per segment |
| PdfSink.PdfPagePathObject.constructor | example/pdfpath.rs:30-37 | a new path object is placed at its translation and has no drawing commands yet |
| PdfSink.PdfPagePathObject.MoveTo | src/path.rs:221-223 | a `move_to` call is logged with its point |
| PdfSink.PdfPagePathObject.LineTo | src/path.rs:228-230 | a `line_to` call is logged with its point |
| PdfSink.PdfPagePathObject.BezierTo | src/path.rs:251-260 | a `bezier_to` call is logged with the end point first, then the two control points |
| PdfSink.PdfPagePathObject.ClosePath | src/path.rs:264 | a `close_path` call is logged |
| PdfSink.PdfPathBuilder.constructor | src/path.rs:189-192 | the first "last point" is the path object's translation |
| PdfSink.PdfPathBuilder.MoveTo | src/path.rs:219-224 | sets `last` to the point and sends `move_to` with it |
| PdfSink.PdfPathBuilder.LineTo | src/path.rs:226-231 | sets `last` to the point and sends `line_to` with it |
| PdfSink.PdfPathBuilder.CurveTo | src/path.rs:249-261 | sets `last` to the end point and sends `bezier_to(end, control 1, control 2)` |
| PdfSink.PdfPathBuilder.QuadTo | src/path.rs:233-247 | raises the quadratic to a cubic from the previous `last`, sends it, and sets `last` to the end point |
| PdfSink.PdfPathBuilder.Close | src/path.rs:263-265 | sends `close_path` and leaves `last` where it was |
| PdfSink.PdfPathBuilder.Set | src/path.rs:194-215 | replaying a path appends `SinkCommands` of the path to the log and leaves `last` at `LastAfter` |
| PdfSink.CommandPerSegment | src/path.rs:194-215 | command i is made from segment i and from `last` as segments 0..i left it |
| PdfSink.CommandKinds | src/path.rs:196-212 | each command has its segment's kind and end point; a cubic's points are passed on unchanged, end point first |
| PdfSink.LastAfterCloses | src/path.rs:263-265 | a path of `close` segments only leaves `last` at its start |
| PdfSink.LastAfterDrawn | src/path.rs:219-261 | otherwise `last` is the end point of the last segment that is not a `close` |
| PdfSink.QuadCommandExact | src/path.rs:205-207 | the Bezier sent for a quadratic segment traces that quadratic at every t, starting from the point last drawn to |

## Left out

- Bidi resolution, script and direction selection (`set_script(ARABIC)`, RTL levels) and shaping: these are foreign crates, so the shaped glyph ids per visual run are an input.
- ttf_parser internals: `units_per_em`, `glyph_index`, `glyph_hor_advance` and `outline_glyph` are read from a face record.
- f32 arithmetic: coordinates, scales and the cursor are reals. Rounding and non-finite values are not modelled.
- SvgBuilder.Finish: tiny_skia's `finish` gives no path for a builder holding a single MoveTo or with non-finite bounds. Here a builder gives a path exactly when it holds a segment.
- SvgBuilder.SvgPathBuilder.MoveTo: tiny_skia's `move_to` replaces a MoveTo that ends the path. The model appends it.
- SvgBuilder.SvgPathBuilder.Close: tiny_skia's `close` does nothing on an empty builder or right after a Close. The model always appends a Close.
- SvgBuilder.SvgPathBuilder.LineTo: tiny_skia's `line_to` first inserts a MoveTo when the path is empty or ends in a Close. The model appends the LineTo alone. The same holds for SvgBuilder.SvgPathBuilder.QuadTo and SvgBuilder.SvgPathBuilder.CurveTo.
- SvgBuilder.SvgPathBuilder.Clear: `Path::transform` can fail on non-finite results, and the model's transform always succeeds. The empty-scratch case is kept.
- SvgBuilder.SvgPathBuilder.PathRaw: the `Err` branch of `core::fmt::Error` cannot happen when writing to a `String`, so the model always returns `Ok`.
- PathData.PathRaw: Rust's `Display` for f32 is the parameter `fmt`. The round trip holds whenever a parser reads back each coordinate of the path as `fmt` wrote it. That is true of f32 `Display` and `parse`, which the model does not define.
- PdfSink.PdfPagePathObject: pdfium errors are not modelled, with every call taken to succeed. So neither the discarded `Err` of `unwrap_or_default` nor the panic of `close_path().unwrap()` appears.
- PdfSink.PdfPathBuilder.Close: `close_path` moves PDF's own current point back to the subpath start, but `last` keeps the last end point. tiny_skia paths always put a MoveTo after a Close, so no quadratic is raised from that point. The model keeps `last` as the code does.
- TextLayout.ToPath: `glyph.glyph_id as u16` is modelled as truncation modulo 2^16.
- TextLayout.ToPath: callbacks made by a glyph that reports no bounding box stay in the scratch, as in the code. They are flushed with the next outlined glyph's transform. The reference-placement lemmas assume that a glyph without an outline makes no callbacks.
- The SVG and PDF example programs, and their file, font and pdfium I/O.
