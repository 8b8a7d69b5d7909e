/**
 * The textual path-data serializer (`path_raw`): one command letter per
 * segment followed by its coordinates, every token followed by one space,
 * and the last character dropped. Number formatting (Rust's `{}` Display for
 * f32) is a parameter `fmt`; a tokenizer and a parser show that the text
 * describes exactly the segments it came from.
 */
module PathData {
  import opened Wrappers
  import opened Geometry

  /** `core::fmt::Error`. */
  datatype FormatError = FormatError

  /** What the serializer needs of number formatting: some text, and no space in it. */
  ghost predicate ValidFormatter(fmt: real -> string) {
    forall v: real :: fmt(v) != [] && ' ' !in fmt(v)
  }

  function Letter(s: Segment): string {
    match s
    case MoveTo(_) => "M"
    case LineTo(_) => "L"
    case QuadTo(_, _) => "Q"
    case CubicTo(_, _, _) => "C"
    case Close => "Z"
  }

  /** How many coordinates follow each command letter. */
  function Arity(letter: string): Option<nat> {
    if letter == "M" || letter == "L" then Some(2)
    else if letter == "Q" then Some(4)
    else if letter == "C" then Some(6)
    else if letter == "Z" then Some(0)
    else None
  }

  /** The coordinates written after a segment's letter, in writing order. */
  function Coords(s: Segment): (r: seq<real>)
    ensures Arity(Letter(s)) == Some(|r|)
  {
    match s
    case MoveTo(p) => [p.x, p.y]
    case LineTo(p) => [p.x, p.y]
    case QuadTo(c, p) => [c.x, c.y, p.x, p.y]
    case CubicTo(c1, c2, p) => [c1.x, c1.y, c2.x, c2.y, p.x, p.y]
    case Close => []
  }

  function FormatAll(vs: seq<real>, fmt: real -> string): (r: seq<string>)
    ensures |r| == |vs|
  {
    seq(|vs|, i requires 0 <= i < |vs| => fmt(vs[i]))
  }

  /** The tokens one segment contributes: its letter, then its formatted coordinates. */
  function SegmentTokens(s: Segment, fmt: real -> string): seq<string> {
    [Letter(s)] + FormatAll(Coords(s), fmt)
  }

  /** The tokens of a whole path, segment by segment in path order. */
  function PathTokens(segs: seq<Segment>, fmt: real -> string): seq<string> {
    if segs == [] then [] else SegmentTokens(segs[0], fmt) + PathTokens(segs[1..], fmt)
  }

  /** Every token followed by one space, as `write_fmt` produces them. */
  function Spaced(ts: seq<string>): string {
    if ts == [] then "" else ts[0] + " " + Spaced(ts[1..])
  }

  /** Tokens separated by single spaces, with no separator at either end. */
  function Join(ts: seq<string>): string {
    if ts == [] then ""
    else if |ts| == 1 then ts[0]
    else ts[0] + " " + Join(ts[1..])
  }

  /** The path-data text of a path. */
  function PathText(segs: seq<Segment>, fmt: real -> string): string {
    Join(PathTokens(segs, fmt))
  }

  /** The free function `path_raw`: writes every segment, then pops the final space. */
  method PathRaw(segs: seq<Segment>, fmt: real -> string) returns (r: Result<string, FormatError>)
    ensures r == Ok(PathText(segs, fmt))
  {
    var raw := "";
    for i := 0 to |segs|
      invariant raw == Spaced(PathTokens(segs[..i], fmt))
    {
      var next := raw + Spaced(SegmentTokens(segs[i], fmt));
      assert next == Spaced(PathTokens(segs[..i + 1], fmt)) by {
        assert segs[..i + 1] == segs[..i] + [segs[i]];
        PathTokensSnoc(segs[..i], segs[i], fmt);
        SpacedAppend(PathTokens(segs[..i], fmt), SegmentTokens(segs[i], fmt));
      }
      raw := next;
    }
    var ts := PathTokens(segs, fmt);
    assert raw == Spaced(ts) by {
      assert segs[..|segs|] == segs;
    }
    assert (ts == [] ==> raw == "") && (ts != [] ==> raw == Join(ts) + " ") by {
      SpacedIsJoinPlusSpace(ts);
    }
    if |raw| > 0 {
      raw := raw[..|raw| - 1];
    }
    return Ok(raw);
  }

  lemma {:induction false} PathTokensSnoc(segs: seq<Segment>, s: Segment, fmt: real -> string)
    ensures PathTokens(segs + [s], fmt) == PathTokens(segs, fmt) + SegmentTokens(s, fmt)
  {
    if segs == [] {
      assert [s][1..] == [];
    } else {
      assert (segs + [s])[1..] == segs[1..] + [s];
      PathTokensSnoc(segs[1..], s, fmt);
    }
  }

  lemma {:induction false} SpacedAppend(a: seq<string>, b: seq<string>)
    ensures Spaced(a + b) == Spaced(a) + Spaced(b)
  {
    if a == [] {
      assert a + b == b;
    } else {
      assert (a + b)[1..] == a[1..] + b;
      SpacedAppend(a[1..], b);
    }
  }

  /** Dropping the final space of `Spaced` gives `Join`; no tokens give no text. */
  lemma {:induction false} SpacedIsJoinPlusSpace(ts: seq<string>)
    ensures ts == [] ==> Spaced(ts) == ""
    ensures ts != [] ==> Spaced(ts) == Join(ts) + " "
  {
    if |ts| > 1 {
      SpacedIsJoinPlusSpace(ts[1..]);
    }
  }

  // ---------------------------------------------------------------------------
  // Reading the text back: split on single spaces, then parse.

  /** Splitting on single spaces; the empty text splits into one empty piece. */
  function Split(s: string): (r: seq<string>)
    ensures |r| > 0
  {
    if s == [] then [[]]
    else
      var rest := Split(s[1..]);
      if s[0] == ' ' then [[]] + rest else [[s[0]] + rest[0]] + rest[1..]
  }

  lemma {:induction false} SplitPlain(a: string)
    requires ' ' !in a
    ensures Split(a) == [a]
  {
    if a != [] {
      assert a[0] in a && forall c :: c in a[1..] ==> c in a;
      SplitPlain(a[1..]);
      assert [a[0]] + a[1..] == a;
    }
  }

  lemma {:induction false} SplitFirst(a: string, b: string)
    requires ' ' !in a
    ensures Split(a + " " + b) == [a] + Split(b)
  {
    if a == [] {
      assert (a + " " + b)[1..] == b;
    } else {
      assert (a + " " + b)[1..] == a[1..] + " " + b;
      assert a[0] in a && forall c :: c in a[1..] ==> c in a;
      SplitFirst(a[1..], b);
      assert [a[0]] + a[1..] == a;
    }
  }

  ghost predicate NoSpaces(ts: seq<string>) {
    forall i :: 0 <= i < |ts| ==> ' ' !in ts[i]
  }

  /** Splitting undoes joining, as long as no token holds a space. */
  lemma {:induction false} SplitJoin(ts: seq<string>)
    requires ts != [] && NoSpaces(ts)
    ensures Split(Join(ts)) == ts
  {
    if |ts| == 1 {
      SplitPlain(ts[0]);
    } else {
      SplitFirst(ts[0], Join(ts[1..]));
      SplitJoin(ts[1..]);
    }
  }

  lemma {:induction false} PathTokensShape(segs: seq<Segment>, fmt: real -> string)
    requires ValidFormatter(fmt)
    ensures segs == [] <==> PathTokens(segs, fmt) == []
    ensures NoSpaces(PathTokens(segs, fmt))
    ensures forall i :: 0 <= i < |PathTokens(segs, fmt)| ==> PathTokens(segs, fmt)[i] != []
  {
    if segs != [] {
      PathTokensShape(segs[1..], fmt);
      var head := SegmentTokens(segs[0], fmt);
      assert forall i :: 0 <= i < |head| ==> head[i] != [] && ' ' !in head[i] by {
        forall i | 0 <= i < |head| ensures head[i] != [] && ' ' !in head[i] {
          if i > 0 {
            assert head[i] == fmt(Coords(segs[0])[i - 1]);
          }
        }
      }
    }
  }

  lemma {:induction false} JoinLast(ts: seq<string>)
    requires ts != [] && ts[|ts| - 1] != []
    ensures Join(ts) != [] && Join(ts)[|Join(ts)| - 1] == ts[|ts| - 1][|ts[|ts| - 1]| - 1]
  {
    if |ts| > 1 {
      JoinLast(ts[1..]);
    }
  }

  /**
   * The text of the empty path is empty; any other path gives text that does
   * not end in a space and that splits on single spaces into exactly its tokens.
   */
  lemma PathTextShape(segs: seq<Segment>, fmt: real -> string)
    requires ValidFormatter(fmt)
    ensures segs == [] <==> PathText(segs, fmt) == ""
    ensures segs != [] ==> PathText(segs, fmt)[|PathText(segs, fmt)| - 1] != ' '
    ensures segs != [] ==> Split(PathText(segs, fmt)) == PathTokens(segs, fmt)
  {
    var ts := PathTokens(segs, fmt);
    PathTokensShape(segs, fmt);
    if segs != [] {
      var lastTok := ts[|ts| - 1];
      JoinLast(ts);
      assert lastTok[|lastTok| - 1] in lastTok;
      SplitJoin(ts);
    }
  }

  /** The coordinates of one command, read back with `unfmt`. */
  function ParseCoords(ts: seq<string>, unfmt: string -> Option<real>): Option<seq<real>> {
    if ts == [] then Some([])
    else match (unfmt(ts[0]), ParseCoords(ts[1..], unfmt))
      case (Some(v), Some(rest)) => Some([v] + rest)
      case _ => None
  }

  /** The segment a letter and its coordinates stand for. */
  function SegmentOf(letter: string, cs: seq<real>): Option<Segment> {
    if Arity(letter) != Some(|cs|) then None
    else if letter == "M" then Some(MoveTo(Point(cs[0], cs[1])))
    else if letter == "L" then Some(LineTo(Point(cs[0], cs[1])))
    else if letter == "Q" then Some(QuadTo(Point(cs[0], cs[1]), Point(cs[2], cs[3])))
    else if letter == "C" then
      Some(CubicTo(Point(cs[0], cs[1]), Point(cs[2], cs[3]), Point(cs[4], cs[5])))
    else Some(Close)
  }

  /** Reads a token list: a letter, its coordinates, and so on to the end. */
  function ParseTokens(ts: seq<string>, unfmt: string -> Option<real>): Option<seq<Segment>>
    decreases |ts|
  {
    if ts == [] then Some([])
    else match Arity(ts[0])
      case None => None
      case Some(n) =>
        if |ts| - 1 < n then None
        else match (ParseCoords(ts[1..1 + n], unfmt), ParseTokens(ts[1 + n..], unfmt))
          case (Some(cs), Some(rest)) =>
            (match SegmentOf(ts[0], cs)
             case Some(s) => Some([s] + rest)
             case None => None)
          case _ => None
  }

  /** Reads path-data text back into segments. */
  function ParsePathText(text: string, unfmt: string -> Option<real>): Option<seq<Segment>> {
    if text == "" then Some([]) else ParseTokens(Split(text), unfmt)
  }

  /** `unfmt` reads back every number of `vs` as `fmt` writes it. */
  ghost predicate InvertsOn(unfmt: string -> Option<real>, fmt: real -> string, vs: seq<real>) {
    forall k :: 0 <= k < |vs| ==> unfmt(fmt(vs[k])) == Some(vs[k])
  }

  /** `unfmt` reads back every coordinate of the path as `fmt` writes it. */
  ghost predicate InvertsOnPath(unfmt: string -> Option<real>, fmt: real -> string, segs: seq<Segment>) {
    forall i :: 0 <= i < |segs| ==> InvertsOn(unfmt, fmt, Coords(segs[i]))
  }

  lemma {:induction false} ParseFormatted(vs: seq<real>, fmt: real -> string, unfmt: string -> Option<real>)
    requires InvertsOn(unfmt, fmt, vs)
    ensures ParseCoords(FormatAll(vs, fmt), unfmt) == Some(vs)
  {
    if vs != [] {
      var v := vs[0];
      assert unfmt(fmt(v)) == Some(v);
      var ts := FormatAll(vs, fmt);
      assert ts[0] == fmt(v);
      assert ts[1..] == FormatAll(vs[1..], fmt);
      assert InvertsOn(unfmt, fmt, vs[1..]) by {
        forall k | 0 <= k < |vs[1..]| ensures unfmt(fmt(vs[1..][k])) == Some(vs[1..][k]) {
          assert vs[1..][k] == vs[k + 1];
        }
      }
      ParseFormatted(vs[1..], fmt, unfmt);
      assert [v] + vs[1..] == vs;
    }
  }

  lemma SegmentOfCoords(s: Segment)
    ensures SegmentOf(Letter(s), Coords(s)) == Some(s)
  {
  }

  /** One step of the parser: a letter, its coordinates, then the rest. */
  lemma ParseTokensStep(l: string, f: seq<string>, rest: seq<string>, unfmt: string -> Option<real>,
                        cs: seq<real>, s: Segment, r: seq<Segment>)
    requires Arity(l) == Some(|f|)
    requires ParseCoords(f, unfmt) == Some(cs) && SegmentOf(l, cs) == Some(s)
    requires ParseTokens(rest, unfmt) == Some(r)
    ensures ParseTokens([l] + f + rest, unfmt) == Some([s] + r)
  {
    var ts := [l] + f + rest;
    assert ts[0] == l;
    assert ts[1..1 + |f|] == f;
    assert ts[1 + |f|..] == rest;
  }

  lemma {:induction false} ParseTokensRoundTrip(segs: seq<Segment>, fmt: real -> string, unfmt: string -> Option<real>)
    requires InvertsOnPath(unfmt, fmt, segs)
    ensures ParseTokens(PathTokens(segs, fmt), unfmt) == Some(segs)
  {
    if segs != [] {
      var s := segs[0];
      assert InvertsOn(unfmt, fmt, Coords(segs[0]));
      ParseFormatted(Coords(s), fmt, unfmt);
      assert InvertsOnPath(unfmt, fmt, segs[1..]) by {
        forall i | 0 <= i < |segs[1..]| ensures InvertsOn(unfmt, fmt, Coords(segs[1..][i])) {
          assert segs[1..][i] == segs[i + 1];
        }
      }
      SegmentOfCoords(s);
      ParseTokensRoundTrip(segs[1..], fmt, unfmt);
      ParseTokensStep(Letter(s), FormatAll(Coords(s), fmt), PathTokens(segs[1..], fmt), unfmt,
                      Coords(s), s, segs[1..]);
      assert [s] + segs[1..] == segs;
    }
  }

  /**
   * The text and the structured path describe the same commands and numbers:
   * whenever `unfmt` reads back each coordinate of the path as `fmt` writes
   * it, parsing the text of the path gives that path.
   */
  lemma PathTextRoundTrip(segs: seq<Segment>, fmt: real -> string, unfmt: string -> Option<real>)
    requires ValidFormatter(fmt) && InvertsOnPath(unfmt, fmt, segs)
    ensures ParsePathText(PathText(segs, fmt), unfmt) == Some(segs)
  {
    PathTextShape(segs, fmt);
    ParseTokensRoundTrip(segs, fmt, unfmt);
  }

  // ---------------------------------------------------------------------------
  // The hypotheses of the round trip can be met.

  /** A formatter that writes 0 as "0" and every other number as "1". */
  function BinaryDigit(v: real): string {
    if v == 0.0 then "0" else "1"
  }

  /** Reads "0" and "1" back as 0 and 1. */
  function ReadBinaryDigit(t: string): Option<real> {
    if t == "0" then Some(0.0) else if t == "1" then Some(1.0) else None
  }

  /** A move to (0, 1) and a close: its text reads back to the same path. */
  lemma RoundTripWitness()
    ensures var segs := [MoveTo(Point(0.0, 1.0)), Close];
      && ValidFormatter(BinaryDigit)
      && InvertsOnPath(ReadBinaryDigit, BinaryDigit, segs)
      && ParsePathText(PathText(segs, BinaryDigit), ReadBinaryDigit) == Some(segs)
  {
    var segs := [MoveTo(Point(0.0, 1.0)), Close];
    assert InvertsOn(ReadBinaryDigit, BinaryDigit, Coords(segs[0]));
    assert InvertsOn(ReadBinaryDigit, BinaryDigit, Coords(segs[1]));
    PathTextRoundTrip(segs, BinaryDigit, ReadBinaryDigit);
  }
}
