/** The minimap a window can show: one square for every known chunk around a centre, the centre
    itself, and the markers that fall inside. */
module Minimap {
  import opened Wrappers
  import opened GuiDocument
  import opened Sequences

  const PIXELS := 18
  const CHUNK := 32

  type Probe = (int, int) -> Option<bool>

  /** A marked cell and what clicking it does. */
  datatype Marker = Marker(x: int, y: int, action: string)

  function ChunkOf(v: int): int { v / CHUNK }

  /** The middle of a chunk, where the map is asked. */
  function Middle(chunk: int): int { chunk * CHUNK + 16 }

  /** The square of the chunk (dx, dy) away from the centre, if the map knows that chunk. */
  function Square(cx: int, cy: int, dx: int, dy: int, probe: Probe): seq<CanvasElement> {
    match probe(Middle(cx + dx), Middle(cy + dy))
    case None => []
    case Some(empty) => [Rect(dx * PIXELS, -dy * PIXELS, PIXELS, PIXELS, if empty then "008000" else "6495ed")]
  }

  function Row(cx: int, cy: int, dx: int, dy: int, radius: int, probe: Probe): seq<CanvasElement>
    decreases radius - dx
  {
    if dx > radius then [] else Square(cx, cy, dx, dy, probe) + Row(cx, cy, dx + 1, dy, radius, probe)
  }

  function Rows(cx: int, cy: int, dy: int, radius: int, probe: Probe): seq<CanvasElement>
    decreases radius - dy
  {
    if dy > radius then [] else Row(cx, cy, -radius, dy, radius, probe) + Rows(cx, cy, dy + 1, radius, probe)
  }

  function Abs(v: int): nat { if v < 0 then -v else v }

  predicate Inside(cx: int, cy: int, radius: int, m: Marker) {
    Abs(ChunkOf(m.x) - cx) <= radius && Abs(ChunkOf(m.y) - cy) <= radius
  }

  function Point(cx: int, cy: int, m: Marker): CanvasElement {
    TeleportPoint((ChunkOf(m.x) - cx) * PIXELS, -(ChunkOf(m.y) - cy) * PIXELS, m.action)
  }

  function Points(cx: int, cy: int, radius: int, markers: seq<Marker>): seq<CanvasElement> {
    if markers == [] then []
    else
      (if Inside(cx, cy, radius, markers[0]) then [Point(cx, cy, markers[0])] else [])
      + Points(cx, cy, radius, markers[1..])
  }

  function Style(radius: int): string {
    var side := (2 * radius + 2) * PIXELS;
    "canv-w=" + Decimal(side) + ";canv-h=" + Decimal(side)
  }

  const CENTRE := Rect(0, 0, PIXELS, PIXELS, "ff3030")

  /** The inner loop of `minimap`. */
  method DrawRow(before: seq<CanvasElement>, cx: int, cy: int, dy: int, radius: int, probe: Probe)
    returns (canvas: seq<CanvasElement>)
    ensures canvas == before + Row(cx, cy, -radius, dy, radius, probe)
  {
    canvas := before;
    var dx := -radius;
    ghost var all := before + Row(cx, cy, -radius, dy, radius, probe);
    while dx <= radius
      invariant canvas + Row(cx, cy, dx, dy, radius, probe) == all
      decreases radius - dx
    {
      ConcatAssociates(canvas, Square(cx, cy, dx, dy, probe), Row(cx, cy, dx + 1, dy, radius, probe));
      canvas := DrawSquare(canvas, cx, cy, dx, dy, probe);
      dx := dx + 1;
    }
    assert canvas + [] == canvas;
  }

  method DrawSquare(before: seq<CanvasElement>, cx: int, cy: int, dx: int, dy: int, probe: Probe)
    returns (canvas: seq<CanvasElement>)
    ensures canvas == before + Square(cx, cy, dx, dy, probe)
  {
    canvas := before;
    var known := probe(Middle(cx + dx), Middle(cy + dy));
    if known.Some? {
      canvas := canvas + [Rect(dx * PIXELS, -dy * PIXELS, PIXELS, PIXELS, if known.value then "008000" else "6495ed")];
    }
  }

  method DrawRows(before: seq<CanvasElement>, cx: int, cy: int, radius: int, probe: Probe)
    returns (canvas: seq<CanvasElement>)
    ensures canvas == before + Rows(cx, cy, -radius, radius, probe)
  {
    canvas := before;
    var dy := -radius;
    ghost var all := before + Rows(cx, cy, -radius, radius, probe);
    while dy <= radius
      invariant canvas + Rows(cx, cy, dy, radius, probe) == all
      decreases radius - dy
    {
      ConcatAssociates(canvas, Row(cx, cy, -radius, dy, radius, probe), Rows(cx, cy, dy + 1, radius, probe));
      canvas := DrawRow(canvas, cx, cy, dy, radius, probe);
      dy := dy + 1;
    }
    assert canvas + [] == canvas;
  }

  /** The loop over the markers. */
  method DrawPoints(before: seq<CanvasElement>, cx: int, cy: int, radius: int, markers: seq<Marker>)
    returns (canvas: seq<CanvasElement>)
    ensures canvas == before + Points(cx, cy, radius, markers)
  {
    canvas := before;
    ghost var all := before + Points(cx, cy, radius, markers);
    for i := 0 to |markers|
      invariant canvas + Points(cx, cy, radius, markers[i..]) == all
    {
      assert markers[i..][1..] == markers[i + 1..];
      var m := markers[i];
      ghost var point, rest := if Inside(cx, cy, radius, m) then [Point(cx, cy, m)] else [], markers[i + 1..];
      ConcatAssociates(canvas, point, Points(cx, cy, radius, rest));
      var offX, offY := ChunkOf(m.x) - cx, ChunkOf(m.y) - cy;
      if Abs(offX) <= radius && Abs(offY) <= radius {
        canvas := canvas + [TeleportPoint(offX * PIXELS, -offY * PIXELS, m.action)];
      } else {
        assert canvas + [] == canvas;
      }
    }
    assert canvas + [] == canvas;
  }

  /** `Horb::minimap`. */
  method Draw(h: Horb, centerX: int, centerY: int, radius: int, probe: Probe, markers: seq<Marker>) returns (r: Horb)
    ensures var cx, cy := centerX / 32, centerY / 32;
            var side := Decimal(36 * radius + 36);
            r == h.(canvas := h.canvas + Rows(cx, cy, -radius, radius, probe)
                              + [Rect(0, 0, 18, 18, "ff3030")] + Points(cx, cy, radius, markers),
                    css := "canv-w=" + side + ";canv-h=" + side)
  {
    var cx, cy := ChunkOf(centerX), ChunkOf(centerY);
    var canvas := DrawRows(h.canvas, cx, cy, radius, probe);
    canvas := DrawPoints(canvas + [CENTRE], cx, cy, radius, markers);
    r := h.(canvas := canvas, css := Style(radius));
  }

  // ---------------------------------------------------------------- what is on the map

  ghost predicate InRow(cx: int, cy: int, dy: int, radius: int, probe: Probe, e: CanvasElement) {
    exists dx :: -radius <= dx <= radius && e in Square(cx, cy, dx, dy, probe)
  }

  lemma {:induction false} RowAt(cx: int, cy: int, from: int, dy: int, radius: int, probe: Probe, e: CanvasElement)
    ensures e in Row(cx, cy, from, dy, radius, probe)
            <==> exists dx :: from <= dx <= radius && e in Square(cx, cy, dx, dy, probe)
    decreases radius - from
  {
    if from <= radius {
      var rest := Row(cx, cy, from + 1, dy, radius, probe);
      assert Row(cx, cy, from, dy, radius, probe) == Square(cx, cy, from, dy, probe) + rest;
      hide Square, Row;
      RowAt(cx, cy, from + 1, dy, radius, probe, e);
      assert e in Row(cx, cy, from, dy, radius, probe) <==> e in Square(cx, cy, from, dy, probe) || e in rest;
    }
  }

  lemma RowIs(cx: int, cy: int, dy: int, radius: int, probe: Probe, e: CanvasElement)
    ensures e in Row(cx, cy, -radius, dy, radius, probe) <==> InRow(cx, cy, dy, radius, probe, e)
  {
    hide Row, Square;
    RowAt(cx, cy, -radius, dy, radius, probe, e);
  }

  lemma {:induction false} RowsAt(cx: int, cy: int, from: int, radius: int, probe: Probe, e: CanvasElement)
    ensures e in Rows(cx, cy, from, radius, probe)
            <==> exists dy :: from <= dy <= radius && InRow(cx, cy, dy, radius, probe, e)
    decreases radius - from
  {
    hide InRow, Square, Row;
    if from <= radius {
      var first, rest := Row(cx, cy, -radius, from, radius, probe), Rows(cx, cy, from + 1, radius, probe);
      assert Rows(cx, cy, from, radius, probe) == first + rest;
      hide Rows;
      InConcat(first, rest, e);
      RowIs(cx, cy, from, radius, probe, e);
      RowsAt(cx, cy, from + 1, radius, probe, e);
    }
  }

  lemma SquareSays(cx: int, cy: int, x: int, y: int, probe: Probe, dx: int, dy: int, color: string)
    ensures Rect(dx * PIXELS, -dy * PIXELS, PIXELS, PIXELS, color) in Square(cx, cy, x, y, probe)
            <==> x == dx && y == dy && Colored(probe(Middle(cx + dx), Middle(cy + dy)), color)
  {
  }

  predicate Colored(known: Option<bool>, color: string) {
    known.Some? && color == if known.value then "008000" else "6495ed"
  }

  /** A square is drawn exactly for the known chunks of the window: at offset (dx, dy) there is
      one of this colour if and only if the map knows the chunk and it has that colour. */
  lemma SquareDrawnExactly(cx: int, cy: int, radius: int, probe: Probe, dx: int, dy: int, color: string)
    ensures Rect(18 * dx, -18 * dy, 18, 18, color) in Rows(cx, cy, -radius, radius, probe) <==>
            && -radius <= dx <= radius && -radius <= dy <= radius
            && var known := probe(32 * (cx + dx) + 16, 32 * (cy + dy) + 16);
               known.Some? && color == if known.value then "008000" else "6495ed"
  {
    hide Rows, Square;
    var e := Rect(dx * PIXELS, -dy * PIXELS, PIXELS, PIXELS, color);
    RowsAt(cx, cy, -radius, radius, probe, e);
    if e in Rows(cx, cy, -radius, radius, probe) {
      var y :| -radius <= y <= radius && InRow(cx, cy, y, radius, probe, e);
      var x :| -radius <= x <= radius && e in Square(cx, cy, x, y, probe);
      SquareSays(cx, cy, x, y, probe, dx, dy, color);
    }
    if Abs(dx) <= radius && Abs(dy) <= radius && e in Square(cx, cy, dx, dy, probe) {
      assert InRow(cx, cy, dy, radius, probe, e);
    }
    SquareSays(cx, cy, dx, dy, probe, dx, dy, color);
  }

  /** No chunk is drawn twice. */
  ghost predicate Apart(s: seq<CanvasElement>) {
    forall i, j :: 0 <= i < j < |s| ==> s[i].x != s[j].x || s[i].y != s[j].y
  }

  lemma {:induction false} RowApart(cx: int, cy: int, from: int, dy: int, radius: int, probe: Probe)
    ensures var s := Row(cx, cy, from, dy, radius, probe);
            Apart(s) && forall i :: 0 <= i < |s| ==> s[i].x >= from * PIXELS && s[i].y == -dy * PIXELS
    decreases radius - from
  {
    if from <= radius {
      RowApart(cx, cy, from + 1, dy, radius, probe);
      var rest := Row(cx, cy, from + 1, dy, radius, probe);
      assert Row(cx, cy, from, dy, radius, probe) == Square(cx, cy, from, dy, probe) + rest;
    }
  }

  lemma {:induction false} SquaresApart(cx: int, cy: int, from: int, radius: int, probe: Probe)
    ensures var s := Rows(cx, cy, from, radius, probe);
            Apart(s) && forall i :: 0 <= i < |s| ==> s[i].y <= -from * PIXELS
    decreases radius - from
  {
    if from <= radius {
      RowApart(cx, cy, -radius, from, radius, probe);
      SquaresApart(cx, cy, from + 1, radius, probe);
      var first, rest := Row(cx, cy, -radius, from, radius, probe), Rows(cx, cy, from + 1, radius, probe);
      assert Rows(cx, cy, from, radius, probe) == first + rest;
      hide Row, Rows;
      ApartConcat(first, rest);
    }
  }

  lemma ApartConcat(a: seq<CanvasElement>, b: seq<CanvasElement>)
    requires Apart(a) && Apart(b)
    requires forall i, j :: 0 <= i < |a| && 0 <= j < |b| ==> a[i].y != b[j].y
    ensures Apart(a + b)
  {
  }

  /** The marker's chunk is so many chunks from the centre, no more than the radius, and its point as many squares. */
  predicate Marks(cx: int, cy: int, radius: int, m: Marker, e: CanvasElement) {
    var dx, dy := m.x / 32 - cx, m.y / 32 - cy;
    -radius <= dx <= radius && -radius <= dy <= radius && e == TeleportPoint(18 * dx, -18 * dy, m.action)
  }

  /** A marker inside the window stands on the square of its own chunk; no other is drawn. */
  lemma {:induction false} PointsExactly(cx: int, cy: int, radius: int, markers: seq<Marker>, e: CanvasElement)
    ensures e in Points(cx, cy, radius, markers)
            <==> exists i :: 0 <= i < |markers| && Marks(cx, cy, radius, markers[i], e)
  {
    if markers != [] {
      PointsExactly(cx, cy, radius, markers[1..], e);
      var rest := markers[1..];
      if e in Points(cx, cy, radius, rest) {
        var i :| 0 <= i < |rest| && Marks(cx, cy, radius, rest[i], e);
        assert markers[i + 1] == rest[i];
      }
      forall i | 0 < i < |markers| && Marks(cx, cy, radius, markers[i], e)
        ensures e in Points(cx, cy, radius, rest)
      {
        assert rest[i - 1] == markers[i];
      }
    }
  }
}
