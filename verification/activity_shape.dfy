/** The shape helpers of the activities screen: the bounding box a title gets,
    the hexagon outline drawn inside that box, the SVG path text of the
    outline, and the point the title is centred on. Points are counted in half
    units (see `SvgPath.Point`), so a box `width` by `height` spans
    `0 .. 2 * width` by `0 .. 2 * height` half units. */
module ActivityShape {
  import opened Wrappers
  import opened Decimal
  import opened SvgPath

  /** Width no title box falls below. */
  const MinWidth: int := 100
  /** Width allowed per character of the title (the title's length is its number of UTF-16 code units). */
  const CharWidth: int := 12
  /** Height of every title box. */
  const ShapeHeight: int := 60
  /** Horizontal distance from a side point of the hexagon to its corners. */
  const Inset: int := 10

  datatype Dimensions = Dimensions(width: int, height: int)

  /** `getDimensionsForTitle`: the width is the larger of the floor and
      twelve units per character; the height is fixed. */
  function DimensionsForTitle(title: string): (d: Dimensions)
    ensures d.height == ShapeHeight
    ensures d.width >= MinWidth && d.width >= CharWidth * |title|
    ensures d.width == MinWidth || d.width == CharWidth * |title|
  {
    var scaled := CharWidth * |title|;
    Dimensions(if MinWidth >= scaled then MinWidth else scaled, ShapeHeight)
  }

  /** Up to eight characters the floor wins; from nine on the width is exactly
      twelve units per character. */
  lemma WidthByLength(title: string)
    ensures |title| <= 8 ==> DimensionsForTitle(title).width == 100
    ensures |title| >= 9 ==> DimensionsForTitle(title).width == 12 * |title|
  {
  }

  /** A longer title never gets a narrower box, and past the floor a strictly
      longer title gets a strictly wider one. */
  lemma WidthMonotone(t1: string, t2: string)
    requires |t1| <= |t2|
    ensures DimensionsForTitle(t1).width <= DimensionsForTitle(t2).width
    ensures |t1| < |t2| && |t2| >= 9 ==> DimensionsForTitle(t1).width < DimensionsForTitle(t2).width
  {
  }

  /** Two titles get the same box exactly when they have the same length or
      both fit under the floor: only the length is measured, never the text. */
  lemma SameBoxIff(t1: string, t2: string)
    ensures DimensionsForTitle(t1) == DimensionsForTitle(t2)
        <==> (|t1| == |t2| || (|t1| <= 8 && |t2| <= 8))
  {
    WidthByLength(t1);
    WidthByLength(t2);
  }

  /** `getPolygonPath`'s vertices, in the order the path visits them:
      top-left corner (10, 0), top-right corner (w - 10, 0), right point
      (w, h / 2), bottom-right corner (w - 10, h), bottom-left corner (10, h),
      left point (0, h / 2). */
  function Outline(width: int, height: int): (ps: seq<Point>)
    ensures |ps| == 6
  {
    [ Point(2 * Inset, 0), Point(2 * (width - Inset), 0), Point(2 * width, height)
    , Point(2 * (width - Inset), 2 * height), Point(2 * Inset, 2 * height), Point(0, height) ]
  }

  /** The point lies in the closed box [0, width] x [0, height]. */
  predicate InBox(p: Point, width: int, height: int)
  {
    0 <= p.hx <= 2 * width && 0 <= p.hy <= 2 * height
  }

  /** Every vertex lies in the box exactly when the box is at least one inset
      wide and not of negative height. */
  lemma OutlineInBoxIff(width: int, height: int)
    ensures (forall i :: 0 <= i < 6 ==> InBox(Outline(width, height)[i], width, height))
        <==> (Inset <= width && 0 <= height)
  {
    var ps := Outline(width, height);
    if forall i :: 0 <= i < 6 ==> InBox(ps[i], width, height) {
      assert InBox(ps[0], width, height);
      assert InBox(ps[3], width, height);
    }
  }

  /** The top edge runs left to right exactly when the box is wider than
      two insets. */
  lemma TopEdgeLeftToRightIff(width: int, height: int)
    ensures Outline(width, height)[0].hx < Outline(width, height)[1].hx <==> width > 2 * Inset
  {
  }

  /** Reflection across the vertical centre line of a box `width` wide. */
  function ReflectX(p: Point, width: int): Point
  {
    Point(2 * width - p.hx, p.hy)
  }

  /** Reflection across the horizontal centre line of a box `height` high. */
  function ReflectY(p: Point, height: int): Point
  {
    Point(p.hx, 2 * height - p.hy)
  }

  /** Which vertex each vertex becomes under the left-right mirror. */
  const MirrorXPartner: seq<int> := [1, 0, 5, 4, 3, 2]
  /** Which vertex each vertex becomes under the top-bottom mirror. */
  const MirrorYPartner: seq<int> := [4, 3, 2, 1, 0, 5]

  /** Mirroring left-right maps each vertex onto its partner vertex. */
  lemma OutlineMirrorX(width: int, height: int)
    ensures forall i :: 0 <= i < 6 ==>
      ReflectX(Outline(width, height)[i], width) == Outline(width, height)[MirrorXPartner[i]]
  {
  }

  /** Mirroring top-bottom maps each vertex onto its partner vertex. */
  lemma OutlineMirrorY(width: int, height: int)
    ensures forall i :: 0 <= i < 6 ==>
      ReflectY(Outline(width, height)[i], height) == Outline(width, height)[MirrorYPartner[i]]
  {
  }

  /** A point is a vertex of the outline exactly when its left-right mirror
      image is one. */
  lemma OutlineSymmetricX(width: int, height: int, p: Point)
    ensures p in Outline(width, height) <==> ReflectX(p, width) in Outline(width, height)
  {
    var ps := Outline(width, height);
    var q := ReflectX(p, width);
    assert p in ps <==> p == ps[0] || p == ps[1] || p == ps[2] || p == ps[3] || p == ps[4] || p == ps[5];
    assert q in ps <==> q == ps[0] || q == ps[1] || q == ps[2] || q == ps[3] || q == ps[4] || q == ps[5];
  }

  /** A point is a vertex of the outline exactly when its top-bottom mirror
      image is one. */
  lemma OutlineSymmetricY(width: int, height: int, p: Point)
    ensures p in Outline(width, height) <==> ReflectY(p, height) in Outline(width, height)
  {
    var ps := Outline(width, height);
    var q := ReflectY(p, height);
    assert p in ps <==> p == ps[0] || p == ps[1] || p == ps[2] || p == ps[3] || p == ps[4] || p == ps[5];
    assert q in ps <==> q == ps[0] || q == ps[1] || q == ps[2] || q == ps[3] || q == ps[4] || q == ps[5];
  }

  /** Four times the signed area of the triangle a, b, c (in half units):
      positive when the path a -> b -> c turns the same way at b as the
      outline turns everywhere. */
  function Turn(a: Point, b: Point, c: Point): int
  {
    (b.hx - a.hx) * (c.hy - b.hy) - (b.hy - a.hy) * (c.hx - b.hx)
  }

  /** The turn of the closed outline `ps` at vertex `i + 1`. */
  function TurnAt(ps: seq<Point>, i: int): int
    requires |ps| == 6 && 0 <= i < 6
  {
    Turn(ps[i], ps[(i + 1) % 6], ps[(i + 2) % 6])
  }

  /** On which side of the edge leaving vertex `i` the point `a` lies. */
  function SideOfEdge(ps: seq<Point>, i: int, a: Point): int
    requires |ps| == 6 && 0 <= i < 6
  {
    Turn(ps[i], ps[(i + 1) % 6], a)
  }

  /** The turn at every vertex of the outline, in closed form. */
  lemma OutlineTurns(width: int, height: int)
    ensures var ps := Outline(width, height);
            TurnAt(ps, 0) == (2 * width - 40) * height &&
            TurnAt(ps, 1) == 40 * height &&
            TurnAt(ps, 2) == (2 * width - 40) * height &&
            TurnAt(ps, 3) == (2 * width - 40) * height &&
            TurnAt(ps, 4) == 40 * height &&
            TurnAt(ps, 5) == (2 * width - 40) * height
  {
  }

  /** Every turn of a closed outline `ps` is strictly positive. In general
      this is only local convexity: a hexagon could wind twice. For `Outline`
      with `width > 2 * Inset` and `height > 0` the six edges point right,
      down-right, down-left, left, up-left and up-right (y grows downwards),
      so their directions go around exactly once, and positive turns then
      make the hexagon strictly convex. */
  predicate AllTurnsPositive(ps: seq<Point>)
    requires |ps| == 6
  {
    forall i :: 0 <= i < 6 ==> TurnAt(ps, i) > 0
  }

  /** For a proper hexagon the edges of the outline point right, down-right,
      down-left, left, up-left and up-right in turn (y grows downwards): their
      directions go around exactly once. */
  lemma OutlineEdgeDirections(width: int, height: int)
    requires width > 2 * Inset && height > 0
    ensures var ps := Outline(width, height);
            && ps[0].hx < ps[1].hx && ps[0].hy == ps[1].hy
            && ps[1].hx < ps[2].hx && ps[1].hy < ps[2].hy
            && ps[2].hx > ps[3].hx && ps[2].hy < ps[3].hy
            && ps[3].hx > ps[4].hx && ps[3].hy == ps[4].hy
            && ps[4].hx > ps[5].hx && ps[4].hy > ps[5].hy
            && ps[5].hx < ps[0].hx && ps[5].hy > ps[0].hy
  {
  }

  /** The sign of a product of a positive factor and another factor. */
  lemma ProductSign(a: int, b: int)
    requires a > 0
    ensures a * b > 0 <==> b > 0
  {
    if b > 0 {
      assert a * b >= b;
    } else {
      assert a * b <= 0;
    }
  }

  /** All six turns of the outline are positive exactly when the box is wider
      than two insets and has positive height (see `OutlineEdgeDirections` for
      why that makes it a strictly convex hexagon). */
  lemma OutlineConvexIff(width: int, height: int)
    ensures AllTurnsPositive(Outline(width, height)) <==> (width > 2 * Inset && height > 0)
  {
    var ps := Outline(width, height);
    OutlineTurns(width, height);
    if height > 0 {
      ProductSign(height, 2 * width - 40);
      assert (2 * width - 40) * height == height * (2 * width - 40);
    }
    if width > 2 * Inset && height > 0 {
      forall i | 0 <= i < 6 ensures TurnAt(ps, i) > 0 {
        assert i == 0 || i == 1 || i == 2 || i == 3 || i == 4 || i == 5;
      }
    }
    if AllTurnsPositive(ps) {
      assert TurnAt(ps, 1) > 0;
      assert TurnAt(ps, 0) > 0;
    }
  }

  /** The point the title text is centred on: (width / 2, height / 2). */
  function LabelAnchor(width: int, height: int): (p: Point)
    ensures ReflectX(p, width) == p && ReflectY(p, height) == p
  {
    Point(width, height)
  }

  /** The anchor lies strictly on the inner side of every edge of the outline
      whenever the outline is a proper hexagon, so the centred title starts
      inside the drawn shape and not just inside its box. */
  lemma AnchorInsideOutline(width: int, height: int)
    requires width > 2 * Inset && height > 0
    ensures var ps, a := Outline(width, height), LabelAnchor(width, height);
            forall i :: 0 <= i < 6 ==> SideOfEdge(ps, i, a) > 0
  {
    var ps, a := Outline(width, height), LabelAnchor(width, height);
    ProductSign(height, 2 * width - 40);
    ProductSign(height, width);
    assert SideOfEdge(ps, 0, a) == height * (2 * width - 40);
    assert SideOfEdge(ps, 1, a) == height * width;
    assert SideOfEdge(ps, 2, a) == height * width;
    assert SideOfEdge(ps, 3, a) == height * (2 * width - 40);
    assert SideOfEdge(ps, 4, a) == height * width;
    assert SideOfEdge(ps, 5, a) == height * width;
    forall i | 0 <= i < 6 ensures SideOfEdge(ps, i, a) > 0 {
      assert i == 0 || i == 1 || i == 2 || i == 3 || i == 4 || i == 5;
    }
  }

  /** The commands of a closed polygon through `ps`: move to the first vertex,
      a line to each following vertex, then close. */
  function ClosedPolygon(ps: seq<Point>): (cmds: seq<Command>)
    requires |ps| >= 1
    ensures |cmds| == |ps| + 1
    ensures cmds[0] == MoveTo(ps[0]) && cmds[|ps|] == ClosePath
    ensures forall i :: 1 <= i < |ps| ==> cmds[i] == LineTo(ps[i])
  {
    [MoveTo(ps[0])] + seq(|ps| - 1, i requires 0 <= i < |ps| - 1 => LineTo(ps[i + 1])) + [ClosePath]
  }

  /** `getPolygonPath`: the SVG path text of the outline of a box. The text
      reads back as one move and five lines through the six outline vertices
      in order, followed by a close command. */
  function PolygonPath(width: int, height: int): (s: string)
    ensures ParsePath(s) == Some(ClosedPolygon(Outline(width, height)))
  {
    var cmds := ClosedPolygon(Outline(width, height));
    PathTextRoundTrip(cmds);
    PathText(cmds)
  }

  /** The reader pins the text down: any text that reads as the closed outline
      of a box is exactly `getPolygonPath`'s text for that box. */
  lemma PolygonPathExact(width: int, height: int, s: string)
    requires ParsePath(s) == Some(ClosedPolygon(Outline(width, height)))
    ensures s == PolygonPath(width, height)
  {
    PathTextCanonical(s, ClosedPolygon(Outline(width, height)));
  }

  /** Different boxes never produce the same path text. */
  lemma PolygonPathInjective(w1: int, h1: int, w2: int, h2: int)
    requires PolygonPath(w1, h1) == PolygonPath(w2, h2)
    ensures w1 == w2 && h1 == h2
  {
    var c1, c2 := ClosedPolygon(Outline(w1, h1)), ClosedPolygon(Outline(w2, h2));
    assert c1[2] == c2[2];
  }

  /** What one row of the list draws: a box, the outline path inside it and
      the anchor of the title. The fill colour is random and not modelled. */
  datatype Shape = Shape(width: int, height: int, path: string, anchor: Point)

  /** `renderActivity`'s geometry for one activity title: the box the title's
      length calls for, a path whose text reads back as the closed outline of
      that box, and the title anchored at the centre of the box. */
  function ShapeForTitle(title: string): (r: Shape)
    ensures r.width == (if |title| <= 8 then MinWidth else CharWidth * |title|)
    ensures r.height == ShapeHeight
    ensures ParsePath(r.path) == Some(ClosedPolygon(Outline(r.width, r.height)))
    ensures ReflectX(r.anchor, r.width) == r.anchor && ReflectY(r.anchor, r.height) == r.anchor
  {
    WidthByLength(title);
    var d := DimensionsForTitle(title);
    Shape(d.width, d.height, PolygonPath(d.width, d.height), LabelAnchor(d.width, d.height))
  }

  /** What the screen relies on for the geometry of a box and an anchor: every
      outline vertex inside the box, a top edge running left to right, all
      six turns positive, and the anchor strictly inside both the box and
      the hexagon. */
  predicate GoodGeometry(width: int, height: int, anchor: Point)
  {
    var ps := Outline(width, height);
    && (forall i :: 0 <= i < 6 ==> InBox(ps[i], width, height))
    && ps[0].hx < ps[1].hx
    && AllTurnsPositive(ps)
    && (forall i :: 0 <= i < 6 ==> SideOfEdge(ps, i, anchor) > 0)
    && 0 < anchor.hx < 2 * width && 0 < anchor.hy < 2 * height
  }

  /** Every box wider than two insets and of positive height, with its
      centred anchor, has good geometry. */
  lemma CentredGeometry(width: int, height: int)
    requires width > 2 * Inset && height > 0
    ensures GoodGeometry(width, height, LabelAnchor(width, height))
  {
    var ps := Outline(width, height);
    var a := LabelAnchor(width, height);
    assert forall i :: 0 <= i < 6 ==> InBox(ps[i], width, height) by {
      OutlineInBoxIff(width, height);
    }
    assert AllTurnsPositive(ps) by {
      OutlineConvexIff(width, height);
    }
    assert forall i :: 0 <= i < 6 ==> SideOfEdge(ps, i, a) > 0 by {
      AnchorInsideOutline(width, height);
    }
  }

  /** Every title is drawn in a box at least the floor wide and of the fixed
      height, with good geometry. */
  lemma ShapeForTitleSound(title: string)
    ensures var s := ShapeForTitle(title);
            s.width >= MinWidth && s.height == ShapeHeight && GoodGeometry(s.width, s.height, s.anchor)
  {
    var d := DimensionsForTitle(title);
    CentredGeometry(d.width, d.height);
  }

  /** A one-character title and a 28-character title. */
  lemma ExampleTitles()
    ensures DimensionsForTitle("A") == Dimensions(100, 60)
    ensures DimensionsForTitle("A much longer activity title") == Dimensions(336, 60)
  {
  }

  /** The text of a point whose coordinates are whole numbers. */
  lemma WholePairText(x: nat, y: nat)
    ensures PairText(Point(2 * x, 2 * y)) == NatText(x) + "," + NatText(y)
  {
    WholeText(x);
    WholeText(y);
  }

  /** The digits of the numbers in the path of the smallest box. */
  lemma SmallNumbers()
    ensures NatText(0) == "0" && NatText(10) == "10" && NatText(30) == "30"
    ensures NatText(60) == "60" && NatText(90) == "90" && NatText(100) == "100"
  {
    assert NatText(10) == NatText(1) + [DigitChar(0)];
    assert NatText(100) == NatText(10) + [DigitChar(0)];
  }

  /** The lines of the path text for the smallest box (each line of the text
      is `Indent` followed by one of these, see `SvgPath.Lines`). */
  lemma SmallestBoxLines()
    ensures var cmds := ClosedPolygon(Outline(100, 60));
            |cmds| == 7 &&
            CommandText(cmds[0]) == "M 10,0" && CommandText(cmds[1]) == "L 90,0" &&
            CommandText(cmds[2]) == "L 100,30" && CommandText(cmds[3]) == "L 90,60" &&
            CommandText(cmds[4]) == "L 10,60" && CommandText(cmds[5]) == "L 0,30" &&
            CommandText(cmds[6]) == "Z"
  {
    var ps := Outline(100, 60);
    var cmds := ClosedPolygon(ps);
    assert ps == [Point(2 * 10, 2 * 0), Point(2 * 90, 2 * 0), Point(2 * 100, 2 * 30),
                  Point(2 * 90, 2 * 60), Point(2 * 10, 2 * 60), Point(2 * 0, 2 * 30)];
    SmallNumbers();
    assert CommandText(cmds[0]) == "M 10,0" by { WholePairText(10, 0); }
    assert CommandText(cmds[1]) == "L 90,0" by { WholePairText(90, 0); }
    assert CommandText(cmds[2]) == "L 100,30" by { WholePairText(100, 30); }
    assert CommandText(cmds[3]) == "L 90,60" by { WholePairText(90, 60); }
    assert CommandText(cmds[4]) == "L 10,60" by { WholePairText(10, 60); }
    assert CommandText(cmds[5]) == "L 0,30" by { WholePairText(0, 30); }
  }
}
