# Activity shapes of the LarissaGo activities screen

The activities screen of the LarissaGo mobile client lists every activity as a
hexagonal badge holding its title. Two pure helpers inside the screen decide
the geometry of a badge:

- `getDimensionsForTitle` gives the title a box `max(100, 12 * length)` wide
  and 60 high;
- `getPolygonPath` writes, as SVG path text, a closed six-vertex outline of
  that box: `(10,0)`, `(w-10,0)`, `(w,h/2)`, `(w-10,h)`, `(10,h)`, `(0,h/2)`,
  then `Z`;

and the title is drawn centred on `(w/2, h/2)`.

This project models those helpers in Dafny and proves what the screen relies
on. The modules are:

- `ActivityShape` (`activity_shape.dfy`): the box, the outline, the anchor and
  the path of one badge, with the geometric properties;
- `SvgPath` (`svg_path.dfy`): path commands, the exact text the template
  literal emits (one command per line, each line a newline plus six spaces,
  closed by a newline plus four spaces), and a reader of that text;
- `Decimal` (`decimal.dfy`): JavaScript's text for the numbers that occur (whole
  numbers and whole numbers plus one half), and a reader of it;
- `TextScan` (`text_scan.dfy`): finding a separator character in text, for the
  readers;
- `Wrappers` (`wrappers.dfy`): the `Option` type the readers return.

A title is any `string` (`seq<char>`) whose length is the title's JavaScript
`length`, its number of UTF-16 code units. Each surrogate pair is stood in for
by two `char`s, because a Dafny `char` cannot be a surrogate. Widths and heights are integers, as every box the screen makes
has integer sides. `height / 2` in the template is exact division, so points
are counted in half units: `Point(hx, hy)` is the point `(hx/2, hy/2)`, and a
box `w` by `h` spans `0..2w` by `0..2h` half units.

The screen has no placement step, no placeholder for missing titles and no
finiteness guard. It lists the badges in a vertical `FlatList`, types the
title as a string, and starts the path at the top-left corner `(10,0)`.

## Model

| member | source | states |
|---|---|---|
| ActivityShape.DimensionsForTitle | frontend/app/activities.tsx:72-76 | height is 60; width is at least 100 and at least 12 per character, and is one of the two (so it is their maximum) |
| ActivityShape.WidthByLength | frontend/app/activities.tsx:73 | titles of up to 8 characters get width exactly 100; from 9 characters on, exactly 12 per character |
| ActivityShape.WidthMonotone | frontend/app/activities.tsx:73 | a title no longer than another never gets a wider box; past the floor a strictly longer title gets a strictly wider box |
| ActivityShape.SameBoxIff | frontend/app/activities.tsx:72-76 | two titles get equal boxes iff they have equal length or both have at most 8 characters: only the length is measured |
| ActivityShape.ExampleTitles | frontend/app/activities.tsx:72-76 | "A" gets a 100 by 60 box; the 28-character "A much longer activity title" gets 336 by 60 |
| ActivityShape.Outline | frontend/app/activities.tsx:79-87 | the outline has exactly six vertices |
| ActivityShape.OutlineInBoxIff | frontend/app/activities.tsx:79-87 | every vertex lies in [0,w] x [0,h] iff w >= 10 and h >= 0 |
| ActivityShape.TopEdgeLeftToRightIff | frontend/app/activities.tsx:80-81 | the top edge runs left to right (10 < w-10) iff w > 20 |
| ActivityShape.OutlineMirrorX | frontend/app/activities.tsx:80-85 | reflecting x to w-x sends each vertex to its partner vertex (0<->1, 2<->5, 3<->4) |
| ActivityShape.OutlineMirrorY | frontend/app/activities.tsx:80-85 | reflecting y to h-y sends each vertex to its partner vertex (0<->4, 1<->3, 2 and 5 fixed) |
| ActivityShape.OutlineSymmetricX | frontend/app/activities.tsx:80-85 | a point is a vertex iff its left-right mirror image is one |
| ActivityShape.OutlineSymmetricY | frontend/app/activities.tsx:80-85 | a point is a vertex iff its top-bottom mirror image is one |
| ActivityShape.OutlineTurns | frontend/app/activities.tsx:80-86 | the turn at each vertex of the closed outline, in closed form in w and h |
| ActivityShape.OutlineEdgeDirections | frontend/app/activities.tsx:80-86 | for w > 20 and h > 0 the six edges point right, down-right, down-left, left, up-left, up-right: they go around exactly once |
| ActivityShape.OutlineConvexIff | frontend/app/activities.tsx:80-86 | all six turns of the closed outline are positive iff w > 20 and h > 0; with the edge directions going around once, this is a strictly convex hexagon |
| ActivityShape.LabelAnchor | frontend/app/activities.tsx:101-102 | the anchor (w/2, h/2) is fixed by both mirror reflections: it is the centre of the outline's symmetry |
| ActivityShape.AnchorInsideOutline | frontend/app/activities.tsx:80-102 | for a proper hexagon the anchor is strictly on the inner side of all six edges |
| ActivityShape.CentredGeometry | frontend/app/activities.tsx:78-102 | any box wider than 20 and of positive height: vertices in the box, top edge left to right, all six turns positive, anchor strictly inside box and hexagon |
| ActivityShape.ShapeForTitleSound | frontend/app/activities.tsx:90-102 | for every title the drawn badge has width >= 100, height 60 and all of the geometry above |
| ActivityShape.ClosedPolygon | frontend/app/activities.tsx:79-87 | the commands of the path: a move to the first vertex, a line to each other vertex in order, then a close |
| ActivityShape.PolygonPath | frontend/app/activities.tsx:78-88 | the path text reads back as exactly one move and five lines through the six vertices in order, then a close |
| ActivityShape.ShapeForTitle | frontend/app/activities.tsx:90-102 | the box is 100 wide for titles of up to 8 characters and 12 per character beyond, and 60 high; the path drawn in it reads back as that box's closed outline; the anchor is fixed by both mirror reflections of the box, so it is its centre |
| ActivityShape.PolygonPathExact | frontend/app/activities.tsx:78-88 | any text that reads as the closed outline of a box is exactly the path text for that box |
| ActivityShape.PolygonPathInjective | frontend/app/activities.tsx:78-88 | different boxes never produce the same path text |
| ActivityShape.SmallestBoxLines | frontend/app/activities.tsx:79-87 | for the 100 by 60 box the lines are "M 10,0", "L 90,0", "L 100,30", "L 90,60", "L 10,60", "L 0,30", "Z" |
| SvgPath.PathText | frontend/app/activities.tsx:79-87 | the template text starts with a newline and is at least as long as its closing newline and four spaces |
| SvgPath.PathTextRoundTrip | frontend/app/activities.tsx:79-87 | reading the text of any command list gives back exactly that list |
| SvgPath.PathTextCanonical | frontend/app/activities.tsx:79-87 | the reader accepts only text in the template's exact layout: whatever it reads as a command list is exactly that list's text |
| SvgPath.PathTextInjective | frontend/app/activities.tsx:79-87 | two command lists with the same text are equal |
| Decimal.HalvesText | frontend/app/activities.tsx:81-85 | the text of an interpolated number is non-empty, uses only digits, '-' and '.', and starts with '-' iff the number is negative |
| Decimal.WholeText | frontend/app/activities.tsx:81-85 | a whole non-negative number is written as its plain digits |
| Decimal.NatTextRoundTrip | frontend/app/activities.tsx:81-85 | the digits of a natural number read back as that number |
| Decimal.HalvesTextRoundTrip | frontend/app/activities.tsx:81-85 | the text of any whole or half number reads back as that number |
| Decimal.HalvesTextCanonical | frontend/app/activities.tsx:81-85 | the number reader accepts only the text JavaScript writes (no leading zeros, no "-0"): whatever it reads as a number is exactly that number's text |
| Decimal.HalvesTextInjective | frontend/app/activities.tsx:81-85 | different numbers never share their text |

## Left out

- Fetching the activities, reading the access token and navigating to an
  activity's detail page (frontend/app/activities.tsx:24-53, 96): network,
  storage and routing I/O.
- The random fill colour `hsl(random * 360, 70%, 80%)`
  (frontend/app/activities.tsx:93): it depends on randomness and floating
  point, and no property of it can be stated.
- The list layout, loading and error views and text styling
  (frontend/app/activities.tsx:55-69, 95-97, 103-126): presentation only.
- The other screens, `randomShapePath` in frontend/app/shapeUtils.js, the
  random coupon colour, and the Django backend: these are outside the shape
  helpers.
- Decimal.HalvesText: JavaScript writes numbers of magnitude 1e21 and above in
  exponent notation and rounds integers beyond 2^53. The model writes plain
  digits for every size. No box the screen makes comes near either limit.
- ActivityShape.DimensionsForTitle: a title is any `string` whose length is
  the title's JavaScript `length` (its number of UTF-16 code units); each
  surrogate pair is stood in for by two `char`s, because a Dafny `char` is a
  Unicode scalar value and cannot be a surrogate. The title's own text is not
  carried over: a character outside the Basic Multilingual Plane written
  as itself in a Dafny string literal counts once, where JavaScript counts two
  code units (five emoji give width 120 in JavaScript but 100 from that
  literal).
- ActivityShape.DimensionsForTitle: a title's length is taken as an unbounded
  natural number. JavaScript's own limit on string length is not modelled.
