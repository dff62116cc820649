/** The SVG path text `getPolygonPath` builds with a template literal: one
    command per line, each line introduced by a newline and six spaces, and
    the text closed by a newline and four spaces. A reader of that text is
    the partner that shows the text carries exactly the commands written. */
module SvgPath {
  import opened Wrappers
  import opened TextScan
  import opened Decimal

  /** A point whose coordinates are whole or half units, stored as the
      number of half units along each axis: `Point(hx, hy)` is the point
      (hx / 2, hy / 2). */
  datatype Point = Point(hx: int, hy: int)

  datatype Command = MoveTo(p: Point) | LineTo(p: Point) | ClosePath

  /** What the template literal puts before each command. */
  const Indent: string := "\n      "
  /** Where the command letter of a line sits, right after the indent. */
  const LetterAt: nat := |Indent|
  /** What the template literal puts after the last command. */
  const Trailer: string := "\n    "

  function PairText(p: Point): string
  {
    HalvesText(p.hx) + "," + HalvesText(p.hy)
  }

  function CommandText(c: Command): string
  {
    match c
    case MoveTo(p) => "M " + PairText(p)
    case LineTo(p) => "L " + PairText(p)
    case ClosePath => "Z"
  }

  function Lines(cmds: seq<Command>): string
  {
    if cmds == [] then "" else Indent + CommandText(cmds[0]) + Lines(cmds[1..])
  }

  /** The whole path text for a list of commands. */
  function PathText(cmds: seq<Command>): (s: string)
    ensures |s| >= |Trailer| && s[0] == '\n'
  {
    Lines(cmds) + Trailer
  }

  /** Reads a coordinate pair `x,y` that runs up to the next newline, and
      returns the point with the text that follows it. */
  function ParsePair(body: string): (r: Option<(Point, string)>)
    ensures r.Some? ==> |r.value.1| <= |body|
  {
    var k := Span(body, '\n');
    var pair := body[..k];
    var c := Span(pair, ',');
    if c == |pair| then None
    else
      match (ParseHalves(pair[..c]), ParseHalves(pair[c + 1..]))
      case (Some(x), Some(y)) => Some((Point(x, y), body[k..]))
      case _ => None
  }

  /** Reads path text in the layout above back into commands. */
  function ParsePath(s: string): Option<seq<Command>>
    decreases |s|
  {
    if s == Trailer then Some([])
    else if |s| < |Indent| + 1 || s[..|Indent|] != Indent then None
    else if s[LetterAt] == 'Z' then
      match ParsePath(s[LetterAt + 1..])
      case Some(rest) => Some([ClosePath] + rest)
      case None => None
    else if (s[LetterAt] == 'M' || s[LetterAt] == 'L') && |s| >= LetterAt + 2 && s[LetterAt + 1] == ' ' then
      match ParsePair(s[LetterAt + 2..])
      case Some((p, tail)) =>
        var cmd := if s[LetterAt] == 'M' then MoveTo(p) else LineTo(p);
        (match ParsePath(tail)
         case Some(rest) => Some([cmd] + rest)
         case None => None)
      case None => None
    else None
  }

  /** Number text holds neither of the separators the path text uses. */
  lemma HalvesTextHasNoSeparator(t: int)
    ensures ',' !in HalvesText(t) && '\n' !in HalvesText(t)
  {
    var s := HalvesText(t);
    forall i | 0 <= i < |s| ensures s[i] != ',' && s[i] != '\n' {
      assert IsNumberChar(s[i]);
    }
  }

  /** A coordinate pair ends before the next newline. */
  lemma PairTextHasNoNewline(p: Point)
    ensures '\n' !in PairText(p)
  {
    HalvesTextHasNoSeparator(p.hx);
    HalvesTextHasNoSeparator(p.hy);
  }

  /** Reading a coordinate pair followed by the rest of the path. */
  lemma ReadPair(p: Point, tail: string)
    requires |tail| >= 1 && tail[0] == '\n'
    ensures ParsePair(PairText(p) + tail) == Some((p, tail))
  {
    var body := PairText(p) + tail;
    PairTextHasNoNewline(p);
    assert body == PairText(p) + ['\n'] + tail[1..];
    SpanStopsAt(PairText(p), '\n', tail[1..]);
    assert body[..|PairText(p)|] == PairText(p);
    assert body[|PairText(p)|..] == tail;
    var xs, ys := HalvesText(p.hx), HalvesText(p.hy);
    HalvesTextHasNoSeparator(p.hx);
    assert PairText(p) == xs + [','] + ys;
    SpanStopsAt(xs, ',', ys);
    assert PairText(p)[..|xs|] == xs;
    assert PairText(p)[|xs| + 1..] == ys;
    HalvesTextRoundTrip(p.hx);
    HalvesTextRoundTrip(p.hy);
  }

  /** Reading a close command in front of readable text. */
  lemma ReadClose(tail: string)
    requires ParsePath(tail).Some?
    ensures ParsePath(Indent + "Z" + tail) == Some([ClosePath] + ParsePath(tail).value)
  {
    var s := Indent + "Z" + tail;
    assert s[..|Indent|] == Indent;
    assert s[LetterAt] == 'Z';
    assert s[LetterAt + 1..] == tail;
  }

  /** Reading a move or line command whose pair text reads as `p`. */
  lemma ReadLine(letter: char, body: string, p: Point, tail: string)
    requires letter == 'M' || letter == 'L'
    requires ParsePair(body) == Some((p, tail)) && ParsePath(tail).Some?
    ensures ParsePath(Indent + [letter, ' '] + body)
         == Some([if letter == 'M' then MoveTo(p) else LineTo(p)] + ParsePath(tail).value)
  {
    var s := Indent + [letter, ' '] + body;
    assert s[..|Indent|] == Indent;
    assert s[LetterAt] == letter && s[LetterAt + 1] == ' ';
    assert s[LetterAt + 2..] == body;
  }

  /** The text of a move or line command: its letter, a space and the pair. */
  lemma DrawText(c: Command)
    requires !c.ClosePath?
    ensures CommandText(c) == [if c.MoveTo? then 'M' else 'L', ' '] + PairText(c.p)
  {
  }

  lemma Regroup(a: string, b: string, c: string, d: string)
    ensures a + (b + c) + d == a + b + (c + d)
  {
  }

  /** Reading a move or line command in front of readable text. */
  lemma ReadDraw(c: Command, tail: string)
    requires !c.ClosePath?
    requires |tail| >= 1 && tail[0] == '\n' && ParsePath(tail).Some?
    ensures ParsePath(Indent + CommandText(c) + tail) == Some([c] + ParsePath(tail).value)
  {
    var letter := if c.MoveTo? then 'M' else 'L';
    var pt := PairText(c.p);
    DrawText(c);
    Regroup(Indent, [letter, ' '], pt, tail);
    ReadPair(c.p, tail);
    ReadLine(letter, pt + tail, c.p, tail);
  }

  /** Path text reads back as exactly the commands it was written from. */
  lemma {:induction false} PathTextRoundTrip(cmds: seq<Command>)
    ensures ParsePath(PathText(cmds)) == Some(cmds)
  {
    if cmds != [] {
      var c, rest := cmds[0], cmds[1..];
      var tail := PathText(rest);
      assert PathText(cmds) == Indent + CommandText(c) + tail;
      PathTextRoundTrip(rest);
      if c.ClosePath? {
        ReadClose(tail);
      } else {
        ReadDraw(c, tail);
      }
      assert [c] + rest == cmds;
    }
  }

  /** Two command lists with the same text are the same list. */
  lemma PathTextInjective(a: seq<Command>, b: seq<Command>)
    requires PathText(a) == PathText(b)
    ensures a == b
  {
    PathTextRoundTrip(a);
    PathTextRoundTrip(b);
  }

  /** Whatever the pair reader accepts is the text of the point it reads,
      followed by the text it hands back. */
  lemma PairCanonical(body: string, p: Point, tail: string)
    requires ParsePair(body) == Some((p, tail))
    ensures body == PairText(p) + tail
  {
    var k := Span(body, '\n');
    var pair := body[..k];
    var c := Span(pair, ',');
    var xs, ys := pair[..c], pair[c + 1..];
    assert c < |pair|;
    assert ParseHalves(xs) == Some(p.hx) && ParseHalves(ys) == Some(p.hy) && body[k..] == tail;
    assert pair == xs + [','] + ys;
    assert body == pair + tail;
    assert xs == HalvesText(p.hx) by {
      HalvesTextCanonical(xs, p.hx);
    }
    assert ys == HalvesText(p.hy) by {
      HalvesTextCanonical(ys, p.hy);
    }
  }

  /** The text of a non-empty command list: its first line, then the text of
      the rest. */
  lemma PathTextStep(cmds: seq<Command>)
    requires |cmds| >= 1
    ensures PathText(cmds) == Indent + CommandText(cmds[0]) + PathText(cmds[1..])
  {
  }

  /** What the path reader does with text that is not the trailer alone: it
      reads one command after the indent and the rest from what follows. */
  lemma ReadStep(s: string, cmds: seq<Command>)
    requires ParsePath(s) == Some(cmds) && s != Trailer
    ensures |s| >= |Indent| + 1 && s[..|Indent|] == Indent && |cmds| >= 1
    ensures cmds[0].ClosePath? ==> s[LetterAt] == 'Z' && ParsePath(s[LetterAt + 1..]) == Some(cmds[1..])
    ensures !cmds[0].ClosePath? ==>
              && s[LetterAt] == (if cmds[0].MoveTo? then 'M' else 'L') && |s| >= LetterAt + 2 && s[LetterAt + 1] == ' '
              && ParsePair(s[LetterAt + 2..]).Some? && ParsePair(s[LetterAt + 2..]).value.0 == cmds[0].p
              && ParsePath(ParsePair(s[LetterAt + 2..]).value.1) == Some(cmds[1..])
  {
  }

  /** Text made of the indent, a close command and the text of `rest` is the
      text of the close command followed by `rest`. */
  lemma CloseLineText(s: string, rest: seq<Command>)
    requires |s| >= |Indent| + 1 && s[..|Indent|] == Indent && s[LetterAt] == 'Z'
    requires s[LetterAt + 1..] == PathText(rest)
    ensures s == PathText([ClosePath] + rest)
  {
    var cmds := [ClosePath] + rest;
    assert cmds[1..] == rest;
    PathTextStep(cmds);
    assert s == Indent + "Z" + s[LetterAt + 1..];
  }

  /** Text made of the indent, the letter and space of a move or line
      command, its pair text and the text of `rest` is the text of that
      command followed by `rest`. */
  lemma DrawLineText(s: string, c: Command, tail: string, rest: seq<Command>)
    requires !c.ClosePath?
    requires |s| >= LetterAt + 2 && s[..|Indent|] == Indent
    requires s[LetterAt] == (if c.MoveTo? then 'M' else 'L') && s[LetterAt + 1] == ' '
    requires s[LetterAt + 2..] == PairText(c.p) + tail && tail == PathText(rest)
    ensures s == PathText([c] + rest)
  {
    var cmds := [c] + rest;
    assert cmds[1..] == rest;
    PathTextStep(cmds);
    DrawText(c);
    assert s == Indent + [s[LetterAt], ' '] + s[LetterAt + 2..];
    Regroup(Indent, [s[LetterAt], ' '], PairText(c.p), tail);
  }

  /** The path reader accepts only text in the template's exact layout:
      whatever it reads as `cmds` is exactly the text of `cmds`. */
  lemma {:induction false} PathTextCanonical(s: string, cmds: seq<Command>)
    requires ParsePath(s) == Some(cmds)
    ensures s == PathText(cmds)
    decreases |s|
  {
    if s == Trailer {
      assert PathText([]) == "" + Trailer;
    } else {
      ReadStep(s, cmds);
      var c, rest := cmds[0], cmds[1..];
      assert cmds == [c] + rest;
      if c.ClosePath? {
        PathTextCanonical(s[LetterAt + 1..], rest);
        CloseLineText(s, rest);
      } else {
        var tail := ParsePair(s[LetterAt + 2..]).value.1;
        PairCanonical(s[LetterAt + 2..], c.p, tail);
        PathTextCanonical(tail, rest);
        DrawLineText(s, c, tail, rest);
      }
    }
  }
}
