/** The reading of the external checker's output (scan.js:106-125): every chunk of standard
    output is split at line feeds, each line trimmed, empty lines dropped, and each line that
    matches `^Object:\s*X=([\d.-]+),\s*Y=([\d.-]+),\s*Z=([\d.-]+)` yields one position. The chunks,
    the exit code and `parseFloat` are parameters. */
module Checker {
  import opened Wrappers
  import opened Text
  import opened Geometry

  /** The class `[\d.-]`: an ASCII digit, a dot or a minus sign. */
  predicate IsNumChar(c: char)
  {
    '0' <= c <= '9' || c == '.' || c == '-'
  }

  predicate AllSpace(s: string)
  {
    forall i :: 0 <= i < |s| ==> IsSpace(s[i])
  }

  /** What `([\d.-]+)` can capture. */
  predicate IsNumeral(s: string)
  {
    s != [] && forall i :: 0 <= i < |s| ==> IsNumChar(s[i])
  }

  /** The length of the longest prefix of `s` whose characters all satisfy `p`: what a greedy
      `\s*` or `[\d.-]+` consumes. */
  function Span(s: string, p: char -> bool): (n: nat)
    ensures n <= |s|
    ensures forall i :: 0 <= i < n ==> p(s[i])
    ensures n < |s| ==> !p(s[n])
  {
    if s == [] || !p(s[0]) then 0 else 1 + Span(s[1..], p)
  }

  /** The greedy span over `a + b` stops exactly at the end of `a` when `a` is all `p` and `b`
      does not start with `p`. */
  lemma {:induction false} SpanOfPrefix(a: string, b: string, p: char -> bool)
    requires forall i :: 0 <= i < |a| ==> p(a[i])
    requires b == [] || !p(b[0])
    ensures Span(a + b, p) == |a|
  {
    if a != [] {
      assert (a + b)[1..] == a[1..] + b;
      SpanOfPrefix(a[1..], b, p);
    }
  }

  /** One `\s*<tag>([\d.-]+)` of the pattern: the spaces, the captured numeral and what
      follows it. */
  datatype Field = Field(gap: string, num: string, rest: string)

  /** Matches `\s*`, then `tag`, then a greedy `[\d.-]+`, at the start of `s`. */
  function MatchField(s: string, tag: string): (r: Option<Field>)
    ensures r.Some? ==>
      && AllSpace(r.value.gap) && IsNumeral(r.value.num)
      && (r.value.rest == [] || !IsNumChar(r.value.rest[0]))
      && s == FieldText(r.value.gap, tag, r.value.num) + r.value.rest
  {
    var g := Span(s, IsSpace);
    if !StartsWith(s[g..], tag) then None
    else
      var b := g + |tag|;
      var n := Span(s[b..], IsNumChar);
      if n == 0 then None
      else
        var e := b + n;
        assert s[g..b] == tag by {
          assert s[g..][..|tag|] == s[g..b];
        }
        assert s[b..e] == s[b..][..n];
        assert s[e..] == s[b..][n..];
        SliceFour(s, g, b, e);
        Some(Field(s[..g], s[b..e], s[e..]))
  }

  function FieldText(gap: string, tag: string, num: string): string
  {
    gap + tag + num
  }

  lemma SliceFour(s: string, g: nat, b: nat, e: nat)
    requires g <= b <= e <= |s|
    ensures s == FieldText(s[..g], s[g..b], s[b..e]) + s[e..]
  {
  }

  lemma AfterPrefix(r: string, prefix: string)
    requires StartsWith(r, prefix)
    ensures r == prefix + r[|prefix|..]
  {
    assert r == r[..|prefix|] + r[|prefix|..];
  }

  /** Every line the pattern matches has this shape: `Object:`, spaces, `X=`, a numeral, a
      comma, spaces, `Y=`, a numeral, a comma, spaces, `Z=`, a numeral and anything that does
      not continue the numeral. */
  datatype ObjectLine = ObjectLine(gapX: string, x: string, gapY: string, y: string, gapZ: string, z: string, tail: string)

  function LineText(o: ObjectLine): string
  {
    "Object:" + FieldsText(o)
  }

  /** The text after `Object:`. */
  function FieldsText(o: ObjectLine): string
  {
    FieldText(o.gapX, "X=", o.x) + ("," + YZText(o))
  }

  /** The text after the first comma. */
  function YZText(o: ObjectLine): string
  {
    FieldText(o.gapY, "Y=", o.y) + ("," + (FieldText(o.gapZ, "Z=", o.z) + o.tail))
  }

  predicate WellFormed(o: ObjectLine)
  {
    AllSpace(o.gapX) && IsNumeral(o.x) && WellFormedYZ(o)
  }

  predicate WellFormedYZ(o: ObjectLine)
  {
    && AllSpace(o.gapY) && IsNumeral(o.y) && AllSpace(o.gapZ) && IsNumeral(o.z)
    && (o.tail == [] || !IsNumChar(o.tail[0]))
  }

  /** `line.match(/^Object:\s*X=([\d.-]+),\s*Y=([\d.-]+),\s*Z=([\d.-]+)/)`, with the spaces and
      the unmatched tail kept so that the line can be rebuilt. Each numeral is followed by a
      character outside `[\d.-]` (the comma, or the start of the tail), so the backtracking
      match and the greedy one agree. */
  function MatchObject(line: string): (r: Option<ObjectLine>)
    ensures r.Some? ==> WellFormed(r.value) && LineText(r.value) == line
  {
    if !StartsWith(line, "Object:") then None
    else
      var r := MatchFields(line[7..]);
      if r.Some? then AfterPrefix(line, "Object:"); r else None
  }

  /** The pattern after `Object:`. */
  function MatchFields(s: string): (r: Option<ObjectLine>)
    ensures r.Some? ==> WellFormed(r.value) && FieldsText(r.value) == s
  {
    match MatchField(s, "X=")
    case None => None
    case Some(fx) =>
      if !StartsWith(fx.rest, ",") then None
      else
        match MatchYZ(fx.rest[1..])
        case None => None
        case Some(o) =>
          AfterPrefix(fx.rest, ",");
          Some(o.(gapX := fx.gap, x := fx.num))
  }

  /** The pattern after the first comma; the result's `X` parts are left empty. */
  function MatchYZ(s: string): (r: Option<ObjectLine>)
    ensures r.Some? ==> WellFormedYZ(r.value) && YZText(r.value) == s && r.value.gapX == r.value.x == ""
  {
    match MatchField(s, "Y=")
    case None => None
    case Some(fy) =>
      if !StartsWith(fy.rest, ",") then None
      else
        match MatchField(fy.rest[1..], "Z=")
        case None => None
        case Some(fz) =>
          AfterPrefix(fy.rest, ",");
          Some(ObjectLine("", "", fy.gap, fy.num, fz.gap, fz.num, fz.rest))
  }

  /** A field is found again in the text it was built from. */
  lemma MatchFieldOfText(gap: string, tag: string, num: string, rest: string)
    requires AllSpace(gap) && IsNumeral(num) && (rest == [] || !IsNumChar(rest[0]))
    requires tag != [] && !IsSpace(tag[0])
    ensures MatchField(FieldText(gap, tag, num) + rest, tag) == Some(Field(gap, num, rest))
  {
    var s := FieldText(gap, tag, num) + rest;
    FieldSpans(gap, tag, num, rest);
    MatchFieldAt(s, tag, |gap|, |num|);
    FieldSlices(gap, tag, num, rest);
  }

  /** The spans the match takes over a field's text. */
  lemma FieldSpans(gap: string, tag: string, num: string, rest: string)
    requires AllSpace(gap) && IsNumeral(num) && (rest == [] || !IsNumChar(rest[0]))
    requires tag != [] && !IsSpace(tag[0])
    ensures var s, b := FieldText(gap, tag, num) + rest, |gap| + |tag|;
      && Span(s, IsSpace) == |gap| && StartsWith(s[|gap|..], tag)
      && b + |num| <= |s| && Span(s[b..], IsNumChar) == |num|
  {
    var s := FieldText(gap, tag, num) + rest;
    FieldSlices(gap, tag, num, rest);
    SpanOfPrefix(gap, s[|gap|..], IsSpace);
    SpanOfPrefix(num, rest, IsNumChar);
  }

  /** `MatchField` once its two spans are known. */
  lemma MatchFieldAt(s: string, tag: string, g: nat, n: nat)
    requires Span(s, IsSpace) == g && StartsWith(s[g..], tag)
    requires g + |tag| + n <= |s| && Span(s[g + |tag|..], IsNumChar) == n && n > 0
    ensures MatchField(s, tag) == Some(Field(s[..g], s[g + |tag|..g + |tag| + n], s[g + |tag| + n..]))
  {
  }

  lemma FieldSlices(gap: string, tag: string, num: string, rest: string)
    ensures var s, b, e := FieldText(gap, tag, num) + rest, |gap| + |tag|, |gap| + |tag| + |num|;
      && s == gap + s[|gap|..] && s[..|gap|] == gap && s[|gap|..] == tag + num + rest
      && s[|gap|..][..|tag|] == tag && s[b..] == num + rest && s[b..e] == num && s[e..] == rest
  {
  }

  lemma CommaThen(s: string)
    ensures StartsWith("," + s, ",") && ("," + s)[1..] == s
  {
  }

  lemma MatchYZOfText(o: ObjectLine)
    requires WellFormedYZ(o)
    ensures MatchYZ(YZText(o)) == Some(o.(gapX := "", x := ""))
  {
    var zs := FieldText(o.gapZ, "Z=", o.z) + o.tail;
    MatchFieldOfText(o.gapY, "Y=", o.y, "," + zs);
    CommaThen(zs);
    MatchFieldOfText(o.gapZ, "Z=", o.z, o.tail);
  }

  lemma MatchFieldsOfText(o: ObjectLine)
    requires WellFormed(o)
    ensures MatchFields(FieldsText(o)) == Some(o)
  {
    MatchFieldOfText(o.gapX, "X=", o.x, "," + YZText(o));
    CommaThen(YZText(o));
    MatchYZOfText(o);
  }

  /** Every line of the shape is matched, with the same parts: together with the postcondition
      of `MatchObject`, a line matches exactly when it has the shape. */
  lemma MatchObjectOfText(o: ObjectLine)
    requires WellFormed(o)
    ensures MatchObject(LineText(o)) == Some(o)
  {
    var line := LineText(o);
    assert StartsWith(line, "Object:") && line[7..] == FieldsText(o);
    MatchFieldsOfText(o);
  }

  // ---------------------------------------------------------------------------------------
  // Positions from the output

  /** `{ x: parseFloat(m[1]), y: parseFloat(m[2]), z: parseFloat(m[3]) }`. */
  function ToCoord(o: ObjectLine, num: string -> real): Coord
  {
    Coord(num(o.x), num(o.y), num(o.z))
  }

  /** The position a piece of a chunk contributes, if any: after `trim`, empty pieces are
      dropped and the rest are matched. */
  function LineCoord(piece: string, num: string -> real): Option<Coord>
  {
    var line := Trim(piece);
    if line == "" then None
    else
      match MatchObject(line)
      case None => None
      case Some(o) => Some(ToCoord(o, num))
  }

  /** `LineCoord` as a value, so that the collecting functions below can be stated for any way
      of reading one piece. */
  function Reader(num: string -> real): string -> Option<Coord>
  {
    piece => LineCoord(piece, num)
  }

  /** The positions of the pieces of one chunk, in order. */
  function LinesCoords(lines: seq<string>, read: string -> Option<Coord>): seq<Coord>
  {
    if lines == [] then []
    else
      var r := LinesCoords(lines[..|lines| - 1], read);
      match read(lines[|lines| - 1])
      case None => r
      case Some(c) => r + [c]
  }

  /** `data.toString().split('\n')…forEach(…)` for one chunk. */
  function ChunkCoords(chunk: string, read: string -> Option<Coord>): seq<Coord>
  {
    LinesCoords(Split(chunk, '\n'), read)
  }

  /** The positions collected over all chunks, in arrival order. */
  function AllCoords(chunks: seq<string>, read: string -> Option<Coord>): seq<Coord>
  {
    if chunks == [] then []
    else AllCoords(chunks[..|chunks| - 1], read) + ChunkCoords(chunks[|chunks| - 1], read)
  }

  /** What `spawn` shows of one run of the checker on one file: the chunks of its standard
      output, in order, and its exit code (`None` when it was ended by a signal, where Node
      reports `null`). */
  datatype CheckerRun = CheckerRun(chunks: seq<string>, exit: Option<int>)

  /** `new Error(\`YmapChecker exited with code ${code}\`)`. */
  datatype CheckerError = ExitCode(code: Option<int>)

  /** The settled promise of `runYmapChecker`: the positions when the exit code is 0, else the
      rejection. */
  function CheckerOutput(run: CheckerRun, num: string -> real): Result<seq<Coord>, CheckerError>
  {
    if run.exit == Some(0) then Success(AllCoords(run.chunks, Reader(num))) else Failure(ExitCode(run.exit))
  }

  /** The `data` handler over every chunk, then the `close` handler. */
  method RunYmapChecker(run: CheckerRun, num: string -> real) returns (r: Result<seq<Coord>, CheckerError>)
    ensures r == CheckerOutput(run, num)
  {
    var coords: seq<Coord> := [];
    var k := 0;
    while k < |run.chunks|
      invariant 0 <= k <= |run.chunks|
      invariant coords == AllCoords(run.chunks[..k], Reader(num))
    {
      var found := ReadChunk(run.chunks[k], num);
      coords := coords + found;
      AllCoordsSnoc(run.chunks, k, Reader(num));
      k := k + 1;
    }
    assert run.chunks[..k] == run.chunks;
    if run.exit == Some(0) {
      r := Success(coords);
    } else {
      r := Failure(ExitCode(run.exit));
    }
  }

  /** The `data` handler on one chunk: the positions it pushes, in order. */
  method ReadChunk(chunk: string, num: string -> real) returns (found: seq<Coord>)
    ensures found == ChunkCoords(chunk, Reader(num))
  {
    var lines := Split(chunk, '\n');
    found := [];
    var j := 0;
    while j < |lines|
      invariant 0 <= j <= |lines|
      invariant found == LinesCoords(lines[..j], Reader(num))
    {
      LinesCoordsSnoc(lines, j, Reader(num));
      PieceStep(lines[j], num);
      var line := Trim(lines[j]);
      if line != "" {
        var m := MatchObject(line);
        if m.Some? {
          found := found + [ToCoord(m.value, num)];
        }
      }
      j := j + 1;
    }
    assert lines[..j] == lines;
  }

  /** What one piece contributes, by the steps of the `data` handler. */
  lemma PieceStep(piece: string, num: string -> real)
    ensures Found(Reader(num)(piece)) ==
      if Trim(piece) != "" && MatchObject(Trim(piece)).Some? then [ToCoord(MatchObject(Trim(piece)).value, num)] else []
  {
  }

  /** The positions a piece contributes: none or one. */
  function Found(c: Option<Coord>): seq<Coord>
  {
    if c.Some? then [c.value] else []
  }

  lemma AllCoordsSnoc(chunks: seq<string>, k: nat, read: string -> Option<Coord>)
    requires k < |chunks|
    ensures AllCoords(chunks[..k + 1], read) == AllCoords(chunks[..k], read) + ChunkCoords(chunks[k], read)
  {
    assert chunks[..k + 1][..k] == chunks[..k];
  }

  lemma LinesCoordsSnoc(lines: seq<string>, j: nat, read: string -> Option<Coord>)
    requires j < |lines|
    ensures LinesCoords(lines[..j + 1], read) == LinesCoords(lines[..j], read) + Found(read(lines[j]))
  {
    assert lines[..j + 1][..j] == lines[..j];
  }

  // ---------------------------------------------------------------------------------------
  // What the positions are

  /** Every position comes from one piece, which the reader turns into it. */
  lemma {:induction false} LinesCoordsFrom(lines: seq<string>, read: string -> Option<Coord>, c: Coord)
    requires c in LinesCoords(lines, read)
    ensures exists i :: 0 <= i < |lines| && read(lines[i]) == Some(c)
  {
    var init := lines[..|lines| - 1];
    if c in LinesCoords(init, read) {
      LinesCoordsFrom(init, read, c);
      var i :| 0 <= i < |init| && read(init[i]) == Some(c);
      assert lines[i] == init[i];
    } else {
      assert read(lines[|lines| - 1]) == Some(c);
    }
  }

  /** Each position of the output comes from a line of some chunk that matches the pattern
      after trimming, and is that line's numerals read by `parseFloat`. */
  lemma AllCoordsFrom(chunks: seq<string>, num: string -> real, c: Coord)
    requires c in AllCoords(chunks, Reader(num))
    ensures exists k, i, o ::
      && 0 <= k < |chunks| && 0 <= i < |Split(chunks[k], '\n')|
      && MatchObject(Trim(Split(chunks[k], '\n')[i])) == Some(o) && c == ToCoord(o, num)
  {
    var k := ChunkOf(chunks, Reader(num), c);
    LinesCoordsFrom(Split(chunks[k], '\n'), Reader(num), c);
    var i :| 0 <= i < |Split(chunks[k], '\n')| && Reader(num)(Split(chunks[k], '\n')[i]) == Some(c);
    var o := MatchObject(Trim(Split(chunks[k], '\n')[i])).value;
    assert MatchObject(Trim(Split(chunks[k], '\n')[i])) == Some(o) && c == ToCoord(o, num);
  }

  /** The chunk a collected position comes from. */
  lemma {:induction false} ChunkOf(chunks: seq<string>, read: string -> Option<Coord>, c: Coord) returns (k: nat)
    requires c in AllCoords(chunks, read)
    ensures k < |chunks| && c in ChunkCoords(chunks[k], read)
  {
    var init := chunks[..|chunks| - 1];
    if c in AllCoords(init, read) {
      k := ChunkOf(init, read, c);
      assert init[k] == chunks[k];
    } else {
      k := |chunks| - 1;
    }
  }

  lemma {:induction false} LinesCoordsAppend(a: seq<string>, b: seq<string>, read: string -> Option<Coord>)
    ensures LinesCoords(a + b, read) == LinesCoords(a, read) + LinesCoords(b, read)
    decreases |b|
  {
    if b == [] {
      assert a + b == a;
    } else {
      var b' := b[..|b| - 1];
      assert (a + b)[..|a + b| - 1] == a + b';
      assert (a + b)[|a + b| - 1] == b[|b| - 1];
      LinesCoordsAppend(a, b', read);
    }
  }

  /** The chunks laid end to end: the whole standard output. */
  function Concat(chunks: seq<string>): string
  {
    if chunks == [] then "" else Concat(chunks[..|chunks| - 1]) + chunks[|chunks| - 1]
  }

  /** Splitting at a line feed splits the two sides separately, and the empty piece after a
      final line feed contributes nothing. */
  lemma AlignedChunks(a: string, b: string, read: string -> Option<Coord>)
    requires read("") == None
    ensures ChunkCoords(a + "\n" + b, read) == ChunkCoords(a + "\n", read) + ChunkCoords(b, read)
  {
    SplitConcat(a, b, '\n');
    SplitConcat(a, "", '\n');
    assert a + "\n" + "" == a + "\n";
    LinesCoordsAppend(Split(a, '\n'), Split(b, '\n'), read);
    LinesCoordsAppend(Split(a, '\n'), [""], read);
    assert LinesCoords([""], read) == [] by {
      assert [""][..0] == [];
    }
  }

  /** When no line is cut by a chunk boundary (every chunk but the last ends with a line feed),
      reading chunk by chunk gives what reading the whole output at once gives. */
  lemma {:induction false} AllCoordsOfAlignedChunks(chunks: seq<string>, read: string -> Option<Coord>)
    requires read("") == None
    requires forall i :: 0 <= i < |chunks| - 1 ==> chunks[i] != [] && chunks[i][|chunks[i]| - 1] == '\n'
    ensures AllCoords(chunks, read) == ChunkCoords(Concat(chunks), read)
  {
    if chunks == [] {
      assert LinesCoords([""], read) == [] by {
        assert [""][..0] == [];
      }
    } else if |chunks| == 1 {
      assert chunks[..0] == [];
      assert Concat(chunks) == chunks[0];
    } else {
      var init, last := chunks[..|chunks| - 1], chunks[|chunks| - 1];
      assert forall i :: 0 <= i < |init| ==> init[i] == chunks[i];
      AllCoordsOfAlignedChunks(init, read);
      var c := init[|init| - 1];
      var s := Concat(init);
      assert s == Concat(init[..|init| - 1]) + c;
      var a := s[..|s| - 1];
      assert s == a + "\n";
      AlignedChunks(a, last, read);
      assert Concat(chunks) == a + "\n" + last;
    }
  }

  /** The scanner's reader ignores empty pieces. */
  lemma ReaderSkipsEmpty(num: string -> real)
    ensures Reader(num)("") == None
  {
    assert Trim("") == "";
  }

  /** A piece without a line feed is one line of its chunk. */
  lemma OneLineChunk(s: string, read: string -> Option<Coord>)
    requires '\n' !in s
    ensures ChunkCoords(s, read) == Found(read(s))
  {
    assert forall j :: 0 <= j < |s| ==> s[j] != '\n' by {
      forall j | 0 <= j < |s| ensures s[j] != '\n' {
        assert s[j] in s;
      }
    }
    SplitNoSeparator(s, '\n');
    assert [s][..0] == [] && [s][0] == s;
    assert LinesCoords([s], read) == Found(read(s));
  }

  /** An object line cut in two by a chunk boundary is lost: neither half matches on its own,
      while the whole line does. */
  lemma SplitLineIsLost(first: string, second: string, num: string -> real)
    requires first == "Object: X=1," && second == "Y=2, Z=3"
    ensures AllCoords([first, second], Reader(num)) == []
    ensures ChunkCoords(first + second, Reader(num)) == [Coord(num("1"), num("2"), num("3"))]
  {
    HalvesAreLost(first, second, num);
    WholeIsRead(first + second, num);
  }

  lemma HalvesAreLost(first: string, second: string, num: string -> real)
    requires first == "Object: X=1," && second == "Y=2, Z=3"
    ensures AllCoords([first, second], Reader(num)) == []
  {
    TwoChunks(first, second, Reader(num));
    FirstHalfIsLost(first, num);
    SecondHalfIsLost(second, num);
  }

  lemma TwoChunks(a: string, b: string, read: string -> Option<Coord>)
    ensures AllCoords([a, b], read) == ChunkCoords(a, read) + ChunkCoords(b, read)
  {
    assert [a, b][..1] == [a];
    assert [a][..0] == [];
  }

  lemma FirstHalfIsLost(first: string, num: string -> real)
    requires first == "Object: X=1,"
    ensures ChunkCoords(first, Reader(num)) == []
  {
    OneLineChunk(first, Reader(num));
    FirstHalfIsNotALine(first, num);
  }

  lemma SecondHalfIsLost(second: string, num: string -> real)
    requires second == "Y=2, Z=3"
    ensures ChunkCoords(second, Reader(num)) == []
  {
    OneLineChunk(second, Reader(num));
    SecondHalfIsNotALine(second, num);
  }

  lemma WholeIsRead(line: string, num: string -> real)
    requires line == "Object: X=1," + "Y=2, Z=3"
    ensures ChunkCoords(line, Reader(num)) == [Coord(num("1"), num("2"), num("3"))]
  {
    OneLineChunk(line, Reader(num));
    WholeLine(line, num);
  }

  lemma FirstHalfIsNotALine(first: string, num: string -> real)
    requires first == "Object: X=1,"
    ensures LineCoord(first, num) == None
  {
    NoOuterSpaceIsFixed(first);
    assert StartsWith(first, "Object:");
    FirstHalfHasNoFields(first[7..]);
  }

  lemma FirstHalfHasNoFields(rest: string)
    requires rest == FieldText(" ", "X=", "1") + ","
    ensures MatchFields(rest) == None
  {
    MatchFieldOfText(" ", "X=", "1", ",");
    EmptyHasNoYZ();
  }

  lemma EmptyHasNoYZ()
    ensures MatchYZ("") == None
  {
    assert MatchField("", "Y=") == None;
  }

  lemma SecondHalfIsNotALine(second: string, num: string -> real)
    requires second == "Y=2, Z=3"
    ensures LineCoord(second, num) == None
  {
    NoOuterSpaceIsFixed(second);
    assert second[0] == 'Y';
  }

  lemma WholeLine(line: string, num: string -> real)
    requires line == "Object: X=1," + "Y=2, Z=3"
    ensures LineCoord(line, num) == Some(Coord(num("1"), num("2"), num("3")))
  {
    NoOuterSpaceIsFixed(line);
    var o := ObjectLine(" ", "1", "", "2", " ", "3", "");
    assert YZText(o) == "Y=2, Z=3";
    assert FieldsText(o) == " X=1," + "Y=2, Z=3";
    assert LineText(o) == line;
    MatchObjectOfText(o);
  }

  /** A position line cut inside its Z numeral is not lost but misread: the pattern ends with
      the Z numeral, so the first chunk matches with the shortened numeral, and the rest of the
      numeral, alone in the next chunk, matches nothing. Read in one chunk, the line gives its
      full Z. */
  lemma CutInsideZ(o: ObjectLine, k: nat, num: string -> real)
    requires WellFormed(o) && o.tail == "" && 0 < k < |o.z|
    requires '\n' !in LineText(o)
    ensures LineText(o) == LineText(o.(z := o.z[..k])) + o.z[k..]
    ensures AllCoords([LineText(o.(z := o.z[..k])), o.z[k..]], Reader(num)) == [Coord(num(o.x), num(o.y), num(o.z[..k]))]
    ensures ChunkCoords(LineText(o), Reader(num)) == [ToCoord(o, num)]
  {
    var cut := o.(z := o.z[..k]);
    LineTextSplitsZ(o, k);
    forall i | 0 <= i < k ensures IsNumChar(cut.z[i]) {
      assert cut.z[i] == o.z[i];
    }
    forall i | 0 <= i < |o.z| - k ensures IsNumChar(o.z[k..][i]) {
      assert o.z[k..][i] == o.z[k + i];
    }
    forall i | 0 <= i < |LineText(cut)| ensures LineText(cut)[i] != '\n' {
      assert LineText(cut)[i] == LineText(o)[i];
      assert LineText(o)[i] in LineText(o);
    }
    TwoChunks(LineText(cut), o.z[k..], Reader(num));
    ObjectLineRead(cut, num);
    NumeralIsNoLine(o.z[k..], num);
    ObjectLineRead(o, num);
  }

  /** With nothing after the Z numeral, cutting it cuts the line. */
  lemma LineTextSplitsZ(o: ObjectLine, k: nat)
    requires o.tail == "" && k <= |o.z|
    ensures LineText(o) == LineText(o.(z := o.z[..k])) + o.z[k..]
  {
    var cut := o.(z := o.z[..k]);
    assert o.z == cut.z + o.z[k..];
    assert FieldText(o.gapZ, "Z=", o.z) + o.tail == (FieldText(cut.gapZ, "Z=", cut.z) + cut.tail) + o.z[k..];
    assert YZText(o) == YZText(cut) + o.z[k..];
    assert FieldsText(o) == FieldsText(cut) + o.z[k..];
  }

  /** A line of the pattern's shape ending in its Z numeral, alone in a chunk, gives its
      position. */
  lemma ObjectLineRead(o: ObjectLine, num: string -> real)
    requires WellFormed(o) && o.tail == ""
    requires '\n' !in LineText(o)
    ensures ChunkCoords(LineText(o), Reader(num)) == [ToCoord(o, num)]
  {
    var line := LineText(o);
    OneLineChunk(line, Reader(num));
    ObjectLineTrimmed(o);
    MatchObjectOfText(o);
    assert LineCoord(line, num) == Some(ToCoord(o, num));
  }

  /** Such a line starts with `O` and ends with a digit, a dot or a minus: `trim` keeps it. */
  lemma ObjectLineTrimmed(o: ObjectLine)
    requires WellFormed(o) && o.tail == ""
    ensures Trim(LineText(o)) == LineText(o)
  {
    var line := LineText(o);
    var k := |o.z| - 1;
    LineTextSplitsZ(o, k);
    assert line == LineText(o.(z := o.z[..k])) + [o.z[k]];
    assert line[|line| - 1] == o.z[k];
    assert IsNumChar(o.z[k]);
    assert line[0] == 'O';
    NoOuterSpaceIsFixed(line);
  }

  /** A bare numeral, such as the end of a cut Z numeral, gives no position. */
  lemma NumeralIsNoLine(s: string, num: string -> real)
    requires IsNumeral(s)
    ensures ChunkCoords(s, Reader(num)) == []
  {
    forall i | 0 <= i < |s| ensures s[i] != '\n' {
      assert IsNumChar(s[i]);
    }
    OneLineChunk(s, Reader(num));
    NumeralIsNoObject(s);
  }

  lemma NumeralIsNoObject(s: string)
    requires IsNumeral(s)
    ensures Trim(s) == s && MatchObject(s) == None
  {
    assert IsNumChar(s[0]) && IsNumChar(s[|s| - 1]);
    NoOuterSpaceIsFixed(s);
    if |s| >= 7 {
      assert s[..7][0] == s[0];
    }
  }

  /** An instance: "Object: X=1, Y=2, Z=34" cut after "Z=3" is read with Z = 3. */
  lemma CutZIsMisread(first: string, second: string, num: string -> real)
    requires first == "Object: X=1, Y=2, Z=3" && second == "4"
    ensures AllCoords([first, second], Reader(num)) == [Coord(num("1"), num("2"), num("3"))]
    ensures ChunkCoords(first + second, Reader(num)) == [Coord(num("1"), num("2"), num("34"))]
  {
    var o := ObjectLine(" ", "1", " ", "2", " ", "34", "");
    CutExampleTexts(first, second, o);
    CutInsideZ(o, 1, num);
  }

  lemma CutExampleTexts(first: string, second: string, o: ObjectLine)
    requires first == "Object: X=1, Y=2, Z=3" && second == "4"
    requires o == ObjectLine(" ", "1", " ", "2", " ", "34", "")
    ensures WellFormed(o) && '\n' !in LineText(o)
    ensures o.z[..1] == "3" && o.z[1..] == second
    ensures LineText(o.(z := "3")) == first && LineText(o) == first + second
  {
    CutExampleShape(o);
    CutExampleLines(first, second, o);
  }

  lemma CutExampleShape(o: ObjectLine)
    requires o == ObjectLine(" ", "1", " ", "2", " ", "34", "")
    ensures WellFormed(o)
  {
  }

  lemma CutExampleLines(first: string, second: string, o: ObjectLine)
    requires first == "Object: X=1, Y=2, Z=3" && second == "4"
    requires o == ObjectLine(" ", "1", " ", "2", " ", "34", "")
    ensures '\n' !in LineText(o)
    ensures o.z[..1] == "3" && o.z[1..] == second
    ensures LineText(o.(z := "3")) == first && LineText(o) == first + second
  {
    CutExampleText(o.(z := "3"), "3");
    CutExampleText(o, "34");
    assert first + second == "Object: X=1, Y=2, Z=34";
    assert forall i :: 0 <= i < |LineText(o)| ==> LineText(o)[i] != '\n';
  }

  lemma CutExampleText(o: ObjectLine, z: string)
    requires o == ObjectLine(" ", "1", " ", "2", " ", z, "")
    ensures LineText(o) == "Object: X=1, Y=2, Z=" + z
  {
    assert FieldText(" ", "Z=", z) + "" == " Z=" + z;
    assert YZText(o) == " Y=2, Z=" + z;
    assert FieldsText(o) == " X=1, Y=2, Z=" + z;
  }

  /** A cut inside a line's leading white space is harmless: the first chunk is blank once
      trimmed, and the second holds the whole line. */
  lemma LeadingSpaceCutIsHarmless(first: string, second: string, num: string -> real)
    requires first == "  " && second == "Object: X=1, Y=2, Z=3"
    ensures AllCoords([first, second], Reader(num)) == [Coord(num("1"), num("2"), num("3"))]
  {
    TwoChunks(first, second, Reader(num));
    BlankChunk(first, num);
    ExampleLineRead(second, num);
  }

  lemma ExampleLineRead(line: string, num: string -> real)
    requires line == "Object: X=1, Y=2, Z=3"
    ensures ChunkCoords(line, Reader(num)) == [Coord(num("1"), num("2"), num("3"))]
  {
    var o := ObjectLine(" ", "1", " ", "2", " ", "3", "");
    ExampleLineShape(line, o);
    ObjectLineRead(o, num);
  }

  lemma ExampleLineShape(line: string, o: ObjectLine)
    requires line == "Object: X=1, Y=2, Z=3" && o == ObjectLine(" ", "1", " ", "2", " ", "3", "")
    ensures WellFormed(o) && LineText(o) == line && '\n' !in line
  {
    CutExampleText(o, "3");
    assert forall i :: 0 <= i < |line| ==> line[i] != '\n';
  }

  lemma BlankChunk(first: string, num: string -> real)
    requires first == "  "
    ensures ChunkCoords(first, Reader(num)) == []
  {
    OneLineChunk(first, Reader(num));
    assert Trim(first) == "";
  }
}
