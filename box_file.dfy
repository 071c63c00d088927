/** The box-mode result file: one line per recognised glyph, the glyph, a
    space, and its coordinates separated by single spaces. `run_tesseract`
    turns it into a multimap from glyph to coordinate text and a list of
    integer columns named by glyph. */
module BoxFile {
  import opened Wrappers
  import opened RustStr
  import opened Decimal

  /** A polars `Series`: a name and a column of `i32` values. */
  datatype Series = Series(name: string, values: seq<Int32>)

  /** One multimap insertion: glyph and the coordinate text after it. The
      multimap is the sequence of its insertions, in file order. */
  type Entry = (string, string)

  datatype BoxTables = BoxTables(dict: seq<Entry>, dataframe: seq<Series>)

  /** `MultiMap::get_vec`: the values inserted under `key`, in insertion order. */
  function Lookup(dict: seq<Entry>, key: string): seq<string>
  {
    if dict == [] then []
    else
      var last := dict[|dict| - 1];
      Lookup(dict[..|dict| - 1], key) + (if last.0 == key then [last.1] else [])
  }

  /** Only lines with a space are box records. */
  predicate IsBoxLine(line: string) { ' ' in line }

  /** The coordinate tokens, each read with `parse::<i32>`; the first token
      that does not parse is the error. */
  function Coordinates(tokens: seq<string>): (r: Result<seq<Int32>, string>)
    ensures r.Ok? ==> |r.value| == |tokens|
    ensures r.Ok? ==> forall k :: 0 <= k < |tokens| ==> ParseI32(tokens[k]) == Some(r.value[k])
    ensures r.Err? ==> r.error in tokens && ParseI32(r.error) == None
  {
    if tokens == [] then Ok([])
    else
      var last := tokens[|tokens| - 1];
      match Coordinates(tokens[..|tokens| - 1])
      case Err(bad) => Err(bad)
      case Ok(vs) =>
        match ParseI32(last)
        case None => Err(last)
        case Some(v) => Ok(vs + [v])
  }

  /** The multimap insertions for `lines`: one per box line, split at its
      first space. */
  function Entries(lines: seq<string>): seq<Entry>
  {
    if lines == [] then []
    else
      var last := lines[|lines| - 1];
      Entries(lines[..|lines| - 1]) + (if IsBoxLine(last) then [SplitOnce(last, ' ')] else [])
  }

  /** The columns for `lines`: one per box line, named by the glyph, holding
      the coordinates after it; the first token that is not an `i32` makes
      the whole parse fail. */
  function Columns(lines: seq<string>): Result<seq<Series>, string>
  {
    if lines == [] then Ok([])
    else
      var last := lines[|lines| - 1];
      match Columns(lines[..|lines| - 1])
      case Err(bad) => Err(bad)
      case Ok(cols) =>
        if !IsBoxLine(last) then Ok(cols)
        else
          var (glyph, rest) := SplitOnce(last, ' ');
          match Coordinates(Split(rest, ' '))
          case Err(bad) => Err(bad)
          case Ok(vs) => Ok(cols + [Series(glyph, vs)])
  }

  /** What box mode makes of a result file: the tables, or the coordinate
      token that made `unwrap` panic. */
  function ParseBox(contents: string): Result<BoxTables, string>
  {
    var lines := Lines(contents);
    match Columns(lines)
    case Err(bad) => Err(bad)
    case Ok(cols) => Ok(BoxTables(Entries(lines), cols))
  }

  /** Once a prefix of the tokens fails, so do all the tokens, on the same token. */
  lemma {:induction false} CoordinatesErrPersists(tokens: seq<string>, j: nat)
    requires j <= |tokens| && Coordinates(tokens[..j]).Err?
    ensures Coordinates(tokens) == Coordinates(tokens[..j])
    decreases |tokens| - j
  {
    if j < |tokens| {
      assert tokens[..j + 1][..j] == tokens[..j];
      CoordinatesErrPersists(tokens, j + 1);
    } else {
      assert tokens[..j] == tokens;
    }
  }

  /** Once a prefix of the lines fails, so does the whole file, on the same token. */
  lemma {:induction false} ColumnsErrPersists(lines: seq<string>, i: nat)
    requires i <= |lines| && Columns(lines[..i]).Err?
    ensures Columns(lines) == Columns(lines[..i])
    decreases |lines| - i
  {
    if i < |lines| {
      assert lines[..i + 1][..i] == lines[..i];
      ColumnsErrPersists(lines, i + 1);
    } else {
      assert lines[..i] == lines;
    }
  }

  /** The inner loop of the box branch: `parse::<i32>` on each token, pushed
      onto the column, stopping at the first token that does not parse. */
  method ParseCoordinates(tokens: seq<string>) returns (r: Result<seq<Int32>, string>)
    ensures r == Coordinates(tokens)
  {
    var boundaries: seq<Int32> := [];
    var j := 0;
    while j < |tokens|
      invariant 0 <= j <= |tokens|
      invariant Coordinates(tokens[..j]) == Ok(boundaries)
    {
      assert tokens[..j + 1][..j] == tokens[..j];
      var parsed := ParseI32(tokens[j]);
      if parsed.None? {
        CoordinatesErrPersists(tokens, j + 1);
        return Err(tokens[j]);
      }
      boundaries := boundaries + [parsed.value];
      j := j + 1;
    }
    assert tokens[..j] == tokens;
    r := Ok(boundaries);
  }

  /** The box branch of `run_tesseract`: for every line with a space, insert
      (glyph, rest) into the multimap, then parse `rest.split(" ")` into a
      column, stopping the whole call at the first bad token. */
  method ParseBoxFile(contents: string) returns (r: Result<BoxTables, string>)
    ensures r == ParseBox(contents)
  {
    var lines := Lines(contents);
    var dict: seq<Entry> := [];
    var df: seq<Series> := [];
    var i := 0;
    while i < |lines|
      invariant 0 <= i <= |lines|
      invariant dict == Entries(lines[..i])
      invariant Columns(lines[..i]) == Ok(df)
    {
      var line := lines[i];
      assert lines[..i + 1][..i] == lines[..i];
      if ' ' in line {
        var (glyph, rest) := SplitOnce(line, ' ');
        dict := dict + [(glyph, rest)];
        var coords := ParseCoordinates(Split(rest, ' '));
        if coords.Err? {
          ColumnsErrPersists(lines, i + 1);
          return Err(coords.error);
        }
        df := df + [Series(glyph, coords.value)];
      }
      i := i + 1;
    }
    assert lines[..i] == lines;
    r := Ok(BoxTables(dict, df));
  }

  /** The box lines of `lines`, in order. */
  function BoxLines(lines: seq<string>): seq<string>
  {
    if lines == [] then []
    else
      var last := lines[|lines| - 1];
      BoxLines(lines[..|lines| - 1]) + (if IsBoxLine(last) then [last] else [])
  }

  /** Every line containing a space gives exactly one multimap entry, in file
      order: the text before its first space, which has no space, and the
      text after it. Lines without a space give none. */
  lemma {:induction false} EntriesOfBoxLines(lines: seq<string>)
    ensures |Entries(lines)| == |BoxLines(lines)|
    ensures forall k :: 0 <= k < |BoxLines(lines)| ==>
      ' ' !in Entries(lines)[k].0 && Entries(lines)[k].0 + " " + Entries(lines)[k].1 == BoxLines(lines)[k]
  {
    if lines != [] {
      EntriesOfBoxLines(lines[..|lines| - 1]);
    }
  }

  /** When box parsing succeeds, the columns line up with the multimap
      entries: same count, each column named by its entry's glyph and
      holding the parsed tokens of its entry's coordinate text. */
  lemma {:induction false} ColumnsMatchEntries(lines: seq<string>)
    requires Columns(lines).Ok?
    ensures var cols := Columns(lines).value;
      && |cols| == |Entries(lines)|
      && forall k :: 0 <= k < |cols| ==>
           cols[k].name == Entries(lines)[k].0
           && Coordinates(Split(Entries(lines)[k].1, ' ')) == Ok(cols[k].values)
  {
    if lines != [] {
      ColumnsMatchEntries(lines[..|lines| - 1]);
    }
  }

  /** A token that is not an `i32` anywhere in the coordinates fails them. */
  lemma BadTokenFails(tokens: seq<string>, j: nat)
    requires j < |tokens| && ParseI32(tokens[j]) == None
    ensures Coordinates(tokens).Err?
  {
  }

  /** A box line whose coordinates contain an empty token (two spaces in a
      row, or a space at the end of the line) aborts the whole parse. */
  lemma {:induction false} EmptyTokenAborts(lines: seq<string>, i: nat)
    requires i < |lines| && IsBoxLine(lines[i])
    requires "" in Split(SplitOnce(lines[i], ' ').1, ' ')
    ensures Columns(lines).Err?
  {
    var prefix := lines[..|lines| - 1];
    if i < |lines| - 1 {
      EmptyTokenAborts(prefix, i);
    } else {
      var tokens := Split(SplitOnce(lines[i], ' ').1, ' ');
      var j :| 0 <= j < |tokens| && tokens[j] == "";
      BadTokenFails(tokens, j);
    }
  }

  /** One glyph's record as the engine writes it. */
  datatype GlyphBox = GlyphBox(glyph: string, coords: seq<Int32>)

  /** A glyph without spaces or line breaks, with at least one coordinate. */
  predicate WellFormed(b: GlyphBox)
  {
    ' ' !in b.glyph && '\n' !in b.glyph && '\r' !in b.glyph && |b.coords| >= 1
  }

  function CoordinateText(b: GlyphBox): string
  {
    Join(Decimals(b.coords), ' ')
  }

  /** `<glyph> <c0> <c1> ...` */
  function BoxLine(b: GlyphBox): string
  {
    b.glyph + " " + CoordinateText(b)
  }

  function BoxLinesOf(bs: seq<GlyphBox>): (lines: seq<string>)
    ensures |lines| == |bs|
    ensures forall k :: 0 <= k < |bs| ==> lines[k] == BoxLine(bs[k])
  {
    if bs == [] then [] else BoxLinesOf(bs[..|bs| - 1]) + [BoxLine(bs[|bs| - 1])]
  }

  /** A box file: the records' lines joined by `'\n'`. */
  function BoxFileText(bs: seq<GlyphBox>): string
  {
    Join(BoxLinesOf(bs), '\n')
  }

  /** The coordinates written in decimal parse back to themselves. */
  lemma {:induction false} CoordinatesOfDecimals(vs: seq<Int32>)
    ensures Coordinates(Decimals(vs)) == Ok(vs)
  {
    if vs != [] {
      var n := |vs|;
      var init, last := vs[..n - 1], vs[n - 1];
      var ts := Decimals(vs);
      assert ts == Decimals(init) + [IntToDecimal(last)];
      assert ts[..n - 1] == Decimals(init);
      assert ts[n - 1] == IntToDecimal(last);
      CoordinatesOfDecimals(init);
      ParseOfDecimal(last);
      assert Coordinates(ts) == Ok(init + [last]);
      InitLast(vs);
    }
  }

  /** A non-empty sequence is its front followed by its last element. */
  lemma InitLast<T>(s: seq<T>)
    requires |s| > 0
    ensures s[..|s| - 1] + [s[|s| - 1]] == s
  {
  }

  /** One well-formed record's line splits into its glyph and coordinate
      text, and the coordinate text parses back to its coordinates. */
  lemma BoxLineParses(b: GlyphBox)
    requires WellFormed(b)
    ensures IsBoxLine(BoxLine(b))
    ensures SplitOnce(BoxLine(b), ' ') == (b.glyph, CoordinateText(b))
    ensures Coordinates(Split(CoordinateText(b), ' ')) == Ok(b.coords)
  {
    IndexAfterFree(b.glyph, ' ', CoordinateText(b));
    SplitJoin(Decimals(b.coords), ' ');
    CoordinatesOfDecimals(b.coords);
  }

  /** The multimap entries the records stand for. */
  function EntriesOf(bs: seq<GlyphBox>): (es: seq<Entry>)
    ensures |es| == |bs|
    ensures forall k :: 0 <= k < |bs| ==> es[k] == (bs[k].glyph, CoordinateText(bs[k]))
  {
    if bs == [] then [] else EntriesOf(bs[..|bs| - 1]) + [(bs[|bs| - 1].glyph, CoordinateText(bs[|bs| - 1]))]
  }

  /** The columns the records stand for. */
  function SeriesOf(bs: seq<GlyphBox>): (cols: seq<Series>)
    ensures |cols| == |bs|
    ensures forall k :: 0 <= k < |bs| ==> cols[k] == Series(bs[k].glyph, bs[k].coords)
  {
    if bs == [] then [] else SeriesOf(bs[..|bs| - 1]) + [Series(bs[|bs| - 1].glyph, bs[|bs| - 1].coords)]
  }

  /** The lines of well-formed records parse into one entry and one column
      per record, in order. */
  lemma {:induction false} BoxLinesParse(bs: seq<GlyphBox>)
    requires forall b <- bs :: WellFormed(b)
    ensures Entries(BoxLinesOf(bs)) == EntriesOf(bs)
    ensures Columns(BoxLinesOf(bs)) == Ok(SeriesOf(bs))
  {
    if bs != [] {
      var init := bs[..|bs| - 1];
      var b := bs[|bs| - 1];
      assert BoxLinesOf(bs)[..|bs| - 1] == BoxLinesOf(init);
      assert bs[..|bs| - 1] == init;
      assert b in bs;
      BoxLineParses(b);
      BoxLinesParse(init);
    }
  }

  /** Round trip of the box format: a file written from well-formed records
      parses into exactly those records, as multimap entries and as columns. */
  lemma BoxFileRoundTrip(bs: seq<GlyphBox>)
    requires forall b <- bs :: WellFormed(b)
    ensures ParseBox(BoxFileText(bs)) == Ok(BoxTables(EntriesOf(bs), SeriesOf(bs)))
  {
    var lines := BoxLinesOf(bs);
    if bs != [] {
      forall l <- lines ensures '\n' !in l && '\r' !in l {
        var k :| 0 <= k < |bs| && lines[k] == l;
        assert bs[k] in bs;
        LineBreakFree(bs[k]);
      }
      LineBreakFree(bs[|bs| - 1]);
      LinesOfJoin(lines);
    }
    BoxLinesParse(bs);
  }

  /** A record's line has no line break and is not empty. */
  lemma LineBreakFree(b: GlyphBox)
    requires WellFormed(b)
    ensures '\n' !in BoxLine(b) && '\r' !in BoxLine(b) && BoxLine(b) != []
  {
    var ts := Decimals(b.coords);
    forall k | 0 <= k < |ts| ensures '\n' !in ts[k] && '\r' !in ts[k] { }
    NoBreakInJoin(ts);
  }

  lemma {:induction false} NoBreakInJoin(ts: seq<string>)
    requires forall t <- ts :: '\n' !in t && '\r' !in t
    ensures '\n' !in Join(ts, ' ') && '\r' !in Join(ts, ' ')
  {
    if |ts| > 1 {
      assert ts[0] in ts;
      assert forall t <- ts[1..] :: t in ts;
      NoBreakInJoin(ts[1..]);
    }
  }

  /** The record pair from the box format's description: two glyphs, four
      coordinates each. */
  lemma TwoGlyphExample(text: string)
    requires text == "A 10 20 30 40\nB 11 21 31 41"
    ensures ParseBox(text) == Ok(BoxTables(
      [("A", "10 20 30 40"), ("B", "11 21 31 41")],
      [Series("A", [10, 20, 30, 40]), Series("B", [11, 21, 31, 41])]))
    ensures Lookup(ParseBox(text).value.dict, "A") == ["10 20 30 40"]
    ensures Lookup(ParseBox(text).value.dict, "B") == ["11 21 31 41"]
  {
    var a := GlyphBox("A", [10, 20, 30, 40]);
    var b := GlyphBox("B", [11, 21, 31, 41]);
    ExampleTextA(a);
    ExampleTextB(b);
    ExampleLineA(a);
    ExampleLineB(b);
    ExampleFile(a, b, "A 10 20 30 40", "B 11 21 31 41");
    ExampleJoin("A 10 20 30 40", "B 11 21 31 41");
    BoxFileRoundTrip([a, b]);
    ExampleEntries(a, b, "10 20 30 40", "11 21 31 41");
    ExampleSeries(a, b);
    ExampleLookup([("A", "10 20 30 40"), ("B", "11 21 31 41")]);
  }

  /** The multimap of the example, read key by key. */
  lemma ExampleLookup(dict: seq<Entry>)
    requires dict == [("A", "10 20 30 40"), ("B", "11 21 31 41")]
    ensures Lookup(dict, "A") == ["10 20 30 40"]
    ensures Lookup(dict, "B") == ["11 21 31 41"]
  {
    var first := dict[..1];
    assert first == [("A", "10 20 30 40")] && first[..0] == [];
    assert "A" != "B" by { assert "A"[0] != "B"[0]; }
    assert Lookup(first, "A") == ["10 20 30 40"];
    assert Lookup(first, "B") == [];
  }

  // The steps of `TwoGlyphExample`, one literal fact each: the coordinate
  // texts, the record lines, the file, its lines, and the tables. Each is
  // kept small so that no proof handles the whole example's literals at
  // once.

  lemma ExampleTextA(g: GlyphBox)
    requires g.coords == [10, 20, 30, 40]
    ensures CoordinateText(g) == "10 20 30 40"
  {
    ExampleDecimalsA(g.coords);
    JoinFour("10", "20", "30", "40");
  }

  lemma ExampleTextB(g: GlyphBox)
    requires g.coords == [11, 21, 31, 41]
    ensures CoordinateText(g) == "11 21 31 41"
  {
    ExampleDecimalsB(g.coords);
    JoinFour("11", "21", "31", "41");
  }

  lemma ExampleLineA(g: GlyphBox)
    requires g.glyph == "A" && CoordinateText(g) == "10 20 30 40"
    ensures BoxLine(g) == "A 10 20 30 40"
  {
  }

  lemma ExampleLineB(g: GlyphBox)
    requires g.glyph == "B" && CoordinateText(g) == "11 21 31 41"
    ensures BoxLine(g) == "B 11 21 31 41"
  {
  }

  lemma ExampleFile(a: GlyphBox, b: GlyphBox, x: string, y: string)
    requires BoxLine(a) == x && BoxLine(b) == y
    ensures BoxFileText([a, b]) == Join([x, y], '\n')
  {
    assert [a, b][..1] == [a];
  }

  lemma ExampleJoin(x: string, y: string)
    requires x == "A 10 20 30 40" && y == "B 11 21 31 41"
    ensures Join([x, y], '\n') == "A 10 20 30 40\nB 11 21 31 41"
  {
  }

  lemma ExampleEntries(a: GlyphBox, b: GlyphBox, x: string, y: string)
    requires a.glyph == "A" && b.glyph == "B"
    requires CoordinateText(a) == x && CoordinateText(b) == y
    ensures EntriesOf([a, b]) == [("A", x), ("B", y)]
  {
    var es := EntriesOf([a, b]);
    assert |es| == 2 && es[0] == ("A", x) && es[1] == ("B", y);
  }

  lemma ExampleSeries(a: GlyphBox, b: GlyphBox)
    ensures SeriesOf([a, b]) == [Series(a.glyph, a.coords), Series(b.glyph, b.coords)]
  {
    var cols := SeriesOf([a, b]);
    assert |cols| == 2 && cols[0] == Series(a.glyph, a.coords) && cols[1] == Series(b.glyph, b.coords);
  }

  lemma JoinFour(w: string, x: string, y: string, z: string)
    ensures Join([w, x, y, z], ' ') == w + " " + x + " " + y + " " + z
  {
    assert [w, x, y, z][1..] == [x, y, z];
    assert [x, y, z][1..] == [y, z];
    assert [y, z][1..] == [z];
    assert Join([y, z], ' ') == y + [' '] + z;
    assert Join([x, y, z], ' ') == x + [' '] + (y + [' '] + z);
    assert Join([w, x, y, z], ' ') == w + [' '] + (x + [' '] + (y + [' '] + z));
  }

  lemma ExampleDecimalsA(vs: seq<Int32>)
    requires vs == [10, 20, 30, 40]
    ensures Decimals(vs) == ["10", "20", "30", "40"]
  {
    TwoDigits(1, 0); TwoDigits(2, 0); TwoDigits(3, 0); TwoDigits(4, 0);
    var ts := Decimals(vs);
    assert |ts| == 4 && ts[0] == "10" && ts[1] == "20" && ts[2] == "30" && ts[3] == "40";
  }

  lemma ExampleDecimalsB(vs: seq<Int32>)
    requires vs == [11, 21, 31, 41]
    ensures Decimals(vs) == ["11", "21", "31", "41"]
  {
    TwoDigits(1, 1); TwoDigits(2, 1); TwoDigits(3, 1); TwoDigits(4, 1);
    var ts := Decimals(vs);
    assert |ts| == 4 && ts[0] == "11" && ts[1] == "21" && ts[2] == "31" && ts[3] == "41";
  }

  lemma TwoDigits(t: nat, u: nat)
    requires 1 <= t <= 9 && u <= 9
    ensures IntToDecimal(10 * t + u) == [DigitChar(t), DigitChar(u)]
  {
    var n := 10 * t + u;
    assert n / 10 == t && n % 10 == u;
    assert NatToDecimal(n) == NatToDecimal(t) + [DigitChar(u)];
  }
}
