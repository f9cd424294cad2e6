/**
 * The map file reader. Two versions of it exist: `MapFactory`, whose
 * `parseLine` skips tokens that are not integers, and `MapLoader`, whose
 * `parseLine` stops at the first one. Both read a line as `height type`
 * pairs, multiply the height by the tile-height unit, map the type code to
 * a tile shape, and build the rows of the map from the lines of the file
 * that are neither empty nor comments.
 */
module MapText {
  import opened Wrappers
  import opened Graphics
  import opened Scanning
  import opened Tiles

  /** The tile sprites `loadTiles` fetches; the north-west slope reuses the flat one. */
  datatype TileImages = TileImages(flat: Drawable, ne: Drawable, n: Drawable, e: Drawable,
                                   se: Drawable, s: Drawable, sw: Drawable, w: Drawable)

  datatype Version = Factory | Loader

  /** The `switch` on the type code. */
  function ShapeOfCode(code: int): (r: Option<Shape>)
    ensures r.Some? <==> 0 <= code <= 8
  {
    match code
    case 0 => Some(Flat)
    case 1 => Some(NWest)
    case 2 => Some(North)
    case 3 => Some(NEast)
    case 4 => Some(East)
    case 5 => Some(SEast)
    case 6 => Some(South)
    case 7 => Some(SWest)
    case 8 => Some(West)
    case _ => None
  }

  /** The type code a shape is written as in a map file. */
  function CodeOfShape(shape: Shape): int {
    match shape
    case Flat => 0
    case NWest => 1
    case North => 2
    case NEast => 3
    case East => 4
    case SEast => 5
    case South => 6
    case SWest => 7
    case West => 8
  }

  /** The type codes 0..8 and the nine shapes correspond one to one. */
  lemma CodeRoundTrip(shape: Shape, code: int)
    ensures ShapeOfCode(CodeOfShape(shape)) == Some(shape)
    ensures ShapeOfCode(code) == Some(shape) ==> CodeOfShape(shape) == code
  {
  }

  function ImageFor(images: TileImages, shape: Shape): Drawable {
    match shape
    case Flat => images.flat
    case NWest => images.flat
    case North => images.n
    case NEast => images.ne
    case East => images.e
    case SEast => images.se
    case South => images.s
    case SWest => images.sw
    case West => images.w
  }

  /** The tile (if any) that one `height type` pair adds at column x of row y. */
  function TileFromPair(height: int, code: int, x: int, y: int, images: TileImages): (r: seq<Tile>)
    ensures |r| <= 1
    ensures |r| == 1 <==> 0 <= code <= 8
    ensures |r| == 1 ==> r[0].col == x && r[0].row == y && ShapeOfCode(code) == Some(r[0].shape)
    ensures |r| == 1 ==> Top(r[0].shape, r[0].base) == height as real * TileHeight
    ensures |r| == 1 ==> r[0].GetLowerDrawable() == images.flat
  {
    match ShapeOfCode(code)
    case Some(shape) => [MakeTile(shape, ImageFor(images, shape), images.flat, height as real * TileHeight, x, y)]
    case None => []
  }

  /** Tiles of one row: on row y, all at columns from x on, strictly increasing. */
  predicate RowFrom(tiles: seq<Tile>, x: int, y: int) {
    && (forall i :: 0 <= i < |tiles| ==> tiles[i].row == y && tiles[i].col >= x)
    && (forall i, j :: 0 <= i < j < |tiles| ==> tiles[i].col < tiles[j].col)
  }

  /**
   * `MapFactory.parseLine`'s loop from column x: a token that is not an
   * integer is dropped; a height followed by something that is not an
   * integer makes no tile and does not advance the column; a full pair
   * advances the column whether or not its type code is known.
   */
  function FactoryScan(toks: seq<Token>, x: int, y: int, images: TileImages): (r: seq<Tile>)
    ensures RowFrom(r, x, y)
    ensures 2 * |r| <= |toks|
    decreases |toks|
  {
    if |toks| == 0 then []
    else if toks[0].Word? then FactoryScan(toks[1..], x, y, images)
    else
      var height := toks[0].n;
      var rest := toks[1..];
      if |rest| == 0 || rest[0].Word? then FactoryScan(rest, x, y, images)
      else TileFromPair(height, rest[0].n, x, y, images) + FactoryScan(rest[1..], x + 1, y, images)
  }

  /**
   * `MapLoader.parseLine`'s loop from column x: it runs only while the next
   * token is an integer, so the first non-integer ends the row.
   */
  function LoaderScan(toks: seq<Token>, x: int, y: int, images: TileImages): (r: seq<Tile>)
    ensures RowFrom(r, x, y)
    ensures 2 * |r| <= |toks|
    decreases |toks|
  {
    if |toks| == 0 || toks[0].Word? then []
    else
      var height := toks[0].n;
      var rest := toks[1..];
      if |rest| == 0 || rest[0].Word? then LoaderScan(rest, x, y, images)
      else TileFromPair(height, rest[0].n, x, y, images) + LoaderScan(rest[1..], x + 1, y, images)
  }

  /** `parseLine(line, y)` of either version; a null line (`None`) gives an empty row in `MapFactory`. */
  function ParseLine(version: Version, line: Option<seq<Token>>, y: int, images: TileImages): (r: seq<Tile>)
    requires version == Loader ==> line.Some?
    ensures line.None? ==> r == []
    ensures RowFrom(r, 0, y)
  {
    match line
    case None => []
    case Some(toks) =>
      if version == Factory then FactoryScan(toks, 0, y, images) else LoaderScan(toks, 0, y, images)
  }

  /** A non-integer in height position is dropped and parsing goes on. */
  lemma FactorySkipsWord(w: string, rest: seq<Token>, x: int, y: int, images: TileImages)
    ensures FactoryScan([Word(w)] + rest, x, y, images) == FactoryScan(rest, x, y, images)
  {
    assert ([Word(w)] + rest)[1..] == rest;
  }

  /** A height followed by a non-integer makes no tile and leaves the column where it was. */
  lemma FactoryDropsLoneHeight(h: int, w: string, rest: seq<Token>, x: int, y: int, images: TileImages)
    ensures FactoryScan([Int(h), Word(w)] + rest, x, y, images) == FactoryScan(rest, x, y, images)
  {
    var toks := [Int(h), Word(w)] + rest;
    assert toks[1..] == [Word(w)] + rest;
    FactorySkipsWord(w, rest, x, y, images);
  }

  /**
   * A full pair adds at most one tile (none for an unknown type code), and
   * the rest of the line is read from the next column in both versions.
   */
  lemma PairStep(version: Version, h: int, code: int, rest: seq<Token>, x: int, y: int, images: TileImages)
    ensures var toks := [Int(h), Int(code)] + rest;
      && FactoryScan(toks, x, y, images) == TileFromPair(h, code, x, y, images) + FactoryScan(rest, x + 1, y, images)
      && LoaderScan(toks, x, y, images) == TileFromPair(h, code, x, y, images) + LoaderScan(rest, x + 1, y, images)
  {
    var toks := [Int(h), Int(code)] + rest;
    assert toks[1..][1..] == rest;
  }

  /** `MapLoader` ignores everything from the first non-integer on. */
  lemma {:induction false} LoaderStopsAtWord(toks: seq<Token>, k: int, x: int, y: int, images: TileImages)
    requires 0 <= k < |toks| && toks[k].Word?
    ensures LoaderScan(toks, x, y, images) == LoaderScan(toks[..k], x, y, images)
    decreases |toks|
  {
    if k == 0 {
    } else {
      var rest := toks[1..];
      assert toks[..k][1..] == rest[..k - 1];
      if k == 1 {
        assert rest[0].Word?;
      } else {
        assert rest[1..][..k - 2] == rest[..k - 1][1..];
        assert toks[..k][1..][1..] == rest[1..][..k - 2];
        LoaderStopsAtWord(rest[1..], k - 2, x + 1, y, images);
      }
    }
  }

  /**
   * On any line `MapLoader`'s row is a prefix of `MapFactory`'s, and on a
   * line of integers only the two versions agree.
   */
  lemma {:induction false} LoaderIsPrefixOfFactory(toks: seq<Token>, x: int, y: int, images: TileImages)
    ensures var f := FactoryScan(toks, x, y, images);
      var l := LoaderScan(toks, x, y, images);
      |l| <= |f| && l == f[..|l|]
    ensures AllInts(toks) ==> LoaderScan(toks, x, y, images) == FactoryScan(toks, x, y, images)
    decreases |toks|
  {
    if |toks| == 0 || toks[0].Word? {
    } else {
      var rest := toks[1..];
      if |rest| == 0 || rest[0].Word? {
        if |rest| > 0 {
          assert !AllInts(toks) by { assert toks[1].Word?; }
        }
      } else {
        var t := TileFromPair(toks[0].n, rest[0].n, x, y, images);
        assert rest[1..] == toks[2..];
        LoaderIsPrefixOfFactory(toks[2..], x + 1, y, images);
        var f' := FactoryScan(toks[2..], x + 1, y, images);
        var l' := LoaderScan(toks[2..], x + 1, y, images);
        assert FactoryScan(toks, x, y, images) == t + f';
        assert LoaderScan(toks, x, y, images) == t + l';
        PrefixOfConcat(t, f', l');
        if AllInts(toks) {
          AllIntsAfterPair(toks);
        }
      }
    }
  }

  /** A prefix stays a prefix behind a common head. */
  lemma PrefixOfConcat<T>(t: seq<T>, f: seq<T>, l: seq<T>)
    requires |l| <= |f| && l == f[..|l|]
    ensures |t + l| <= |t + f| && t + l == (t + f)[..|t + l|]
  {
    assert (t + f)[..|t + l|] == t + f[..|l|];
  }

  /** Dropping a pair from a line of integers leaves a line of integers. */
  lemma AllIntsAfterPair(toks: seq<Token>)
    requires |toks| >= 2 && AllInts(toks)
    ensures AllInts(toks[2..])
  {
    forall i | 0 <= i < |toks[2..]|
      ensures toks[2..][i].Int?
    {
      assert toks[2..][i] == toks[i + 2];
    }
  }

  /** The self-test's check of a tile: its surface is at height 0 at both corners it samples. */
  predicate LevelAtZero(t: Tile) {
    t.Surface(0.0, 0.0) == 0.0 && t.Surface(64.0, 64.0) == 0.0
  }

  /** A `0 0` pair makes one flat tile at height 0. */
  lemma ZeroPair(x: int, images: TileImages)
    ensures var r := TileFromPair(0, 0, x, 0, images);
      |r| == 1 && LevelAtZero(r[0])
  {
  }

  /** `n` zeros. */
  function Zeros(n: nat): (r: seq<Token>)
    ensures |r| == n && AllInts(r)
  {
    seq(n, i => Int(0))
  }

  /** A line of `n` `0 0` pairs is a row of `n` flat tiles at height 0. */
  lemma {:induction false} ZeroPairsScan(n: nat, x: int, images: TileImages)
    ensures var r := FactoryScan(Zeros(2 * n), x, 0, images);
      |r| == n && forall i :: 0 <= i < n ==> LevelAtZero(r[i])
    decreases n
  {
    if n > 0 {
      var tail := Zeros(2 * (n - 1));
      assert Zeros(2 * n) == [Int(0), Int(0)] + tail;
      PairStep(Factory, 0, 0, tail, x, 0, images);
      ZeroPairsScan(n - 1, x + 1, images);
      var t := TileFromPair(0, 0, x, 0, images);
      ZeroPair(x, images);
      var r := FactoryScan(Zeros(2 * n), x, 0, images);
      var rest := FactoryScan(tail, x + 1, 0, images);
      assert r == t + rest;
      assert |r| == n;
      forall i | 0 <= i < n
        ensures LevelAtZero(r[i])
      {
        if i == 0 {
          assert r[i] == t[0];
        } else {
          assert r[i] == rest[i - 1];
        }
      }
    }
  }

  /** Row 0 of five `0 0` pairs: five flat tiles of height 0, as the parser's self-test expects. */
  lemma FactorySelfTestValidLine(images: TileImages)
    ensures var row := ParseLine(Factory, Some([Int(0), Int(0), Int(0), Int(0), Int(0), Int(0), Int(0), Int(0), Int(0), Int(0)]), 0, images);
      && |row| == 5
      && forall i :: 0 <= i < 5 ==> LevelAtZero(row[i])
  {
    assert Zeros(10) == [Int(0), Int(0), Int(0), Int(0), Int(0), Int(0), Int(0), Int(0), Int(0), Int(0)];
    ZeroPairsScan(5, 0, images);
  }

  /** `MapFactory`'s scan from token i: a word is dropped. */
  lemma FactoryWordAt(toks: seq<Token>, i: nat, x: int, y: int, images: TileImages)
    requires i < |toks| && toks[i].Word?
    ensures FactoryScan(toks[i..], x, y, images) == FactoryScan(toks[i + 1..], x, y, images)
  {
    assert toks[i..][1..] == toks[i + 1..];
  }

  /** `MapFactory`'s scan from token i: a height followed by a word is dropped with it. */
  lemma FactoryLoneAt(toks: seq<Token>, i: nat, x: int, y: int, images: TileImages)
    requires i + 1 < |toks| && toks[i].Int? && toks[i + 1].Word?
    ensures FactoryScan(toks[i..], x, y, images) == FactoryScan(toks[i + 2..], x, y, images)
  {
    assert toks[i..][1..] == toks[i + 1..];
    FactoryWordAt(toks, i + 1, x, y, images);
  }

  /** `MapFactory`'s scan from token i: a full pair adds its tile and moves one column on. */
  lemma FactoryPairAt(toks: seq<Token>, i: nat, x: int, y: int, images: TileImages)
    requires i + 1 < |toks| && toks[i].Int? && toks[i + 1].Int?
    ensures FactoryScan(toks[i..], x, y, images) ==
              TileFromPair(toks[i].n, toks[i + 1].n, x, y, images) + FactoryScan(toks[i + 2..], x + 1, y, images)
  {
    assert toks[i..][1..][1..] == toks[i + 2..];
  }

  /**
   * The self-test's garbage line `KISSAT KOIRIA GFFÖÖGKFD 0 0  0 0 1337 ffgds 0 0`
   * yields exactly three tiles in `MapFactory`, and none in `MapLoader`.
   */
  lemma FactorySelfTestGarbageLine(images: TileImages)
    ensures var toks := [Word("KISSAT"), Word("KOIRIA"), Word("GFFÖÖGKFD"), Int(0), Int(0), Int(0), Int(0),
                         Int(1337), Word("ffgds"), Int(0), Int(0)];
      && |ParseLine(Factory, Some(toks), 0, images)| == 3
      && ParseLine(Loader, Some(toks), 0, images) == []
  {
    GarbageShapeScan([Word("KISSAT"), Word("KOIRIA"), Word("GFFÖÖGKFD"), Int(0), Int(0), Int(0), Int(0),
                      Int(1337), Word("ffgds"), Int(0), Int(0)], images);
  }

  /**
   * The shape of the garbage line: three words, two `0 0` pairs, a height
   * followed by a word, one more `0 0` pair.
   */
  lemma GarbageShapeScan(toks: seq<Token>, images: TileImages)
    requires |toks| == 11 && toks[0].Word? && toks[1].Word? && toks[2].Word? && toks[7].Int? && toks[8].Word?
    requires toks[3] == toks[4] == toks[5] == toks[6] == toks[9] == toks[10] == Int(0)
    ensures |FactoryScan(toks, 0, 0, images)| == 3 && LoaderScan(toks, 0, 0, images) == []
  {
    assert toks[0..] == toks;
    FactoryWordAt(toks, 0, 0, 0, images);
    FactoryWordAt(toks, 1, 0, 0, images);
    FactoryWordAt(toks, 2, 0, 0, images);
    FactoryPairAt(toks, 3, 0, 0, images);
    FactoryPairAt(toks, 5, 1, 0, images);
    FactoryLoneAt(toks, 7, 2, 0, images);
    FactoryPairAt(toks, 9, 2, 0, images);
    assert toks[11..] == [];
    ZeroPair(0, images);
    ZeroPair(1, images);
    ZeroPair(2, images);
  }

  /** A line `readMap` skips: empty, or a comment starting with '#'. */
  predicate Skipped(line: string) {
    |line| == 0 || line[0] == '#'
  }

  /**
   * `readMap`'s loop (the same in both versions): while the file has a
   * token left, read a line; skip it if empty or a comment, otherwise parse
   * it as row y and count y up.
   */
  function ReadRows(version: Version, lines: seq<string>, lex: string -> seq<Token>, y: int, images: TileImages): (r: seq<seq<Tile>>)
    decreases |lines|
  {
    if !HasNext(lines) then []
    else if Skipped(lines[0]) then ReadRows(version, lines[1..], lex, y, images)
    else [ParseLine(version, Some(lex(lines[0])), y, images)] + ReadRows(version, lines[1..], lex, y + 1, images)
  }

  /** `readMap` over the lines of an opened file. */
  function ReadMap(version: Version, lines: seq<string>, lex: string -> seq<Token>, images: TileImages): seq<seq<Tile>> {
    ReadRows(version, lines, lex, 0, images)
  }

  /** The lines that become map rows: not skipped, and followed by no trailing blank-only tail. */
  function RowLines(lines: seq<string>): (r: seq<string>)
    ensures forall i :: 0 <= i < |r| ==> !Skipped(r[i])
    decreases |lines|
  {
    if !HasNext(lines) then []
    else if Skipped(lines[0]) then RowLines(lines[1..])
    else [lines[0]] + RowLines(lines[1..])
  }

  /**
   * Skipped lines do not consume a row number: row k of the map is the k-th
   * line that is neither empty nor a comment, parsed as row k.
   */
  lemma {:induction false} RowsAreNumberedLines(version: Version, lines: seq<string>, lex: string -> seq<Token>, y: int, images: TileImages)
    ensures var rows := ReadRows(version, lines, lex, y, images);
      var kept := RowLines(lines);
      && |rows| == |kept|
      && forall k :: 0 <= k < |rows| ==> rows[k] == ParseLine(version, Some(lex(kept[k])), y + k, images)
    decreases |lines|
  {
    if !HasNext(lines) {
    } else if Skipped(lines[0]) {
      RowsAreNumberedLines(version, lines[1..], lex, y, images);
    } else {
      RowsAreNumberedLines(version, lines[1..], lex, y + 1, images);
      var rest := ReadRows(version, lines[1..], lex, y + 1, images);
      var restKept := RowLines(lines[1..]);
      var rows := ReadRows(version, lines, lex, y, images);
      var kept := RowLines(lines);
      assert rows == [ParseLine(version, Some(lex(lines[0])), y, images)] + rest;
      assert kept == [lines[0]] + restKept;
      forall k | 0 <= k < |rows|
        ensures rows[k] == ParseLine(version, Some(lex(kept[k])), y + k, images)
      {
        if k > 0 {
          assert rows[k] == rest[k - 1];
          assert kept[k] == restKept[k - 1];
        }
      }
    }
  }

  /**
   * `readMap(path)`: a map resource that cannot be found or opened (`None`)
   * is a `MapException`; an opened file gives one row per kept line, in
   * order, each parsed under its own row number.
   */
  function ReadMapFile(version: Version, file: Option<seq<string>>, lex: string -> seq<Token>, images: TileImages): (r: Result<seq<seq<Tile>>, string>)
    ensures r.Err? <==> file.None?
    ensures r.Ok? ==> |r.value| == |RowLines(file.value)|
    ensures r.Ok? ==> forall k :: 0 <= k < |r.value| ==>
              r.value[k] == ParseLine(version, Some(lex(RowLines(file.value)[k])), k, images)
  {
    match file
    case None => Err("Couldn't load map")
    case Some(lines) =>
      var rows := ReadRows(version, lines, lex, 0, images);
      RowsAreNumberedLines(version, lines, lex, 0, images);
      assert forall k :: 0 <= k < |rows| ==> rows[k] == ParseLine(version, Some(lex(RowLines(lines)[k])), k, images);
      Ok(rows)
  }

  /** Comment and empty lines change nothing in the map that is read. */
  lemma SkippedLineIsInvisible(version: Version, line: string, lines: seq<string>, lex: string -> seq<Token>, images: TileImages)
    requires Skipped(line) && HasNext(lines)
    ensures ReadMap(version, [line] + lines, lex, images) == ReadMap(version, lines, lex, images)
  {
    var all := [line] + lines;
    assert all[1..] == lines;
    var k :| 0 <= k < |lines| && !Blank(lines[k]);
    assert all[k + 1] == lines[k];
  }
}
