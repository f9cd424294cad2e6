/**
 * `Highscore`: the score list. A score file holds one score per line, the
 * name's words and then the score; reading a line appends every token
 * that is not an `int` to the name, each followed by one space, and the
 * first `int` ends the line. A new score joins the list, which
 * `Collections.sort` then orders highest first, keeping equal scores in
 * their order. The high-score screen lists at most six of them and then
 * a "Menu!" entry, whose index is the value that leaves the screen.
 */
module Highscores {
  import opened Wrappers
  import opened Graphics
  import opened Scanning
  import Ordering
  import Menus
  import Dispatch

  const MaxScores: int := 6
  /** The range of a Java `int`, which `hasNextInt()` checks. */
  const IntMin: int := -0x8000_0000
  const IntMax: int := 0x7fff_ffff

  datatype Score = Score(name: string, score: int)

  // ---------------------------------------------------------- comparison

  /** The key the list is sorted by: the negated score, so that higher scores come first. */
  function Rank(s: Score): int {
    -s.score
  }

  /** `compareTo`: -1 when `a` scores higher, 1 when lower, 0 on a tie. */
  function Compare(a: Score, b: Score): (r: int)
    ensures r == -1 || r == 0 || r == 1
    ensures r < 0 <==> Rank(a) < Rank(b)
    ensures r > 0 <==> Rank(a) > Rank(b)
  {
    if a.score > b.score then -1
    else if a.score < b.score then 1
    else 0
  }

  /** `compareTo` is a consistent total preorder: antisymmetric, transitive, ties exactly on equal scores. */
  lemma CompareIsTotalPreorder(a: Score, b: Score, c: Score)
    ensures Compare(a, b) == -Compare(b, a)
    ensures Compare(a, b) == 0 <==> a.score == b.score
    ensures Compare(a, b) <= 0 && Compare(b, c) <= 0 ==> Compare(a, c) <= 0
  {
  }

  // -------------------------------------------------------- decimal text

  predicate IsDigit(c: char) {
    '0' <= c <= '9'
  }

  predicate AllDigits(s: string) {
    forall i :: 0 <= i < |s| ==> IsDigit(s[i])
  }

  function DigitChar(d: int): (c: char)
    requires 0 <= d < 10
    ensures IsDigit(c) && c as int - '0' as int == d
  {
    ('0' as int + d) as char
  }

  /** The decimal digits of `n`, without leading zeros. */
  function Digits(n: nat): (r: string)
    ensures |r| > 0 && AllDigits(r)
    decreases n
  {
    if n < 10 then [DigitChar(n)] else Digits(n / 10) + [DigitChar(n % 10)]
  }

  /** `String.valueOf(int)`: a minus sign for negative values, then the digits. */
  function DecimalString(n: int): (r: string)
    ensures |r| > 0 && IsDigit(r[|r| - 1]) && NoSpace(r)
  {
    if n < 0 then "-" + Digits(-n) else Digits(n)
  }

  /** The value of a string of decimal digits. */
  function ValueOf(s: string): nat
    requires AllDigits(s)
    decreases |s|
  {
    if |s| == 0 then 0 else ValueOf(s[..|s| - 1]) * 10 + (s[|s| - 1] as int - '0' as int)
  }

  lemma {:induction false} DigitsValue(n: nat)
    ensures ValueOf(Digits(n)) == n
    decreases n
  {
    var s := Digits(n);
    if n < 10 {
      assert s[..0] == [];
    } else {
      DigitsValue(n / 10);
      assert s[..|s| - 1] == Digits(n / 10);
    }
  }

  /**
   * `hasNextInt()` / `nextInt()` on one token: an optional sign, then
   * decimal digits, within the range of an `int`.
   */
  function ParseInt(w: string): (r: Option<int>)
    ensures r.Some? ==> IntMin <= r.value <= IntMax
  {
    var signed := |w| > 0 && (w[0] == '-' || w[0] == '+');
    var digits := if signed then w[1..] else w;
    if |digits| == 0 || !AllDigits(digits) then None
    else
      var v: int := if signed && w[0] == '-' then 0 - ValueOf(digits) as int else ValueOf(digits);
      if IntMin <= v <= IntMax then Some(v) else None
  }

  /** Every `int` printed in decimal reads back as itself. */
  lemma DecimalReadsBack(n: int)
    requires IntMin <= n <= IntMax
    ensures ParseInt(DecimalString(n)) == Some(n)
  {
    var w := DecimalString(n);
    if n < 0 {
      DigitsValue(-n);
      assert w[1..] == Digits(-n);
    } else {
      DigitsValue(n);
    }
  }

  // ------------------------------------------------------ splitting a line

  predicate NoSpace(w: string) {
    forall i :: 0 <= i < |w| ==> !IsSpace(w[i])
  }

  /** The length of the run of non-space characters `s` starts with. */
  function Run(s: string): (n: nat)
    ensures n <= |s| && NoSpace(s[..n])
    ensures n < |s| ==> IsSpace(s[n])
    decreases |s|
  {
    if |s| == 0 || IsSpace(s[0]) then 0
    else
      var m := Run(s[1..]);
      assert s[..1 + m] == [s[0]] + s[1..][..m];
      1 + m
  }

  /** The tokens of a line as text: the maximal runs of non-space characters, in order. */
  function Split(s: string): (ws: seq<string>)
    ensures forall i :: 0 <= i < |ws| ==> |ws[i]| > 0 && NoSpace(ws[i])
    decreases |s|
  {
    if |s| == 0 then []
    else if IsSpace(s[0]) then Split(s[1..])
    else
      var n := Run(s);
      [s[..n]] + Split(s[n..])
  }

  /** A line has no token exactly when it is blank: `Split` agrees with `hasNext()`. */
  lemma {:induction false} SplitEmptyIffBlank(s: string)
    ensures Split(s) == [] <==> Blank(s)
    decreases |s|
  {
    if |s| > 0 && IsSpace(s[0]) {
      SplitEmptyIffBlank(s[1..]);
      if Blank(s[1..]) {
        forall i | 0 <= i < |s|
          ensures IsSpace(s[i])
        {
          if i > 0 {
            assert s[i] == s[1..][i - 1];
          }
        }
      }
    }
  }

  /** A word ending at a space or at the end of the line is one run. */
  lemma {:induction false} RunOfWord(w: string, rest: string)
    requires NoSpace(w)
    requires |rest| == 0 || IsSpace(rest[0])
    ensures Run(w + rest) == |w|
    decreases |w|
  {
    if |w| == 0 {
      assert w + rest == rest;
    } else {
      assert (w + rest)[1..] == w[1..] + rest;
      RunOfWord(w[1..], rest);
    }
  }

  /** A word ending at a space or at the end of the line is one token. */
  lemma SplitWord(w: string, rest: string)
    requires |w| > 0 && NoSpace(w)
    requires |rest| == 0 || IsSpace(rest[0])
    ensures Split(w + rest) == [w] + Split(rest)
  {
    var s := w + rest;
    RunOfWord(w, rest);
    assert s[..|w|] == w && s[|w|..] == rest;
  }

  lemma SplitSpace(rest: string)
    ensures Split(" " + rest) == Split(rest)
  {
    assert (" " + rest)[1..] == rest;
  }

  /** `Scanner`'s view of a line: each token is an `int` when it reads as one, and a word otherwise. */
  function TokenOf(w: string): (t: Token)
    ensures t.Word? ==> t.text == w && ParseInt(w).None?
    ensures t.Int? ==> ParseInt(w) == Some(t.n)
  {
    match ParseInt(w)
    case Some(n) => Int(n)
    case None => Word(w)
  }

  function Lex(line: string): (toks: seq<Token>)
    ensures |toks| == |Split(line)|
    ensures forall i :: 0 <= i < |toks| ==> toks[i] == TokenOf(Split(line)[i])
  {
    var ws := Split(line);
    seq(|ws|, i requires 0 <= i < |ws| => TokenOf(ws[i]))
  }

  // -------------------------------------------------------- the line parse

  /** The index of the first `int` token, or the length when there is none. */
  function FirstInt(toks: seq<Token>): (k: nat)
    ensures k <= |toks| && (k < |toks| ==> toks[k].Int?)
    ensures forall i :: 0 <= i < k ==> toks[i].Word?
    decreases |toks|
  {
    if |toks| == 0 || toks[0].Int? then 0 else 1 + FirstInt(toks[1..])
  }

  /** Every word followed by one space, as `name += next() + " "` builds it. */
  function Join(ws: seq<string>): string
    decreases |ws|
  {
    if |ws| == 0 then "" else Join(ws[..|ws| - 1]) + ws[|ws| - 1] + " "
  }

  lemma {:induction false} JoinCons(w: string, ws: seq<string>)
    ensures Join([w] + ws) == w + " " + Join(ws)
    decreases |ws|
  {
    if |ws| == 0 {
      assert ([w] + ws)[..0] == [];
    } else {
      var ws' := ws[..|ws| - 1];
      JoinCons(w, ws');
      assert ([w] + ws)[..|ws|] == [w] + ws';
    }
  }

  /** The texts of a run of word tokens. */
  function Texts(toks: seq<Token>): (r: seq<string>)
    requires forall i :: 0 <= i < |toks| ==> toks[i].Word?
    ensures |r| == |toks| && forall i :: 0 <= i < |toks| ==> r[i] == toks[i].text
  {
    seq(|toks|, i requires 0 <= i < |toks| => toks[i].text)
  }

  /**
   * The body of the `readScores` loop for one line: name "" and score 0 to
   * start with; the words before the first `int` make the name, and that
   * `int`, if any, is the score.
   */
  function ParseLine(toks: seq<Token>): (s: Score)
    ensures s.name == Join(Texts(toks[..FirstInt(toks)]))
    ensures s.score == if FirstInt(toks) < |toks| then toks[FirstInt(toks)].n else 0
    decreases |toks|
  {
    if |toks| == 0 then Score("", 0)
    else match toks[0]
      case Int(n) => Score("", n)
      case Word(w) =>
        var r := ParseLine(toks[1..]);
        var k := FirstInt(toks[1..]);
        assert toks[..k + 1] == [toks[0]] + toks[1..][..k];
        assert Texts(toks[..k + 1]) == [w] + Texts(toks[1..][..k]);
        JoinCons(w, Texts(toks[1..][..k]));
        Score(w + " " + r.name, r.score)
  }

  /** A run of word tokens. */
  function Words(ws: seq<string>): (toks: seq<Token>)
    ensures |toks| == |ws| && forall i :: 0 <= i < |ws| ==> toks[i] == Word(ws[i])
  {
    seq(|ws|, i requires 0 <= i < |ws| => Word(ws[i]))
  }

  // ------------------------------------------------------ the score file

  /** The tokens that can make up a name: non-empty, without spaces, not readable as an `int`. */
  predicate NameWords(ws: seq<string>) {
    forall i :: 0 <= i < |ws| ==> |ws[i]| > 0 && NoSpace(ws[i]) && ParseInt(ws[i]).None?
  }

  /**
   * A score as reading a line can produce it: an `int` score, and a name
   * made of its own tokens, none of which reads as an `int`, each followed
   * by one space.
   */
  predicate Readable(s: Score) {
    IntMin <= s.score <= IntMax && NameWords(Split(s.name)) && Join(Split(s.name)) == s.name
  }

  /** `toString()`: the name, a space, the score. */
  function ToString(s: Score): string {
    s.name + " " + DecimalString(s.score)
  }

  /** The line starts with the name and a space and is never blank. */
  lemma ToStringShape(s: Score)
    ensures var t := ToString(s);
      |t| > |s.name| + 1 && t[..|s.name|] == s.name && t[|s.name|] == ' ' && !Blank(t)
  {
    var t := ToString(s);
    assert !IsSpace(t[|t| - 1]);
  }

  /** The text after the name's space reads back as the score, for every `int` score. */
  lemma ScoreTextReadsBack(s: Score)
    requires IntMin <= s.score <= IntMax
    ensures ParseInt(ToString(s)[|s.name| + 1..]) == Some(s.score)
  {
    assert ToString(s)[|s.name| + 1..] == DecimalString(s.score);
    DecimalReadsBack(s.score);
  }

  /** Splitting the name's words followed by more text gives the words, then the rest's tokens. */
  lemma {:induction false} SplitJoined(ws: seq<string>, tail: string)
    requires forall i :: 0 <= i < |ws| ==> |ws[i]| > 0 && NoSpace(ws[i])
    ensures Split(Join(ws) + tail) == ws + Split(tail)
    decreases |ws|
  {
    if |ws| == 0 {
      assert Join(ws) + tail == tail;
    } else {
      var ws' := ws[..|ws| - 1];
      var w := ws[|ws| - 1];
      var tail' := w + (" " + tail);
      assert Join(ws) + tail == Join(ws') + tail';
      SplitJoined(ws', tail');
      SplitWord(w, " " + tail);
      SplitSpace(tail);
      assert ws == ws' + [w];
    }
  }

  /** A space and a number are one token. */
  lemma SplitScoreText(n: int)
    ensures Split(" " + DecimalString(n)) == [DecimalString(n)]
  {
    var d := DecimalString(n);
    SplitSpace(d);
    SplitWord(d, "");
    assert d + "" == d;
    assert [d] + Split("") == [d];
  }

  /** The written line of a score whose name is made of name words splits into those words, then the score. */
  lemma WrittenLineSplit(ws: seq<string>, n: int)
    requires NameWords(ws)
    ensures Split(ToString(Score(Join(ws), n))) == ws + [DecimalString(n)]
  {
    var d := DecimalString(n);
    assert ToString(Score(Join(ws), n)) == Join(ws) + (" " + d);
    assert forall i :: 0 <= i < |ws| ==> |ws[i]| > 0 && NoSpace(ws[i]);
    SplitJoined(ws, " " + d);
    SplitScoreText(n);
  }

  /** ... and lexes to its name's words, then its score. */
  lemma WrittenLineTokens(ws: seq<string>, n: int)
    requires NameWords(ws) && IntMin <= n <= IntMax
    ensures Lex(ToString(Score(Join(ws), n))) == Words(ws) + [Int(n)]
  {
    var line := ToString(Score(Join(ws), n));
    WrittenLineSplit(ws, n);
    DecimalReadsBack(n);
    var toks := Lex(line);
    var expected := Words(ws) + [Int(n)];
    forall i | 0 <= i < |toks|
      ensures toks[i] == expected[i]
    {
      if i < |ws| {
        assert Split(line)[i] == ws[i];
      } else {
        assert Split(line)[i] == DecimalString(n);
      }
    }
  }

  /** The parse of a line of name words and then an `int` is that name and that score. */
  lemma ParseWordsThenInt(ws: seq<string>, n: int)
    ensures ParseLine(Words(ws) + [Int(n)]) == Score(Join(ws), n)
  {
    var toks := Words(ws) + [Int(n)];
    var k := FirstInt(toks);
    assert toks[|ws|].Int?;
    assert k <= |ws|;
    assert k >= |ws| by {
      assert forall i :: 0 <= i < |ws| ==> toks[i].Word?;
    }
    assert toks[..k] == Words(ws);
    assert Texts(toks[..k]) == ws;
  }

  /** A readable score written by `writeScores` is read back by `readScores` as itself. */
  lemma WrittenLineReadsBack(s: Score)
    requires Readable(s)
    ensures ParseLine(Lex(ToString(s))) == s
  {
    var ws := Split(s.name);
    WrittenLineTokens(ws, s.score);
    ParseWordsThenInt(ws, s.score);
  }

  /** Whatever line is read, the score it gives is readable: reading is idempotent on its own output. */
  lemma ReadLineIsReadable(line: string)
    ensures Readable(ParseLine(Lex(line)))
  {
    var toks := Lex(line);
    var k := FirstInt(toks);
    var ws := Texts(toks[..k]);
    var s := ParseLine(toks);
    forall i | 0 <= i < |ws|
      ensures |ws[i]| > 0 && NoSpace(ws[i]) && ParseInt(ws[i]).None?
    {
      assert toks[i] == TokenOf(Split(line)[i]);
    }
    assert s.name == Join(ws);
    SplitJoined(ws, "");
    assert Join(ws) + "" == Join(ws);
    assert Split(s.name) == ws;
    if k < |toks| {
      assert toks[k] == TokenOf(Split(line)[k]);
    }
  }

  /**
   * `readScores` on the lines of an existing file: one score per line up
   * to the last line holding a token, blank lines before it included.
   */
  function ReadLines(lines: seq<string>): (r: seq<Score>)
    ensures |r| <= |lines|
    decreases |lines|
  {
    if !HasNext(lines) then [] else [ParseLine(Lex(lines[0]))] + ReadLines(lines[1..])
  }

  /** Each score read is the parse of its own line. */
  lemma {:induction false} ReadLinesParseEach(lines: seq<string>)
    ensures var r := ReadLines(lines);
            forall k :: 0 <= k < |r| ==> r[k] == ParseLine(Lex(lines[k]))
    decreases |lines|
  {
    if HasNext(lines) {
      var tail := lines[1..];
      ReadLinesParseEach(tail);
      var rest := ReadLines(tail);
      var r := ReadLines(lines);
      assert r == [ParseLine(Lex(lines[0]))] + rest;
      forall k | 1 <= k < |r|
        ensures r[k] == ParseLine(Lex(lines[k]))
      {
        assert r[k] == rest[k - 1];
        assert lines[k] == tail[k - 1];
      }
    }
  }

  /**
   * Reading stops at the last line holding a token: the lines after it are
   * blank, and the last line read is not.
   */
  lemma {:induction false} ReadLinesStopAtLastToken(lines: seq<string>)
    ensures var r := ReadLines(lines);
            (|r| > 0 ==> !Blank(lines[|r| - 1])) &&
            forall k :: |r| <= k < |lines| ==> Blank(lines[k])
    decreases |lines|
  {
    if HasNext(lines) {
      var tail := lines[1..];
      ReadLinesStopAtLastToken(tail);
      var n := |ReadLines(tail)|;
      assert |ReadLines(lines)| == n + 1;
      forall k | n + 1 <= k < |lines|
        ensures Blank(lines[k])
      {
        assert lines[k] == tail[k - 1];
      }
      if n == 0 {
        var j :| 0 <= j < |lines| && !Blank(lines[j]);
        assert j == 0;
      } else {
        assert lines[n] == tail[n - 1];
      }
    }
  }

  /** `readScores()`: the list is cleared, and stays empty when the file is missing. */
  function ReadScores(file: Option<seq<string>>): (r: seq<Score>)
    ensures file.None? ==> r == []
    ensures file.Some? ==> r == ReadLines(file.value)
  {
    match file
    case None => []
    case Some(lines) => ReadLines(lines)
  }

  /** `writeScores()`: one `toString()` line per score, in list order. */
  function WriteScores(scores: seq<Score>): (lines: seq<string>)
    ensures |lines| == |scores| && forall k :: 0 <= k < |scores| ==> lines[k] == ToString(scores[k])
  {
    seq(|scores|, k requires 0 <= k < |scores| => ToString(scores[k]))
  }

  /** The line `writeScores` prints for `s` reads back as `s`. */
  predicate RoundTrips(s: Score) {
    ParseLine(Lex(ToString(s))) == s
  }

  /** The first written line reads back as the first score. */
  lemma WrittenHead(scores: seq<Score>)
    requires |scores| > 0 && RoundTrips(scores[0])
    ensures ReadLines(WriteScores(scores)) == [scores[0]] + ReadLines(WriteScores(scores[1..]))
  {
    var lines := WriteScores(scores);
    assert !Blank(lines[0]);
    assert HasNext(lines);
    assert lines[1..] == WriteScores(scores[1..]);
  }

  /** Scores whose lines read back, written and read back, are the same list, from any point on. */
  lemma {:induction false} WriteThenReadFrom(scores: seq<Score>, i: nat)
    requires i <= |scores|
    requires forall k :: 0 <= k < |scores| ==> RoundTrips(scores[k])
    ensures ReadLines(WriteScores(scores[i..])) == scores[i..]
    decreases |scores| - i
  {
    var rest := scores[i..];
    if i < |scores| {
      assert rest[0] == scores[i];
      WrittenHead(rest);
      assert rest[1..] == scores[i + 1..];
      WriteThenReadFrom(scores, i + 1);
      assert rest == [scores[i]] + scores[i + 1..];
    } else {
      assert WriteScores(rest) == [];
    }
  }

  /** Readable scores written and read back are the same list. */
  lemma WriteThenRead(scores: seq<Score>)
    requires forall k :: 0 <= k < |scores| ==> Readable(scores[k])
    ensures ReadLines(WriteScores(scores)) == scores
  {
    forall k | 0 <= k < |scores|
      ensures RoundTrips(scores[k])
    {
      WrittenLineReadsBack(scores[k]);
    }
    WriteThenReadFrom(scores, 0);
    assert scores[0..] == scores;
  }

  /** Reading a file, writing the list back and reading again gives the same list. */
  lemma ReadWriteRead(lines: seq<string>)
    ensures ReadLines(WriteScores(ReadLines(lines))) == ReadLines(lines)
  {
    var scores := ReadLines(lines);
    ReadLinesParseEach(lines);
    forall k | 0 <= k < |scores|
      ensures Readable(scores[k])
    {
      assert scores[k] == ParseLine(Lex(lines[k]));
      ReadLineIsReadable(lines[k]);
    }
    WriteThenRead(scores);
  }

  // ------------------------------------------------------------ addScore

  /**
   * `addScore(name, score)`: append, then `Collections.sort`, a stable
   * sort by `compareTo`: one longer, the old scores plus the new one,
   * highest first, and scores that tie in the order they had.
   */
  function AddScore(scores: seq<Score>, name: string, score: int): (r: seq<Score>)
    ensures |r| == |scores| + 1
    ensures multiset(r) == multiset(scores) + multiset{Score(name, score)}
    ensures forall i, j :: 0 <= i < j < |r| ==> r[i].score >= r[j].score
    ensures forall i, j :: 0 <= i < j < |r| ==> Compare(r[i], r[j]) <= 0
    ensures Ordering.StablySorted(r, scores + [Score(name, score)], Rank)
  {
    var all := scores + [Score(name, score)];
    Ordering.SortByKeyStable(all, Rank);
    var r := Ordering.SortByKey(all, Rank);
    assert forall i, j :: 0 <= i < j < |r| ==> Rank(r[i]) <= Rank(r[j]);
    r
  }

  // ------------------------------------------------- the high-score screen

  datatype Colour = White | Red

  /** The number of scores the screen lists, and the index of the "Menu!" entry after them. */
  function Shown(scores: seq<Score>): nat {
    if MaxScores < |scores| then MaxScores else |scores|
  }

  /** The entries for the first `n` scores: each score's `toString()` line in white. */
  function Listed(lines: seq<string>, n: nat, text: (string, Colour) -> Drawable): seq<Drawable>
    requires n <= |lines|
  {
    if n == 0 then [] else Listed(lines, n - 1, text) + [text(lines[n - 1], White)]
  }

  /** Entry `k` of the list is score `k`'s line. */
  lemma {:induction false} ListedAt(lines: seq<string>, n: nat, text: (string, Colour) -> Drawable, k: nat)
    requires n <= |lines| && k < n
    ensures |Listed(lines, n, text)| == n
    ensures Listed(lines, n, text)[k] == text(lines[k], White)
    decreases n
  {
    ListedLength(lines, n - 1, text);
    if k < n - 1 {
      ListedAt(lines, n - 1, text, k);
    }
  }

  lemma {:induction false} ListedLength(lines: seq<string>, n: nat, text: (string, Colour) -> Drawable)
    requires n <= |lines|
    ensures |Listed(lines, n, text)| == n
    decreases n
  {
    if n > 0 {
      ListedLength(lines, n - 1, text);
    }
  }

  /**
   * The entries `doState` adds: the `toString()` lines of the first six
   * scores (fewer when there are fewer), each drawn the same passive and
   * active, then "Menu!", white when passive and red when active. `text`
   * stands for the font rendering of `Text`. `target` is the value that
   * leaves the screen.
   */
  method ListScores(m: Menus.Menu, scores: seq<Score>, text: (string, Colour) -> Drawable)
    returns (r: Menus.Menu, target: int)
    requires Menus.Valid(m)
    ensures target == Shown(scores)
    ensures r.passive == m.passive + Listed(WriteScores(scores), target, text) + [text("Menu!", White)]
    ensures r.active == m.active + Listed(WriteScores(scores), target, text) + [text("Menu!", Red)]
    ensures r.gui == m.gui && r.title == m.title && r.position == m.position
    ensures Menus.Valid(r) && Menus.Count(r) == Menus.Count(m) + target + 1
  {
    r, target := ListLines(m, WriteScores(scores), text);
  }

  /** The loop of `ListScores`, over the lines the scores print as. */
  method ListLines(m: Menus.Menu, lines: seq<string>, text: (string, Colour) -> Drawable)
    returns (r: Menus.Menu, target: int)
    requires Menus.Valid(m)
    ensures target == (if MaxScores < |lines| then MaxScores else |lines|)
    ensures r.passive == m.passive + Listed(lines, target, text) + [text("Menu!", White)]
    ensures r.active == m.active + Listed(lines, target, text) + [text("Menu!", Red)]
    ensures r.gui == m.gui && r.title == m.title && r.position == m.position
    ensures Menus.Valid(r) && Menus.Count(r) == Menus.Count(m) + target + 1
  {
    r := m;
    var i := 0;
    while i < MaxScores
      invariant 0 <= i <= MaxScores && i <= |lines|
      invariant r.passive == m.passive + Listed(lines, i, text) && r.active == m.active + Listed(lines, i, text)
      invariant r.gui == m.gui && r.title == m.title && r.position == m.position
    {
      if i >= |lines| {
        break;
      }
      var entry := text(lines[i], White);
      r := Menus.AddEntry(r, entry, entry);
      i := i + 1;
    }
    target := if MaxScores < |lines| then MaxScores else |lines|;
    ListedLength(lines, target, text);
    r := Menus.AddEntry(r, text("Menu!", White), text("Menu!", Red));
  }

  /**
   * On a menu without entries, which is how the constructor makes it and
   * how each visit leaves it, the "Menu!" entry sits exactly at `target`,
   * after the scores' lines.
   */
  lemma MenuEntryIsTarget(m: Menus.Menu, scores: seq<Score>, text: (string, Colour) -> Drawable, r: Menus.Menu, target: int)
    requires Menus.Valid(m) && Menus.Count(m) == 0
    requires target == Shown(scores)
    requires r.passive == m.passive + Listed(WriteScores(scores), target, text) + [text("Menu!", White)]
    requires r.active == m.active + Listed(WriteScores(scores), target, text) + [text("Menu!", Red)]
    ensures Menus.Count(r) == target + 1 && target <= MaxScores
    ensures r.passive[target] == text("Menu!", White) && r.active[target] == text("Menu!", Red)
    ensures forall k :: 0 <= k < target ==> r.passive[k] == r.active[k] == text(ToString(scores[k]), White)
  {
    var lines := WriteScores(scores);
    var listed := Listed(lines, target, text);
    ListedLength(lines, target, text);
    forall k | 0 <= k < target
      ensures listed[k] == text(ToString(scores[k]), White)
    {
      ListedAt(lines, target, text, k);
    }
    assert m.passive == [] && m.active == [];
    assert m.passive + listed == listed;
    assert m.active + listed == listed;
  }

  /**
   * How `doState` ends once "Menu!" is chosen: the menu's sections and
   * entries are emptied, so the next visit starts from a menu without
   * entries as `MenuEntryIsTarget` needs, and the main menu runs next.
   */
  function Leave(m: Menus.Menu): (r: (Menus.Menu, int))
    requires Menus.Valid(m)
    ensures Menus.Valid(r.0) && Menus.Count(r.0) == 0
    ensures r.0.title == m.title && r.0.gui.padding == m.gui.padding
    ensures r.1 == Dispatch.MainMenu && Dispatch.Switch(r.1, false, false).Some?
  {
    (Menus.ClearEntries(Menus.Clear(m)), Dispatch.MainMenu)
  }
}
