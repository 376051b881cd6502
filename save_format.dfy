// The text of a saved game and the way loadGame reads it back, with the Java
// library calls it relies on (BufferedReader.readLine, String.split,
// Integer.parseInt, Boolean.parseBoolean, Integer/Boolean.toString) written
// out as string functions. Everything here is pure; the file handles are not
// modelled: saving produces the text, loading consumes it.
module SaveFormat {
  import opened Options
  import opened Pieces
  import opened GameRules

  // ------------------------------------------------------------- booleans

  /** String.valueOf(boolean). */
  function BoolText(b: bool): string {
    if b then "true" else "false"
  }

  /** ASCII lower-casing, all that equalsIgnoreCase("true") needs. */
  function Lower(ch: char): char {
    if 'A' <= ch <= 'Z' then (ch as int + 32) as char else ch
  }

  /** Boolean.parseBoolean: true exactly for "true" in any letter case. */
  predicate ParseBool(s: string) {
    |s| == 4 && Lower(s[0]) == 't' && Lower(s[1]) == 'r' && Lower(s[2]) == 'u' && Lower(s[3]) == 'e'
  }

  /** parseBoolean reads back what String.valueOf wrote. */
  lemma ParseBoolText(b: bool)
    ensures ParseBool(BoolText(b)) == b
  {
  }

  /** Any spelling of "true" other than the four letters is false: in
      particular "1", "yes" and the empty string. */
  lemma ParseBoolExamples()
    ensures ParseBool("TRUE") && ParseBool("True") && ParseBool("tRuE")
    ensures !ParseBool("1") && !ParseBool("yes") && !ParseBool("") && !ParseBool(" true")
  {
  }

  // -------------------------------------------------------------- integers

  /** The range of a Java int. */
  predicate IsInt32(n: int) {
    -0x8000_0000 <= n < 0x8000_0000
  }

  predicate IsDigit(ch: char) {
    '0' <= ch <= '9'
  }

  predicate AllDigits(s: string) {
    forall i :: 0 <= i < |s| ==> IsDigit(s[i])
  }

  function DigitChar(d: nat): char
    requires d < 10
  {
    ('0' as int + d) as char
  }

  /** The decimal digits of n, most significant first, without leading zeros. */
  function DigitsOf(n: nat): (s: string)
    ensures |s| > 0
    ensures forall i :: 0 <= i < |s| ==> IsDigit(s[i])
  {
    if n < 10 then [DigitChar(n)] else DigitsOf(n / 10) + [DigitChar(n % 10)]
  }

  function DigitValue(ch: char): nat
    requires IsDigit(ch)
  {
    ch as int - '0' as int
  }

  /** The value of a string of decimal digits. */
  function ValueOf(s: string): nat
    requires forall i :: 0 <= i < |s| ==> IsDigit(s[i])
  {
    if |s| == 0 then 0 else ValueOf(s[..|s| - 1]) * 10 + DigitValue(s[|s| - 1])
  }

  /** Integer.toString: a minus sign for negatives, then the digits. */
  function IntText(n: int): string {
    if n < 0 then "-" + DigitsOf(-n) else DigitsOf(n)
  }

  /** Integer.parseInt: an optional '+' or '-', then at least one decimal digit,
      and a value that fits in an int; anything else is a NumberFormatException,
      here None. */
  function ParseInt(s: string): (r: Option<int>)
    ensures r.Some? ==> IsInt32(r.value)
  {
    if |s| == 0 then None
    else
      var signed := s[0] == '-' || s[0] == '+';
      var digits := if signed then s[1..] else s;
      if |digits| == 0 || !AllDigits(digits) then None
      else
        var v: int := if s[0] == '-' then -(ValueOf(digits) as int) else ValueOf(digits);
        if IsInt32(v) then Some(v) else None
  }

  lemma {:induction false} ValueOfDigits(n: nat)
    ensures ValueOf(DigitsOf(n)) == n
  {
    if n >= 10 {
      ValueOfDigits(n / 10);
      var s := DigitsOf(n);
      assert s[..|s| - 1] == DigitsOf(n / 10);
    }
  }

  /** parseInt reads back every int that Integer.toString wrote. */
  lemma ParseIntText(n: int)
    requires IsInt32(n)
    ensures ParseInt(IntText(n)) == Some(n)
  {
    var s := IntText(n);
    if n < 0 {
      ValueOfDigits(-n);
      assert s[1..] == DigitsOf(-n);
    } else {
      ValueOfDigits(n);
    }
  }

  /** Leading zeros and a plus sign are accepted. */
  lemma ParseIntAccepts()
    ensures ParseInt("007") == Some(7) && ParseInt("+3") == Some(3) && ParseInt("-12") == Some(-12)
  {
    assert ValueOf("007") == 7 by {
      assert "007"[..2] == "00" && "00"[..1] == "0";
    }
    assert ValueOf("3") == 3;
    assert ValueOf("12") == 12 by {
      assert "12"[..1] == "1";
    }
    assert "-12"[1..] == "12" && "+3"[1..] == "3";
  }

  /** An empty string, a lone sign and a non-digit are rejected. */
  lemma ParseIntRejects()
    ensures ParseInt("") == None && ParseInt("-") == None && ParseInt("1a") == None
  {
    var bad := "1a";
    assert bad[0] != '-' && bad[0] != '+' && !IsDigit(bad[1]);
    assert "-"[1..] == "";
  }

  // ----------------------------------------------------------- String.split

  /** The fields between commas, including empty ones: always one more than the
      number of commas. */
  function RawSplit(s: string): (parts: seq<string>)
    ensures |parts| >= 1
  {
    if |s| == 0 then [""]
    else if s[0] == ',' then [""] + RawSplit(s[1..])
    else
      var rest := RawSplit(s[1..]);
      [[s[0]] + rest[0]] + rest[1..]
  }

  function DropTrailingEmpty(parts: seq<string>): seq<string> {
    if |parts| > 0 && parts[|parts| - 1] == "" then DropTrailingEmpty(parts[..|parts| - 1]) else parts
  }

  /** String.split(","): a string without a comma is its own single field (even
      the empty string); otherwise the fields between commas with trailing
      empty fields removed, so ",,," splits into no fields at all. */
  function Split(s: string): seq<string> {
    if ',' !in s then [s] else DropTrailingEmpty(RawSplit(s))
  }

  /** The fields joined with commas. */
  function JoinCommas(parts: seq<string>): string
    requires |parts| >= 1
  {
    if |parts| == 1 then parts[0] else parts[0] + "," + JoinCommas(parts[1..])
  }

  /** Four fields joined: the concatenation saveGame writes. */
  lemma JoinFour(a: string, b: string, c: string, d: string)
    ensures JoinCommas([a, b, c, d]) == a + "," + b + "," + c + "," + d
  {
    assert [a, b, c, d][1..] == [b, c, d];
    assert [b, c, d][1..] == [c, d];
    assert [c, d][1..] == [d];
    var tail := c + "," + d;
    assert JoinCommas([c, d]) == tail;
    assert JoinCommas([b, c, d]) == b + "," + tail;
    assert a + "," + (b + "," + tail) == a + "," + b + "," + c + "," + d;
  }

  lemma {:induction false} RawSplitPrefix(a: string, rest: string)
    requires ',' !in a
    ensures RawSplit(a + rest) == [a + RawSplit(rest)[0]] + RawSplit(rest)[1..]
  {
    var p := RawSplit(rest);
    if |a| > 0 {
      RawSplitPrefix(a[1..], rest);
      assert (a + rest)[0] == a[0] != ',';
      assert (a + rest)[1..] == a[1..] + rest;
      var q := RawSplit(a[1..] + rest);
      assert RawSplit(a + rest) == [[a[0]] + q[0]] + q[1..];
      assert q[0] == a[1..] + p[0] && q[1..] == p[1..];
      assert [a[0]] + (a[1..] + p[0]) == a + p[0];
    } else {
      assert a + rest == rest && a + p[0] == p[0];
      assert [p[0]] + p[1..] == p;
    }
  }

  lemma {:induction false} RawSplitJoin(parts: seq<string>)
    requires |parts| >= 1
    requires forall i :: 0 <= i < |parts| ==> ',' !in parts[i]
    ensures RawSplit(JoinCommas(parts)) == parts
  {
    if |parts| == 1 {
      RawSplitPrefix(parts[0], "");
      assert RawSplit("") == [""];
      assert parts[0] + "" == parts[0];
    } else {
      var tail := JoinCommas(parts[1..]);
      RawSplitJoin(parts[1..]);
      assert parts[0] + "," + tail == parts[0] + ("," + tail);
      RawSplitPrefix(parts[0], "," + tail);
      assert ("," + tail)[0] == ',' && ("," + tail)[1..] == tail;
      assert RawSplit("," + tail) == [""] + parts[1..];
      assert parts[0] + "" == parts[0];
      assert parts == [parts[0]] + parts[1..];
    }
  }

  /** split(",") takes apart what was joined with commas, as long as no field
      holds a comma, there are at least two fields, and the last is not empty. */
  lemma SplitJoin(parts: seq<string>)
    requires |parts| >= 2 && parts[|parts| - 1] != ""
    requires forall i :: 0 <= i < |parts| ==> ',' !in parts[i]
    ensures Split(JoinCommas(parts)) == parts
  {
    RawSplitJoin(parts);
    var s := JoinCommas(parts);
    assert s == parts[0] + "," + JoinCommas(parts[1..]);
    assert s[|parts[0]|] == ',';
  }

  /** A line made only of commas has only empty fields between them. */
  lemma {:induction false} RawSplitCommas(s: string)
    requires forall i :: 0 <= i < |s| ==> s[i] == ','
    ensures forall i :: 0 <= i < |RawSplit(s)| ==> RawSplit(s)[i] == ""
  {
    if |s| > 0 {
      RawSplitCommas(s[1..]);
    }
  }

  lemma {:induction false} DropAllEmpty(parts: seq<string>)
    requires forall i :: 0 <= i < |parts| ==> parts[i] == ""
    ensures DropTrailingEmpty(parts) == []
  {
    if |parts| > 0 {
      DropAllEmpty(parts[..|parts| - 1]);
    }
  }

  /** Java's treatment of empty fields: the empty line is one empty field, and
      a non-empty line of nothing but commas has no fields at all. */
  lemma SplitEmptyFields(s: string)
    requires forall i :: 0 <= i < |s| ==> s[i] == ','
    ensures Split(s) == (if |s| == 0 then [""] else [])
  {
    if |s| > 0 {
      assert s[0] in s;
      RawSplitCommas(s);
      DropAllEmpty(RawSplit(s));
    }
  }

  // ---------------------------------------------------- BufferedReader lines

  /** The first line and what follows its terminator; a line ends at "\n", at
      "\r" or at "\r\n", or at the end of the text. */
  function LineBreak(s: string): (r: (string, string))
    ensures |s| > 0 ==> |r.1| < |s|
  {
    if |s| == 0 then ("", "")
    else if s[0] == '\n' then ("", s[1..])
    else if s[0] == '\r' then (if |s| > 1 && s[1] == '\n' then ("", s[2..]) else ("", s[1..]))
    else
      var r := LineBreak(s[1..]);
      ([s[0]] + r.0, r.1)
  }

  /** The successive results of readLine until it returns null: a final
      terminator does not start another line. */
  function ReadLines(s: string): seq<string>
    decreases |s|
  {
    if |s| == 0 then [] else
      var r := LineBreak(s);
      [r.0] + ReadLines(r.1)
  }

  predicate NoBreaks(line: string) {
    '\n' !in line && '\r' !in line
  }

  /** Each line followed by "\n": what the writer puts in the file. */
  function Unlines(lines: seq<string>): string {
    if |lines| == 0 then "" else lines[0] + "\n" + Unlines(lines[1..])
  }

  /** Appending a line appends its text and a newline. */
  lemma {:induction false} UnlinesSnoc(lines: seq<string>, line: string)
    ensures Unlines(lines + [line]) == Unlines(lines) + line + "\n"
  {
    if |lines| > 0 {
      UnlinesSnoc(lines[1..], line);
      assert (lines + [line])[1..] == lines[1..] + [line];
    } else {
      assert lines + [line] == [line];
    }
  }

  lemma {:induction false} LineBreakOf(line: string, rest: string)
    requires NoBreaks(line)
    ensures LineBreak(line + "\n" + rest) == (line, rest)
  {
    if |line| > 0 {
      LineBreakOf(line[1..], rest);
      assert (line + "\n" + rest)[1..] == line[1..] + "\n" + rest;
      assert line == [line[0]] + line[1..];
    } else {
      assert line + "\n" + rest == "\n" + rest;
    }
  }

  /** readLine gives back the lines written, one per call. */
  lemma {:induction false} ReadLinesUnlines(lines: seq<string>)
    requires forall i :: 0 <= i < |lines| ==> NoBreaks(lines[i])
    ensures ReadLines(Unlines(lines)) == lines
  {
    if |lines| > 0 {
      ReadLinesUnlines(lines[1..]);
      LineBreakOf(lines[0], Unlines(lines[1..]));
    }
  }

  // ----------------------------------------------------------- save format

  /** The header line: "Is it Red's Turn," and the turn flag. */
  function Header(isRedTurn: bool): string {
    "Is it Red's Turn," + BoolText(isRedTurn)
  }

  /** One piece line: name, column, row and team, separated by commas. */
  function PieceLine(s: PieceState): string {
    JoinCommas([KindName(s.kind), IntText(s.col), IntText(s.row), BoolText(s.isRed)])
  }

  /** The lines of saveGame: the header, then one line per piece in list order. */
  function SaveLines(isRedTurn: bool, b: Board): seq<string> {
    [Header(isRedTurn)] + PieceLines(b)
  }

  /** One piece line per piece, in list order. */
  function PieceLines(b: Board): (lines: seq<string>)
    ensures |lines| == |b|
    ensures forall j :: 0 <= j < |b| ==> lines[j] == PieceLine(b[j])
  {
    seq(|b|, j requires 0 <= j < |b| => PieceLine(b[j]))
  }

  /** The text saveGame writes. */
  function SaveText(isRedTurn: bool, b: Board): string {
    Unlines(SaveLines(isRedTurn, b))
  }

  // ------------------------------------------------------------- load format

  /** The four leading fields of a piece line as loadGame reads them. */
  datatype SavedPiece = SavedPiece(name: string, col: int, row: int, isRed: bool)

  /** The parsing half of loadGame's loop body: split, then parts[0],
      parseInt(parts[1]), parseInt(parts[2]) and parseBoolean(parts[3]). A
      missing field (ArrayIndexOutOfBoundsException) or a bad number
      (NumberFormatException) is None; further fields are ignored. */
  function ParseLine(line: string): Option<SavedPiece> {
    var parts := Split(line);
    if |parts| < 2 then None
    else
      match ParseInt(parts[1])
      case None => None
      case Some(col) =>
        if |parts| < 3 then None
        else
          match ParseInt(parts[2])
          case None => None
          case Some(row) =>
            if |parts| < 4 then None
            else Some(SavedPiece(parts[0], col, row, ParseBool(parts[3])))
  }

  /** createPiece's switch on the name; an unknown name gives null, here None. */
  function KindOfName(name: string): (k: Option<Kind>)
    ensures k.Some? ==> KindName(k.value) == name
  {
    if name == "Ram" then Some(Ram)
    else if name == "Biz" then Some(Biz)
    else if name == "Tor" then Some(Tor)
    else if name == "Xor" then Some(Xor)
    else if name == "Sau" then Some(Sau)
    else None
  }

  /** Every kind's own name is recognised as that kind. */
  lemma KindOfNameOfKind(k: Kind)
    ensures KindOfName(KindName(k)) == Some(k)
  {
  }

  /** How a call of loadGame ends: normally, with the IOException caught
      (the file could not be read), or with an unchecked exception escaping
      (an empty file, a short header, a malformed piece line). */
  datatype LoadOutcome = Loaded | ReadFailed | Threw

  /** The turn flag and piece list loadGame leaves, and how it ended. */
  datatype LoadResult = LoadResult(outcome: LoadOutcome, isRedTurn: bool, board: Board)

  /** A piece built by createPiece and given flipped = !isRedTurn. */
  function LoadedPiece(k: Kind, p: SavedPiece, isRedTurn: bool): PieceState {
    Fresh(k, p.col, p.row, p.isRed).(flipped := !isRedTurn)
  }

  /** The while loop of loadGame over the remaining lines, with the pieces
      added so far in acc: a line that does not parse stops the load with the
      pieces added so far; a line with an unknown name is skipped. */
  function LoadBody(isRedTurn: bool, lines: seq<string>, acc: Board): (r: LoadResult)
    ensures r.outcome != ReadFailed && r.isRedTurn == isRedTurn
    ensures |acc| <= |r.board| && r.board[..|acc|] == acc
  {
    if |lines| == 0 then LoadResult(Loaded, isRedTurn, acc)
    else
      match ParseLine(lines[0])
      case None => LoadResult(Threw, isRedTurn, acc)
      case Some(p) =>
        match KindOfName(p.name)
        case None => LoadBody(isRedTurn, lines[1..], acc)
        case Some(k) =>
          var r := LoadBody(isRedTurn, lines[1..], acc + [LoadedPiece(k, p, isRedTurn)]);
          assert r.board[..|acc|] == (r.board[..|acc| + 1])[..|acc|];
          r
  }

  predicate StartsWithIs(line: string) {
    |line| >= 2 && line[0] == 'I' && line[1] == 's'
  }

  /** loadGame on the text of the file (None when it cannot be opened or
      read), starting from turn flag isRedTurn; the list has been cleared
      first. A missing first line (readLine returned null) throws; a header
      starting with "Is" needs a second field, which gives the turn; a first
      line not starting with "Is" keeps the turn and is not read as a piece.
      After the loop, a Blue turn toggles every orientation twice. */
  function LoadText(isRedTurn: bool, content: Option<string>): LoadResult {
    match content
    case None => LoadResult(ReadFailed, isRedTurn, [])
    case Some(text) =>
      var lines := ReadLines(text);
      if |lines| == 0 then LoadResult(Threw, isRedTurn, [])
      else
        var header := Split(lines[0]);
        if StartsWithIs(lines[0]) && |header| < 2 then LoadResult(Threw, isRedTurn, [])
        else
          var turn := if StartsWithIs(lines[0]) then ParseBool(header[1]) else isRedTurn;
          var r := LoadBody(turn, lines[1..], []);
          if r.outcome == Loaded && !turn then r.(board := ToggleAll(ToggleAll(r.board))) else r
  }

  /** The piece a saved piece loads back as: same kind, cell and team,
      orientation !isRedTurn, Ram direction reset. */
  function ReloadedPiece(isRedTurn: bool, s: PieceState): PieceState {
    Fresh(s.kind, s.col, s.row, s.isRed).(flipped := !isRedTurn)
  }

  function Reloaded(isRedTurn: bool, b: Board): Board {
    seq(|b|, j requires 0 <= j < |b| => ReloadedPiece(isRedTurn, b[j]))
  }

  /** Each piece line reads back as its piece's name, cell and team. */
  lemma ParsePieceLine(s: PieceState)
    requires IsInt32(s.col) && IsInt32(s.row)
    ensures ParseLine(PieceLine(s)) == Some(SavedPiece(KindName(s.kind), s.col, s.row, s.isRed))
  {
    var parts := [KindName(s.kind), IntText(s.col), IntText(s.row), BoolText(s.isRed)];
    assert forall i :: 0 <= i < |parts| ==> ',' !in parts[i] by {
      NoCommaInInt(s.col);
      NoCommaInInt(s.row);
    }
    SplitJoin(parts);
    ParseIntText(s.col);
    ParseIntText(s.row);
    ParseBoolText(s.isRed);
  }

  lemma {:induction false} JoinNoBreaks(parts: seq<string>)
    requires |parts| >= 1 && forall i :: 0 <= i < |parts| ==> NoBreaks(parts[i])
    ensures NoBreaks(JoinCommas(parts))
  {
    if |parts| > 1 {
      JoinNoBreaks(parts[1..]);
    }
  }

  lemma PieceLineNoBreaks(s: PieceState)
    ensures NoBreaks(PieceLine(s))
  {
    NoCommaInInt(s.col);
    NoCommaInInt(s.row);
    JoinNoBreaks([KindName(s.kind), IntText(s.col), IntText(s.row), BoolText(s.isRed)]);
  }

  lemma NoCommaInInt(n: int)
    ensures ',' !in IntText(n) && NoBreaks(IntText(n))
  {
    var d := DigitsOf(if n < 0 then -n else n);
    assert forall i :: 0 <= i < |d| ==> IsDigit(d[i]);
    if n < 0 {
      assert IntText(n) == "-" + d;
    }
  }

  /** One saved piece line adds its piece and the loop goes on. */
  lemma LoadBodyStep(isRedTurn: bool, s: PieceState, rest: seq<string>, acc: Board)
    requires IsInt32(s.col) && IsInt32(s.row)
    ensures LoadBody(isRedTurn, [PieceLine(s)] + rest, acc)
         == LoadBody(isRedTurn, rest, acc + [ReloadedPiece(isRedTurn, s)])
  {
    ParsePieceLine(s);
    KindOfNameOfKind(s.kind);
    assert ([PieceLine(s)] + rest)[1..] == rest;
  }

  lemma PieceLinesFirst(b: Board)
    requires |b| > 0
    ensures PieceLines(b) == [PieceLine(b[0])] + PieceLines(b[1..])
  {
    var lines, tail := PieceLines(b), PieceLines(b[1..]);
    assert forall j :: 1 <= j < |b| ==> lines[j] == tail[j - 1];
  }

  lemma ReloadedFirst(isRedTurn: bool, b: Board, acc: Board)
    requires |b| > 0
    ensures acc + [ReloadedPiece(isRedTurn, b[0])] + Reloaded(isRedTurn, b[1..]) == acc + Reloaded(isRedTurn, b)
  {
    var whole, rest := Reloaded(isRedTurn, b), Reloaded(isRedTurn, b[1..]);
    assert whole == [whole[0]] + rest;
  }

  lemma {:induction false} LoadBodyOfPieceLines(isRedTurn: bool, b: Board, acc: Board)
    requires forall j :: 0 <= j < |b| ==> IsInt32(b[j].col) && IsInt32(b[j].row)
    ensures LoadBody(isRedTurn, PieceLines(b), acc) == LoadResult(Loaded, isRedTurn, acc + Reloaded(isRedTurn, b))
  {
    if |b| == 0 {
      assert PieceLines(b) == [];
      assert acc + Reloaded(isRedTurn, b) == acc;
    } else {
      var next := acc + [ReloadedPiece(isRedTurn, b[0])];
      PieceLinesFirst(b);
      ReloadedFirst(isRedTurn, b, acc);
      LoadBodyStep(isRedTurn, b[0], PieceLines(b[1..]), acc);
      LoadBodyOfPieceLines(isRedTurn, b[1..], next);
    }
  }

  /** The header parses back to the saved turn flag. */
  lemma ReadHeader(isRedTurn: bool)
    ensures StartsWithIs(Header(isRedTurn))
    ensures |Split(Header(isRedTurn))| >= 2 && ParseBool(Split(Header(isRedTurn))[1]) == isRedTurn
  {
    assert Header(isRedTurn) == JoinCommas(["Is it Red's Turn", BoolText(isRedTurn)]);
    SplitJoin(["Is it Red's Turn", BoolText(isRedTurn)]);
    ParseBoolText(isRedTurn);
  }

  /** Reading the saved text line by line gives back the header and the piece lines. */
  lemma ReadSavedLines(isRedTurn: bool, b: Board)
    ensures ReadLines(SaveText(isRedTurn, b)) == SaveLines(isRedTurn, b)
  {
    var lines := SaveLines(isRedTurn, b);
    forall i | 0 <= i < |lines|
      ensures NoBreaks(lines[i])
    {
      if i > 0 {
        PieceLineNoBreaks(b[i - 1]);
      }
    }
    ReadLinesUnlines(lines);
  }

  /** Save/load round trip: loading the text of a save, whatever the turn flag
      beforehand, restores the saved turn flag and every piece's kind, cell and
      team in list order, with orientation !isRedTurn (the double flipImage
      for a Blue turn cancels out) and a Ram's direction flag reset. */
  lemma LoadSaved(isRedTurn: bool, b: Board, before: bool)
    requires forall j :: 0 <= j < |b| ==> IsInt32(b[j].col) && IsInt32(b[j].row)
    ensures LoadText(before, Some(SaveText(isRedTurn, b)))
         == LoadResult(Loaded, isRedTurn, Reloaded(isRedTurn, b))
  {
    var lines := SaveLines(isRedTurn, b);
    ReadSavedLines(isRedTurn, b);
    ReadHeader(isRedTurn);
    assert lines[1..] == PieceLines(b);
    LoadBodyOfPieceLines(isRedTurn, b, []);
    assert [] + Reloaded(isRedTurn, b) == Reloaded(isRedTurn, b);
    ToggleAllTwice(Reloaded(isRedTurn, b));
  }

  /** An unknown name is skipped without ending the load. */
  lemma UnknownNameSkipped(isRedTurn: bool, line: string, rest: seq<string>, acc: Board)
    requires ParseLine(line).Some? && KindOfName(ParseLine(line).value.name).None?
    ensures LoadBody(isRedTurn, [line] + rest, acc) == LoadBody(isRedTurn, rest, acc)
  {
    assert ([line] + rest)[1..] == rest;
  }

  /** A blank line stops the load: "" splits into one field, so parts[1] is
      missing; the pieces read before it stay. */
  lemma BlankLineThrows(isRedTurn: bool, rest: seq<string>, acc: Board)
    ensures LoadBody(isRedTurn, [""] + rest, acc) == LoadResult(Threw, isRedTurn, acc)
  {
  }

  /** An empty file throws (readLine returns null for the header) and leaves
      the list cleared. */
  lemma EmptyFileThrows(isRedTurn: bool)
    ensures LoadText(isRedTurn, Some("")) == LoadResult(Threw, isRedTurn, [])
  {
  }
}
