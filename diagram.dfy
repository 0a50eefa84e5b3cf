/**
 * `result_to_matrix`: the text diagram printed when a harness is not found.
 *
 * A header line, then for each unit one row per source pin and a blank line.
 * A row is the pin number as an upper-case hex digit, two spaces, the west
 * cells, two spaces, the east cells. A cell is two characters: two spaces for
 * a line that read high, and for a line that read low " -" when the row has
 * exactly one low line across both units (a clean 1:1 wire) and " *" otherwise.
 */
module Diagram {
  import opened Readings
  import opened HexFormat
  import opened Blocks

  const DigitRow: string := "0 1 2 3 4 5 6 7 8 9 A B C D E F"

  /** "    0 1 2 3 4 5 6 7 8 9 A B C D E F   0 1 2 3 4 5 6 7 8 9 A B C D E F" */
  const Header: string := "    " + DigitRow + "   " + DigitRow

  /** `west.count(true) + east.count(true)` */
  function LowCount(r: Reading): nat
  {
    multiset(r.west)[true] + multiset(r.east)[true]
  }

  /** '-' for a clean 1:1 wire, '*' for a row that is open or shorted. */
  function Glyph(r: Reading): char
  {
    if LowCount(r) == 1 then '-' else '*'
  }

  function Mark(r: Reading): string
  {
    [' ', Glyph(r)]
  }

  function Cell(low: bool, mark: string): string
  {
    if low then mark else "  "
  }

  /** `v.map { |v| v ? mark : "  " }.join` */
  function Cells(v: Vector, mark: string): string
  {
    if v == [] then "" else Cell(v[0], mark) + Cells(v[1..], mark)
  }

  /** `["%X" % i, west cells, east cells].join("  ")` */
  function Row(i: nat, r: Reading): string
  {
    FormatUpper(i) + "  " + Cells(r.west, Mark(r)) + "  " + Cells(r.east, Mark(r))
  }

  /** The rows of one unit, then its blank line. */
  function UnitLines(unit: seq<Reading>): seq<string>
  {
    RowLines(unit) + [""]
  }

  function BodyLines(units: ScanResult): seq<string>
  {
    if units == [] then [] else BodyLines(units[..|units| - 1]) + UnitLines(units[|units| - 1])
  }

  /** The lines of the diagram, without their line breaks. */
  function DiagramLines(result: ScanResult): seq<string>
  {
    [Header] + BodyLines(result)
  }

  /** Each line followed by "\n". */
  function Unlines(lines: seq<string>): string
  {
    if lines == [] then "" else Unlines(lines[..|lines| - 1]) + lines[|lines| - 1] + "\n"
  }

  /** `result_to_matrix`: grows the text line by line, unit by unit. */
  method ResultToMatrix(result: ScanResult) returns (matrix: string)
    ensures matrix == Unlines(DiagramLines(result))
  {
    matrix := "";
    matrix := matrix + Header + "\n";
    UnlinesSnoc([], Header);
    var u := 0;
    while u < |result|
      invariant 0 <= u <= |result|
      invariant matrix == Unlines([Header] + BodyLines(result[..u]))
    {
      var unit := result[u];
      ghost var before := [Header] + BodyLines(result[..u]);
      ghost var rows := RowLines(unit);
      var i := 0;
      assert before + rows[..0] == before;
      while i < |unit|
        invariant 0 <= i <= |unit|
        invariant matrix == Unlines(before + rows[..i])
      {
        var line := Row(i, unit[i]);
        LinesStep(before, rows, i);
        matrix := matrix + line + "\n";
        i := i + 1;
      }
      UnlinesSnoc(before + rows, "");
      matrix := matrix + "\n";
      BodyLinesStep(result, u);
      assert rows[..|unit|] == rows;
      u := u + 1;
    }
    assert result[..|result|] == result;
  }

  function RowLines(unit: seq<Reading>): seq<string>
  {
    seq(|unit|, i requires 0 <= i < |unit| => Row(i, unit[i]))
  }

  lemma {:induction false} UnlinesSnoc(lines: seq<string>, line: string)
    ensures Unlines(lines + [line]) == Unlines(lines) + line + "\n"
  {
    assert (lines + [line])[..|lines|] == lines;
  }

  lemma {:induction false} LinesStep(before: seq<string>, rows: seq<string>, i: nat)
    requires i < |rows|
    ensures Unlines(before + rows[..i + 1]) == Unlines(before + rows[..i]) + rows[i] + "\n"
  {
    assert before + rows[..i + 1] == (before + rows[..i]) + [rows[i]];
    UnlinesSnoc(before + rows[..i], rows[i]);
  }

  lemma {:induction false} BodyLinesStep(result: ScanResult, u: nat)
    requires u < |result|
    ensures [Header] + BodyLines(result[..u + 1]) == [Header] + BodyLines(result[..u]) + RowLines(result[u]) + [""]
  {
    assert result[..u + 1][..u] == result[..u];
  }

  /** With no line break inside any line, the text has exactly one "\n" per line. */
  lemma {:induction false} UnlinesBreaks(lines: seq<string>)
    requires forall i :: 0 <= i < |lines| ==> '\n' !in lines[i]
    ensures multiset(Unlines(lines))['\n'] == |lines|
  {
    if lines != [] {
      UnlinesBreaks(lines[..|lines| - 1]);
      assert multiset(lines[|lines| - 1])['\n'] == 0;
    }
  }

  lemma {:induction false} BodyLinesShape(units: ScanResult)
    requires forall u :: 0 <= u < |units| ==> |units[u]| == 16
    ensures |BodyLines(units)| == 17 * |units|
    ensures forall u, i :: 0 <= u < |units| && 0 <= i < 16 ==> BodyLines(units)[17 * u + i] == Row(i, units[u][i])
    ensures forall u :: 0 <= u < |units| ==> BodyLines(units)[17 * u + 16] == ""
  {
    if units != [] {
      var init := units[..|units| - 1];
      BodyLinesShape(init);
      var n := |init|;
      var last := UnitLines(units[n]);
      assert BodyLines(units) == BodyLines(init) + last;
      forall u, i | 0 <= u < |units| && 0 <= i < 16
        ensures BodyLines(units)[17 * u + i] == Row(i, units[u][i])
      {
        if u < n {
          assert units[u] == init[u];
        }
      }
    }
  }

  /** A scan's diagram has 35 lines: the header, then per unit 16 rows and a blank line. */
  lemma {:induction false} DiagramShape(result: ScanResult)
    requires WellShaped(result)
    ensures |DiagramLines(result)| == 35
    ensures DiagramLines(result)[0] == Header
    ensures forall u, i :: 0 <= u < 2 && 0 <= i < 16 ==> DiagramLines(result)[1 + 17 * u + i] == Row(i, result[u][i])
    ensures DiagramLines(result)[17] == "" && DiagramLines(result)[34] == ""
  {
    BodyLinesShape(result);
    assert DiagramLines(result)[17] == BodyLines(result)[17 * 0 + 16];
    assert DiagramLines(result)[34] == BodyLines(result)[17 * 1 + 16];
  }

  lemma {:induction false} HeaderNoBreak()
    ensures |Header| == 69 && '\n' !in Header
  {
    assert DigitRow == "0 1 2 3 " + "4 5 6 7 " + "8 9 A B " + "C D E F";
    assert '\n' !in "0 1 2 3 ";
    assert '\n' !in "4 5 6 7 ";
    assert '\n' !in "8 9 A B ";
    assert '\n' !in "C D E F";
  }

  lemma {:induction false} CellsLength(v: Vector, mark: string)
    requires |mark| == 2
    ensures |Cells(v, mark)| == 2 * |v|
  {
    if v != [] {
      CellsLength(v[1..], mark);
    }
  }

  /** Cell j of a line's cells is the two characters at offset 2j. */
  lemma {:induction false} CellAt(v: Vector, mark: string, j: nat)
    requires |mark| == 2 && j < |v|
    ensures 2 * j + 2 <= |Cells(v, mark)| && Cells(v, mark)[2 * j..2 * j + 2] == Cell(v[j], mark)
    decreases j
  {
    CellsLength(v, mark);
    var head, rest := Cell(v[0], mark), Cells(v[1..], mark);
    assert Cells(v, mark) == head + rest && |head| == 2;
    if j == 0 {
      SliceOfFront(head, rest, 0, 2);
    } else {
      CellAt(v[1..], mark, j - 1);
      SliceOfRight(head, rest, 2 * (j - 1), 2 * (j - 1) + 2);
      assert v[1..][j - 1] == v[j];
    }
  }

  /** The cells of a vector are two characters per line, cell j at offset 2j. */
  lemma {:induction false} CellsLayout(v: Vector, mark: string)
    requires |mark| == 2
    ensures |Cells(v, mark)| == 2 * |v|
    ensures forall j :: 0 <= j < |v| ==> Cells(v, mark)[2 * j..2 * j + 2] == Cell(v[j], mark)
  {
    CellsLength(v, mark);
    forall j | 0 <= j < |v|
      ensures Cells(v, mark)[2 * j..2 * j + 2] == Cell(v[j], mark)
    {
      CellAt(v, mark, j);
    }
  }

  /** The cells of a vector show the glyph once per low line and nothing else
      but spaces. */
  lemma {:induction false} CellsGlyphs(v: Vector, g: char, c: char)
    requires g != ' ' && c != ' '
    ensures multiset(Cells(v, [' ', g]))[c] == if c == g then multiset(v)[true] else 0
  {
    if v != [] {
      CellsGlyphs(v[1..], g, c);
      assert v == [v[0]] + v[1..];
      assert multiset(v)[true] == multiset([v[0]])[true] + multiset(v[1..])[true];
    }
  }

  lemma {:induction false} HexHasNo(s: string, c: char)
    requires forall i :: 0 <= i < |s| ==> IsHexDigit(s[i])
    requires !IsHexDigit(c)
    ensures multiset(s)[c] == 0
  {
  }

  /** A row holds the glyph once per low line of the row and no other mark:
      a clean 1:1 row shows exactly one '-', any other row shows no '-' and
      one '*' per low line, and a row with no low line shows neither. */
  lemma {:induction false} RowGlyphs(i: nat, r: Reading)
    ensures multiset(Row(i, r))['-'] == if LowCount(r) == 1 then 1 else 0
    ensures multiset(Row(i, r))['*'] == if LowCount(r) == 1 then 0 else LowCount(r)
    ensures multiset(Row(i, r))['\n'] == 0
  {
    RowCount(i, r, '-');
    RowCount(i, r, '*');
    RowCount(i, r, '\n');
  }

  /** A character other than a space or a hex digit appears in a row once per
      low line if it is the row's glyph, and not at all otherwise. */
  lemma {:induction false} RowCount(i: nat, r: Reading, c: char)
    requires c != ' ' && !IsHexDigit(c)
    ensures multiset(Row(i, r))[c] == if c == Glyph(r) then LowCount(r) else 0
  {
    DigitsRoundTrip(i, true);
    HexHasNo(FormatUpper(i), c);
    CellsGlyphs(r.west, Glyph(r), c);
    CellsGlyphs(r.east, Glyph(r), c);
    assert multiset("  ")[c] == 0;
  }

  /** A scan row is 69 characters: the pin's hex digit, two spaces, 16 west
      cells, two spaces, 16 east cells: as long as the header line. */
  lemma {:induction false} RowLayout(i: nat, r: Reading)
    requires i < 16 && |r.west| == 16 && |r.east| == 16
    ensures |Row(i, r)| == |Header| == 69
    ensures Row(i, r)[0] == DigitChar(i, true) && Row(i, r)[1..3] == "  " && Row(i, r)[35..37] == "  "
    ensures Row(i, r)[3..35] == Cells(r.west, Mark(r)) && Row(i, r)[37..] == Cells(r.east, Mark(r))
  {
    var mark := Mark(r);
    CellsLength(r.west, mark);
    CellsLength(r.east, mark);
    HeaderNoBreak();
    assert FormatUpper(i) == [DigitChar(i, true)];
    LineParts(FormatUpper(i), Cells(r.west, mark), Cells(r.east, mark));
  }

  /** The five parts of a row and where each sits. */
  lemma {:induction false} LineParts(f: string, west: string, east: string)
    requires |f| == 1 && |west| == 32 && |east| == 32
    ensures |f + "  " + west + "  " + east| == 69
    ensures (f + "  " + west + "  " + east)[0] == f[0]
    ensures (f + "  " + west + "  " + east)[1..3] == "  " && (f + "  " + west + "  " + east)[35..37] == "  "
    ensures (f + "  " + west + "  " + east)[3..35] == west && (f + "  " + west + "  " + east)[37..] == east
  {
    var s := f + "  " + west + "  " + east;
    SliceOfFront(f + "  " + west + "  ", east, 1, 3);
    SliceOfFront(f + "  " + west, "  ", 1, 3);
    SliceOfFront(f + "  ", west, 1, 3);
    SliceOfRight(f, "  ", 0, 2);
    SliceOfFront(f + "  " + west + "  ", east, 3, 35);
    SliceOfFront(f + "  " + west, "  ", 3, 35);
    SliceOfRight(f + "  ", west, 0, 32);
    SliceOfFront(f + "  " + west + "  ", east, 35, 37);
    SliceOfRight(f + "  " + west, "  ", 0, 2);
    SliceOfRight(f + "  " + west + "  ", east, 0, 32);
  }

  /** Each cell is two spaces for a line that reads high and the row's mark
      for one that reads low. */
  lemma {:induction false} RowCells(i: nat, r: Reading, j: nat)
    requires i < 16 && |r.west| == 16 && |r.east| == 16 && j < 16
    ensures |Row(i, r)| == 69
    ensures Row(i, r)[3 + 2 * j..5 + 2 * j] == Cell(r.west[j], Mark(r))
    ensures Row(i, r)[37 + 2 * j..39 + 2 * j] == Cell(r.east[j], Mark(r))
  {
    var mark := Mark(r);
    var prefix := FormatUpper(i) + "  ";
    assert |prefix| == 3;
    LineCells(prefix, r.west, r.east, mark, j);
  }

  /** The cell layout of a row, whatever its mark: a 3-character prefix, 16
      cells, two spaces, 16 cells. */
  lemma {:induction false} LineCells(prefix: string, w: Vector, e: Vector, mark: string, j: nat)
    requires |prefix| == 3 && |mark| == 2 && |w| == 16 && |e| == 16 && j < 16
    ensures |prefix + Cells(w, mark) + "  " + Cells(e, mark)| == 69
    ensures (prefix + Cells(w, mark) + "  " + Cells(e, mark))[3 + 2 * j..5 + 2 * j] == Cell(w[j], mark)
    ensures (prefix + Cells(w, mark) + "  " + Cells(e, mark))[37 + 2 * j..39 + 2 * j] == Cell(e[j], mark)
  {
    var west, east := Cells(w, mark), Cells(e, mark);
    CellsLayout(w, mark);
    CellsLayout(e, mark);
    SliceOfFront(prefix + west + "  ", east, 3 + 2 * j, 5 + 2 * j);
    SliceOfFront(prefix + west, "  ", 3 + 2 * j, 5 + 2 * j);
    SliceOfRight(prefix, west, 2 * j, 2 * j + 2);
    SliceOfRight(prefix + west + "  ", east, 2 * j, 2 * j + 2);
  }

  /** The diagram of a scan is 35 lines of text. */
  lemma {:induction false} DiagramBreaks(result: ScanResult)
    requires WellShaped(result)
    ensures multiset(Unlines(DiagramLines(result)))['\n'] == 35
  {
    DiagramShape(result);
    var lines := DiagramLines(result);
    forall k | 0 <= k < |lines|
      ensures '\n' !in lines[k]
    {
      if k == 0 {
        HeaderNoBreak();
      } else if k == 17 || k == 34 {
      } else {
        var u := if k < 17 then 0 else 1;
        var i := k - 1 - 17 * u;
        assert lines[k] == Row(i, result[u][i]);
        RowGlyphs(i, result[u][i]);
      }
    }
    UnlinesBreaks(lines);
  }
}
