/**
 * The mark-sheet page as a sequence of draw instructions on one fixed
 * 595 x 842 point page, given in closed form: every block at the height the
 * route's cursor reaches it, every column at the sum of the widths before it.
 * The route itself (FormRoute) is proved to emit exactly this sequence.
 */
module Layout {
  import opened Wrappers
  import opened JsBuiltins
  import opened Grading
  import opened Marksheet

  datatype Font = Regular | Bold

  /** Black, the title's blue `rgb(0, 0.2, 0.6)`, red `rgb(0.9, 0, 0)` and green `rgb(0, 0.6, 0)`. */
  datatype Color = Black | Accent | Red | Green

  /** `page.drawText` and a one-point horizontal `page.drawLine`. */
  datatype Draw =
    | Text(x: real, y: int, text: string, font: Font, size: int, color: Color)
    | Line(x1: int, x2: int, y: int)

  const PageWidth := 595
  const PageHeight := 842

  // ---------------------------------------------------------------------------
  // The table grid
  // ---------------------------------------------------------------------------

  const Columns := 8
  const TableLeft := 45
  const ColWidths: seq<int> := [140, 48, 48, 48, 48, 52, 52, 62]
  const Headers: seq<string> :=
    ["SUBJECTS", "FULL MARKS", "", "PASS MARKS", "", "MARKS OBTAINED", "", "TOTAL"]
  const SubHeaders: seq<string> := ["", "TH", "PR", "TH", "PR", "TH", "PR", ""]

  /** Left edge of column `i`: the table's left edge plus the widths of the columns before it. */
  function ColumnX(i: nat): int
    requires i <= Columns
  {
    if i == 0 then TableLeft else ColumnX(i - 1) + ColWidths[i - 1]
  }

  lemma ColumnOrigins()
    ensures ColumnX(0) == 45 && ColumnX(1) == 185 && ColumnX(2) == 233 && ColumnX(3) == 281
    ensures ColumnX(4) == 329 && ColumnX(5) == 377 && ColumnX(6) == 429 && ColumnX(7) == 481
    ensures ColumnX(8) == 543 && ColumnX(8) < PageWidth
  {
  }

  /** The label texts of one header row over the first `n` columns, each `dx`
      points into its column; an empty label draws nothing but its column
      still takes its width. */
  function HeaderTexts(labels: seq<string>, dx: int, y: int, size: int, n: nat): seq<Draw>
    requires n <= |labels| == Columns
  {
    if n == 0 then []
    else
      var caption := labels[n - 1];
      var drawn := if caption != "" then [Text((ColumnX(n - 1) + dx) as real, y, caption, Bold, size, Black)] else [];
      HeaderTexts(labels, dx, y, size, n - 1) + drawn
  }

  /** The merged-group row and the TH/PR row under it. */
  lemma HeaderRowsPlacement()
    ensures HeaderTexts(Headers, 10, 603, 11, Columns) == [
      Text(55.0, 603, "SUBJECTS", Bold, 11, Black),
      Text(195.0, 603, "FULL MARKS", Bold, 11, Black),
      Text(291.0, 603, "PASS MARKS", Bold, 11, Black),
      Text(387.0, 603, "MARKS OBTAINED", Bold, 11, Black),
      Text(491.0, 603, "TOTAL", Bold, 11, Black)]
    ensures HeaderTexts(SubHeaders, 18, 583, 10, Columns) == [
      Text(203.0, 583, "TH", Bold, 10, Black), Text(251.0, 583, "PR", Bold, 10, Black),
      Text(299.0, 583, "TH", Bold, 10, Black), Text(347.0, 583, "PR", Bold, 10, Black),
      Text(395.0, 583, "TH", Bold, 10, Black), Text(447.0, 583, "PR", Bold, 10, Black)]
  {
    ColumnOrigins();
  }

  // ---------------------------------------------------------------------------
  // One subject row
  // ---------------------------------------------------------------------------

  /** `v || "-"` for a mark: 0 shows as a dash. */
  function DashIfZero(v: int): string
  {
    if v == 0 then "-" else IntToString(v)
  }

  /** The mark shown in numeric column `c` (1 to 6): full, pass and obtained
      marks, theory before practical. */
  function MarkInColumn(m: Marks, c: nat): int
    requires 1 <= c <= 6
  {
    match c
    case 1 => m.theoryFull
    case 2 => m.practicalFull
    case 3 => m.theoryPass
    case 4 => m.practicalPass
    case 5 => m.theoryObtained
    case _ => m.practicalObtained
  }

  /** The eight cell texts of a row for a subject called `name` with marks `m`. */
  function Cells(name: Option<string>, m: Marks): (cells: seq<string>)
    ensures |cells| == Columns
  {
    [ToUpper(OrDefault(name, "—")),
     DashIfZero(m.theoryFull), DashIfZero(m.practicalFull),
     DashIfZero(m.theoryPass), DashIfZero(m.practicalPass),
     DashIfZero(m.theoryObtained), DashIfZero(m.practicalObtained),
     IntToString(TotalObtained(m))]
  }

  /** A mark shows as a dash exactly when it is zero, and otherwise as text
      that reads back as the mark. */
  lemma DashIfZeroShows(v: int)
    ensures DashIfZero(v) == "-" <==> v == 0
    ensures v != 0 ==> ParseDecimal(DashIfZero(v)) == Some(v)
  {
    if v != 0 {
      IntToStringRoundTrip(v);
    }
  }

  lemma CellOfMark(name: Option<string>, m: Marks, c: nat)
    requires 1 <= c <= 6
    ensures Cells(name, m)[c] == DashIfZero(MarkInColumn(m, c))
  {
  }

  /** A mark cell shows a dash exactly for a zero mark, and otherwise text
      that reads back as the mark. */
  lemma MarkCellShows(name: Option<string>, m: Marks, c: nat)
    requires 1 <= c <= 6
    ensures Cells(name, m)[c] == "-" <==> MarkInColumn(m, c) == 0
    ensures Cells(name, m)[c] != "-" ==> ParseDecimal(Cells(name, m)[c]) == Some(MarkInColumn(m, c))
  {
    CellOfMark(name, m, c);
    DashIfZeroShows(MarkInColumn(m, c));
  }

  /** The name cell is the upper-cased name, or a dash glyph when there is
      none; the total cell always shows the obtained total as a number, zero
      included. */
  lemma NameAndTotalCellsShow(name: Option<string>, m: Marks)
    ensures Cells(name, m)[0] == ToUpper(OrDefault(name, "—"))
    ensures ParseDecimal(Cells(name, m)[Columns - 1]) == Some(TotalObtained(m))
  {
    IntToStringRoundTrip(TotalObtained(m));
  }

  function Max(a: real, b: real): real
  {
    if a >= b then a else b
  }

  /** Horizontal padding of a cell inside its column: 10 for the name, 2 for
      the total, and an estimate of centring (6.2 points per character, at
      least 5) for the marks. */
  function CellPad(i: nat, cell: string): real
    requires i < Columns
  {
    if i == 0 then 10.0
    else if i == Columns - 1 then (ColWidths[i] - 60) as real
    else Max(5.0, (ColWidths[i] as real - |cell| as real * 6.2) / 2.0)
  }

  /** A mark cell starts at least 5 points into its column and no further
      than its middle, and when its estimated width leaves 5 points on each
      side it is centred exactly. */
  lemma CellPadCentres(i: nat, cell: string)
    requires 1 <= i < Columns - 1
    ensures 5.0 <= CellPad(i, cell) <= ColWidths[i] as real / 2.0
    ensures ColWidths[i] as real - |cell| as real * 6.2 >= 10.0 ==>
      CellPad(i, cell) + |cell| as real * 6.2 + CellPad(i, cell) == ColWidths[i] as real
  {
  }

  function CellFont(i: nat): Font
  {
    if i == 0 || i == Columns - 1 then Bold else Regular
  }

  /** What a subject's row shows: its eight cell texts, and whether the
      subject is passed, which colours its total. */
  datatype RowCells = RowCells(cells: seq<string>, passed: bool)

  /** A row has exactly one text per column. */
  type Row = r: RowCells | |r.cells| == Columns
    witness RowCells(["", "", "", "", "", "", "", ""], false)

  function RowOf(sub: SubjectInput): Row
  {
    var m := RowMarks(sub);
    RowCells(Cells(sub.subjectName, m), Passed(m))
  }

  /** The text of cell `i` of a row at height `y`; the total is red when the
      subject is failed. */
  function CellText(row: Row, y: int, i: nat): Draw
    requires i < Columns
  {
    var cell := row.cells[i];
    Text(ColumnX(i) as real + CellPad(i, cell), y, cell, CellFont(i), 10,
      if i == Columns - 1 && !row.passed then Red else Black)
  }

  /** The eight cell texts of a row at height `y`, left to right. */
  function RowTexts(row: Row, y: int): (r: seq<Draw>)
    ensures |r| == Columns
    ensures forall i :: 0 <= i < Columns ==> r[i] == CellText(row, y, i)
  {
    seq(Columns, i requires 0 <= i < Columns => CellText(row, y, i))
  }

  /** Only the total cell is ever red, and it is red exactly when the
      subject's obtained total is below its pass marks. */
  lemma RowColours(sub: SubjectInput, y: int)
    ensures RowTexts(RowOf(sub), y)[Columns - 1].color == Red <==> !Passed(RowMarks(sub))
    ensures forall i :: 0 <= i < Columns - 1 ==> RowTexts(RowOf(sub), y)[i].color == Black
  {
    assert RowTexts(RowOf(sub), y)[Columns - 1] == CellText(RowOf(sub), y, Columns - 1);
  }

  // ---------------------------------------------------------------------------
  // Rows, overflow and the blocks below them
  // ---------------------------------------------------------------------------

  const HeaderY := 603
  const SubHeaderY := 583
  const FirstRowY := 561
  const RowHeight := 24
  /** A row is skipped when the cursor has fallen below this height. */
  const RowFloor := 120
  /** The signature block needs the cursor above this height. */
  const SignatureFloor := 100
  const MaxRows := 19

  /** Height of the `k`-th drawn row (from 0). */
  function RowY(k: nat): int
  {
    FirstRowY - RowHeight * k
  }

  /** How many of `n` subjects get a row: all while the cursor stays at or
      above 120, that is at most 19. */
  function Drawn(n: nat): (d: nat)
    ensures d <= n && d <= MaxRows
  {
    if n <= MaxRows then n else MaxRows
  }

  /** Subject `k` gets a row exactly when the row would sit at or above the floor. */
  lemma DrawnIffAboveFloor(n: nat, k: nat)
    requires k < n
    ensures k < Drawn(n) <==> RowY(k) >= RowFloor
  {
  }

  /** The rows of all the subjects, in order. */
  function RowsOf(subjects: seq<SubjectInput>): (rows: seq<Row>)
    ensures |rows| == |subjects|
    ensures forall k :: 0 <= k < |subjects| ==> rows[k] == RowOf(subjects[k])
  {
    seq(|subjects|, k requires 0 <= k < |subjects| => RowOf(subjects[k]))
  }

  /** The texts of the first `d` rows, row `k` at its own height. */
  function Rows(rows: seq<Row>, d: nat): seq<Draw>
    requires d <= |rows|
  {
    if d == 0 then [] else Rows(rows, d - 1) + RowTexts(rows[d - 1], RowY(d - 1))
  }

  /** Row `k` holds the eight cells of subject `k`, at height 561 - 24k. */
  lemma {:induction false} RowsAt(rows: seq<Row>, d: nat, k: nat, c: nat)
    requires d <= |rows| && k < d && c < Columns
    ensures |Rows(rows, d)| == Columns * d
    ensures Rows(rows, d)[Columns * k + c] == CellText(rows[k], RowY(k), c)
  {
    RowsLength(rows, d - 1);
    if k < d - 1 {
      RowsAt(rows, d - 1, k, c);
    }
  }

  lemma {:induction false} RowsLength(rows: seq<Row>, d: nat)
    requires d <= |rows|
    ensures |Rows(rows, d)| == Columns * d
  {
    if d > 0 {
      RowsLength(rows, d - 1);
    }
  }

  /** The rows drawn depend on nothing but the rows they are drawn for. */
  lemma {:induction false} RowsOnPrefix(rows: seq<Row>, d: nat, e: nat)
    requires d <= e <= |rows|
    ensures Rows(rows, d) == Rows(rows[..e], d)
  {
    if d > 0 {
      RowsOnPrefix(rows, d - 1, e);
      assert rows[..e][d - 1] == rows[d - 1];
    }
  }

  /** The rows of a prefix of the subjects are a prefix of their rows. */
  lemma RowsOfTake(subjects: seq<SubjectInput>, e: nat)
    requires e <= |subjects|
    ensures RowsOf(subjects[..e]) == RowsOf(subjects)[..e]
  {
  }

  /** The marks of the subjects that got a row. */
  function DrawnMarks(subjects: seq<SubjectInput>): seq<Marks>
  {
    MarksOf(subjects)[..Drawn(|subjects|)]
  }

  /** Height of the totals block below `d` rows. */
  function TotalsY(d: nat): int
  {
    RowY(d) - 40
  }

  /** GRAND TOTAL, percentage and RESULT for the marks `ms` of the drawn rows. */
  function TotalsBlock(d: nat, ms: seq<Marks>): seq<Draw>
  {
    var s := Summarize(ms);
    [Text(70.0, TotalsY(d), "GRAND TOTAL : " + IntToString(s.grandObtained) + " / " + IntToString(s.grandFull), Bold, 12, Black),
     Text(280.0, TotalsY(d), "Percentage : " + s.percentage + "%", Bold, 12, Black),
     Text(440.0, TotalsY(d), "RESULT : " + VerdictText(s.result), Bold, 13, if s.result == Pass then Green else Red)]
  }

  /** Height of the signature rules for `n` subjects. */
  function SignatureY(n: nat): int
  {
    if n == 0 then HeaderY - 80 else TotalsY(Drawn(n)) - 80
  }

  /** Two rules with their captions, or nothing when the cursor is not above 100. */
  function SignatureBlock(y: int): seq<Draw>
  {
    if y > SignatureFloor then
      [Line(80, 240, y), Line(340, 500, y),
       Text(110.0, y - 15, "Checked by", Regular, 10, Black),
       Text(360.0, y - 15, "Controller of Examinations", Regular, 10, Black)]
    else []
  }

  const Institution := "OFFICE OF THE CONTROLLER OF EXAMINATIONS"

  function TitleBlock(): seq<Draw>
  {
    [Text(110.0, 780, Institution, Bold, 14, Black),
     Text(235.0, 745, "Mark-Sheet", Bold, 20, Accent)]
  }

  /** The student's name upper-cased, the other details or their defaults. */
  function StudentBlock(student: StudentInput): seq<Draw>
    requires student.name.Some?
  {
    [Text(60.0, 690, "Marks Secured by: " + ToUpper(student.name.value), Regular, 11, Black),
     Text(60.0, 670, "Symbol No.: " + OrDefault(student.symbolNumber, "N/A"), Regular, 11, Black),
     Text(320.0, 670, "Registration No.: " + OrDefault(student.registrationNumber, "N/A"), Regular, 11, Black),
     Text(60.0, 648, "School: " + OrDefault(student.school, "N/A"), Regular, 11, Black),
     Text(380.0, 648, "Grade: " + OrDefault(student.grade, "11"), Regular, 11, Black)]
  }

  const NoSubjects := Text(200.0, HeaderY, "No subjects entered", Regular, 14, Black)

  /** The table: both header rows, the rows that fit, and the totals of those rows. */
  function Table(subjects: seq<SubjectInput>): seq<Draw>
  {
    var d := Drawn(|subjects|);
    HeaderTexts(Headers, 10, HeaderY, 11, Columns) + HeaderTexts(SubHeaders, 18, SubHeaderY, 10, Columns) +
    Rows(RowsOf(subjects), d) + TotalsBlock(d, DrawnMarks(subjects))
  }

  /** What sits between the student's details and the signature. */
  function PageBody(subjects: seq<SubjectInput>): seq<Draw>
  {
    if subjects == [] then [NoSubjects] else Table(subjects)
  }

  /** The whole page for a student with a name and a list of subjects. */
  function MarksheetPage(student: StudentInput, subjects: seq<SubjectInput>): seq<Draw>
    requires student.name.Some?
  {
    TitleBlock() + StudentBlock(student) + PageBody(subjects) + SignatureBlock(SignatureY(|subjects|))
  }
}
