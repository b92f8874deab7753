/**
 * The mark-sheet route: `POST` validates the student's name, stores the
 * request, and draws the page with a cursor `y` that moves down block by
 * block, skipping rows once it falls below 120. Each method is proved to
 * produce exactly the closed-form page of `Layout`.
 */
module FormRoute {
  import opened Wrappers
  import opened JsBuiltins
  import opened Grading
  import opened Marksheet
  import opened Layout

  /** The request body: JSON that failed to parse (with the parser's
      message), or `{student, subjects}` with either key possibly absent. */
  datatype Request =
    | Unparsable(reason: string)
    | Body(student: Option<StudentInput>, subjects: Option<seq<SubjectInput>>)

  /** What the record store answered to the create call. */
  datatype StoreOutcome = Stored | StoreFailed(message: string)

  /** The record the route stores: the request's student and subjects as sent. */
  datatype FormData = FormData(studentJson: StudentInput, subjectsJson: seq<SubjectInput>)

  /** A JSON error with its status, or the PDF attachment: the record that
      was stored, the page drawn and the download name. */
  datatype Response =
    | JsonError(status: int, error: string)
    | PdfAttachment(saved: FormData, page: seq<Draw>, filename: string)

  /** `err.message || "Failed to process"` */
  function FailureMessage(message: string): string
  {
    if message != "" then message else "Failed to process"
  }

  /** One header row: `tx` walks the column grid and each non-empty caption
      is drawn `dx` points into its column. */
  method DrawHeaderRow(captions: seq<string>, dx: int, y: int, size: int) returns (texts: seq<Draw>)
    requires |captions| == Columns
    ensures texts == HeaderTexts(captions, dx, y, size, Columns)
  {
    texts := [];
    var tx := TableLeft;
    var i := 0;
    while i < Columns
      invariant 0 <= i <= Columns
      invariant tx == ColumnX(i)
      invariant texts == HeaderTexts(captions, dx, y, size, i)
    {
      if captions[i] != "" {
        texts := texts + [Text((tx + dx) as real, y, captions[i], Bold, size, Black)];
      }
      tx := tx + ColWidths[i];
      i := i + 1;
    }
  }

  /** The six marks of a subject, each read with `Number(x) || 0`. */
  method ReadMarks(sub: SubjectInput) returns (m: Marks)
    ensures m == RowMarks(sub)
  {
    var thF := Coerce(sub.theoryFull);
    var prF := Coerce(sub.practicalFull);
    var thP := Coerce(sub.theoryPass);
    var prP := Coerce(sub.practicalPass);
    var thO := Coerce(sub.theoryObtained);
    var prO := Coerce(sub.practicalObtained);
    m := Marks(thF, thP, thO, prF, prP, prO);
  }

  /** One subject's row at height `y`, from the marks read for it: the
      eight cell texts and the pass flag, then the cells drawn. */
  method DrawRow(sub: SubjectInput, m: Marks, y: int) returns (texts: seq<Draw>)
    requires m == RowMarks(sub)
    ensures texts == RowTexts(RowOf(sub), y)
  {
    var totO := m.theoryObtained + m.practicalObtained;
    var isPass := totO >= m.theoryPass + m.practicalPass;
    var cells := [ToUpper(OrDefault(sub.subjectName, "—")),
      DashIfZero(m.theoryFull), DashIfZero(m.practicalFull), DashIfZero(m.theoryPass), DashIfZero(m.practicalPass),
      DashIfZero(m.theoryObtained), DashIfZero(m.practicalObtained), IntToString(totO)];
    assert cells == Cells(sub.subjectName, m);
    assert RowCells(cells, isPass) == RowOf(sub);
    texts := DrawCells(cells, isPass, y);
  }

  /** The cells left to right, the cursor moving by each column's width: the
      name 10 points in, the total 2 points in, a mark centred by its
      estimated width but at least 5 points in. */
  method DrawCells(cells: seq<string>, isPass: bool, y: int) returns (texts: seq<Draw>)
    requires |cells| == Columns
    ensures texts == RowTexts(RowCells(cells, isPass), y)
  {
    ghost var row: Row := RowCells(cells, isPass);
    texts := [];
    var tx := TableLeft;
    var i := 0;
    while i < Columns
      invariant 0 <= i <= Columns
      invariant tx == ColumnX(i)
      invariant texts == RowTexts(row, y)[..i]
    {
      var padx: real;
      if i == 0 {
        padx := 10.0;
      } else if i == Columns - 1 {
        padx := (ColWidths[i] - 60) as real;
      } else {
        padx := Max(5.0, (ColWidths[i] as real - |cells[i]| as real * 6.2) / 2.0);
      }
      var font := if i == 0 || i == Columns - 1 then Bold else Regular;
      var color := if i == Columns - 1 && !isPass then Red else Black;
      texts := texts + [Text(tx as real + padx, y, cells[i], font, 10, color)];
      tx := tx + ColWidths[i];
      i := i + 1;
    }
    assert texts == RowTexts(row, y)[..Columns];
  }

  /** The subject rows from `FirstRowY` down: a subject is drawn, and its
      totals added to the grand totals, only while the cursor is at or
      above 120; later subjects are skipped. */
  method DrawRows(subjects: seq<SubjectInput>) returns (texts: seq<Draw>, y: int, grandFull: int, grandObt: int)
    ensures texts == Rows(RowsOf(subjects), Drawn(|subjects|))
    ensures y == RowY(Drawn(|subjects|))
    ensures grandFull == GrandFull(DrawnMarks(subjects))
    ensures grandObt == GrandObtained(DrawnMarks(subjects))
  {
    ghost var d := 0;
    ghost var ms := MarksOf(subjects);
    ghost var rows := RowsOf(subjects);
    texts := [];
    y := FirstRowY;
    grandFull := 0;
    grandObt := 0;
    var i := 0;
    while i < |subjects|
      invariant 0 <= i <= |subjects|
      invariant d == Drawn(i)
      invariant y == RowY(d)
      invariant texts == Rows(rows, d)
      invariant grandFull == GrandFull(ms[..d])
      invariant grandObt == GrandObtained(ms[..d])
    {
      if y >= RowFloor {
        DrawnStep(i, d);
        MarksOfAt(subjects, i);
        var m := ReadMarks(subjects[i]);
        grandFull, grandObt := AddTotals(m, grandFull, grandObt, ms, d);
        texts := AppendRow(subjects[i], m, y, texts, rows, d);
        y := y - RowHeight;
        d := d + 1;
      } else {
        SkipStep(i, d);
      }
      i := i + 1;
    }
  }

  /** The subject's two totals added to the running grand totals. */
  method AddTotals(m: Marks, grandFull: int, grandObt: int, ghost ms: seq<Marks>, ghost d: nat)
    returns (grandFull': int, grandObt': int)
    requires d < |ms| && ms[d] == m
    requires grandFull == GrandFull(ms[..d]) && grandObt == GrandObtained(ms[..d])
    ensures grandFull' == GrandFull(ms[..d + 1]) && grandObt' == GrandObtained(ms[..d + 1])
  {
    PrefixStep(ms, d);
    grandFull' := grandFull + (m.theoryFull + m.practicalFull);
    grandObt' := grandObt + (m.theoryObtained + m.practicalObtained);
  }

  /** The subject's row appended below the rows drawn so far. */
  method AppendRow(sub: SubjectInput, m: Marks, y: int, texts: seq<Draw>, ghost rows: seq<Row>, ghost d: nat)
    returns (texts': seq<Draw>)
    requires d < |rows| && rows[d] == RowOf(sub) && m == RowMarks(sub)
    requires y == RowY(d) && texts == Rows(rows, d)
    ensures texts' == Rows(rows, d + 1)
  {
    var row := DrawRow(sub, m, y);
    texts' := texts + row;
  }

  /** A row is drawn while the cursor is at or above the floor, so the
      subject is the next row. */
  lemma DrawnStep(i: nat, d: nat)
    requires d == Drawn(i) && RowY(d) >= RowFloor
    ensures d == i && Drawn(i + 1) == d + 1
  {
  }

  /** The grand totals of one more subject add that subject's totals. */
  lemma PrefixStep(ms: seq<Marks>, d: nat)
    requires d < |ms|
    ensures GrandFull(ms[..d + 1]) == GrandFull(ms[..d]) + TotalFull(ms[d])
    ensures GrandObtained(ms[..d + 1]) == GrandObtained(ms[..d]) + TotalObtained(ms[d])
  {
    assert ms[..d + 1][..d] == ms[..d];
  }

  /** Below the floor, the next subject leaves the drawn count as it was. */
  lemma SkipStep(i: nat, d: nat)
    requires d == Drawn(i) && RowY(d) < RowFloor
    ensures Drawn(i + 1) == d
  {
  }

  /** The grand-total line, 40 points below the last row. */
  method DrawTotals(y: int, grandFull: int, grandObt: int, ghost d: nat, ghost ms: seq<Marks>) returns (texts: seq<Draw>)
    requires y == TotalsY(d) && grandFull == GrandFull(ms) && grandObt == GrandObtained(ms)
    ensures texts == TotalsBlock(d, ms)
  {
    var perc := PercentText(grandObt, grandFull);
    var result := ResultOf(grandObt);
    texts := [
      Text(70.0, y, "GRAND TOTAL : " + IntToString(grandObt) + " / " + IntToString(grandFull), Bold, 12, Black),
      Text(280.0, y, "Percentage : " + perc + "%", Bold, 12, Black),
      Text(440.0, y, "RESULT : " + VerdictText(result), Bold, 13, if result == Pass then Green else Red)];
  }

  /** The table for a non-empty list: the two header rows, the rows, the
      totals. Returns the cursor left below the totals. */
  method DrawTable(subjects: seq<SubjectInput>) returns (texts: seq<Draw>, y: int)
    requires subjects != []
    ensures texts == Table(subjects)
    ensures y == TotalsY(Drawn(|subjects|))
  {
    y := HeaderY;
    var head := DrawHeaderRow(Headers, 10, y, 11);
    y := y - 20;
    var sub := DrawHeaderRow(SubHeaders, 18, y, 10);
    y := y - 22;
    var rows, grandFull, grandObt;
    rows, y, grandFull, grandObt := DrawRows(subjects);
    y := y - 40;
    var totals := DrawTotals(y, grandFull, grandObt, Drawn(|subjects|), DrawnMarks(subjects));
    texts := head + sub + rows + totals;
  }

  /** The title and the student block, from the top of the page down to
      the table's header row. */
  method DrawHeading(student: StudentInput) returns (texts: seq<Draw>, y: int)
    requires student.name.Some?
    ensures texts == TitleBlock() + StudentBlock(student)
    ensures y == HeaderY
  {
    y := 780;
    texts := [Text(110.0, y, Institution, Bold, 14, Black)];
    y := y - 35;
    texts := texts + [Text(235.0, y, "Mark-Sheet", Bold, 20, Accent)];
    y := y - 55;
    texts := texts + [Text(60.0, y, "Marks Secured by: " + ToUpper(student.name.value), Regular, 11, Black)];
    y := y - 20;
    texts := texts + [
      Text(60.0, y, "Symbol No.: " + OrDefault(student.symbolNumber, "N/A"), Regular, 11, Black),
      Text(320.0, y, "Registration No.: " + OrDefault(student.registrationNumber, "N/A"), Regular, 11, Black)];
    y := y - 22;
    texts := texts + [
      Text(60.0, y, "School: " + OrDefault(student.school, "N/A"), Regular, 11, Black),
      Text(380.0, y, "Grade: " + OrDefault(student.grade, "11"), Regular, 11, Black)];
    y := y - 45;
  }

  /** The signature lines, drawn only when the cursor is still above 100. */
  method DrawSignature(y: int) returns (texts: seq<Draw>)
    ensures texts == SignatureBlock(y)
    ensures texts != [] <==> y > SignatureFloor
  {
    texts := [];
    if y > SignatureFloor {
      texts := [
        Line(80, 240, y), Line(340, 500, y),
        Text(110.0, y - 15, "Checked by", Regular, 10, Black),
        Text(360.0, y - 15, "Controller of Examinations", Regular, 10, Black)];
    }
  }

  /** The whole page for a student whose name passed validation. */
  method DrawMarksheet(student: StudentInput, subjects: seq<SubjectInput>) returns (page: seq<Draw>)
    requires student.name.Some?
    ensures page == MarksheetPage(student, subjects)
  {
    var y;
    page, y := DrawHeading(student);
    var body: seq<Draw>;
    if |subjects| == 0 {
      body := [Text(200.0, y, "No subjects entered", Regular, 14, Black)];
    } else {
      body, y := DrawTable(subjects);
    }
    assert body == PageBody(subjects);
    y := y - 80;
    assert y == SignatureY(|subjects|);
    var signature := DrawSignature(y);
    page := page + body + signature;
  }

  /** `POST /api/form`: reject a missing or blank name with 400 before
      anything is stored or drawn; otherwise store the request, draw the
      page and attach it under the student's file name. Failures of the JSON
      parser or of the store become 500 with their message. */
  method Post(req: Request, store: StoreOutcome) returns (resp: Response)
    ensures req.Unparsable? ==> resp == JsonError(500, FailureMessage(req.reason))
    ensures req.Body? && NameMissing(req.student) ==>
      resp == JsonError(400, "Student name is required")
    ensures req.Body? && !NameMissing(req.student) && store.StoreFailed? ==>
      resp == JsonError(500, FailureMessage(store.message))
    ensures req.Body? && !NameMissing(req.student) && store.Stored? ==>
      var student := req.student.value;
      var subjects := req.subjects.GetOr([]);
      resp == PdfAttachment(FormData(student, subjects), MarksheetPage(student, subjects), Filename(student.name))
  {
    if req.Unparsable? {
      return JsonError(500, FailureMessage(req.reason));
    }
    var subjects := req.subjects.GetOr([]);
    if NameMissing(req.student) {
      return JsonError(400, "Student name is required");
    }
    var student := req.student.value;

    if store.StoreFailed? {
      return JsonError(500, FailureMessage(store.message));
    }
    var record := FormData(student, subjects);

    var page := DrawMarksheet(student, subjects);
    resp := PdfAttachment(record, page, Filename(student.name));
  }
}
