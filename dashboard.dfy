/**
 * The dashboard's form state: the list of subjects and how an edit, an
 * added row or a submission changes it, the running totals shown under the
 * table, the checks made before a mark-sheet is requested, and the arrow-key
 * navigation across the grid of subject inputs.
 */
module Dashboard {
  import opened Wrappers
  import opened JsBuiltins
  import opened Grading
  import opened Marksheet
  import Layout

  // ---------------------------------------------------------------------------
  // Form state
  // ---------------------------------------------------------------------------

  /** One row of the subject table as the browser keeps it: the name as
      typed and six numbers. */
  datatype Subject = Subject(
    subjectName: string,
    theoryFull: int, theoryPass: int, theoryObtained: int,
    practicalFull: int, practicalPass: int, practicalObtained: int)

  /** The five student inputs, as typed. */
  datatype Student = Student(
    name: string, symbolNumber: string, registrationNumber: string, school: string, grade: string)

  datatype Form = Form(student: Student, subjects: seq<Subject>)

  const BlankStudent := Student("", "", "", "", "")

  /** The row `addSubject` appends and the reset leaves behind. */
  const BlankSubject := Subject("", 0, 0, 0, 0, 0, 0)

  /** The state the page opens with and returns to after a saved mark-sheet. */
  const InitialForm := Form(BlankStudent, [BlankSubject])

  /** The keys of a subject, in the order `Object.keys` lists them. */
  datatype Field =
    SubjectName | TheoryFull | TheoryPass | TheoryObtained | PracticalFull | PracticalPass | PracticalObtained

  const FieldsPerRow := 7

  /** The position of a key in `Object.keys(sub)`. */
  function FieldIndex(f: Field): (k: nat)
    ensures k < FieldsPerRow
  {
    match f
    case SubjectName => 0
    case TheoryFull => 1
    case TheoryPass => 2
    case TheoryObtained => 3
    case PracticalFull => 4
    case PracticalPass => 5
    case PracticalObtained => 6
  }

  /** The key at a position of `Object.keys(sub)`. */
  function FieldAt(k: nat): (f: Field)
    requires k < FieldsPerRow
    ensures FieldIndex(f) == k
  {
    if k == 0 then SubjectName
    else if k == 1 then TheoryFull
    else if k == 2 then TheoryPass
    else if k == 3 then TheoryObtained
    else if k == 4 then PracticalFull
    else if k == 5 then PracticalPass
    else PracticalObtained
  }

  /** What one input cell of a row holds. */
  datatype FieldValue = Text(text: string) | Number(n: int)

  function Get(sub: Subject, f: Field): FieldValue
  {
    match f
    case SubjectName => Text(sub.subjectName)
    case TheoryFull => Number(sub.theoryFull)
    case TheoryPass => Number(sub.theoryPass)
    case TheoryObtained => Number(sub.theoryObtained)
    case PracticalFull => Number(sub.practicalFull)
    case PracticalPass => Number(sub.practicalPass)
    case PracticalObtained => Number(sub.practicalObtained)
  }

  /** Two rows that agree on every key are the same row. */
  lemma SubjectExtensionality(a: Subject, b: Subject)
    requires forall f :: Get(a, f) == Get(b, f)
    ensures a == b
  {
    assert Get(a, SubjectName) == Get(b, SubjectName);
    assert Get(a, TheoryFull) == Get(b, TheoryFull);
    assert Get(a, TheoryPass) == Get(b, TheoryPass);
    assert Get(a, TheoryObtained) == Get(b, TheoryObtained);
    assert Get(a, PracticalFull) == Get(b, PracticalFull);
    assert Get(a, PracticalPass) == Get(b, PracticalPass);
    assert Get(a, PracticalObtained) == Get(b, PracticalObtained);
  }

  // ---------------------------------------------------------------------------
  // Editing a cell and adding a row
  // ---------------------------------------------------------------------------

  /** What an edit stores from the input's text: the name verbatim, any other
      key `Number(value) || 0`, so a mark is never `NaN`. */
  function Stored(f: Field, value: string): (v: FieldValue)
    ensures f == SubjectName ==> v == Text(value)
    ensures f != SubjectName ==> v == Number(Coerce(Str(value)))
  {
    if f == SubjectName then Text(value) else Number(Coerce(Str(value)))
  }

  /** `{ ...sub, [field]: v }`: one key replaced, the others kept. */
  function WithField(sub: Subject, f: Field, v: FieldValue): (r: Subject)
    requires f == SubjectName <==> v.Text?
    ensures Get(r, f) == v
    ensures forall g :: g != f ==> Get(r, g) == Get(sub, g)
  {
    match f
    case SubjectName => sub.(subjectName := v.text)
    case TheoryFull => sub.(theoryFull := v.n)
    case TheoryPass => sub.(theoryPass := v.n)
    case TheoryObtained => sub.(theoryObtained := v.n)
    case PracticalFull => sub.(practicalFull := v.n)
    case PracticalPass => sub.(practicalPass := v.n)
    case PracticalObtained => sub.(practicalObtained := v.n)
  }

  /** `handleSubjectChange(index, field, value)`: the row at `index` gets the
      edit and every other row is kept; an index with no row changes nothing. */
  function HandleSubjectChange(subjects: seq<Subject>, index: int, f: Field, value: string): (r: seq<Subject>)
    ensures |r| == |subjects|
    ensures forall i :: 0 <= i < |r| && i != index ==> r[i] == subjects[i]
    ensures 0 <= index < |r| ==> Get(r[index], f) == Stored(f, value)
    ensures 0 <= index < |r| ==> forall g :: g != f ==> Get(r[index], g) == Get(subjects[index], g)
    ensures !(0 <= index < |subjects|) ==> r == subjects
  {
    seq(|subjects|, i requires 0 <= i < |subjects| =>
      if i == index then WithField(subjects[i], f, Stored(f, value)) else subjects[i])
  }

  /** Repeating an edit changes nothing more. */
  lemma SubjectChangeIdempotent(subjects: seq<Subject>, index: int, f: Field, value: string)
    ensures var once := HandleSubjectChange(subjects, index, f, value);
      HandleSubjectChange(once, index, f, value) == once
  {
    var once := HandleSubjectChange(subjects, index, f, value);
    var twice := HandleSubjectChange(once, index, f, value);
    if 0 <= index < |subjects| {
      SubjectExtensionality(twice[index], once[index]);
    }
  }

  /** Edits of two different cells can be made in either order. */
  lemma SubjectChangesCommute(subjects: seq<Subject>, i: int, f: Field, v: string, j: int, g: Field, w: string)
    requires i != j || f != g
    ensures HandleSubjectChange(HandleSubjectChange(subjects, i, f, v), j, g, w)
         == HandleSubjectChange(HandleSubjectChange(subjects, j, g, w), i, f, v)
  {
    var a := HandleSubjectChange(HandleSubjectChange(subjects, i, f, v), j, g, w);
    var b := HandleSubjectChange(HandleSubjectChange(subjects, j, g, w), i, f, v);
    forall k | 0 <= k < |subjects|
      ensures a[k] == b[k]
    {
      if k == i && k == j {
        SubjectExtensionality(a[k], b[k]);
      }
    }
  }

  /** A whole number typed into a mark cell, with or without surrounding
      blanks, is the number the row then holds. */
  lemma TypedNumberIsStored(subjects: seq<Subject>, index: nat, f: Field, n: int, pad: string)
    requires index < |subjects| && f != SubjectName && AllWhitespace(pad)
    ensures Get(HandleSubjectChange(subjects, index, f, pad + IntToString(n) + pad)[index], f) == Number(n)
  {
    CoerceReadsIntegerText(n, pad);
  }

  /** `addSubject`: one blank row appended after the existing ones. */
  function AddSubject(subjects: seq<Subject>): (r: seq<Subject>)
    ensures |r| == |subjects| + 1
    ensures r[..|subjects|] == subjects
    ensures forall f :: Get(r[|subjects|], f) == if f == SubjectName then Text("") else Number(0)
  {
    subjects + [BlankSubject]
  }

  // ---------------------------------------------------------------------------
  // Totals under the table
  // ---------------------------------------------------------------------------

  /** The grading marks of a row. */
  function ClientMarks(sub: Subject): Marks
  {
    Marks(sub.theoryFull, sub.theoryPass, sub.theoryObtained,
      sub.practicalFull, sub.practicalPass, sub.practicalObtained)
  }

  function ClientMarksOf(subjects: seq<Subject>): (ms: seq<Marks>)
    ensures |ms| == |subjects|
    ensures forall k :: 0 <= k < |ms| ==> ms[k] == ClientMarks(subjects[k])
  {
    seq(|subjects|, k requires 0 <= k < |subjects| => ClientMarks(subjects[k]))
  }

  /** `calculateTotals`: the full and obtained totals of every row, summed
      first to last. */
  method CalculateTotals(subjects: seq<Subject>) returns (totalFull: int, totalObtained: int)
    ensures totalFull == GrandFull(ClientMarksOf(subjects))
    ensures totalObtained == GrandObtained(ClientMarksOf(subjects))
  {
    ghost var ms := ClientMarksOf(subjects);
    totalFull, totalObtained := 0, 0;
    for i := 0 to |subjects|
      invariant totalFull == GrandFull(ms[..i])
      invariant totalObtained == GrandObtained(ms[..i])
    {
      var sub := subjects[i];
      totalFull := totalFull + (sub.theoryFull + sub.practicalFull);
      totalObtained := totalObtained + (sub.theoryObtained + sub.practicalObtained);
      assert ms[..i + 1][..i] == ms[..i];
    }
    assert ms[..|subjects|] == ms;
  }

  /** Grand totals only see each row's full and obtained totals. */
  lemma {:induction false} GrandTotalsPointwise(a: seq<Marks>, b: seq<Marks>)
    requires |a| == |b|
    requires forall k :: 0 <= k < |a| ==> TotalFull(a[k]) == TotalFull(b[k])
    requires forall k :: 0 <= k < |a| ==> TotalObtained(a[k]) == TotalObtained(b[k])
    ensures GrandFull(a) == GrandFull(b) && GrandObtained(a) == GrandObtained(b)
    decreases |a|
  {
    if a != [] {
      GrandTotalsPointwise(a[..|a| - 1], b[..|b| - 1]);
    }
  }

  /** Renaming a row or changing a pass mark leaves the totals as they were. */
  lemma NonTotalEditKeepsTotals(subjects: seq<Subject>, index: int, f: Field, value: string)
    requires f == SubjectName || f == TheoryPass || f == PracticalPass
    ensures var after := ClientMarksOf(HandleSubjectChange(subjects, index, f, value));
      GrandFull(after) == GrandFull(ClientMarksOf(subjects)) &&
      GrandObtained(after) == GrandObtained(ClientMarksOf(subjects))
  {
    var r := HandleSubjectChange(subjects, index, f, value);
    var a := ClientMarksOf(r);
    var b := ClientMarksOf(subjects);
    forall k | 0 <= k < |a|
      ensures TotalFull(a[k]) == TotalFull(b[k]) && TotalObtained(a[k]) == TotalObtained(b[k])
    {
      if k == index {
        assert Get(r[k], TheoryFull) == Get(subjects[k], TheoryFull);
        assert Get(r[k], PracticalFull) == Get(subjects[k], PracticalFull);
        assert Get(r[k], TheoryObtained) == Get(subjects[k], TheoryObtained);
        assert Get(r[k], PracticalObtained) == Get(subjects[k], PracticalObtained);
      }
    }
    GrandTotalsPointwise(a, b);
  }

  /** A new blank row adds nothing to the totals. */
  lemma AddSubjectKeepsTotals(subjects: seq<Subject>)
    ensures GrandFull(ClientMarksOf(AddSubject(subjects))) == GrandFull(ClientMarksOf(subjects))
    ensures GrandObtained(ClientMarksOf(AddSubject(subjects))) == GrandObtained(ClientMarksOf(subjects))
  {
    var added := AddSubject(subjects);
    var ms := ClientMarksOf(added);
    assert ms[..|subjects|] == ClientMarksOf(subjects) by {
      assert added[..|subjects|] == subjects;
    }
    assert ms[|subjects|] == Marks(0, 0, 0, 0, 0, 0) by {
      assert added[|subjects|] == BlankSubject;
    }
  }

  // ---------------------------------------------------------------------------
  // What is sent and how the server reads it
  // ---------------------------------------------------------------------------

  /** `JSON.stringify` of the student: every input is a string. */
  function StudentJson(s: Student): StudentInput
  {
    StudentInput(Some(s.name), Some(s.symbolNumber), Some(s.registrationNumber), Some(s.school), Some(s.grade))
  }

  /** `JSON.stringify` of a row: the name as a string, the marks as numbers. */
  function SubjectJson(sub: Subject): SubjectInput
  {
    SubjectInput(Some(sub.subjectName),
      Num(sub.theoryFull), Num(sub.theoryPass), Num(sub.theoryObtained),
      Num(sub.practicalFull), Num(sub.practicalPass), Num(sub.practicalObtained))
  }

  function SubjectsJson(subjects: seq<Subject>): (r: seq<SubjectInput>)
    ensures |r| == |subjects|
    ensures forall k :: 0 <= k < |r| ==> r[k] == SubjectJson(subjects[k])
  {
    seq(|subjects|, k requires 0 <= k < |subjects| => SubjectJson(subjects[k]))
  }

  /** The server reads back exactly the marks the browser holds. */
  lemma ServerReadsClientMarks(subjects: seq<Subject>)
    ensures MarksOf(SubjectsJson(subjects)) == ClientMarksOf(subjects)
  {
    var js := SubjectsJson(subjects);
    forall k | 0 <= k < |subjects|
      ensures MarksOf(js)[k] == ClientMarksOf(subjects)[k]
    {
      MarksOfAt(js, k);
    }
  }

  /** With at most 19 subjects the totals under the dashboard's table are the
      grand totals printed on the mark-sheet. */
  lemma DashboardTotalsMatchSheet(subjects: seq<Subject>)
    requires |subjects| <= Layout.MaxRows
    ensures GrandFull(Layout.DrawnMarks(SubjectsJson(subjects))) == GrandFull(ClientMarksOf(subjects))
    ensures GrandObtained(Layout.DrawnMarks(SubjectsJson(subjects))) == GrandObtained(ClientMarksOf(subjects))
  {
    var js := SubjectsJson(subjects);
    ServerReadsClientMarks(subjects);
    assert Layout.DrawnMarks(js) == MarksOf(js)[..|js|];
    assert MarksOf(js)[..|js|] == MarksOf(js);
  }

  // ---------------------------------------------------------------------------
  // Submitting
  // ---------------------------------------------------------------------------

  const NameRequired := "Please enter student name"
  const SubjectNameRequired := "All subjects must have a name"

  /** `subjects.some(s => !s.subjectName.trim())` */
  function SomeBlankName(subjects: seq<Subject>): (r: bool)
    ensures r <==> exists k :: 0 <= k < |subjects| && IsBlank(subjects[k].subjectName)
  {
    if subjects == [] then false
    else if IsBlank(subjects[0].subjectName) then true
    else
      var rest := SomeBlankName(subjects[1..]);
      assert forall k :: 1 <= k < |subjects| ==> subjects[1..][k - 1] == subjects[k];
      rest
  }

  /** The checks before anything is sent: the student's name first, then
      every subject's name. */
  function Validate(form: Form): (r: Option<string>)
    ensures r.None? <==>
      !IsBlank(form.student.name) &&
      forall k :: 0 <= k < |form.subjects| ==> !IsBlank(form.subjects[k].subjectName)
    ensures IsBlank(form.student.name) ==> r == Some(NameRequired)
    ensures !IsBlank(form.student.name) && r.Some? ==> r == Some(SubjectNameRequired)
  {
    if IsBlank(form.student.name) then Some(NameRequired)
    else if SomeBlankName(form.subjects) then Some(SubjectNameRequired)
    else None
  }

  /** How the request ended: a successful reply, a reply with an error
      status and its body text, or a failure before any reply. */
  datatype Reply = Ok | NotOk(body: string) | Failed(message: string)

  datatype Toast = Success(text: string) | Error(text: string)

  /** The new form state, the body posted (if any), the download name (if
      any) and the message shown. */
  datatype SubmitResult = SubmitResult(next: Form, posted: Option<Form>, download: Option<string>, toast: Toast)

  const Saved := "Marksheet saved & downloaded!"

  /** `err.message || "Failed to generate PDF"` */
  function FailureToast(message: string): (t: Toast)
    ensures t.Error? && t.text != ""
    ensures message != "" ==> t.text == message
    ensures message == "" ==> t.text == "Failed to generate PDF"
  {
    Error(if message != "" then message else "Failed to generate PDF")
  }

  /** The name the browser saves the mark-sheet under. */
  function DownloadName(name: string): (f: string)
    ensures |f| == |Trim(name)| + |FilenameSuffix|
    ensures f[|f| - |FilenameSuffix|..] == FilenameSuffix
    ensures f[..|f| - |FilenameSuffix|] == Trim(name)
  {
    var f := Trim(name) + FilenameSuffix;
    assert f[..|f| - |FilenameSuffix|] == Trim(name);
    f
  }

  /** `handleSubmit`, with the server's answer as a parameter. */
  function HandleSubmit(form: Form, reply: Reply): (r: SubmitResult)
    ensures Validate(form).Some? ==> r == SubmitResult(form, None, None, Error(Validate(form).value))
    ensures Validate(form).None? ==> r.posted == Some(form)
    ensures Validate(form).None? && reply == Ok ==>
      r.next == InitialForm && r.download == Some(DownloadName(form.student.name)) && r.toast == Success(Saved)
    ensures Validate(form).None? && reply.NotOk? ==>
      r.next == form && r.download.None? && r.toast == Error(if reply.body != "" then reply.body else "Server error")
    ensures Validate(form).None? && reply.Failed? ==>
      r.next == form && r.download.None? && r.toast == FailureToast(reply.message)
  {
    match Validate(form)
    case Some(problem) => SubmitResult(form, None, None, Error(problem))
    case None =>
      match reply
      case Ok => SubmitResult(InitialForm, Some(form), Some(DownloadName(form.student.name)), Success(Saved))
      case NotOk(body) => SubmitResult(form, Some(form), None, FailureToast(OrDefault(Some(body), "Server error")))
      case Failed(message) => SubmitResult(form, Some(form), None, FailureToast(message))
  }

  /** A form that passes the browser's checks also passes the server's name check. */
  lemma PostedFormHasName(form: Form)
    requires Validate(form).None?
    ensures !NameMissing(Some(StudentJson(form.student)))
  {
  }

  /** A freshly added row blocks submission until it is named. */
  lemma AddedSubjectBlocksSubmit(form: Form)
    requires !IsBlank(form.student.name)
    ensures Validate(form.(subjects := AddSubject(form.subjects))) == Some(SubjectNameRequired)
  {
    var subs := AddSubject(form.subjects);
    assert IsBlank(subs[|form.subjects|].subjectName);
  }

  /** After a saved mark-sheet the form is blank again and cannot be sent
      until a name is entered. */
  lemma ResetFormIsRejected(form: Form)
    requires Validate(form).None?
    ensures HandleSubmit(form, Ok).next == InitialForm
    ensures Validate(HandleSubmit(form, Ok).next) == Some(NameRequired)
  {
    assert TrimStart("") == "";
  }

  /** For a name without blanks the browser saves the file under the name the
      server gives it. */
  lemma DownloadNameMatchesServer(name: string)
    requires name != "" && NoWhitespace(name)
    ensures DownloadName(name) == Filename(Some(name))
  {
    assert TrimStart(name) == name;
    assert TrimEnd(name) == name;
    FilenameKeepsPlainName(name);
  }

  // ---------------------------------------------------------------------------
  // Arrow-key navigation
  // ---------------------------------------------------------------------------

  /** `index * 7 + fieldIndex`: where a cell's input sits in the list of
      input references. */
  function InputPosition(row: nat, f: Field): nat
  {
    row * FieldsPerRow + FieldIndex(f)
  }

  /** The positions that hold an input of a table with `rows` rows. */
  predicate HasInput(pos: int, rows: nat)
  {
    0 <= pos < rows * FieldsPerRow
  }

  /** The cell at a position: row and key. */
  function CellAt(pos: nat): (cell: (nat, Field))
    ensures InputPosition(cell.0, cell.1) == pos
  {
    (pos / FieldsPerRow, FieldAt(pos % FieldsPerRow))
  }

  /** Distinct cells have distinct positions. */
  lemma InputPositionInjective(r1: nat, f1: Field, r2: nat, f2: Field)
    requires InputPosition(r1, f1) == InputPosition(r2, f2)
    ensures r1 == r2 && f1 == f2
  {
    var d := r1 - r2;
    assert d * FieldsPerRow == FieldIndex(f2) - FieldIndex(f1);
  }

  /** A cell's position holds an input exactly when its row exists. */
  lemma InputPositionOnScreen(row: nat, f: Field, rows: nat)
    ensures HasInput(InputPosition(row, f), rows) <==> row < rows
  {
    if row < rows {
      assert (row + 1) * FieldsPerRow <= rows * FieldsPerRow;
    } else {
      assert rows * FieldsPerRow <= row * FieldsPerRow;
    }
  }

  datatype Key = ArrowRight | ArrowLeft | OtherKey(name: string)

  /** The input to focus, if any, and whether the key's default is prevented. */
  datatype KeyEffect = KeyEffect(focus: Option<nat>, preventDefault: bool)

  /** `handleKeyDown(e, currentIndex)` on a table with `rows` rows: an arrow
      focuses the neighbouring input when there is one and always stops the
      cursor moving inside the field; any other key does nothing. */
  function HandleKeyDown(key: Key, current: int, rows: nat): (e: KeyEffect)
    ensures key.OtherKey? ==> e == KeyEffect(None, false)
    ensures !key.OtherKey? ==> e.preventDefault
    ensures key == ArrowRight ==>
      (e.focus.Some? <==> HasInput(current + 1, rows)) && (e.focus.Some? ==> e.focus.value == current + 1)
    ensures key == ArrowLeft ==>
      (e.focus.Some? <==> HasInput(current - 1, rows)) && (e.focus.Some? ==> e.focus.value == current - 1)
  {
    match key
    case ArrowRight =>
      KeyEffect(if HasInput(current + 1, rows) then Some(current + 1) else None, true)
    case ArrowLeft =>
      KeyEffect(if HasInput(current - 1, rows) then Some(current - 1) else None, true)
    case OtherKey(_) => KeyEffect(None, false)
  }

  /** ArrowRight moves to the next key of the same row, and from a row's last
      key to the name of the next row, if there is one. */
  lemma ArrowRightWalksTheGrid(row: nat, f: Field, rows: nat)
    requires row < rows
    ensures f != PracticalObtained ==>
      HandleKeyDown(ArrowRight, InputPosition(row, f), rows).focus
        == Some(InputPosition(row, FieldAt(FieldIndex(f) + 1)))
    ensures f == PracticalObtained && row + 1 < rows ==>
      HandleKeyDown(ArrowRight, InputPosition(row, f), rows).focus == Some(InputPosition(row + 1, SubjectName))
    ensures f == PracticalObtained && row + 1 == rows ==>
      HandleKeyDown(ArrowRight, InputPosition(row, f), rows).focus.None?
  {
    var p := InputPosition(row, f);
    if f != PracticalObtained {
      InputPositionOnScreen(row, FieldAt(FieldIndex(f) + 1), rows);
    } else if row + 1 < rows {
      InputPositionOnScreen(row + 1, SubjectName, rows);
    } else {
      assert p + 1 == rows * FieldsPerRow;
    }
  }

  /** ArrowLeft undoes ArrowRight, and ArrowRight undoes ArrowLeft. */
  lemma ArrowKeysAreInverse(current: int, rows: nat)
    ensures var e := HandleKeyDown(ArrowRight, current, rows);
      e.focus.Some? && HasInput(current, rows) ==> HandleKeyDown(ArrowLeft, e.focus.value, rows).focus == Some(current)
    ensures var e := HandleKeyDown(ArrowLeft, current, rows);
      e.focus.Some? && HasInput(current, rows) ==> HandleKeyDown(ArrowRight, e.focus.value, rows).focus == Some(current)
  {
  }
}
