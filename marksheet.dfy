/**
 * What a mark-sheet request carries, how its fields are read, and the
 * checks and names the form route derives from it before any drawing.
 */
module Marksheet {
  import opened Wrappers
  import opened JsBuiltins
  import opened Grading

  /** The `student` object of a request. Text fields are `None` when absent. */
  datatype StudentInput = StudentInput(
    name: Option<string>,
    symbolNumber: Option<string>,
    registrationNumber: Option<string>,
    school: Option<string>,
    grade: Option<string>)

  /** One element of the request's `subjects` array, each mark as sent. */
  datatype SubjectInput = SubjectInput(
    subjectName: Option<string>,
    theoryFull: JsValue,
    theoryPass: JsValue,
    theoryObtained: JsValue,
    practicalFull: JsValue,
    practicalPass: JsValue,
    practicalObtained: JsValue)

  /** The six marks of a subject, each read with `Number(x) || 0`. */
  function RowMarks(sub: SubjectInput): Marks
  {
    Marks(
      Coerce(sub.theoryFull), Coerce(sub.theoryPass), Coerce(sub.theoryObtained),
      Coerce(sub.practicalFull), Coerce(sub.practicalPass), Coerce(sub.practicalObtained))
  }

  /** The coerced marks of every subject, in order. */
  function MarksOf(subjects: seq<SubjectInput>): (ms: seq<Marks>)
    ensures |ms| == |subjects|
    decreases |subjects|
  {
    if subjects == [] then []
    else MarksOf(subjects[..|subjects| - 1]) + [RowMarks(subjects[|subjects| - 1])]
  }

  /** Entry `k` holds the marks read from subject `k`. */
  lemma {:induction false} MarksOfAt(subjects: seq<SubjectInput>, k: nat)
    requires k < |subjects|
    ensures MarksOf(subjects)[k] == RowMarks(subjects[k])
    decreases |subjects|
  {
    var n := |subjects| - 1;
    if k < n {
      MarksOfAt(subjects[..n], k);
      assert subjects[..n][k] == subjects[k];
    }
  }

  /** The marks of a prefix of the subjects are a prefix of their marks. */
  lemma {:induction false} MarksOfPrefix(subjects: seq<SubjectInput>, e: nat)
    requires e <= |subjects|
    ensures MarksOf(subjects)[..e] == MarksOf(subjects[..e])
    decreases |subjects|
  {
    var n := |subjects|;
    if e == n {
      assert subjects[..e] == subjects;
    } else {
      MarksOfPrefix(subjects[..n - 1], e);
      assert subjects[..n - 1][..e] == subjects[..e];
      assert MarksOf(subjects)[..e] == MarksOf(subjects[..n - 1])[..e];
    }
  }

  /** `!student?.name?.trim()`: no student, no name, or a name of whitespace only. */
  predicate NameMissing(student: Option<StudentInput>)
  {
    student.None? || student.value.name.None? || IsBlank(student.value.name.value)
  }

  const FilenameSuffix := "_marksheet.pdf"

  /** The download name: `(name || "student")` with every whitespace run
      turned into `_`, then `_marksheet.pdf`. */
  function Filename(name: Option<string>): (f: string)
    ensures |f| > |FilenameSuffix| && f[|f| - |FilenameSuffix|..] == FilenameSuffix
    ensures NoWhitespace(f[..|f| - |FilenameSuffix|])
  {
    var stem := ReplaceWhitespaceRuns(OrDefault(name, "student"));
    assert |stem| >= 1 by {
      if OrDefault(name, "student") == "student" {
        ReplaceWhitespaceRunsKeeps("student");
      }
    }
    var f := stem + FilenameSuffix;
    assert f[..|f| - |FilenameSuffix|] == stem;
    f
  }

  /** A name without whitespace is used as it is. */
  lemma FilenameKeepsPlainName(name: string)
    requires name != "" && NoWhitespace(name)
    ensures Filename(Some(name)) == name + FilenameSuffix
  {
    ReplaceWhitespaceRunsKeeps(name);
  }

  /** Two words with any run of whitespace between them are joined by one underscore. */
  lemma FilenameJoinsWords(first: string, gap: string, last: string)
    requires first != [] && NoWhitespace(first) && last != [] && NoWhitespace(last)
    requires gap != [] && AllWhitespace(gap)
    ensures Filename(Some(first + gap + last)) == first + "_" + last + FilenameSuffix
  {
    ReplaceWhitespaceRunsJoin(first, gap, last);
    ReplaceWhitespaceRunsKeeps(first);
    ReplaceWhitespaceRunsKeeps(last);
  }

  /** A student called "Asha Gurung" gets `Asha_Gurung_marksheet.pdf`. */
  lemma FilenameOfTwoWordName()
    ensures Filename(Some("Asha Gurung")) == "Asha_Gurung_marksheet.pdf"
  {
    TwoWordPieces();
    FilenameJoinsWords("Asha", " ", "Gurung");
  }

  lemma TwoWordPieces()
    ensures "Asha" + " " + "Gurung" == "Asha Gurung"
    ensures "Asha" + "_" + "Gurung" + FilenameSuffix == "Asha_Gurung_marksheet.pdf"
  {
    assert "Asha" + "_" + "Gurung" == "Asha_Gurung";
    assert "Asha_Gurung" + "_marksheet.pdf" == "Asha_Gurung_marksheet.pdf";
  }
}
