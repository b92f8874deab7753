/**
 * What the closed-form page promises as a whole: the cursor only moves down
 * the page, every instruction starts inside the sheet, rows are the first 19
 * subjects at most, the totals count exactly the drawn rows, and the
 * signature block appears exactly when at most 14 subjects are listed.
 */
module SheetProperties {
  import opened Wrappers
  import opened JsBuiltins
  import opened Grading
  import opened Marksheet
  import opened Layout

  // ---------------------------------------------------------------------------
  // Heights
  // ---------------------------------------------------------------------------

  /** Every instruction is at or below the ones emitted before it. */
  predicate Descending(p: seq<Draw>)
  {
    forall i, j :: 0 <= i < j < |p| ==> p[i].y >= p[j].y
  }

  predicate AllAtLeast(p: seq<Draw>, m: int)
  {
    forall i :: 0 <= i < |p| ==> p[i].y >= m
  }

  predicate AllAtMost(p: seq<Draw>, m: int)
  {
    forall i :: 0 <= i < |p| ==> p[i].y <= m
  }

  lemma DescendingAppend(a: seq<Draw>, b: seq<Draw>, m: int)
    requires Descending(a) && Descending(b) && AllAtLeast(a, m) && AllAtMost(b, m)
    ensures Descending(a + b)
  {
    forall i, j | 0 <= i < j < |a + b|
      ensures (a + b)[i].y >= (a + b)[j].y
    {
      if j < |a| {
        assert (a + b)[i] == a[i] && (a + b)[j] == a[j];
      } else if i >= |a| {
        assert (a + b)[i] == b[i - |a|] && (a + b)[j] == b[j - |a|];
      } else {
        assert (a + b)[i] == a[i] && (a + b)[j] == b[j - |a|];
      }
    }
  }

  lemma BoundsAppend(a: seq<Draw>, b: seq<Draw>, lo: int, hi: int)
    requires AllAtLeast(a, lo) && AllAtLeast(b, lo) && AllAtMost(a, hi) && AllAtMost(b, hi)
    ensures AllAtLeast(a + b, lo) && AllAtMost(a + b, hi)
  {
    forall i | 0 <= i < |a + b|
      ensures lo <= (a + b)[i].y <= hi
    {
      if i < |a| {
        assert (a + b)[i] == a[i];
      } else {
        assert (a + b)[i] == b[i - |a|];
      }
    }
  }

  /** A header row sits at one height. */
  lemma {:induction false} HeaderTextsLevel(labels: seq<string>, dx: int, y: int, size: int, n: nat)
    requires n <= |labels| == Columns
    ensures AllAtLeast(HeaderTexts(labels, dx, y, size, n), y)
    ensures AllAtMost(HeaderTexts(labels, dx, y, size, n), y)
  {
    if n > 0 {
      HeaderTextsLevel(labels, dx, y, size, n - 1);
      var caption := labels[n - 1];
      var drawn := if caption != "" then [Text((ColumnX(n - 1) + dx) as real, y, caption, Bold, size, Black)] else [];
      BoundsAppend(HeaderTexts(labels, dx, y, size, n - 1), drawn, y, y);
    }
  }

  lemma LevelDescends(p: seq<Draw>, y: int)
    requires AllAtLeast(p, y) && AllAtMost(p, y)
    ensures Descending(p)
  {
  }

  lemma RowTextsLevel(row: Row, y: int)
    ensures AllAtLeast(RowTexts(row, y), y) && AllAtMost(RowTexts(row, y), y)
  {
  }

  /** Each row sits below the one before it; the rows lie between 561 and the
      height of the last drawn row. */
  lemma {:induction false} RowsDescend(rows: seq<Row>, d: nat)
    requires d <= |rows|
    ensures Descending(Rows(rows, d))
    ensures AllAtLeast(Rows(rows, d), RowY(d) + RowHeight)
    ensures AllAtMost(Rows(rows, d), FirstRowY)
  {
    if d > 0 {
      RowsDescend(rows, d - 1);
      var prev := Rows(rows, d - 1);
      var row := RowTexts(rows[d - 1], RowY(d - 1));
      RowTextsLevel(rows[d - 1], RowY(d - 1));
      LevelDescends(row, RowY(d - 1));
      DescendingAppend(prev, row, RowY(d - 1));
      BoundsAppend(prev, row, RowY(d) + RowHeight, FirstRowY);
    }
  }

  lemma TotalsLevel(d: nat, ms: seq<Marks>)
    ensures AllAtLeast(TotalsBlock(d, ms), TotalsY(d)) && AllAtMost(TotalsBlock(d, ms), TotalsY(d))
  {
  }

  /** The table runs from the header row down to its totals block. */
  lemma TableDescends(subjects: seq<SubjectInput>)
    requires subjects != []
    ensures Descending(Table(subjects))
    ensures AllAtLeast(Table(subjects), TotalsY(Drawn(|subjects|)))
    ensures AllAtMost(Table(subjects), HeaderY)
  {
    var d := Drawn(|subjects|);
    var h := HeaderTexts(Headers, 10, HeaderY, 11, Columns);
    var sh := HeaderTexts(SubHeaders, 18, SubHeaderY, 10, Columns);
    var rows := Rows(RowsOf(subjects), d);
    var totals := TotalsBlock(d, DrawnMarks(subjects));
    HeaderTextsLevel(Headers, 10, HeaderY, 11, Columns);
    HeaderTextsLevel(SubHeaders, 18, SubHeaderY, 10, Columns);
    RowsDescend(RowsOf(subjects), d);
    TotalsLevel(d, DrawnMarks(subjects));
    StackDescends(h, sh, rows, totals, TotalsY(d));
    assert Table(subjects) == h + sh + rows + totals;
  }

  /** Two header rows, the rows below them and a block at `lo` below those
      come top to bottom. */
  lemma StackDescends(h: seq<Draw>, sh: seq<Draw>, rows: seq<Draw>, totals: seq<Draw>, lo: int)
    requires AllAtLeast(h, HeaderY) && AllAtMost(h, HeaderY)
    requires AllAtLeast(sh, SubHeaderY) && AllAtMost(sh, SubHeaderY)
    requires Descending(rows) && AllAtLeast(rows, lo) && AllAtMost(rows, FirstRowY)
    requires AllAtLeast(totals, lo) && AllAtMost(totals, lo)
    requires lo <= FirstRowY
    ensures Descending(h + sh + rows + totals)
    ensures AllAtLeast(h + sh + rows + totals, lo) && AllAtMost(h + sh + rows + totals, HeaderY)
  {
    LevelDescends(h, HeaderY);
    LevelDescends(sh, SubHeaderY);
    LevelDescends(totals, lo);
    Widen(h, HeaderY, HeaderY, SubHeaderY, HeaderY);
    Widen(sh, SubHeaderY, SubHeaderY, SubHeaderY, HeaderY);
    DescendingAppend(h, sh, SubHeaderY);
    BoundsAppend(h, sh, SubHeaderY, HeaderY);
    Widen(h + sh, SubHeaderY, HeaderY, FirstRowY, HeaderY);
    DescendingAppend(h + sh, rows, FirstRowY);
    Widen(h + sh, SubHeaderY, HeaderY, lo, HeaderY);
    Widen(rows, lo, FirstRowY, lo, HeaderY);
    BoundsAppend(h + sh, rows, lo, HeaderY);
    DescendingAppend(h + sh + rows, totals, lo);
    Widen(totals, lo, lo, lo, HeaderY);
    BoundsAppend(h + sh + rows, totals, lo, HeaderY);
  }

  lemma HeadingLevels(student: StudentInput)
    requires student.name.Some?
    ensures Descending(TitleBlock() + StudentBlock(student))
    ensures AllAtLeast(TitleBlock() + StudentBlock(student), 648)
    ensures AllAtMost(TitleBlock() + StudentBlock(student), 780)
  {
  }

  lemma SignatureLevels(y: int)
    ensures Descending(SignatureBlock(y))
    ensures AllAtLeast(SignatureBlock(y), SignatureFloor - 14)
    ensures AllAtMost(SignatureBlock(y), y)
  {
  }

  lemma Widen(p: seq<Draw>, lo: int, hi: int, lo': int, hi': int)
    requires AllAtLeast(p, lo) && AllAtMost(p, hi) && lo' <= lo && hi <= hi'
    ensures AllAtLeast(p, lo') && AllAtMost(p, hi')
  {
  }

  /** The cursor only moves down: the page's instructions come top to bottom,
      from the title at 780 down to no lower than 65 points above the bottom edge. */
  lemma PageDescends(student: StudentInput, subjects: seq<SubjectInput>)
    requires student.name.Some?
    ensures Descending(MarksheetPage(student, subjects))
    ensures AllAtLeast(MarksheetPage(student, subjects), 65)
    ensures AllAtMost(MarksheetPage(student, subjects), 780)
  {
    var top := TitleBlock() + StudentBlock(student);
    HeadingLevels(student);
    var middle := PageBody(subjects);
    var lo := if subjects == [] then HeaderY else TotalsY(Drawn(|subjects|));
    if subjects != [] {
      TableDescends(subjects);
    }
    assert Descending(middle) && AllAtLeast(middle, lo) && AllAtMost(middle, HeaderY);
    var ys := SignatureY(|subjects|);
    var sig := SignatureBlock(ys);
    SignatureLevels(ys);
    assert ys <= lo;
    DescendingAppend(top, middle, HeaderY);
    Widen(top, 648, 780, 65, 780);
    Widen(middle, lo, HeaderY, 65, 780);
    BoundsAppend(top, middle, 65, 780);
    Widen(sig, SignatureFloor - 14, ys, 65, 780);
    Widen(sig, SignatureFloor - 14, ys, SignatureFloor - 14, lo);
    assert AllAtLeast(top + middle, lo) by {
      Widen(top, 648, 780, lo, 780);
      Widen(middle, lo, HeaderY, lo, 780);
      BoundsAppend(top, middle, lo, 780);
    }
    DescendingAppend(top + middle, sig, lo);
    BoundsAppend(top + middle, sig, 65, 780);
  }

  // ---------------------------------------------------------------------------
  // Horizontal placement
  // ---------------------------------------------------------------------------

  /** The instruction starts (and a rule ends) between x = 45 and x = 500,
      well inside the 595-point width. */
  predicate InsideMargins(d: Draw)
  {
    match d
    case Text(x, _, _, _, _, _) => 45.0 <= x <= 500.0
    case Line(x1, x2, _) => 45 <= x1 <= x2 <= 500
  }

  predicate AllInsideMargins(p: seq<Draw>)
  {
    forall i :: 0 <= i < |p| ==> InsideMargins(p[i])
  }

  lemma MarginsAppend(a: seq<Draw>, b: seq<Draw>)
    requires AllInsideMargins(a) && AllInsideMargins(b)
    ensures AllInsideMargins(a + b)
  {
    forall i | 0 <= i < |a + b|
      ensures InsideMargins((a + b)[i])
    {
      if i < |a| {
        assert (a + b)[i] == a[i];
      } else {
        assert (a + b)[i] == b[i - |a|];
      }
    }
  }

  lemma {:induction false} HeaderTextsInside(labels: seq<string>, dx: int, y: int, size: int, n: nat)
    requires n <= |labels| == Columns && 0 <= dx <= 18
    ensures AllInsideMargins(HeaderTexts(labels, dx, y, size, n))
  {
    if n > 0 {
      HeaderTextsInside(labels, dx, y, size, n - 1);
      ColumnOrigins();
      var caption := labels[n - 1];
      var drawn := if caption != "" then [Text((ColumnX(n - 1) + dx) as real, y, caption, Bold, size, Black)] else [];
      assert ColumnX(n - 1) <= 481 by {
        assert n - 1 <= 7;
      }
      MarginsAppend(HeaderTexts(labels, dx, y, size, n - 1), drawn);
    }
  }

  /** Every cell starts inside its own column. */
  lemma CellTextInColumn(row: Row, y: int, i: nat)
    requires i < Columns
    ensures ColumnX(i) as real < CellText(row, y, i).x < ColumnX(i + 1) as real
  {
    ColumnOrigins();
    if 1 <= i < Columns - 1 {
      CellPadCentres(i, row.cells[i]);
    }
  }

  /** Every cell of a row starts inside the table. */
  lemma RowInside(row: Row, y: int)
    ensures AllInsideMargins(RowTexts(row, y))
  {
    var texts := RowTexts(row, y);
    forall i | 0 <= i < Columns
      ensures InsideMargins(texts[i])
    {
      CellInside(row, y, i);
    }
  }

  lemma CellInside(row: Row, y: int, i: nat)
    requires i < Columns
    ensures InsideMargins(CellText(row, y, i))
  {
    CellTextInColumn(row, y, i);
    ColumnOrigins();
    if i == Columns - 1 {
      assert CellPad(i, row.cells[i]) == 2.0;
    }
  }

  lemma {:induction false} RowsInside(rows: seq<Row>, d: nat)
    requires d <= |rows|
    ensures AllInsideMargins(Rows(rows, d))
  {
    if d > 0 {
      RowsInside(rows, d - 1);
      RowInside(rows[d - 1], RowY(d - 1));
      MarginsAppend(Rows(rows, d - 1), RowTexts(rows[d - 1], RowY(d - 1)));
    }
  }

  lemma FixedBlocksInside(student: StudentInput, d: nat, ms: seq<Marks>, y: int)
    requires student.name.Some?
    ensures AllInsideMargins(TitleBlock() + StudentBlock(student))
    ensures AllInsideMargins([NoSubjects])
    ensures AllInsideMargins(TotalsBlock(d, ms))
    ensures AllInsideMargins(SignatureBlock(y))
  {
  }

  /** Nothing starts off the sheet: every instruction starts between 45 and
      500 across and between 65 and 780 up. */
  lemma PageOnSheet(student: StudentInput, subjects: seq<SubjectInput>)
    requires student.name.Some?
    ensures forall i :: 0 <= i < |MarksheetPage(student, subjects)| ==>
      InsideMargins(MarksheetPage(student, subjects)[i]) &&
      65 <= MarksheetPage(student, subjects)[i].y <= 780
  {
    PageDescends(student, subjects);
    var d := Drawn(|subjects|);
    var top := TitleBlock() + StudentBlock(student);
    var middle := PageBody(subjects);
    var sig := SignatureBlock(SignatureY(|subjects|));
    FixedBlocksInside(student, d, DrawnMarks(subjects), SignatureY(|subjects|));
    if subjects != [] {
      var h := HeaderTexts(Headers, 10, HeaderY, 11, Columns);
      var sh := HeaderTexts(SubHeaders, 18, SubHeaderY, 10, Columns);
      HeaderTextsInside(Headers, 10, HeaderY, 11, Columns);
      HeaderTextsInside(SubHeaders, 18, SubHeaderY, 10, Columns);
      var rows := Rows(RowsOf(subjects), d);
      RowsInside(RowsOf(subjects), d);
      MarginsAppend(h, sh);
      MarginsAppend(h + sh, rows);
      MarginsAppend(h + sh + rows, TotalsBlock(d, DrawnMarks(subjects)));
    }
    assert AllInsideMargins(middle);
    MarginsAppend(top, middle);
    MarginsAppend(top + middle, sig);
    assert MarksheetPage(student, subjects) == top + middle + sig;
  }

  // ---------------------------------------------------------------------------
  // Overflow, totals and the signature block
  // ---------------------------------------------------------------------------

  /** Up to 19 subjects the totals add up every subject; beyond that, only the first 19. */
  lemma DrawnMarksArePrefix(subjects: seq<SubjectInput>)
    ensures |DrawnMarks(subjects)| == Drawn(|subjects|)
    ensures |subjects| <= MaxRows ==> DrawnMarks(subjects) == MarksOf(subjects)
    ensures |subjects| > MaxRows ==> DrawnMarks(subjects) == MarksOf(subjects[..MaxRows])
  {
    if |subjects| > MaxRows {
      MarksOfPrefix(subjects, MaxRows);
    }
  }

  lemma DrawnMarksIgnoreSkipped(subjects: seq<SubjectInput>)
    requires |subjects| > MaxRows
    ensures DrawnMarks(subjects) == DrawnMarks(subjects[..MaxRows])
  {
    var s19 := subjects[..MaxRows];
    MarksOfPrefix(subjects, MaxRows);
    assert MarksOf(s19)[..MaxRows] == MarksOf(s19);
  }

  lemma TableIgnoresSkipped(subjects: seq<SubjectInput>)
    requires |subjects| > MaxRows
    ensures Table(subjects) == Table(subjects[..MaxRows])
  {
    var s19 := subjects[..MaxRows];
    assert Drawn(|subjects|) == MaxRows == Drawn(|s19|);
    RowsOfTake(subjects, MaxRows);
    RowsOnPrefix(RowsOf(subjects), MaxRows, MaxRows);
    DrawnMarksIgnoreSkipped(subjects);
  }

  /** Subjects past the 19th leave no trace on the page: not in the table,
      not in GRAND TOTAL, percentage or RESULT, not in the signature block. */
  lemma SkippedSubjectsLeaveNoTrace(student: StudentInput, subjects: seq<SubjectInput>)
    requires student.name.Some? && |subjects| > MaxRows
    ensures MarksheetPage(student, subjects) == MarksheetPage(student, subjects[..MaxRows])
  {
    TableIgnoresSkipped(subjects);
    assert SignatureY(|subjects|) == SignatureY(MaxRows);
  }

  lemma ElementOfMiddle(a: seq<Draw>, b: seq<Draw>, c: seq<Draw>, k: nat)
    requires k < |b|
    ensures (a + b + c)[|a| + k] == b[k]
  {
  }

  /** Element `k` of a block that closes the middle part of a page. */
  lemma ElementOfBlock(top: seq<Draw>, above: seq<Draw>, block: seq<Draw>, sig: seq<Draw>, k: nat)
    requires k < |block|
    ensures (top + (above + block) + sig)[|top| + |above| + k] == block[k]
  {
    ElementOfMiddle(top, above + block, sig, |above| + k);
  }

  /** On a non-empty list the totals block shows the grand totals, the
      percentage and the result of the drawn rows, the result in green for
      PASS and in red for FAIL. */
  lemma TotalsShown(student: StudentInput, subjects: seq<SubjectInput>)
    requires student.name.Some? && subjects != []
    ensures var d := Drawn(|subjects|);
      var full := GrandFull(DrawnMarks(subjects));
      var obt := GrandObtained(DrawnMarks(subjects));
      var page := MarksheetPage(student, subjects);
      (exists i :: 0 <= i < |page| &&
        page[i] == Text(70.0, TotalsY(d), "GRAND TOTAL : " + IntToString(obt) + " / " + IntToString(full), Bold, 12, Black)) &&
      (exists i :: 0 <= i < |page| &&
        page[i] == Text(280.0, TotalsY(d), "Percentage : " + PercentText(obt, full) + "%", Bold, 12, Black)) &&
      (exists i :: 0 <= i < |page| &&
        page[i] == Text(440.0, TotalsY(d), "RESULT : " + VerdictText(ResultOf(obt)), Bold, 13,
          if obt >= PassThreshold then Green else Red))
  {
    var k := TotalsAt(student, subjects);
    TotalsBlockLines(Drawn(|subjects|), DrawnMarks(subjects));
  }

  /** Where the totals block sits on the page. */
  lemma TotalsAt(student: StudentInput, subjects: seq<SubjectInput>) returns (k: nat)
    requires student.name.Some? && subjects != []
    ensures var page := MarksheetPage(student, subjects);
      var totals := TotalsBlock(Drawn(|subjects|), DrawnMarks(subjects));
      k + 2 < |page| && page[k] == totals[0] && page[k + 1] == totals[1] && page[k + 2] == totals[2]
  {
    var d := Drawn(|subjects|);
    var top := TitleBlock() + StudentBlock(student);
    var above := HeaderTexts(Headers, 10, HeaderY, 11, Columns) + HeaderTexts(SubHeaders, 18, SubHeaderY, 10, Columns) +
      Rows(RowsOf(subjects), d);
    PageAroundTotals(student, subjects);
    k := ThreeInMiddle(MarksheetPage(student, subjects), top, above, TotalsBlock(d, DrawnMarks(subjects)),
      SignatureBlock(SignatureY(|subjects|)));
  }

  /** A non-empty page is the heading, the table above its totals, the
      totals block and the signature block, in that order. */
  lemma PageAroundTotals(student: StudentInput, subjects: seq<SubjectInput>)
    requires student.name.Some? && subjects != []
    ensures var d := Drawn(|subjects|);
      MarksheetPage(student, subjects) ==
        TitleBlock() + StudentBlock(student) +
        (HeaderTexts(Headers, 10, HeaderY, 11, Columns) + HeaderTexts(SubHeaders, 18, SubHeaderY, 10, Columns) +
          Rows(RowsOf(subjects), d) + TotalsBlock(d, DrawnMarks(subjects))) +
        SignatureBlock(SignatureY(|subjects|))
  {
  }

  /** The three lines of a three-line block in the middle of a page. */
  lemma ThreeInMiddle(page: seq<Draw>, top: seq<Draw>, above: seq<Draw>, block: seq<Draw>, sig: seq<Draw>) returns (k: nat)
    requires page == top + (above + block) + sig && |block| == 3
    ensures k == |top| + |above| && k + 2 < |page|
    ensures page[k] == block[0] && page[k + 1] == block[1] && page[k + 2] == block[2]
  {
    k := |top| + |above|;
    ElementOfBlock(top, above, block, sig, 0);
    ElementOfBlock(top, above, block, sig, 1);
    ElementOfBlock(top, above, block, sig, 2);
  }

  /** The three lines of the totals block. */
  lemma TotalsBlockLines(d: nat, ms: seq<Marks>)
    ensures var full := GrandFull(ms);
      var obt := GrandObtained(ms);
      var totals := TotalsBlock(d, ms);
      |totals| == 3 &&
      totals[0] == Text(70.0, TotalsY(d), "GRAND TOTAL : " + IntToString(obt) + " / " + IntToString(full), Bold, 12, Black) &&
      totals[1] == Text(280.0, TotalsY(d), "Percentage : " + PercentText(obt, full) + "%", Bold, 12, Black) &&
      totals[2] == Text(440.0, TotalsY(d), "RESULT : " + VerdictText(ResultOf(obt)), Bold, 13,
        if obt >= PassThreshold then Green else Red)
  {
  }

  /** With no subjects the page holds the headings, "No subjects entered" and
      the signature block, and nothing else: no table, no totals, no RESULT. */
  lemma EmptySheet(student: StudentInput)
    requires student.name.Some?
    ensures |MarksheetPage(student, [])| == 12
    ensures MarksheetPage(student, [])[7] == NoSubjects
    ensures MarksheetPage(student, [])[8..] ==
      [Line(80, 240, 523), Line(340, 500, 523),
       Text(110.0, 508, "Checked by", Regular, 10, Black),
       Text(360.0, 508, "Controller of Examinations", Regular, 10, Black)]
  {
  }

  /** True when the page has a horizontal rule. */
  predicate HasRules(p: seq<Draw>)
  {
    exists i :: 0 <= i < |p| && p[i].Line?
  }

  predicate TextsOnly(p: seq<Draw>)
  {
    forall i :: 0 <= i < |p| ==> p[i].Text?
  }

  lemma TextsOnlyAppend(a: seq<Draw>, b: seq<Draw>)
    requires TextsOnly(a) && TextsOnly(b)
    ensures TextsOnly(a + b)
  {
    forall i | 0 <= i < |a + b|
      ensures (a + b)[i].Text?
    {
      if i < |a| {
        assert (a + b)[i] == a[i];
      } else {
        assert (a + b)[i] == b[i - |a|];
      }
    }
  }

  lemma {:induction false} HeaderTextsOnly(labels: seq<string>, dx: int, y: int, size: int, n: nat)
    requires n <= |labels| == Columns
    ensures TextsOnly(HeaderTexts(labels, dx, y, size, n))
  {
    if n > 0 {
      HeaderTextsOnly(labels, dx, y, size, n - 1);
      var caption := labels[n - 1];
      var drawn := if caption != "" then [Text((ColumnX(n - 1) + dx) as real, y, caption, Bold, size, Black)] else [];
      TextsOnlyAppend(HeaderTexts(labels, dx, y, size, n - 1), drawn);
    }
  }

  lemma {:induction false} RowsTextsOnly(rows: seq<Row>, d: nat)
    requires d <= |rows|
    ensures TextsOnly(Rows(rows, d))
  {
    if d > 0 {
      RowsTextsOnly(rows, d - 1);
      var prev := Rows(rows, d - 1);
      var row := RowTexts(rows[d - 1], RowY(d - 1));
      assert TextsOnly(row);
      TextsOnlyAppend(prev, row);
    }
  }

  /** The table is all text. */
  lemma TableTextsOnly(subjects: seq<SubjectInput>)
    requires subjects != []
    ensures TextsOnly(Table(subjects))
  {
    var d := Drawn(|subjects|);
    var h := HeaderTexts(Headers, 10, HeaderY, 11, Columns);
    var sh := HeaderTexts(SubHeaders, 18, SubHeaderY, 10, Columns);
    var rows := Rows(RowsOf(subjects), d);
    var totals := TotalsBlock(d, DrawnMarks(subjects));
    HeaderTextsOnly(Headers, 10, HeaderY, 11, Columns);
    HeaderTextsOnly(SubHeaders, 18, SubHeaderY, 10, Columns);
    RowsTextsOnly(RowsOf(subjects), d);
    TotalsTextsOnly(d, DrawnMarks(subjects));
    StackTextsOnly(h, sh, rows, totals);
    assert Table(subjects) == h + sh + rows + totals;
  }

  lemma TotalsTextsOnly(d: nat, ms: seq<Marks>)
    ensures TextsOnly(TotalsBlock(d, ms))
  {
  }

  lemma StackTextsOnly(a: seq<Draw>, b: seq<Draw>, c: seq<Draw>, e: seq<Draw>)
    requires TextsOnly(a) && TextsOnly(b) && TextsOnly(c) && TextsOnly(e)
    ensures TextsOnly(a + b + c + e)
  {
    TextsOnlyAppend(a, b);
    TextsOnlyAppend(a + b, c);
    TextsOnlyAppend(a + b + c, e);
  }

  /** The title and the student's details are all text. */
  lemma HeadingTextsOnly(student: StudentInput)
    requires student.name.Some?
    ensures TextsOnly(TitleBlock() + StudentBlock(student))
  {
  }

  /** Whatever sits between the heading and the signature is all text. */
  lemma BodyTextsOnly(subjects: seq<SubjectInput>)
    ensures TextsOnly(PageBody(subjects))
  {
    if subjects != [] {
      TableTextsOnly(subjects);
    }
  }

  /** Text in front of a block adds no rule. */
  lemma RulesOnlyAfter(a: seq<Draw>, b: seq<Draw>)
    requires TextsOnly(a)
    ensures HasRules(a + b) <==> HasRules(b)
  {
    if HasRules(a + b) {
      var i :| 0 <= i < |a + b| && (a + b)[i].Line?;
      assert i >= |a| && (a + b)[i] == b[i - |a|];
    }
    if HasRules(b) {
      var i :| 0 <= i < |b| && b[i].Line?;
      assert (a + b)[|a| + i] == b[i];
    }
  }

  /** Below two blocks of text, the page has rules exactly when the
      signature is drawn. */
  lemma SignatureRules(top: seq<Draw>, middle: seq<Draw>, y: int)
    requires TextsOnly(top) && TextsOnly(middle)
    ensures HasRules(top + middle + SignatureBlock(y)) <==> y > SignatureFloor
  {
    TextsOnlyAppend(top, middle);
    RulesOnlyAfter(top + middle, SignatureBlock(y));
    if y > SignatureFloor {
      assert SignatureBlock(y)[0].Line?;
    }
  }

  /** The signature rules sit above the floor for at most 14 subjects. */
  lemma SignatureAboveFloor(n: nat)
    ensures SignatureY(n) > SignatureFloor <==> n <= 14
  {
  }

  /** The signature block (the only rules on the page) is drawn exactly when
      at most 14 subjects are listed, so always for an empty list. */
  lemma SignatureDrawnIff(student: StudentInput, subjects: seq<SubjectInput>)
    requires student.name.Some?
    ensures HasRules(MarksheetPage(student, subjects)) <==> |subjects| <= 14
  {
    HeadingTextsOnly(student);
    BodyTextsOnly(subjects);
    SignatureRules(TitleBlock() + StudentBlock(student), PageBody(subjects), SignatureY(|subjects|));
    SignatureAboveFloor(|subjects|);
  }
}
