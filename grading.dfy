/**
 * The grading model of a mark-sheet: per-subject totals and pass status, the
 * grand totals, the percentage as it is printed, and the overall result.
 */
module Grading {
  import opened JsBuiltins

  /** The six numeric fields of one subject, after coercion to numbers. */
  datatype Marks = Marks(
    theoryFull: int, theoryPass: int, theoryObtained: int,
    practicalFull: int, practicalPass: int, practicalObtained: int)

  /** `thF + prF` */
  function TotalFull(m: Marks): int
  {
    m.theoryFull + m.practicalFull
  }

  /** `thO + prO` */
  function TotalObtained(m: Marks): int
  {
    m.theoryObtained + m.practicalObtained
  }

  /** `thP + prP` */
  function PassMark(m: Marks): int
  {
    m.theoryPass + m.practicalPass
  }

  /** A subject is passed when its obtained total reaches the sum of its two pass marks. */
  predicate Passed(m: Marks)
  {
    TotalObtained(m) >= PassMark(m)
  }

  /** The sum of the subjects' full totals, accumulated first to last. */
  function GrandFull(ms: seq<Marks>): int
  {
    if ms == [] then 0 else GrandFull(ms[..|ms| - 1]) + TotalFull(ms[|ms| - 1])
  }

  /** The sum of the subjects' obtained totals, accumulated first to last. */
  function GrandObtained(ms: seq<Marks>): int
  {
    if ms == [] then 0 else GrandObtained(ms[..|ms| - 1]) + TotalObtained(ms[|ms| - 1])
  }

  /** Both grand totals split over a concatenation. */
  lemma {:induction false} GrandTotalsAppend(a: seq<Marks>, b: seq<Marks>)
    ensures GrandFull(a + b) == GrandFull(a) + GrandFull(b)
    ensures GrandObtained(a + b) == GrandObtained(a) + GrandObtained(b)
    decreases |b|
  {
    if b != [] {
      var c := a + b;
      assert c[..|c| - 1] == a + b[..|b| - 1];
      assert c[|c| - 1] == b[|b| - 1];
      GrandTotalsAppend(a, b[..|b| - 1]);
    } else {
      assert a + b == a;
    }
  }

  /** The grand totals do not depend on the order of the subjects. */
  lemma {:induction false} GrandTotalsPermutation(a: seq<Marks>, b: seq<Marks>)
    requires multiset(a) == multiset(b)
    ensures GrandFull(a) == GrandFull(b)
    ensures GrandObtained(a) == GrandObtained(b)
    decreases |a|
  {
    if a != [] {
      var x := a[|a| - 1];
      var a' := a[..|a| - 1];
      assert a == a' + [x];
      assert x in multiset(b);
      var k :| 0 <= k < |b| && b[k] == x;
      var b' := b[..k] + b[k + 1..];
      assert b == b[..k] + [x] + b[k + 1..];
      assert multiset(a) == multiset(a') + multiset{x};
      assert multiset(b) == multiset(b[..k]) + multiset{x} + multiset(b[k + 1..]);
      assert multiset(b') == multiset(b[..k]) + multiset(b[k + 1..]);
      assert multiset(a') == multiset(a) - multiset{x};
      assert multiset(b') == multiset(b) - multiset{x};
      GrandTotalsPermutation(a', b');
      GrandTotalsAppend(b[..k] + [x], b[k + 1..]);
      GrandTotalsAppend(b[..k], [x]);
      GrandTotalsAppend(b[..k], b[k + 1..]);
      assert [x][..0] == [];
    }
  }

  /** The overall result printed on the sheet. */
  datatype Verdict = Pass | Fail

  /** The obtained grand total that passes the whole sheet. */
  const PassThreshold := 35

  /** `grandObt >= 35 ? "PASS" : "FAIL"`: only the absolute obtained total
      decides, not the percentage and not the subjects' own pass marks. */
  function ResultOf(grandObtained: int): Verdict
  {
    if grandObtained >= PassThreshold then Pass else Fail
  }

  function VerdictText(v: Verdict): string
  {
    match v
    case Pass => "PASS"
    case Fail => "FAIL"
  }

  /** `n / d` for a positive `d`, by repeated subtraction. Written recursively
      so that unfolding a page does not bring a division by a variable with it;
      `QuotientBounds` says it is the floor of the ratio. */
  function Quotient(n: nat, d: nat): nat
    requires d > 0
    decreases n
  {
    if n < d then 0 else 1 + Quotient(n - d, d)
  }

  lemma {:induction false} QuotientBounds(n: nat, d: nat)
    requires d > 0
    ensures d * Quotient(n, d) <= n < d * Quotient(n, d) + d
    decreases n
  {
    if n >= d {
      QuotientBounds(n - d, d);
      var q := Quotient(n - d, d);
      assert d * (1 + q) == d + d * q;
    }
  }

  /** `(obt / full * 100).toFixed(2)` as a count of hundredths of a percent,
      without its sign. */
  function Hundredths(obt: int, full: int): nat
    requires full > 0
  {
    var mag := if obt < 0 then -obt else obt;
    Quotient(20000 * mag + full, 2 * full)
  }

  /** The hundredths are the nearest integer to 10000 * |obt| / full, a tie
      rounding away from zero. */
  lemma HundredthsRounds(obt: int, full: int)
    requires full > 0
    ensures var mag := if obt < 0 then -obt else obt;
      var h := Hundredths(obt, full);
      2 * full * h <= 20000 * mag + full < 2 * full * (h + 1)
  {
    var mag := if obt < 0 then -obt else obt;
    QuotientBounds(20000 * mag + full, 2 * full);
    var h := Hundredths(obt, full);
    assert 2 * full * (h + 1) == 2 * full * h + 2 * full;
  }

  /** A text of the form `digits.dd`. */
  predicate IsFixed2(s: string)
  {
    |s| >= 4 && s[|s| - 3] == '.' && AllDigits(s[..|s| - 3]) && IsDigit(s[|s| - 2]) && IsDigit(s[|s| - 1])
  }

  /** The value of a `digits.dd` text, in hundredths. */
  function Fixed2Value(s: string): nat
    requires IsFixed2(s)
  {
    DigitsValue(s[..|s| - 3]) * 100 + DigitValue(s[|s| - 2]) * 10 + DigitValue(s[|s| - 1])
  }

  /** Two decimal places of a count of hundredths: the text reads back as
      that count. */
  function Fixed2(h: nat): (s: string)
    ensures IsFixed2(s) && Fixed2Value(s) == h
    ensures s[..|s| - 3] == NatToString(h / 100)
    ensures IsDigit(s[0])
  {
    var whole := NatToString(h / 100);
    var s := whole + "." + [DigitChar(h % 100 / 10), DigitChar(h % 10)];
    assert s[..|s| - 3] == whole;
    assert s[0] == whole[0];
    NatToStringValue(h / 100);
    assert h % 100 % 10 == h % 10;
    s
  }

  /** The percentage exactly as printed: `"0.00"` when the full total is not
      positive, otherwise the ratio with two decimals and a leading `-` for a
      negative obtained total. */
  function PercentText(obt: int, full: int): (s: string)
    ensures |s| >= 4
    ensures full <= 0 ==> s == "0.00"
  {
    if full > 0 then (if obt < 0 then "-" else "") + Fixed2(Hundredths(obt, full)) else "0.00"
  }

  /** For a positive full total the printed percentage starts with `-`
      exactly for a negative obtained total, and its digits read back as the
      hundredths nearest to 10000 * |obt| / full, a tie rounding up. */
  lemma PercentTextReadsBack(obt: int, full: int)
    requires full > 0
    ensures var s := PercentText(obt, full);
      var digits := if obt < 0 then s[1..] else s;
      var mag := if obt < 0 then -obt else obt;
      (s[0] == '-' <==> obt < 0) && digits == Fixed2(Hundredths(obt, full)) && IsFixed2(digits) &&
      2 * full * Fixed2Value(digits) <= 20000 * mag + full < 2 * full * (Fixed2Value(digits) + 1)
  {
    var h := Hundredths(obt, full);
    var s := PercentText(obt, full);
    var f := Fixed2(h);
    var digits := if obt < 0 then s[1..] else s;
    assert digits == f by {
      if obt < 0 {
        assert s == "-" + f;
      }
    }
    assert Fixed2Value(digits) == h;
    assert s[0] == '-' <==> obt < 0 by {
      if obt >= 0 {
        assert s[0] == f[0];
      }
    }
    HundredthsRounds(obt, full);
  }

  /** The derived figures of a mark-sheet. */
  datatype Summary = Summary(grandFull: int, grandObtained: int, percentage: string, result: Verdict)

  function Summarize(ms: seq<Marks>): (s: Summary)
    ensures s.grandFull == GrandFull(ms) && s.grandObtained == GrandObtained(ms)
    ensures s.percentage == PercentText(s.grandObtained, s.grandFull)
    ensures s.result == Pass <==> s.grandObtained >= PassThreshold
    ensures s.grandFull <= 0 ==> s.percentage == "0.00"
  {
    var full := GrandFull(ms);
    var obt := GrandObtained(ms);
    Summary(full, obt, PercentText(obt, full), ResultOf(obt))
  }

  /** An empty list of subjects gives zero totals, "0.00" and FAIL. */
  lemma SummarizeEmpty()
    ensures Summarize([]) == Summary(0, 0, "0.00", Fail)
  {
  }

  /** One subject of 75 + 25 full marks with 60 + 20 obtained: 80 of 100, "80.00", PASS. */
  lemma SummarizeOneSubject()
    ensures Summarize([Marks(75, 27, 60, 25, 9, 20)]) == Summary(100, 80, "80.00", Pass)
  {
    var ms := [Marks(75, 27, 60, 25, 9, 20)];
    assert ms[..0] == [];
    HundredthsRounds(80, 100);
    assert Hundredths(80, 100) == 8000;
    assert NatToString(80) == "80";
  }
}
