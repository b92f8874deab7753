/**
 * The few JavaScript built-ins the application relies on, over `string`:
 * `String.prototype.trim`, `toUpperCase`, `String(n)` for an integer,
 * `Number(s)` for a string of decimal digits, `x || fallback`,
 * `Number(x) || 0` and `s.replace(/\s+/g, "_")`.
 */
module JsBuiltins {
  import opened Wrappers

  // ---------------------------------------------------------------------------
  // Whitespace, trim and blank strings
  // ---------------------------------------------------------------------------

  /** The characters JavaScript's `trim` removes and `\s` matches:
      WhiteSpace and LineTerminator of ECMAScript. */
  predicate IsWhitespace(c: char)
  {
    var n := c as int;
    n == 0x09 || n == 0x0A || n == 0x0B || n == 0x0C || n == 0x0D || n == 0x20 ||
    n == 0xA0 || n == 0x1680 || (0x2000 <= n <= 0x200A) || n == 0x2028 || n == 0x2029 ||
    n == 0x202F || n == 0x205F || n == 0x3000 || n == 0xFEFF
  }

  predicate AllWhitespace(s: string)
  {
    forall i :: 0 <= i < |s| ==> IsWhitespace(s[i])
  }

  predicate NoWhitespace(s: string)
  {
    forall i :: 0 <= i < |s| ==> !IsWhitespace(s[i])
  }

  /** `s.trimStart()`: the longest suffix of `s` that does not start with whitespace. */
  function TrimStart(s: string): (r: string)
    ensures |r| <= |s| && r == s[|s| - |r|..]
    ensures r == [] || !IsWhitespace(r[0])
    ensures AllWhitespace(s[..|s| - |r|])
    decreases |s|
  {
    if s != [] && IsWhitespace(s[0]) then
      var r := TrimStart(s[1..]);
      assert s[1..][|s| - 1 - |r|..] == s[|s| - |r|..];
      assert s[..|s| - |r|] == [s[0]] + s[1..][..|s| - 1 - |r|];
      r
    else s
  }

  /** `s.trimEnd()`: the longest prefix of `s` that does not end with whitespace. */
  function TrimEnd(s: string): (r: string)
    ensures |r| <= |s| && r == s[..|r|]
    ensures r == [] || !IsWhitespace(r[|r| - 1])
    ensures AllWhitespace(s[|r|..])
    decreases |s|
  {
    if s != [] && IsWhitespace(s[|s| - 1]) then
      var r := TrimEnd(s[..|s| - 1]);
      assert s[..|s| - 1][..|r|] == s[..|r|];
      assert s[|r|..] == s[..|s| - 1][|r|..] + [s[|s| - 1]];
      r
    else s
  }

  /** `s.trim()` */
  function Trim(s: string): string
  {
    TrimEnd(TrimStart(s))
  }

  /** `!s.trim()`: the string trims to the empty string. */
  predicate IsBlank(s: string)
  {
    Trim(s) == ""
  }

  /** A string is blank exactly when every character of it is whitespace. */
  lemma BlankIffAllWhitespace(s: string)
    ensures IsBlank(s) <==> AllWhitespace(s)
  {
    var t := TrimStart(s);
    if !AllWhitespace(s) {
      var k :| 0 <= k < |s| && !IsWhitespace(s[k]);
      assert k >= |s| - |t|;
    }
  }

  // ---------------------------------------------------------------------------
  // Upper-casing and `x || fallback`
  // ---------------------------------------------------------------------------

  function UpperChar(c: char): char
  {
    if 'a' <= c <= 'z' then (c as int - 32) as char else c
  }

  /** `s.toUpperCase()` on the ASCII letters. */
  function ToUpper(s: string): (r: string)
    ensures |r| == |s|
    ensures forall i :: 0 <= i < |r| ==> !('a' <= r[i] <= 'z')
    ensures forall i :: 0 <= i < |s| && 'a' <= s[i] <= 'z' ==> r[i] as int == s[i] as int - 32
    ensures forall i :: 0 <= i < |s| && !('a' <= s[i] <= 'z') ==> r[i] == s[i]
  {
    seq(|s|, i requires 0 <= i < |s| => UpperChar(s[i]))
  }

  lemma ToUpperIdempotent(s: string)
    ensures ToUpper(ToUpper(s)) == ToUpper(s)
  {
  }

  /** `value || fallback` for a string-valued field: `undefined`, `null` and
      the empty string are falsy and give way to `fallback`. */
  function OrDefault(value: Option<string>, fallback: string): (r: string)
    ensures value.Some? && value.value != "" ==> r == value.value
    ensures value.None? || value.value == "" ==> r == fallback
  {
    if value.Some? && value.value != "" then value.value else fallback
  }

  // ---------------------------------------------------------------------------
  // Integers as decimal text
  // ---------------------------------------------------------------------------

  predicate IsDigit(c: char)
  {
    '0' <= c <= '9'
  }

  predicate AllDigits(s: string)
  {
    forall i :: 0 <= i < |s| ==> IsDigit(s[i])
  }

  function DigitChar(d: nat): (c: char)
    requires d < 10
    ensures IsDigit(c) && c as int - '0' as int == d
  {
    ('0' as int + d) as char
  }

  function DigitValue(c: char): nat
    requires IsDigit(c)
  {
    c as int - '0' as int
  }

  /** `String(n)` for a natural number: its shortest decimal digits. */
  function NatToString(n: nat): (s: string)
    ensures |s| >= 1 && AllDigits(s)
    ensures |s| > 1 ==> s[0] != '0'
  {
    if n < 10 then [DigitChar(n)] else NatToString(n / 10) + [DigitChar(n % 10)]
  }

  /** `String(n)` for an integer (no exponent form: magnitudes below 10^21). */
  function IntToString(n: int): (s: string)
    ensures |s| >= 1
    ensures n < 0 <==> s[0] == '-'
  {
    if n < 0 then "-" + NatToString(-n) else NatToString(n)
  }

  /** `String(n)` is canonical: a `-` only for a negative integer, then the
      magnitude's shortest digits, so never a `+` and never a leading zero. */
  lemma IntToStringCanonical(n: int)
    ensures IntToString(n) == (if n < 0 then "-" else "") + NatToString(if n < 0 then -n else n)
    ensures |IntToString(n)| > 1 && n >= 0 ==> IntToString(n)[0] != '0'
    ensures |IntToString(n)| > 2 && n < 0 ==> IntToString(n)[1] != '0'
  {
  }

  /** The value of a string of decimal digits. */
  function DigitsValue(s: string): nat
    requires AllDigits(s)
  {
    if s == [] then 0 else DigitsValue(s[..|s| - 1]) * 10 + DigitValue(s[|s| - 1])
  }

  /** `Number(s)` for a trimmed, non-empty string: an optional sign followed by
      at least one decimal digit; anything else is `NaN` (`None`). */
  function ParseDecimal(s: string): Option<int>
  {
    if |s| >= 2 && s[0] == '-' && AllDigits(s[1..]) then Some(-(DigitsValue(s[1..]) as int))
    else if |s| >= 2 && s[0] == '+' && AllDigits(s[1..]) then Some(DigitsValue(s[1..]))
    else if |s| >= 1 && AllDigits(s) then Some(DigitsValue(s))
    else None
  }

  lemma {:induction false} NatToStringValue(n: nat)
    ensures DigitsValue(NatToString(n)) == n
  {
    if n >= 10 {
      var s := NatToString(n);
      NatToStringValue(n / 10);
      assert s[..|s| - 1] == NatToString(n / 10);
    }
  }

  /** Reading back the text of an integer yields the integer. */
  lemma IntToStringRoundTrip(n: int)
    ensures ParseDecimal(IntToString(n)) == Some(n)
  {
    var s := IntToString(n);
    if n < 0 {
      assert s[1..] == NatToString(-n);
      NatToStringValue(-n);
    } else {
      NatToStringValue(n);
    }
  }

  /** Distinct integers have distinct texts. */
  lemma IntToStringInjective(m: int, n: int)
    requires IntToString(m) == IntToString(n)
    ensures m == n
  {
    IntToStringRoundTrip(m);
    IntToStringRoundTrip(n);
  }

  // ---------------------------------------------------------------------------
  // `Number(x) || 0`
  // ---------------------------------------------------------------------------

  /** The JSON values the model admits for a numeric form field: arrays and
      objects are not among them. */
  datatype JsValue = Undefined | Null | Bool(b: bool) | Num(n: int) | Str(s: string)

  /** `Number(s)`: surrounding whitespace is ignored and the empty string is 0. */
  function StringToNumber(s: string): Option<int>
  {
    var t := Trim(s);
    if t == "" then Some(0) else ParseDecimal(t)
  }

  /** `Number(v)`, `None` standing for `NaN`. */
  function ToNumber(v: JsValue): Option<int>
  {
    match v
    case Undefined => None
    case Null => Some(0)
    case Bool(b) => Some(if b then 1 else 0)
    case Num(n) => Some(n)
    case Str(s) => StringToNumber(s)
  }

  /** `Number(v) || 0`: `NaN` (and 0) become 0, so the result is always a number. */
  function Coerce(v: JsValue): (r: int)
    ensures ToNumber(v).None? ==> r == 0
    ensures ToNumber(v).Some? ==> r == ToNumber(v).value
  {
    match ToNumber(v)
    case Some(n) => n
    case None => 0
  }

  /** A number typed into a field as text is read back unchanged, with or
      without surrounding whitespace. */
  lemma {:induction false} CoerceReadsIntegerText(n: int, pad: string)
    requires AllWhitespace(pad)
    ensures Coerce(Str(pad + IntToString(n) + pad)) == n
  {
    var s := IntToString(n);
    var t := pad + s + pad;
    IntToStringRoundTrip(n);
    TrimOfPadded(pad, s);
  }

  /** Trimming removes exactly the whitespace padding around a text that
      starts and ends with a non-whitespace character. */
  lemma TrimOfPadded(pad: string, s: string)
    requires AllWhitespace(pad)
    requires s != [] && !IsWhitespace(s[0]) && !IsWhitespace(s[|s| - 1])
    ensures Trim(pad + s + pad) == s
  {
    var t := pad + s + pad;
    var a := TrimStart(t);
    assert t[|pad|] == s[0];
    assert a == s + pad;
    var b := TrimEnd(a);
    assert a[|s| - 1] == s[|s| - 1];
    assert b == s;
  }

  /** A character that is not whitespace survives trimming. */
  lemma TrimKeeps(s: string, i: nat)
    requires i < |s| && !IsWhitespace(s[i])
    ensures exists j :: 0 <= j < |Trim(s)| && Trim(s)[j] == s[i]
  {
    var a := TrimStart(s);
    var k := i - (|s| - |a|);
    assert 0 <= k < |a| && a[k] == s[i];
    var t := TrimEnd(a);
    assert k < |t| && t[k] == s[i];
    assert Trim(s)[k] == s[i];
  }

  /** Every character of a text `Number` reads is a digit or a sign. */
  lemma ParsedTextIsNumeric(t: string, j: nat)
    requires ParseDecimal(t).Some? && j < |t|
    ensures IsDigit(t[j]) || t[j] == '-' || t[j] == '+'
  {
    if j > 0 && (t[0] == '-' || t[0] == '+') {
      assert t[j] == t[1..][j - 1];
    }
  }

  /** Values JavaScript cannot read as a number coerce to 0 without failing. */
  lemma CoerceUnparsableIsZero(s: string, i: nat)
    requires i < |s| && !IsDigit(s[i]) && !IsWhitespace(s[i]) && s[i] != '-' && s[i] != '+'
    ensures Coerce(Str(s)) == 0
  {
    TrimKeeps(s, i);
    var t := Trim(s);
    var j :| 0 <= j < |t| && t[j] == s[i];
    if ParseDecimal(t).Some? {
      ParsedTextIsNumeric(t, j);
    }
  }

  // ---------------------------------------------------------------------------
  // `s.replace(/\s+/g, "_")`
  // ---------------------------------------------------------------------------

  /** The scan behind `s.replace(/\s+/g, "_")`: a whitespace character
      writes an underscore unless it continues a run already replaced
      (`inRun`); any other character is copied. */
  function ReplaceRuns(s: string, inRun: bool): (r: string)
    ensures NoWhitespace(r)
    ensures |r| <= |s|
    decreases |s|
  {
    if s == [] then []
    else if IsWhitespace(s[0]) then (if inRun then "" else "_") + ReplaceRuns(s[1..], true)
    else [s[0]] + ReplaceRuns(s[1..], false)
  }

  /** Every maximal run of whitespace in `s` replaced by one underscore. */
  function ReplaceWhitespaceRuns(s: string): (r: string)
    ensures NoWhitespace(r)
    ensures |r| <= |s|
  {
    ReplaceRuns(s, false)
  }

  lemma {:induction false} ReplaceRunsKeeps(s: string, inRun: bool)
    requires NoWhitespace(s)
    ensures ReplaceRuns(s, inRun) == s
    decreases |s|
  {
    if s != [] {
      ReplaceRunsKeeps(s[1..], false);
    }
  }

  /** A string without whitespace is left as it is. */
  lemma ReplaceWhitespaceRunsKeeps(s: string)
    requires NoWhitespace(s)
    ensures ReplaceWhitespaceRuns(s) == s
  {
    ReplaceRunsKeeps(s, false);
  }

  /** Replacing twice is replacing once. */
  lemma ReplaceWhitespaceRunsIdempotent(s: string)
    ensures ReplaceWhitespaceRuns(ReplaceWhitespaceRuns(s)) == ReplaceWhitespaceRuns(s)
  {
    ReplaceWhitespaceRunsKeeps(ReplaceWhitespaceRuns(s));
  }

  /** A run of whitespace writes one underscore, or none when it continues a
      run, and the scan leaves it inside a run. */
  lemma {:induction false} ReplaceRunsAcrossWhitespace(w: string, b: string, inRun: bool)
    requires w != [] && AllWhitespace(w)
    ensures ReplaceRuns(w + b, inRun) == (if inRun then "" else "_") + ReplaceRuns(b, true)
    decreases |w|
  {
    var s := w + b;
    assert s[0] == w[0] && s[1..] == w[1..] + b;
    if w[1..] == [] {
      assert w[1..] + b == b;
    } else {
      ReplaceRunsAcrossWhitespace(w[1..], b, true);
    }
  }

  /** After a run, a text that does not start with whitespace is scanned as
      from the start. */
  lemma ReplaceRunsLeavesRun(b: string)
    requires b == [] || !IsWhitespace(b[0])
    ensures ReplaceRuns(b, true) == ReplaceRuns(b, false)
  {
  }

  /** Regrouping `head + (x + "_" + y)`, kept apart so the join proof below
      does not reason about concatenation of its recursive calls. */
  lemma JoinAfterHead(head: string, x: string, y: string)
    ensures head + (x + "_" + y) == head + x + "_" + y
  {
  }

  lemma {:induction false} ReplaceRunsJoin(a: string, w: string, b: string, inRun: bool)
    requires a == [] ==> !inRun
    requires a == [] || !IsWhitespace(a[|a| - 1])
    requires w != [] && AllWhitespace(w)
    requires b == [] || !IsWhitespace(b[0])
    ensures ReplaceRuns(a + w + b, inRun) == ReplaceRuns(a, inRun) + "_" + ReplaceRuns(b, false)
    decreases |a|
  {
    if a == [] {
      assert a + w + b == w + b;
      ReplaceRunsAcrossWhitespace(w, b, inRun);
      ReplaceRunsLeavesRun(b);
    } else {
      var s := a + w + b;
      assert s[0] == a[0] && s[1..] == a[1..] + w + b;
      var next := IsWhitespace(a[0]);
      var head := if next then (if inRun then "" else "_") else [a[0]];
      assert a[1..] == [] ==> !next;
      if a[1..] != [] {
        assert a[1..][|a[1..]| - 1] == a[|a| - 1];
      }
      assert ReplaceRuns(s, inRun) == head + ReplaceRuns(a[1..] + w + b, next);
      assert ReplaceRuns(a, inRun) == head + ReplaceRuns(a[1..], next);
      ReplaceRunsJoin(a[1..], w, b, next);
      JoinAfterHead(head, ReplaceRuns(a[1..], next), ReplaceRuns(b, false));
    }
  }

  /** A run of whitespace between two texts becomes one underscore, and the
      texts on either side are replaced on their own. */
  lemma ReplaceWhitespaceRunsJoin(a: string, w: string, b: string)
    requires a == [] || !IsWhitespace(a[|a| - 1])
    requires w != [] && AllWhitespace(w)
    requires b == [] || !IsWhitespace(b[0])
    ensures ReplaceWhitespaceRuns(a + w + b) == ReplaceWhitespaceRuns(a) + "_" + ReplaceWhitespaceRuns(b)
  {
    ReplaceRunsJoin(a, w, b, false);
  }
}
