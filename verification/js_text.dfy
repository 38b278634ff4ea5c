/**
 * The small part of JavaScript's string and number semantics the application
 * relies on: the `\s` / `String.prototype.trim` whitespace set, `trim`,
 * `Number.prototype.toString` on non-negative integers, `padStart`, and the
 * `Number(string)` conversion, whose failures produce `NaN`.
 */
module JsText {

  /** An inclusive range of code points. */
  datatype CodeRange = CodeRange(lo: int, hi: int)

  /**
   * WhiteSpace and LineTerminator code points of ECMAScript (sections 12.2
   * and 12.3 of ECMA-262): the set matched by `\s` and removed by `trim`.
   */
  const WhitespaceRanges: seq<CodeRange> := [
    CodeRange(0x09, 0x0D), CodeRange(0x20, 0x20), CodeRange(0xA0, 0xA0), CodeRange(0x1680, 0x1680),
    CodeRange(0x2000, 0x200A), CodeRange(0x2028, 0x2029), CodeRange(0x202F, 0x202F), CodeRange(0x205F, 0x205F),
    CodeRange(0x3000, 0x3000), CodeRange(0xFEFF, 0xFEFF)
  ]

  predicate InRanges(n: int, ranges: seq<CodeRange>) {
    |ranges| > 0 && (ranges[0].lo <= n <= ranges[0].hi || InRanges(n, ranges[1..]))
  }

  /** `InRanges` holds exactly when some range contains `n`. */
  lemma {:induction false} InRangesSpec(n: int, ranges: seq<CodeRange>)
    ensures InRanges(n, ranges) <==> exists i :: 0 <= i < |ranges| && ranges[i].lo <= n <= ranges[i].hi
    decreases |ranges|
  {
    if |ranges| > 0 {
      InRangesSpec(n, ranges[1..]);
      assert forall i :: 1 <= i < |ranges| ==> ranges[i] == ranges[1..][i - 1];
    }
  }

  predicate IsWhitespace(c: char) {
    InRanges(c as int, WhitespaceRanges)
  }

  predicate IsBlank(s: string) {
    forall i :: 0 <= i < |s| ==> IsWhitespace(s[i])
  }

  /** Number of whitespace characters at the start of `s`. */
  function LeadingBlanks(s: string): (k: nat)
    ensures k <= |s|
  {
    if |s| > 0 && IsWhitespace(s[0]) then LeadingBlanks(s[1..]) + 1 else 0
  }

  /** Number of whitespace characters at the end of `s`. */
  function TrailingBlanks(s: string): (k: nat)
    ensures k <= |s|
  {
    if |s| > 0 && IsWhitespace(s[|s| - 1]) then TrailingBlanks(s[..|s| - 1]) + 1 else 0
  }

  /** `LeadingBlanks` counts exactly the whitespace run at the start. */
  lemma {:induction false} LeadingBlanksSpec(s: string)
    ensures forall i :: 0 <= i < LeadingBlanks(s) ==> IsWhitespace(s[i])
    ensures LeadingBlanks(s) < |s| ==> !IsWhitespace(s[LeadingBlanks(s)])
    decreases |s|
  {
    if |s| > 0 && IsWhitespace(s[0]) {
      LeadingBlanksSpec(s[1..]);
      assert forall i :: 1 <= i < |s| ==> s[i] == s[1..][i - 1];
    }
  }

  /** `TrailingBlanks` counts exactly the whitespace run at the end. */
  lemma {:induction false} TrailingBlanksSpec(s: string)
    ensures forall i :: |s| - TrailingBlanks(s) <= i < |s| ==> IsWhitespace(s[i])
    ensures TrailingBlanks(s) < |s| ==> !IsWhitespace(s[|s| - TrailingBlanks(s) - 1])
    decreases |s|
  {
    if |s| > 0 && IsWhitespace(s[|s| - 1]) {
      TrailingBlanksSpec(s[..|s| - 1]);
    }
  }

  /** `String.prototype.trim`. */
  function Trim(s: string): string {
    var t := s[LeadingBlanks(s)..];
    t[..|t| - TrailingBlanks(t)]
  }

  /** Trimming leaves nothing exactly when the string is blank, and changes nothing without blank ends. */
  lemma TrimSpec(s: string)
    ensures |Trim(s)| == 0 <==> IsBlank(s)
    ensures (|s| == 0 || (!IsWhitespace(s[0]) && !IsWhitespace(s[|s| - 1]))) ==> Trim(s) == s
  {
    LeadingBlanksSpec(s);
    var t := s[LeadingBlanks(s)..];
    TrailingBlanksSpec(t);
    if LeadingBlanks(s) < |s| {
      assert t[0] == s[LeadingBlanks(s)];
      assert TrailingBlanks(t) < |t|;
    }
  }

  predicate IsDigit(c: char) {
    '0' <= c <= '9'
  }

  predicate AllDigits(s: string) {
    forall i :: 0 <= i < |s| ==> IsDigit(s[i])
  }

  function DigitChar(d: nat): (c: char)
    requires d < 10
    ensures IsDigit(c)
  {
    ('0' as int + d) as char
  }

  function DigitValue(c: char): (d: nat)
    requires IsDigit(c)
    ensures d < 10 && DigitChar(d) == c
  {
    (c as int - '0' as int) as nat
  }

  /** The value of a run of decimal digits, most significant first. */
  function DigitsValue(s: string): nat
    requires AllDigits(s)
  {
    if |s| == 0 then 0 else DigitsValue(s[..|s| - 1]) * 10 + DigitValue(s[|s| - 1])
  }

  /** Leading zeros do not change the value of a digit string. */
  lemma {:induction false} LeadingZero(s: string)
    requires AllDigits(s)
    ensures AllDigits("0" + s) && DigitsValue("0" + s) == DigitsValue(s)
    decreases |s|
  {
    var z := "0" + s;
    if |s| == 0 {
      assert z[..0] == [];
    } else {
      assert z[..|z| - 1] == "0" + s[..|s| - 1];
      LeadingZero(s[..|s| - 1]);
    }
  }

  /** `n.toString()` for a non-negative integer: shortest decimal digits. */
  function Decimal(n: nat): string {
    if n < 10 then [DigitChar(n)] else Decimal(n / 10) + [DigitChar(n % 10)]
  }

  /** `Decimal` writes digits whose value is `n`, a single one exactly when `n < 10`. */
  lemma {:induction false} DecimalSpec(n: nat)
    ensures |Decimal(n)| >= 1 && AllDigits(Decimal(n))
    ensures DigitsValue(Decimal(n)) == n
    ensures n < 10 <==> |Decimal(n)| == 1
    decreases n
  {
    if n >= 10 {
      DecimalSpec(n / 10);
      var r := Decimal(n);
      assert r[..|r| - 1] == Decimal(n / 10) && r[|r| - 1] == DigitChar(n % 10);
      assert DigitsValue(r) == (n / 10) * 10 + n % 10;
    }
  }

  /** `s.padStart(2, "0")`: zeros in front up to length two. */
  function PadStart2(s: string): (r: string)
    ensures |r| == if |s| >= 2 then |s| else 2
    ensures r[|r| - |s|..] == s
    ensures forall i :: 0 <= i < |r| - |s| ==> r[i] == '0'
  {
    if |s| >= 2 then s else if |s| == 1 then "0" + s else "00"
  }

  /** Padding digits with zeros keeps their value. */
  lemma PadStart2Digits(s: string)
    requires AllDigits(s)
    ensures AllDigits(PadStart2(s)) && DigitsValue(PadStart2(s)) == DigitsValue(s)
  {
    if |s| == 1 {
      LeadingZero(s);
    } else if |s| == 0 {
      LeadingZero("0");
      assert "0" + "0" == "00";
    }
  }

  /** Digits, ':', '@' and '.' are not whitespace. */
  lemma NotWhitespace(c: char)
    requires IsDigit(c) || c in ":@."
    ensures !IsWhitespace(c)
  {
    InRangesSpec(c as int, WhitespaceRanges);
  }

  /** A JavaScript number restricted to the values this application produces. */
  datatype Num = Finite(value: int) | NaN

  /** `a < b`: false whenever either side is `NaN`. */
  predicate Less(a: Num, b: Num) {
    a.Finite? && b.Finite? && a.value < b.value
  }

  /**
   * `Number(s)`: surrounding whitespace is ignored, a blank string is 0, a run
   * of decimal digits is its value, and anything else is `NaN`.
   */
  function ToNumber(s: string): Num {
    var t := Trim(s);
    if |t| == 0 then Finite(0)
    else if AllDigits(t) then Finite(DigitsValue(t))
    else NaN
  }

  /** Blank strings convert to 0, digit strings to their value; numbers produced are never negative. */
  lemma ToNumberSpec(s: string)
    ensures IsBlank(s) ==> ToNumber(s) == Finite(0)
    ensures AllDigits(s) && |s| > 0 ==> ToNumber(s) == Finite(DigitsValue(s))
    ensures ToNumber(s).Finite? ==> ToNumber(s).value >= 0
  {
    TrimSpec(s);
    if AllDigits(s) && |s| > 0 {
      NotWhitespace(s[0]);
      NotWhitespace(s[|s| - 1]);
    }
  }

  /** Position of the first occurrence of `c`, or -1 (`indexOf`). */
  function IndexOf(s: string, c: char): (r: int)
    ensures -1 <= r < |s|
  {
    if |s| == 0 then -1
    else if s[0] == c then 0
    else
      var r := IndexOf(s[1..], c);
      if r == -1 then -1 else r + 1
  }

  /** -1 exactly when `c` does not occur; otherwise the first position holding `c`. */
  lemma {:induction false} IndexOfSpec(s: string, c: char)
    ensures IndexOf(s, c) == -1 <==> c !in s
    ensures IndexOf(s, c) >= 0 ==> s[IndexOf(s, c)] == c && c !in s[..IndexOf(s, c)]
    decreases |s|
  {
    if |s| > 0 && s[0] != c {
      IndexOfSpec(s[1..], c);
      assert s == [s[0]] + s[1..];
      var r := IndexOf(s[1..], c);
      if r >= 0 {
        assert s[..r + 1] == [s[0]] + s[1..][..r];
      }
    }
  }
}
