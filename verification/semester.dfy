/** The semester code translator: the form's numeric semester choice becomes
    the label the results service expects. */
module Semester {

  /** The values the semester select offers: an empty placeholder and "1" to "8". */
  const SelectOptions: seq<string> := ["", "1", "2", "3", "4", "5", "6", "7", "8"]

  /** The lookup table behind the translator, keyed by semester code. */
  const SemesterMap: map<string, string> := map[
    "1" := "Semester-I",
    "2" := "Semester-II",
    "3" := "Semester-III",
    "4" := "Semester-IV",
    "5" := "Semester-V",
    "6" := "Semester-VI",
    "7" := "Semester-VII",
    "8" := "Semester-VIII"
  ]

  /** A code the translator knows: exactly one decimal digit from 1 to 8. */
  predicate IsSemesterCode(code: string) {
    |code| == 1 && '1' <= code[0] <= '8'
  }

  /** The semester number a code stands for. */
  function CodeValue(code: string): (n: nat)
    requires IsSemesterCode(code)
    ensures 1 <= n <= 8
  {
    (code[0] as int) - ('0' as int)
  }

  /** The code that stands for semester `n`. */
  function Digit(n: nat): (code: string)
    requires 1 <= n <= 8
    ensures IsSemesterCode(code) && CodeValue(code) == n
  {
    [(('0' as int) + n) as char]
  }

  /** Roman numerals by the usual subtractive rule for numbers below 40,
      independent of the table. */
  function Roman(n: nat): string
    decreases n
  {
    if n >= 10 then "X" + Roman(n - 10)
    else if n == 9 then "IX"
    else if n >= 5 then "V" + Roman(n - 5)
    else if n == 4 then "IV"
    else if n >= 1 then "I" + Roman(n - 1)
    else ""
  }

  /** The table's keys are exactly the semester codes, and each holds the
      code's Roman spelling. */
  lemma TableKeys(code: string)
    ensures code in SemesterMap <==> IsSemesterCode(code)
    ensures IsSemesterCode(code) ==> SemesterMap[code] == "Semester-" + Roman(CodeValue(code))
  {
    if IsSemesterCode(code) {
      assert code == [code[0]];
      var n := CodeValue(code);
      if n == 1 { assert code == "1"; }
      else if n == 2 { assert code == "2"; }
      else if n == 3 { assert code == "3"; }
      else if n == 4 { assert code == "4"; }
      else if n == 5 { assert code == "5"; }
      else if n == 6 { assert code == "6"; }
      else if n == 7 { assert code == "7"; }
      else { assert code == "8"; }
    }
  }

  /** `semesterMap[semNum] || ""`: the label for a known code, the empty string
      for anything else. */
  function ConvertSemester(semNum: string): (name: string)
    ensures name != "" <==> IsSemesterCode(semNum)
    ensures IsSemesterCode(semNum) ==> name == "Semester-" + Roman(CodeValue(semNum))
    ensures !IsSemesterCode(semNum) ==> name == ""
  {
    TableKeys(semNum);
    if semNum in SemesterMap && SemesterMap[semNum] != "" then SemesterMap[semNum] else ""
  }

  /** Distinct codes never share a label, so the service can tell which
      semester was asked for. */
  lemma ConvertSemesterInjective(a: string, b: string)
    requires ConvertSemester(a) == ConvertSemester(b) != ""
    ensures a == b
  {
    var m, n := CodeValue(a), CodeValue(b);
    assert Roman(m) == ConvertSemester(a)[9..];
    assert Roman(n) == ConvertSemester(b)[9..];
    RomanInjective(m, n);
    assert Digit(m) == a by { TableKeys(a); }
    assert Digit(n) == b by { TableKeys(b); }
  }

  /** The value of one numeral letter; 0 for anything else. */
  function LetterValue(c: char): nat {
    if c == 'I' then 1 else if c == 'V' then 5 else if c == 'X' then 10 else 0
  }

  /** Reads a Roman numeral: a letter smaller than the one after it is
      subtracted from it, every other letter is added. */
  function RomanValue(s: string): int
    decreases |s|
  {
    if |s| == 0 then 0
    else if |s| >= 2 && LetterValue(s[0]) < LetterValue(s[1]) then
      LetterValue(s[1]) - LetterValue(s[0]) + RomanValue(s[2..])
    else LetterValue(s[0]) + RomanValue(s[1..])
  }

  /** The letter a numeral starts with is worth at most ten, and at most one
      below five. */
  lemma RomanLead(n: nat)
    requires n > 0
    ensures |Roman(n)| > 0
    ensures LetterValue(Roman(n)[0]) <= 10
    ensures n < 5 ==> LetterValue(Roman(n)[0]) == 1
  {
  }

  /** A letter followed by no larger letter is simply added. */
  lemma AddLeadingLetter(c: char, r: string)
    requires r == [] || LetterValue(r[0]) <= LetterValue(c)
    ensures RomanValue([c] + r) == LetterValue(c) + RomanValue(r)
  {
    assert ([c] + r)[1..] == r;
    if r != [] { assert ([c] + r)[1] == r[0]; }
  }

  /** Reading back the numeral written for `n` gives `n`. */
  lemma {:induction false} RomanRoundTrip(n: nat)
    ensures RomanValue(Roman(n)) == n
    decreases n
  {
    if n >= 10 {
      RomanRoundTrip(n - 10);
      if n > 10 { RomanLead(n - 10); }
      AddLeadingLetter('X', Roman(n - 10));
    } else if n == 9 {
      assert RomanValue("IX") == 9;
    } else if n >= 5 {
      RomanRoundTrip(n - 5);
      if n > 5 { RomanLead(n - 5); }
      AddLeadingLetter('V', Roman(n - 5));
    } else if n == 4 {
      assert RomanValue("IV") == 4;
    } else if n >= 1 {
      RomanRoundTrip(n - 1);
      if n > 1 { RomanLead(n - 1); }
      AddLeadingLetter('I', Roman(n - 1));
    }
  }

  /** Distinct numbers have distinct numerals. */
  lemma RomanInjective(m: nat, n: nat)
    requires Roman(m) == Roman(n)
    ensures m == n
  {
    RomanRoundTrip(m);
    RomanRoundTrip(n);
  }

  /** Every non-placeholder choice of the semester select has a label. */
  lemma SelectOptionsTranslate(code: string)
    requires code in SelectOptions
    ensures ConvertSemester(code) == "" <==> code == ""
  {
  }
}
