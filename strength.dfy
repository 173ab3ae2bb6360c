/**
 * The password-strength meter of the registration form: five independent tests
 * on the raw (untrimmed) password each add one point, and the score is shown as
 * weak, medium or strong.  The bar's colours and texts are presentation.
 */
module PasswordStrength {
  import opened Text

  datatype Level = Weak | Medium | Strong

  predicate IsAsciiLower(c: char) { 'a' <= c <= 'z' }
  predicate IsAsciiUpper(c: char) { 'A' <= c <= 'Z' }
  /** `\d`: the ASCII digits only. */
  predicate IsAsciiDigit(c: char) { '0' <= c <= '9' }
  /** One character of the class `[^a-zA-Z\d]`. */
  predicate IsSymbol(c: char) { !IsAsciiLower(c) && !IsAsciiUpper(c) && !IsAsciiDigit(c) }

  predicate HasLower(s: string) { exists k :: 0 <= k < |s| && IsAsciiLower(s[k]) }
  predicate HasUpper(s: string) { exists k :: 0 <= k < |s| && IsAsciiUpper(s[k]) }
  predicate HasDigit(s: string) { exists k :: 0 <= k < |s| && IsAsciiDigit(s[k]) }
  predicate HasSymbol(s: string) { exists k :: 0 <= k < |s| && IsSymbol(s[k]) }

  /** 1 for a test that passes, 0 otherwise. */
  function Point(b: bool): nat { if b then 1 else 0 }

  /** The score as the number of tests the password passes. */
  function Score(s: string): (r: nat)
    ensures r <= 5
  {
    var n := Utf16Length(s);
    Point(n >= 6) + Point(n >= 10) + Point(HasLower(s) && HasUpper(s)) +
    Point(HasDigit(s)) + Point(HasSymbol(s))
  }

  /** The three bands of the meter. */
  function Classify(score: nat): (l: Level)
    ensures l == Weak <==> score <= 2
    ensures l == Medium <==> 3 <= score <= 4
    ensures l == Strong <==> score >= 5
  {
    if score <= 2 then Weak else if score <= 4 then Medium else Strong
  }

  /** `checkStrength`: counts the tests one by one and picks the band. */
  method CheckStrength(value: string) returns (strength: nat, level: Level)
    ensures strength == Score(value)
    ensures level == Classify(strength)
  {
    strength := 0;
    var n := Utf16Length(value);
    if n >= 6 { strength := strength + 1; }
    if n >= 10 { strength := strength + 1; }
    if HasLower(value) && HasUpper(value) { strength := strength + 1; }
    if HasDigit(value) { strength := strength + 1; }
    if HasSymbol(value) { strength := strength + 1; }
    if strength <= 2 {
      level := Weak;
    } else if strength <= 4 {
      level := Medium;
    } else {
      level := Strong;
    }
  }

  /** A password is rated strong iff it is at least ten code units long and
      has an ASCII lower-case letter, an upper-case letter, a digit and a
      character that is none of these. */
  lemma StrongIff(s: string)
    ensures Classify(Score(s)) == Strong <==>
      Utf16Length(s) >= 10 && HasLower(s) && HasUpper(s) && HasDigit(s) && HasSymbol(s)
  {
  }

  /** Below six code units the length tests give nothing, so the score is at
      most three and the password is never rated strong. */
  lemma ShortPasswordNotStrong(s: string)
    requires Utf16Length(s) < 6
    ensures Score(s) <= 3 && Classify(Score(s)) != Strong
  {
  }

  /** Typing more characters never lowers the score: every test, once passed,
      stays passed when the password grows. */
  lemma ScoreMonotone(s: string, more: string)
    ensures Score(s) <= Score(s + more)
  {
    var t := s + more;
    Utf16LengthAppend(s, more);
    forall k | 0 <= k < |s| ensures t[k] == s[k] {}
    if HasLower(s) { var k :| 0 <= k < |s| && IsAsciiLower(s[k]); assert t[k] == s[k]; }
    if HasUpper(s) { var k :| 0 <= k < |s| && IsAsciiUpper(s[k]); assert t[k] == s[k]; }
    if HasDigit(s) { var k :| 0 <= k < |s| && IsAsciiDigit(s[k]); assert t[k] == s[k]; }
    if HasSymbol(s) { var k :| 0 <= k < |s| && IsSymbol(s[k]); assert t[k] == s[k]; }
  }

  lemma ScoreExamples()
    ensures Score("") == 0
    ensures Classify(Score("Secret1!xy")) == Strong
    ensures Classify(Score("aB1!")) == Medium
  {
    var p := "Secret1!xy";
    assert IsAsciiUpper(p[0]) && IsAsciiLower(p[1]) && IsAsciiDigit(p[6]) && IsSymbol(p[7]);
    var q := "aB1!";
    assert IsAsciiLower(q[0]) && IsAsciiUpper(q[1]) && IsAsciiDigit(q[2]) && IsSymbol(q[3]);
  }
}
