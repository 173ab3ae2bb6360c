/**
 * The two fixed regular expressions of the validation rule table, written as
 * predicates on strings.  Neither pattern has flags, so `test` is stateless and
 * case-sensitive.
 */
module Patterns {
  import opened Text

  // ---------------------------------------------------------------- name

  /** One character of the class `[а-яА-ЯёЁa-zA-Z\s]`: basic Cyrillic letters
      U+0430..U+044F and U+0410..U+042F, the letters ё and Ё, ASCII letters and
      whitespace. */
  predicate IsNameChar(c: char) {
    ('\U{0430}' <= c <= '\U{044F}') || ('\U{0410}' <= c <= '\U{042F}') ||
    c == '\U{0451}' || c == '\U{0401}' ||
    ('a' <= c <= 'z') || ('A' <= c <= 'Z') ||
    IsSpace(c)
  }

  /** The name pattern `^[а-яА-ЯёЁa-zA-Z\s]+$`. */
  predicate IsName(s: string) {
    |s| > 0 && forall k :: 0 <= k < |s| ==> IsNameChar(s[k])
  }

  /** A first name and a last name joined by a space form a name. */
  lemma NameJoin(first: string, last: string)
    requires IsName(first) && IsName(last)
    ensures IsName(first + " " + last)
  {
    var s := first + " " + last;
    forall k | 0 <= k < |s| ensures IsNameChar(s[k]) {
      if k < |first| {
        assert s[k] == first[k];
      } else if k > |first| {
        assert s[k] == last[k - |first| - 1];
      }
    }
  }

  lemma NameExamples()
    ensures IsName("Анна Иванова")
    ensures IsName("John Smith")
    ensures !IsName("John123")
  {
    NameJoin("Анна", "Иванова");
    NameJoin("John", "Smith");
    assert !IsNameChar("John123"[4]);
  }

  // --------------------------------------------------------------- email

  /** One character of the class `[^\s@]`. */
  predicate IsPlainChar(c: char) {
    !IsSpace(c) && c != '@'
  }

  /** A string made only of `[^\s@]` characters. */
  predicate Plain(s: string) {
    forall k :: 0 <= k < |s| ==> IsPlainChar(s[k])
  }

  /** The three non-empty `[^\s@]+` pieces of `s == a@b.c`. */
  predicate EmailParts(s: string, a: string, b: string, c: string) {
    a != [] && b != [] && c != [] && Plain(a) && Plain(b) && Plain(c) &&
    s == a + "@" + b + "." + c
  }

  /** The email pattern `^[^\s@]+@[^\s@]+\.[^\s@]+$`, read off the regular
      expression: some split of `s` into its three pieces exists. */
  ghost predicate EmailShape(s: string) {
    exists a, b, c :: EmailParts(s, a, b, c)
  }

  /** Index of the first `x` in `s`, or `|s|` when there is none. */
  function IndexOf(s: string, x: char): (i: nat)
    ensures i <= |s|
    ensures i < |s| ==> s[i] == x
    ensures forall k :: 0 <= k < i ==> s[k] != x
  {
    if s == [] || s[0] == x then 0 else 1 + IndexOf(s[1..], x)
  }

  /** A direct test of the email pattern: a non-empty plain local part before
      the first '@', then a plain domain of at least three characters with a
      '.' strictly inside it. */
  predicate IsEmail(s: string) {
    var i := IndexOf(s, '@');
    0 < i < |s| && Plain(s[..i]) &&
    var d := s[i + 1..];
    Plain(d) && 3 <= |d| && '.' in d[1..|d| - 1]
  }

  lemma PlainConcat(a: string, b: string)
    requires Plain(a) && Plain(b)
    ensures Plain(a + b)
  {
    forall k | 0 <= k < |a + b| ensures IsPlainChar((a + b)[k]) {
      if k >= |a| { assert (a + b)[k] == b[k - |a|]; }
    }
  }

  /** The direct test accepts exactly the strings the pattern matches. */
  lemma EmailTestMatchesPattern(s: string)
    ensures IsEmail(s) <==> EmailShape(s)
  {
    if IsEmail(s) { EmailTestSound(s); }
    if EmailShape(s) { EmailTestComplete(s); }
  }

  /** Every string the direct test accepts splits as a@b.c. */
  lemma {:induction false} EmailTestSound(s: string)
    requires IsEmail(s)
    ensures EmailShape(s)
  {
    var i := IndexOf(s, '@');
    var d := s[i + 1..];
    var inner := d[1..|d| - 1];
    var j := 1 + IndexOf(inner, '.');
    assert d[j] == '.';
    var a, b, c := s[..i], d[..j], d[j + 1..];
    assert Plain(b) by {
      forall k | 0 <= k < |b| ensures IsPlainChar(b[k]) { assert b[k] == d[k]; }
    }
    assert Plain(c) by {
      forall k | 0 <= k < |c| ensures IsPlainChar(c[k]) { assert c[k] == d[j + 1 + k]; }
    }
    assert d == b + "." + c;
    assert s == a + "@" + d;
    assert EmailParts(s, a, b, c);
  }

  /** Every a@b.c split passes the direct test. */
  lemma {:induction false} EmailTestComplete(s: string)
    requires EmailShape(s)
    ensures IsEmail(s)
  {
    var a, b, c :| EmailParts(s, a, b, c);
    var i := IndexOf(s, '@');
    assert s[|a|] == '@';
    assert forall k :: 0 <= k < |a| ==> s[k] == a[k];
    assert i == |a|;
    assert s[..i] == a;
    var d := s[i + 1..];
    assert d == b + "." + c;
    assert IsPlainChar('.');
    PlainConcat(b, ".");
    PlainConcat(b + ".", c);
    assert d[|b|] == '.';
    assert d[1..|d| - 1][|b| - 1] == '.';
  }

  /** An address the email pattern accepts. */
  lemma EmailAccepted()
    ensures IsEmail("a@b.co")
  {
    var good := "a@b.co";
    assert IndexOf(good, '@') == 1;
    assert good[..1] == "a" && good[2..] == "b.co";
    assert Plain("b.co") by {
      forall k | 0 <= k < 4 ensures IsPlainChar("b.co"[k]) { }
    }
    assert "b.co"[1..3][0] == '.';
  }

  /** Strings the email pattern rejects: no dot in the domain, a space in the
      local part, an empty local part. */
  lemma EmailRejected()
    ensures !IsEmail("a@b")
    ensures !IsEmail("a b@c.com")
    ensures !IsEmail("@b.com")
  {
    var spaced := "a b@c.com";
    assert IndexOf(spaced, '@') == 3;
    assert !IsPlainChar(spaced[..3][1]);
  }
}
