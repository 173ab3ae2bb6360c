/**
 * Strings as the browser's JavaScript sees them: the whitespace class shared by
 * `String.prototype.trim` and the regular-expression escape `\s`, trimming, and
 * the `length` property, which counts UTF-16 code units rather than characters.
 */
module Text {

  /** ECMAScript WhiteSpace and LineTerminator code points: exactly what `trim`
      removes and what `\s` matches. */
  predicate IsSpace(c: char) {
    c == '\t' || c == '\n' || c == '\U{000B}' || c == '\U{000C}' || c == '\r' ||
    c == ' ' || c == '\U{00A0}' || c == '\U{1680}' ||
    ('\U{2000}' <= c <= '\U{200A}') ||
    c == '\U{2028}' || c == '\U{2029}' || c == '\U{202F}' || c == '\U{205F}' ||
    c == '\U{3000}' || c == '\U{FEFF}'
  }

  predicate AllSpace(s: string) {
    forall k :: 0 <= k < |s| ==> IsSpace(s[k])
  }

  /** True when `s` has no whitespace at either end (the empty string counts). */
  predicate Unpadded(s: string) {
    s == [] || (!IsSpace(s[0]) && !IsSpace(s[|s| - 1]))
  }

  /** Length of the longest all-whitespace prefix of `s`. */
  function LeadingSpace(s: string): (n: nat)
    ensures n <= |s|
    ensures AllSpace(s[..n])
    ensures n < |s| ==> !IsSpace(s[n])
  {
    if s == [] || !IsSpace(s[0]) then 0
    else
      var m := LeadingSpace(s[1..]);
      assert s[..1 + m] == [s[0]] + s[1..][..m];
      1 + m
  }

  /** Length of the longest all-whitespace suffix of `s`. */
  function TrailingSpace(s: string): (n: nat)
    ensures n <= |s|
    ensures AllSpace(s[|s| - n..])
    ensures n < |s| ==> !IsSpace(s[|s| - 1 - n])
  {
    if s == [] || !IsSpace(s[|s| - 1]) then 0
    else
      var init := s[..|s| - 1];
      var m := TrailingSpace(init);
      assert s[|s| - (1 + m)..] == init[|init| - m..] + [s[|s| - 1]];
      1 + m
  }

  /** `String.prototype.trim`: drops the whitespace at both ends. */
  function Trim(s: string): (t: string)
    ensures |t| <= |s|
    ensures Unpadded(t)
    ensures t == [] <==> AllSpace(s)
  {
    var lo := LeadingSpace(s);
    var rest := s[lo..];
    var t := rest[..|rest| - TrailingSpace(rest)];
    assert t != [] ==> t[0] == s[lo];
    assert AllSpace(s) ==> lo == |s|;
    assert lo == |s| ==> AllSpace(s) by {
      if lo == |s| { assert s[..lo] == s; }
    }
    t
  }

  lemma {:induction false} LeadingSpaceAfterPadding(pre: string, s: string)
    requires AllSpace(pre)
    ensures LeadingSpace(pre + s) == |pre| + LeadingSpace(s)
  {
    if pre != [] {
      assert (pre + s)[1..] == pre[1..] + s;
      LeadingSpaceAfterPadding(pre[1..], s);
    } else {
      assert pre + s == s;
    }
  }

  lemma {:induction false} TrailingSpaceBeforePadding(s: string, post: string)
    requires AllSpace(post)
    ensures TrailingSpace(s + post) == TrailingSpace(s) + |post|
  {
    if post != [] {
      var p := post[..|post| - 1];
      assert (s + post)[..|s + post| - 1] == s + p;
      TrailingSpaceBeforePadding(s, p);
    } else {
      assert s + post == s;
    }
  }

  /** Trim removes exactly the whitespace padding around a string: whatever
      whitespace surrounds an unpadded middle, trimming gives back the middle. */
  lemma TrimRemovesPadding(pre: string, mid: string, post: string)
    requires AllSpace(pre) && AllSpace(post) && Unpadded(mid)
    ensures Trim(pre + mid + post) == mid
  {
    var s := pre + mid + post;
    if mid == [] {
      assert s == pre + post;
      assert AllSpace(s) by {
        forall k | 0 <= k < |s| ensures IsSpace(s[k]) {
          if k < |pre| { assert s[k] == pre[k]; } else { assert s[k] == post[k - |pre|]; }
        }
      }
    } else {
      assert s == pre + (mid + post);
      LeadingSpaceAfterPadding(pre, mid + post);
      assert LeadingSpace(mid + post) == 0;
      var rest := s[|pre|..];
      assert rest == mid + post;
      TrailingSpaceBeforePadding(mid, post);
      assert TrailingSpace(mid) == 0;
      assert rest[..|rest| - |post|] == mid;
    }
  }

  /** Trim only removes whitespace: the result sits inside `s` between an
      all-whitespace prefix and an all-whitespace suffix. */
  lemma {:induction false} TrimDecomposes(s: string)
    ensures var lo := LeadingSpace(s); var t := Trim(s);
      lo + |t| <= |s| && s[lo..lo + |t|] == t &&
      AllSpace(s[..lo]) && AllSpace(s[lo + |t|..])
  {
    var lo := LeadingSpace(s);
    var rest := s[lo..];
    var n := TrailingSpace(rest);
    var t := rest[..|rest| - n];
    assert Trim(s) == t;
    assert lo + |t| <= |s|;
    assert s[lo..lo + |t|] == t by {
      forall k | 0 <= k < |t| ensures s[lo + k] == t[k] { assert t[k] == rest[k]; }
    }
    assert AllSpace(s[..lo]);
    assert AllSpace(s[lo + |t|..]) by {
      assert AllSpace(rest[|rest| - n..]);
      assert s[lo + |t|..] == rest[|rest| - n..];
    }
  }

  /** Trimming twice is the same as trimming once. */
  lemma TrimIdempotent(s: string)
    ensures Trim(Trim(s)) == Trim(s)
  {
    TrimRemovesPadding([], Trim(s), []);
    assert [] + Trim(s) + [] == Trim(s);
  }

  /** Number of UTF-16 code units needed for one character. */
  function CodeUnits(c: char): nat {
    if c as int > 0xFFFF then 2 else 1
  }

  /** JavaScript's `length` of a string: its number of UTF-16 code units. */
  function Utf16Length(s: string): (n: nat)
    ensures |s| <= n <= 2 * |s|
  {
    if s == [] then 0 else Utf16Length(s[..|s| - 1]) + CodeUnits(s[|s| - 1])
  }

  lemma {:induction false} Utf16LengthAppend(a: string, b: string)
    ensures Utf16Length(a + b) == Utf16Length(a) + Utf16Length(b)
  {
    if b != [] {
      var b' := b[..|b| - 1];
      assert (a + b)[..|a + b| - 1] == a + b';
      Utf16LengthAppend(a, b');
    } else {
      assert a + b == a;
    }
  }
}
