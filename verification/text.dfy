/** Character classes and string helpers shared by the storefront pages:
    the whitespace set of ECMAScript (used alike by `String.prototype.trim`,
    the regular-expression classes `\s`/`\S` and `parseFloat`), ASCII digits
    and letters, ASCII case folding, trimming, substring search and the
    `replace(/\D/g, '')` digit strip. */
module Text {

  /** ECMAScript LineTerminator code points; `.` in a regular expression
      does not match these. */
  predicate IsLineTerminator(c: char) {
    c == '\n' || c == '\r' || c == '\U{2028}' || c == '\U{2029}'
  }

  /** ECMAScript WhiteSpace and LineTerminator code points. */
  predicate IsSpace(c: char) {
    || c == ' ' || c == '\t' || c == '\U{000B}' || c == '\U{000C}'
    || c == '\U{00A0}' || c == '\U{FEFF}' || c == '\U{1680}'
    || ('\U{2000}' <= c <= '\U{200A}')
    || c == '\U{202F}' || c == '\U{205F}' || c == '\U{3000}'
    || IsLineTerminator(c)
  }

  /** `\d` in a regular expression without the `u` flag: ASCII digits only. */
  predicate IsDigit(c: char) { '0' <= c <= '9' }

  predicate IsLower(c: char) { 'a' <= c <= 'z' }

  predicate IsUpper(c: char) { 'A' <= c <= 'Z' }

  /** Some character of `s` belongs to the class `cls` (a regular
      expression consisting of one character class, applied unanchored). */
  predicate HasChar(s: string, cls: char -> bool) {
    exists i | 0 <= i < |s| :: cls(s[i])
  }

  /** True iff `s` is falsy after `trim()`: every character is white space. */
  predicate IsBlank(s: string) {
    forall i | 0 <= i < |s| :: IsSpace(s[i])
  }

  /** Two distinct positions of `s` hold non-space characters. */
  predicate HasTwoNonSpace(s: string) {
    exists i, j | 0 <= i < j < |s| :: !IsSpace(s[i]) && !IsSpace(s[j])
  }

  /** ASCII case folding of one character. */
  function LowerChar(c: char): (r: char)
    ensures !IsUpper(r)
    ensures !IsUpper(c) ==> r == c
    ensures IsUpper(c) ==> IsLower(r) && r as int - 'a' as int == c as int - 'A' as int
  {
    if IsUpper(c) then (c as int + 32) as char else c
  }

  /** `toLowerCase()` restricted to ASCII letters. */
  function Lower(s: string): (r: string)
    ensures |r| == |s|
    ensures forall i | 0 <= i < |s| :: r[i] == LowerChar(s[i])
  {
    seq(|s|, i requires 0 <= i < |s| => LowerChar(s[i]))
  }

  /** Folding twice is folding once. */
  lemma LowerIdempotent(s: string)
    ensures Lower(Lower(s)) == Lower(s)
  {
  }

  /** `t` occurs in `s` starting at position `i`. */
  predicate OccursAt(s: string, t: string, i: int) {
    0 <= i && i + |t| <= |s| && s[i..i + |t|] == t
  }

  /** `s.includes(t)`: `t` occurs in `s` as a contiguous substring. */
  predicate Contains(s: string, t: string) {
    exists i | 0 <= i <= |s| - |t| :: OccursAt(s, t, i)
  }

  /** The empty string occurs in every string. */
  lemma ContainsEmpty(s: string)
    ensures Contains(s, [])
  {
    assert OccursAt(s, [], 0);
  }

  /** The number of white space characters `s` starts with. */
  function LeadingSpaces(s: string): (n: nat)
    ensures n <= |s|
    ensures forall i | 0 <= i < n :: IsSpace(s[i])
    ensures n < |s| ==> !IsSpace(s[n])
  {
    if |s| > 0 && IsSpace(s[0]) then 1 + LeadingSpaces(s[1..]) else 0
  }

  /** The number of white space characters `s` ends with. */
  function TrailingSpaces(s: string): (n: nat)
    ensures n <= |s|
    ensures forall i | |s| - n <= i < |s| :: IsSpace(s[i])
    ensures n < |s| ==> !IsSpace(s[|s| - n - 1])
  {
    if |s| > 0 && IsSpace(s[|s| - 1]) then 1 + TrailingSpaces(s[..|s| - 1]) else 0
  }

  /** `trimStart()`: drops the leading white space and nothing else. */
  function TrimStart(s: string): (r: string)
    ensures forall i | 0 <= i < |s| - |r| :: IsSpace(s[i])
    ensures r != [] ==> !IsSpace(r[0])
  {
    s[LeadingSpaces(s)..]
  }

  /** `trimEnd()`: drops the trailing white space and nothing else. */
  function TrimEnd(s: string): (r: string)
    ensures forall i | |r| <= i < |s| :: IsSpace(s[i])
    ensures r != [] ==> !IsSpace(r[|r| - 1])
  {
    s[..|s| - TrailingSpaces(s)]
  }

  /** `trim()`: the slice of `s` from its first to its last non-space
      character, or the empty string when there is none. */
  function Trim(s: string): (r: string)
    ensures r == [] <==> IsBlank(s)
    ensures r != [] ==> !IsSpace(r[0]) && !IsSpace(r[|r| - 1])
    ensures SliceBetweenSpaces(s, r, LeadingSpaces(s))
  {
    var r := TrimEnd(TrimStart(s));
    TrimSlice(s);
    SpacesAround(s, LeadingSpaces(s), |r|);
    r
  }

  /** Trimming leaves at least two characters exactly when `s` holds two
      non-space characters. */
  lemma TrimLength(s: string)
    ensures |Trim(s)| >= 2 <==> HasTwoNonSpace(s)
  {
    TrimSlice(s);
    SpacesAround(s, LeadingSpaces(s), |Trim(s)|);
  }

  /** `r` is the slice of `s` starting at `a`, with only white space before
      and after it. */
  predicate SliceBetweenSpaces(s: string, r: string, a: int) {
    && 0 <= a && a + |r| <= |s| && r == s[a..a + |r|]
    && (forall i | 0 <= i < a :: IsSpace(s[i]))
    && (forall i | a + |r| <= i < |s| :: IsSpace(s[i]))
  }

  /** The trimmed string is the slice of `s` between its leading and its
      trailing white space, with non-space characters at both of its ends:
      `trim()` removes white space at both ends and nothing else. */
  lemma TrimSlice(s: string)
    ensures var r := TrimEnd(TrimStart(s)); var a := LeadingSpaces(s);
      && SliceBetweenSpaces(s, r, a)
      && (r != [] ==> !IsSpace(s[a]) && !IsSpace(s[a + |r| - 1]))
  {
    TrimContent(s);
    TrimSpacesAfter(s);
    TrimEnds(s);
  }

  /** A prefix of a suffix is a slice. */
  lemma PrefixOfSuffix<T>(s: seq<T>, a: nat, m: nat)
    requires a + m <= |s|
    ensures s[a..][..m] == s[a..a + m]
  {
  }

  /** The trimmed characters are those of `s` from its first non-space
      character on. */
  lemma TrimContent(s: string)
    ensures var a := LeadingSpaces(s);
      a + |TrimEnd(TrimStart(s))| <= |s|
      && TrimEnd(TrimStart(s)) == s[a..a + |TrimEnd(TrimStart(s))|]
  {
    var a := LeadingSpaces(s);
    var t := s[a..];
    PrefixOfSuffix(s, a, |t| - TrailingSpaces(t));
  }

  /** Everything in `s` after the trimmed characters is white space. */
  lemma TrimSpacesAfter(s: string)
    ensures var a := LeadingSpaces(s);
      forall i | a + |TrimEnd(TrimStart(s))| <= i < |s| :: IsSpace(s[i])
  {
    var a := LeadingSpaces(s);
    var t := TrimStart(s);
    var r := TrimEnd(t);
    forall i | a + |r| <= i < |s| ensures IsSpace(s[i]) {
      assert s[i] == t[i - a];
    }
  }

  /** The first and the last trimmed characters are not white space. */
  lemma TrimEnds(s: string)
    ensures var r := TrimEnd(TrimStart(s)); var a := LeadingSpaces(s);
      r != [] ==> a + |r| <= |s| && !IsSpace(s[a]) && !IsSpace(s[a + |r| - 1])
  {
    var a := LeadingSpaces(s);
    var t := TrimStart(s);
    var r := TrimEnd(t);
    if r != [] {
      assert s[a] == t[0] == r[0];
      assert s[a + |r| - 1] == t[|r| - 1] == r[|r| - 1];
    }
  }

  /** A string holding `n` characters from `a` on, with white space before
      and after and non-space characters at both ends of the `n`, is blank
      exactly when `n` is zero, and has two non-space characters exactly
      when `n` is at least two. */
  lemma SpacesAround(s: string, a: int, n: int)
    requires 0 <= a && 0 <= n && a + n <= |s|
    requires forall i | 0 <= i < a :: IsSpace(s[i])
    requires forall i | a + n <= i < |s| :: IsSpace(s[i])
    requires n > 0 ==> !IsSpace(s[a]) && !IsSpace(s[a + n - 1])
    ensures n == 0 <==> IsBlank(s)
    ensures n >= 2 <==> HasTwoNonSpace(s)
  {
    if n == 0 {
      assert IsBlank(s);
    } else {
      assert !IsBlank(s) by { assert !IsSpace(s[a]); }
    }
    if n >= 2 {
      assert a < a + n - 1;
    } else {
      forall i, j | 0 <= i < j < |s| ensures IsSpace(s[i]) || IsSpace(s[j]) {
        assert i < a || j >= a + n;
      }
    }
  }

  /** `s.replace(/\D/g, '')`: the digits of `s`, in order. */
  function Digits(s: string): (r: string)
    ensures |r| <= |s|
    ensures forall i | 0 <= i < |r| :: IsDigit(r[i])
    ensures (forall i | 0 <= i < |s| :: IsDigit(s[i])) ==> r == s
  {
    if s == [] then []
    else (if IsDigit(s[0]) then [s[0]] else []) + Digits(s[1..])
  }

  /** The digit strip distributes over concatenation. */
  lemma {:induction false} DigitsAppend(a: string, b: string)
    ensures Digits(a + b) == Digits(a) + Digits(b)
  {
    if a == [] {
      assert a + b == b;
    } else {
      assert (a + b)[1..] == a[1..] + b;
      DigitsAppend(a[1..], b);
    }
  }

  /** A string with no digit strips to nothing. */
  lemma {:induction false} DigitsNone(s: string)
    requires forall i | 0 <= i < |s| :: !IsDigit(s[i])
    ensures Digits(s) == []
  {
    if s != [] {
      DigitsNone(s[1..]);
    }
  }

  /** White space holds no digits. */
  lemma BlankHasNoDigits(s: string)
    ensures IsBlank(s) ==> Digits(s) == []
  {
    if IsBlank(s) {
      DigitsNone(s);
    }
  }
}
