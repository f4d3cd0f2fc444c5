/** The regular expressions the forms test, read as predicates over the
    string: the e-mail pattern `/\S+@\S+\.\S+/`, the password composition
    pattern `/(?=.*[a-z])(?=.*[A-Z])(?=.*\d)/`, the phone pattern
    `/^\d{10,15}$/` and the strength meter's symbol class. */
module Patterns {
  import opened Text

  /** One match of `/\S+@\S+\.\S+/` with its `@` at `at` and its `.` at
      `dot`. The pattern is unanchored, so the runs before `@` and after `.`
      need only one non-space character each; the run between them must be
      non-empty and free of white space. */
  predicate EmailMatchAt(s: string, at: int, dot: int) {
    && 0 < at && at + 1 < dot && dot + 1 < |s|
    && s[at] == '@' && s[dot] == '.'
    && !IsSpace(s[at - 1]) && !IsSpace(s[dot + 1])
    && forall k | at < k < dot :: !IsSpace(s[k])
  }

  /** `/\S+@\S+\.\S+/.test(s)`. */
  predicate MatchesEmail(s: string) {
    exists at, dot | 0 < at < |s| && 0 < dot < |s| :: EmailMatchAt(s, at, dot)
  }

  /** A blank string never matches the e-mail pattern. */
  lemma EmailMatchNotBlank(s: string)
    ensures MatchesEmail(s) ==> !IsBlank(s)
  {
    if MatchesEmail(s) {
      var at, dot :| 0 < at < |s| && 0 < dot < |s| && EmailMatchAt(s, at, dot);
      assert !IsSpace(s[at]);
    }
  }

  /** The e-mail test as one left-to-right pass over `s`: inside the current
      run of non-space characters it remembers the first `@` that has a
      character of the run before it, and reports a match at the first
      non-space character that follows a `.` at least two places after that
      `@`. */
  method ScanEmail(s: string) returns (found: bool)
    ensures found <==> MatchesEmail(s)
  {
    var runStart := 0;
    var at := -1;
    var i := 0;
    while i < |s|
      invariant 0 <= runStart <= i <= |s|
      invariant forall k | runStart <= k < i :: !IsSpace(s[k])
      invariant runStart > 0 ==> IsSpace(s[runStart - 1])
      invariant at == -1 ==> forall a | runStart < a < i :: s[a] != '@'
      invariant at != -1 ==> runStart < at < i && s[at] == '@'
      invariant at != -1 ==> forall a | runStart < a < at :: s[a] != '@'
      invariant forall a, d | 0 < a < |s| && 0 < d < |s| && d + 1 < i :: !EmailMatchAt(s, a, d)
    {
      if IsSpace(s[i]) {
        runStart := i + 1;
        at := -1;
      } else {
        if 0 < i && s[i - 1] == '.' && at != -1 && at + 1 < i - 1 {
          assert EmailMatchAt(s, at, i - 1);
          return true;
        }
        var d := i - 1;
        forall a | 0 < a < |s|
          ensures !EmailMatchAt(s, a, d)
        {
          assert EmailMatchAt(s, a, d) ==> runStart < a;
        }
        if s[i] == '@' && at == -1 && runStart < i {
          at := i;
        }
      }
      i := i + 1;
    }
    return false;
  }

  /** At position `p`, the lookahead `(?=.*cls)` succeeds: a character of
      class `cls` follows, with no line terminator in between (`.` does not
      match one). */
  predicate AheadOnLine(s: string, p: int, cls: char -> bool) {
    exists i | 0 <= p <= i < |s| :: cls(s[i]) && forall k | p <= k < i :: !IsLineTerminator(s[k])
  }

  /** `/(?=.*[a-z])(?=.*[A-Z])(?=.*\d)/.test(s)`: the unanchored pattern is
      tried at every position. */
  predicate MatchesComposition(s: string) {
    exists p | 0 <= p <= |s| ::
      AheadOnLine(s, p, IsLower) && AheadOnLine(s, p, IsUpper) && AheadOnLine(s, p, IsDigit)
  }

  /** A password that passes the composition test contains a lower-case
      letter, an upper-case letter and a digit. */
  lemma CompositionHasEach(s: string)
    requires MatchesComposition(s)
    ensures HasChar(s, IsLower) && HasChar(s, IsUpper) && HasChar(s, IsDigit)
  {
    var p :| 0 <= p <= |s| && AheadOnLine(s, p, IsLower) && AheadOnLine(s, p, IsUpper) && AheadOnLine(s, p, IsDigit);
    var i :| p <= i < |s| && IsLower(s[i]) && forall k | p <= k < i :: !IsLineTerminator(s[k]);
    var j :| p <= j < |s| && IsUpper(s[j]) && forall k | p <= k < j :: !IsLineTerminator(s[k]);
    var d :| p <= d < |s| && IsDigit(s[d]) && forall k | p <= k < d :: !IsLineTerminator(s[k]);
    assert IsLower(s[i]) && IsUpper(s[j]) && IsDigit(s[d]);
  }

  /** On a single line the composition test is exactly "contains a
      lower-case letter, an upper-case letter and a digit". */
  lemma CompositionOneLine(s: string)
    requires forall k | 0 <= k < |s| :: !IsLineTerminator(s[k])
    ensures MatchesComposition(s) <==> HasChar(s, IsLower) && HasChar(s, IsUpper) && HasChar(s, IsDigit)
  {
    if HasChar(s, IsLower) && HasChar(s, IsUpper) && HasChar(s, IsDigit) {
      var i :| 0 <= i < |s| && IsLower(s[i]);
      var j :| 0 <= j < |s| && IsUpper(s[j]);
      var d :| 0 <= d < |s| && IsDigit(s[d]);
      assert AheadOnLine(s, 0, IsLower) && AheadOnLine(s, 0, IsUpper) && AheadOnLine(s, 0, IsDigit);
    }
    if MatchesComposition(s) {
      CompositionHasEach(s);
    }
  }

  /** Across a line break the three classes do not combine: "aB", any line
      terminator, then "1" holds all three classes but fails the composition
      test. */
  lemma CompositionStopsAtLineBreak(br: char)
    requires IsLineTerminator(br)
    ensures var s := ['a', 'B', br, '1'];
      HasChar(s, IsLower) && HasChar(s, IsUpper) && HasChar(s, IsDigit)
    ensures !MatchesComposition(['a', 'B', br, '1'])
  {
    var s := ['a', 'B', br, '1'];
    assert IsLower(s[0]) && IsUpper(s[1]) && IsDigit(s[3]);
    forall p | 0 <= p <= |s|
      ensures !(AheadOnLine(s, p, IsLower) && AheadOnLine(s, p, IsUpper) && AheadOnLine(s, p, IsDigit))
    {
      if p <= 2 {
        forall d | p <= d < |s|
          ensures !(IsDigit(s[d]) && forall k | p <= k < d :: !IsLineTerminator(s[k]))
        {
          if d == 3 {
            assert IsLineTerminator(s[2]);
          }
        }
      }
    }
  }

  /** `/^\d{10,15}$/.test(d)`. */
  predicate MatchesPhoneDigits(d: string) {
    10 <= |d| <= 15 && forall i | 0 <= i < |d| :: IsDigit(d[i])
  }

  /** The class `[!@#$%^&*(),.?":{}|<>]` of the strength meter. */
  predicate IsStrengthSymbol(c: char) {
    c in "!@#$%^&*(),.?\":{}|<>"
  }
}
