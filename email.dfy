/** The e-mail pattern of the registration form, `^[^\s@]+@[^\s@]+\.[^\s@]+$`,
    stated once as the regular expression's meaning and once as a
    hand-written check, with a proof that the two agree. */
module Email {
  import opened Wrappers
  import opened Text

  /** A character of the class `[^\s@]`. */
  predicate PatternChar(c: char) {
    !IsWhitespace(c) && c != '@'
  }

  predicate AllPatternChars(s: string) {
    forall i :: 0 <= i < |s| ==> PatternChar(s[i])
  }

  /** The pattern matches s with its `@` at index `at` and its `\.` at index
      `dot`: three non-empty runs of `[^\s@]` around them fill the rest of s
      (the anchors leave nothing before or after). */
  ghost predicate MatchesAt(s: string, at: int, dot: int) {
    && 0 < at && at + 1 < dot && dot + 1 < |s|
    && s[at] == '@' && s[dot] == '.'
    && forall i :: 0 <= i < |s| && i != at ==> PatternChar(s[i])
  }

  /** `/^[^\s@]+@[^\s@]+\.[^\s@]+$/.test(s)`. */
  ghost predicate MatchesPattern(s: string) {
    exists at, dot :: MatchesAt(s, at, dot)
  }

  /** The check by hand: split at the first `@`; the part before it must be
      non-empty, neither part may hold whitespace or another `@`, and the part
      after it must hold a `.` with a character on each side. */
  function IsEmail(s: string): bool {
    match IndexOf(s, '@')
    case None => false
    case Some(at) =>
      var local, domain := s[..at], s[at + 1..];
      && |local| > 0
      && AllPatternChars(local)
      && AllPatternChars(domain)
      && |domain| >= 3
      && '.' in domain[1..|domain| - 1]
  }

  /** The hand-written check accepts exactly the strings the pattern matches. */
  lemma IsEmailIffPattern(s: string)
    ensures IsEmail(s) <==> MatchesPattern(s)
  {
    if IsEmail(s) {
      var at := IndexOf(s, '@').value;
      var domain := s[at + 1..];
      var k :| 0 <= k < |domain| - 2 && domain[1..|domain| - 1][k] == '.';
      var dot := at + 2 + k;
      assert s[dot] == domain[1 + k];
      forall i | 0 <= i < |s| && i != at ensures PatternChar(s[i]) {
        if i < at {
          assert s[i] == s[..at][i];
        } else {
          assert s[i] == domain[i - at - 1];
        }
      }
      assert MatchesAt(s, at, dot);
    }
    if MatchesPattern(s) {
      var at, dot :| MatchesAt(s, at, dot);
      assert s[at] in s;
      assert forall i :: 0 <= i < |s| && s[i] == '@' ==> i == at by {
        forall i | 0 <= i < |s| && s[i] == '@' ensures i == at {
          assert !PatternChar(s[i]);
        }
      }
      match IndexOf(s, '@')
      case Some(first) =>
        var domain := s[at + 1..];
        assert domain[1..|domain| - 1][dot - at - 2] == '.';
        assert AllPatternChars(domain) by {
          forall j | 0 <= j < |domain| ensures PatternChar(domain[j]) {
            assert domain[j] == s[at + 1 + j];
          }
        }
    }
  }

  /** What an accepted address looks like: non-empty, free of whitespace (so
      `trim` leaves it unchanged and leading or trailing whitespace is
      rejected), and holding exactly one `@`. */
  lemma AcceptedEmailShape(s: string)
    requires MatchesPattern(s)
    ensures s != [] && Trim(s) == s
    ensures forall i :: 0 <= i < |s| ==> !IsWhitespace(s[i])
    ensures exists at :: 0 <= at < |s| && s[at] == '@'
    ensures forall i, j :: 0 <= i < |s| && 0 <= j < |s| && s[i] == '@' && s[j] == '@' ==> i == j
  {
    var at, dot :| MatchesAt(s, at, dot);
    assert !PatternChar(s[at]);
  }
}
