/** The two field validators shared by both registration pages: the mobile
    number pattern `/^[0-9]{10}$/` and the e-mail pattern
    `/^[^\s@]+@[^\s@]+\.[^\s@]+$/`, both applied to the untrimmed field. */
module Validators {
  import opened Text

  /** `/^[0-9]{10}$/.test(s)`: exactly ten characters, each an ASCII digit.
      JavaScript's `$` without the `m` flag matches only at the end of input. */
  predicate IsMobile(s: string)
    ensures IsMobile(s) ==> Trim(s) == s
  {
    |s| == 10 && AllDigits(s)
  }

  /** A character of the class `[^\s@]`. */
  predicate IsPlain(c: char) {
    c != '@' && !IsWhitespace(c)
  }

  predicate PlainBetween(s: string, lo: nat, hi: nat)
    requires lo <= hi <= |s|
  {
    forall k :: lo <= k < hi ==> IsPlain(s[k])
  }

  /** What the e-mail regular expression matches, read off its structure:
      a non-empty plain run, the `@` at `at`, a non-empty plain run, a `.`
      at `dot`, and a non-empty plain run up to the end. */
  predicate MatchesAt(s: string, at: nat, dot: nat) {
    && 1 <= at && at + 2 <= dot && dot + 2 <= |s|
    && s[at] == '@' && s[dot] == '.'
    && PlainBetween(s, 0, at) && PlainBetween(s, at + 1, dot) && PlainBetween(s, dot + 1, |s|)
  }

  ghost predicate EmailPattern(s: string) {
    exists at: nat, dot: nat :: MatchesAt(s, at, dot)
  }

  /** Position of the first `c` in `s`, or `|s|` when there is none. */
  function IndexOf(s: string, c: char): (r: nat)
    ensures r <= |s|
    ensures r < |s| ==> s[r] == c
    ensures forall k :: 0 <= k < r ==> s[k] != c
  {
    if s == [] then 0 else if s[0] == c then 0 else 1 + IndexOf(s[1..], c)
  }

  /** The domain part has a `.` with at least one character on each side. */
  predicate HasInnerDot(d: string) {
    exists k :: 0 < k < |d| - 1 && d[k] == '.'
  }

  /** The e-mail check as the registration form describes it: no whitespace,
      exactly one `@`, a non-empty local part, and a dot strictly inside the
      domain part. */
  predicate IsEmail(s: string)
    ensures IsEmail(s) ==> '@' in s && |s| >= 5
  {
    && (forall i :: 0 <= i < |s| ==> !IsWhitespace(s[i]))
    && multiset(s)['@'] == 1
    && var at := IndexOf(s, '@');
       0 < at < |s| && HasInnerDot(s[at + 1..])
  }

  /** A string holding exactly one `@` holds it at one position only. */
  lemma OnlyOneAt(s: string, at: nat)
    requires at < |s| && s[at] == '@'
    ensures multiset(s)['@'] == 1 <==> forall k :: 0 <= k < |s| && k != at ==> s[k] != '@'
  {
    assert s == s[..at] + [s[at]] + s[at + 1..];
    assert multiset(s) == multiset(s[..at]) + multiset{'@'} + multiset(s[at + 1..]);
    if forall k :: 0 <= k < |s| && k != at ==> s[k] != '@' {
      assert '@' !in s[..at];
      assert '@' !in s[at + 1..];
    }
    if multiset(s)['@'] == 1 {
      assert multiset(s[..at])['@'] == 0 && multiset(s[at + 1..])['@'] == 0;
      forall k | 0 <= k < |s| && k != at
        ensures s[k] != '@'
      {
        if k < at {
          assert s[k] in s[..at];
        } else {
          assert s[k] in s[at + 1..];
        }
      }
    }
  }

  /** The four-part description of the e-mail check is exactly what the
      regular expression matches. */
  lemma {:induction false} EmailIffPattern(s: string)
    ensures IsEmail(s) <==> EmailPattern(s)
  {
    if IsEmail(s) {
      var at := IndexOf(s, '@');
      OnlyOneAt(s, at);
      var d := s[at + 1..];
      var k :| 0 < k < |d| - 1 && d[k] == '.';
      assert MatchesAt(s, at, at + 1 + k);
    }
    if EmailPattern(s) {
      var at: nat, dot: nat :| MatchesAt(s, at, dot);
      assert forall k :: 0 <= k < |s| && k != at ==> s[k] != '@' by {
        forall k | 0 <= k < |s| && k != at
          ensures s[k] != '@'
        {
          if k < at {
          } else if k < dot {
          } else if k > dot {
          }
        }
      }
      OnlyOneAt(s, at);
      assert IndexOf(s, '@') == at;
      var d := s[at + 1..];
      assert d[dot - at - 1] == '.';
      assert forall i :: 0 <= i < |s| ==> !IsWhitespace(s[i]) by {
        forall i | 0 <= i < |s|
          ensures !IsWhitespace(s[i])
        {
          if i < at {
          } else if i == at {
          } else if i < dot {
          } else if i == dot {
          } else {
          }
        }
      }
    }
  }

  /** `"a@b.co"` passes the email check. */
  lemma EmailAccepts()
    ensures IsEmail("a@b.co")
  {
    var s := "a@b.co";
    assert MatchesAt(s, 1, 3);
    EmailIffPattern(s);
  }

  /** `"not-an-email"` fails: it has no `@`. */
  lemma EmailRejects()
    ensures !IsEmail("not-an-email")
  {
    var t := "not-an-email";
    assert forall i :: 0 <= i < |t| ==> t[i] != '@';
    assert '@' !in t;
  }

  /** `"9876543210"` passes and `"12345"` fails. */
  lemma MobileExamples()
    ensures IsMobile("9876543210")
    ensures !IsMobile("12345")
  {
  }

  /** A padded number fails even though it trims to a valid one. */
  lemma PaddedMobileRejected()
    ensures !IsMobile(" 9876543210")
    ensures Trim(" 9876543210") == "9876543210"
  {
    assert |" 9876543210"| == 11;
    var s := " 9876543210";
    var t := "9876543210";
    assert s[1..] == t;
    assert IsWhitespace(s[0]);
    assert TrimStart(s) == TrimStart(t);
    assert !IsWhitespace(t[0]) && !IsWhitespace(t[9]);
    TrimKeepsInner(t);
  }

  /** A valid mobile number is never blank, so "required" and "invalid" never both apply. */
  lemma MobileIsNotBlank(s: string)
    requires IsMobile(s)
    ensures Trim(s) != []
  {
    assert !IsWhitespace(s[0]);
  }

  /** A valid e-mail address is never blank. */
  lemma EmailIsNotBlank(s: string)
    requires IsEmail(s)
    ensures Trim(s) != []
  {
    assert !IsWhitespace(s[0]);
  }
}
