/**
 * The contact form's e-mail check, the regular expression
 * `^[^\s@]+@[^\s@]+\.[^\s@]+$`, and a plain description of the strings it
 * accepts.
 */
module EmailPattern {
  import opened JsString

  /** The character class `[^\s@]`. */
  predicate IsPlain(c: char) {
    !IsWhitespace(c) && c != '@'
  }

  /** `[^\s@]+` matching the whole of `t`. */
  predicate PlainRun(t: string) {
    |t| > 0 && forall k :: 0 <= k < |t| ==> IsPlain(t[k])
  }

  /** `validateEmail`: the anchored pattern matches `s` when `s` splits into
      a plain run, `@`, a plain run, `.`, and a plain run. The `@` and the
      `.` are the positions `i` and `j` a backtracking matcher settles on. */
  predicate ValidateEmail(s: string) {
    exists i, j | 0 <= i < j < |s| :: MatchesAt(s, i, j)
  }

  /** The pattern matches `s` with its `@` at `i` and its `\.` at `j`. */
  predicate MatchesAt(s: string, i: int, j: int) {
    && 0 <= i < j < |s|
    && PlainRun(s[..i]) && s[i] == '@'
    && PlainRun(s[i + 1..j]) && s[j] == '.'
    && PlainRun(s[j + 1..])
  }

  /** The number of occurrences of `c` in `s`. */
  function Count(s: string, c: char): nat {
    if s == [] then 0 else (if s[0] == c then 1 else 0) + Count(s[1..], c)
  }

  /** `d` has a `.` that is neither its first nor its last character. */
  predicate HasInteriorDot(d: string) {
    exists k | 0 < k < |d| - 1 :: InteriorDotAt(d, k)
  }

  predicate InteriorDotAt(d: string, k: int) {
    0 < k < |d| - 1 && d[k] == '.'
  }

  /** The strings the pattern accepts, described without the pattern: no
      whitespace, exactly one `@`, something before it, and after it a
      domain with an interior dot. */
  predicate WellFormedEmail(s: string) {
    && NoWhitespace(s)
    && Count(s, '@') == 1
    && exists i | 0 < i < |s| :: DomainAfter(s, i)
  }

  /** The `@` is at `i`, with something before it and an interior dot in the
      domain after it. */
  predicate DomainAfter(s: string, i: int) {
    0 < i < |s| && s[i] == '@' && HasInteriorDot(s[i + 1..])
  }

  lemma {:induction false} CountZero(s: string, c: char)
    ensures Count(s, c) == 0 <==> forall k :: 0 <= k < |s| ==> s[k] != c
  {
    if s != [] {
      CountZero(s[1..], c);
      assert forall k :: 1 <= k < |s| ==> s[k] == s[1..][k - 1];
    }
  }

  /** With `c` at position `i`, `c` occurs exactly once iff it occurs
      nowhere else. */
  lemma {:induction false} CountOneAt(s: string, c: char, i: nat)
    requires i < |s| && s[i] == c
    ensures Count(s, c) == 1 <==> forall k :: 0 <= k < |s| && k != i ==> s[k] != c
  {
    assert forall k :: 1 <= k < |s| ==> s[k] == s[1..][k - 1];
    if i == 0 {
      CountZero(s[1..], c);
    } else {
      CountOneAt(s[1..], c, i - 1);
      if s[0] == c {
        CountZero(s[1..], c);
      }
    }
  }

  /** Every run between the separators is plain exactly when every position
      other than the two separators holds a plain character. */
  lemma PlainSegments(s: string, i: nat, j: nat)
    requires 0 < i && i + 1 < j && j + 1 < |s|
    requires forall k :: 0 <= k < |s| && k != i && k != j ==> IsPlain(s[k])
    ensures PlainRun(s[..i]) && PlainRun(s[i + 1..j]) && PlainRun(s[j + 1..])
  {
    var local, domain, tld := s[..i], s[i + 1..j], s[j + 1..];
    assert forall k :: 0 <= k < |local| ==> local[k] == s[k];
    assert forall k :: 0 <= k < |domain| ==> domain[k] == s[i + 1 + k];
    assert forall k :: 0 <= k < |tld| ==> tld[k] == s[j + 1 + k];
  }

  lemma PlainEverywhereElse(s: string, i: nat, j: nat)
    requires 0 <= i < j < |s|
    requires PlainRun(s[..i]) && PlainRun(s[i + 1..j]) && PlainRun(s[j + 1..])
    ensures forall k :: 0 <= k < |s| && k != i && k != j ==> IsPlain(s[k])
  {
    forall k | 0 <= k < |s| && k != i && k != j ensures IsPlain(s[k]) {
      if k < i {
        assert s[k] == s[..i][k];
      } else if k < j {
        assert s[k] == s[i + 1..j][k - i - 1];
      } else {
        assert s[k] == s[j + 1..][k - j - 1];
      }
    }
  }

  /** The pattern accepts exactly the well-formed addresses. Since `.` is not
      excluded from `[^\s@]`, the domain may also begin or end with a dot, as
      long as some dot stands strictly inside it. */
  lemma ValidateEmailIff(s: string)
    ensures ValidateEmail(s) <==> WellFormedEmail(s)
  {
    if ValidateEmail(s) {
      var i, j :| 0 <= i < j < |s| && MatchesAt(s, i, j);
      MatchIsWellFormed(s, i, j);
    }
    if WellFormedEmail(s) {
      var i :| 0 < i < |s| && DomainAfter(s, i);
      WellFormedMatches(s, i);
    }
  }

  lemma MatchIsWellFormed(s: string, i: int, j: int)
    requires MatchesAt(s, i, j)
    ensures WellFormedEmail(s)
  {
    PlainEverywhereElse(s, i, j);
    CountOneAt(s, '@', i);
    assert InteriorDotAt(s[i + 1..], j - i - 1);
    assert DomainAfter(s, i);
  }

  lemma WellFormedMatches(s: string, i: int)
    requires NoWhitespace(s) && Count(s, '@') == 1 && DomainAfter(s, i)
    ensures ValidateEmail(s)
  {
    var d := s[i + 1..];
    var k :| 0 < k < |d| - 1 && InteriorDotAt(d, k);
    var j := i + 1 + k;
    CountOneAt(s, '@', i);
    assert s[j] == d[k];
    PlainSegments(s, i, j);
    assert MatchesAt(s, i, j);
  }

  /** A string with whitespace anywhere, in particular at either end, never
      matches. */
  lemma WhitespaceNeverMatches(s: string, k: nat)
    requires k < |s| && IsWhitespace(s[k])
    ensures !ValidateEmail(s)
  {
    ValidateEmailIff(s);
  }

  /** Without an `@`, or with some `@` that has no `.` after it, there is
      no match. */
  lemma MissingAtOrDotNeverMatches(s: string)
    requires (forall k :: 0 <= k < |s| ==> s[k] != '@')
             || (exists i :: 0 <= i < |s| && s[i] == '@' && forall j :: i < j < |s| ==> s[j] != '.')
    ensures !ValidateEmail(s)
  {
  }

  /** Backtracking lets the domain start or end with a dot once some other
      dot stands inside it. */
  lemma AcceptsOuterDomainDots()
    ensures ValidateEmail("a@b.c.")
    ensures ValidateEmail("a@.b.c")
  {
    var s1: string := "a@b.c.";
    assert PlainRun(s1[..1]) && PlainRun(s1[2..3]) && PlainRun(s1[4..]);
    assert MatchesAt(s1, 1, 3);
    var s2: string := "a@.b.c";
    assert PlainRun(s2[..1]) && PlainRun(s2[2..4]) && PlainRun(s2[5..]);
    assert MatchesAt(s2, 1, 4);
  }

  lemma AcceptsPlainAddress()
    ensures ValidateEmail("jo@x.com")
  {
    var s: string := "jo@x.com";
    assert PlainRun(s[..2]) && PlainRun(s[3..4]) && PlainRun(s[5..]);
    assert MatchesAt(s, 2, 4);
  }

  /** A domain without a dot, or whose only dot is its last character, does
      not match. */
  lemma RejectsDotlessDomains()
    ensures !ValidateEmail("jo@x")
    ensures !ValidateEmail("a@b.")
  {
    MissingAtOrDotNeverMatches("jo@x");
    var s: string := "a@b.";
    ValidateEmailIff(s);
  }
}
