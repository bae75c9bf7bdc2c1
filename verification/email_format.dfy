/**
 The e-mail rule shared by user creation and update: the pattern
 `^[^\s@]+@[^\s@]+\.[^\s@]+$`, stated once as a decomposition of the string and
 once as a left-to-right scan, with a proof that the two agree.
 */
module EmailFormat {
  import opened Options

  /** The JavaScript class `\s`: the ECMAScript WhiteSpace and LineTerminator code points. */
  predicate IsSpace(c: char) {
    var n := c as int;
    n == 0x09 || n == 0x0A || n == 0x0B || n == 0x0C || n == 0x0D || n == 0x20
    || n == 0xA0 || n == 0x1680 || (0x2000 <= n <= 0x200A) || n == 0x2028 || n == 0x2029
    || n == 0x202F || n == 0x205F || n == 0x3000 || n == 0xFEFF
  }

  /** A character of the class `[^\s@]`. */
  predicate Plain(c: char) {
    !IsSpace(c) && c != '@'
  }

  /** `s` reads as local part, `@` at `at`, a domain label, `.` at `dot`, and a final
      part, each part non-empty and built from `[^\s@]` (the `.` itself is in that class). */
  ghost predicate SplitsAt(s: string, at: int, dot: int) {
    && 0 < at && at + 1 < dot && dot + 1 < |s|
    && s[at] == '@' && s[dot] == '.'
    && forall k :: 0 <= k < |s| && k != at ==> Plain(s[k])
  }

  /** The language of the pattern. */
  ghost predicate MatchesPattern(s: string) {
    exists at, dot :: SplitsAt(s, at, dot)
  }

  function IndexOf(s: string, c: char): (r: Option<nat>)
    ensures r.Some? ==> r.value < |s| && s[r.value] == c
    ensures r.Some? ==> forall k :: 0 <= k < r.value ==> s[k] != c
    ensures r.None? ==> forall k :: 0 <= k < |s| ==> s[k] != c
  {
    if |s| == 0 then None
    else if s[0] == c then Some(0)
    else
      match IndexOf(s[1..], c)
      case None =>
        assert forall k :: 1 <= k < |s| ==> s[k] == s[1..][k - 1];
        None
      case Some(i) => Some(i + 1)
  }

  predicate NoSpace(s: string) {
    forall k :: 0 <= k < |s| ==> !IsSpace(s[k])
  }

  /** The check `emailRegex.test(email)` performs: find the `@`, then look for a `.`
      strictly inside what follows it. */
  predicate IsValidEmail(s: string) {
    match IndexOf(s, '@')
    case None => false
    case Some(at) =>
      var domain := s[at + 1..];
      && at > 0
      && NoSpace(s)
      && IndexOf(domain, '@').None?
      && |domain| >= 3
      && IndexOf(domain[1..|domain| - 1], '.').Some?
  }

  /** The scan accepts exactly the strings the pattern describes. */
  lemma {:induction false} ValidEmailMatchesPattern(s: string)
    ensures IsValidEmail(s) <==> MatchesPattern(s)
  {
    if IsValidEmail(s) {
      var at := IndexOf(s, '@').value;
      var domain := s[at + 1..];
      var inner := domain[1..|domain| - 1];
      var dot := at + 2 + IndexOf(inner, '.').value;
      assert s[dot] == inner[dot - at - 2];
      forall k | 0 <= k < |s| && k != at ensures Plain(s[k]) {
        if k > at { assert s[k] == domain[k - at - 1]; }
      }
      assert SplitsAt(s, at, dot);
    }
    if MatchesPattern(s) {
      var at, dot :| SplitsAt(s, at, dot);
      var first := IndexOf(s, '@');
      assert first == Some(at) by {
        assert forall k :: 0 <= k < at ==> Plain(s[k]);
      }
      assert NoSpace(s) by {
        forall k | 0 <= k < |s| ensures !IsSpace(s[k]) {
          if k != at { assert Plain(s[k]); }
        }
      }
      var domain := s[at + 1..];
      assert IndexOf(domain, '@').None? by {
        forall m | 0 <= m < |domain| ensures domain[m] != '@' {
          assert domain[m] == s[at + 1 + m] && Plain(s[at + 1 + m]);
        }
      }
      var inner := domain[1..|domain| - 1];
      assert inner[dot - at - 2] == '.';
    }
  }

  /** An address of the usual shape is accepted. */
  lemma AcceptsPlainAddress()
    ensures MatchesPattern("ann@example.com")
  {
    assert SplitsAt("ann@example.com", 3, 11);
  }

  /** A domain without a dot is refused. */
  lemma RefusesDotlessDomain()
    ensures !MatchesPattern("ann@example")
  {
    ValidEmailMatchesPattern("ann@example");
  }

  /** A dot right after the `@` does not count. */
  lemma RefusesLeadingDot()
    ensures !MatchesPattern("ann@.com")
  {
    ValidEmailMatchesPattern("ann@.com");
  }

  /** Whitespace anywhere is refused. */
  lemma RefusesSpace()
    ensures !MatchesPattern("a b@c.d")
  {
    var s := "a b@c.d";
    assert s[1] == ' ' && !Plain(s[1]);
  }
}
