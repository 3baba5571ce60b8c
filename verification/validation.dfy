/** The field checks of the registration and content routes: JavaScript truthiness of a
    request field, and the two anchored regular expressions of server.mjs. */
module Validation {
  import opened Wrappers

  /** A body field is truthy when it is present and not the empty string. */
  predicate Truthy(field: Option<string>) {
    field.Some? && field.value != ""
  }

  // ----- /^[a-zA-Z0-9_.-]+$/ -----

  predicate UsernameChar(c: char) {
    || 'a' <= c <= 'z'
    || 'A' <= c <= 'Z'
    || '0' <= c <= '9'
    || c == '_' || c == '.' || c == '-'
  }

  /** The username pattern: one or more characters, each from the allowed class. */
  predicate IsUsername(s: string) {
    |s| > 0 && forall i :: 0 <= i < |s| ==> UsernameChar(s[i])
  }

  // ----- /^[^\s@]+@[^\s@]+\.[^\s@]+$/ -----

  /** `\s` of ECMAScript regular expressions: the WhiteSpace and LineTerminator code points. */
  predicate IsSpace(c: char) {
    || c == '\t' || c == '\n' || c == '\U{B}' || c == '\U{C}' || c == '\r' || c == ' '
    || c == '\U{A0}' || c == '\U{1680}' || '\U{2000}' <= c <= '\U{200A}'
    || c == '\U{2028}' || c == '\U{2029}' || c == '\U{202F}' || c == '\U{205F}'
    || c == '\U{3000}' || c == '\U{FEFF}'
  }

  /** The class `[^\s@]`. */
  predicate EmailChar(c: char) {
    !IsSpace(c) && c != '@'
  }

  /** `[^\s@]+`: a non-empty run of the class. */
  predicate Run(s: string) {
    |s| > 0 && forall i :: 0 <= i < |s| ==> EmailChar(s[i])
  }

  /** What the email regular expression accepts, stated as a match: some `@` at `at` and
      some `.` at `dot` cut the whole string into three runs. */
  ghost predicate MatchesEmailPattern(s: string) {
    exists at, dot :: 0 <= at < dot < |s| && s[at] == '@' && s[dot] == '.'
      && Run(s[..at]) && Run(s[at + 1..dot]) && Run(s[dot + 1..])
  }

  /** The index of the first occurrence of `c` in `s`. */
  function IndexOf(s: string, c: char): (r: Option<nat>)
    ensures r.Some? ==> r.value < |s| && s[r.value] == c && c !in s[..r.value]
    ensures r.None? <==> c !in s
  {
    if |s| == 0 then None
    else if s[0] == c then Some(0)
    else
      match IndexOf(s[1..], c)
      case None => None
      case Some(k) =>
        assert s[..k + 1] == [s[0]] + s[1..][..k];
        Some(k + 1)
  }

  /** The email check the registration route performs, in a scanning form: split at the
      first `@` into local part and domain; both must be runs of `[^\s@]`, and the domain
      must hold a `.` that is neither its first nor its last character. */
  predicate IsEmail(s: string) {
    match IndexOf(s, '@')
    case None => false
    case Some(at) =>
      var domain := s[at + 1..];
      Run(s[..at]) && Run(domain) && |domain| >= 2 && '.' in domain[1..|domain| - 1]
  }

  /** A dot inside `d[1..|d| - 1]` sits at an index that is neither the first nor the last. */
  lemma InnerDotIndex(d: string) returns (i: nat)
    requires |d| >= 2 && '.' in d[1..|d| - 1]
    ensures 0 < i < |d| - 1 && d[i] == '.'
  {
    var inner := d[1..|d| - 1];
    var j :| 0 <= j < |inner| && inner[j] == '.';
    i := j + 1;
  }

  /** Every string the scanning check accepts matches the regular expression. */
  lemma IsEmailSound(s: string)
    requires IsEmail(s)
    ensures MatchesEmailPattern(s)
  {
    var at := IndexOf(s, '@').value;
    var domain := s[at + 1..];
    assert Run(s[..at]) && Run(domain) && |domain| >= 2 && '.' in domain[1..|domain| - 1];
    var i := InnerDotIndex(domain);
    var dot := at + 1 + i;
    assert s[dot] == '.';
    var middle, last := s[at + 1..dot], s[dot + 1..];
    assert forall k :: 0 <= k < |middle| ==> middle[k] == domain[k];
    assert forall k :: 0 <= k < |last| ==> last[k] == domain[k + i + 1];
    assert Run(middle) && Run(last);
  }

  /** A match found at `at` and `dot` passes the scanning check. */
  lemma IsEmailCompleteAt(s: string, at: nat, dot: nat)
    requires at < dot < |s| && s[at] == '@' && s[dot] == '.'
    requires Run(s[..at]) && Run(s[at + 1..dot]) && Run(s[dot + 1..])
    ensures IsEmail(s)
  {
    assert '@' in s[..at + 1] by { assert s[..at + 1][at] == '@'; }
    var first := IndexOf(s, '@').value;
    assert forall k :: 0 <= k < at ==> s[..at][k] == s[k];
    assert forall k :: 0 <= k < first ==> s[..first][k] == s[k];
    assert first == at;
    var domain := s[at + 1..];
    var m := dot - at - 1;
    forall k | 0 <= k < |domain|
      ensures EmailChar(domain[k])
    {
      if k < m {
        assert domain[k] == s[at + 1..dot][k];
      } else if k > m {
        assert domain[k] == s[dot + 1..][k - m - 1];
      }
    }
    assert domain[1..|domain| - 1][m - 1] == '.';
  }

  /** Every string the regular expression matches passes the scanning check. */
  lemma IsEmailComplete(s: string)
    requires MatchesEmailPattern(s)
    ensures IsEmail(s)
  {
    var at, dot :| 0 <= at < dot < |s| && s[at] == '@' && s[dot] == '.'
      && Run(s[..at]) && Run(s[at + 1..dot]) && Run(s[dot + 1..]);
    IsEmailCompleteAt(s, at, dot);
  }

  /** The scanning check accepts exactly the strings the regular expression matches. */
  lemma IsEmailMatchesPattern(s: string)
    ensures IsEmail(s) <==> MatchesEmailPattern(s)
  {
    if IsEmail(s) {
      IsEmailSound(s);
    }
    if MatchesEmailPattern(s) {
      IsEmailComplete(s);
    }
  }

  /** An accepted address holds exactly one `@`. */
  lemma EmailHasOneAt(s: string, i: nat, j: nat)
    requires IsEmail(s)
    requires i < |s| && j < |s| && s[i] == '@' && s[j] == '@'
    ensures i == j
  {
    var at := IndexOf(s, '@').value;
    assert forall k :: 0 <= k < at ==> s[k] == s[..at][k];
    assert forall k :: at < k < |s| ==> s[k] == s[at + 1..][k - at - 1];
  }
}
