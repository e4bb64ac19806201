/** The address check of the front end (app.py): `is_valid_email` and the
    run-button rule built on it. */
module EmailCheck {
  import opened Wrappers
  import opened PyStrings

  predicate IsAsciiLetter(c: char)
  {
    'a' <= c <= 'z' || 'A' <= c <= 'Z'
  }

  predicate IsAsciiAlnum(c: char)
  {
    IsAsciiLetter(c) || '0' <= c <= '9'
  }

  /** The class `[a-zA-Z0-9._%+-]` of the local part. */
  predicate IsLocalChar(c: char)
  {
    IsAsciiAlnum(c) || c == '.' || c == '_' || c == '%' || c == '+' || c == '-'
  }

  /** The class `[a-zA-Z0-9.-]` of the domain. */
  predicate IsDomainChar(c: char)
  {
    IsAsciiAlnum(c) || c == '.' || c == '-'
  }

  predicate AllLocal(s: string)
  {
    forall i | 0 <= i < |s| :: IsLocalChar(s[i])
  }

  predicate AllDomain(s: string)
  {
    forall i | 0 <= i < |s| :: IsDomainChar(s[i])
  }

  predicate AllLetters(s: string)
  {
    forall i | 0 <= i < |s| :: IsAsciiLetter(s[i])
  }

  /** The anchored pattern `[a-zA-Z0-9._%+-]+@[a-zA-Z0-9.-]+\.[a-zA-Z]{2,}`
      matches all of `s`, with its `@` at index `at` and its last `.` at `dot`. */
  predicate MatchesAt(s: string, at: nat, dot: nat)
  {
    && 0 < at && at + 1 < dot && dot + 3 <= |s|
    && s[at] == '@' && s[dot] == '.'
    && AllLocal(s[..at]) && AllDomain(s[at + 1..dot]) && AllLetters(s[dot + 1..])
  }

  /** Some way of reading `s` matches the pattern. */
  ghost predicate MatchesPattern(s: string)
  {
    exists at: nat, dot: nat :: MatchesAt(s, at, dot)
  }

  /** The decision the regular expression makes: the local part runs up to the
      first `@`, the top-level label follows the last `.` of the rest. */
  function IsAddress(t: string): bool
  {
    match FindChar(t, '@')
    case None => false
    case Some(at) =>
      var domain := t[at + 1..];
      && 0 < at && AllLocal(t[..at])
      && match RFindChar(domain, '.')
         case None => false
         case Some(k) => 0 < k && k + 3 <= |domain| && AllDomain(domain[..k]) && AllLetters(domain[k + 1..])
  }

  lemma IsAddressMatches(t: string)
    ensures IsAddress(t) <==> MatchesPattern(t)
  {
    if IsAddress(t) {
      AddressMatches(t);
    }
    if MatchesPattern(t) {
      var at: nat, dot: nat :| MatchesAt(t, at, dot);
      MatchIsAddress(t, at, dot);
    }
  }

  lemma AddressMatches(t: string)
    requires IsAddress(t)
    ensures MatchesPattern(t)
  {
    var at := FindChar(t, '@').value;
    var domain := t[at + 1..];
    var k := RFindChar(domain, '.').value;
    assert t[at + 1..at + 1 + k] == domain[..k];
    assert t[at + 1 + k + 1..] == domain[k + 1..];
    assert MatchesAt(t, at, at + 1 + k);
  }

  /** A match fixes the `@` as the first one and the `.` as the last one. */
  lemma MatchIsAddress(t: string, at: nat, dot: nat)
    requires MatchesAt(t, at, dot)
    ensures IsAddress(t)
  {
    FirstAt(t, at);
    var domain := t[at + 1..];
    var k := dot - at - 1;
    LastDot(domain, k);
    assert domain[..k] == t[at + 1..dot];
    assert domain[k + 1..] == t[dot + 1..];
  }

  lemma FirstAt(t: string, at: nat)
    requires at < |t| && t[at] == '@' && AllLocal(t[..at])
    ensures FindChar(t, '@') == Some(at)
  {
    assert forall j | 0 <= j < at :: t[j] == t[..at][j];
  }

  lemma LastDot(d: string, k: nat)
    requires k < |d| && d[k] == '.' && AllLetters(d[k + 1..])
    ensures RFindChar(d, '.') == Some(k)
  {
    assert forall j | k < j < |d| :: d[j] == d[k + 1..][j - k - 1];
  }

  /** `is_valid_email(email)`: the stripped text matches the pattern. */
  function IsValidEmail(email: string): (valid: bool)
    ensures valid <==> MatchesPattern(Strip(email))
    ensures IsBlank(email) ==> !valid
  {
    IsAddressMatches(Strip(email));
    if email == [] || IsBlank(email) then false
    else IsAddress(Strip(email))
  }

  /** The check gives the same answer on an address and on its stripped form. */
  lemma ValidEmailIgnoresSurroundingSpace(email: string)
    ensures IsValidEmail(Strip(email)) == IsValidEmail(email)
  {
    StripIdempotent(email);
  }

  /** The shape of an accepted address: exactly one `@`, a non-empty local part
      over `[A-Za-z0-9._%+-]`, a domain over `[A-Za-z0-9.-]` that ends with a
      `.` and at least two ASCII letters. */
  lemma ValidEmailShape(email: string) returns (at: nat, dot: nat)
    requires IsValidEmail(email)
    ensures var t := Strip(email);
      && 0 < at < dot && dot + 3 <= |t| && t[at] == '@' && t[dot] == '.'
      && CountChar(t, '@') == 1
      && AllLocal(t[..at]) && AllDomain(t[at + 1..]) && AllLetters(t[dot + 1..])
  {
    var t := Strip(email);
    at, dot :| MatchesAt(t, at, dot);
    DomainAndLabel(t, at, dot);
    assert '@' !in t[..at] by {
      assert forall j | 0 <= j < at :: IsLocalChar(t[..at][j]);
    }
    SingleAt(t, at);
  }

  /** The domain with its final label is itself over `[A-Za-z0-9.-]`. */
  lemma DomainAndLabel(t: string, at: nat, dot: nat)
    requires MatchesAt(t, at, dot)
    ensures AllDomain(t[at + 1..])
  {
    var rest := t[at + 1..];
    forall j | 0 <= j < |rest| ensures IsDomainChar(rest[j]) {
      if j < dot - at - 1 {
        assert rest[j] == t[at + 1..dot][j];
      } else if j > dot - at - 1 {
        assert rest[j] == t[dot + 1..][j - (dot - at)];
      }
    }
  }

  lemma SingleAt(t: string, at: nat)
    requires at < |t| && t[at] == '@'
    requires '@' !in t[..at] && AllDomain(t[at + 1..])
    ensures CountChar(t, '@') == 1
  {
    var rest := t[at + 1..];
    assert '@' !in rest by {
      assert forall j | 0 <= j < |rest| :: IsDomainChar(rest[j]);
    }
    assert t == t[..at] + [t[at]] + rest;
    CountCharAppend(t[..at] + [t[at]], rest, '@');
    CountCharAppend(t[..at], [t[at]], '@');
  }

  /** `update_button_state`: whether the run button is enabled. */
  function RunButtonEnabled(sendEmail: bool, recipientEmail: string): (enabled: bool)
    ensures enabled <==> !sendEmail || IsValidEmail(recipientEmail)
  {
    if sendEmail && (recipientEmail == [] || IsBlank(recipientEmail)) then false
    else if sendEmail && !IsValidEmail(recipientEmail) then false
    else true
  }
}
