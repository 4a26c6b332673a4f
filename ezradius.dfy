/** `extractEmailFromUsername` of azure-functions/src/services/ezradius.ts,
    with the regular expression
    `([a-zA-Z0-9._%+-]+@[a-zA-Z0-9.-]+\.[a-zA-Z]{2,})` written out as a
    leftmost, greedy matcher. */
module Ezradius {
  import opened Types
  import opened Text

  predicate IsAlpha(c: char) { 'a' <= c <= 'z' || 'A' <= c <= 'Z' }
  predicate IsDigit(c: char) { '0' <= c <= '9' }

  /** `[a-zA-Z0-9._%+-]` */
  predicate IsLocalChar(c: char) {
    IsAlpha(c) || IsDigit(c) || c == '.' || c == '_' || c == '%' || c == '+' || c == '-'
  }

  /** `[a-zA-Z0-9.-]` */
  predicate IsDomainChar(c: char) {
    IsAlpha(c) || IsDigit(c) || c == '.' || c == '-'
  }

  /** The end of the longest run of characters satisfying the class, from `i`. */
  function RunEnd(s: string, i: nat, domain: bool, alpha: bool): (j: nat)
    requires i <= |s|
    ensures i <= j <= |s|
    ensures forall k :: i <= k < j ==> (if alpha then IsAlpha(s[k]) else if domain then IsDomainChar(s[k]) else IsLocalChar(s[k]))
    ensures j < |s| ==> !(if alpha then IsAlpha(s[j]) else if domain then IsDomainChar(s[j]) else IsLocalChar(s[j]))
    decreases |s| - i
  {
    if i < |s| && (if alpha then IsAlpha(s[i]) else if domain then IsDomainChar(s[i]) else IsLocalChar(s[i]))
    then RunEnd(s, i + 1, domain, alpha)
    else i
  }

  /** After `[a-zA-Z0-9.-]+` has been backed off to end at `m` (the domain run
      starting at `d`): the first `m`, trying from the right, at which `\.` and
      two or more letters follow; the match then ends after all those letters. */
  function TldEnd(s: string, d: nat, m: nat): (e: Option<nat>)
    requires d <= m <= |s|
    ensures e.Some? ==> d < e.value <= |s|
    decreases m
  {
    if m <= d then None
    else if m < |s| && s[m] == '.' && RunEnd(s, m + 1, false, true) >= m + 3
    then Some(RunEnd(s, m + 1, false, true))
    else TldEnd(s, d, m - 1)
  }

  /** The end of the match that starts at `i`, if the pattern matches there. */
  function MatchAt(s: string, i: nat): (e: Option<nat>)
    requires i <= |s|
    ensures e.Some? ==> i < e.value <= |s| && '@' in s[i..e.value]
  {
    var at := RunEnd(s, i, false, false);
    if at == i || at >= |s| || s[at] != '@' then None
    else
      var d := at + 1;
      var dEnd := RunEnd(s, d, true, false);
      match TldEnd(s, d, dEnd)
      case None => None
      case Some(e) =>
        assert s[i..e][at - i] == '@';
        Some(e)
  }

  /** `username.match(pattern)`: the leftmost match, as group 1 of the result. */
  function FirstMatch(s: string, i: nat): (r: Option<string>)
    requires i <= |s|
    ensures r.Some? ==> '@' in r.value
    decreases |s| - i
  {
    if i >= |s| then None
    else match MatchAt(s, i)
      case Some(e) => Some(s[i..e])
      case None => FirstMatch(s, i + 1)
  }

  /** `extractEmailFromUsername` */
  function ExtractEmail(username: string): (r: Option<string>)
    ensures '@' in username ==> r == Some(Lower(username))
    ensures r.Some? ==> '@' in r.value && NoUpper(r.value)
  {
    if '@' in username then
      LowerKeepsChar(username, '@');
      Some(Lower(username))
    else
      match FirstMatch(username, 0)
      case Some(m) =>
        LowerKeepsChar(m, '@');
        Some(Lower(m))
      case None => None
  }

  /** The pattern needs an '@', so without one there is no match. */
  lemma {:induction false} NoAtNoMatch(s: string, i: nat)
    requires i <= |s| && '@' !in s
    ensures FirstMatch(s, i).None?
    decreases |s| - i
  {
    if i < |s| && MatchAt(s, i).None? {
      NoAtNoMatch(s, i + 1);
    }
  }

  /** The regular-expression branch can never produce a result: the username
      yields an email exactly when it contains '@', and then it is the whole
      username lowercased. */
  lemma ExtractEmailIffAt(username: string)
    ensures ExtractEmail(username).Some? <==> '@' in username
    ensures ExtractEmail(username).Some? ==> ExtractEmail(username).value == Lower(username)
  {
    if '@' !in username {
      NoAtNoMatch(username, 0);
    }
  }

  /** Extracting again from an extracted email gives it back. */
  lemma ExtractEmailIdempotent(username: string)
    requires ExtractEmail(username).Some?
    ensures ExtractEmail(ExtractEmail(username).value) == ExtractEmail(username)
  {
    var r := ExtractEmail(username).value;
    LowerOfNoUpper(r);
  }

  /** A compound username in which an address is embedded is returned whole. */
  lemma CompoundUsernameKeptWhole()
    ensures ExtractEmail("h/A@b.io") == Some("h/a@b.io")
  {
    assert Lower("h/A@b.io") == "h/a@b.io";
  }
}
