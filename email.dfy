/**
 * The booking e-mail field: its `lowercase` and `trim` setters and its validator,
 * the regular expression `^[^\s@]+@[^\s@]+\.[^\s@]+$`.
 */
module EmailAddress {
  import opened Wrappers
  import opened Text

  const InvalidEmailError := "Please provide a valid email address"

  /** What the two setters make of an assigned address: lower-cased, then trimmed. */
  function NormalizeEmail(raw: string): string {
    Trim(Lower(raw))
  }

  /** `[^\s@]+` without its `+`: no white space and no '@' anywhere in `s`. */
  predicate NoSpaceOrAt(s: string) {
    forall i | 0 <= i < |s| :: !IsSpace(s[i]) && s[i] != '@'
  }

  /**
   * What the anchored pattern accepts: a non-empty local part, '@', a non-empty
   * domain label, '.', and a non-empty rest, none containing white space or '@'.
   * The domain label may itself contain dots, so any dot after the '@' that is
   * neither first nor last will do.
   */
  ghost predicate MatchesEmailRegex(e: string) {
    exists i, j :: 0 < i && i + 1 < j < |e| - 1 && e[i] == '@' && e[j] == '.'
      && NoSpaceOrAt(e[..i]) && NoSpaceOrAt(e[i + 1..j]) && NoSpaceOrAt(e[j + 1..])
  }

  /** `emailRegex.test(e)`: split at the first '@' and look for an inner dot in what follows. */
  function IsValidEmail(e: string): bool {
    match IndexOf(e, '@')
    case None => false
    case Some(i) =>
      var local, domain := e[..i], e[i + 1..];
      && local != [] && NoSpaceOrAt(local) && NoSpaceOrAt(domain)
      && |domain| >= 3 && '.' in domain[1..|domain| - 1]
  }

  lemma NoSpaceOrAtSlice(s: string, a: nat, b: nat)
    requires a <= b <= |s| && NoSpaceOrAt(s)
    ensures NoSpaceOrAt(s[a..b])
  {
    assert forall k :: 0 <= k < b - a ==> s[a..b][k] == s[a + k];
  }

  lemma NoSpaceOrAtJoin(a: string, c: char, b: string)
    requires NoSpaceOrAt(a) && NoSpaceOrAt(b) && !IsSpace(c) && c != '@'
    ensures NoSpaceOrAt(a + [c] + b)
  {
    var s := a + [c] + b;
    forall k | 0 <= k < |s|
      ensures !IsSpace(s[k]) && s[k] != '@'
    {
      if k < |a| {
        assert s[k] == a[k];
      } else if k == |a| {
        assert s[k] == c;
      } else {
        assert s[k] == b[k - |a| - 1];
      }
    }
  }

  /** Every address the test accepts matches the pattern. */
  lemma ValidMatches(e: string)
    requires IsValidEmail(e)
    ensures MatchesEmailRegex(e)
  {
    var i := IndexOf(e, '@').value;
    var domain := e[i + 1..];
    var inner := domain[1..|domain| - 1];
    var k :| 0 <= k < |inner| && inner[k] == '.';
    var j := i + 2 + k;
    assert e[j] == '.';
    assert e[i + 1..j] == domain[..k + 1];
    assert e[j + 1..] == domain[k + 2..];
    NoSpaceOrAtSlice(domain, 0, k + 1);
    NoSpaceOrAtSlice(domain, k + 2, |domain|);
    assert 0 < i && i + 1 < j < |e| - 1 && e[i] == '@' && e[j] == '.'
      && NoSpaceOrAt(e[..i]) && NoSpaceOrAt(e[i + 1..j]) && NoSpaceOrAt(e[j + 1..]);
  }

  /** A match whose '@' sits at `i` and whose chosen dot sits at `j` passes the test. */
  lemma MatchesValidAt(e: string, i: nat, j: nat)
    requires 0 < i && i + 1 < j < |e| - 1 && e[i] == '@' && e[j] == '.'
    requires NoSpaceOrAt(e[..i]) && NoSpaceOrAt(e[i + 1..j]) && NoSpaceOrAt(e[j + 1..])
    ensures IsValidEmail(e)
  {
    assert '@' !in e[..i] by {
      forall k | 0 <= k < i ensures e[..i][k] != '@' { }
    }
    IndexOfFirst(e, '@', i);
    var domain := e[i + 1..];
    assert domain == e[i + 1..j] + [e[j]] + e[j + 1..];
    NoSpaceOrAtJoin(e[i + 1..j], '.', e[j + 1..]);
    assert domain[1..|domain| - 1][j - i - 2] == '.';
  }

  /** Every address the pattern matches passes the test. */
  lemma MatchesValid(e: string)
    requires MatchesEmailRegex(e)
    ensures IsValidEmail(e)
  {
    var i: nat, j: nat :| 0 < i && i + 1 < j < |e| - 1 && e[i] == '@' && e[j] == '.'
      && NoSpaceOrAt(e[..i]) && NoSpaceOrAt(e[i + 1..j]) && NoSpaceOrAt(e[j + 1..]);
    MatchesValidAt(e, i, j);
  }

  /** The test accepts exactly what the pattern matches. */
  lemma IsValidEmailMeansRegex(e: string)
    ensures IsValidEmail(e) <==> MatchesEmailRegex(e)
  {
    if IsValidEmail(e) {
      ValidMatches(e);
    }
    if MatchesEmailRegex(e) {
      MatchesValid(e);
    }
  }

  /** Any local part, domain label and rest free of white space and '@' make an accepted address. */
  lemma AcceptsSegments(local: string, host: string, rest: string)
    requires local != [] && host != [] && rest != []
    requires NoSpaceOrAt(local) && NoSpaceOrAt(host) && NoSpaceOrAt(rest)
    ensures IsValidEmail(local + "@" + host + "." + rest)
  {
    var e := local + "@" + host + "." + rest;
    var i, j := |local|, |local| + 1 + |host|;
    assert e[i] == '@' && e[j] == '.';
    assert e[..i] == local && e[i + 1..j] == host && e[j + 1..] == rest;
    MatchesValid(e);
  }

  /**
   * The pattern is much weaker than RFC 5322, whatever its comment says: a domain
   * with two dots in a row, as in "a@b..c", is accepted.
   */
  lemma AcceptsDoubleDot(e: string, local: string, host: string, rest: string)
    requires local == "a" && host == "b." && rest == "c" && e == local + "@" + host + "." + rest
    ensures IsValidEmail(e)
  {
    AcceptsSegments(local, host, rest);
  }

  /** An accepted address has exactly one '@'. */
  lemma ValidHasOneAt(e: string, k: nat)
    requires IsValidEmail(e) && k < |e| && e[k] == '@'
    ensures IndexOf(e, '@') == Some(k)
  {
  }

  /** An address without a dot after its '@' is refused. */
  lemma RefusesWithoutDot(e: string, local: string, domain: string)
    requires e == local + "@" + domain && '.' !in domain
    ensures !IsValidEmail(e)
  {
    if IsValidEmail(e) {
      ValidHasOneAt(e, |local|);
    }
  }

  /** An address with white space anywhere is refused. */
  lemma RefusesSpace(e: string, k: nat)
    requires k < |e| && IsSpace(e[k])
    ensures !IsValidEmail(e)
  {
    match IndexOf(e, '@')
    case None =>
    case Some(i) =>
      if k < i {
        assert e[..i][k] == e[k];
      } else if k > i {
        assert e[i + 1..][k - i - 1] == e[k];
      } else {
        assert false;
      }
  }

  // ---- the setters ----

  /** Setting an address twice changes nothing the second time. */
  lemma NormalizeEmailIdempotent(raw: string)
    ensures NormalizeEmail(NormalizeEmail(raw)) == NormalizeEmail(raw)
  {
    TrimLowerIdempotent(raw);
  }

  /** A stored address has no upper-case ASCII letter and no white space at either end. */
  lemma NormalizedShape(raw: string)
    ensures var e := NormalizeEmail(raw);
      && (forall k :: 0 <= k < |e| ==> !('A' <= e[k] <= 'Z'))
      && (e == [] || (!IsSpace(e[0]) && !IsSpace(e[|e| - 1])))
  {
    TrimShape(Lower(raw));
  }

  /** White space around an address is dropped and its letters are lowered. */
  lemma NormalizeSpacedAddress(raw: string, pre: string, e: string, post: string)
    requires forall i :: 0 <= i < |pre| ==> IsSpace(pre[i])
    requires forall i :: 0 <= i < |post| ==> IsSpace(post[i])
    requires e != [] && !IsSpace(e[0]) && !IsSpace(e[|e| - 1])
    requires raw == pre + e + post
    ensures NormalizeEmail(raw) == Lower(e)
  {
    TrimLowerCommute(raw);
    SpacedTrim(pre, e, post);
  }

  /** "A@B.COM" is stored as "a@b.com", which the pattern accepts. */
  lemma UpperCaseAddressExample(raw: string, local: string, host: string, rest: string)
    requires raw == "A@B.COM" && local == "a" && host == "b" && rest == "com"
    ensures NormalizeEmail(raw) == "a@b.com" && IsValidEmail(NormalizeEmail(raw))
  {
    assert Lower(raw) == "a@b.com";
    TrimNoOp(Lower(raw));
    assert local + "@" + host + "." + rest == "a@b.com";
    AcceptsSegments(local, host, rest);
  }
}
