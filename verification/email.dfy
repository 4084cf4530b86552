/**
 * The e-mail recogniser of utils/email.go. The Go code matches the anchored
 * pattern
 *
 *     ^[a-zA-Z0-9._%+-]+@[a-zA-Z0-9.-]+\.[a-zA-Z]{2,}$
 *
 * `MatchesPattern` is the language of that pattern, written as a split of
 * the string into its three runs; `IsEmailValid` recognises it by greedy
 * scans, and `IsEmailValidMatchesPattern` proves the two agree.
 */
module Email {

  predicate IsAsciiLetter(c: char) {
    'a' <= c <= 'z' || 'A' <= c <= 'Z'
  }

  predicate IsAsciiDigit(c: char) {
    '0' <= c <= '9'
  }

  /** The three character classes of the pattern. */
  datatype CharClass =
    | LocalPart   // [a-zA-Z0-9._%+-]
    | DomainPart  // [a-zA-Z0-9.-]
    | TopLevel    // [a-zA-Z]

  predicate InClass(c: char, cls: CharClass) {
    match cls
    case LocalPart =>
      IsAsciiLetter(c) || IsAsciiDigit(c) || c == '.' || c == '_' || c == '%' || c == '+' || c == '-'
    case DomainPart =>
      IsAsciiLetter(c) || IsAsciiDigit(c) || c == '.' || c == '-'
    case TopLevel =>
      IsAsciiLetter(c)
  }

  /** Every character of `s[lo..hi]` is in `cls`. */
  ghost predicate AllInClass(s: string, lo: int, hi: int, cls: CharClass)
    requires 0 <= lo <= hi <= |s|
  {
    forall i :: lo <= i < hi ==> InClass(s[i], cls)
  }

  /**
   * `s` is `s[..at] + "@" + s[at+1..dot] + "." + s[dot+1..]`, with the three
   * parts one or more local characters, one or more domain characters, and
   * two or more letters.
   */
  ghost predicate SplitsAt(s: string, at: int, dot: int) {
    && 1 <= at && at + 2 <= dot && dot + 3 <= |s|
    && s[at] == '@' && s[dot] == '.'
    && AllInClass(s, 0, at, LocalPart)
    && AllInClass(s, at + 1, dot, DomainPart)
    && AllInClass(s, dot + 1, |s|, TopLevel)
  }

  /** The whole string is in the language of the anchored pattern. */
  ghost predicate MatchesPattern(s: string) {
    exists at, dot :: SplitsAt(s, at, dot)
  }

  /** Length of the longest prefix of `s` in `cls`: a greedy `cls+` scan from the left. */
  function PrefixRun(s: string, cls: CharClass): (n: nat)
    ensures n <= |s|
    ensures forall i :: 0 <= i < n ==> InClass(s[i], cls)
    ensures n < |s| ==> !InClass(s[n], cls)
  {
    if s == [] || !InClass(s[0], cls) then 0 else 1 + PrefixRun(s[1..], cls)
  }

  /** Length of the longest suffix of `s` in `cls`: a greedy `cls+$` scan from the right. */
  function SuffixRun(s: string, cls: CharClass): (n: nat)
    ensures n <= |s|
    ensures forall i :: |s| - n <= i < |s| ==> InClass(s[i], cls)
    ensures n < |s| ==> !InClass(s[|s| - 1 - n], cls)
  {
    if s == [] || !InClass(s[|s| - 1], cls) then 0 else 1 + SuffixRun(s[..|s| - 1], cls)
  }

  /** `[a-zA-Z0-9.-]+\.[a-zA-Z]{2,}$` on the text after the '@'. */
  function IsDomainValid(domain: string): bool {
    var tld := SuffixRun(domain, TopLevel);
    var dot := |domain| - tld - 1;
    2 <= tld && 1 <= dot && domain[dot] == '.' && PrefixRun(domain, DomainPart) == |domain|
  }

  /** `IsEmailValid` (and the identical `isEmailValid` of utils/validation.go). */
  function IsEmailValid(email: string): (valid: bool)
    ensures valid ==> |email| >= 6 && '@' in email
  {
    var at := PrefixRun(email, LocalPart);
    0 < at < |email| && email[at] == '@' && IsDomainValid(email[at + 1..])
  }

  /** A greedy left scan stops at the first character outside the class. */
  lemma PrefixRunStopsAt(s: string, cls: CharClass, k: nat)
    requires k <= |s| && AllInClass(s, 0, k, cls)
    requires k < |s| ==> !InClass(s[k], cls)
    ensures PrefixRun(s, cls) == k
  {
  }

  /** A greedy right scan stops at the last character outside the class. */
  lemma SuffixRunStopsAt(s: string, cls: CharClass, k: nat)
    requires k <= |s| && AllInClass(s, |s| - k, |s|, cls)
    requires k < |s| ==> !InClass(s[|s| - 1 - k], cls)
    ensures SuffixRun(s, cls) == k
  {
  }

  /** Every string the recogniser accepts is in the language of the pattern. */
  lemma AcceptedMatchesPattern(s: string)
    requires IsEmailValid(s)
    ensures MatchesPattern(s)
  {
    var at := PrefixRun(s, LocalPart);
    var domain := s[at + 1..];
    var tld := SuffixRun(domain, TopLevel);
    var dot := at + 1 + (|domain| - tld - 1);
    assert SplitsAt(s, at, dot);
  }

  /** Every string in the language of the pattern is accepted by the recogniser. */
  lemma PatternAccepted(s: string, at: int, dot: int)
    requires SplitsAt(s, at, dot)
    ensures IsEmailValid(s)
  {
    PrefixRunStopsAt(s, LocalPart, at);
    var domain := s[at + 1..];
    var d := dot - at - 1;
    SuffixRunStopsAt(domain, TopLevel, |domain| - d - 1);
    PrefixRunStopsAt(domain, DomainPart, |domain|);
  }

  /** The recogniser accepts exactly the language of the pattern. */
  lemma IsEmailValidMatchesPattern(s: string)
    ensures IsEmailValid(s) <==> MatchesPattern(s)
  {
    if IsEmailValid(s) {
      AcceptedMatchesPattern(s);
    }
    if MatchesPattern(s) {
      var at, dot :| SplitsAt(s, at, dot);
      PatternAccepted(s, at, dot);
    }
  }

  /**
   * An accepted address splits into its parts: a non-empty local part of
   * characters [a-zA-Z0-9._%+-], the only '@', a non-empty domain over
   * [a-zA-Z0-9.-], the last '.', and at least two ASCII letters.
   */
  lemma AcceptedParts(s: string) returns (at: nat, dot: nat)
    requires IsEmailValid(s)
    ensures SplitsAt(s, at, dot)
    ensures forall i :: 0 <= i < |s| && s[i] == '@' ==> i == at
    ensures forall i :: dot < i < |s| ==> s[i] != '.'
  {
    IsEmailValidMatchesPattern(s);
    var a, d :| SplitsAt(s, a, d);
    at, dot := a, d;
  }

  /**
   * Because the pattern is anchored, an accepted string is at least six
   * characters long and contains only printable, non-blank ASCII: the empty
   * string, whitespace and non-ASCII characters are all rejected.
   */
  lemma AcceptedIsPrintableAscii(s: string)
    requires IsEmailValid(s)
    ensures |s| >= 6
    ensures forall i :: 0 <= i < |s| ==> '!' <= s[i] <= '~'
  {
    var at, dot := AcceptedParts(s);
    forall i | 0 <= i < |s|
      ensures '!' <= s[i] <= '~'
    {
      if i < at {
        assert InClass(s[i], LocalPart);
      } else if at < i < dot {
        assert InClass(s[i], DomainPart);
      } else if dot < i {
        assert InClass(s[i], TopLevel);
      }
    }
  }

  /** The sample address kim@ex.com is accepted. */
  lemma ExampleAddressAccepted()
    ensures IsEmailValid("kim@ex.com")
  {
    var s := "kim@ex.com";
    assert SplitsAt(s, 3, 6);
    IsEmailValidMatchesPattern(s);
  }
}
