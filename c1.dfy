/**
  The first validator, `validate_email` of hw1/c1.py: the address is stripped
  of surrounding whitespace and matched against one anchored pattern; the
  domain then goes through a length check, a split on '.', a depth check and a
  per-label DNS check, and the local part through a plus-tag split.
 */
module C1 {
  import opened Text

  /** `EmailComponents` */
  datatype Components = Components(local: string, domain: string, plusTags: seq<string>)

  /** `ValidationResult`; `components` is `None` where the source returns `{}`. */
  datatype ValidationResult = ValidationResult(isValid: bool, error: Option<Error>, components: Option<Components>)

  /** The failures `validate_email` reports, one per early return. */
  datatype Error =
    | EmptyAddress
    | InvalidFormat
    | EmptyLocalPart
    | DomainTooLong
    | InvalidDomainFormat
    | SubdomainDepthExceeded
    | InvalidSubdomain(part: string)
    | LocalStartsWithPlus

  /** The `error` string the source returns for each failure. */
  function Message(e: Error): (m: string)
    ensures m != []
  {
    match e
    case EmptyAddress => "Email address cannot be empty"
    case InvalidFormat => "Invalid email format"
    case EmptyLocalPart => "Local part cannot be empty"
    case DomainTooLong => "Maximum domain length exceeded"
    case InvalidDomainFormat => "Invalid domain format"
    case SubdomainDepthExceeded => "Maximum subdomain depth exceeded"
    case InvalidSubdomain(part) => "Invalid subdomain component: '" + part + "'"
    case LocalStartsWithPlus => "Local part cannot start with '+'"
  }

  function Reject(e: Error): ValidationResult {
    ValidationResult(false, Some(e), None)
  }

  // ---------------------------------------------------------------------------
  // EMAIL_PATTERN = ^([a-zA-Z0-9._+-]+)@([a-zA-Z0-9.-]+\.[a-zA-Z]{2,})$
  // ---------------------------------------------------------------------------

  /** `[a-zA-Z0-9.-]` */
  predicate IsDomainChar(c: char) {
    IsAlnum(c) || c == '.' || c == '-'
  }

  predicate AllDomainChars(s: string) {
    forall k :: 0 <= k < |s| ==> IsDomainChar(s[k])
  }

  /**
    The second group, `[a-zA-Z0-9.-]+\.[a-zA-Z]{2,}`, decided through the last
    dot: the letters-only tail can hold no dot, so the `\.` of any match is the
    last one.
   */
  predicate DomainGroupMatch(d: string) {
    AllDomainChars(d) &&
    var p := RFind(d, '.');
    p >= 1 && |d| - p - 1 >= 2 && AllLetters(d[p + 1..])
  }

  /** The second group read literally: some dot, with at least one domain character before it and two or more letters after it. */
  ghost predicate DomainGroupSpec(d: string) {
    exists p :: 1 <= p && p + 3 <= |d| && d[p] == '.' && AllDomainChars(d[..p]) && AllLetters(d[p + 1..])
  }

  /** `s` without one final "\n": the text `$` lets the pattern's groups cover. */
  function DropFinalNewline(s: string): (t: string)
    ensures s == t || s == t + "\n"
  {
    if EndsWith(s, '\n') then s[..|s| - 1] else s
  }

  /**
    The two groups of `^([a-zA-Z0-9._+-]+)@(...)` covering all of `t`. The
    first group cannot hold '@', so it is everything before the first '@'.
   */
  function MatchGroups(t: string): (r: Option<(string, string)>)
    ensures r.Some? ==> t == r.value.0 + "@" + r.value.1
  {
    var at := Find(t, '@');
    if 1 <= at < |t| && AllLocalChars(t[..at]) && DomainGroupMatch(t[at + 1..])
    then
      assert t == t[..at] + "@" + t[at + 1..];
      Some((t[..at], t[at + 1..]))
    else None
  }

  /** `EMAIL_PATTERN.match(s)` and its two groups; `$` also accepts a final "\n", which no group can hold. */
  function MatchEmailPattern(s: string): Option<(string, string)> {
    MatchGroups(DropFinalNewline(s))
  }

  /** What the pattern accepts, read off the pattern itself. */
  ghost predicate PatternMatches(s: string, local: string, domain: string) {
    && (s == local + "@" + domain || s == local + "@" + domain + "\n")
    && |local| >= 1 && AllLocalChars(local)
    && DomainGroupSpec(domain)
  }

  lemma {:induction false} DomainGroupIff(d: string)
    ensures DomainGroupMatch(d) <==> DomainGroupSpec(d)
  {
    var p := RFind(d, '.');
    if DomainGroupMatch(d) {
      assert d[p] == '.';
      assert 1 <= p && p + 3 <= |d| && d[p] == '.' && AllDomainChars(d[..p]) && AllLetters(d[p + 1..]);
    }
    if DomainGroupSpec(d) {
      var q :| 1 <= q && q + 3 <= |d| && d[q] == '.' && AllDomainChars(d[..q]) && AllLetters(d[q + 1..]);
      forall k | q < k < |d|
        ensures d[k] != '.'
      {
        assert d[k] == d[q + 1..][k - q - 1];
      }
      assert p == q;
      forall k | 0 <= k < |d|
        ensures IsDomainChar(d[k])
      {
        if k < q {
          assert d[k] == d[..q][k];
        } else if k > q {
          assert d[k] == d[q + 1..][k - q - 1];
        }
      }
    }
  }

  /** `MatchEmailPattern` returns exactly the groups of a match, and a match exists only where it returns one. */
  lemma {:induction false} MatchEmailPatternIff(s: string, local: string, domain: string)
    ensures MatchEmailPattern(s) == Some((local, domain)) <==> PatternMatches(s, local, domain)
  {
    if PatternMatches(s, local, domain) {
      MatchEmailPatternComplete(s, local, domain);
    }
    if MatchEmailPattern(s) == Some((local, domain)) {
      MatchEmailPatternSound(s);
    }
  }

  lemma {:induction false} MatchEmailPatternSound(s: string)
    requires MatchEmailPattern(s).Some?
    ensures PatternMatches(s, MatchEmailPattern(s).value.0, MatchEmailPattern(s).value.1)
  {
    var t := DropFinalNewline(s);
    var at := Find(t, '@');
    DomainGroupIff(t[at + 1..]);
  }

  lemma {:induction false} MatchEmailPatternComplete(s: string, local: string, domain: string)
    requires PatternMatches(s, local, domain)
    ensures MatchEmailPattern(s) == Some((local, domain))
  {
    DomainGroupIff(domain);
    var core := local + "@" + domain;
    assert core[|core| - 1] == domain[|domain| - 1];
    DomainGroupEndsInLetter(domain);
    DropFinalNewlineOf(core);
    MatchGroupsComplete(local, domain);
  }

  lemma {:induction false} DomainGroupEndsInLetter(d: string)
    requires DomainGroupMatch(d)
    ensures IsAsciiLetter(d[|d| - 1])
  {
    var p := RFind(d, '.');
    assert d[|d| - 1] == d[p + 1..][|d| - p - 2];
  }

  lemma {:induction false} DropFinalNewlineOf(t: string)
    requires t != [] && t[|t| - 1] != '\n'
    ensures DropFinalNewline(t) == t && DropFinalNewline(t + "\n") == t
  {
    assert (t + "\n")[..|t|] == t;
  }

  /** The groups of `local + "@" + domain` are `local` and `domain` when they have the groups' shapes. */
  lemma {:induction false} MatchGroupsComplete(local: string, domain: string)
    requires |local| >= 1 && AllLocalChars(local) && DomainGroupMatch(domain)
    ensures MatchGroups(local + "@" + domain) == Some((local, domain))
  {
    var t := local + "@" + domain;
    assert '@' !in local;
    FindAfterPrefix(local, domain, '@');
    assert t[..|local|] == local;
    assert t[|local| + 1..] == domain;
  }

  // ---------------------------------------------------------------------------
  // SUBDOMAIN_PATTERN = ^[a-zA-Z0-9]([a-zA-Z0-9-]*[a-zA-Z0-9])?$
  // ---------------------------------------------------------------------------

  /** A DNS label: alphanumeric first and last character, alphanumerics or '-' between. */
  predicate DnsLabel(t: string) {
    && |t| >= 1
    && IsAlnum(t[0]) && IsAlnum(t[|t| - 1])
    && forall k :: 0 < k < |t| - 1 ==> IsAlnum(t[k]) || t[k] == '-'
  }

  predicate SubdomainMatch(part: string) {
    AnchoredMatch(DnsLabel, part)
  }

  /** The `for` loop over the labels: the first label the pattern rejects, if any. */
  function FirstMismatch(parts: seq<string>): (r: Option<string>)
    ensures r.None? <==> forall k :: 0 <= k < |parts| ==> SubdomainMatch(parts[k])
    ensures r.Some? ==> exists k :: 0 <= k < |parts| && parts[k] == r.value && !SubdomainMatch(parts[k])
                                    && forall j :: 0 <= j < k ==> SubdomainMatch(parts[j])
  {
    if parts == [] then None
    else if !SubdomainMatch(parts[0]) then Some(parts[0])
    else
      var r := FirstMismatch(parts[1..]);
      assert forall k :: 1 <= k < |parts| ==> parts[k] == parts[1..][k - 1];
      r
  }

  // ---------------------------------------------------------------------------
  // validate_email
  // ---------------------------------------------------------------------------

  /** `validate_email`: the guards in source order, the first failing one deciding the error. */
  function ValidateEmail(email: string): (r: ValidationResult)
    ensures r.isValid <==> r.error.None?
    ensures r.isValid <==> r.components.Some?
  {
    if email == [] || Strip(email) == [] then Reject(EmptyAddress)
    else CheckFormat(Strip(email))
  }

  /** The pattern match on the stripped address. */
  function CheckFormat(stripped: string): (r: ValidationResult)
    ensures r.isValid <==> r.error.None?
    ensures r.isValid <==> r.components.Some?
    ensures r.error != Some(EmptyAddress)
  {
    match MatchEmailPattern(stripped)
    case None => Reject(InvalidFormat)
    case Some((localPart, domain)) => CheckGroups(localPart, domain)
  }

  /** The checks on the two groups of a match. */
  function CheckGroups(localPart: string, domain: string): (r: ValidationResult)
    ensures r.isValid <==> r.error.None?
    ensures r.isValid <==> r.components.Some?
    ensures r.error != Some(EmptyAddress) && r.error != Some(InvalidFormat)
  {
    if localPart == [] then Reject(EmptyLocalPart)
    else if |domain| > 255 then Reject(DomainTooLong)
    else CheckDomainParts(localPart, domain, Split(domain, '.'))
  }

  /** The checks on `domain.split('.')`. */
  function CheckDomainParts(localPart: string, domain: string, domainParts: seq<string>): (r: ValidationResult)
    ensures r.isValid <==> r.error.None?
    ensures r.isValid <==> r.components.Some?
    ensures r.error != Some(EmptyAddress) && r.error != Some(InvalidFormat) && r.error != Some(EmptyLocalPart)
  {
    if !NoEmptyPiece(domainParts) then Reject(InvalidDomainFormat)
    else if |domainParts| > 10 then Reject(SubdomainDepthExceeded)
    else
      match FirstMismatch(domainParts)
      case Some(part) => Reject(InvalidSubdomain(part))
      case None => CheckPlusTags(localPart, domain)
  }

  /** The plus-tag split of the local part, and the result of a successful validation. */
  function CheckPlusTags(localPart: string, domain: string): (r: ValidationResult)
    ensures r.isValid <==> r.error.None?
    ensures r.isValid <==> r.components.Some?
    ensures r.error.None? || r.error == Some(LocalStartsWithPlus)
  {
    var localComponents := Split(localPart, '+');
    var plusTags := if |localComponents| > 1 then localComponents[1..] else [];
    if localComponents[0] == [] then Reject(LocalStartsWithPlus)
    else ValidationResult(true, None, Some(Components(localPart, domain, plusTags)))
  }

  // ---------------------------------------------------------------------------
  // What an accepted address looks like
  // ---------------------------------------------------------------------------

  predicate AllDnsLabels(labels: seq<string>) {
    forall k :: 0 <= k < |labels| ==> DnsLabel(labels[k])
  }

  /** The top-level label: two or more letters. */
  predicate TopLevelLabel(t: string) {
    |t| >= 2 && AllLetters(t)
  }

  /** A domain the validator accepts: at most 255 characters, 2 to 10 DNS labels, the last one letters only. */
  ghost predicate WellFormedDomain(d: string) {
    && |d| <= 255
    && var labels := Split(d, '.');
    && 2 <= |labels| <= 10
    && AllDnsLabels(labels)
    && TopLevelLabel(labels[|labels| - 1])
  }

  /** `c` is what the validator reports for `email`, stated without the guard chain. */
  ghost predicate Accepts(email: string, c: Components) {
    && Strip(email) == c.local + "@" + c.domain
    && c.local != [] && AllLocalChars(c.local)
    && Split(c.local, '+')[0] != []
    && c.plusTags == Split(c.local, '+')[1..]
    && WellFormedDomain(c.domain)
  }

  lemma {:induction false} DnsLabelChars(t: string, j: nat)
    requires DnsLabel(t) && j < |t|
    ensures IsAlnum(t[j]) || t[j] == '-'
  {
  }

  lemma {:induction false} DomainCharIn(d: string, ch: char)
    requires AllDomainChars(d) && ch in d
    ensures IsDomainChar(ch)
  {
    var j :| 0 <= j < |d| && d[j] == ch;
  }

  /** A label of an all-domain-character string cannot end in "\n", so `$` accepts it only as a DNS label. */
  lemma {:induction false} DomainLabelMatch(d: string, k: nat)
    requires AllDomainChars(d) && k < |Split(d, '.')|
    requires SubdomainMatch(Split(d, '.')[k])
    ensures DnsLabel(Split(d, '.')[k])
  {
    var t := Split(d, '.')[k];
    SplitPieceChars(d, '.', k, |t| - 1);
    DomainCharIn(d, t[|t| - 1]);
  }

  /** A second group that passes the domain checks is a well-formed domain. */
  lemma {:induction false} DomainChecksSound(d: string)
    requires DomainGroupMatch(d) && |d| <= 255
    requires NoEmptyPiece(Split(d, '.')) && |Split(d, '.')| <= 10
    requires FirstMismatch(Split(d, '.')).None?
    ensures WellFormedDomain(d)
  {
    var labels := Split(d, '.');
    forall k | 0 <= k < |labels|
      ensures DnsLabel(labels[k])
    {
      DomainLabelMatch(d, k);
    }
    DomainGroupLabels(d);
  }

  /** The second group splits into two or more labels, the last of them its letters-only tail. */
  lemma {:induction false} DomainGroupLabels(d: string)
    requires DomainGroupMatch(d)
    ensures var labels := Split(d, '.'); 2 <= |labels| && TopLevelLabel(labels[|labels| - 1])
  {
    var p := RFind(d, '.');
    assert '.' in d by {
      assert d[p] == '.';
    }
    SplitCount(d, '.');
    SplitLastAfterRFind(d, '.');
  }

  /** A well-formed domain matches the second group and passes every domain check. */
  lemma {:induction false} DomainChecksComplete(d: string)
    requires WellFormedDomain(d)
    ensures DomainGroupSpec(d)
    ensures NoEmptyPiece(Split(d, '.')) && FirstMismatch(Split(d, '.')).None?
  {
    var labels := Split(d, '.');
    SplitCount(d, '.');
    assert '.' in d;
    forall j | 0 <= j < |d|
      ensures IsDomainChar(d[j])
    {
      if d[j] != '.' {
        SplitCovers(d, '.', j);
        var k, i :| 0 <= k < |labels| && 0 <= i < |labels[k]| && labels[k][i] == d[j];
        DnsLabelChars(labels[k], i);
      }
    }
    SplitLastAfterRFind(d, '.');
    SplitFirst(d, '.');
    assert d[0] == labels[0][0];
    assert DomainGroupMatch(d);
    DomainGroupIff(d);
    assert forall k :: 0 <= k < |labels| ==> SubdomainMatch(labels[k]);
  }

  /** The source's `local_components[1:] if len(local_components) > 1 else []` is every piece after the first. */
  lemma {:induction false} PlusTagsOfSplit(l: string)
    ensures var lc := Split(l, '+'); (if |lc| > 1 then lc[1..] else []) == lc[1..]
  {
    var lc := Split(l, '+');
    if |lc| <= 1 {
      assert |lc[1..]| == 0;
    }
  }

  /** Groups that pass the checks form a well-formed domain and a local part with a non-empty base. */
  lemma {:induction false} CheckGroupsSound(l: string, d: string)
    requires CheckGroups(l, d).isValid && DomainGroupMatch(d)
    ensures CheckGroups(l, d).components == Some(Components(l, d, Split(l, '+')[1..]))
    ensures Split(l, '+')[0] != [] && WellFormedDomain(d)
  {
    assert CheckGroups(l, d) == CheckDomainParts(l, d, Split(d, '.'));
    assert FirstMismatch(Split(d, '.')).None?;
    assert CheckGroups(l, d) == CheckPlusTags(l, d);
    PlusTagsOfSplit(l);
    DomainChecksSound(d);
  }

  /** Groups of the accepted shape pass the checks. */
  lemma {:induction false} CheckGroupsComplete(l: string, d: string)
    requires l != [] && Split(l, '+')[0] != [] && WellFormedDomain(d)
    ensures CheckGroups(l, d) == ValidationResult(true, None, Some(Components(l, d, Split(l, '+')[1..])))
  {
    DomainChecksComplete(d);
    assert CheckGroups(l, d) == CheckDomainParts(l, d, Split(d, '.'));
    assert CheckGroups(l, d) == CheckPlusTags(l, d);
    PlusTagsOfSplit(l);
  }

  /** Every valid result is an accepted address with its components. */
  lemma {:induction false} ValidateEmailSound(email: string)
    requires ValidateEmail(email).isValid
    ensures Accepts(email, ValidateEmail(email).components.value)
  {
    var e := Strip(email);
    StripEnds(email);
    assert DropFinalNewline(e) == e;
    var t := MatchEmailPattern(e);
    assert ValidateEmail(email) == CheckFormat(e);
    var (l, d) := t.value;
    assert CheckFormat(e) == CheckGroups(l, d);
    CheckGroupsSound(l, d);
  }

  /** Every accepted address is reported valid, with exactly those components. */
  lemma {:induction false} ValidateEmailComplete(email: string, c: Components)
    requires Accepts(email, c)
    ensures ValidateEmail(email) == ValidationResult(true, None, Some(c))
  {
    var l, d := c.local, c.domain;
    DomainChecksComplete(d);
    MatchEmailPatternIff(Strip(email), l, d);
    CheckGroupsComplete(l, d);
    assert ValidateEmail(email) == CheckFormat(Strip(email));
  }

  /** Once the stripped address has the pattern's shape, the verdict is that of the checks on its two groups. */
  lemma {:induction false} ValidateEmailGroups(email: string, l: string, d: string)
    requires Strip(email) == l + "@" + d
    requires |l| >= 1 && AllLocalChars(l) && DomainGroupMatch(d)
    ensures ValidateEmail(email) == CheckGroups(l, d)
  {
    var core := l + "@" + d;
    assert core[|core| - 1] == d[|d| - 1];
    DomainGroupEndsInLetter(d);
    DropFinalNewlineOf(core);
    MatchGroupsComplete(l, d);
  }

  /** The result is the empty-address error exactly when the input is empty or whitespace only. */
  lemma {:induction false} EmptyAddressIffBlank(email: string)
    ensures ValidateEmail(email).error == Some(EmptyAddress) <==> AllSpace(email)
  {
    StripEnds(email);
  }

  /** The "Local part cannot be empty" branch is dead: the pattern's first group is never empty. */
  lemma {:induction false} EmptyLocalPartUnreachable(email: string)
    ensures ValidateEmail(email).error != Some(EmptyLocalPart)
  {
  }
}
