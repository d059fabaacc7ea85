/**
  The second validator, `validate_email` of hw1/c1/c1_v2/email_validator.py:
  a chain of guards on the whole address (empty, non-ASCII, quoted string,
  number of '@'), then `_validate_local_part` and `_validate_domain_part` on the
  two sides of the '@', and finally `_extract_plus_tags` on the local part.
  Each guard is an early return; the first one that fires decides the error.
 */
module EmailValidator {
  import opened Text

  /** `EmailComponents` */
  datatype Components = Components(local: string, domain: string, plusTags: seq<string>)

  /** The components every failed validation returns. */
  const EmptyComponents := Components("", "", [])

  /** `EmailValidationResult` */
  datatype ValidationResult = ValidationResult(isValid: bool, error: Option<Error>, components: Components)

  /** The failures `validate_email` itself reports, and those of the two part checks it passes on. */
  datatype Error =
    | EmptyAddress
    | NonAscii
    | QuotedString
    | MissingAt
    | MultipleAt
    | LocalPart(local: LocalError)
    | DomainPart(domain: DomainError)

  /** The failures `_validate_local_part` reports, one per early return. */
  datatype LocalError =
    | EmptyLocalPart
    | LocalPartTooLong
    | LocalPartInvalidCharacters
    | LocalPartConsecutiveDots
    | LocalPartLeadingDot
    | LocalPartTrailingDot
    | LocalPartWhitespace

  /** The failures `_validate_domain_part` reports, one per early return. */
  datatype DomainError =
    | EmptyDomainPart
    | DomainDotAtEdge
    | DomainHyphenAtEdge
    | DomainConsecutiveDots
    | DomainTooLong
    | DomainWithoutDot
    | TooManySubdomainLevels
    | EmptyLabel(position: nat)
    | LabelInvalidCharacters(name: string)
    | LabelHyphenAtEdge(name: string)
    | LabelTooLong(name: string)
    | DomainWhitespace

  /** The limits of the validator: RFC 5321 section 4.5.3.1.1 for the local part, the rest its own. */
  const MaxLocalLength := 64
  const MaxDomainLength := 255
  const MaxLabels := 12
  const MaxLabelLength := 32

  /** The character of decimal digit `d`. */
  function DigitChar(d: nat): (c: char)
    requires d < 10
    ensures IsDigit(c) && c as int - '0' as int == d
  {
    ('0' as int + d) as char
  }

  /** The number a run of decimal digits denotes, most significant first. */
  function DecimalValue(s: string): nat
    requires forall k :: 0 <= k < |s| ==> IsDigit(s[k])
  {
    if s == [] then 0
    else
      assert IsDigit(s[|s| - 1]);
      DecimalValue(s[..|s| - 1]) * 10 + (s[|s| - 1] as int - '0' as int)
  }

  /** Decimal digits of `n`, as an f-string prints an `int`: no leading zero unless `n` is 0. */
  function NatToString(n: nat): (s: string)
    ensures s != [] && forall k :: 0 <= k < |s| ==> IsDigit(s[k])
    ensures |s| > 1 ==> s[0] != '0'
  {
    if n < 10 then [DigitChar(n)] else NatToString(n / 10) + [DigitChar(n % 10)]
  }

  /** The digits of `NatToString(n)` denote `n`. */
  lemma {:induction false} NatToStringValue(n: nat)
    ensures DecimalValue(NatToString(n)) == n
  {
    var s := NatToString(n);
    if n >= 10 {
      NatToStringValue(n / 10);
      assert s[..|s| - 1] == NatToString(n / 10);
    }
  }

  /**
    The `error` string the source returns for each failure; never empty, so
    the source's `if error:` tests are the same as testing for `Some`.
   */
  function Message(e: Error): (m: string)
    ensures m != []
  {
    match e
    case EmptyAddress => "Email address cannot be empty"
    case NonAscii => "Internationalized domain names are not supported"
    case QuotedString => "Quoted strings are not allowed in local part"
    case MissingAt => "Email address must contain '@' symbol"
    case MultipleAt => "Email address must contain exactly one '@' symbol"
    case LocalPart(l) => LocalMessage(l)
    case DomainPart(d) => DomainMessage(d)
  }

  function LocalMessage(e: LocalError): (m: string)
    ensures m != []
  {
    match e
    case EmptyLocalPart => "Local part cannot be empty"
    case LocalPartTooLong => "Local part exceeds maximum length of 64 characters"
    case LocalPartInvalidCharacters => "Local part contains invalid characters"
    case LocalPartConsecutiveDots => "Local part cannot contain consecutive dots"
    case LocalPartLeadingDot => "Local part cannot start with a dot"
    case LocalPartTrailingDot => "Local part cannot end with a dot"
    case LocalPartWhitespace => "Local part cannot contain whitespace"
  }

  function DomainMessage(e: DomainError): (m: string)
    ensures m != []
  {
    match e
    case EmptyDomainPart => "Domain part cannot be empty"
    case DomainDotAtEdge => "Domain cannot start or end with a dot"
    case DomainHyphenAtEdge => "Domain cannot start or end with a hyphen"
    case DomainConsecutiveDots => "Domain cannot contain consecutive dots"
    case DomainTooLong => "Domain exceeds maximum length of 255 characters"
    case DomainWithoutDot => "Domain must contain at least one dot (e.g., example.com)"
    case TooManySubdomainLevels => "Domain cannot have more than 10 subdomain levels"
    case EmptyLabel(position) => "Domain label at position " + NatToString(position) + " is empty"
    case LabelInvalidCharacters(name) => "Domain label '" + name + "' contains invalid characters"
    case LabelHyphenAtEdge(name) => "Domain label '" + name + "' cannot start or end with hyphen"
    case LabelTooLong(name) => "Domain label '" + name + "' exceeds maximum length of 32 characters"
    case DomainWhitespace => "Domain cannot contain whitespace"
  }

  function Reject(e: Error): ValidationResult {
    ValidationResult(false, Some(e), EmptyComponents)
  }

  // ---------------------------------------------------------------------------
  // The patterns
  // ---------------------------------------------------------------------------

  /** `NON_ASCII_PATTERN = [^\x00-\x7F]` */
  predicate IsNonAscii(c: char) {
    c as int > 0x7F
  }

  /** `NON_ASCII_PATTERN.search(s)` */
  predicate HasNonAscii(s: string) {
    exists k :: 0 <= k < |s| && IsNonAscii(s[k])
  }

  /** `"` at `i` and at `j`, with no newline between them (`.` does not match "\n"). */
  predicate QuotedSpan(s: string, i: int, j: int) {
    0 <= i < j < |s| && s[i] == '"' && s[j] == '"' && forall k :: i < k < j ==> s[k] != '\n'
  }

  /** `QUOTED_STRING_PATTERN.search(s)` for `QUOTED_STRING_PATTERN = ".*"` */
  predicate HasQuotedString(s: string) {
    exists i, j :: 0 <= i < j < |s| && QuotedSpan(s, i, j)
  }

  /** The body of `LOCAL_PART_PATTERN = ^[a-zA-Z0-9._+-]+$` */
  predicate LocalBody(s: string) {
    |s| >= 1 && AllLocalChars(s)
  }

  /** `[a-zA-Z0-9-]` */
  predicate IsLabelChar(c: char) {
    IsAlnum(c) || c == '-'
  }

  predicate AllLabelChars(s: string) {
    forall k :: 0 <= k < |s| ==> IsLabelChar(s[k])
  }

  /** The body of `DOMAIN_LABEL_PATTERN = ^[a-zA-Z0-9-]+$` */
  predicate LabelBody(s: string) {
    |s| >= 1 && AllLabelChars(s)
  }

  /** `' ' in s or '\t' in s or '\n' in s` */
  predicate HasWhitespace(s: string) {
    ' ' in s || '\t' in s || '\n' in s
  }

  // ---------------------------------------------------------------------------
  // _validate_local_part
  // ---------------------------------------------------------------------------

  /** `_validate_local_part`: the first failing check, or `None`. */
  function ValidateLocalPart(local: string): Option<LocalError> {
    if local == [] then Some(EmptyLocalPart)
    else if |local| > MaxLocalLength then Some(LocalPartTooLong)
    else if !AnchoredMatch(LocalBody, local) then Some(LocalPartInvalidCharacters)
    else if HasPair(local, '.', '.') then Some(LocalPartConsecutiveDots)
    else if StartsWith(local, '.') then Some(LocalPartLeadingDot)
    else if EndsWith(local, '.') then Some(LocalPartTrailingDot)
    else if HasWhitespace(local) then Some(LocalPartWhitespace)
    else None
  }

  // ---------------------------------------------------------------------------
  // _validate_domain_part
  // ---------------------------------------------------------------------------

  /** One iteration of the label loop, for the label at 1-based `position`. */
  function LabelError(t: string, position: nat): Option<DomainError> {
    if t == [] then Some(EmptyLabel(position))
    else if !AnchoredMatch(LabelBody, t) then Some(LabelInvalidCharacters(t))
    else if StartsWith(t, '-') || EndsWith(t, '-') then Some(LabelHyphenAtEdge(t))
    else if |t| > MaxLabelLength then Some(LabelTooLong(t))
    else None
  }

  /** The label loop: the error of the first label that has one, numbering from `position`. */
  function FirstLabelError(labels: seq<string>, position: nat): (r: Option<DomainError>)
    ensures r.None? <==> forall k :: 0 <= k < |labels| ==> LabelError(labels[k], position + k).None?
    ensures r.Some? ==> exists k :: 0 <= k < |labels| && LabelError(labels[k], position + k) == r
                                    && forall j :: 0 <= j < k ==> LabelError(labels[j], position + j).None?
  {
    if labels == [] then None
    else if LabelError(labels[0], position).Some? then LabelError(labels[0], position)
    else
      var r := FirstLabelError(labels[1..], position + 1);
      assert forall k :: 1 <= k < |labels| ==> labels[k] == labels[1..][k - 1];
      r
  }

  /** `_validate_domain_part`: the first failing check, or `None`. */
  function ValidateDomainPart(domain: string): Option<DomainError> {
    match DomainStringError(domain)
    case Some(e) => Some(e)
    case None => CheckLabels(domain, Split(domain, '.'))
  }

  /** The checks on the domain string before it is split. */
  function DomainStringError(domain: string): Option<DomainError> {
    if domain == [] then Some(EmptyDomainPart)
    else if StartsWith(domain, '.') || EndsWith(domain, '.') then Some(DomainDotAtEdge)
    else if StartsWith(domain, '-') || EndsWith(domain, '-') then Some(DomainHyphenAtEdge)
    else if HasPair(domain, '.', '.') then Some(DomainConsecutiveDots)
    else if |domain| > MaxDomainLength then Some(DomainTooLong)
    else None
  }

  /** The checks after `domain.split('.')`. */
  function CheckLabels(domain: string, labels: seq<string>): Option<DomainError> {
    if |labels| < 2 then Some(DomainWithoutDot)
    else if |labels| > MaxLabels then Some(TooManySubdomainLevels)
    else
      match FirstLabelError(labels, 1)
      case Some(e) => Some(e)
      case None => if HasWhitespace(domain) then Some(DomainWhitespace) else None
  }

  // ---------------------------------------------------------------------------
  // _extract_plus_tags and validate_email
  // ---------------------------------------------------------------------------

  /** `_extract_plus_tags`: every '+'-separated piece after the first, in order. */
  function ExtractPlusTags(local: string): (tags: seq<string>)
    ensures tags == Split(local, '+')[1..]
  {
    if '+' !in local then
      SplitWithoutSeparator(local, '+');
      []
    else
      var parts := Split(local, '+');
      if |parts| > 1 then parts[1..] else []
  }

  /** `validate_email`: the guards in source order, the first failing one deciding the error. */
  function ValidateEmail(email: string): (r: ValidationResult)
    ensures r.isValid <==> r.error.None?
    ensures !r.isValid ==> r.components == EmptyComponents
  {
    if email == [] then Reject(EmptyAddress)
    else if HasNonAscii(email) then Reject(NonAscii)
    else if HasQuotedString(email) then Reject(QuotedString)
    else CheckAtSigns(email)
  }

  /** `email.count('@')` must be 1; then `email.split('@')` gives the two parts. */
  function CheckAtSigns(email: string): (r: ValidationResult)
    ensures r.isValid <==> r.error.None?
    ensures !r.isValid ==> r.components == EmptyComponents
  {
    if Count(email, '@') != 1 then
      if Count(email, '@') == 0 then Reject(MissingAt) else Reject(MultipleAt)
    else
      SplitCount(email, '@');
      var parts := Split(email, '@');
      ValidateParts(parts[0], parts[1])
  }

  /** The local-part and domain-part checks, and the result of a successful validation. */
  function ValidateParts(local: string, domain: string): (r: ValidationResult)
    ensures r.isValid <==> r.error.None?
    ensures !r.isValid ==> r.components == EmptyComponents
    ensures r.error.None? || r.error.value.LocalPart? || r.error.value.DomainPart?
  {
    match ValidateLocalPart(local)
    case Some(e) => Reject(LocalPart(e))
    case None =>
      match ValidateDomainPart(domain)
      case Some(e) => Reject(DomainPart(e))
      case None => ValidationResult(true, None, Components(local, domain, ExtractPlusTags(local)))
  }

  // ---------------------------------------------------------------------------
  // What an accepted address looks like, stated without the guard chain
  // ---------------------------------------------------------------------------

  /** A local part the validator accepts: 1 to 64 pattern characters, no "..", no '.' at either end. */
  predicate LocalSpec(l: string) {
    && 1 <= |l| <= MaxLocalLength
    && AllLocalChars(l)
    && !HasPair(l, '.', '.')
    && l[0] != '.' && l[|l| - 1] != '.'
  }

  /** A domain label the validator accepts: 1 to 32 letters, digits or '-', no '-' at either end. */
  predicate GoodLabel(t: string) {
    && 1 <= |t| <= MaxLabelLength
    && AllLabelChars(t)
    && t[0] != '-' && t[|t| - 1] != '-'
  }

  predicate AllGoodLabels(labels: seq<string>) {
    forall k :: 0 <= k < |labels| ==> GoodLabel(labels[k])
  }

  /** A domain the validator accepts: at most 255 characters, 2 to 12 good labels. */
  predicate DomainSpec(d: string) {
    && |d| <= MaxDomainLength
    && 2 <= |Split(d, '.')| <= MaxLabels
    && AllGoodLabels(Split(d, '.'))
  }

  /** `c` is what the validator reports for `email`. */
  ghost predicate Accepts(email: string, c: Components) {
    && email == c.local + "@" + c.domain
    && LocalSpec(c.local)
    && DomainSpec(c.domain)
    && c.plusTags == Split(c.local, '+')[1..]
  }

  // ---------------------------------------------------------------------------
  // The local part
  // ---------------------------------------------------------------------------

  /** `_validate_local_part` accepts exactly the local parts of `LocalSpec`. */
  lemma {:induction false} ValidateLocalPartIff(l: string)
    ensures ValidateLocalPart(l).None? <==> LocalSpec(l)
  {
    if LocalSpec(l) {
      assert LocalBody(l);
      assert !IsLocalChar(' ') && !IsLocalChar('\t') && !IsLocalChar('\n');
      assert !HasWhitespace(l);
    }
    if ValidateLocalPart(l).None? {
      assert '\n' !in l;
      assert LocalBody(l);
    }
  }

  /** The whitespace error is reached only through a final "\n", which `$` lets past the pattern. */
  lemma {:induction false} LocalWhitespaceOnlyNewline(l: string)
    requires ValidateLocalPart(l) == Some(LocalPartWhitespace)
    ensures EndsWith(l, '\n') && LocalBody(l[..|l| - 1])
  {
    assert !IsLocalChar(' ') && !IsLocalChar('\t') && !IsLocalChar('\n');
  }

  // ---------------------------------------------------------------------------
  // The domain part
  // ---------------------------------------------------------------------------

  /** A label without "\n" passes the loop's checks exactly when it is a good label. */
  lemma {:induction false} LabelErrorIff(t: string, position: nat)
    requires '\n' !in t
    ensures LabelError(t, position).None? <==> GoodLabel(t)
  {
  }

  /** A label that passes the loop's checks holds only label characters and, last, possibly a "\n". */
  lemma {:induction false} PassedLabelChar(t: string, position: nat, i: nat)
    requires LabelError(t, position).None? && i < |t|
    ensures IsLabelChar(t[i]) || (i == |t| - 1 && t[i] == '\n')
  {
    if !LabelBody(t) && i < |t| - 1 {
      assert t[i] == t[..|t| - 1][i];
    }
  }

  /** Good labels pass the label loop. */
  lemma {:induction false} GoodLabelsPass(labels: seq<string>, position: nat)
    requires AllGoodLabels(labels)
    ensures FirstLabelError(labels, position).None?
  {
    forall k | 0 <= k < |labels|
      ensures LabelError(labels[k], position + k).None?
    {
      assert LabelBody(labels[k]);
    }
  }

  /** Every character of a domain of good labels is a '.' or a label character. */
  lemma {:induction false} GoodLabelsChars(d: string, j: nat)
    requires AllGoodLabels(Split(d, '.')) && j < |d|
    ensures d[j] == '.' || IsLabelChar(d[j])
  {
    if d[j] != '.' {
      var labels := Split(d, '.');
      SplitCovers(d, '.', j);
      var k, i :| 0 <= k < |labels| && 0 <= i < |labels[k]| && labels[k][i] == d[j];
      assert IsLabelChar(labels[k][i]);
    }
  }

  /** A domain of good labels has no whitespace. */
  lemma {:induction false} GoodLabelsNoWhitespace(d: string)
    requires AllGoodLabels(Split(d, '.'))
    ensures !HasWhitespace(d)
  {
    forall j | 0 <= j < |d|
      ensures d[j] != ' ' && d[j] != '\t' && d[j] != '\n'
    {
      GoodLabelsChars(d, j);
    }
  }

  /** A domain of two or more good labels passes the checks made before the split. */
  lemma {:induction false} GoodLabelsEdges(d: string)
    requires 2 <= |Split(d, '.')| && AllGoodLabels(Split(d, '.'))
    ensures d != [] && !StartsWith(d, '.') && !EndsWith(d, '.')
    ensures !StartsWith(d, '-') && !EndsWith(d, '-') && !HasPair(d, '.', '.')
  {
    var labels := Split(d, '.');
    SplitCount(d, '.');
    SplitPiecesNonEmpty(d, '.');
    assert NoEmptyPiece(labels);
    SplitFirst(d, '.');
    SplitLastAfterRFind(d, '.');
    var n := |labels[|labels| - 1]|;
    assert d[|d| - 1] == labels[|labels| - 1][n - 1];
    assert d[0] == labels[0][0];
  }

  /** A label of `d` holds no "\n" when `d` holds none. */
  lemma {:induction false} LabelsNoNewline(d: string, k: nat)
    requires '\n' !in d && k < |Split(d, '.')|
    ensures '\n' !in Split(d, '.')[k]
  {
    var t := Split(d, '.')[k];
    forall i | 0 <= i < |t|
      ensures t[i] != '\n'
    {
      SplitPieceChars(d, '.', k, i);
    }
  }

  /** A domain that passes every check has good labels. */
  lemma {:induction false} ValidateDomainPartSound(d: string)
    requires ValidateDomainPart(d).None?
    ensures DomainSpec(d)
  {
    var labels := Split(d, '.');
    forall k | 0 <= k < |labels|
      ensures GoodLabel(labels[k])
    {
      assert LabelError(labels[k], 1 + k).None?;
      LabelsNoNewline(d, k);
      LabelErrorIff(labels[k], 1 + k);
    }
  }

  /** A domain of 2 to 12 good labels, at most 255 characters long, passes every check. */
  lemma {:induction false} ValidateDomainPartComplete(d: string)
    requires DomainSpec(d)
    ensures ValidateDomainPart(d).None?
  {
    GoodLabelsEdges(d);
    GoodLabelsPass(Split(d, '.'), 1);
    GoodLabelsNoWhitespace(d);
  }

  /** `_validate_domain_part` accepts exactly the domains of `DomainSpec`. */
  lemma {:induction false} ValidateDomainPartIff(d: string)
    ensures ValidateDomainPart(d).None? <==> DomainSpec(d)
  {
    if ValidateDomainPart(d).None? {
      ValidateDomainPartSound(d);
    }
    if DomainSpec(d) {
      ValidateDomainPartComplete(d);
    }
  }

  /**
    The "Domain label at position ... is empty" branch is dead: the edge and
    consecutive-dot checks before the split leave no empty label.
   */
  lemma {:induction false} EmptyLabelUnreachable(d: string)
    ensures !(ValidateDomainPart(d).Some? && ValidateDomainPart(d).value.EmptyLabel?)
  {
    SplitPiecesNonEmpty(d, '.');
  }

  /** The domain whitespace error is reached only through a "\n", which `$` lets past a label's pattern. */
  lemma {:induction false} DomainWhitespaceOnlyNewline(d: string)
    requires ValidateDomainPart(d) == Some(DomainWhitespace)
    ensures '\n' in d && ' ' !in d && '\t' !in d
    ensures forall j :: 0 <= j < |d| && d[j] == '\n' ==> j + 1 == |d| || d[j + 1] == '.'
  {
    DomainWhitespaceCause(d);
    forall j | 0 <= j < |d| && d[j] == '\n'
      ensures j + 1 == |d| || d[j + 1] == '.'
    {
      PassedDomainChar(d, j);
    }
    forall j | 0 <= j < |d|
      ensures d[j] != ' ' && d[j] != '\t'
    {
      PassedDomainChar(d, j);
    }
  }

  /** The whitespace error comes after every label has passed, on a domain holding a blank, tab or "\n". */
  lemma {:induction false} DomainWhitespaceCause(d: string)
    requires ValidateDomainPart(d) == Some(DomainWhitespace)
    ensures FirstLabelError(Split(d, '.'), 1).None? && HasWhitespace(d)
  {
    assert DomainStringError(d).None?;
  }

  /** Each character of a domain whose labels pass the loop is a '.', a label character or a "\n". */
  lemma {:induction false} PassedDomainChar(d: string, j: nat)
    requires FirstLabelError(Split(d, '.'), 1).None? && j < |d|
    ensures d[j] == '.' || IsLabelChar(d[j]) || d[j] == '\n'
    ensures d[j] == '\n' ==> j + 1 == |d| || d[j + 1] == '.'
  {
    var labels := Split(d, '.');
    if d[j] != '.' {
      SplitCovers(d, '.', j);
      var k, i :| 0 <= k < |labels| && 0 <= i < |labels[k]| && labels[k][i] == d[j] &&
        (i == |labels[k]| - 1 ==> j + 1 == |d| || d[j + 1] == '.');
      PassedLabelChar(labels[k], 1 + k, i);
    }
  }

  // ---------------------------------------------------------------------------
  // Plus tags
  // ---------------------------------------------------------------------------

  /** The tags and the base name rebuild the local part, one tag per '+', none containing '+'. */
  lemma {:induction false} PlusTagsRebuild(local: string)
    ensures Join([Split(local, '+')[0]] + ExtractPlusTags(local), '+') == local
    ensures |ExtractPlusTags(local)| == Count(local, '+')
    ensures forall k :: 0 <= k < |ExtractPlusTags(local)| ==> '+' !in ExtractPlusTags(local)[k]
  {
    var parts := Split(local, '+');
    assert [parts[0]] + parts[1..] == parts;
    JoinSplit(local, '+');
    SplitCount(local, '+');
    assert forall k :: 0 <= k < |parts| - 1 ==> parts[1..][k] == parts[k + 1];
  }

  // ---------------------------------------------------------------------------
  // validate_email
  // ---------------------------------------------------------------------------

  /** An address with exactly one '@' is split into the text before it and the text after it. */
  lemma {:induction false} SplitAtSign(email: string)
    requires Count(email, '@') == 1
    ensures var parts := Split(email, '@'); |parts| == 2 && email == parts[0] + "@" + parts[1]
  {
    SplitCount(email, '@');
    JoinSplit(email, '@');
    var parts := Split(email, '@');
    assert Join(parts[1..], '@') == parts[1];
  }

  /** Joining two '@'-free parts with one '@' gives an address that splits back into them. */
  lemma {:induction false} JoinAtSign(l: string, d: string)
    requires '@' !in l && '@' !in d
    ensures Count(l + "@" + d, '@') == 1
    ensures Split(l + "@" + d, '@') == [l, d]
  {
    CountAtSign(l, d);
    SplitAfterPrefix(l, d, '@');
    SplitWithoutSeparator(d, '@');
  }

  lemma {:induction false} CountAtSign(l: string, d: string)
    requires '@' !in l && '@' !in d
    ensures Count(l + "@" + d, '@') == 1
  {
    CountConcat(l + "@", d, '@');
    CountConcat(l, "@", '@');
  }

  /** An accepted address holds only the local characters and '@': nothing non-ASCII, no quote. */
  lemma {:induction false} AcceptedChars(l: string, d: string)
    requires LocalSpec(l) && DomainSpec(d)
    ensures !HasNonAscii(l + "@" + d) && !HasQuotedString(l + "@" + d)
  {
    var email := l + "@" + d;
    forall j | 0 <= j < |email|
      ensures email[j] == '@' || IsLocalChar(email[j])
    {
      if j < |l| {
        assert email[j] == l[j];
      } else if j > |l| {
        assert email[j] == d[j - |l| - 1];
        GoodLabelsChars(d, j - |l| - 1);
      }
    }
  }

  /** Every valid result is an accepted address with its components. */
  lemma {:induction false} ValidateEmailSound(email: string)
    requires ValidateEmail(email).isValid
    ensures Accepts(email, ValidateEmail(email).components)
  {
    SplitAtSign(email);
    var parts := Split(email, '@');
    assert ValidateEmail(email) == ValidateParts(parts[0], parts[1]);
    ValidateLocalPartIff(parts[0]);
    ValidateDomainPartIff(parts[1]);
  }

  /** Every accepted address is reported valid, with exactly those components. */
  lemma {:induction false} ValidateEmailComplete(email: string, c: Components)
    requires Accepts(email, c)
    ensures ValidateEmail(email) == ValidationResult(true, None, c)
  {
    var l, d := c.local, c.domain;
    ValidateLocalPartIff(l);
    ValidateDomainPartIff(d);
    AcceptedChars(l, d);
    assert '@' !in l;
    assert '@' !in d by {
      GoodLabelsNoWhitespace(d);
      forall j | 0 <= j < |d|
        ensures d[j] != '@'
      {
        GoodLabelsChars(d, j);
      }
    }
    JoinAtSign(l, d);
    assert ValidateEmail(email) == ValidateParts(l, d);
  }

  /** With no quote, no non-ASCII character and one '@', the verdict is that of the two part checks. */
  lemma {:induction false} ValidateEmailParts(l: string, d: string)
    requires '@' !in l && '@' !in d && '"' !in l + "@" + d && !HasNonAscii(l + "@" + d)
    ensures ValidateEmail(l + "@" + d) == ValidateParts(l, d)
  {
    JoinAtSign(l, d);
    NoQuoteNoQuotedString(l + "@" + d);
    assert ValidateEmail(l + "@" + d) == CheckAtSigns(l + "@" + d);
  }

  lemma {:induction false} NoQuoteNoQuotedString(s: string)
    requires '"' !in s
    ensures !HasQuotedString(s)
  {
  }

  /** A non-ASCII character anywhere is reported before every other problem. */
  lemma {:induction false} NonAsciiFirst(email: string)
    ensures ValidateEmail(email).error == Some(NonAscii) <==> HasNonAscii(email)
  {
  }

  /** With no non-ASCII character and no quoted string, the '@' count decides the first error. */
  lemma {:induction false} AtSignErrors(email: string)
    requires email != [] && !HasNonAscii(email) && !HasQuotedString(email)
    ensures ValidateEmail(email).error == Some(MissingAt) <==> '@' !in email
    ensures ValidateEmail(email).error == Some(MultipleAt) <==> Count(email, '@') >= 2
  {
    assert ValidateEmail(email) == CheckAtSigns(email);
  }
}
