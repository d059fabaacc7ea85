# Email address validation, modelled and proved in Dafny

The repository holds two independent email address validators. Each takes a
string and returns a result made of a validity flag, an optional error message
and the components `local`, `domain` and `plus_tags`:

- `validate_email` in `hw1/c1.py` strips surrounding whitespace and matches one
  anchored pattern, `^([a-zA-Z0-9._+-]+)@([a-zA-Z0-9.-]+\.[a-zA-Z]{2,})$`.
  It then checks the domain's length (at most 255), that no label is empty,
  that there are at most 10 labels, and that each label follows the DNS rule
  of `SUBDOMAIN_PATTERN`. Last it splits plus-tags off the local part and
  rejects an empty base before the first `+`. A failure returns `{}` as
  components.
- `validate_email` in `hw1/c1/c1_v2/email_validator.py` does not strip. Its
  guards run in this order:
  1. empty input;
  2. a non-ASCII character;
  3. a quoted string;
  4. the number of `@` signs;
  5. `_validate_local_part`: 1 to 64 characters of `[a-zA-Z0-9._+-]`, no
     `..`, no `.` at either end, no whitespace;
  6. `_validate_domain_part`: the edges and `..`, at most 255 characters,
     2 to 12 labels of 1 to 32 characters of `[a-zA-Z0-9-]` with no `-` at
     either end, no whitespace.

  Then `_extract_plus_tags` takes every `+`-separated piece after the first.
  A failure leaves the components at `{"", "", []}`.

Both validators are pure guard chains, and the model writes them as Dafny
functions. A `ValidationResult` datatype holds the validity flag, the error and the
components. The error is a datatype with one constructor per early return,
and a `Message` function gives the exact text the source returns for each.

Every regular expression is a character-class predicate. Python's `$`
(without MULTILINE) also matches just before one final `"\n"`. The model keeps
that: `Text.AnchoredMatch` for the second validator, and
`C1.DropFinalNewline` for the first. So `"abc\n"` passes
`LOCAL_PART_PATTERN` and `"com\n"` passes `DOMAIN_LABEL_PATTERN`, exactly as in
the source, and the whitespace checks after them are what catch these.

For each validator the model proves these things:

- The result is valid exactly when there is no error. A failure carries the
  empty components.
- A **soundness** lemma: every accepted address satisfies an independent,
  guard-free description of what the validator accepts.
- A **completeness** lemma: every address that fits that description is
  accepted, with exactly the stated components.
- The order of the guards, and which branches cannot be reached.
- The cases of the repository's own tests, each as a lemma about
  `ValidateEmail` on the test's literal input. Most of them come from a
  general lemma about every address of that shape. The two empty-input cases,
  `C1Examples.EmptyInput` and `EmailValidatorExamples.EmptyEmail`, follow
  from the first guard directly and use no general lemma.

Modules:

| file | module | contents |
|---|---|---|
| `text.dfy` | `Text` | character classes and Python's `str.split`, `str.join`, `str.count`, `str.strip`, `in`, with their laws |
| `c1.dfy` | `C1` | `validate_email` of `hw1/c1.py` |
| `email_validator.dfy` | `EmailValidator` | `validate_email` and its helpers in `hw1/c1/c1_v2/email_validator.py` |
| `c1_examples.dfy` | `C1Examples` | the test cases of `hw1/c1.py` |
| `email_validator_examples.dfy` | `EmailValidatorExamples` | the test cases of `hw1/c1/c1_v2/test_email_validator.py` |
| `label_lists.dfy` | `LabelLists` | joins of the eleven-label domain both test suites use |

Notes on the tests' expectations, as the code behaves:

- `hw1/c1.py:160` pairs `"user@domain."` with "Invalid domain format". The
  pattern needs two letters after the last dot, so the code answers "Invalid
  email format" (`C1Examples.TrailingDot`). The test asserts only that the
  address is invalid.
- The branch "Local part cannot be empty" of `hw1/c1.py:79-84` cannot be
  reached, because the pattern's first group is non-empty
  (`C1.EmptyLocalPartUnreachable`).
- The branch "Domain label at position N is empty" of
  `email_validator.py:208-209` cannot be reached. The dot checks before it
  already exclude empty labels (`EmailValidator.EmptyLabelUnreachable`).
- A blank or a tab never reaches the second validator's whitespace errors,
  because it fails the character patterns first. Only a `"\n"` that `$` lets
  through reaches them:
  - For the local part, the `"\n"` must end the local part
    (`EmailValidator.LocalWhitespaceOnlyNewline`).
  - For the domain, the `"\n"` must end some label, not necessarily the last
    one (`EmailValidator.DomainWhitespaceOnlyNewline`). For example,
    `"u@a\n.com"` passes every label check and gets "Domain cannot contain
    whitespace" (`EmailValidatorExamples.DomainNewlineLabel`).

  So the tests at `test_email_validator.py:178-182` and `216-220` get the
  "invalid characters" messages (`EmailValidatorExamples.LocalWhitespace`
  and `EmailValidatorExamples.BlankInDomain`). Those tests assert only that
  the address is invalid.

## Definitions

The definitions below have no row of their own in the table under "## Model".
Each is stated by the lemmas named beside it.

- `Text.Strip` (`hw1/c1.py:58`, `65`): `str.strip()`. Stated by `Text.StripEnds`, `Text.StripSurrounded`, `Text.StripEndShape` and `Text.StripStartShape`.
- `Text.Join`: `str.join`, which the source does not call. It is the inverse of `Text.Split` in `Text.JoinSplit` and `Text.SplitJoin`.
- `C1.MatchEmailPattern` (`hw1/c1.py:30-32`, `68`): `EMAIL_PATTERN.match` and its two groups. Stated by `C1.MatchEmailPatternIff`, `C1.MatchEmailPatternSound` and `C1.MatchEmailPatternComplete`.
- `C1.DomainGroupMatch` (`hw1/c1.py:31`): the second group `[a-zA-Z0-9.-]+\.[a-zA-Z]{2,}`. Stated by `C1.DomainGroupIff` and `C1.DomainGroupEndsInLetter`.
- `C1.DnsLabel` and `C1.SubdomainMatch` (`hw1/c1.py:35`, `115`): `SUBDOMAIN_PATTERN` without and with `$`'s final "\n". Stated by `C1.DnsLabelChars`, `C1.DomainLabelMatch` and `C1.FirstMismatch`.
- `EmailValidator.HasNonAscii` (`hw1/c1/c1_v2/email_validator.py:44`, `84`): `NON_ASCII_PATTERN.search`. Stated by `EmailValidator.NonAsciiFirst`.
- `EmailValidator.HasQuotedString` (`hw1/c1/c1_v2/email_validator.py:41`, `89`): `QUOTED_STRING_PATTERN.search`, a '"' followed later on the same line by another. Stated by `EmailValidatorExamples.RunQuoted`.
- `EmailValidator.ValidateLocalPart` (`hw1/c1/c1_v2/email_validator.py:129-162`): `_validate_local_part`. Stated by `EmailValidator.ValidateLocalPartIff` and `EmailValidator.LocalWhitespaceOnlyNewline`.
- `EmailValidator.ValidateDomainPart` (`hw1/c1/c1_v2/email_validator.py:165-227`): `_validate_domain_part`. Stated by `EmailValidator.ValidateDomainPartSound`, `EmailValidator.ValidateDomainPartComplete` and `EmailValidator.ValidateDomainPartIff`.
- `EmailValidator.DomainStringError` (`hw1/c1/c1_v2/email_validator.py:177-193`): the checks before the split. Stated by `EmailValidator.GoodLabelsEdges` and `EmailValidator.ValidateDomainPartIff`.
- `EmailValidator.CheckLabels` (`hw1/c1/c1_v2/email_validator.py:196-225`): the checks after the split. Stated by `EmailValidator.ValidateDomainPartIff` and `EmailValidator.DomainWhitespaceCause`.
- `EmailValidator.LabelError` (`hw1/c1/c1_v2/email_validator.py:207-221`): one pass of the label loop. Stated by `EmailValidator.LabelErrorIff`, `EmailValidator.PassedLabelChar` and `EmailValidator.EmptyLabelUnreachable`.

## Model

| member | source | states |
|---|---|---|
| `Text.Split` | hw1/c1.py:95 | `str.split(c)` gives at least one piece, and no piece holds `c` |
| `Text.JoinSplit` | hw1/c1/c1_v2/email_validator.py:243 | joining the pieces of a split with the separator gives back the string |
| `Text.SplitJoin` | hw1/c1/c1_v2/email_validator.py:243 | a join of separator-free pieces splits back into exactly those pieces |
| `Text.SplitCount` | hw1/c1/c1_v2/email_validator.py:94-102 | the number of pieces is one more than `str.count` of the separator |
| `Text.CountConcat` | hw1/c1/c1_v2/email_validator.py:94 | `str.count` adds up over concatenation |
| `Text.Count` | hw1/c1/c1_v2/email_validator.py:94 | the count is zero exactly when the character does not occur |
| `Text.SplitPiecesNonEmpty` | hw1/c1.py:98 | no piece of the split is empty iff the string is non-empty, does not start or end with the separator and has no two adjacent separators |
| `Text.StripEnds` | hw1/c1.py:58 | `strip()` is empty iff the string is all whitespace; otherwise it starts and ends with non-whitespace |
| `Text.StripSurrounded` | hw1/c1.py:65 | stripping blanks around a text that starts and ends with non-whitespace gives that text |
| `Text.StripEndShape` | hw1/c1.py:65 | the right strip is a prefix; everything it drops is whitespace, and what it keeps does not end in whitespace |
| `Text.StripStartShape` | hw1/c1.py:65 | the left strip is a suffix; everything it drops is whitespace, and what it keeps does not start with whitespace |
| `Text.SplitLastAfterRFind` | hw1/c1.py:31 | the last piece of a split is the text after the last separator |
| `C1.Message` | hw1/c1.py:58-133 | every failure carries a non-empty error message |
| `C1.DropFinalNewline` | hw1/c1.py:31 | the text that `$` lets the groups cover is the string itself, or the string minus one final "\n" |
| `C1.MatchGroups` | hw1/c1.py:76 | when the groups cover the text, the text is `local + "@" + domain` |
| `C1.DomainGroupIff` | hw1/c1.py:31 | reading the domain group through the last dot agrees with reading it literally: some dot with domain characters before it and two or more letters after it |
| `C1.MatchEmailPatternIff` | hw1/c1.py:30-32 | the pattern matches with groups `(local, domain)` iff the string is `local@domain`, optionally followed by one "\n", with `local` non-empty over `[a-zA-Z0-9._+-]` and `domain` matching the second group |
| `C1.MatchEmailPatternSound` | hw1/c1.py:68-76 | the groups a match returns satisfy that description |
| `C1.MatchEmailPatternComplete` | hw1/c1.py:68-76 | every string fitting that description is matched, with those groups |
| `C1.DomainGroupEndsInLetter` | hw1/c1.py:31 | a domain the pattern accepts ends in an ASCII letter |
| `C1.DropFinalNewlineOf` | hw1/c1.py:31 | a string without a final "\n" is kept whole, and one final "\n" is dropped |
| `C1.MatchGroupsComplete` | hw1/c1.py:76 | a local group and a domain group joined by "@" are matched back as those groups |
| `C1.FirstMismatch` | hw1/c1.py:114-120 | the label loop: no result iff every label matches `SUBDOMAIN_PATTERN`, otherwise the first label that does not |
| `C1.DnsLabelChars` | hw1/c1.py:35 | every character of a DNS label is alphanumeric or '-' |
| `C1.DomainLabelMatch` | hw1/c1.py:35 | a label of a domain-class string that matches `SUBDOMAIN_PATTERN` is a DNS label; the optional final "\n" of `$` cannot arise there |
| `C1.ValidateEmail` | hw1/c1.py:38-144 | the result is valid iff it has no error iff it has components; every invalid result has an error and `{}` |
| `C1.CheckFormat` | hw1/c1.py:65-74 | the pattern stage never reports the empty-address error; valid iff no error iff components |
| `C1.CheckGroups` | hw1/c1.py:76-92 | the group stage reports neither the empty-address nor the format error |
| `C1.CheckDomainParts` | hw1/c1.py:94-120 | the domain stage reports none of the earlier errors |
| `C1.CheckPlusTags` | hw1/c1.py:122-144 | the plus-tag stage either succeeds or reports "Local part cannot start with '+'" |
| `C1.DomainChecksSound` | hw1/c1.py:86-120 | a domain that passes the pattern and the length, empty-label, depth and label checks has at most 255 characters and 2 to 10 DNS labels, the last of two or more letters |
| `C1.DomainGroupLabels` | hw1/c1.py:31 | a domain the pattern accepts splits into two or more labels, the last of two or more letters |
| `C1.DomainChecksComplete` | hw1/c1.py:86-120 | such a well-formed domain matches the domain group and passes the empty-label and label checks |
| `C1.CheckGroupsSound` | hw1/c1.py:76-144 | a valid result of the group checks reports `local`, `domain` and `plus_tags == local.split('+')[1:]`, with a non-empty base and a well-formed domain; the source's conditional slice at line 125 is the plain slice `local_components[1:]` (helper `C1.PlusTagsOfSplit`) |
| `C1.CheckGroupsComplete` | hw1/c1.py:76-144 | a non-empty local part with a non-empty base and a well-formed domain is accepted with exactly those components |
| `C1.ValidateEmailSound` | hw1/c1.py:38-144 | an accepted address strips to `local + "@" + domain`; `local` is over `[a-zA-Z0-9._+-]` with a non-empty base before the first '+'; `plus_tags` are the '+'-pieces after the first, in order; the domain has at most 255 characters and 2 to 10 DNS labels, the last of two or more letters |
| `C1.ValidateEmailComplete` | hw1/c1.py:38-144 | every address that fits that description is accepted, with exactly those components and no error |
| `C1.ValidateEmailGroups` | hw1/c1.py:65-76 | an address whose stripped form is a local group, '@' and a domain group reaches the group checks with those groups |
| `C1.EmptyAddressIffBlank` | hw1/c1.py:58-63 | the empty-address error is reported iff the input is empty or all whitespace |
| `C1.EmptyLocalPartUnreachable` | hw1/c1.py:79-84 | no input gets "Local part cannot be empty" |
| `EmailValidator.NatToString` | hw1/c1/c1_v2/email_validator.py:209 | `f"{i+1}"` is a non-empty run of decimal digits with no leading zero unless the number is 0 |
| `EmailValidator.NatToStringValue` | hw1/c1/c1_v2/email_validator.py:209 | the digits `NatToString(n)` prints denote `n` |
| `EmailValidator.DigitChar` | hw1/c1/c1_v2/email_validator.py:209 | the character of digit `d` is a digit character whose offset from '0' is `d` |
| `EmailValidator.Message` | hw1/c1/c1_v2/email_validator.py:78-99 | every failure of `validate_email` carries a non-empty message |
| `EmailValidator.LocalMessage` | hw1/c1/c1_v2/email_validator.py:136-160 | every failure of `_validate_local_part` carries a non-empty message |
| `EmailValidator.DomainMessage` | hw1/c1/c1_v2/email_validator.py:177-225 | every failure of `_validate_domain_part` carries a non-empty message |
| `EmailValidator.FirstLabelError` | hw1/c1/c1_v2/email_validator.py:207-221 | the label loop: no error iff every label passes its four checks at its 1-based position, otherwise the error of the first label that fails |
| `EmailValidator.ExtractPlusTags` | hw1/c1/c1_v2/email_validator.py:230-246 | the tags are `local.split('+')[1:]`, the early return for a local part without '+' included |
| `EmailValidator.ValidateEmail` | hw1/c1/c1_v2/email_validator.py:53-126 | valid iff no error; every invalid result keeps the components `{"", "", []}` |
| `EmailValidator.CheckAtSigns` | hw1/c1/c1_v2/email_validator.py:93-102 | the '@'-count stage: valid iff no error, and failures keep the empty components |
| `EmailValidator.ValidateParts` | hw1/c1/c1_v2/email_validator.py:104-126 | after the '@' split only a local-part or domain-part error can occur, and failures keep the empty components |
| `EmailValidator.ValidateLocalPartIff` | hw1/c1/c1_v2/email_validator.py:129-162 | `_validate_local_part` passes iff the local part has 1 to 64 characters, all in `[a-zA-Z0-9._+-]`, no "..", and no '.' at either end |
| `EmailValidator.LocalWhitespaceOnlyNewline` | hw1/c1/c1_v2/email_validator.py:144-160 | the local-part whitespace error arises only for a local part that ends in "\n", whose rest passes `LOCAL_PART_PATTERN` |
| `EmailValidator.LabelErrorIff` | hw1/c1/c1_v2/email_validator.py:207-221 | a label without "\n" passes the loop body iff it has 1 to 32 characters of `[a-zA-Z0-9-]` and no '-' at either end |
| `EmailValidator.PassedLabelChar` | hw1/c1/c1_v2/email_validator.py:212 | every character of a label that passes is in `[a-zA-Z0-9-]`, except perhaps a final "\n" let through by `$` |
| `EmailValidator.GoodLabelsPass` | hw1/c1/c1_v2/email_validator.py:207-221 | the loop passes a list of good labels at every starting position |
| `EmailValidator.GoodLabelsChars` | hw1/c1/c1_v2/email_validator.py:196 | a domain split into good labels holds only '.' and label characters |
| `EmailValidator.GoodLabelsNoWhitespace` | hw1/c1/c1_v2/email_validator.py:223-225 | a domain split into good labels has no whitespace |
| `EmailValidator.GoodLabelsEdges` | hw1/c1/c1_v2/email_validator.py:177-189 | a domain split into two or more good labels is non-empty, does not start or end with '.' or '-', and has no ".." |
| `EmailValidator.LabelsNoNewline` | hw1/c1/c1_v2/email_validator.py:196 | the labels of a domain without "\n" hold no "\n" |
| `EmailValidator.ValidateDomainPartSound` | hw1/c1/c1_v2/email_validator.py:165-227 | a domain that `_validate_domain_part` passes has at most 255 characters and 2 to 12 good labels |
| `EmailValidator.ValidateDomainPartComplete` | hw1/c1/c1_v2/email_validator.py:165-227 | every such domain passes |
| `EmailValidator.ValidateDomainPartIff` | hw1/c1/c1_v2/email_validator.py:165-227 | `_validate_domain_part` passes iff the domain has at most 255 characters and 2 to 12 labels, each of 1 to 32 characters of `[a-zA-Z0-9-]` with no '-' at either end |
| `EmailValidator.EmptyLabelUnreachable` | hw1/c1/c1_v2/email_validator.py:181-209 | no domain gets "Domain label at position N is empty" |
| `EmailValidator.DomainWhitespaceOnlyNewline` | hw1/c1/c1_v2/email_validator.py:223-225 | the domain whitespace error arises only for a domain with a "\n" and with no blank or tab, and each "\n" ends a label: it is followed by '.' or ends the domain |
| `EmailValidator.DomainWhitespaceCause` | hw1/c1/c1_v2/email_validator.py:207-225 | the domain whitespace error means every label passed the loop and the domain holds whitespace |
| `EmailValidator.PassedDomainChar` | hw1/c1/c1_v2/email_validator.py:207-221 | a domain whose labels all pass holds only '.', label characters and "\n", and each "\n" there is followed by '.' or ends the domain |
| `EmailValidator.PlusTagsRebuild` | hw1/c1/c1_v2/email_validator.py:230-246 | joining the base and the tags with '+' rebuilds the local part; there are as many tags as '+' signs, and no tag holds '+' |
| `EmailValidator.SplitAtSign` | hw1/c1/c1_v2/email_validator.py:94-102 | with exactly one '@', `email.split('@')` gives two parts that rebuild the address |
| `EmailValidator.JoinAtSign` | hw1/c1/c1_v2/email_validator.py:94-102 | two '@'-free parts joined by '@' have one '@' and split back into those parts |
| `EmailValidator.AcceptedChars` | hw1/c1/c1_v2/email_validator.py:84-91 | an accepted local part and domain, joined by '@', have no non-ASCII character and no quoted string |
| `EmailValidator.ValidateEmailSound` | hw1/c1/c1_v2/email_validator.py:53-126 | an accepted address is exactly `local + "@" + domain`, with no trimming; `local` satisfies the local-part description and `domain` the domain description; `plus_tags` are the '+'-pieces of `local` after the first, in order |
| `EmailValidator.ValidateEmailComplete` | hw1/c1/c1_v2/email_validator.py:53-126 | every address that fits that description is accepted, with exactly those components and no error |
| `EmailValidator.ValidateEmailParts` | hw1/c1/c1_v2/email_validator.py:79-114 | an address `l@d` with no other '@', no '"' and no non-ASCII character is decided by the local-part and domain-part checks on `l` and `d`; without a '"' the quoted-string search of line 89 finds nothing (helper `EmailValidator.NoQuoteNoQuotedString`) |
| `EmailValidator.NonAsciiFirst` | hw1/c1/c1_v2/email_validator.py:79-86 | the non-ASCII error is reported iff the address holds a character above 0x7F |
| `EmailValidator.AtSignErrors` | hw1/c1/c1_v2/email_validator.py:93-99 | after the earlier guards pass, "must contain '@'" is reported iff there is no '@', and "exactly one '@'" iff there are two or more |
| `C1Examples.LayoutOutcome` | hw1/c1.py:65-144 | for an address given by blank ends, '+'-pieces and '.'-labels, the result is the guard chain read on those pieces |
| `C1Examples.Unpatterned` | hw1/c1.py:68-74 | an address without blank ends that has no '.' or does not end in a letter gets "Invalid email format" |
| `C1Examples.DnsLabelsLayout` | hw1/c1.py:35 | two or more DNS labels, the last letters only, joined by '.' make a domain that matches the pattern and passes the label checks |
| `C1Examples.RunValid` | hw1/c1.py:136-144 | such an address with a non-empty base and a passing domain is accepted with its tags |
| `C1Examples.RunPlusFirst` | hw1/c1.py:128-133 | with an empty base before the first '+' it is rejected with "Local part cannot start with '+'" |
| `C1Examples.RunDomainTooLong` | hw1/c1.py:87-92 | with a domain over 255 characters it gets the length error |
| `C1Examples.RunEmptyLabel` | hw1/c1.py:98-103 | with an empty label it gets "Invalid domain format" |
| `C1Examples.RunTooDeep` | hw1/c1.py:106-111 | with eleven or more non-empty labels it gets the depth error |
| `C1Examples.RunBadLabel` | hw1/c1.py:114-120 | with a label failing `SUBDOMAIN_PATTERN` it gets the error naming the first such label |
| `C1Examples.EmptyInput` | hw1/c1.py:156 | `""` gets "Email address cannot be empty" |
| `C1Examples.OnlyAtSign` | hw1/c1.py:157 | `"@"` gets "Invalid email format" |
| `C1Examples.MissingDomain` | hw1/c1.py:158 | `"user@"` gets "Invalid email format" |
| `C1Examples.MissingTopLevel` | hw1/c1.py:159 | `"user@domain"` gets "Invalid email format" |
| `C1Examples.TrailingDot` | hw1/c1.py:160 | `"user@domain."` gets "Invalid email format" |
| `C1Examples.ValidPlain` | hw1/c1.py:178 | `"user@domain.com"` is accepted with local "user", domain "domain.com" and no tags |
| `C1Examples.ValidDottedLocal` | hw1/c1.py:179 | `"user.name@domain.com"` is accepted with local "user.name" |
| `C1Examples.ValidOneTag` | hw1/c1.py:180 | `"user+tag@domain.com"` is accepted with tags `["tag"]` |
| `C1Examples.ValidMailSubdomain` | hw1/c1.py:181 | `"user@mail.domain.com"` is accepted |
| `C1Examples.ValidManyLabels` | hw1/c1.py:182 | `"user@a.b.c.domain.com"` is accepted |
| `C1Examples.ValidShortest` | hw1/c1.py:183 | `"u@d.io"` is accepted |
| `C1Examples.ValidHyphenSubdomain` | hw1/c1.py:184 | `"user+tag@sub-domain.domain.com"` is accepted with tags `["tag"]` |
| `C1Examples.TwoTags` | hw1/c1.py:204 | `"user+tag1+tag2@domain.com"` has tags `["tag1", "tag2"]` |
| `C1Examples.SingleTag` | hw1/c1.py:205 | `"user+single@domain.com"` has tags `["single"]` |
| `C1Examples.ThreeTags` | hw1/c1.py:207 | `"user+a+b+c@domain.com"` has tags `["a", "b", "c"]` |
| `C1Examples.LongDomain` | hw1/c1.py:224-227 | a 244-character domain with a 240-character label is accepted |
| `C1Examples.TooLongDomain` | hw1/c1.py:229-232 | a 256-character domain gets "Maximum domain length exceeded" |
| `C1Examples.TenLevels` | hw1/c1.py:236-238 | `"user@a.b.c.d.e.f.g.h.i.com"` (10 labels) is accepted |
| `C1Examples.ElevenLevels` | hw1/c1.py:241-244 | `"user@a.b.c.d.e.f.g.h.i.j.com"` (11 labels) gets "Maximum subdomain depth exceeded" |
| `C1Examples.PlusFirst` | hw1/c1.py:255-256 | `"+tag@domain.com"` gets "Local part cannot start with '+'" |
| `C1Examples.ConsecutiveDots` | hw1/c1.py:260-261 | `"user@domain..com"` gets "Invalid domain format" |
| `C1Examples.LeadingHyphen` | hw1/c1.py:265-266 | `"user@-invalid.domain.com"` gets the label error for "-invalid" |
| `C1Examples.TrailingHyphen` | hw1/c1.py:270-271 | `"user@invalid-.domain.com"` gets the label error for "invalid-" |
| `C1Examples.Trimmed` | hw1/c1.py:275-276 | `"  user@domain.com  "` is accepted with local "user" and domain "domain.com" |
| `EmailValidatorExamples.AtLayoutParts` | hw1/c1/c1_v2/email_validator.py:79-114 | an address `l@d` of ASCII parts without '@' or '"' is decided by the part checks |
| `EmailValidatorExamples.RunValid` | hw1/c1/c1_v2/email_validator.py:116-126 | an address whose parts fit the descriptions is accepted, with its tags |
| `EmailValidatorExamples.RunNonAscii` | hw1/c1/c1_v2/email_validator.py:84-86 | any address with a character above 0x7F gets the non-ASCII error |
| `EmailValidatorExamples.RunQuoted` | hw1/c1/c1_v2/email_validator.py:89-91 | an ASCII address with two '"' and no "\n" between them gets the quoted-string error |
| `EmailValidatorExamples.RunMissingAt` | hw1/c1/c1_v2/email_validator.py:94-96 | a non-empty plain address with no '@' gets "must contain '@'" |
| `EmailValidatorExamples.RunMultipleAt` | hw1/c1/c1_v2/email_validator.py:97-98 | a plain address with two '@' gets "exactly one '@'" |
| `EmailValidatorExamples.RunLocalError` | hw1/c1/c1_v2/email_validator.py:104-108 | a plain `l@d` gets the local-part error of `l` |
| `EmailValidatorExamples.RunDomainStringError` | hw1/c1/c1_v2/email_validator.py:177-193 | a plain `l@d` with a passing `l` gets the domain-string error of `d` |
| `EmailValidatorExamples.RunLabelsError` | hw1/c1/c1_v2/email_validator.py:196-225 | a plain `l@d` with a passing `l` gets the label-stage error of `d`'s labels |
| `EmailValidatorExamples.RunTooManyLevels` | hw1/c1/c1_v2/email_validator.py:203-204 | thirteen or more labels give "more than 10 subdomain levels" |
| `EmailValidatorExamples.RepeatedLabelDomain` | hw1/c1/c1_v2/email_validator.py:207-221 | a domain `x + ".com"` with `x` one repeated alphanumeric passes the string checks, and passes the labels iff `x` has at most 32 characters |
| `EmailValidatorExamples.SimpleEmail` | hw1/c1/c1_v2/test_email_validator.py:78-85 | `"user@example.com"` is accepted with local "user", domain "example.com" and no tags |
| `EmailValidatorExamples.WithSubdomain` | hw1/c1/c1_v2/test_email_validator.py:87-91 | `"user@mail.example.com"` is accepted |
| `EmailValidatorExamples.MultiLevelSubdomain` | hw1/c1/c1_v2/test_email_validator.py:93-97 | `"user@a.b.c.example.com"` is accepted with that domain |
| `EmailValidatorExamples.MaxSubdomainLevels` | hw1/c1/c1_v2/test_email_validator.py:99-103 | `"user@a.b.c.d.e.f.g.h.i.j.com"` (11 labels) is accepted |
| `EmailValidatorExamples.ExceedsSubdomainLevels` | hw1/c1/c1_v2/test_email_validator.py:105-110 | `"user@a.b.c.d.e.f.g.h.i.j.k.l.com"` (13 labels) gets "Domain cannot have more than 10 subdomain levels" |
| `EmailValidatorExamples.SingleTag` | hw1/c1/c1_v2/test_email_validator.py:112-116 | `"user+tag@example.com"` has tags `["tag"]` |
| `EmailValidatorExamples.MultipleTags` | hw1/c1/c1_v2/test_email_validator.py:118-122 | `"user+tag1+tag2+tag3@example.com"` has tags `["tag1", "tag2", "tag3"]` |
| `EmailValidatorExamples.TagOrder` | hw1/c1/c1_v2/test_email_validator.py:124-128 | `"user+first+second+third@example.com"` has its tags in order |
| `EmailValidatorExamples.EmptyEmail` | hw1/c1/c1_v2/test_email_validator.py:136-140 | `""` gets "Email address cannot be empty" |
| `EmailValidatorExamples.MissingAtSymbol` | hw1/c1/c1_v2/test_email_validator.py:142-146 | `"userexample.com"` gets "must contain '@'" |
| `EmailValidatorExamples.MultipleAtSymbols` | hw1/c1/c1_v2/test_email_validator.py:148-152 | `"user@domain@example.com"` gets "exactly one '@'" |
| `EmailValidatorExamples.LocalConsecutiveDots` | hw1/c1/c1_v2/test_email_validator.py:154-158 | `"user..name@example.com"` gets the local part's consecutive-dots error |
| `EmailValidatorExamples.LocalLeadingDot` | hw1/c1/c1_v2/test_email_validator.py:160-164 | `".user@example.com"` gets "cannot start with a dot" |
| `EmailValidatorExamples.LocalTrailingDot` | hw1/c1/c1_v2/test_email_validator.py:166-170 | `"user.@example.com"` gets "cannot end with a dot" |
| `EmailValidatorExamples.LocalTooLong` | hw1/c1/c1_v2/test_email_validator.py:172-176 | a 65-character local part gets the 64-character error |
| `EmailValidatorExamples.LocalWhitespace` | hw1/c1/c1_v2/test_email_validator.py:178-182 | `"user name@example.com"` gets the local part's invalid-characters error |
| `EmailValidatorExamples.DoubleDotDomain` | hw1/c1/c1_v2/test_email_validator.py:184-188 | `"user@example..com"` gets the domain's consecutive-dots error |
| `EmailValidatorExamples.DomainMissingTld` | hw1/c1/c1_v2/test_email_validator.py:190-194 | `"user@example"` gets "must contain at least one dot" |
| `EmailValidatorExamples.DomainExceedsLength` | hw1/c1/c1_v2/test_email_validator.py:196-201 | a 256-character domain gets the 255-character error, not the label-length error |
| `EmailValidatorExamples.LabelExceedsLength` | hw1/c1/c1_v2/test_email_validator.py:203-208 | a 33-character label gets the 32-character error naming it |
| `EmailValidatorExamples.LabelMaxLength` | hw1/c1/c1_v2/test_email_validator.py:210-214 | a 32-character label is accepted |
| `EmailValidatorExamples.BlankInDomain` | hw1/c1/c1_v2/test_email_validator.py:216-220 | `"user@example .com"` gets the invalid-characters error for the label "example " |
| `EmailValidatorExamples.DomainLeadingHyphen` | hw1/c1/c1_v2/test_email_validator.py:222-226 | `"user@-example.com"` gets "cannot start or end with a hyphen" |
| `EmailValidatorExamples.DomainTrailingHyphen` | hw1/c1/c1_v2/test_email_validator.py:228-232 | `"user@example-.com"` gets the hyphen error for the label "example-" |
| `EmailValidatorExamples.QuotedStringRejection` | hw1/c1/c1_v2/test_email_validator.py:234-238 | `"\"quoted.user\"@example.com"` gets the quoted-string error |
| `EmailValidatorExamples.InternationalizedDomain` | hw1/c1/c1_v2/test_email_validator.py:240-244 | `"user@例え.com"` gets the internationalized-domain error |
| `EmailValidatorExamples.OnlyAtSymbol` | hw1/c1/c1_v2/test_email_validator.py:246-249 | `"@"` gets "Local part cannot be empty" |
| `EmailValidatorExamples.MissingLocalPart` | hw1/c1/c1_v2/test_email_validator.py:251-255 | `"@example.com"` gets "Local part cannot be empty" |
| `EmailValidatorExamples.MissingDomainPart` | hw1/c1/c1_v2/test_email_validator.py:257-261 | `"user@"` gets "Domain part cannot be empty" |
| `EmailValidatorExamples.EdgeSimple` | hw1/c1/c1_v2/test_email_validator.py:27 | `"simple@example.com"` is accepted |
| `EmailValidatorExamples.EdgeVeryCommon` | hw1/c1/c1_v2/test_email_validator.py:28 | `"very.common@example.com"` is accepted |
| `EmailValidatorExamples.EdgeTaggedDotted` | hw1/c1/c1_v2/test_email_validator.py:29 | `"disposable.style.email.with+symbol@example.com"` is accepted with tags `["symbol"]` |
| `EmailValidatorExamples.EdgeHyphenLocal` | hw1/c1/c1_v2/test_email_validator.py:30 | `"other.email-with-hyphen@example.com"` is accepted |
| `EmailValidatorExamples.EdgeDigits` | hw1/c1/c1_v2/test_email_validator.py:31 | `"1234567890@example.com"` is accepted |
| `EmailValidatorExamples.EdgeUnderscore` | hw1/c1/c1_v2/test_email_validator.py:32 | `"underscore_user@example.com"` is accepted |
| `EmailValidatorExamples.EdgeSubdomain` | hw1/c1/c1_v2/test_email_validator.py:33 | `"user@sub.domain.com"` is accepted |
| `EmailValidatorExamples.EdgeShortLabels` | hw1/c1/c1_v2/test_email_validator.py:34 | `"user@a.b"` is accepted; there is no top-level-domain rule |
| `EmailValidatorExamples.EdgeCountryCode` | hw1/c1/c1_v2/test_email_validator.py:35 | `"user@example.co.jp"` is accepted |
| `EmailValidatorExamples.EdgeLongUsername` | hw1/c1/c1_v2/test_email_validator.py:36 | `"a.very.long.username.that.is.still.valid@example.com"` is accepted |
| `EmailValidatorExamples.EdgeSingleTag` | hw1/c1/c1_v2/test_email_validator.py:38 | `"user+single@example.com"` is accepted with tags `["single"]` |
| `EmailValidatorExamples.EdgeShortest` | hw1/c1/c1_v2/test_email_validator.py:39 | `"u@d.io"` is accepted |
| `EmailValidatorExamples.EdgeLabel31` | hw1/c1/c1_v2/test_email_validator.py:41 | a 31-character label is accepted |
| `EmailValidatorExamples.EdgeBang` | hw1/c1/c1_v2/test_email_validator.py:44 | `"abc@example!com"` gets "must contain at least one dot" |
| `EmailValidatorExamples.EdgeDoubleDotLocal` | hw1/c1/c1_v2/test_email_validator.py:45 | `"abc..def@example.com"` gets the local part's consecutive-dots error |
| `EmailValidatorExamples.EdgeDoubleDotDomain` | hw1/c1/c1_v2/test_email_validator.py:46 | `"abc@example..com"` gets the domain's consecutive-dots error |
| `EmailValidatorExamples.EdgeLeadingDot` | hw1/c1/c1_v2/test_email_validator.py:47 | `".abc@example.com"` gets "cannot start with a dot" |
| `EmailValidatorExamples.EdgeTrailingDotLocal` | hw1/c1/c1_v2/test_email_validator.py:48 | `"abc.@example.com"` gets "cannot end with a dot" |
| `EmailValidatorExamples.EdgeMissingAt` | hw1/c1/c1_v2/test_email_validator.py:49 | `"abcexample.com"` gets "must contain '@'" |
| `EmailValidatorExamples.EdgeTwoAtSigns` | hw1/c1/c1_v2/test_email_validator.py:50 | `"abc@def@example.com"` gets "exactly one '@'" |
| `EmailValidatorExamples.EdgeBlankLocal` | hw1/c1/c1_v2/test_email_validator.py:51 | `"abc def@example.com"` gets the local part's invalid-characters error |
| `EmailValidatorExamples.EdgeBlankDomain` | hw1/c1/c1_v2/test_email_validator.py:52 | `"abc@example com"` gets "must contain at least one dot" |
| `EmailValidatorExamples.EdgeNewlineLocal` | hw1/c1/c1_v2/test_email_validator.py:53 | `"abc\ndef@example.com"` gets the local part's invalid-characters error |
| `EmailValidatorExamples.EdgeNoDot` | hw1/c1/c1_v2/test_email_validator.py:56 | `"abc@example"` gets "must contain at least one dot" |
| `EmailValidatorExamples.EdgeNoDomain` | hw1/c1/c1_v2/test_email_validator.py:58 | `"username@"` gets "Domain part cannot be empty" |
| `EmailValidatorExamples.EdgeNoTopLevel` | hw1/c1/c1_v2/test_email_validator.py:62 | `"user@domain"` gets "must contain at least one dot" |
| `EmailValidatorExamples.EdgeTrailingDot` | hw1/c1/c1_v2/test_email_validator.py:63 | `"user@domain."` gets "cannot start or end with a dot" |
| `EmailValidatorExamples.EdgeLeadingHyphen` | hw1/c1/c1_v2/test_email_validator.py:64 | `"user@-domain.com"` gets "cannot start or end with a hyphen" |
| `EmailValidatorExamples.EdgeTrailingHyphenLabel` | hw1/c1/c1_v2/test_email_validator.py:65 | `"user@domain-.com"` gets the hyphen error for the label "domain-" |
| `EmailValidatorExamples.EdgeQuoted` | hw1/c1/c1_v2/test_email_validator.py:66 | `"\"quoted\"@example.com"` gets the quoted-string error |
| `EmailValidatorExamples.DomainNewlineLabel` | hw1/c1/c1_v2/email_validator.py:207-225 | `"u@a\n.com"` passes the label checks, because `$` accepts the final "\n" of "a\n", and gets "Domain cannot contain whitespace" |

The other entries of `generate_edge_case_emails` repeat inputs already listed:

- line 37, `user+tag1+tag2+tag3@example.com`: `MultipleTags`
- line 40, `user@a.b.c.d.e.f.g.h.i.j.com`: `MaxSubdomainLevels`
- line 54, 65 × 'a' + `@example.com`: `LocalTooLong`
- line 55, `user@` + 252 × 'a' + `.com`: `DomainExceedsLength`
- line 57, `@example.com`: `MissingLocalPart`
- line 59, `""`: `EmptyEmail`
- line 60, `user@`: `MissingDomainPart`
- line 61, `@`: `OnlyAtSymbol`
- line 67, `user@例え.com`: `InternationalizedDomain`
- line 68, `user@a.b.c.d.e.f.g.h.i.j.k.l.com`: `ExceedsSubdomainLevels`
- line 69, `user@` + 33 × 'x' + `.com`: `LabelExceedsLength`

`test_no_plus_addressing` (130-134) is `SimpleEmail`. The `user@domain.com`
entry of `test_plus_addressing` (`hw1/c1.py:206`) is `ValidPlain`.

## Left out

- A key-value cache with LRU eviction or TTL expiry is not part of this model. No such code appears in the repository.
- The unused `EMAIL_PATTERN` of `hw1/c1/c1_v2/email_validator.py:32-38` is not modelled, because `validate_email` never consults it.
- Python's `re` engine and pattern compilation are left out. Each pattern is stated as the character-class predicate it denotes, with `$`'s optional final newline. The regex-precompilation test, which checks `re.Pattern` object types, is left out too.
- `Text.IsSpace`: `str.isspace()` and `str.strip()` are modelled on ASCII only (space, `\t`, `\n`, `\v`, `\f`, `\r` and 0x1C-0x1F). Unicode whitespace such as U+00A0 or U+2003 is treated as ordinary text, so the first validator's strip and empty-input check do not cover those characters.
- The printed output and the runners (`run_all_tests`, `unittest.main`) are left out, as I/O.
- The tests' type and key-presence checks (`test_return_structure`) are left out. The result datatypes make the keys and types fixed.
- The tests' case-insensitive keyword checks on error messages (`assertIn(..., result['error'].lower())`, and `test_error_message_detail`) are not restated. `Message`, `LocalMessage` and `DomainMessage` give each message's full text, and the case lemmas give the exact error constructor.
- The `TypedDict` declarations are replaced by the `Components` and `ValidationResult` datatypes.
