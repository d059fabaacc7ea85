/**
  The cases the second validator's unit tests check, each derived from the
  general lemmas below: an address is described by its parts, each outcome of
  the validator is stated for every address with parts of that kind, and each
  case instantiates one of them on its literals.
 */
module EmailValidatorExamples {
  import opened Text
  import opened LabelLists
  import opened EmailValidator

  /** No non-ASCII character and no '"'. */
  predicate Plain(s: string) {
    forall k :: 0 <= k < |s| ==> !IsNonAscii(s[k]) && s[k] != '"'
  }

  predicate AllAscii(s: string) {
    forall k :: 0 <= k < |s| ==> !IsNonAscii(s[k])
  }

  /** Neither part holds '@', '"' or a non-ASCII character. */
  predicate PlainParts(l: string, d: string) {
    '@' !in l && '@' !in d && Plain(l) && Plain(d)
  }

  /** `s` written as the `c`-join of `pieces`, none of which holds `c`. */
  predicate PieceLayout(s: string, pieces: seq<string>, c: char) {
    |pieces| >= 1 && Join(pieces, c) == s && forall k :: 0 <= k < |pieces| ==> c !in pieces[k]
  }

  lemma {:induction false} PieceLayoutOf(s: string, pieces: seq<string>, c: char)
    requires |pieces| >= 1 && Join(pieces, c) == s
    requires forall k :: 0 <= k < |pieces| ==> c !in pieces[k]
    ensures PieceLayout(s, pieces, c)
  {
  }

  lemma {:induction false} LocalSpecOf(l: string)
    requires 1 <= |l| <= MaxLocalLength && AllLocalChars(l) && l[0] != '.' && l[|l| - 1] != '.'
    requires !HasPair(l, '.', '.')
    ensures LocalSpec(l)
  {
  }

  lemma {:induction false} PlainJoin(a: string, b: string)
    requires Plain(a) && Plain(b)
    ensures Plain(a + "@" + b)
  {
    var s := a + "@" + b;
    forall k | 0 <= k < |s|
      ensures !IsNonAscii(s[k]) && s[k] != '"'
    {
      if k < |a| {
        assert s[k] == a[k];
      } else if k > |a| {
        assert s[k] == b[k - |a| - 1];
      }
    }
  }

  lemma {:induction false} PlainChars(s: string)
    requires Plain(s)
    ensures !HasNonAscii(s) && '"' !in s
  {
  }

  lemma {:induction false} AtLayoutParts(email: string, l: string, d: string)
    requires email == l + "@" + d && PlainParts(l, d)
    ensures ValidateEmail(email) == ValidateParts(l, d)
  {
    PlainJoin(l, d);
    PlainChars(email);
    ValidateEmailParts(l, d);
  }

  // ---------------------------------------------------------------------------
  // Each outcome, for every address whose parts give it
  // ---------------------------------------------------------------------------

  lemma {:induction false} RunValid(email: string, l: string, lparts: seq<string>, tags: seq<string>, d: string, labels: seq<string>)
    requires email == l + "@" + d
    requires LocalSpec(l) && PieceLayout(l, lparts, '+') && lparts[1..] == tags
    requires PieceLayout(d, labels, '.') && AllGoodLabels(labels) && 2 <= |labels| <= MaxLabels && |d| <= MaxDomainLength
    ensures ValidateEmail(email) == ValidationResult(true, None, Components(l, d, tags))
  {
    SplitJoin(lparts, '+');
    SplitJoin(labels, '.');
    ValidateEmailComplete(email, Components(l, d, tags));
  }

  lemma {:induction false} RunNonAscii(email: string, k: nat)
    requires k < |email| && IsNonAscii(email[k])
    ensures ValidateEmail(email) == Reject(NonAscii)
  {
  }

  lemma {:induction false} RunQuoted(email: string, i: nat, j: nat)
    requires AllAscii(email) && QuotedSpan(email, i, j)
    ensures ValidateEmail(email) == Reject(QuotedString)
  {
  }

  lemma {:induction false} RunMissingAt(email: string)
    requires email != [] && Plain(email) && '@' !in email
    ensures ValidateEmail(email) == Reject(MissingAt)
  {
    PlainChars(email);
    NoQuoteNoQuotedString(email);
    assert ValidateEmail(email) == CheckAtSigns(email);
  }

  lemma {:induction false} RunMultipleAt(email: string, a: string, b: string, c: string)
    requires email == a + "@" + b + "@" + c && Plain(a) && Plain(b) && Plain(c)
    ensures ValidateEmail(email) == Reject(MultipleAt)
  {
    PlainJoin(a, b);
    PlainJoin(a + "@" + b, c);
    PlainChars(email);
    NoQuoteNoQuotedString(email);
    CountConcat(a + "@" + b + "@", c, '@');
    CountConcat(a + "@" + b, "@", '@');
    CountConcat(a + "@", b, '@');
    CountConcat(a, "@", '@');
    assert ValidateEmail(email) == CheckAtSigns(email);
  }

  lemma {:induction false} RunLocalError(email: string, l: string, d: string, e: LocalError)
    requires email == l + "@" + d && PlainParts(l, d) && ValidateLocalPart(l) == Some(e)
    ensures ValidateEmail(email) == Reject(LocalPart(e))
  {
    AtLayoutParts(email, l, d);
  }

  lemma {:induction false} RunDomainStringError(email: string, l: string, d: string, e: DomainError)
    requires email == l + "@" + d && PlainParts(l, d) && ValidateLocalPart(l).None? && DomainStringError(d) == Some(e)
    ensures ValidateEmail(email) == Reject(DomainPart(e))
  {
    AtLayoutParts(email, l, d);
  }

  lemma {:induction false} RunLabelsError(email: string, l: string, d: string, labels: seq<string>, e: DomainError)
    requires email == l + "@" + d && PlainParts(l, d) && ValidateLocalPart(l).None?
    requires DomainStringError(d).None? && PieceLayout(d, labels, '.') && CheckLabels(d, labels) == Some(e)
    ensures ValidateEmail(email) == Reject(DomainPart(e))
  {
    AtLayoutParts(email, l, d);
    SplitJoin(labels, '.');
  }

  /** The label-count limit of the tests, stated for every layout: thirteen or more labels. */
  lemma {:induction false} RunTooManyLevels(email: string, l: string, d: string, labels: seq<string>)
    requires email == l + "@" + d && PlainParts(l, d) && ValidateLocalPart(l).None?
    requires DomainStringError(d).None? && PieceLayout(d, labels, '.') && |labels| > MaxLabels
    ensures ValidateEmail(email) == Reject(DomainPart(TooManySubdomainLevels))
  {
    RunLabelsError(email, l, d, labels, TooManySubdomainLevels);
  }

  /** A domain `x + ".com"` whose first label repeats one letter or digit. */
  lemma {:induction false} RepeatedLabelDomain(x: string, c: char)
    requires 1 <= |x| <= 250 && IsAlnum(c) && forall k :: 0 <= k < |x| ==> x[k] == c
    ensures PieceLayout(x + ".com", [x, "com"], '.') && DomainStringError(x + ".com").None?
    ensures |x| <= MaxLabelLength ==> AllGoodLabels([x, "com"]) && |x + ".com"| <= MaxDomainLength
    ensures |x| > MaxLabelLength ==> CheckLabels(x + ".com", [x, "com"]) == Some(LabelTooLong(x))
  {
    var d := x + ".com";
    assert Join([x, "com"], '.') == x + "." + Join(["com"], '.');
    assert x + "." + "com" == d;
    assert d[0] == x[0];
    assert GoodLabel("com") by {
      assert LabelBody("com");
    }
    assert AllLabelChars(x) && LabelBody(x);
    if |x| > MaxLabelLength {
      assert LabelError(x, 1) == Some(LabelTooLong(x));
    }
  }

  // ---------------------------------------------------------------------------
  // Facts about the local parts and domains of the cases
  // ---------------------------------------------------------------------------

  lemma LocalUserSpec() ensures LocalSpec("user") {}

  lemma LocalUserPieces() ensures PieceLayout("user", ["user"], '+') && ["user"][1..] == [] {}

  lemma DomainExamplePieces() ensures PieceLayout("example.com", ["example", "com"], '.') {}

  lemma DomainExampleLabels() ensures AllGoodLabels(["example", "com"]) && 2 <= |["example", "com"]| <= MaxLabels && |"example.com"| <= MaxDomainLength {}

  lemma DomainMailPieces() ensures PieceLayout("mail.example.com", ["mail", "example", "com"], '.') {}

  lemma DomainMailLabels() ensures AllGoodLabels(["mail", "example", "com"]) && 2 <= |["mail", "example", "com"]| <= MaxLabels && |"mail.example.com"| <= MaxDomainLength {}

  lemma DomainAbcJoin() ensures Join(["a", "b", "c", "example", "com"], '.') == "a.b.c.example.com" {}

  lemma DomainAbcSeparate() ensures |["a", "b", "c", "example", "com"]| >= 1 && (forall k :: 0 <= k < |["a", "b", "c", "example", "com"]| ==> '.' !in ["a", "b", "c", "example", "com"][k]) {}

  lemma DomainAbcLabels() ensures AllGoodLabels(["a", "b", "c", "example", "com"]) && 2 <= |["a", "b", "c", "example", "com"]| <= MaxLabels && |"a.b.c.example.com"| <= MaxDomainLength {}

  // Long label lists are written as runs so that no single fact joins them all.

  lemma ElevenLevelsSeparate()
    ensures var labels := ["a", "b", "c", "d", "e"] + ["f", "g", "h", "i", "j", "com"]; |labels| >= 1 && forall k :: 0 <= k < |labels| ==> '.' !in labels[k]
  {}

  lemma ElevenLevelsLabels()
    ensures var labels := ["a", "b", "c", "d", "e"] + ["f", "g", "h", "i", "j", "com"];
      AllGoodLabels(labels) && 2 <= |labels| <= MaxLabels && |"a.b.c.d.e.f.g.h.i.j.com"| <= MaxDomainLength
  {}

  lemma FghiJoin() ensures Join(["f", "g", "h", "i"], '.') == "f.g.h.i" {}
  lemma JklComJoin() ensures Join(["j", "k", "l", "com"], '.') == "j.k.l.com" {}
  lemma ThirteenLevelsBackText() ensures "f.g.h.i" + "." + "j.k.l.com" == "f.g.h.i.j.k.l.com" {}

  lemma ThirteenLevelsBackJoin() ensures Join((["f", "g", "h", "i"] + ["j", "k", "l", "com"]), '.') == "f.g.h.i.j.k.l.com" {
    FghiJoin();
    JklComJoin();
    ThirteenLevelsBackText();
    JoinConcat(["f", "g", "h", "i"], ["j", "k", "l", "com"], '.');
  }

  lemma ThirteenLevelsText() ensures "a.b.c.d.e" + "." + "f.g.h.i.j.k.l.com" == "a.b.c.d.e.f.g.h.i.j.k.l.com" {}

  lemma ThirteenLevelsJoin() ensures Join(["a", "b", "c", "d", "e"] + (["f", "g", "h", "i"] + ["j", "k", "l", "com"]), '.') == "a.b.c.d.e.f.g.h.i.j.k.l.com" {
    FirstFiveJoin();
    ThirteenLevelsBackJoin();
    ThirteenLevelsText();
    JoinConcat(["a", "b", "c", "d", "e"], (["f", "g", "h", "i"] + ["j", "k", "l", "com"]), '.');
  }

  lemma ThirteenLevelsSeparate()
    ensures var labels := ["a", "b", "c", "d", "e"] + (["f", "g", "h", "i"] + ["j", "k", "l", "com"]);
      |labels| >= 1 && (forall k :: 0 <= k < |labels| ==> '.' !in labels[k]) && |labels| > MaxLabels
  {}

  lemma ThirteenLevelsPlain() ensures PlainParts("user", "a.b.c.d.e.f.g.h.i.j.k.l.com") {}
  lemma ThirteenLevelsString() ensures DomainStringError("a.b.c.d.e.f.g.h.i.j.k.l.com").None? {}

  lemma LocalUserTagSpec() ensures LocalSpec("user+tag") {}

  lemma LocalUserTagPieces() ensures PieceLayout("user+tag", ["user", "tag"], '+') && ["user", "tag"][1..] == ["tag"] {}

  lemma LocalThreeTagsSpec() ensures LocalSpec("user+tag1+tag2+tag3") {}

  lemma LocalThreeTagsJoin() ensures Join(["user", "tag1", "tag2", "tag3"], '+') == "user+tag1+tag2+tag3" {}

  lemma LocalThreeTagsSeparate() ensures |["user", "tag1", "tag2", "tag3"]| >= 1 && (forall k :: 0 <= k < |["user", "tag1", "tag2", "tag3"]| ==> '+' !in ["user", "tag1", "tag2", "tag3"][k]) && ["user", "tag1", "tag2", "tag3"][1..] == ["tag1", "tag2", "tag3"] {}

  lemma LocalOrderedTagsChars() ensures 1 <= |"user+first+second+third"| <= MaxLocalLength && AllLocalChars("user+first+second+third") && "user+first+second+third"[0] != '.' && "user+first+second+third"[|"user+first+second+third"| - 1] != '.' {}

  lemma LocalOrderedTagsNoDoubleDot() ensures !HasPair("user+first+second+third", '.', '.') {}

  lemma LocalOrderedTagsJoin() ensures Join(["user", "first", "second", "third"], '+') == "user+first+second+third" {}

  lemma LocalOrderedTagsSeparate() ensures |["user", "first", "second", "third"]| >= 1 && (forall k :: 0 <= k < |["user", "first", "second", "third"]| ==> '+' !in ["user", "first", "second", "third"][k]) && ["user", "first", "second", "third"][1..] == ["first", "second", "third"] {}

  lemma LocalDoubleDotError() ensures ValidateLocalPart("user..name") == Some(LocalPartConsecutiveDots) {
    assert "user..name"[4] == '.' && "user..name"[5] == '.';
  }

  lemma LocalLeadingDotLocalError() ensures ValidateLocalPart(".user") == Some(LocalPartLeadingDot) {}

  lemma LocalTrailingDotLocalError() ensures ValidateLocalPart("user.") == Some(LocalPartTrailingDot) {}

  lemma LocalSixtyFiveError() ensures ValidateLocalPart(seq(65, _ => 'a')) == Some(LocalPartTooLong) {}

  lemma LocalBlankError() ensures ValidateLocalPart("user name") == Some(LocalPartInvalidCharacters) {}

  lemma LocalUserOk() ensures ValidateLocalPart("user").None? {}

  lemma DomainDoubleDotError() ensures DomainStringError("example..com") == Some(DomainConsecutiveDots) {
    assert "example..com"[7] == '.' && "example..com"[8] == '.';
  }

  lemma DomainNoDotPieces() ensures PieceLayout("example", ["example"], '.') {}

  lemma DomainNoDotClean() ensures DomainStringError("example").None? {}

  lemma DomainNoDotError() ensures CheckLabels("example", ["example"]) == Some(DomainWithoutDot) {}

  lemma DomainTwoFiftySixError() ensures DomainStringError(seq(252, _ => 'a') + ".com") == Some(DomainTooLong) {}

  lemma DomainBlankPieces() ensures PieceLayout("example .com", ["example ", "com"], '.') {}

  lemma DomainBlankClean() ensures DomainStringError("example .com").None? {}

  lemma DomainBlankError() ensures CheckLabels("example .com", ["example ", "com"]) == Some(LabelInvalidCharacters("example ")) {}

  lemma DomainLeadingHyphenDomainError() ensures DomainStringError("-example.com") == Some(DomainHyphenAtEdge) {}

  lemma DomainTrailingHyphenLabelPieces() ensures PieceLayout("example-.com", ["example-", "com"], '.') {}

  lemma DomainTrailingHyphenLabelClean() ensures DomainStringError("example-.com").None? {}

  lemma DomainTrailingHyphenLabelError() ensures CheckLabels("example-.com", ["example-", "com"]) == Some(LabelHyphenAtEdge("example-")) {}

  lemma LocalEmptyError() ensures ValidateLocalPart("") == Some(EmptyLocalPart) {}

  lemma DomainEmptyError() ensures DomainStringError("") == Some(EmptyDomainPart) {}

  lemma LocalVeryCommonSpec() ensures LocalSpec("very.common") {}

  lemma LocalVeryCommonPieces() ensures PieceLayout("very.common", ["very.common"], '+') && ["very.common"][1..] == [] {}

  lemma LocalDisposableChars() ensures 1 <= |"disposable.style.email.with+symbol"| <= MaxLocalLength && AllLocalChars("disposable.style.email.with+symbol") && "disposable.style.email.with+symbol"[0] != '.' && "disposable.style.email.with+symbol"[|"disposable.style.email.with+symbol"| - 1] != '.' {}

  lemma LocalDisposableNoDoubleDot() ensures !HasPair("disposable.style.email.with+symbol", '.', '.') {}

  lemma LocalDisposablePieces() ensures PieceLayout("disposable.style.email.with+symbol", ["disposable.style.email.with", "symbol"], '+') && ["disposable.style.email.with", "symbol"][1..] == ["symbol"] {}

  lemma LocalHyphenatedChars() ensures 1 <= |"other.email-with-hyphen"| <= MaxLocalLength && AllLocalChars("other.email-with-hyphen") && "other.email-with-hyphen"[0] != '.' && "other.email-with-hyphen"[|"other.email-with-hyphen"| - 1] != '.' {}

  lemma LocalHyphenatedNoDoubleDot() ensures !HasPair("other.email-with-hyphen", '.', '.') {}

  lemma LocalHyphenatedPieces() ensures PieceLayout("other.email-with-hyphen", ["other.email-with-hyphen"], '+') && ["other.email-with-hyphen"][1..] == [] {}

  lemma LocalDigitsSpec() ensures LocalSpec("1234567890") {}

  lemma LocalDigitsPieces() ensures PieceLayout("1234567890", ["1234567890"], '+') && ["1234567890"][1..] == [] {}

  lemma LocalUnderscoreSpec() ensures LocalSpec("underscore_user") {}

  lemma LocalUnderscorePieces() ensures PieceLayout("underscore_user", ["underscore_user"], '+') && ["underscore_user"][1..] == [] {}

  lemma DomainABPieces() ensures PieceLayout("a.b", ["a", "b"], '.') {}

  lemma DomainABLabels() ensures AllGoodLabels(["a", "b"]) && 2 <= |["a", "b"]| <= MaxLabels && |"a.b"| <= MaxDomainLength {}

  lemma DomainCoJpPieces() ensures PieceLayout("example.co.jp", ["example", "co", "jp"], '.') {}

  lemma DomainCoJpLabels() ensures AllGoodLabels(["example", "co", "jp"]) && 2 <= |["example", "co", "jp"]| <= MaxLabels && |"example.co.jp"| <= MaxDomainLength {}

  lemma LocalUSpec() ensures LocalSpec("u") {}

  lemma LocalUPieces() ensures PieceLayout("u", ["u"], '+') && ["u"][1..] == [] {}

  lemma DomainIoPieces() ensures PieceLayout("d.io", ["d", "io"], '.') {}

  lemma DomainIoLabels() ensures AllGoodLabels(["d", "io"]) && 2 <= |["d", "io"]| <= MaxLabels && |"d.io"| <= MaxDomainLength {}

  lemma LocalASpec() ensures LocalSpec("a") {}

  lemma LocalAPieces() ensures PieceLayout("a", ["a"], '+') && ["a"][1..] == [] {}

  lemma LocalAbcOk() ensures ValidateLocalPart("abc").None? {}

  lemma DomainBangPieces() ensures PieceLayout("example!com", ["example!com"], '.') {}

  lemma DomainBangClean() ensures DomainStringError("example!com").None? {}

  lemma DomainBangError() ensures CheckLabels("example!com", ["example!com"]) == Some(DomainWithoutDot) {}

  lemma LocalNewlineError() ensures ValidateLocalPart("abc\ndef") == Some(LocalPartInvalidCharacters) {}

  lemma DomainTrailingDotError() ensures DomainStringError("domain.") == Some(DomainDotAtEdge) {}

  lemma LocalSimpleSpec() ensures LocalSpec("simple") {}

  lemma LocalSimplePieces() ensures PieceLayout("simple", ["simple"], '+') && ["simple"][1..] == [] {}

  lemma DomainSubDomainPieces() ensures PieceLayout("sub.domain.com", ["sub", "domain", "com"], '.') {}

  lemma DomainSubDomainLabels() ensures AllGoodLabels(["sub", "domain", "com"]) && 2 <= |["sub", "domain", "com"]| <= MaxLabels && |"sub.domain.com"| <= MaxDomainLength {}

  lemma LocalLongNameChars() ensures 1 <= |"a.very.long.username.that.is.still.valid"| <= MaxLocalLength && AllLocalChars("a.very.long.username.that.is.still.valid") && "a.very.long.username.that.is.still.valid"[0] != '.' && "a.very.long.username.that.is.still.valid"[|"a.very.long.username.that.is.still.valid"| - 1] != '.' {}

  lemma LocalLongNameNoDoubleDot() ensures !HasPair("a.very.long.username.that.is.still.valid", '.', '.') {}

  lemma LocalLongNamePieces() ensures PieceLayout("a.very.long.username.that.is.still.valid", ["a.very.long.username.that.is.still.valid"], '+') && ["a.very.long.username.that.is.still.valid"][1..] == [] {}

  lemma LocalSingleTagSpec() ensures LocalSpec("user+single") {}

  lemma LocalSingleTagPieces() ensures PieceLayout("user+single", ["user", "single"], '+') && ["user", "single"][1..] == ["single"] {}

  lemma LocalAbcDoubleDotError() ensures ValidateLocalPart("abc..def") == Some(LocalPartConsecutiveDots) {
    assert "abc..def"[3] == '.' && "abc..def"[4] == '.';
  }

  lemma LocalDotAbcError() ensures ValidateLocalPart(".abc") == Some(LocalPartLeadingDot) {}

  lemma LocalAbcDotError() ensures ValidateLocalPart("abc.") == Some(LocalPartTrailingDot) {}

  lemma LocalAbcBlankError() ensures ValidateLocalPart("abc def") == Some(LocalPartInvalidCharacters) {}

  lemma DomainExampleBlankPieces() ensures PieceLayout("example com", ["example com"], '.') {}

  lemma DomainExampleBlankClean() ensures DomainStringError("example com").None? {}

  lemma DomainExampleBlankError() ensures CheckLabels("example com", ["example com"]) == Some(DomainWithoutDot) {}

  lemma LocalUsernameOk() ensures ValidateLocalPart("username").None? {}

  lemma DomainSinglePieces() ensures PieceLayout("domain", ["domain"], '.') {}

  lemma DomainSingleClean() ensures DomainStringError("domain").None? {}

  lemma DomainSingleError() ensures CheckLabels("domain", ["domain"]) == Some(DomainWithoutDot) {}

  lemma DomainHyphenFirstError() ensures DomainStringError("-domain.com") == Some(DomainHyphenAtEdge) {}

  lemma DomainHyphenLastPieces() ensures PieceLayout("domain-.com", ["domain-", "com"], '.') {}

  lemma DomainHyphenLastClean() ensures DomainStringError("domain-.com").None? {}

  lemma DomainHyphenLastError() ensures CheckLabels("domain-.com", ["domain-", "com"]) == Some(LabelHyphenAtEdge("domain-")) {}

  // ---------------------------------------------------------------------------
  // The test cases
  // ---------------------------------------------------------------------------

  lemma SimpleEmailAt() ensures "user@example.com" == "user" + "@" + "example.com" {}

  lemma SimpleEmail()
    ensures ValidateEmail("user@example.com") == ValidationResult(true, None, Components("user", "example.com", []))
  {
    SimpleEmailAt();
    LocalUserSpec();
    LocalUserPieces();
    DomainExamplePieces();
    DomainExampleLabels();
    RunValid("user@example.com", "user", ["user"], [], "example.com", ["example", "com"]);
  }

  lemma WithSubdomainAt() ensures "user@mail.example.com" == "user" + "@" + "mail.example.com" {}

  lemma WithSubdomain()
    ensures ValidateEmail("user@mail.example.com") == ValidationResult(true, None, Components("user", "mail.example.com", []))
  {
    WithSubdomainAt();
    LocalUserSpec();
    LocalUserPieces();
    DomainMailPieces();
    DomainMailLabels();
    RunValid("user@mail.example.com", "user", ["user"], [], "mail.example.com", ["mail", "example", "com"]);
  }

  lemma MultiLevelSubdomainAt() ensures "user@a.b.c.example.com" == "user" + "@" + "a.b.c.example.com" {}

  lemma MultiLevelSubdomain()
    ensures ValidateEmail("user@a.b.c.example.com") == ValidationResult(true, None, Components("user", "a.b.c.example.com", []))
  {
    MultiLevelSubdomainAt();
    LocalUserSpec();
    LocalUserPieces();
    DomainAbcJoin();
    DomainAbcSeparate();
    PieceLayoutOf("a.b.c.example.com", ["a", "b", "c", "example", "com"], '.');
    DomainAbcLabels();
    RunValid("user@a.b.c.example.com", "user", ["user"], [], "a.b.c.example.com", ["a", "b", "c", "example", "com"]);
  }

  lemma MaxSubdomainLevelsAt() ensures "user@a.b.c.d.e.f.g.h.i.j.com" == "user" + "@" + "a.b.c.d.e.f.g.h.i.j.com" {}

  /** Eleven labels: ten below the top level, within the limit. */
  lemma MaxSubdomainLevels()
    ensures ValidateEmail("user@a.b.c.d.e.f.g.h.i.j.com") == ValidationResult(true, None, Components("user", "a.b.c.d.e.f.g.h.i.j.com", []))
  {
    MaxSubdomainLevelsAt();
    LocalUserSpec();
    LocalUserPieces();
    ElevenLevelsJoin();
    ElevenLevelsSeparate();
    PieceLayoutOf("a.b.c.d.e.f.g.h.i.j.com", ["a", "b", "c", "d", "e"] + ["f", "g", "h", "i", "j", "com"], '.');
    ElevenLevelsLabels();
    RunValid("user@a.b.c.d.e.f.g.h.i.j.com", "user", ["user"], [], "a.b.c.d.e.f.g.h.i.j.com", ["a", "b", "c", "d", "e"] + ["f", "g", "h", "i", "j", "com"]);
  }

  lemma ExceedsSubdomainLevelsAt() ensures "user@a.b.c.d.e.f.g.h.i.j.k.l.com" == "user" + "@" + "a.b.c.d.e.f.g.h.i.j.k.l.com" {}

  /** Thirteen labels are over the limit of twelve. */
  lemma ExceedsSubdomainLevels()
    ensures ValidateEmail("user@a.b.c.d.e.f.g.h.i.j.k.l.com") == Reject(DomainPart(TooManySubdomainLevels))
  {
    ExceedsSubdomainLevelsAt();
    ThirteenLevelsPlain();
    LocalUserOk();
    ThirteenLevelsString();
    ThirteenLevelsJoin();
    ThirteenLevelsSeparate();
    PieceLayoutOf("a.b.c.d.e.f.g.h.i.j.k.l.com", ["a", "b", "c", "d", "e"] + (["f", "g", "h", "i"] + ["j", "k", "l", "com"]), '.');
    RunTooManyLevels("user@a.b.c.d.e.f.g.h.i.j.k.l.com", "user", "a.b.c.d.e.f.g.h.i.j.k.l.com", ["a", "b", "c", "d", "e"] + (["f", "g", "h", "i"] + ["j", "k", "l", "com"]));
  }

  lemma SingleTagAt() ensures "user+tag@example.com" == "user+tag" + "@" + "example.com" {}

  lemma SingleTag()
    ensures ValidateEmail("user+tag@example.com") == ValidationResult(true, None, Components("user+tag", "example.com", ["tag"]))
  {
    SingleTagAt();
    LocalUserTagSpec();
    LocalUserTagPieces();
    DomainExamplePieces();
    DomainExampleLabels();
    RunValid("user+tag@example.com", "user+tag", ["user", "tag"], ["tag"], "example.com", ["example", "com"]);
  }

  lemma MultipleTagsAt() ensures "user+tag1+tag2+tag3@example.com" == "user+tag1+tag2+tag3" + "@" + "example.com" {}

  lemma MultipleTags()
    ensures ValidateEmail("user+tag1+tag2+tag3@example.com") == ValidationResult(true, None, Components("user+tag1+tag2+tag3", "example.com", ["tag1", "tag2", "tag3"]))
  {
    MultipleTagsAt();
    LocalThreeTagsSpec();
    LocalThreeTagsJoin();
    LocalThreeTagsSeparate();
    PieceLayoutOf("user+tag1+tag2+tag3", ["user", "tag1", "tag2", "tag3"], '+');
    DomainExamplePieces();
    DomainExampleLabels();
    RunValid("user+tag1+tag2+tag3@example.com", "user+tag1+tag2+tag3", ["user", "tag1", "tag2", "tag3"], ["tag1", "tag2", "tag3"], "example.com", ["example", "com"]);
  }

  lemma TagOrderAt() ensures "user+first+second+third@example.com" == "user+first+second+third" + "@" + "example.com" {}

  lemma TagOrder()
    ensures ValidateEmail("user+first+second+third@example.com") == ValidationResult(true, None, Components("user+first+second+third", "example.com", ["first", "second", "third"]))
  {
    TagOrderAt();
    LocalOrderedTagsChars();
    LocalOrderedTagsNoDoubleDot();
    LocalSpecOf("user+first+second+third");
    LocalOrderedTagsJoin();
    LocalOrderedTagsSeparate();
    PieceLayoutOf("user+first+second+third", ["user", "first", "second", "third"], '+');
    DomainExamplePieces();
    DomainExampleLabels();
    RunValid("user+first+second+third@example.com", "user+first+second+third", ["user", "first", "second", "third"], ["first", "second", "third"], "example.com", ["example", "com"]);
  }

  lemma EmptyEmail()
    ensures ValidateEmail("") == Reject(EmptyAddress)
  {
  }

  lemma MissingAtSymbolChars() ensures "userexample.com" != [] && Plain("userexample.com") && '@' !in "userexample.com" {}

  lemma MissingAtSymbol()
    ensures ValidateEmail("userexample.com") == Reject(MissingAt)
  {
    MissingAtSymbolChars();
    RunMissingAt("userexample.com");
  }

  lemma MultipleAtSymbolsPieces() ensures "user@domain@example.com" == "user" + "@" + "domain" + "@" + "example.com" && Plain("user") && Plain("domain") && Plain("example.com") {}

  lemma MultipleAtSymbols()
    ensures ValidateEmail("user@domain@example.com") == Reject(MultipleAt)
  {
    MultipleAtSymbolsPieces();
    RunMultipleAt("user@domain@example.com", "user", "domain", "example.com");
  }

  lemma LocalConsecutiveDotsAt() ensures "user..name@example.com" == "user..name" + "@" + "example.com" {}

  lemma LocalConsecutiveDotsPlain() ensures PlainParts("user..name", "example.com") {}

  lemma LocalConsecutiveDots()
    ensures ValidateEmail("user..name@example.com") == Reject(LocalPart(LocalPartConsecutiveDots))
  {
    LocalConsecutiveDotsAt();
    LocalConsecutiveDotsPlain();
    LocalDoubleDotError();
    RunLocalError("user..name@example.com", "user..name", "example.com", LocalPartConsecutiveDots);
  }

  lemma LocalLeadingDotAt() ensures ".user@example.com" == ".user" + "@" + "example.com" {}

  lemma LocalLeadingDotPlain() ensures PlainParts(".user", "example.com") {}

  lemma LocalLeadingDot()
    ensures ValidateEmail(".user@example.com") == Reject(LocalPart(LocalPartLeadingDot))
  {
    LocalLeadingDotAt();
    LocalLeadingDotPlain();
    LocalLeadingDotLocalError();
    RunLocalError(".user@example.com", ".user", "example.com", LocalPartLeadingDot);
  }

  lemma LocalTrailingDotAt() ensures "user.@example.com" == "user." + "@" + "example.com" {}

  lemma LocalTrailingDotPlain() ensures PlainParts("user.", "example.com") {}

  lemma LocalTrailingDot()
    ensures ValidateEmail("user.@example.com") == Reject(LocalPart(LocalPartTrailingDot))
  {
    LocalTrailingDotAt();
    LocalTrailingDotPlain();
    LocalTrailingDotLocalError();
    RunLocalError("user.@example.com", "user.", "example.com", LocalPartTrailingDot);
  }

  lemma LocalTooLongAt() ensures seq(65, _ => 'a') + "@example.com" == seq(65, _ => 'a') + "@" + "example.com" {}

  lemma LocalTooLongPlain() ensures PlainParts(seq(65, _ => 'a'), "example.com") {}

  /** 65 characters before the '@'. */
  lemma LocalTooLong()
    ensures ValidateEmail(seq(65, _ => 'a') + "@example.com") == Reject(LocalPart(LocalPartTooLong))
  {
    LocalTooLongAt();
    LocalTooLongPlain();
    LocalSixtyFiveError();
    RunLocalError(seq(65, _ => 'a') + "@example.com", seq(65, _ => 'a'), "example.com", LocalPartTooLong);
  }

  lemma LocalWhitespaceAt() ensures "user name@example.com" == "user name" + "@" + "example.com" {}

  lemma LocalWhitespacePlain() ensures PlainParts("user name", "example.com") {}

  /** The blank fails the local-part pattern before the whitespace check is reached. */
  lemma LocalWhitespace()
    ensures ValidateEmail("user name@example.com") == Reject(LocalPart(LocalPartInvalidCharacters))
  {
    LocalWhitespaceAt();
    LocalWhitespacePlain();
    LocalBlankError();
    RunLocalError("user name@example.com", "user name", "example.com", LocalPartInvalidCharacters);
  }

  lemma DoubleDotDomainAt() ensures "user@example..com" == "user" + "@" + "example..com" {}

  lemma DoubleDotDomainPlain() ensures PlainParts("user", "example..com") {}

  lemma DoubleDotDomain()
    ensures ValidateEmail("user@example..com") == Reject(DomainPart(DomainConsecutiveDots))
  {
    DoubleDotDomainAt();
    DoubleDotDomainPlain();
    LocalUserOk();
    DomainDoubleDotError();
    RunDomainStringError("user@example..com", "user", "example..com", DomainConsecutiveDots);
  }

  lemma DomainMissingTldAt() ensures "user@example" == "user" + "@" + "example" {}

  lemma DomainMissingTldPlain() ensures PlainParts("user", "example") {}

  lemma DomainMissingTld()
    ensures ValidateEmail("user@example") == Reject(DomainPart(DomainWithoutDot))
  {
    DomainMissingTldAt();
    DomainMissingTldPlain();
    LocalUserOk();
    DomainNoDotPieces();
    DomainNoDotClean();
    DomainNoDotError();
    RunLabelsError("user@example", "user", "example", ["example"], DomainWithoutDot);
  }

  lemma DomainExceedsLengthAt() ensures "user@" + seq(252, _ => 'a') + ".com" == "user" + "@" + seq(252, _ => 'a') + ".com" {}

  lemma DomainExceedsLengthPlain() ensures PlainParts("user", seq(252, _ => 'a') + ".com") {}

  /** A 256-character domain. */
  lemma DomainExceedsLength()
    ensures ValidateEmail("user@" + seq(252, _ => 'a') + ".com") == Reject(DomainPart(DomainTooLong))
  {
    DomainExceedsLengthAt();
    DomainExceedsLengthPlain();
    LocalUserOk();
    DomainTwoFiftySixError();
    RunDomainStringError("user@" + seq(252, _ => 'a') + ".com", "user", seq(252, _ => 'a') + ".com", DomainTooLong);
  }

  lemma LabelExceedsLengthAt() ensures "user@" + seq(33, _ => 'x') + ".com" == "user" + "@" + seq(33, _ => 'x') + ".com" {}

  lemma LabelExceedsLengthPlain() ensures PlainParts("user", seq(33, _ => 'x') + ".com") {}

  /** A 33-character label. */
  lemma LabelExceedsLength()
    ensures ValidateEmail("user@" + seq(33, _ => 'x') + ".com") == Reject(DomainPart(LabelTooLong(seq(33, _ => 'x'))))
  {
    LabelExceedsLengthAt();
    LabelExceedsLengthPlain();
    RepeatedLabelDomain(seq(33, _ => 'x'), 'x');
    LocalUserOk();
    RunLabelsError("user@" + seq(33, _ => 'x') + ".com", "user", seq(33, _ => 'x') + ".com", [seq(33, _ => 'x'), "com"], LabelTooLong(seq(33, _ => 'x')));
  }

  lemma LabelMaxLengthAt() ensures "user@" + seq(32, _ => 'x') + ".com" == "user" + "@" + seq(32, _ => 'x') + ".com" {}

  /** A 32-character label is within the limit. */
  lemma LabelMaxLength()
    ensures ValidateEmail("user@" + seq(32, _ => 'x') + ".com") == ValidationResult(true, None, Components("user", seq(32, _ => 'x') + ".com", []))
  {
    LabelMaxLengthAt();
    RepeatedLabelDomain(seq(32, _ => 'x'), 'x');
    LocalUserSpec();
    LocalUserPieces();
    RunValid("user@" + seq(32, _ => 'x') + ".com", "user", ["user"], [], seq(32, _ => 'x') + ".com", [seq(32, _ => 'x'), "com"]);
  }

  lemma BlankInDomainAt() ensures "user@example .com" == "user" + "@" + "example .com" {}

  lemma BlankInDomainPlain() ensures PlainParts("user", "example .com") {}

  /** The blank fails the label pattern before the whitespace check is reached. */
  lemma BlankInDomain()
    ensures ValidateEmail("user@example .com") == Reject(DomainPart(LabelInvalidCharacters("example ")))
  {
    BlankInDomainAt();
    BlankInDomainPlain();
    LocalUserOk();
    DomainBlankPieces();
    DomainBlankClean();
    DomainBlankError();
    RunLabelsError("user@example .com", "user", "example .com", ["example ", "com"], LabelInvalidCharacters("example "));
  }

  lemma DomainLeadingHyphenAt() ensures "user@-example.com" == "user" + "@" + "-example.com" {}

  lemma DomainLeadingHyphenPlain() ensures PlainParts("user", "-example.com") {}

  lemma DomainLeadingHyphen()
    ensures ValidateEmail("user@-example.com") == Reject(DomainPart(DomainHyphenAtEdge))
  {
    DomainLeadingHyphenAt();
    DomainLeadingHyphenPlain();
    LocalUserOk();
    DomainLeadingHyphenDomainError();
    RunDomainStringError("user@-example.com", "user", "-example.com", DomainHyphenAtEdge);
  }

  lemma DomainTrailingHyphenAt() ensures "user@example-.com" == "user" + "@" + "example-.com" {}

  lemma DomainTrailingHyphenPlain() ensures PlainParts("user", "example-.com") {}

  lemma DomainTrailingHyphen()
    ensures ValidateEmail("user@example-.com") == Reject(DomainPart(LabelHyphenAtEdge("example-")))
  {
    DomainTrailingHyphenAt();
    DomainTrailingHyphenPlain();
    LocalUserOk();
    DomainTrailingHyphenLabelPieces();
    DomainTrailingHyphenLabelClean();
    DomainTrailingHyphenLabelError();
    RunLabelsError("user@example-.com", "user", "example-.com", ["example-", "com"], LabelHyphenAtEdge("example-"));
  }

  lemma QuotedStringRejectionSpan() ensures AllAscii("\"quoted.user\"@example.com") && QuotedSpan("\"quoted.user\"@example.com", 0, 12) {}

  lemma QuotedStringRejection()
    ensures ValidateEmail("\"quoted.user\"@example.com") == Reject(QuotedString)
  {
    QuotedStringRejectionSpan();
    RunQuoted("\"quoted.user\"@example.com", 0, 12);
  }

  lemma InternationalizedDomainChar() ensures 5 < |"user@例え.com"| && IsNonAscii("user@例え.com"[5]) {}

  lemma InternationalizedDomain()
    ensures ValidateEmail("user@例え.com") == Reject(NonAscii)
  {
    InternationalizedDomainChar();
    RunNonAscii("user@例え.com", 5);
  }

  lemma OnlyAtSymbolAt() ensures "@" == "" + "@" + "" {}

  lemma OnlyAtSymbolPlain() ensures PlainParts("", "") {}

  lemma OnlyAtSymbol()
    ensures ValidateEmail("@") == Reject(LocalPart(EmptyLocalPart))
  {
    OnlyAtSymbolAt();
    OnlyAtSymbolPlain();
    LocalEmptyError();
    RunLocalError("@", "", "", EmptyLocalPart);
  }

  lemma MissingLocalPartAt() ensures "@example.com" == "" + "@" + "example.com" {}

  lemma MissingLocalPartPlain() ensures PlainParts("", "example.com") {}

  lemma MissingLocalPart()
    ensures ValidateEmail("@example.com") == Reject(LocalPart(EmptyLocalPart))
  {
    MissingLocalPartAt();
    MissingLocalPartPlain();
    LocalEmptyError();
    RunLocalError("@example.com", "", "example.com", EmptyLocalPart);
  }

  lemma MissingDomainPartAt() ensures "user@" == "user" + "@" + "" {}

  lemma MissingDomainPartPlain() ensures PlainParts("user", "") {}

  lemma MissingDomainPart()
    ensures ValidateEmail("user@") == Reject(DomainPart(EmptyDomainPart))
  {
    MissingDomainPartAt();
    MissingDomainPartPlain();
    LocalUserOk();
    DomainEmptyError();
    RunDomainStringError("user@", "user", "", EmptyDomainPart);
  }

  lemma EdgeVeryCommonAt() ensures "very.common@example.com" == "very.common" + "@" + "example.com" {}

  lemma EdgeVeryCommon()
    ensures ValidateEmail("very.common@example.com") == ValidationResult(true, None, Components("very.common", "example.com", []))
  {
    EdgeVeryCommonAt();
    LocalVeryCommonSpec();
    LocalVeryCommonPieces();
    DomainExamplePieces();
    DomainExampleLabels();
    RunValid("very.common@example.com", "very.common", ["very.common"], [], "example.com", ["example", "com"]);
  }

  lemma EdgeTaggedDottedAt() ensures "disposable.style.email.with+symbol@example.com" == "disposable.style.email.with+symbol" + "@" + "example.com" {}

  lemma EdgeTaggedDotted()
    ensures ValidateEmail("disposable.style.email.with+symbol@example.com") == ValidationResult(true, None, Components("disposable.style.email.with+symbol", "example.com", ["symbol"]))
  {
    EdgeTaggedDottedAt();
    LocalDisposableChars();
    LocalDisposableNoDoubleDot();
    LocalSpecOf("disposable.style.email.with+symbol");
    LocalDisposablePieces();
    DomainExamplePieces();
    DomainExampleLabels();
    RunValid("disposable.style.email.with+symbol@example.com", "disposable.style.email.with+symbol", ["disposable.style.email.with", "symbol"], ["symbol"], "example.com", ["example", "com"]);
  }

  lemma EdgeHyphenLocalAt() ensures "other.email-with-hyphen@example.com" == "other.email-with-hyphen" + "@" + "example.com" {}

  lemma EdgeHyphenLocal()
    ensures ValidateEmail("other.email-with-hyphen@example.com") == ValidationResult(true, None, Components("other.email-with-hyphen", "example.com", []))
  {
    EdgeHyphenLocalAt();
    LocalHyphenatedChars();
    LocalHyphenatedNoDoubleDot();
    LocalSpecOf("other.email-with-hyphen");
    LocalHyphenatedPieces();
    DomainExamplePieces();
    DomainExampleLabels();
    RunValid("other.email-with-hyphen@example.com", "other.email-with-hyphen", ["other.email-with-hyphen"], [], "example.com", ["example", "com"]);
  }

  lemma EdgeDigitsAt() ensures "1234567890@example.com" == "1234567890" + "@" + "example.com" {}

  lemma EdgeDigits()
    ensures ValidateEmail("1234567890@example.com") == ValidationResult(true, None, Components("1234567890", "example.com", []))
  {
    EdgeDigitsAt();
    LocalDigitsSpec();
    LocalDigitsPieces();
    DomainExamplePieces();
    DomainExampleLabels();
    RunValid("1234567890@example.com", "1234567890", ["1234567890"], [], "example.com", ["example", "com"]);
  }

  lemma EdgeUnderscoreAt() ensures "underscore_user@example.com" == "underscore_user" + "@" + "example.com" {}

  lemma EdgeUnderscore()
    ensures ValidateEmail("underscore_user@example.com") == ValidationResult(true, None, Components("underscore_user", "example.com", []))
  {
    EdgeUnderscoreAt();
    LocalUnderscoreSpec();
    LocalUnderscorePieces();
    DomainExamplePieces();
    DomainExampleLabels();
    RunValid("underscore_user@example.com", "underscore_user", ["underscore_user"], [], "example.com", ["example", "com"]);
  }

  lemma EdgeShortLabelsAt() ensures "user@a.b" == "user" + "@" + "a.b" {}

  lemma EdgeShortLabels()
    ensures ValidateEmail("user@a.b") == ValidationResult(true, None, Components("user", "a.b", []))
  {
    EdgeShortLabelsAt();
    LocalUserSpec();
    LocalUserPieces();
    DomainABPieces();
    DomainABLabels();
    RunValid("user@a.b", "user", ["user"], [], "a.b", ["a", "b"]);
  }

  lemma EdgeCountryCodeAt() ensures "user@example.co.jp" == "user" + "@" + "example.co.jp" {}

  lemma EdgeCountryCode()
    ensures ValidateEmail("user@example.co.jp") == ValidationResult(true, None, Components("user", "example.co.jp", []))
  {
    EdgeCountryCodeAt();
    LocalUserSpec();
    LocalUserPieces();
    DomainCoJpPieces();
    DomainCoJpLabels();
    RunValid("user@example.co.jp", "user", ["user"], [], "example.co.jp", ["example", "co", "jp"]);
  }

  lemma EdgeShortestAt() ensures "u@d.io" == "u" + "@" + "d.io" {}

  lemma EdgeShortest()
    ensures ValidateEmail("u@d.io") == ValidationResult(true, None, Components("u", "d.io", []))
  {
    EdgeShortestAt();
    LocalUSpec();
    LocalUPieces();
    DomainIoPieces();
    DomainIoLabels();
    RunValid("u@d.io", "u", ["u"], [], "d.io", ["d", "io"]);
  }

  lemma EdgeLabel31At() ensures "a@" + seq(31, _ => 'x') + ".com" == "a" + "@" + seq(31, _ => 'x') + ".com" {}

  /** A 31-character label. */
  lemma EdgeLabel31()
    ensures ValidateEmail("a@" + seq(31, _ => 'x') + ".com") == ValidationResult(true, None, Components("a", seq(31, _ => 'x') + ".com", []))
  {
    EdgeLabel31At();
    RepeatedLabelDomain(seq(31, _ => 'x'), 'x');
    LocalASpec();
    LocalAPieces();
    RunValid("a@" + seq(31, _ => 'x') + ".com", "a", ["a"], [], seq(31, _ => 'x') + ".com", [seq(31, _ => 'x'), "com"]);
  }

  lemma EdgeNoDotAt() ensures "abc@example" == "abc" + "@" + "example" {}

  lemma EdgeNoDotPlain() ensures PlainParts("abc", "example") {}

  lemma EdgeNoDot()
    ensures ValidateEmail("abc@example") == Reject(DomainPart(DomainWithoutDot))
  {
    EdgeNoDotAt();
    EdgeNoDotPlain();
    LocalAbcOk();
    DomainNoDotPieces();
    DomainNoDotClean();
    DomainNoDotError();
    RunLabelsError("abc@example", "abc", "example", ["example"], DomainWithoutDot);
  }

  lemma EdgeBangAt() ensures "abc@example!com" == "abc" + "@" + "example!com" {}

  lemma EdgeBangPlain() ensures PlainParts("abc", "example!com") {}

  /** With no '.' the domain is one label. */
  lemma EdgeBang()
    ensures ValidateEmail("abc@example!com") == Reject(DomainPart(DomainWithoutDot))
  {
    EdgeBangAt();
    EdgeBangPlain();
    LocalAbcOk();
    DomainBangPieces();
    DomainBangClean();
    DomainBangError();
    RunLabelsError("abc@example!com", "abc", "example!com", ["example!com"], DomainWithoutDot);
  }

  lemma EdgeNewlineLocalAt() ensures "abc\ndef@example.com" == "abc\ndef" + "@" + "example.com" {}

  lemma EdgeNewlineLocalPlain() ensures PlainParts("abc\ndef", "example.com") {}

  /** `$` lets past only a final "\n". */
  lemma EdgeNewlineLocal()
    ensures ValidateEmail("abc\ndef@example.com") == Reject(LocalPart(LocalPartInvalidCharacters))
  {
    EdgeNewlineLocalAt();
    EdgeNewlineLocalPlain();
    LocalNewlineError();
    RunLocalError("abc\ndef@example.com", "abc\ndef", "example.com", LocalPartInvalidCharacters);
  }

  lemma EdgeTrailingDotAt() ensures "user@domain." == "user" + "@" + "domain." {}

  lemma EdgeTrailingDotPlain() ensures PlainParts("user", "domain.") {}

  lemma EdgeTrailingDot()
    ensures ValidateEmail("user@domain.") == Reject(DomainPart(DomainDotAtEdge))
  {
    EdgeTrailingDotAt();
    EdgeTrailingDotPlain();
    LocalUserOk();
    DomainTrailingDotError();
    RunDomainStringError("user@domain.", "user", "domain.", DomainDotAtEdge);
  }

  lemma EdgeSimpleAt() ensures "simple@example.com" == "simple" + "@" + "example.com" {}

  lemma EdgeSimple()
    ensures ValidateEmail("simple@example.com") == ValidationResult(true, None, Components("simple", "example.com", []))
  {
    EdgeSimpleAt();
    LocalSimpleSpec();
    LocalSimplePieces();
    DomainExamplePieces();
    DomainExampleLabels();
    RunValid("simple@example.com", "simple", ["simple"], [], "example.com", ["example", "com"]);
  }

  lemma EdgeSubdomainAt() ensures "user@sub.domain.com" == "user" + "@" + "sub.domain.com" {}

  lemma EdgeSubdomain()
    ensures ValidateEmail("user@sub.domain.com") == ValidationResult(true, None, Components("user", "sub.domain.com", []))
  {
    EdgeSubdomainAt();
    LocalUserSpec();
    LocalUserPieces();
    DomainSubDomainPieces();
    DomainSubDomainLabels();
    RunValid("user@sub.domain.com", "user", ["user"], [], "sub.domain.com", ["sub", "domain", "com"]);
  }

  lemma EdgeLongUsernameAt() ensures "a.very.long.username.that.is.still.valid@example.com" == "a.very.long.username.that.is.still.valid" + "@" + "example.com" {}

  lemma EdgeLongUsername()
    ensures ValidateEmail("a.very.long.username.that.is.still.valid@example.com") == ValidationResult(true, None, Components("a.very.long.username.that.is.still.valid", "example.com", []))
  {
    EdgeLongUsernameAt();
    LocalLongNameChars();
    LocalLongNameNoDoubleDot();
    LocalSpecOf("a.very.long.username.that.is.still.valid");
    LocalLongNamePieces();
    DomainExamplePieces();
    DomainExampleLabels();
    RunValid("a.very.long.username.that.is.still.valid@example.com", "a.very.long.username.that.is.still.valid", ["a.very.long.username.that.is.still.valid"], [], "example.com", ["example", "com"]);
  }

  lemma EdgeSingleTagAt() ensures "user+single@example.com" == "user+single" + "@" + "example.com" {}

  lemma EdgeSingleTag()
    ensures ValidateEmail("user+single@example.com") == ValidationResult(true, None, Components("user+single", "example.com", ["single"]))
  {
    EdgeSingleTagAt();
    LocalSingleTagSpec();
    LocalSingleTagPieces();
    DomainExamplePieces();
    DomainExampleLabels();
    RunValid("user+single@example.com", "user+single", ["user", "single"], ["single"], "example.com", ["example", "com"]);
  }

  lemma EdgeDoubleDotLocalAt() ensures "abc..def@example.com" == "abc..def" + "@" + "example.com" {}

  lemma EdgeDoubleDotLocalPlain() ensures PlainParts("abc..def", "example.com") {}

  lemma EdgeDoubleDotLocal()
    ensures ValidateEmail("abc..def@example.com") == Reject(LocalPart(LocalPartConsecutiveDots))
  {
    EdgeDoubleDotLocalAt();
    EdgeDoubleDotLocalPlain();
    LocalAbcDoubleDotError();
    RunLocalError("abc..def@example.com", "abc..def", "example.com", LocalPartConsecutiveDots);
  }

  lemma EdgeDoubleDotDomainAt() ensures "abc@example..com" == "abc" + "@" + "example..com" {}

  lemma EdgeDoubleDotDomainPlain() ensures PlainParts("abc", "example..com") {}

  lemma EdgeDoubleDotDomain()
    ensures ValidateEmail("abc@example..com") == Reject(DomainPart(DomainConsecutiveDots))
  {
    EdgeDoubleDotDomainAt();
    EdgeDoubleDotDomainPlain();
    LocalAbcOk();
    DomainDoubleDotError();
    RunDomainStringError("abc@example..com", "abc", "example..com", DomainConsecutiveDots);
  }

  lemma EdgeLeadingDotAt() ensures ".abc@example.com" == ".abc" + "@" + "example.com" {}

  lemma EdgeLeadingDotPlain() ensures PlainParts(".abc", "example.com") {}

  lemma EdgeLeadingDot()
    ensures ValidateEmail(".abc@example.com") == Reject(LocalPart(LocalPartLeadingDot))
  {
    EdgeLeadingDotAt();
    EdgeLeadingDotPlain();
    LocalDotAbcError();
    RunLocalError(".abc@example.com", ".abc", "example.com", LocalPartLeadingDot);
  }

  lemma EdgeTrailingDotLocalAt() ensures "abc.@example.com" == "abc." + "@" + "example.com" {}

  lemma EdgeTrailingDotLocalPlain() ensures PlainParts("abc.", "example.com") {}

  lemma EdgeTrailingDotLocal()
    ensures ValidateEmail("abc.@example.com") == Reject(LocalPart(LocalPartTrailingDot))
  {
    EdgeTrailingDotLocalAt();
    EdgeTrailingDotLocalPlain();
    LocalAbcDotError();
    RunLocalError("abc.@example.com", "abc.", "example.com", LocalPartTrailingDot);
  }

  lemma EdgeMissingAtChars() ensures "abcexample.com" != [] && Plain("abcexample.com") && '@' !in "abcexample.com" {}

  lemma EdgeMissingAt()
    ensures ValidateEmail("abcexample.com") == Reject(MissingAt)
  {
    EdgeMissingAtChars();
    RunMissingAt("abcexample.com");
  }

  lemma EdgeTwoAtSignsPieces() ensures "abc@def@example.com" == "abc" + "@" + "def" + "@" + "example.com" && Plain("abc") && Plain("def") && Plain("example.com") {}

  lemma EdgeTwoAtSigns()
    ensures ValidateEmail("abc@def@example.com") == Reject(MultipleAt)
  {
    EdgeTwoAtSignsPieces();
    RunMultipleAt("abc@def@example.com", "abc", "def", "example.com");
  }

  lemma EdgeBlankLocalAt() ensures "abc def@example.com" == "abc def" + "@" + "example.com" {}

  lemma EdgeBlankLocalPlain() ensures PlainParts("abc def", "example.com") {}

  lemma EdgeBlankLocal()
    ensures ValidateEmail("abc def@example.com") == Reject(LocalPart(LocalPartInvalidCharacters))
  {
    EdgeBlankLocalAt();
    EdgeBlankLocalPlain();
    LocalAbcBlankError();
    RunLocalError("abc def@example.com", "abc def", "example.com", LocalPartInvalidCharacters);
  }

  lemma EdgeBlankDomainAt() ensures "abc@example com" == "abc" + "@" + "example com" {}

  lemma EdgeBlankDomainPlain() ensures PlainParts("abc", "example com") {}

  /** With no '.' the blank never reaches a label check: the domain is one label. */
  lemma EdgeBlankDomain()
    ensures ValidateEmail("abc@example com") == Reject(DomainPart(DomainWithoutDot))
  {
    EdgeBlankDomainAt();
    EdgeBlankDomainPlain();
    LocalAbcOk();
    DomainExampleBlankPieces();
    DomainExampleBlankClean();
    DomainExampleBlankError();
    RunLabelsError("abc@example com", "abc", "example com", ["example com"], DomainWithoutDot);
  }

  lemma EdgeNoDomainAt() ensures "username@" == "username" + "@" + "" {}

  lemma EdgeNoDomainPlain() ensures PlainParts("username", "") {}

  lemma EdgeNoDomain()
    ensures ValidateEmail("username@") == Reject(DomainPart(EmptyDomainPart))
  {
    EdgeNoDomainAt();
    EdgeNoDomainPlain();
    LocalUsernameOk();
    DomainEmptyError();
    RunDomainStringError("username@", "username", "", EmptyDomainPart);
  }

  lemma EdgeNoTopLevelAt() ensures "user@domain" == "user" + "@" + "domain" {}

  lemma EdgeNoTopLevelPlain() ensures PlainParts("user", "domain") {}

  lemma EdgeNoTopLevel()
    ensures ValidateEmail("user@domain") == Reject(DomainPart(DomainWithoutDot))
  {
    EdgeNoTopLevelAt();
    EdgeNoTopLevelPlain();
    LocalUserOk();
    DomainSinglePieces();
    DomainSingleClean();
    DomainSingleError();
    RunLabelsError("user@domain", "user", "domain", ["domain"], DomainWithoutDot);
  }

  lemma EdgeLeadingHyphenAt() ensures "user@-domain.com" == "user" + "@" + "-domain.com" {}

  lemma EdgeLeadingHyphenPlain() ensures PlainParts("user", "-domain.com") {}

  lemma EdgeLeadingHyphen()
    ensures ValidateEmail("user@-domain.com") == Reject(DomainPart(DomainHyphenAtEdge))
  {
    EdgeLeadingHyphenAt();
    EdgeLeadingHyphenPlain();
    LocalUserOk();
    DomainHyphenFirstError();
    RunDomainStringError("user@-domain.com", "user", "-domain.com", DomainHyphenAtEdge);
  }

  lemma EdgeTrailingHyphenLabelAt() ensures "user@domain-.com" == "user" + "@" + "domain-.com" {}

  lemma EdgeTrailingHyphenLabelPlain() ensures PlainParts("user", "domain-.com") {}

  lemma EdgeTrailingHyphenLabel()
    ensures ValidateEmail("user@domain-.com") == Reject(DomainPart(LabelHyphenAtEdge("domain-")))
  {
    EdgeTrailingHyphenLabelAt();
    EdgeTrailingHyphenLabelPlain();
    LocalUserOk();
    DomainHyphenLastPieces();
    DomainHyphenLastClean();
    DomainHyphenLastError();
    RunLabelsError("user@domain-.com", "user", "domain-.com", ["domain-", "com"], LabelHyphenAtEdge("domain-"));
  }

  lemma EdgeQuotedSpan() ensures AllAscii("\"quoted\"@example.com") && QuotedSpan("\"quoted\"@example.com", 0, 7) {}

  lemma EdgeQuoted()
    ensures ValidateEmail("\"quoted\"@example.com") == Reject(QuotedString)
  {
    EdgeQuotedSpan();
    RunQuoted("\"quoted\"@example.com", 0, 7);
  }

  lemma DomainNewlineLabelAt() ensures "u@a\n.com" == "u" + "@" + "a\n.com" {}

  lemma DomainNewlineLabelPlain() ensures PlainParts("u", "a\n.com") {}

  lemma DomainNewlineLabelPieces() ensures PieceLayout("a\n.com", ["a\n", "com"], '.') {}

  lemma DomainNewlineLabelChecks()
    ensures DomainStringError("a\n.com").None?
    ensures CheckLabels("a\n.com", ["a\n", "com"]) == Some(DomainWhitespace)
  {
    assert LabelBody("a") && LabelBody("com");
    assert "a\n"[..1] == "a";
  }

  /**
    A "\n" that ends a label other than the last passes that label's pattern,
    so the whitespace check of the domain is reached.
   */
  lemma DomainNewlineLabel()
    ensures ValidateEmail("u@a\n.com") == Reject(DomainPart(DomainWhitespace))
  {
    DomainNewlineLabelAt();
    DomainNewlineLabelPlain();
    DomainNewlineLabelPieces();
    DomainNewlineLabelChecks();
    assert ValidateLocalPart("u").None?;
    RunLabelsError("u@a\n.com", "u", "a\n.com", ["a\n", "com"], DomainWhitespace);
  }
}
