/**
  The cases the first validator's own test functions check, each derived from
  the general lemmas: an address is described by its pieces (`Layout`), the
  validator's result on such an address is `Outcome` of the pieces, and each
  case instantiates both on its literals.
 */
module C1Examples {
  import opened Text
  import opened LabelLists
  import opened C1

  /** The local part `l` written as the `'+'`-join of `lparts`, all of it in the pattern's first group. */
  predicate LocalLayout(l: string, lparts: seq<string>) {
    && |lparts| >= 1 && Join(lparts, '+') == l && (forall k :: 0 <= k < |lparts| ==> '+' !in lparts[k])
    && l != [] && AllLocalChars(l)
  }

  /** The domain `d` written as the `'.'`-join of `labels`, all of it in the pattern's second group. */
  predicate DomainLayout(d: string, labels: seq<string>) {
    && |labels| >= 2 && Join(labels, '.') == d && (forall k :: 0 <= k < |labels| ==> '.' !in labels[k])
    && labels[0] != [] && AllDomainChars(d) && TopLevelLabel(labels[|labels| - 1])
  }

  /** `email` is `core` between blank `pre` and `post`. */
  predicate Surrounded(email: string, pre: string, core: string, post: string) {
    email == pre + core + post && AllSpace(pre) && AllSpace(post)
  }

  /** `email` is `pre + l + "@" + d + post` with blank `pre` and `post` and both groups laid out. */
  predicate Layout(email: string, pre: string, l: string, lparts: seq<string>, d: string, labels: seq<string>, post: string) {
    Surrounded(email, pre, l + "@" + d, post) && LocalLayout(l, lparts) && DomainLayout(d, labels)
  }

  /** A laid-out local part whose first piece is not empty and whose other pieces are `tags`. */
  predicate TaggedLocal(l: string, lparts: seq<string>, tags: seq<string>) {
    LocalLayout(l, lparts) && lparts[0] != [] && lparts[1..] == tags
  }

  /** A laid-out domain that passes the length, empty-label, depth and label checks. */
  predicate ValidDomain(d: string, labels: seq<string>) {
    && DomainLayout(d, labels) && |d| <= 255
    && NoEmptyPiece(labels) && |labels| <= 10 && FirstMismatch(labels).None?
  }

  /** The checks after the pattern match, read on the pieces instead of on `split`. */
  function Outcome(l: string, lparts: seq<string>, d: string, labels: seq<string>): ValidationResult
    requires |lparts| >= 1
  {
    if |d| > 255 then Reject(DomainTooLong)
    else if !NoEmptyPiece(labels) then Reject(InvalidDomainFormat)
    else if |labels| > 10 then Reject(SubdomainDepthExceeded)
    else match FirstMismatch(labels)
      case Some(part) => Reject(InvalidSubdomain(part))
      case None =>
        if lparts[0] == [] then Reject(LocalStartsWithPlus)
        else ValidationResult(true, None, Some(Components(l, d, lparts[1..])))
  }

  lemma {:induction false} JoinStartsWithFirst(labels: seq<string>, c: char)
    requires |labels| >= 2 && labels[0] != []
    ensures var j := Join(labels, c); j != [] && j[0] == labels[0][0]
  {
    assert Join(labels, c) == labels[0] + [c] + Join(labels[1..], c);
  }

  /** The labels put together match the domain group of the pattern. */
  lemma {:induction false} LabelsMatchDomainGroup(d: string, labels: seq<string>)
    requires DomainLayout(d, labels)
    ensures DomainGroupMatch(d)
  {
    LastLabelAfterLastDot(d, labels);
    JoinStartsWithFirst(labels, '.');
    assert d[0] != '.' by {
      assert d[0] == labels[0][0];
    }
  }

  lemma {:induction false} LastLabelAfterLastDot(d: string, labels: seq<string>)
    requires |labels| >= 2 && Join(labels, '.') == d && (forall k :: 0 <= k < |labels| ==> '.' !in labels[k])
    ensures 0 <= RFind(d, '.') && d[RFind(d, '.') + 1..] == labels[|labels| - 1]
  {
    SplitJoin(labels, '.');
    SplitCount(d, '.');
    SplitLastAfterRFind(d, '.');
  }

  lemma {:induction false} LayoutStrip(email: string, pre: string, l: string, lparts: seq<string>, d: string, labels: seq<string>, post: string)
    requires Layout(email, pre, l, lparts, d, labels, post)
    ensures DomainGroupMatch(d) && Strip(email) == l + "@" + d
  {
    LabelsMatchDomainGroup(d, labels);
    DomainGroupEndsInLetter(d);
    var core := l + "@" + d;
    assert core[0] == l[0] && core[|core| - 1] == d[|d| - 1];
    StripSurrounded(pre, core, post);
  }

  /** What the validator returns for an address laid out by its pieces. */
  lemma {:induction false} LayoutOutcome(email: string, pre: string, l: string, lparts: seq<string>, d: string, labels: seq<string>, post: string)
    requires Layout(email, pre, l, lparts, d, labels, post)
    ensures ValidateEmail(email) == Outcome(l, lparts, d, labels)
  {
    LayoutStrip(email, pre, l, lparts, d, labels, post);
    ValidateEmailGroups(email, l, d);
    SplitJoin(labels, '.');
    SplitJoin(lparts, '+');
    GroupsOutcome(l, lparts, d, labels);
  }

  lemma {:induction false} GroupsOutcome(l: string, lparts: seq<string>, d: string, labels: seq<string>)
    requires l != [] && Split(l, '+') == lparts && Split(d, '.') == labels
    ensures CheckGroups(l, d) == Outcome(l, lparts, d, labels)
  {
    assert (if |lparts| > 1 then lparts[1..] else []) == lparts[1..];
  }

  /** A blank-free address whose last character is not a letter, or that holds no '.', fails the pattern. */
  lemma {:induction false} Unpatterned(email: string)
    requires email != [] && !IsSpace(email[0]) && !IsSpace(email[|email| - 1])
    requires '.' !in email || !IsAsciiLetter(email[|email| - 1])
    ensures ValidateEmail(email) == Reject(InvalidFormat)
  {
    StripUnchanged(email);
    assert DropFinalNewline(email) == email;
    var at := Find(email, '@');
    if 1 <= at < |email| {
      var dom := email[at + 1..];
      if dom != [] {
        assert dom[|dom| - 1] == email[|email| - 1];
      }
      assert forall k :: 0 <= k < |dom| ==> dom[k] == email[at + 1 + k];
      NotDomainGroup(dom);
    }
  }

  lemma {:induction false} NotDomainGroup(d: string)
    requires d == [] || '.' !in d || !IsAsciiLetter(d[|d| - 1])
    ensures !DomainGroupMatch(d)
  {
    if DomainGroupMatch(d) {
      DomainGroupEndsInLetter(d);
    }
  }

  /** Joining domain-class pieces with '.' gives domain-class text. */
  lemma {:induction false} JoinDomainChars(labels: seq<string>)
    requires forall k :: 0 <= k < |labels| ==> AllDomainChars(labels[k])
    ensures AllDomainChars(Join(labels, '.'))
    decreases |labels|
  {
    if |labels| > 1 {
      JoinDomainChars(labels[1..]);
      var rest := Join(labels[1..], '.');
      var j := Join(labels, '.');
      assert j == labels[0] + ['.'] + rest;
      forall i | 0 <= i < |j|
        ensures IsDomainChar(j[i])
      {
        if i < |labels[0]| {
          assert j[i] == labels[0][i];
        } else if i > |labels[0]| {
          assert j[i] == rest[i - |labels[0]| - 1];
        }
      }
    }
  }

  /** Two or more DNS labels ending in a letters-only label make a domain the label checks pass. */
  lemma {:induction false} DnsLabelsLayout(d: string, labels: seq<string>)
    requires |labels| >= 2 && Join(labels, '.') == d
    requires AllDnsLabels(labels) && TopLevelLabel(labels[|labels| - 1])
    ensures DomainLayout(d, labels) && NoEmptyPiece(labels) && FirstMismatch(labels).None?
  {
    forall k | 0 <= k < |labels|
      ensures AllDomainChars(labels[k]) && '.' !in labels[k] && SubdomainMatch(labels[k])
    {
      forall j | 0 <= j < |labels[k]|
        ensures IsAlnum(labels[k][j]) || labels[k][j] == '-'
      {
        DnsLabelChars(labels[k], j);
      }
    }
    JoinDomainChars(labels);
  }

  // ---------------------------------------------------------------------------
  // Each outcome of a laid-out address, from the facts its pieces give
  // ---------------------------------------------------------------------------

  lemma {:induction false} RunValid(email: string, pre: string, l: string, lparts: seq<string>, tags: seq<string>, d: string, labels: seq<string>, post: string)
    requires Surrounded(email, pre, l + "@" + d, post) && TaggedLocal(l, lparts, tags) && ValidDomain(d, labels)
    ensures ValidateEmail(email) == ValidationResult(true, None, Some(Components(l, d, tags)))
  {
    LayoutOutcome(email, pre, l, lparts, d, labels, post);
  }

  lemma {:induction false} RunPlusFirst(email: string, pre: string, l: string, lparts: seq<string>, d: string, labels: seq<string>, post: string)
    requires Surrounded(email, pre, l + "@" + d, post) && LocalLayout(l, lparts) && lparts[0] == [] && ValidDomain(d, labels)
    ensures ValidateEmail(email) == Reject(LocalStartsWithPlus)
  {
    LayoutOutcome(email, pre, l, lparts, d, labels, post);
  }

  lemma {:induction false} RunDomainTooLong(email: string, pre: string, l: string, lparts: seq<string>, d: string, labels: seq<string>, post: string)
    requires Surrounded(email, pre, l + "@" + d, post) && LocalLayout(l, lparts) && DomainLayout(d, labels) && |d| > 255
    ensures ValidateEmail(email) == Reject(DomainTooLong)
  {
    LayoutOutcome(email, pre, l, lparts, d, labels, post);
  }

  lemma {:induction false} RunEmptyLabel(email: string, pre: string, l: string, lparts: seq<string>, d: string, labels: seq<string>, post: string)
    requires Surrounded(email, pre, l + "@" + d, post) && LocalLayout(l, lparts) && DomainLayout(d, labels)
    requires |d| <= 255 && !NoEmptyPiece(labels)
    ensures ValidateEmail(email) == Reject(InvalidDomainFormat)
  {
    LayoutOutcome(email, pre, l, lparts, d, labels, post);
  }

  lemma {:induction false} RunBadLabel(email: string, pre: string, l: string, lparts: seq<string>, d: string, labels: seq<string>, post: string, part: string)
    requires Surrounded(email, pre, l + "@" + d, post) && LocalLayout(l, lparts) && DomainLayout(d, labels)
    requires |d| <= 255 && NoEmptyPiece(labels) && |labels| <= 10 && FirstMismatch(labels) == Some(part)
    ensures ValidateEmail(email) == Reject(InvalidSubdomain(part))
  {
    LayoutOutcome(email, pre, l, lparts, d, labels, post);
  }

  /** The depth limit of the domain tests, stated for every layout: eleven or more non-empty labels. */
  lemma {:induction false} RunTooDeep(email: string, pre: string, l: string, lparts: seq<string>, d: string, labels: seq<string>, post: string)
    requires Surrounded(email, pre, l + "@" + d, post) && LocalLayout(l, lparts) && DomainLayout(d, labels)
    requires |d| <= 255 && NoEmptyPiece(labels) && |labels| > 10
    ensures ValidateEmail(email) == Reject(SubdomainDepthExceeded)
  {
    LayoutOutcome(email, pre, l, lparts, d, labels, post);
  }

  // ---------------------------------------------------------------------------
  // test_invalid_emails
  // ---------------------------------------------------------------------------

  lemma EmptyInput()
    ensures ValidateEmail("") == Reject(EmptyAddress)
  {
  }

  lemma OnlyAtSign()
    ensures ValidateEmail("@") == Reject(InvalidFormat)
  {
    Unpatterned("@");
  }

  lemma MissingDomain()
    ensures ValidateEmail("user@") == Reject(InvalidFormat)
  {
    Unpatterned("user@");
  }

  lemma MissingTopLevel()
    ensures ValidateEmail("user@domain") == Reject(InvalidFormat)
  {
    Unpatterned("user@domain");
  }

  /** The test labels this case "Invalid domain format"; the pattern already rejects it. */
  lemma TrailingDot()
    ensures ValidateEmail("user@domain.") == Reject(InvalidFormat)
  {
    Unpatterned("user@domain.");
  }

  // ---------------------------------------------------------------------------
  // The local parts and domains of the cases
  // ---------------------------------------------------------------------------

  lemma LocalUser() ensures TaggedLocal("user", ["user"], []) && LocalLayout("user", ["user"]) {}
  lemma LocalUserName() ensures TaggedLocal("user.name", ["user.name"], []) {}
  lemma LocalUserTag() ensures TaggedLocal("user+tag", ["user", "tag"], ["tag"]) {}
  lemma LocalU() ensures TaggedLocal("u", ["u"], []) {}
  lemma LocalTwoTags() ensures TaggedLocal("user+tag1+tag2", ["user", "tag1", "tag2"], ["tag1", "tag2"]) {}
  lemma LocalSingle() ensures TaggedLocal("user+single", ["user", "single"], ["single"]) {}
  lemma LocalThreeTags() ensures TaggedLocal("user+a+b+c", ["user", "a", "b", "c"], ["a", "b", "c"]) {}
  lemma LocalPlusFirst() ensures LocalLayout("+tag", ["", "tag"]) && ["", "tag"][0] == [] {}

  lemma DomainCom() ensures ValidDomain("domain.com", ["domain", "com"]) {
    DnsLabelsLayout("domain.com", ["domain", "com"]);
  }

  lemma DomainMail() ensures ValidDomain("mail.domain.com", ["mail", "domain", "com"]) {
    DnsLabelsLayout("mail.domain.com", ["mail", "domain", "com"]);
  }

  lemma DomainAbcJoin() ensures Join(["a", "b", "c", "domain", "com"], '.') == "a.b.c.domain.com" {}
  lemma DomainAbcLabels() ensures AllDnsLabels(["a", "b", "c", "domain", "com"]) && TopLevelLabel("com") {}

  lemma DomainAbc() ensures ValidDomain("a.b.c.domain.com", ["a", "b", "c", "domain", "com"]) {
    DomainAbcJoin();
    DomainAbcLabels();
    DnsLabelsLayout("a.b.c.domain.com", ["a", "b", "c", "domain", "com"]);
  }

  lemma DomainIo() ensures ValidDomain("d.io", ["d", "io"]) {
    DnsLabelsLayout("d.io", ["d", "io"]);
  }

  lemma DomainSub() ensures ValidDomain("sub-domain.domain.com", ["sub-domain", "domain", "com"]) {
    DnsLabelsLayout("sub-domain.domain.com", ["sub-domain", "domain", "com"]);
  }

  /** 240 'a's and ".com": 244 characters. */
  lemma DomainLong() ensures ValidDomain(seq(240, _ => 'a') + ".com", [seq(240, _ => 'a'), "com"]) {
    DnsLabelsLayout(seq(240, _ => 'a') + ".com", [seq(240, _ => 'a'), "com"]);
  }

  /** 252 'a's and ".com": 256 characters. */
  lemma DomainTooLongLayout()
    ensures DomainLayout(seq(252, _ => 'a') + ".com", [seq(252, _ => 'a'), "com"]) && |seq(252, _ => 'a') + ".com"| > 255
  {
    DnsLabelsLayout(seq(252, _ => 'a') + ".com", [seq(252, _ => 'a'), "com"]);
  }

  // Long label lists are written as two runs so that no single fact joins them all.

  lemma TenLevelsBackJoin() ensures Join(["f", "g", "h", "i", "com"], '.') == "f.g.h.i.com" {}
  lemma TenLevelsText() ensures "a.b.c.d.e" + "." + "f.g.h.i.com" == "a.b.c.d.e.f.g.h.i.com" {}

  lemma TenLevelsJoin() ensures Join(["a", "b", "c", "d", "e"] + ["f", "g", "h", "i", "com"], '.') == "a.b.c.d.e.f.g.h.i.com" {
    FirstFiveJoin();
    TenLevelsBackJoin();
    TenLevelsText();
    JoinConcat(["a", "b", "c", "d", "e"], ["f", "g", "h", "i", "com"], '.');
  }

  lemma TenLevelsLabels() ensures AllDnsLabels(["a", "b", "c", "d", "e"] + ["f", "g", "h", "i", "com"]) && TopLevelLabel("com") {}

  lemma DomainTenLevels() ensures ValidDomain("a.b.c.d.e.f.g.h.i.com", ["a", "b", "c", "d", "e"] + ["f", "g", "h", "i", "com"]) {
    TenLevelsJoin();
    TenLevelsLabels();
    DnsLabelsLayout("a.b.c.d.e.f.g.h.i.com", ["a", "b", "c", "d", "e"] + ["f", "g", "h", "i", "com"]);
  }

  lemma ElevenLevelsLabels() ensures AllDnsLabels(["a", "b", "c", "d", "e"] + ["f", "g", "h", "i", "j", "com"]) && TopLevelLabel("com") {}

  lemma DomainElevenLevels()
    ensures var labels := ["a", "b", "c", "d", "e"] + ["f", "g", "h", "i", "j", "com"];
      DomainLayout("a.b.c.d.e.f.g.h.i.j.com", labels) && |"a.b.c.d.e.f.g.h.i.j.com"| <= 255 && NoEmptyPiece(labels) && |labels| > 10
  {
    ElevenLevelsJoin();
    ElevenLevelsLabels();
    DnsLabelsLayout("a.b.c.d.e.f.g.h.i.j.com", ["a", "b", "c", "d", "e"] + ["f", "g", "h", "i", "j", "com"]);
  }

  lemma DomainDoubleDot()
    ensures DomainLayout("domain..com", ["domain", "", "com"]) && |"domain..com"| <= 255 && !NoEmptyPiece(["domain", "", "com"])
  {
  }

  lemma DomainLeadingHyphen()
    ensures var labels := ["-invalid", "domain", "com"];
      && DomainLayout("-invalid.domain.com", labels) && |"-invalid.domain.com"| <= 255
      && NoEmptyPiece(labels) && |labels| <= 10 && FirstMismatch(labels) == Some("-invalid")
  {
  }

  lemma DomainTrailingHyphen()
    ensures var labels := ["invalid-", "domain", "com"];
      && DomainLayout("invalid-.domain.com", labels) && |"invalid-.domain.com"| <= 255
      && NoEmptyPiece(labels) && |labels| <= 10 && FirstMismatch(labels) == Some("invalid-")
  {
  }

  // ---------------------------------------------------------------------------
  // test_valid_emails
  // ---------------------------------------------------------------------------

  lemma ValidPlainSurround() ensures Surrounded("user@domain.com", "", "user" + "@" + "domain.com", "") {}

  lemma ValidPlain()
    ensures ValidateEmail("user@domain.com") == ValidationResult(true, None, Some(Components("user", "domain.com", [])))
  {
    ValidPlainSurround();
    LocalUser();
    DomainCom();
    RunValid("user@domain.com", "", "user", ["user"], [], "domain.com", ["domain", "com"], "");
  }

  lemma ValidDottedLocalSurround() ensures Surrounded("user.name@domain.com", "", "user.name" + "@" + "domain.com", "") {}

  lemma ValidDottedLocal()
    ensures ValidateEmail("user.name@domain.com") == ValidationResult(true, None, Some(Components("user.name", "domain.com", [])))
  {
    ValidDottedLocalSurround();
    LocalUserName();
    DomainCom();
    RunValid("user.name@domain.com", "", "user.name", ["user.name"], [], "domain.com", ["domain", "com"], "");
  }

  lemma ValidOneTagSurround() ensures Surrounded("user+tag@domain.com", "", "user+tag" + "@" + "domain.com", "") {}

  lemma ValidOneTag()
    ensures ValidateEmail("user+tag@domain.com") == ValidationResult(true, None, Some(Components("user+tag", "domain.com", ["tag"])))
  {
    ValidOneTagSurround();
    LocalUserTag();
    DomainCom();
    RunValid("user+tag@domain.com", "", "user+tag", ["user", "tag"], ["tag"], "domain.com", ["domain", "com"], "");
  }

  lemma ValidMailSubdomainSurround() ensures Surrounded("user@mail.domain.com", "", "user" + "@" + "mail.domain.com", "") {}

  lemma ValidMailSubdomain()
    ensures ValidateEmail("user@mail.domain.com") == ValidationResult(true, None, Some(Components("user", "mail.domain.com", [])))
  {
    ValidMailSubdomainSurround();
    LocalUser();
    DomainMail();
    RunValid("user@mail.domain.com", "", "user", ["user"], [], "mail.domain.com", ["mail", "domain", "com"], "");
  }

  lemma ValidManyLabelsSurround() ensures Surrounded("user@a.b.c.domain.com", "", "user" + "@" + "a.b.c.domain.com", "") {}

  lemma ValidManyLabels()
    ensures ValidateEmail("user@a.b.c.domain.com") == ValidationResult(true, None, Some(Components("user", "a.b.c.domain.com", [])))
  {
    ValidManyLabelsSurround();
    LocalUser();
    DomainAbc();
    RunValid("user@a.b.c.domain.com", "", "user", ["user"], [], "a.b.c.domain.com", ["a", "b", "c", "domain", "com"], "");
  }

  lemma ValidShortestSurround() ensures Surrounded("u@d.io", "", "u" + "@" + "d.io", "") {}

  lemma ValidShortest()
    ensures ValidateEmail("u@d.io") == ValidationResult(true, None, Some(Components("u", "d.io", [])))
  {
    ValidShortestSurround();
    LocalU();
    DomainIo();
    RunValid("u@d.io", "", "u", ["u"], [], "d.io", ["d", "io"], "");
  }

  lemma ValidHyphenSubdomainSurround() ensures Surrounded("user+tag@sub-domain.domain.com", "", "user+tag" + "@" + "sub-domain.domain.com", "") {}

  lemma ValidHyphenSubdomain()
    ensures ValidateEmail("user+tag@sub-domain.domain.com") == ValidationResult(true, None, Some(Components("user+tag", "sub-domain.domain.com", ["tag"])))
  {
    ValidHyphenSubdomainSurround();
    LocalUserTag();
    DomainSub();
    RunValid("user+tag@sub-domain.domain.com", "", "user+tag", ["user", "tag"], ["tag"], "sub-domain.domain.com", ["sub-domain", "domain", "com"], "");
  }

  // ---------------------------------------------------------------------------
  // test_plus_addressing
  // ---------------------------------------------------------------------------

  lemma TwoTagsSurround() ensures Surrounded("user+tag1+tag2@domain.com", "", "user+tag1+tag2" + "@" + "domain.com", "") {}

  lemma TwoTags()
    ensures ValidateEmail("user+tag1+tag2@domain.com") == ValidationResult(true, None, Some(Components("user+tag1+tag2", "domain.com", ["tag1", "tag2"])))
  {
    TwoTagsSurround();
    LocalTwoTags();
    DomainCom();
    RunValid("user+tag1+tag2@domain.com", "", "user+tag1+tag2", ["user", "tag1", "tag2"], ["tag1", "tag2"], "domain.com", ["domain", "com"], "");
  }

  lemma SingleTagSurround() ensures Surrounded("user+single@domain.com", "", "user+single" + "@" + "domain.com", "") {}

  lemma SingleTag()
    ensures ValidateEmail("user+single@domain.com") == ValidationResult(true, None, Some(Components("user+single", "domain.com", ["single"])))
  {
    SingleTagSurround();
    LocalSingle();
    DomainCom();
    RunValid("user+single@domain.com", "", "user+single", ["user", "single"], ["single"], "domain.com", ["domain", "com"], "");
  }

  lemma ThreeTagsSurround() ensures Surrounded("user+a+b+c@domain.com", "", "user+a+b+c" + "@" + "domain.com", "") {}

  lemma ThreeTags()
    ensures ValidateEmail("user+a+b+c@domain.com") == ValidationResult(true, None, Some(Components("user+a+b+c", "domain.com", ["a", "b", "c"])))
  {
    ThreeTagsSurround();
    LocalThreeTags();
    DomainCom();
    RunValid("user+a+b+c@domain.com", "", "user+a+b+c", ["user", "a", "b", "c"], ["a", "b", "c"], "domain.com", ["domain", "com"], "");
  }

  // ---------------------------------------------------------------------------
  // test_domain_limits
  // ---------------------------------------------------------------------------

  lemma LongDomainSurround() ensures Surrounded("user@" + seq(240, _ => 'a') + ".com", "", "user" + "@" + seq(240, _ => 'a') + ".com", "") {}

  /** A 244-character domain is within the limit. */
  lemma LongDomain()
    ensures ValidateEmail("user@" + seq(240, _ => 'a') + ".com") == ValidationResult(true, None, Some(Components("user", seq(240, _ => 'a') + ".com", [])))
  {
    LongDomainSurround();
    LocalUser();
    DomainLong();
    RunValid("user@" + seq(240, _ => 'a') + ".com", "", "user", ["user"], [], seq(240, _ => 'a') + ".com", [seq(240, _ => 'a'), "com"], "");
  }

  lemma TooLongDomainSurround() ensures Surrounded("user@" + seq(252, _ => 'a') + ".com", "", "user" + "@" + seq(252, _ => 'a') + ".com", "") {}

  /** A 256-character domain is over the limit. */
  lemma TooLongDomain()
    ensures ValidateEmail("user@" + seq(252, _ => 'a') + ".com") == Reject(DomainTooLong)
  {
    TooLongDomainSurround();
    LocalUser();
    DomainTooLongLayout();
    RunDomainTooLong("user@" + seq(252, _ => 'a') + ".com", "", "user", ["user"], seq(252, _ => 'a') + ".com", [seq(252, _ => 'a'), "com"], "");
  }

  lemma TenLevelsSurround() ensures Surrounded("user@a.b.c.d.e.f.g.h.i.com", "", "user" + "@" + "a.b.c.d.e.f.g.h.i.com", "") {}

  /** Ten labels are the most allowed. */
  lemma TenLevels()
    ensures ValidateEmail("user@a.b.c.d.e.f.g.h.i.com") == ValidationResult(true, None, Some(Components("user", "a.b.c.d.e.f.g.h.i.com", [])))
  {
    TenLevelsSurround();
    LocalUser();
    DomainTenLevels();
    RunValid("user@a.b.c.d.e.f.g.h.i.com", "", "user", ["user"], [], "a.b.c.d.e.f.g.h.i.com", ["a", "b", "c", "d", "e"] + ["f", "g", "h", "i", "com"], "");
  }

  lemma ElevenLevelsSurround() ensures Surrounded("user@a.b.c.d.e.f.g.h.i.j.com", "", "user" + "@" + "a.b.c.d.e.f.g.h.i.j.com", "") {}

  /** Eleven labels are one too many. */
  lemma ElevenLevels()
    ensures ValidateEmail("user@a.b.c.d.e.f.g.h.i.j.com") == Reject(SubdomainDepthExceeded)
  {
    ElevenLevelsSurround();
    LocalUser();
    DomainElevenLevels();
    RunTooDeep("user@a.b.c.d.e.f.g.h.i.j.com", "", "user", ["user"], "a.b.c.d.e.f.g.h.i.j.com", ["a", "b", "c", "d", "e"] + ["f", "g", "h", "i", "j", "com"], "");
  }

  // ---------------------------------------------------------------------------
  // test_edge_cases
  // ---------------------------------------------------------------------------

  lemma PlusFirstSurround() ensures Surrounded("+tag@domain.com", "", "+tag" + "@" + "domain.com", "") {}

  lemma PlusFirst()
    ensures ValidateEmail("+tag@domain.com") == Reject(LocalStartsWithPlus)
  {
    PlusFirstSurround();
    LocalPlusFirst();
    DomainCom();
    RunPlusFirst("+tag@domain.com", "", "+tag", ["", "tag"], "domain.com", ["domain", "com"], "");
  }

  lemma ConsecutiveDotsSurround() ensures Surrounded("user@domain..com", "", "user" + "@" + "domain..com", "") {}

  lemma ConsecutiveDots()
    ensures ValidateEmail("user@domain..com") == Reject(InvalidDomainFormat)
  {
    ConsecutiveDotsSurround();
    LocalUser();
    DomainDoubleDot();
    RunEmptyLabel("user@domain..com", "", "user", ["user"], "domain..com", ["domain", "", "com"], "");
  }

  lemma LeadingHyphenSurround() ensures Surrounded("user@-invalid.domain.com", "", "user" + "@" + "-invalid.domain.com", "") {}

  lemma LeadingHyphen()
    ensures ValidateEmail("user@-invalid.domain.com") == Reject(InvalidSubdomain("-invalid"))
  {
    LeadingHyphenSurround();
    LocalUser();
    DomainLeadingHyphen();
    RunBadLabel("user@-invalid.domain.com", "", "user", ["user"], "-invalid.domain.com", ["-invalid", "domain", "com"], "", "-invalid");
  }

  lemma TrailingHyphenSurround() ensures Surrounded("user@invalid-.domain.com", "", "user" + "@" + "invalid-.domain.com", "") {}

  lemma TrailingHyphen()
    ensures ValidateEmail("user@invalid-.domain.com") == Reject(InvalidSubdomain("invalid-"))
  {
    TrailingHyphenSurround();
    LocalUser();
    DomainTrailingHyphen();
    RunBadLabel("user@invalid-.domain.com", "", "user", ["user"], "invalid-.domain.com", ["invalid-", "domain", "com"], "", "invalid-");
  }

  lemma TrimmedSurround() ensures Surrounded("  user@domain.com  ", "  ", "user" + "@" + "domain.com", "  ") {}

  /** Surrounding blanks are stripped before the pattern is applied. */
  lemma Trimmed()
    ensures ValidateEmail("  user@domain.com  ") == ValidationResult(true, None, Some(Components("user", "domain.com", [])))
  {
    TrimmedSurround();
    LocalUser();
    DomainCom();
    RunValid("  user@domain.com  ", "  ", "user", ["user"], [], "domain.com", ["domain", "com"], "  ");
  }
}
