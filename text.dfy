/**
  Character classes and the Python string operations (`str.find`, `str.count`,
  `str.split`, `str.join`, `str.strip`, `in`) that both email validators are
  built from. Strings are sequences of Unicode scalar values, as Python `str`
  values are sequences of code points.
 */
module Text {

  datatype Option<T> = None | Some(value: T)

  // ---------------------------------------------------------------------------
  // Character classes (the bracket expressions of the validators' patterns)
  // ---------------------------------------------------------------------------

  /** `str.isspace()` on ASCII: space, \t \n \v \f \r and the separators 0x1C-0x1F. */
  predicate IsSpace(c: char) {
    c == ' ' || 9 <= c as int <= 13 || 28 <= c as int <= 31
  }

  /** `[a-zA-Z]` */
  predicate IsAsciiLetter(c: char) {
    'a' <= c <= 'z' || 'A' <= c <= 'Z'
  }

  /** `[0-9]` */
  predicate IsDigit(c: char) {
    '0' <= c <= '9'
  }

  /** `[a-zA-Z0-9]` */
  predicate IsAlnum(c: char) {
    IsAsciiLetter(c) || IsDigit(c)
  }

  /** `[a-zA-Z0-9._+-]`, the local-part class of both validators. */
  predicate IsLocalChar(c: char) {
    IsAlnum(c) || c == '.' || c == '_' || c == '+' || c == '-'
  }

  predicate AllLocalChars(s: string) {
    forall k :: 0 <= k < |s| ==> IsLocalChar(s[k])
  }

  predicate AllLetters(s: string) {
    forall k :: 0 <= k < |s| ==> IsAsciiLetter(s[k])
  }

  predicate AllSpace(s: string) {
    forall k :: 0 <= k < |s| ==> IsSpace(s[k])
  }

  /**
    Python's `re.match(pattern, s)` for a pattern `^body$`: without the
    MULTILINE flag `$` matches at the end of the string and also just before a
    final newline, so `s` matches when `body` accepts all of `s` or all of `s`
    but a trailing "\n".
   */
  predicate AnchoredMatch(body: string -> bool, s: string) {
    body(s) || (|s| > 0 && s[|s| - 1] == '\n' && body(s[..|s| - 1]))
  }

  // ---------------------------------------------------------------------------
  // Searching
  // ---------------------------------------------------------------------------

  /** `a + b in s`: the two-character substring occurs in `s`. */
  predicate HasPair(s: string, a: char, b: char) {
    exists k :: 0 <= k < |s| - 1 && s[k] == a && s[k + 1] == b
  }

  predicate StartsWith(s: string, c: char) {
    |s| > 0 && s[0] == c
  }

  predicate EndsWith(s: string, c: char) {
    |s| > 0 && s[|s| - 1] == c
  }

  /** `sub` occurs in `s` starting at index `k`. */
  predicate OccursAt(s: string, sub: string, k: int) {
    0 <= k && k + |sub| <= |s| && s[k..k + |sub|] == sub
  }

  /** `sub in s` for a substring of any length. */
  predicate Contains(s: string, sub: string) {
    exists k :: 0 <= k <= |s| - |sub| && OccursAt(s, sub, k)
  }

  /** The index of the first `c` in `s`, or `|s|` when there is none. */
  function Find(s: string, c: char): (i: nat)
    ensures i <= |s|
    ensures i < |s| ==> s[i] == c
    ensures forall k :: 0 <= k < i ==> s[k] != c
  {
    if s == [] || s[0] == c then 0 else 1 + Find(s[1..], c)
  }

  /** The index of the last `c` in `s`, or -1 when there is none (`str.rfind`). */
  function RFind(s: string, c: char): (i: int)
    ensures -1 <= i < |s|
    ensures 0 <= i ==> s[i] == c
    ensures forall k :: i < k < |s| ==> s[k] != c
  {
    if s == [] then -1
    else if s[|s| - 1] == c then |s| - 1
    else RFind(s[..|s| - 1], c)
  }

  /** `s.count(c)` */
  function Count(s: string, c: char): (n: nat)
    ensures (n == 0) == (c !in s)
  {
    if s == [] then 0 else (if s[0] == c then 1 else 0) + Count(s[1..], c)
  }

  lemma {:induction false} CountConcat(a: string, b: string, c: char)
    ensures Count(a + b, c) == Count(a, c) + Count(b, c)
    decreases |a|
  {
    if a == [] {
      assert a + b == b;
    } else {
      assert (a + b)[1..] == a[1..] + b;
      CountConcat(a[1..], b, c);
    }
  }

  // ---------------------------------------------------------------------------
  // Splitting and joining
  // ---------------------------------------------------------------------------

  /**
    `s.split(c)` for a one-character separator: the maximal pieces between
    separators, in order; an empty string gives `[""]`.
   */
  function Split(s: string, c: char): (r: seq<string>)
    ensures |r| >= 1
    ensures forall k :: 0 <= k < |r| ==> c !in r[k]
    decreases |s|
  {
    var i := Find(s, c);
    if i == |s| then [s] else [s[..i]] + Split(s[i + 1..], c)
  }

  /** There is one more piece than there are separators. */
  lemma {:induction false} SplitCount(s: string, c: char)
    ensures |Split(s, c)| == Count(s, c) + 1
    decreases |s|
  {
    var i := Find(s, c);
    if i < |s| {
      assert s == s[..i] + ([c] + s[i + 1..]);
      CountConcat(s[..i], [c] + s[i + 1..], c);
      CountConcat([c], s[i + 1..], c);
      SplitCount(s[i + 1..], c);
    }
  }

  predicate NoEmptyPiece(parts: seq<string>) {
    forall k :: 0 <= k < |parts| ==> parts[k] != []
  }

  /** `c.join(parts)` */
  function Join(parts: seq<string>, c: char): string
  {
    if |parts| == 0 then []
    else if |parts| == 1 then parts[0]
    else parts[0] + [c] + Join(parts[1..], c)
  }

  lemma {:induction false} FindAfterPrefix(a: string, b: string, c: char)
    requires c !in a
    ensures Find(a + [c] + b, c) == |a|
  {
    var s := a + [c] + b;
    var i := Find(s, c);
    assert s[|a|] == c;
  }

  /** Splitting where the first separator follows `a`. */
  lemma {:induction false} SplitAfterPrefix(a: string, b: string, c: char)
    requires c !in a
    ensures Split(a + [c] + b, c) == [a] + Split(b, c)
  {
    var s := a + [c] + b;
    FindAfterPrefix(a, b, c);
    assert s[..|a|] == a;
    assert s[|a| + 1..] == b;
  }

  /** A string without the separator splits into itself. */
  lemma {:induction false} SplitWithoutSeparator(s: string, c: char)
    requires c !in s
    ensures Split(s, c) == [s]
  {
  }

  /** Joining the pieces of a split gives back the string. */
  lemma {:induction false} JoinSplit(s: string, c: char)
    ensures Join(Split(s, c), c) == s
    decreases |s|
  {
    var i := Find(s, c);
    if i < |s| {
      var rest := Split(s[i + 1..], c);
      JoinSplit(s[i + 1..], c);
      assert Split(s, c) == [s[..i]] + rest;
      assert ([s[..i]] + rest)[1..] == rest;
      assert s == s[..i] + [c] + s[i + 1..];
    }
  }

  /** Splitting a join of separator-free pieces gives back the pieces. */
  lemma {:induction false} SplitJoin(parts: seq<string>, c: char)
    requires |parts| >= 1
    requires forall k :: 0 <= k < |parts| ==> c !in parts[k]
    ensures Split(Join(parts, c), c) == parts
    decreases |parts|
  {
    if |parts| == 1 {
      SplitWithoutSeparator(parts[0], c);
    } else {
      SplitJoin(parts[1..], c);
      SplitAfterPrefix(parts[0], Join(parts[1..], c), c);
      assert parts == [parts[0]] + parts[1..];
    }
  }

  /** The first piece is the text before the first separator. */
  lemma {:induction false} SplitFirst(s: string, c: char)
    ensures Split(s, c)[0] == s[..Find(s, c)]
  {
  }

  /** The last of two or more joined pieces follows the join of the others and a separator. */
  lemma {:induction false} JoinLast(parts: seq<string>, c: char)
    requires |parts| >= 2
    ensures Join(parts, c) == Join(parts[..|parts| - 1], c) + [c] + parts[|parts| - 1]
    decreases |parts|
  {
    if |parts| > 2 {
      JoinLast(parts[1..], c);
      assert parts[1..][..|parts| - 2] == parts[1..|parts| - 1];
      assert parts[..|parts| - 1] == [parts[0]] + parts[1..|parts| - 1];
    }
  }

  /** Joining two non-empty runs of pieces joins their joins. */
  lemma {:induction false} JoinConcat(a: seq<string>, b: seq<string>, c: char)
    requires |a| >= 1 && |b| >= 1
    ensures Join(a + b, c) == Join(a, c) + [c] + Join(b, c)
    decreases |a|
  {
    if |a| > 1 {
      JoinConcat(a[1..], b, c);
      assert (a + b)[1..] == a[1..] + b;
    } else {
      assert (a + b)[1..] == b;
    }
  }

  /** A `c` with none after it is the last one. */
  lemma {:induction false} RFindAt(s: string, c: char, p: int)
    requires -1 <= p < |s| && (0 <= p ==> s[p] == c)
    requires forall k :: p < k < |s| ==> s[k] != c
    ensures RFind(s, c) == p
  {
  }

  /** The last piece is the text after the last separator (all of `s` when there is none). */
  lemma {:induction false} SplitLastAfterRFind(s: string, c: char)
    ensures var r := Split(s, c); r[|r| - 1] == s[RFind(s, c) + 1..]
  {
    var r := Split(s, c);
    var last := r[|r| - 1];
    JoinSplit(s, c);
    if |r| == 1 {
      assert s == last;
      RFindAt(s, c, -1);
    } else {
      JoinLast(r, c);
      var front := Join(r[..|r| - 1], c);
      assert s == front + [c] + last;
      assert forall k :: |front| < k < |s| ==> s[k] == last[k - |front| - 1];
      RFindAt(s, c, |front|);
      assert s[|front| + 1..] == last;
    }
  }

  /** Every character of a piece occurs in the split string. */
  lemma {:induction false} SplitPieceChars(s: string, c: char, k: nat, j: nat)
    requires k < |Split(s, c)| && j < |Split(s, c)[k]|
    ensures Split(s, c)[k][j] in s
    decreases |s|
  {
    var i := Find(s, c);
    if i < |s| {
      if k == 0 {
        assert Split(s, c)[0][j] == s[j];
      } else {
        SplitPieceChars(s[i + 1..], c, k - 1, j);
        assert Split(s, c)[k] == Split(s[i + 1..], c)[k - 1];
      }
    }
  }

  /**
    Every character of the split string is the separator or a character of
    some piece; the last character of a piece is followed by the separator or
    ends the string.
   */
  lemma {:induction false} SplitCovers(s: string, c: char, j: nat)
    requires j < |s| && s[j] != c
    ensures exists k, i ::
              0 <= k < |Split(s, c)| && 0 <= i < |Split(s, c)[k]| && Split(s, c)[k][i] == s[j] &&
              (i == |Split(s, c)[k]| - 1 ==> j + 1 == |s| || s[j + 1] == c)
    decreases |s|
  {
    var r := Split(s, c);
    var f := Find(s, c);
    if f == |s| {
      assert r[0][j] == s[j];
    } else if j < f {
      assert r[0][j] == s[j];
    } else {
      assert j > f;
      var t := s[f + 1..];
      SplitCovers(t, c, j - f - 1);
      var k, i :| 0 <= k < |Split(t, c)| && 0 <= i < |Split(t, c)[k]| && Split(t, c)[k][i] == t[j - f - 1] &&
        (i == |Split(t, c)[k]| - 1 ==> j - f == |t| || t[j - f] == c);
      assert r[k + 1] == Split(t, c)[k];
    }
  }

  /** `s` is non-empty, neither starts nor ends with `c`, and has no two adjacent `c`. */
  predicate Separated(s: string, c: char) {
    s != [] && s[0] != c && s[|s| - 1] != c && !HasPair(s, c, c)
  }

  /** Past a first separator at `i > 0`, the rest is separated exactly when the whole is. */
  lemma {:induction false} SeparatedRest(s: string, c: char, i: nat)
    requires 0 < i < |s| && s[i] == c && forall k :: 0 <= k < i ==> s[k] != c
    ensures Separated(s, c) <==> Separated(s[i + 1..], c)
  {
    var t := s[i + 1..];
    if Separated(s, c) {
      assert t != [];
      assert t[0] != c by { assert !(s[i] == c && s[i + 1] == c); }
      assert t[|t| - 1] == s[|s| - 1];
      forall k | 0 <= k < |t| - 1
        ensures !(t[k] == c && t[k + 1] == c)
      {
        assert t[k] == s[i + 1 + k] && t[k + 1] == s[i + 2 + k];
      }
    }
    if Separated(t, c) {
      assert s[|s| - 1] == t[|t| - 1];
      forall k | 0 <= k < |s| - 1
        ensures !(s[k] == c && s[k + 1] == c)
      {
        if k == i {
          assert s[k + 1] == t[0];
        } else if k > i {
          assert s[k] == t[k - i - 1] && s[k + 1] == t[k - i];
        }
      }
    }
  }

  lemma {:induction false} SeparatedNoEmptyPiece(s: string, c: char)
    requires Separated(s, c)
    ensures NoEmptyPiece(Split(s, c))
    decreases |s|
  {
    var i := Find(s, c);
    if i < |s| {
      var t := s[i + 1..];
      SeparatedRest(s, c, i);
      SeparatedNoEmptyPiece(t, c);
      var r := Split(s, c);
      assert r == [s[..i]] + Split(t, c);
      forall k | 0 <= k < |r|
        ensures r[k] != []
      {
        if k > 0 {
          assert r[k] == Split(t, c)[k - 1];
        }
      }
    }
  }

  lemma {:induction false} NoEmptyPieceSeparated(s: string, c: char)
    requires NoEmptyPiece(Split(s, c))
    ensures Separated(s, c)
    decreases |s|
  {
    var r := Split(s, c);
    var i := Find(s, c);
    assert r[0] != [];
    if i < |s| {
      var t := s[i + 1..];
      assert r == [s[..i]] + Split(t, c);
      forall k | 0 <= k < |Split(t, c)|
        ensures Split(t, c)[k] != []
      {
        assert r[k + 1] == Split(t, c)[k];
      }
      NoEmptyPieceSeparated(t, c);
      SeparatedRest(s, c, i);
    }
  }

  /** `s.split(c)` has no empty piece exactly when `s` is separated. */
  lemma {:induction false} SplitPiecesNonEmpty(s: string, c: char)
    ensures NoEmptyPiece(Split(s, c)) <==> Separated(s, c)
  {
    if NoEmptyPiece(Split(s, c)) {
      NoEmptyPieceSeparated(s, c);
    }
    if Separated(s, c) {
      SeparatedNoEmptyPiece(s, c);
    }
  }

  // ---------------------------------------------------------------------------
  // Stripping
  // ---------------------------------------------------------------------------

  /** `s.rstrip()` */
  function StripEnd(s: string): string {
    if s == [] || !IsSpace(s[|s| - 1]) then s else StripEnd(s[..|s| - 1])
  }

  /** `s.lstrip()` */
  function StripStart(s: string): string {
    if s == [] || !IsSpace(s[0]) then s else StripStart(s[1..])
  }

  /** `s.strip()` */
  function Strip(s: string): string {
    StripStart(StripEnd(s))
  }

  /** `rstrip` keeps the longest prefix that does not end in whitespace. */
  lemma {:induction false} StripEndShape(s: string)
    ensures var r := StripEnd(s);
      && |r| <= |s| && r == s[..|r|]
      && (forall k :: |r| <= k < |s| ==> IsSpace(s[k]))
      && (r == [] || !IsSpace(r[|r| - 1]))
    decreases |s|
  {
    if s != [] && IsSpace(s[|s| - 1]) {
      StripEndShape(s[..|s| - 1]);
    }
  }

  /** `lstrip` keeps the longest suffix that does not start with whitespace. */
  lemma {:induction false} StripStartShape(s: string)
    ensures var r := StripStart(s);
      && |r| <= |s| && r == s[|s| - |r|..]
      && (forall k :: 0 <= k < |s| - |r| ==> IsSpace(s[k]))
      && (r == [] || !IsSpace(r[0]))
    decreases |s|
  {
    if s != [] && IsSpace(s[0]) {
      StripStartShape(s[1..]);
    }
  }

  /** The stripped string is empty exactly when `s` is all whitespace, and otherwise has no whitespace at either end. */
  lemma {:induction false} StripEnds(s: string)
    ensures Strip(s) == [] <==> AllSpace(s)
    ensures Strip(s) != [] ==> !IsSpace(Strip(s)[0]) && !IsSpace(Strip(s)[|Strip(s)| - 1])
  {
    var e := StripEnd(s);
    var r := StripStart(e);
    StripEndShape(s);
    StripStartShape(e);
    assert e != [] ==> e[|e| - 1] == s[|e| - 1];
    assert r != [] ==> r[|r| - 1] == e[|e| - 1];
  }

  /** A string with no whitespace at either end is its own strip. */
  lemma {:induction false} StripUnchanged(s: string)
    requires s != [] && !IsSpace(s[0]) && !IsSpace(s[|s| - 1])
    ensures Strip(s) == s
  {
    StripSurrounded("", s, "");
    assert "" + s + "" == s;
  }

  /** Surrounding whitespace is removed and nothing else. */
  lemma {:induction false} StripSurrounded(a: string, core: string, b: string)
    requires AllSpace(a) && AllSpace(b)
    requires core != [] && !IsSpace(core[0]) && !IsSpace(core[|core| - 1])
    ensures Strip(a + core + b) == core
  {
    var s := a + core + b;
    var n := |a| + |core|;
    var e := StripEnd(s);
    StripEndShape(s);
    assert s[n - 1] == core[|core| - 1];
    forall k | n <= k < |s|
      ensures IsSpace(s[k])
    {
      assert s[k] == b[k - n];
    }
    assert e[|e| - 1] == s[|e| - 1];
    assert e == s[..n] == a + core;
    var r := StripStart(e);
    StripStartShape(e);
    assert e[|a|] == core[0];
    assert r[0] == e[|e| - |r|];
    forall k | 0 <= k < |a|
      ensures IsSpace(e[k])
    {
      assert e[k] == a[k];
    }
    assert r == e[|a|..];
  }
}
