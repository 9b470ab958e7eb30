/**
 The address-shape test `isValidEmail`, which both the contact route and the
 contact page run: the regular expression `/^[^\s@]+@[^\s@]+\.[^\s@]+$/`.
 It is computed by locating the one `@`; the lemmas relate it to a
 declarative reading of the pattern.
 */
module Email {
  import opened Wrappers
  import opened Text

  /** One character of the class `[^\s@]`. */
  predicate IsAtomChar(c: char) {
    !IsWhitespace(c) && c != '@'
  }

  predicate AllAtomChars(s: string) {
    forall i | 0 <= i < |s| :: IsAtomChar(s[i])
  }

  /** A match of `[^\s@]+`. */
  predicate IsAtom(s: string) {
    |s| > 0 && AllAtomChars(s)
  }

  /** Position of the first occurrence of `c` in `s`, if any. */
  function IndexOf(s: string, c: char): (r: Option<nat>)
    ensures r.Some? ==> r.value < |s| && s[r.value] == c && c !in s[..r.value]
    ensures r.None? <==> c !in s
  {
    if |s| == 0 then None
    else if s[0] == c then Some(0)
    else match IndexOf(s[1..], c)
      case None => None
      case Some(i) => assert s[..i + 1] == [s[0]] + s[1..][..i]; Some(i + 1)
  }

  /** What may follow the `@`: `[^\s@]+\.[^\s@]+`, i.e. no whitespace or `@`, and a `.` that is neither first nor last. */
  predicate IsDomain(d: string) {
    AllAtomChars(d) && exists k | 1 <= k < |d| - 1 :: d[k] == '.'
  }

  /**
   `isValidEmail`: whether `s` matches `/^[^\s@]+@[^\s@]+\.[^\s@]+$/`.
   An accepted address has exactly one `@` and at least five characters.
   */
  function IsValidEmail(s: string): (ok: bool)
    ensures ok ==> |s| >= 5
    ensures ok ==> exists i | 0 <= i < |s| :: s[i] == '@' && '@' !in s[..i] && '@' !in s[i + 1..]
  {
    match IndexOf(s, '@')
    case None => false
    case Some(i) => IsAtom(s[..i]) && IsDomain(s[i + 1..])
  }

  /** The pattern read literally: `s` is atom, `@` at `i`, atom, `.` at `k`, atom. */
  ghost predicate SplitsAt(s: string, i: int, k: int) {
    && 0 <= i < k < |s|
    && s[i] == '@' && s[k] == '.'
    && IsAtom(s[..i]) && IsAtom(s[i + 1..k]) && IsAtom(s[k + 1..])
  }

  /** Some way of matching the regular expression (with backtracking over the `.`) succeeds. */
  ghost predicate MatchesPattern(s: string) {
    exists i, k :: SplitsAt(s, i, k)
  }

  lemma ValidEmailSplits(s: string)
    requires IsValidEmail(s)
    ensures MatchesPattern(s)
  {
    var i := IndexOf(s, '@').value;
    var d := s[i + 1..];
    var k' :| 1 <= k' < |d| - 1 && d[k'] == '.';
    var k := i + 1 + k';
    assert s[i + 1..k] == d[..k'];
    assert s[k + 1..] == d[k' + 1..];
    assert SplitsAt(s, i, k);
  }

  lemma SplitIsValidEmail(s: string, i: int, k: int)
    requires SplitsAt(s, i, k)
    ensures IsValidEmail(s)
  {
    var j := IndexOf(s, '@').value;
    assert j == i;
    var d := s[i + 1..];
    var k' := k - i - 1;
    forall m | 0 <= m < |d| ensures IsAtomChar(d[m]) {
      if m < k' {
        assert d[m] == s[i + 1..k][m];
      } else if m > k' {
        assert d[m] == s[k + 1..][m - k' - 1];
      }
    }
    assert d[k'] == '.';
  }

  /** `IsValidEmail` decides exactly the regular expression. */
  lemma IsValidEmailMatchesPattern(s: string)
    ensures IsValidEmail(s) <==> MatchesPattern(s)
  {
    if IsValidEmail(s) {
      ValidEmailSplits(s);
    }
    if MatchesPattern(s) {
      var i, k :| SplitsAt(s, i, k);
      SplitIsValidEmail(s, i, k);
    }
  }

  /** Address shape by parts: `l@d` is valid exactly when `l` is an atom and `d` a domain. */
  lemma EmailDecomposition(l: string, d: string)
    ensures IsValidEmail(l + "@" + d) <==> IsAtom(l) && IsDomain(d)
  {
    var s := l + "@" + d;
    assert s[|l|] == '@';
    assert s[..|l|] == l;
    assert s[|l| + 1..] == d;
    var j := IndexOf(s, '@').value;
    if j < |l| {
      assert l[j] == '@';
      assert s[j + 1..][|l| - j - 1] == '@';
    } else {
      assert j == |l|;
    }
  }

  /** An address-shaped string contains no whitespace at all. */
  lemma ValidEmailHasNoWhitespace(s: string)
    requires IsValidEmail(s)
    ensures forall m | 0 <= m < |s| :: !IsWhitespace(s[m])
  {
    var i := IndexOf(s, '@').value;
    forall m | 0 <= m < |s| ensures !IsWhitespace(s[m]) {
      if m < i {
        assert s[m] == s[..i][m];
      } else if m > i {
        assert s[m] == s[i + 1..][m - i - 1];
      }
    }
  }

  /** The test runs on the untrimmed value, so an address-shaped string is already trimmed. */
  lemma ValidEmailIsTrimmed(s: string)
    requires IsValidEmail(s)
    ensures Trim(s) == s
  {
    ValidEmailHasNoWhitespace(s);
    assert [] + s + [] == s;
    TrimPadded([], s, []);
  }

  /** Whitespace around an address makes it fail the test. */
  lemma PaddedEmailRejected(s: string, w: string)
    requires |w| > 0 && AllWhitespace(w)
    ensures !IsValidEmail(w + s) && !IsValidEmail(s + w)
  {
    assert (w + s)[0] == w[0] && (s + w)[|s|] == w[0];
    if IsValidEmail(w + s) {
      ValidEmailHasNoWhitespace(w + s);
    }
    if IsValidEmail(s + w) {
      ValidEmailHasNoWhitespace(s + w);
    }
  }

  /** `s` and `t` agree, position by position, on the characters the pattern distinguishes. */
  predicate SameShape(s: string, t: string) {
    && |s| == |t|
    && forall m | 0 <= m < |s| ::
         && (s[m] == '@' <==> t[m] == '@')
         && (s[m] == '.' <==> t[m] == '.')
         && (IsWhitespace(s[m]) <==> IsWhitespace(t[m]))
  }

  lemma SameShapeSplits(s: string, t: string, i: int, k: int)
    requires SameShape(s, t) && SplitsAt(s, i, k)
    ensures SplitsAt(t, i, k)
  {
    forall m | 0 <= m < |s| && m != i && m != k ensures IsAtomChar(t[m]) {
      if m < i {
        assert s[m] == s[..i][m];
      } else if m < k {
        assert s[m] == s[i + 1..k][m - i - 1];
      } else {
        assert s[m] == s[k + 1..][m - k - 1];
      }
    }
  }

  /** Lowering ASCII letters never changes whether a string is address-shaped. */
  lemma ToLowerPreservesEmail(s: string)
    ensures IsValidEmail(ToLower(s)) <==> IsValidEmail(s)
  {
    var t := ToLower(s);
    assert SameShape(s, t);
    assert SameShape(t, s);
    IsValidEmailMatchesPattern(s);
    IsValidEmailMatchesPattern(t);
    if MatchesPattern(s) {
      var i, k :| SplitsAt(s, i, k);
      SameShapeSplits(s, t, i, k);
    }
    if MatchesPattern(t) {
      var i, k :| SplitsAt(t, i, k);
      SameShapeSplits(t, s, i, k);
    }
  }

  /** A plain address is accepted. */
  lemma AcceptsPlainAddress()
    ensures IsValidEmail("a@b.co")
  {
    assert SplitsAt("a@b.co", 1, 3) by {
      assert "a@b.co"[..1] == "a";
      assert "a@b.co"[2..3] == "b";
      assert "a@b.co"[4..] == "co";
    }
    SplitIsValidEmail("a@b.co", 1, 3);
  }

  /** A dotted domain after a plain local part is accepted. */
  lemma AcceptsDottedDomain()
    ensures IsValidEmail("jo@example.com")
  {
    assert SplitsAt("jo@example.com", 2, 10) by {
      assert "jo@example.com"[..2] == "jo";
      assert "jo@example.com"[3..10] == "example";
      assert "jo@example.com"[11..] == "com";
    }
    SplitIsValidEmail("jo@example.com", 2, 10);
  }

  /** The same address is already in stored form: trimming and lower-casing leave it alone. */
  lemma DottedDomainIsNormal()
    ensures ToLower(Trim("jo@example.com")) == "jo@example.com"
  {
    var e := "jo@example.com";
    assert ToLower(e) == e by {
      assert forall i | 0 <= i < |e| :: !IsAsciiUpper(e[i]);
      ToLowerFixesLower(e);
    }
    assert Trim(e) == e by {
      AcceptsDottedDomain();
      ValidEmailIsTrimmed(e);
    }
  }

  /** A domain without a `.` is rejected. */
  lemma RejectsDotlessDomain()
    ensures !IsValidEmail("a@b")
  {
    assert IndexOf("a@b", '@') == Some(1);
    assert "a@b"[2..] == "b";
  }

  /** A string without `@` is rejected. */
  lemma RejectsMissingAt()
    ensures !IsValidEmail("not-an-email")
  {
    assert '@' !in "not-an-email";
  }

  /** An address with surrounding blanks is rejected, since the test runs before any trimming. */
  lemma RejectsPaddedAddress()
    ensures !IsValidEmail(" a@b.co ")
  {
    PaddedEmailRejected("a@b.co ", " ");
    assert " " + "a@b.co " == " a@b.co ";
  }
}
