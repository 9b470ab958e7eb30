/**
 The string primitives the site relies on, stated over `seq<char>`:
 JavaScript's whitespace class (shared by `String.prototype.trim` and the
 regular-expression class `\s`), `trim`, an ASCII `toLowerCase`, the
 UTF-16 `length` of a string, and `startsWith`.
 */
module Text {

  /** JavaScript's WhiteSpace and LineTerminator code points: exactly what `trim` strips and `\s` matches. */
  predicate IsWhitespace(c: char) {
    || ('\t' <= c <= '\r') || c == ' ' || c == '\U{00A0}' || c == '\U{1680}'
    || ('\U{2000}' <= c <= '\U{200A}') || ('\U{2028}' <= c <= '\U{2029}')
    || c == '\U{202F}' || c == '\U{205F}' || c == '\U{3000}' || c == '\U{FEFF}'
  }

  predicate AllWhitespace(s: string) {
    forall i | 0 <= i < |s| :: IsWhitespace(s[i])
  }

  /** Neither end of `s` is whitespace: what `trim` guarantees of its result. */
  predicate IsTrimmed(s: string) {
    |s| == 0 || (!IsWhitespace(s[0]) && !IsWhitespace(s[|s| - 1]))
  }

  /** The first index at or after `i` that does not hold whitespace (or `|s|`). */
  function SkipLeading(s: string, i: nat): (a: nat)
    requires i <= |s|
    ensures i <= a <= |s|
    ensures forall j | i <= j < a :: IsWhitespace(s[j])
    ensures a == |s| || !IsWhitespace(s[a])
    decreases |s| - i
  {
    if i < |s| && IsWhitespace(s[i]) then SkipLeading(s, i + 1) else i
  }

  /** The end of `s[a..b]` once the whitespace at its end is cut off. */
  function SkipTrailing(s: string, a: nat, b: nat): (e: nat)
    requires a <= b <= |s|
    ensures a <= e <= b
    ensures forall j | e <= j < b :: IsWhitespace(s[j])
    ensures e == a || !IsWhitespace(s[e - 1])
    decreases b
  {
    if a < b && IsWhitespace(s[b - 1]) then SkipTrailing(s, a, b - 1) else b
  }

  /** `String.prototype.trim`: `s` without its leading and trailing whitespace. */
  function Trim(s: string): (r: string)
    ensures IsTrimmed(r)
    ensures |r| <= |s|
  {
    var a := SkipLeading(s, 0);
    s[a..SkipTrailing(s, a, |s|)]
  }

  /** `t` sits in `s` at offset `a`, with nothing but whitespace on either side of it. */
  ghost predicate FramedAt(s: string, a: int, t: string) {
    && 0 <= a && a + |t| <= |s|
    && s[a..a + |t|] == t
    && (forall j | 0 <= j < a :: IsWhitespace(s[j]))
    && (forall j | a + |t| <= j < |s| :: IsWhitespace(s[j]))
  }

  lemma {:induction false} SkipLeadingStopsAt(s: string, i: nat, a: nat)
    requires i <= a <= |s|
    requires forall j | i <= j < a :: IsWhitespace(s[j])
    requires a == |s| || !IsWhitespace(s[a])
    ensures SkipLeading(s, i) == a
    decreases a - i
  {
    if i < a {
      SkipLeadingStopsAt(s, i + 1, a);
    }
  }

  lemma {:induction false} SkipTrailingStopsAt(s: string, a: nat, b: nat, e: nat)
    requires a <= e <= b <= |s|
    requires forall j | e <= j < b :: IsWhitespace(s[j])
    requires e == a || !IsWhitespace(s[e - 1])
    ensures SkipTrailing(s, a, b) == e
    decreases b - e
  {
    if e < b {
      SkipTrailingStopsAt(s, a, b - 1, e);
    }
  }

  /** `trim` returns exactly the trimmed string that `s` frames with whitespace. */
  lemma TrimOfFramed(s: string, a: int, t: string)
    requires FramedAt(s, a, t) && IsTrimmed(t)
    ensures Trim(s) == t
  {
    if |t| == 0 {
      SkipLeadingStopsAt(s, 0, |s|);
      SkipTrailingStopsAt(s, |s|, |s|, |s|);
    } else {
      assert s[a] == t[0] && s[a + |t| - 1] == t[|t| - 1];
      SkipLeadingStopsAt(s, 0, a);
      SkipTrailingStopsAt(s, a, |s|, a + |t|);
    }
  }

  /** Whitespace added around a trimmed string is exactly what `trim` takes away again. */
  lemma TrimPadded(w1: string, t: string, w2: string)
    requires AllWhitespace(w1) && AllWhitespace(w2) && IsTrimmed(t)
    ensures Trim(w1 + t + w2) == t
  {
    var s := w1 + t + w2;
    assert s[|w1|..|w1| + |t|] == t;
    assert forall j | 0 <= j < |w1| :: s[j] == w1[j];
    assert forall j | |w1| + |t| <= j < |s| :: s[j] == w2[j - |w1| - |t|];
    TrimOfFramed(s, |w1|, t);
  }

  /**
   `trim` is characterised by its result: `Trim(s) == t` exactly when `t`
   is trimmed and `s` is `t` with whitespace on both sides.
   */
  lemma TrimCharacterization(s: string, t: string)
    ensures Trim(s) == t <==> IsTrimmed(t) && exists a :: FramedAt(s, a, t)
  {
    var a := SkipLeading(s, 0);
    assert FramedAt(s, a, Trim(s));
    if IsTrimmed(t) && exists a' :: FramedAt(s, a', t) {
      var b :| FramedAt(s, b, t);
      TrimOfFramed(s, b, t);
    }
  }

  /** A trimmed string is its own `trim`. */
  lemma TrimKeepsTrimmed(s: string)
    requires IsTrimmed(s)
    ensures Trim(s) == s
  {
    assert s[0..|s|] == s;
    TrimOfFramed(s, 0, s);
  }

  /** `trim` is idempotent. */
  lemma TrimIdempotent(s: string)
    ensures Trim(Trim(s)) == Trim(s)
  {
    var t := Trim(s);
    assert t[0..|t|] == t;
    TrimOfFramed(t, 0, t);
  }

  predicate IsAsciiUpper(c: char) {
    'A' <= c <= 'Z'
  }

  /** `toLowerCase` on one character, for the ASCII letters. */
  function LowerChar(c: char): (d: char)
    ensures !IsAsciiUpper(d)
    ensures IsAsciiUpper(c) ==> d as int == c as int + 32
    ensures !IsAsciiUpper(c) ==> d == c
  {
    if IsAsciiUpper(c) then (c as int + 32) as char else c
  }

  /** `String.prototype.toLowerCase`, restricted to the ASCII letters. */
  function ToLower(s: string): (r: string)
    ensures |r| == |s|
    ensures forall i | 0 <= i < |r| :: !IsAsciiUpper(r[i])
    ensures forall i | 0 <= i < |r| :: IsAsciiUpper(s[i]) ==> r[i] as int == s[i] as int + 32
    ensures forall i | 0 <= i < |r| :: !IsAsciiUpper(s[i]) ==> r[i] == s[i]
  {
    seq(|s|, i requires 0 <= i < |s| => LowerChar(s[i]))
  }

  /** Lowering a string with no upper-case letter leaves it as it is; in particular lowering is idempotent. */
  lemma ToLowerFixesLower(s: string)
    requires forall i | 0 <= i < |s| :: !IsAsciiUpper(s[i])
    ensures ToLower(s) == s
  {
  }

  /** Number of UTF-16 code units of `s`: JavaScript's `length`, where a code point above U+FFFF counts twice. */
  function Utf16Length(s: string): (n: nat)
    ensures |s| <= n <= 2 * |s|
  {
    if |s| == 0 then 0 else (if s[0] as int > 0xFFFF then 2 else 1) + Utf16Length(s[1..])
  }

  predicate IsBmp(s: string) {
    forall i | 0 <= i < |s| :: s[i] as int <= 0xFFFF
  }

  /** On the Basic Multilingual Plane, JavaScript's `length` is the number of characters. */
  lemma {:induction false} Utf16LengthBmp(s: string)
    requires IsBmp(s)
    ensures Utf16Length(s) == |s|
  {
    if |s| > 0 {
      assert IsBmp(s[1..]) by {
        forall i | 0 <= i < |s[1..]| ensures s[1..][i] as int <= 0xFFFF {
          assert s[1..][i] == s[i + 1];
        }
      }
      Utf16LengthBmp(s[1..]);
    }
  }

  /** `String.prototype.startsWith`. */
  predicate StartsWith(s: string, p: string) {
    |p| <= |s| && s[..|p|] == p
  }

  /** `startsWith` is the prefix order on sequences: `s` starts with `p` iff `s` is `p` followed by something. */
  lemma StartsWithConcat(s: string, p: string)
    ensures StartsWith(s, p) <==> exists t :: s == p + t
  {
    if StartsWith(s, p) {
      assert s == p + s[|p|..];
    }
    if exists t :: s == p + t {
      var t :| s == p + t;
      assert s[..|p|] == p;
    }
  }
}
