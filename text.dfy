/**
 * Character classes and the two string operations every field of the entry
 * form relies on: stripping everything but digits (`s.replace(/\D/g, "")`)
 * and trimming surrounding white space (`s.trim()`).
 */
module Text {

  /** What `\d` matches in a JavaScript regular expression: the ASCII digits only. */
  predicate IsDigit(c: char) {
    '0' <= c <= '9'
  }

  /**
   * What `\s` matches in a JavaScript regular expression, which is also the set
   * of characters `String.prototype.trim` strips: the ECMAScript WhiteSpace and
   * LineTerminator characters.
   */
  predicate IsWhitespace(c: char) {
    '\t' <= c <= '\r' || c == ' ' || c == '\U{00A0}' || c == '\U{1680}'
    || '\U{2000}' <= c <= '\U{200A}' || c == '\U{2028}' || c == '\U{2029}'
    || c == '\U{202F}' || c == '\U{205F}' || c == '\U{3000}' || c == '\U{FEFF}'
  }

  predicate AllDigits(s: string) {
    forall i :: 0 <= i < |s| ==> IsDigit(s[i])
  }

  predicate AllWhitespace(s: string) {
    forall i :: 0 <= i < |s| ==> IsWhitespace(s[i])
  }

  /** `s.replace(/\D/g, "")`: the digits of `s`, in order. */
  function Digits(s: string): (d: string)
    ensures |d| <= |s|
    ensures AllDigits(d)
  {
    if s == [] then []
    else (if IsDigit(s[0]) then [s[0]] else []) + Digits(s[1..])
  }

  /** `s.slice(lo, hi)` for `lo <= hi`: both bounds are clamped to the length of `s`. */
  function Slice(s: string, lo: nat, hi: nat): (r: string)
    requires lo <= hi
  {
    var a := if lo <= |s| then lo else |s|;
    var b := if hi <= |s| then hi else |s|;
    s[a..b]
  }

  /** Cutting `s` at two points and gluing the pieces back gives `s`. */
  lemma {:induction false} SplitThree(s: string, a: nat, b: nat)
    requires a <= b <= |s|
    ensures s == s[..a] + s[a..b] + s[b..]
  {
    assert s[..b] == s[..a] + s[a..b];
  }

  /** The first `k` characters of the suffix from `lo` are the slice `lo..lo + k`. */
  lemma {:induction false} PrefixOfSuffix(s: string, lo: nat, k: nat)
    requires lo + k <= |s|
    ensures s[lo..][..k] == s[lo..lo + k]
  {
  }

  /** How many white-space characters `s` starts with. */
  function LeadingWhitespace(s: string): (n: nat)
    ensures n <= |s|
    ensures forall i :: 0 <= i < n ==> IsWhitespace(s[i])
    ensures n < |s| ==> !IsWhitespace(s[n])
  {
    if s != [] && IsWhitespace(s[0]) then 1 + LeadingWhitespace(s[1..]) else 0
  }

  /** How many white-space characters `s` ends with. */
  function TrailingWhitespace(s: string): (n: nat)
    ensures n <= |s|
    ensures forall i :: |s| - n <= i < |s| ==> IsWhitespace(s[i])
    ensures n < |s| ==> !IsWhitespace(s[|s| - n - 1])
  {
    if s != [] && IsWhitespace(s[|s| - 1]) then 1 + TrailingWhitespace(s[..|s| - 1]) else 0
  }

  /**
   * `s.trim()`: `s` without its leading and trailing white space; what is
   * left begins and ends with a character that is not white space.
   */
  function Trim(s: string): (r: string)
    ensures |r| <= |s|
    ensures r != [] ==> !IsWhitespace(r[0]) && !IsWhitespace(r[|r| - 1])
  {
    var t := s[LeadingWhitespace(s)..];
    t[..|t| - TrailingWhitespace(t)]
  }

  /** Where the trimmed part sits in `s`: everything around it is white space. */
  lemma {:induction false} TrimSpan(s: string) returns (lo: nat)
    ensures var r := Trim(s);
      && lo + |r| <= |s| && r == s[lo..lo + |r|]
      && (forall i :: 0 <= i < lo ==> IsWhitespace(s[i]))
      && (forall i :: lo + |r| <= i < |s| ==> IsWhitespace(s[i]))
  {
    lo := LeadingWhitespace(s);
    var t := s[lo..];
    var k := |t| - TrailingWhitespace(t);
    assert Trim(s) == t[..k];
    PrefixOfSuffix(s, lo, k);
    forall i | lo + k <= i < |s| ensures IsWhitespace(s[i]) {
      assert s[i] == t[i - lo];
    }
  }

  /** `!s.trim()`: nothing but white space. */
  predicate IsBlank(s: string) {
    Trim(s) == []
  }

  // ---------------------------------------------------------------------------
  // Lemmas about Digits

  lemma {:induction false} DigitsAppend(a: string, b: string)
    ensures Digits(a + b) == Digits(a) + Digits(b)
  {
    if a != [] {
      assert (a + b)[0] == a[0];
      assert (a + b)[1..] == a[1..] + b;
      DigitsAppend(a[1..], b);
    } else {
      assert a + b == b;
    }
  }

  /** Stripping non-digits leaves a string unchanged exactly when it is all digits. */
  lemma {:induction false} DigitsIdentity(s: string)
    ensures Digits(s) == s <==> AllDigits(s)
  {
    if s != [] {
      DigitsIdentity(s[1..]);
      if AllDigits(s) {
        assert AllDigits(s[1..]);
      }
    }
  }

  /** A string without digits strips to the empty string. */
  lemma {:induction false} DigitsOfNonDigits(s: string)
    requires forall i :: 0 <= i < |s| ==> !IsDigit(s[i])
    ensures Digits(s) == []
  {
    if s != [] {
      DigitsOfNonDigits(s[1..]);
    }
  }

  /** Any digit left after stripping was a character of the original string. */
  lemma {:induction false} DigitsComeFromInput(s: string)
    requires Digits(s) != []
    ensures exists i :: 0 <= i < |s| && IsDigit(s[i])
  {
    if !IsDigit(s[0]) {
      DigitsComeFromInput(s[1..]);
      var i :| 0 <= i < |s| - 1 && IsDigit(s[1..][i]);
      assert IsDigit(s[i + 1]);
    }
  }

  // ---------------------------------------------------------------------------
  // Lemmas about Trim

  /** `!s.trim()` holds exactly when every character of `s` is white space. */
  lemma {:induction false} BlankIff(s: string)
    ensures IsBlank(s) <==> AllWhitespace(s)
  {
    var r := Trim(s);
    var lo := TrimSpan(s);
    if r != [] {
      assert s[lo] == r[0];
    }
  }

  /** A string that still holds a digit after stripping is not blank. */
  lemma {:induction false} DigitsNotBlank(s: string)
    requires Digits(s) != []
    ensures !IsBlank(s)
  {
    DigitsComeFromInput(s);
    BlankIff(s);
  }
}
