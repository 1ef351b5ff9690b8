/**
 * The two as-you-type formatters of the entry form: the phone mask
 * `(AAA) BBB-CCCC` and the PIN mask `####-####-####-####`.
 */
module Formatters {
  import opened Text

  // ---------------------------------------------------------------------------
  // Phone number

  /**
   * `formatPhoneNumber`: the digits of `value` are matched against
   * `^(\d{0,3})(\d{0,3})(\d{0,4})$`. The match succeeds exactly when there
   * are at most ten digits, and then its groups are the clamped slices
   * 0..3, 3..6 and 6..10 (each group is greedy). When it fails, the input
   * comes back unchanged.
   */
  function FormatPhoneNumber(value: string): string {
    var cleaned := Digits(value);
    if |cleaned| <= 10 then
      var area, exchange, line := Slice(cleaned, 0, 3), Slice(cleaned, 3, 6), Slice(cleaned, 6, 10);
      if exchange == [] then area
      else "(" + area + ") " + exchange + (if line != [] then "-" + line else "")
    else
      value
  }

  /**
   * The mask by number of digits: up to three digits stand alone, four to six
   * give `(AAA) B…` without a hyphen, seven to ten give `(AAA) BBB-C…`, and an
   * input with more than ten digits is returned as it was typed.
   */
  lemma {:induction false} PhoneMask(value: string)
    ensures var c, r := Digits(value), FormatPhoneNumber(value);
      && (|c| <= 3 ==> r == c)
      && (4 <= |c| <= 6 ==> r == "(" + c[..3] + ") " + c[3..])
      && (7 <= |c| <= 10 ==> r == "(" + c[..3] + ") " + c[3..6] + "-" + c[6..])
      && (|c| <= 10 ==> |r| <= 14)
      && (10 < |c| ==> r == value)
  {
    var c, r := Digits(value), FormatPhoneNumber(value);
    if |c| <= 3 {
      assert r == c;
    } else if |c| <= 6 {
      assert r == "(" + c[..3] + ") " + c[3..];
    } else if |c| <= 10 {
      assert r == "(" + c[..3] + ") " + c[3..6] + "-" + c[6..];
    }
  }

  /** The punctuation of the phone mask holds no digit. */
  lemma {:induction false} MaskDigits(area: string, exchange: string, line: string)
    requires AllDigits(area) && AllDigits(exchange) && AllDigits(line)
    ensures Digits("(" + area + ") " + exchange + (if line != [] then "-" + line else "")) == area + exchange + line
  {
    DigitsIdentity(area);
    DigitsIdentity(exchange);
    DigitsIdentity(line);
    DigitsOfNonDigits("(");
    DigitsOfNonDigits(") ");
    var tail := if line != [] then "-" + line else "";
    assert Digits(tail) == line by {
      if line != [] {
        DigitsOfNonDigits("-");
        DigitsAppend("-", line);
      }
    }
    calc {
      Digits("(" + area + ") " + exchange + tail);
      == { DigitsAppend("(" + area + ") " + exchange, tail); }
      Digits("(" + area + ") " + exchange) + line;
      == { DigitsAppend("(" + area + ") ", exchange); }
      Digits("(" + area + ") ") + exchange + line;
      == { DigitsAppend("(" + area, ") "); }
      Digits("(" + area) + [] + exchange + line;
      == { DigitsAppend("(", area); }
      [] + area + [] + exchange + line;
      == { assert [] + area + [] == area; }
      area + exchange + line;
    }
  }

  /** Formatting never adds, drops or reorders a digit. */
  lemma {:induction false} PhoneDigits(value: string)
    ensures Digits(FormatPhoneNumber(value)) == Digits(value)
  {
    var c := Digits(value);
    if |c| <= 10 {
      DigitsIdentity(c);
      var area, exchange, line := Slice(c, 0, 3), Slice(c, 3, 6), Slice(c, 6, 10);
      if exchange != [] {
        var mid := if |c| < 6 then |c| else 6;
        assert area == c[..3] && exchange == c[3..mid] && line == c[mid..];
        assert AllDigits(area) && AllDigits(exchange) && AllDigits(line);
        MaskDigits(area, exchange, line);
        SplitThree(c, 3, mid);
      } else {
        assert area == c;
      }
    }
  }

  /** Formatting an already formatted phone number changes nothing. */
  lemma {:induction false} PhoneIdempotent(value: string)
    ensures FormatPhoneNumber(FormatPhoneNumber(value)) == FormatPhoneNumber(value)
  {
    PhoneDigits(value);
  }

  // ---------------------------------------------------------------------------
  // PIN

  /** Every part concatenated, in order. */
  function Concat(parts: seq<string>): string {
    if parts == [] then [] else parts[0] + Concat(parts[1..])
  }

  /** `parts.filter(Boolean)`: the non-empty strings of `parts`, in order. */
  function NonEmpty(parts: seq<string>): (r: seq<string>)
    ensures forall i :: 0 <= i < |r| ==> r[i] != []
    ensures Concat(r) == Concat(parts)
  {
    if parts == [] then []
    else if parts[0] == [] then NonEmpty(parts[1..])
    else
      var r := [parts[0]] + NonEmpty(parts[1..]);
      assert r[1..] == NonEmpty(parts[1..]);
      r
  }

  /** `parts.join(sep)`. */
  function Join(parts: seq<string>, sep: char): string {
    if parts == [] then []
    else if |parts| == 1 then parts[0]
    else parts[0] + [sep] + Join(parts[1..], sep)
  }

  /**
   * The groups of `^(\d{0,4})(\d{0,4})(\d{0,4})(\d{0,4})$` on at most sixteen
   * digits (the clamped slices 0..4, 4..8, 8..12 and 12..16), empty ones dropped.
   */
  function PinGroups(cleaned: string): seq<string>
    requires |cleaned| <= 16
  {
    NonEmpty([Slice(cleaned, 0, 4), Slice(cleaned, 4, 8), Slice(cleaned, 8, 12), Slice(cleaned, 12, 16)])
  }

  /**
   * `formatPin`: the first sixteen digits of `value`, in groups of four joined
   * by `-`. The regular expression always matches a string of at most sixteen
   * digits, so the fallback that returns `value` is never taken.
   */
  function FormatPin(value: string): string {
    var cleaned := Slice(Digits(value), 0, 16);
    if |cleaned| <= 16 then Join(PinGroups(cleaned), '-') else value
  }

  /** The first sixteen digits of `value`: what a PIN field keeps. */
  function PinDigits(value: string): (c: string)
    ensures |c| <= 16 && |c| <= |Digits(value)| && AllDigits(c)
    ensures c == Digits(value)[..|c|]
    ensures |c| < 16 ==> c == Digits(value)
  {
    Slice(Digits(value), 0, 16)
  }

  /** When the first `k` strings are non-empty and the rest empty, dropping the empty ones keeps the first `k`. */
  lemma {:induction false} NonEmptyPrefix(parts: seq<string>, k: nat)
    requires k <= |parts|
    requires forall i :: 0 <= i < k ==> parts[i] != []
    requires forall i :: k <= i < |parts| ==> parts[i] == []
    ensures NonEmpty(parts) == parts[..k]
  {
    if parts != [] {
      if k == 0 {
        NonEmptyPrefix(parts[1..], 0);
      } else {
        NonEmptyPrefix(parts[1..], k - 1);
        assert parts[..k] == [parts[0]] + parts[1..][..k - 1];
      }
    }
  }

  /** The four groups of a PIN, put back together, are the PIN. */
  lemma {:induction false} FourGroupsConcat(c: string)
    requires |c| <= 16
    ensures Concat([Slice(c, 0, 4), Slice(c, 4, 8), Slice(c, 8, 12), Slice(c, 12, 16)]) == c
  {
    var all := [Slice(c, 0, 4), Slice(c, 4, 8), Slice(c, 8, 12), Slice(c, 12, 16)];
    assert Concat(all[4..]) == [];
    assert Concat(all[3..]) == all[3];
    assert Concat(all[2..]) == all[2] + all[3];
    assert Concat(all[1..]) == all[1] + all[2] + all[3];
    assert all[0] + all[1] + all[2] + all[3] == c;
  }

  /** The groups of a PIN of `n` digits are the first `(n + 3) / 4` slices: the later ones are empty. */
  lemma {:induction false} PinGroupsPrefix(c: string)
    requires |c| <= 16
    ensures PinGroups(c) == [Slice(c, 0, 4), Slice(c, 4, 8), Slice(c, 8, 12), Slice(c, 12, 16)][..(|c| + 3) / 4]
  {
    var a0, a1, a2, a3 := Slice(c, 0, 4), Slice(c, 4, 8), Slice(c, 8, 12), Slice(c, 12, 16);
    var all := [a0, a1, a2, a3];
    var k := (|c| + 3) / 4;
    if |c| == 0 {
      assert k == 0 && a0 == [] && a1 == [] && a2 == [] && a3 == [];
    } else if |c| <= 4 {
      assert k == 1 && a0 != [] && a1 == [] && a2 == [] && a3 == [];
    } else if |c| <= 8 {
      assert k == 2 && a0 != [] && a1 != [] && a2 == [] && a3 == [];
    } else if |c| <= 12 {
      assert k == 3 && a0 != [] && a1 != [] && a2 != [] && a3 == [];
    } else {
      assert k == 4 && a0 != [] && a1 != [] && a2 != [] && a3 != [];
    }
    NonEmptyPrefix(all, k);
  }

  /** A PIN splits into full groups of four and a last group of one to four digits. */
  lemma {:induction false} PinGroupsShape(c: string)
    requires |c| <= 16
    ensures var g := PinGroups(c);
      && |g| == (|c| + 3) / 4
      && Concat(g) == c
      && (forall i :: 0 <= i < |g| - 1 ==> |g[i]| == 4)
      && (g != [] ==> 1 <= |g[|g| - 1]| <= 4)
  {
    FourGroupsConcat(c);
    PinGroupsPrefix(c);
  }

  /**
   * A join of four-character groups, position by position: every fifth
   * character is the separator and the others are the characters of the
   * groups, in order.
   */
  lemma {:induction false} JoinGrouped(parts: seq<string>, sep: char)
    requires parts != []
    requires forall i :: 0 <= i < |parts| - 1 ==> |parts[i]| == 4
    requires 1 <= |parts[|parts| - 1]| <= 4
    ensures |Concat(parts)| == 4 * (|parts| - 1) + |parts[|parts| - 1]|
    ensures var j, c := Join(parts, sep), Concat(parts);
      && |j| == |c| + (|c| - 1) / 4
      && forall i :: 0 <= i < |j| ==>
           if i % 5 == 4 then j[i] == sep else i - i / 5 < |c| && j[i] == c[i - i / 5]
  {
    var p := parts[0];
    if |parts| == 1 {
      assert Concat(parts) == p + Concat([]);
    } else {
      var rest := parts[1..];
      JoinGrouped(rest, sep);
      var j, c := Join(parts, sep), Concat(parts);
      var jr, cr := Join(rest, sep), Concat(rest);
      assert j == p + [sep] + jr;
      assert c == p + cr;
      forall i | 0 <= i < |j|
        ensures if i % 5 == 4 then j[i] == sep else i - i / 5 < |c| && j[i] == c[i - i / 5]
      {
        if i >= 5 {
          assert (i - 5) % 5 == i % 5 && (i - 5) / 5 == i / 5 - 1;
          assert j[i] == jr[i - 5];
        }
      }
    }
  }

  /** What the position-by-position description of a mask over digits implies about its characters. */
  lemma {:induction false} MaskOfDigits(c: string, r: string)
    requires AllDigits(c) && |c| <= 16 && c != []
    requires |r| == |c| + (|c| - 1) / 4
    requires forall i :: 0 <= i < |r| ==>
      if i % 5 == 4 then r[i] == '-' else i - i / 5 < |c| && r[i] == c[i - i / 5]
    ensures forall i :: 0 <= i < |r| ==> IsDigit(r[i]) || r[i] == '-'
    ensures |r| <= 19
    ensures IsDigit(r[0]) && IsDigit(r[|r| - 1])
  {
    var n := |r|;
    assert (n - 1) % 5 != 4;
  }

  /**
   * The PIN mask, position by position: with `c` the first sixteen digits of
   * the input, a hyphen stands exactly at every fifth position and every other
   * position holds the next digit of `c`. So the output has only digits and
   * hyphens, at most nineteen characters, no empty group (it neither starts
   * nor ends with a hyphen), and no digits gives the empty string.
   */
  lemma {:induction false} PinShape(value: string)
    ensures var c, r := PinDigits(value), FormatPin(value);
      && |r| == (if c == [] then 0 else |c| + (|c| - 1) / 4)
      && (forall i :: 0 <= i < |r| ==>
            if i % 5 == 4 then r[i] == '-' else i - i / 5 < |c| && r[i] == c[i - i / 5])
      && (forall i :: 0 <= i < |r| ==> IsDigit(r[i]) || r[i] == '-')
      && |r| <= 19
      && (r != [] ==> IsDigit(r[0]) && IsDigit(r[|r| - 1]))
  {
    var c, r := PinDigits(value), FormatPin(value);
    var g := PinGroups(c);
    assert r == Join(g, '-');
    PinGroupsShape(c);
    if c != [] {
      JoinGrouped(g, '-');
      MaskOfDigits(c, r);
    }
  }

  lemma {:induction false} JoinDigits(parts: seq<string>)
    requires forall i :: 0 <= i < |parts| ==> AllDigits(parts[i])
    ensures Digits(Join(parts, '-')) == Concat(parts)
  {
    if parts != [] {
      var p := parts[0];
      DigitsIdentity(p);
      if |parts| == 1 {
        assert Concat(parts) == p + Concat([]);
      } else {
        var rest := parts[1..];
        assert forall i :: 0 <= i < |rest| ==> AllDigits(rest[i]) by {
          forall i | 0 <= i < |rest| ensures AllDigits(rest[i]) { assert rest[i] == parts[i + 1]; }
        }
        calc {
          Digits(Join(parts, '-'));
          == { assert Join(parts, '-') == (p + "-") + Join(rest, '-'); }
          Digits((p + "-") + Join(rest, '-'));
          == { DigitsAppend(p + "-", Join(rest, '-')); }
          Digits(p + "-") + Digits(Join(rest, '-'));
          == { DigitsAppend(p, "-"); DigitsOfNonDigits("-"); JoinDigits(rest); }
          p + [] + Concat(rest);
          == { assert p + [] == p; }
          Concat(parts);
        }
      }
    }
  }

  /** The digits of a formatted PIN are exactly the first sixteen digits of the input, in order. */
  lemma {:induction false} PinDigitsPreserved(value: string)
    ensures Digits(FormatPin(value)) == PinDigits(value)
  {
    var c := PinDigits(value);
    PinGroupsShape(c);
    var g := PinGroups(c);
    forall i | 0 <= i < |g| ensures AllDigits(g[i]) {
      PinGroupDigits(c, g, i);
    }
    JoinDigits(g);
  }

  /** Each group of a PIN is a run of its digits. */
  lemma {:induction false} PinGroupDigits(c: string, g: seq<string>, i: nat)
    requires |c| <= 16 && AllDigits(c) && g == PinGroups(c) && i < |g|
    ensures AllDigits(g[i])
  {
    PinGroupsShape(c);
    var lo := 4 * i;
    ConcatSplit(g, i);
    assert g[i] == c[lo..lo + |g[i]|];
  }

  /** In a concatenation of groups of four, group `i` starts at position `4 * i`. */
  lemma {:induction false} ConcatSplit(g: seq<string>, i: nat)
    requires i < |g|
    requires forall k :: 0 <= k < |g| - 1 ==> |g[k]| == 4
    ensures 4 * i + |g[i]| <= |Concat(g)|
    ensures Concat(g)[4 * i..4 * i + |g[i]|] == g[i]
  {
    if i > 0 {
      ConcatSplit(g[1..], i - 1);
      assert Concat(g) == g[0] + Concat(g[1..]);
    }
  }

  /** Formatting an already formatted PIN changes nothing. */
  lemma {:induction false} PinIdempotent(value: string)
    ensures FormatPin(FormatPin(value)) == FormatPin(value)
  {
    var r := FormatPin(value);
    PinDigitsPreserved(value);
    assert PinDigits(r) == PinDigits(value);
  }
}
