/**
 * The pieces of Rust's `str` that the drivers rely on: `find`, `split_once`
 * and `parse` for the integer types `u32`, `u64` and `i32`, plus a decimal
 * rendering used to state round trips. Strings are sequences of characters;
 * indices count characters rather than UTF-8 bytes, which agree for the
 * ASCII text the drivers handle.
 */
module Text {
  import opened Wrappers

  const U32_LIMIT: nat := 0x1_0000_0000
  const U64_LIMIT: nat := 0x1_0000_0000_0000_0000
  const I32_MIN: int := -0x8000_0000
  const I32_MAX: int := 0x7FFF_FFFF

  /** `pat` occurs in `s` starting at character `j`. */
  predicate OccursAt(s: string, pat: string, j: nat)
  {
    j + |pat| <= |s| && s[j..j + |pat|] == pat
  }

  /** `s.find(pat)`: the index of the first occurrence of `pat` in `s`. */
  function Find(s: string, pat: string): (r: Option<nat>)
    ensures r.Some? ==> OccursAt(s, pat, r.value)
    ensures r.Some? ==> forall j :: 0 <= j < r.value ==> !OccursAt(s, pat, j)
    ensures r.None? ==> forall j: nat :: !OccursAt(s, pat, j)
    decreases |s|
  {
    if |s| < |pat| then None
    else if s[..|pat|] == pat then Some(0)
    else
      assert !OccursAt(s, pat, 0) by { assert s[0..|pat|] == s[..|pat|]; }
      ShiftOccurrence(s, pat);
      match Find(s[1..], pat)
      case None => None
      case Some(i) => Some(i + 1)
  }

  /** An occurrence in `s[1..]` is an occurrence in `s`, one place later. */
  lemma ShiftOccurrence(s: string, pat: string)
    requires |s| > 0
    ensures forall j: nat :: OccursAt(s[1..], pat, j) ==> OccursAt(s, pat, j + 1)
    ensures forall j: nat :: 0 < j && OccursAt(s, pat, j) ==> OccursAt(s[1..], pat, j - 1)
  {
    forall j: nat
      ensures OccursAt(s[1..], pat, j) <==> OccursAt(s, pat, j + 1)
    {
      if j + |pat| <= |s[1..]| {
        assert s[1..][j..j + |pat|] == s[j + 1..j + 1 + |pat|];
      }
    }
  }

  /** `s.find(c)` for a single character `c`. */
  function FindChar(s: string, c: char): (r: Option<nat>)
    ensures r.Some? ==> r.value < |s| && s[r.value] == c && c !in s[..r.value]
    ensures r.None? <==> c !in s
  {
    if s == [] then None
    else if s[0] == c then Some(0)
    else
      match FindChar(s[1..], c)
      case None => None
      case Some(i) =>
        assert s[..i + 1] == [s[0]] + s[1..][..i];
        Some(i + 1)
  }

  /** `s.split_once(sep)`: the text before and after the first `sep`. */
  function SplitOnce(s: string, sep: char): (r: Option<(string, string)>)
    ensures r.None? <==> sep !in s
  {
    match FindChar(s, sep)
    case None => None
    case Some(i) => Some((s[..i], s[i + 1..]))
  }

  /** The two halves of a split surround the first separator. */
  lemma SplitOnceParts(s: string, sep: char)
    requires SplitOnce(s, sep).Some?
    ensures var (head, tail) := SplitOnce(s, sep).value;
            s == head + [sep] + tail && sep !in head
  {
    var i := FindChar(s, sep).value;
    assert s == s[..i] + [sep] + s[i + 1..];
  }

  /** Splitting a text at its first separator gives back the two halves. */
  lemma SplitOnceAtFirst(head: string, sep: char, tail: string)
    requires sep !in head
    ensures SplitOnce(head + [sep] + tail, sep) == Some((head, tail))
  {
    var s := head + [sep] + tail;
    assert s[|head|] == sep;
    var i := FindChar(s, sep).value;
    assert i == |head| by {
      assert s[..|head|] == head;
    }
    assert s[..i] == head && s[i + 1..] == tail;
  }

  predicate IsDigit(c: char)
  {
    '0' <= c <= '9'
  }

  predicate AllDigits(s: string)
  {
    forall i :: 0 <= i < |s| ==> IsDigit(s[i])
  }

  function DigitValue(c: char): (d: nat)
    requires IsDigit(c)
    ensures d < 10
  {
    c as int - '0' as int
  }

  function DigitChar(d: nat): (c: char)
    requires d < 10
    ensures IsDigit(c) && DigitValue(c) == d
  {
    ('0' as int + d) as char
  }

  function Pow10(n: nat): (p: nat)
    ensures p >= 1
  {
    if n == 0 then 1 else 10 * Pow10(n - 1)
  }

  /** The value of a string of decimal digits, most significant first. */
  function DigitsValue(s: string): (v: nat)
    requires AllDigits(s)
    ensures v < Pow10(|s|)
  {
    if s == [] then 0 else 10 * DigitsValue(s[..|s| - 1]) + DigitValue(s[|s| - 1])
  }

  /** The shortest decimal rendering of `n` (no sign, no leading zeros). */
  function ShowNat(n: nat): (s: string)
    ensures s != [] && AllDigits(s)
  {
    if n < 10 then [DigitChar(n)] else ShowNat(n / 10) + [DigitChar(n % 10)]
  }

  /** `n` rendered as Rust's `Display` renders an integer. */
  function ShowInt(n: int): (s: string)
    ensures s != []
  {
    if n < 0 then "-" + ShowNat(-n) else ShowNat(n)
  }

  lemma {:induction false} ShowNatValue(n: nat)
    ensures DigitsValue(ShowNat(n)) == n
  {
    if n >= 10 {
      var s := ShowNat(n);
      assert s[..|s| - 1] == ShowNat(n / 10);
      ShowNatValue(n / 10);
    }
  }

  /** A leading zero does not change the value of a digit string. */
  lemma {:induction false} LeadingZeroValue(s: string)
    requires AllDigits(s)
    ensures AllDigits("0" + s) && DigitsValue("0" + s) == DigitsValue(s)
  {
    if s != [] {
      var z := "0" + s;
      assert z[..|z| - 1] == "0" + s[..|s| - 1];
      LeadingZeroValue(s[..|s| - 1]);
    }
  }

  /**
   * `s.parse::<T>()` for an unsigned integer type T whose values lie below
   * `limit`: an optional `+` (not on its own), then one or more decimal
   * digits, with a value that fits. Every other text is refused.
   */
  function ParseUnsigned(s: string, limit: nat): (r: Option<nat>)
    ensures r.Some? ==> r.value < limit
    ensures r.Some? ==> s != [] && (IsDigit(s[0]) || s[0] == '+')
  {
    var digits := if |s| > 1 && s[0] == '+' then s[1..] else s;
    if digits != [] && AllDigits(digits) && DigitsValue(digits) < limit then
      Some(DigitsValue(digits))
    else
      None
  }

  /**
   * `s.parse::<i32>()`: an optional sign (not on its own), then one or more
   * decimal digits, with a value in the range of `i32`.
   */
  function ParseI32(s: string): (r: Option<int>)
    ensures r.Some? ==> I32_MIN <= r.value <= I32_MAX
    ensures r.Some? ==> s != [] && IsDigit(s[|s| - 1])
  {
    var negative := |s| > 1 && s[0] == '-';
    var digits := if |s| > 1 && (s[0] == '+' || s[0] == '-') then s[1..] else s;
    if digits == [] || !AllDigits(digits) then None
    else
      var v: int := if negative then -(DigitsValue(digits) as int) else DigitsValue(digits);
      assert digits[|digits| - 1] == s[|s| - 1];
      if I32_MIN <= v <= I32_MAX then Some(v) else None
  }

  /** Parsing the rendering of a number that fits gives the number back. */
  lemma ParseShowUnsigned(n: nat, limit: nat)
    ensures ParseUnsigned(ShowNat(n), limit) == if n < limit then Some(n) else None
  {
    ShowNatValue(n);
  }

  /** Leading zeros are accepted and do not change the parsed number. */
  lemma ParseLeadingZero(s: string, limit: nat)
    requires s != [] && AllDigits(s)
    ensures ParseUnsigned("0" + s, limit) == ParseUnsigned(s, limit)
  {
    LeadingZeroValue(s);
  }

  /** Every `i32` survives rendering and parsing. */
  lemma ParseShowI32(n: int)
    requires I32_MIN <= n <= I32_MAX
    ensures ParseI32(ShowInt(n)) == Some(n)
  {
    if n < 0 {
      ShowNatValue(-n);
      assert ShowInt(n)[1..] == ShowNat(-n);
    } else {
      ShowNatValue(n);
    }
  }

  /** A character that is not a digit at the end of the text makes `i32` parsing fail. */
  lemma TrailingNonDigitRejected(s: string, c: char)
    requires !IsDigit(c)
    ensures ParseI32(s + [c]) == None
  {
  }

  /**
   * The number a device directory name carries before its first `-`, as
   * `name.split_once('-')` followed by `parse` yields it: `None` when the name
   * has no `-` or the text before it is not a number below `limit`.
   */
  function FamilyPrefix(name: string, limit: nat): (r: Option<nat>)
    ensures r.Some? ==> r.value < limit
  {
    match SplitOnce(name, '-')
    case None => None
    case Some((head, _)) => ParseUnsigned(head, limit)
  }

  /** A name that carries a family number has a `-` and starts with a digit or `+`. */
  lemma FamilyPrefixShape(name: string, limit: nat)
    requires FamilyPrefix(name, limit).Some?
    ensures '-' in name && (IsDigit(name[0]) || name[0] == '+')
  {
    SplitOnceParts(name, '-');
    var head := SplitOnce(name, '-').value.0;
    assert name[|head|] == '-';
    assert name[0] == head[0];
  }

  /** The family prefix of `head-tail` is `head` read as a number. */
  lemma FamilyPrefixOf(head: string, tail: string, limit: nat)
    requires '-' !in head
    ensures FamilyPrefix(head + "-" + tail, limit) == ParseUnsigned(head, limit)
  {
    SplitOnceAtFirst(head, '-', tail);
  }
}
