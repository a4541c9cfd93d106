/**
 * The few java.lang.String and java.lang.Integer routines the app relies on:
 * trim, split("@")[0], contains and Integer.parseInt.
 */
module Text {
  import opened Wrappers

  /** String.trim removes every leading and trailing char whose code is at most U+0020. */
  predicate IsTrimmed(c: char) {
    c <= ' '
  }

  /** The first index at or after `i` that is not padding (|s| if none): trim's forward scan. */
  function LeadingPad(s: string, i: nat): (n: nat)
    requires i <= |s|
    ensures i <= n <= |s|
    ensures forall k :: i <= k < n ==> IsTrimmed(s[k])
    ensures n < |s| ==> !IsTrimmed(s[n])
    decreases |s| - i
  {
    if i < |s| && IsTrimmed(s[i]) then LeadingPad(s, i + 1) else i
  }

  /** The end index once trailing padding before `j` is dropped, never below `lo`: trim's backward scan. */
  function TrailingEnd(s: string, j: nat, lo: nat): (m: nat)
    requires lo <= j <= |s|
    ensures lo <= m <= j
    ensures forall k :: m <= k < j ==> IsTrimmed(s[k])
    ensures m > lo ==> !IsTrimmed(s[m - 1])
  {
    if j > lo && IsTrimmed(s[j - 1]) then TrailingEnd(s, j - 1, lo) else j
  }

  /** `r` is `s` with `a` padding chars removed before it and only padding removed after it. */
  predicate PaddedSlice(s: string, r: string, a: nat) {
    && a + |r| <= |s| && r == s[a..a + |r|]
    && (forall k :: 0 <= k < a ==> IsTrimmed(s[k]))
    && (forall k :: a + |r| <= k < |s| ==> IsTrimmed(s[k]))
  }

  /**
   * Java's String.trim(): the slice of `s` left once every leading and every
   * trailing char at most U+0020 is removed.
   */
  function Trim(s: string): (r: string)
    ensures exists a: nat :: PaddedSlice(s, r, a)
    ensures r == [] <==> forall i :: 0 <= i < |s| ==> IsTrimmed(s[i])
    ensures r != [] ==> !IsTrimmed(r[0]) && !IsTrimmed(r[|r| - 1])
  {
    var a := LeadingPad(s, 0);
    var b := TrailingEnd(s, |s|, a);
    assert PaddedSlice(s, s[a..b], a);
    s[a..b]
  }

  /** A string with no padding at either end is its own trim. */
  lemma TrimUnpadded(s: string)
    requires s == [] || (!IsTrimmed(s[0]) && !IsTrimmed(s[|s| - 1]))
    ensures Trim(s) == s
  {
    if s != [] {
      assert LeadingPad(s, 0) == 0;
      assert TrailingEnd(s, |s|, 0) == |s|;
    }
  }

  /**
   * `s.split(sep)[0]`: the text before the first occurrence of `sep`
   * (the whole string when `sep` does not occur).
   */
  function BeforeFirst(s: string, sep: char): (r: string)
    ensures |r| <= |s| && r == s[..|r|]
    ensures sep !in r
    ensures |r| < |s| ==> s[|r|] == sep
  {
    if s == [] || s[0] == sep then [] else [s[0]] + BeforeFirst(s[1..], sep)
  }

  predicate OccursAt(s: string, sub: string, i: nat)
    requires i + |sub| <= |s|
  {
    s[i..i + |sub|] == sub
  }

  /** String.contains. */
  predicate Contains(s: string, sub: string) {
    exists i: nat :: i + |sub| <= |s| && OccursAt(s, sub, i)
  }

  lemma ContainsInfix(pre: string, sub: string, post: string)
    ensures Contains(pre + sub + post, sub)
  {
    var s := pre + sub + post;
    assert s[|pre|..|pre| + |sub|] == sub;
    assert OccursAt(s, sub, |pre|);
  }

  // ---- Integer.parseInt (ASCII digits) ----

  const INT_MIN: int := -0x8000_0000
  const INT_MAX: int := 0x7fff_ffff

  predicate IsDigit(c: char) {
    '0' <= c <= '9'
  }

  predicate AllDigits(s: string) {
    forall i :: 0 <= i < |s| ==> IsDigit(s[i])
  }

  function DigitValue(c: char): (d: nat)
    requires IsDigit(c)
    ensures d < 10
  {
    (c as int) - ('0' as int)
  }

  function DigitChar(d: nat): (c: char)
    requires d < 10
    ensures IsDigit(c) && DigitValue(c) == d
  {
    (('0' as int) + d) as char
  }

  /** The value of a run of decimal digits, most significant first. */
  function DigitsValue(s: string): nat
    requires AllDigits(s)
  {
    if s == [] then 0 else 10 * DigitsValue(s[..|s| - 1]) + DigitValue(s[|s| - 1])
  }

  /** The text after an optional leading '-' or '+'. */
  function Unsigned(s: string): string {
    if s != [] && (s[0] == '-' || s[0] == '+') then s[1..] else s
  }

  /** The integer a sign and a run of digits denote. */
  function Denoted(s: string): int
    requires s != [] && AllDigits(Unsigned(s))
  {
    var v: int := DigitsValue(Unsigned(s));
    if s[0] == '-' then -v else v
  }

  /** The texts Integer.parseInt accepts: an optional sign, at least one digit, a value that fits 32 bits. */
  predicate Parsable(s: string) {
    s != [] && Unsigned(s) != [] && AllDigits(Unsigned(s)) && INT_MIN <= Denoted(s) <= INT_MAX
  }

  /** Integer.parseInt (radix 10): None where Java throws NumberFormatException. */
  function ParseInt(s: string): (r: Option<int>)
    ensures r.Some? <==> Parsable(s)
    ensures r.Some? ==> r.value == Denoted(s) && INT_MIN <= r.value <= INT_MAX
    ensures r.Some? && s[0] == '-' ==> r.value <= 0
    ensures r.Some? && s[0] != '-' ==> r.value >= 0
  {
    if s == [] then None
    else
      var digits := if s[0] == '-' || s[0] == '+' then s[1..] else s;
      if digits == [] || !AllDigits(digits) then None
      else
        var v: int := if s[0] == '-' then 0 - (DigitsValue(digits) as int) else DigitsValue(digits);
        if INT_MIN <= v <= INT_MAX then Some(v) else None
  }

  /** Short texts: a plus sign, leading zeros and negative zero are read; a bare sign and stray chars are not. */
  lemma ParseIntExamples()
    ensures ParseInt("+5") == Some(5)
    ensures ParseInt("007") == Some(7)
    ensures ParseInt("-0") == Some(0)
    ensures ParseInt("-") == None
    ensures ParseInt(" 5") == None
    ensures ParseInt("4a") == None
  {
    assert Unsigned("+5") == "5";
    assert DigitsValue("5") == 5;
    assert "007"[..2] == "00" && "00"[..1] == "0";
    assert DigitsValue("007") == 7;
    assert Unsigned("-0") == "0";
    assert DigitsValue("0") == 0;
    assert Unsigned("-") == [];
    assert " 5"[0] == ' ' && !IsDigit(' ');
    assert "4a"[1] == 'a' && !IsDigit('a');
  }

  /** A leading zero does not change the value of a run of digits. */
  lemma {:induction false} LeadingZero(d: string)
    requires AllDigits(d)
    ensures AllDigits("0" + d) && DigitsValue("0" + d) == DigitsValue(d)
  {
    var z := "0" + d;
    assert IsDigit(z[0]);
    assert forall i :: 1 <= i < |z| ==> z[i] == d[i - 1];
    if d != [] {
      assert z[..|z| - 1] == "0" + d[..|d| - 1];
      assert z[|z| - 1] == d[|d| - 1];
      LeadingZero(d[..|d| - 1]);
    }
  }

  /** A '+' sign reads the same as no sign. */
  lemma PlusSign(d: string)
    requires d != [] && AllDigits(d)
    ensures ParseInt("+" + d) == ParseInt(d)
  {
    assert Unsigned("+" + d) == d;
    assert d[0] != '-' && d[0] != '+' by { assert IsDigit(d[0]); }
  }

  /** The decimal text of a number beyond the 32-bit range is refused, with or without a sign. */
  lemma ParseOutOfRange(n: nat)
    requires n > INT_MAX
    ensures ParseInt(ShowNat(n)) == None
    ensures ParseInt("+" + ShowNat(n)) == None
    ensures n > -INT_MIN ==> ParseInt("-" + ShowNat(n)) == None
  {
    var d := ShowNat(n);
    DigitsValueShowNat(n);
    assert IsDigit(d[0]);
    assert Unsigned(d) == d;
    PlusSign(d);
    assert Unsigned("-" + d) == d;
  }

  /** Decimal rendering of a natural number, without leading zeros. */
  function ShowNat(n: nat): (s: string)
    ensures s != [] && AllDigits(s)
  {
    if n < 10 then [DigitChar(n)] else ShowNat(n / 10) + [DigitChar(n % 10)]
  }

  lemma {:induction false} DigitsValueShowNat(n: nat)
    ensures DigitsValue(ShowNat(n)) == n
  {
    if n >= 10 {
      var s := ShowNat(n);
      assert s[..|s| - 1] == ShowNat(n / 10);
      DigitsValueShowNat(n / 10);
    }
  }

  /** Integer.toString: the rendering that parseInt reads back. */
  function ShowInt(n: int): string {
    if n < 0 then "-" + ShowNat(-n) else ShowNat(n)
  }

  /** parseInt(Integer.toString(n)) == n for every 32-bit n. */
  lemma ParseShowInt(n: int)
    requires INT_MIN <= n <= INT_MAX
    ensures ParseInt(ShowInt(n)) == Some(n)
  {
    var s := ShowInt(n);
    if n < 0 {
      var digits := ShowNat(-n);
      assert s[0] == '-' && s[1..] == digits;
      assert Unsigned(s) == digits;
      DigitsValueShowNat(-n);
      assert Denoted(s) == n;
    } else {
      var digits := ShowNat(n);
      assert s == digits && IsDigit(s[0]);
      assert Unsigned(s) == digits;
      DigitsValueShowNat(n);
      assert Denoted(s) == n;
    }
  }
}
