/** Decimal rendering of natural numbers: `Number.prototype.toString()` and
    `toLocaleString('id-ID')`, whose Indonesian grouping puts a '.' between
    each group of three digits counted from the right (25000 is "25.000"). */
module Locale {

  predicate IsDigit(c: char) {
    '0' <= c <= '9'
  }

  predicate AllDigits(s: string) {
    forall i :: 0 <= i < |s| ==> IsDigit(s[i])
  }

  function DigitChar(d: nat): (c: char)
    requires d < 10
    ensures IsDigit(c)
  {
    (d + '0' as int) as char
  }

  function DigitValue(c: char): (d: nat)
    requires IsDigit(c)
    ensures d < 10 && DigitChar(d) == c
  {
    c as int - '0' as int
  }

  /** The decimal text of `n` without leading zeros, as `String(n)` writes it. */
  function Digits(n: nat): (s: string)
    ensures |s| >= 1 && AllDigits(s)
    ensures s[0] == '0' ==> n == 0
  {
    if n < 10 then [DigitChar(n)] else Digits(n / 10) + [DigitChar(n % 10)]
  }

  /** Reads a string of decimal digits as the number it denotes (the empty string is 0). */
  function DecimalValue(s: string): nat
    requires AllDigits(s)
  {
    if s == [] then 0 else DecimalValue(s[..|s| - 1]) * 10 + DigitValue(s[|s| - 1])
  }

  /** The digits of `n` read back give `n`. */
  lemma {:induction false} DigitsRoundTrip(n: nat)
    ensures DecimalValue(Digits(n)) == n
  {
    var s := Digits(n);
    if n >= 10 {
      DigitsRoundTrip(n / 10);
      assert s[..|s| - 1] == Digits(n / 10);
    }
  }

  /** Deletes every '.' from `s`. */
  function RemoveDots(s: string): (r: string)
    ensures |r| <= |s|
    ensures '.' !in r
  {
    if s == [] then [] else (if s[0] == '.' then [] else [s[0]]) + RemoveDots(s[1..])
  }

  lemma {:induction false} RemoveDotsAppend(a: string, b: string)
    ensures RemoveDots(a + b) == RemoveDots(a) + RemoveDots(b)
  {
    if a != [] {
      assert (a + b)[1..] == a[1..] + b;
      RemoveDotsAppend(a[1..], b);
    } else {
      assert a + b == b;
    }
  }

  lemma {:induction false} RemoveDotsOfDigits(s: string)
    requires AllDigits(s)
    ensures RemoveDots(s) == s
  {
    if s != [] {
      RemoveDotsOfDigits(s[1..]);
    }
  }

  /** Separator placement of the grouped form: a '.' stands exactly at the
      positions that are a positive multiple of four characters before the end,
      so every group after the first has exactly three digits, and the length
      is not a multiple of four, so the first group has one to three digits. */
  ghost predicate GroupedShape(r: string) {
    && |r| % 4 != 0
    && forall i :: 0 <= i < |r| ==> (r[i] == '.' <==> 0 < i && (|r| - i) % 4 == 0)
  }

  /** Puts a '.' between each group of three digits, counted from the right. */
  function InsertDots(s: string): (r: string)
    requires AllDigits(s)
    ensures RemoveDots(r) == s
    ensures |s| > 0 ==> GroupedShape(r)
    ensures forall i :: 0 <= i < |r| && r[i] != '.' ==> IsDigit(r[i])
    ensures |s| > 0 ==> |r| > 0 && r[0] == s[0]
  {
    if |s| <= 3 then
      RemoveDotsOfDigits(s);
      s
    else
      var q, t := s[..|s| - 3], s[|s| - 3..];
      SplitDigits(s, q, t);
      var p := InsertDots(q);
      JoinGroups(p, t, q);
      assert (p + "." + t)[0] == p[0];
      p + "." + t
  }

  lemma SplitDigits(s: string, q: string, t: string)
    requires AllDigits(s) && |s| > 3 && q == s[..|s| - 3] && t == s[|s| - 3..]
    ensures AllDigits(q) && AllDigits(t) && |t| == 3 && |q| > 0 && q[0] == s[0] && s == q + t
  {
  }

  /** One step of `InsertDots`: appending a separator and a three-digit group. */
  lemma JoinGroups(p: string, t: string, q: string)
    requires AllDigits(t) && |t| == 3 && |p| > 0
    requires RemoveDots(p) == q && GroupedShape(p)
    requires forall i :: 0 <= i < |p| && p[i] != '.' ==> IsDigit(p[i])
    ensures RemoveDots(p + "." + t) == q + t
    ensures GroupedShape(p + "." + t)
    ensures forall i :: 0 <= i < |p + "." + t| && (p + "." + t)[i] != '.' ==> IsDigit((p + "." + t)[i])
  {
    JoinRemovesDots(p, t);
    JoinShape(p, t);
  }

  lemma JoinRemovesDots(p: string, t: string)
    requires AllDigits(t)
    ensures RemoveDots(p + "." + t) == RemoveDots(p) + t
  {
    var d := "." + t;
    assert p + "." + t == p + d;
    RemoveDotsAppend(p, d);
    assert d[0] == '.' && d[1..] == t;
    assert RemoveDots(d) == RemoveDots(t);
    RemoveDotsOfDigits(t);
  }

  lemma JoinShape(p: string, t: string)
    requires AllDigits(t) && |t| == 3 && |p| > 0 && GroupedShape(p)
    ensures GroupedShape(p + "." + t)
  {
    var r := p + "." + t;
    forall i | 0 <= i < |r|
      ensures r[i] == '.' <==> 0 < i && (|r| - i) % 4 == 0
    {
      if i < |p| {
        assert r[i] == p[i];
        ModFour(|p| - i);
      } else if i > |p| {
        assert r[i] == t[i - |p| - 1];
      }
    }
    ModFour(|p|);
  }

  lemma ModFour(k: int)
    ensures (k + 4) % 4 == k % 4
  {
  }

  /** `n.toLocaleString('id-ID')` for a natural number `n`. */
  function Group(n: nat): (r: string)
    ensures GroupedShape(r)
    ensures forall i :: 0 <= i < |r| && r[i] != '.' ==> IsDigit(r[i])
    ensures |r| > 0 && r[0] != '.'
    ensures RemoveDots(r) == Digits(n)
    ensures DecimalValue(RemoveDots(r)) == n
  {
    DigitsRoundTrip(n);
    InsertDots(Digits(n))
  }

  /** Below one thousand there is no separator: the grouped form is the plain decimal text. */
  lemma SmallNumbersUngrouped(n: nat)
    requires n < 1000
    ensures Group(n) == Digits(n)
  {
    ShortDigits(n);
    InsertDotsShort(Digits(n));
  }

  lemma ShortDigits(n: nat)
    requires n < 1000
    ensures |Digits(n)| <= 3
  {
    if n >= 10 {
      if n >= 100 {
        assert |Digits(n / 100)| == 1;
      }
      assert |Digits(n / 10)| <= 2;
    }
  }

  lemma InsertDotsShort(s: string)
    requires AllDigits(s) && |s| <= 3
    ensures InsertDots(s) == s
  {
  }

  /** A whole number of thousands below a million shows its thousands, a
      separator and three zeros: 25000 is "25.000". */
  lemma WholeThousands(k: nat, n: nat)
    requires 1 <= k < 1000 && n == k * 1000
    ensures Group(n) == Digits(k) + ".000"
  {
    ThousandsDigits(k, n);
    ShortDigits(k);
    InsertDotsShort(Digits(k));
    GroupOfThousands(n, Digits(k));
  }

  lemma GroupOfThousands(n: nat, q: string)
    requires n >= 1000 && Digits(n) == q + "000" && AllDigits(q) && InsertDots(q) == q
    ensures Group(n) == q + ".000"
  {
    var s := Digits(n);
    assert s[..|s| - 3] == q && s[|s| - 3..] == "000";
    GroupStep(n);
    assert q + "." + "000" == q + ".000";
  }

  /** Above 999 the grouped form is the grouped form of the leading digits, a
      separator and the last three digits. */
  lemma GroupStep(n: nat)
    requires n >= 1000
    ensures var s := Digits(n); |s| > 3 && Group(n) == InsertDots(s[..|s| - 3]) + "." + s[|s| - 3..]
  {
    var s := Digits(n);
    LongDigits(n);
    assert Group(n) == InsertDots(s);
    InsertDotsLong(s);
  }

  lemma LongDigits(n: nat)
    requires n >= 1000
    ensures |Digits(n)| > 3
  {
    assert n / 10 >= 100 && n / 10 / 10 >= 10;
    assert |Digits(n / 10 / 10)| >= 2;
    assert |Digits(n / 10)| >= 3;
  }

  lemma InsertDotsLong(s: string)
    requires AllDigits(s) && |s| > 3
    ensures InsertDots(s) == InsertDots(s[..|s| - 3]) + "." + s[|s| - 3..]
  {
  }

  lemma ThousandsDigits(k: nat, n: nat)
    requires 1 <= k && n == k * 1000
    ensures Digits(n) == Digits(k) + "000"
  {
    TimesTen(k);
    TimesTen(k * 10);
    TimesTen(k * 100);
    assert Digits(k) + "0" + "0" + "0" == Digits(k) + "000";
  }

  /** Appending a zero digit multiplies by ten. */
  lemma TimesTen(m: nat)
    requires m >= 1
    ensures Digits(m * 10) == Digits(m) + "0"
  {
    assert (m * 10) / 10 == m && (m * 10) % 10 == 0;
  }
}
