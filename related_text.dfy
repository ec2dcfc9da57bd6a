/**
 * The text helpers of related-work discovery: decimal formatting, the human-readable reasons,
 * shortening and limiting lists of strings, and the status filter.
 */
module RelatedText {
  import opened Wrappers
  import opened History

  // ---------------------------------------------------------------- decimal numbers

  function DigitChar(d: nat): (c: char)
    requires d < 10
    ensures '0' <= c <= '9'
  {
    ('0' as int + d) as char
  }

  /** The decimal digits of `n`, most significant first; none for zero. */
  function Digits(n: nat): (s: string)
    ensures forall i :: 0 <= i < |s| ==> '0' <= s[i] <= '9'
    ensures n > 0 ==> |s| > 0 && s[0] != '0'
  {
    if n == 0 then "" else
      var s := Digits(n / 10) + [DigitChar(n % 10)];
      assert n / 10 == 0 ==> s == [DigitChar(n % 10)];
      s
  }

  /** The decimal representation: "0" for zero, a leading '-' for negatives, no leading zeros. */
  function Decimal(n: int): (s: string)
    ensures |s| > 0
  {
    if n == 0 then "0" else if n < 0 then "-" + Digits(-n) else Digits(n)
  }

  function DigitsValue(s: string): nat
    requires forall i :: 0 <= i < |s| ==> '0' <= s[i] <= '9'
  {
    if s == [] then 0 else DigitsValue(s[..|s| - 1]) * 10 + (s[|s| - 1] as int - '0' as int)
  }

  /** A string `ParseDecimal` can read: digits, with an optional leading '-' before at least one. */
  predicate WellFormedDecimal(s: string)
  {
    |s| > 0 && (s[0] == '-' ==> |s| > 1) &&
    forall i :: 0 <= i < |s| ==> ('0' <= s[i] <= '9' || (i == 0 && s[i] == '-'))
  }

  /** Reading a decimal string back. */
  function ParseDecimal(s: string): int
    requires WellFormedDecimal(s)
  {
    if s[0] == '-' then -(DigitsValue(s[1..]) as int) else DigitsValue(s)
  }

  lemma {:induction false} DigitsRoundTrip(n: nat)
    ensures DigitsValue(Digits(n)) == n
  {
    if n > 0 {
      DigitsRoundTrip(n / 10);
      var s := Digits(n);
      assert s[..|s| - 1] == Digits(n / 10);
    }
  }

  lemma DecimalWellFormed(n: int)
    ensures WellFormedDecimal(Decimal(n))
  {
    if n < 0 {
      var d := Digits(-n);
      assert forall i :: 1 <= i < |d| + 1 ==> ("-" + d)[i] == d[i - 1];
    }
  }

  /** `Decimal` is read back as the number it was made from. */
  lemma DecimalRoundTrip(n: int)
    ensures WellFormedDecimal(Decimal(n)) && ParseDecimal(Decimal(n)) == n
  {
    DecimalWellFormed(n);
    var s := Decimal(n);
    if n < 0 {
      DigitsRoundTrip(-n);
      assert s[1..] == Digits(-n);
    } else if n > 0 {
      DigitsRoundTrip(n);
      assert s == Digits(n) && s[0] != '-';
    } else {
      assert s[..0] == "";
      assert DigitsValue(s) == DigitsValue(s[..0]) * 10 + (s[0] as int - '0' as int) == 0;
    }
  }

  /** The sign is the first character exactly for negatives, and the digits have no leading zero. */
  lemma DecimalShape(n: int)
    ensures Decimal(n)[0] == '-' <==> n < 0
    ensures n != 0 ==> Decimal(n) != "0" && (n > 0 ==> Decimal(n)[0] != '0') && (n < 0 ==> Decimal(n)[1] != '0')
  {
  }

  /** `formatIntRelated` on unbounded integers: the digits are produced least significant first. */
  method FormatIntRelated(n: int) returns (result: string)
    ensures result == Decimal(n)
  {
    if n == 0 {
      return "0";
    }
    result := "";
    var neg := n < 0;
    var m: nat := if neg then -n else n;
    ghost var abs := m;
    while m > 0
      invariant Digits(abs) == Digits(m) + result
      decreases m
    {
      ghost var prev := result;
      result := [DigitChar(m % 10)] + result;
      assert Digits(m) + prev == Digits(m / 10) + result;
      m := m / 10;
    }
    assert result == Digits(abs);
    if neg {
      result := "-" + result;
    }
  }

  const MinInt64: int := -0x8000_0000_0000_0000

  /** Go's `-n` on a 64-bit int: the minimum value is its own negation. */
  function Neg64(n: int): int
    requires MinInt64 <= n < -MinInt64
  {
    if n == MinInt64 then n else -n
  }

  /**
   * `formatIntRelated` as written, on Go's 64-bit `int`: after `n = -n` the loop runs only for
   * a positive `n`, so the minimum value keeps no digits.
   */
  function FormatIntRelated64(n: int): (s: string)
    requires MinInt64 <= n < -MinInt64
    ensures n != MinInt64 ==> s == Decimal(n)
  {
    if n == 0 then "0"
    else
      var m := if n < 0 then Neg64(n) else n;
      var digits := if m > 0 then Digits(m) else "";
      if n < 0 then "-" + digits else digits
  }

  /** The minimum 64-bit value is formatted as a lone "-", not as its digits. */
  lemma MinInt64FormatsAsDash()
    ensures FormatIntRelated64(MinInt64) == "-"
    ensures Decimal(MinInt64) != "-"
  {
    assert |Digits(-MinInt64)| > 0;
  }

  // ---------------------------------------------------------------- reasons

  /** "1 <singular>", or the count and the plural. */
  function FormatPluralRelated(n: int, singular: string, plural: string): (s: string)
    ensures n == 1 ==> s == "1 " + singular
    ensures n != 1 ==> s == Decimal(n) + " " + plural
  {
    if n == 1 then "1 " + singular else Decimal(n) + " " + plural
  }

  /** " (<pct>%)" for a positive percentage, nothing otherwise. */
  function FormatPctRelated(pct: int): (s: string)
    ensures pct <= 0 <==> s == ""
    ensures pct > 0 ==> s == " (" + Decimal(pct) + "%)"
  {
    if pct <= 0 then "" else " (" + Decimal(pct) + "%)"
  }

  function FormatFileOverlapReason(shared: int, total: int): (s: string)
    requires total != 0
    ensures shared == 1 ==> s == "1 shared file"
    ensures shared != 1 ==> s == Decimal(shared) + " shared files" + FormatPctRelated(GoDiv(shared * 100, total))
  {
    var pct := GoDiv(shared * 100, total);
    if shared == 1 then "1 shared file"
    else
      FormatPluralRelated(shared, "shared file", "shared files") + FormatPctRelated(pct)
  }

  function FormatCommitOverlapReason(shared: int, total: int): (s: string)
    requires total != 0
    ensures shared == 1 ==> s == "1 shared commit"
    ensures shared != 1 ==> s == Decimal(shared) + " shared commits" + FormatPctRelated(GoDiv(shared * 100, total))
  {
    var pct := GoDiv(shared * 100, total);
    if shared == 1 then "1 shared commit"
    else
      FormatPluralRelated(shared, "shared commit", "shared commits") + FormatPctRelated(pct)
  }

  /** Go's integer division, truncating toward zero. */
  function GoDiv(a: int, b: int): (q: int)
    requires b != 0
    ensures a >= 0 && b > 0 ==> q == a / b
  {
    if a >= 0 then (if b > 0 then a / b else -(a / -b))
    else (if b > 0 then -((-a) / b) else (-a) / (-b))
  }

  // ---------------------------------------------------------------- lists of strings

  /** `limitStrings`: the first `max` strings. */
  function LimitStrings(s: seq<string>, max: nat): (r: seq<string>)
    ensures |r| == Min(|s|, max) && r == s[..|r|]
  {
    if |s| <= max then s else s[..max]
  }

  /** A SHA cut to at most seven characters. */
  function ShortSHA(sha: string): (r: string)
    ensures |r| == Min(|sha|, 7) && r == sha[..|r|]
  {
    if |sha| > 7 then sha[..7] else sha
  }

  /** Every SHA of the list cut to at most seven characters. */
  function Shortened(shas: seq<string>): (r: seq<string>)
    ensures |r| == |shas| && forall i :: 0 <= i < |shas| ==> r[i] == ShortSHA(shas[i])
  {
    seq(|shas|, i requires 0 <= i < |shas| => ShortSHA(shas[i]))
  }

  /** `shortenSHAs`: each SHA cut to at most seven characters, into a fresh list. */
  method ShortenSHAs(shas: seq<string>) returns (result: seq<string>)
    ensures result == Shortened(shas)
  {
    var a := new string[|shas|];
    for i := 0 to |shas|
      invariant forall j :: 0 <= j < i ==> a[j] == ShortSHA(shas[j])
    {
      if |shas[i]| > 7 {
        a[i] := shas[i][..7];
      } else {
        a[i] := shas[i];
      }
    }
    result := a[..];
  }

  /** Cutting strings to the same length keeps them in order. */
  lemma {:induction false} PrefixKeepsOrder(a: string, b: string, k: nat)
    requires StrLessEq(a, b)
    ensures StrLessEq(a[..Min(|a|, k)], b[..Min(|b|, k)])
  {
    if a != b && a != [] && b != [] && k > 0 && a[0] == b[0] {
      PrefixKeepsOrder(a[1..], b[1..], k - 1);
      assert a[..Min(|a|, k)] == [a[0]] + a[1..][..Min(|a| - 1, k - 1)];
      assert b[..Min(|b|, k)] == [b[0]] + b[1..][..Min(|b| - 1, k - 1)];
    }
  }

  /** So shortening a sorted list of SHAs leaves it sorted. */
  lemma ShortenedSorted(shas: seq<string>)
    requires SortedStrings(shas)
    ensures SortedStrings(Shortened(shas))
  {
    var short := Shortened(shas);
    forall i, j | 0 <= i < j < |short| ensures StrLessEq(short[i], short[j]) {
      PrefixKeepsOrder(shas[i], shas[j], 7);
    }
  }

  // ---------------------------------------------------------------- statuses

  /** `shouldSkipRelatedStatus`: tombstones always, closed beads unless they are asked for. */
  function ShouldSkipRelatedStatus(status: string, includeClosed: bool): (skip: bool)
    ensures skip <==> NormalizeStatus(status) == "tombstone" || (!includeClosed && NormalizeStatus(status) == "closed")
  {
    var normalized := NormalizeStatus(status);
    if normalized == "tombstone" then true
    else if !includeClosed && normalized == "closed" then true
    else false
  }

  /** Asking for closed beads never skips more. */
  lemma IncludeClosedSkipsLess(status: string)
    ensures ShouldSkipRelatedStatus(status, true) ==> ShouldSkipRelatedStatus(status, false)
  {
  }
}
