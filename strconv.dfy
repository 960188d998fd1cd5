/**
 * Go's `strconv.Atoi` on a 64-bit platform, which `getItemByID` uses to read
 * the `:id` path segment, and decimal formatting (`strconv.Itoa` on a
 * non-negative value) as the client side that builds that segment.
 */
module Strconv {

  const MaxInt64: int := 0x7fff_ffff_ffff_ffff
  const MinInt64: int := -0x8000_0000_0000_0000
  const MaxUint64: int := 0xffff_ffff_ffff_ffff

  /** State of ParseUint's digit loop. */
  datatype Scan = Value(n: nat) | SyntaxError | RangeError

  predicate IsDigit(c: char) {
    '0' <= c <= '9'
  }

  function DigitValue(c: char): (d: nat)
    requires IsDigit(c)
    ensures d < 10
  {
    c as int - '0' as int
  }

  /**
   * ParseUint's base-10 loop over `s`, left to right, stopping at the first
   * non-digit (a syntax error) or at the first digit that would take the
   * value past 2^64 - 1 (a range error). It is written on the last character,
   * so ScanDigits of a prefix is the loop's state after that prefix.
   */
  function ScanDigits(s: string): (r: Scan)
    ensures r.Value? ==> r.n <= MaxUint64
  {
    if s == [] then Value(0)
    else
      match ScanDigits(s[..|s| - 1])
      case Value(n) =>
        var c := s[|s| - 1];
        if !IsDigit(c) then SyntaxError
        else if n >= MaxUint64 / 10 + 1 then RangeError
        else if n * 10 + DigitValue(c) > MaxUint64 then RangeError
        else Value(n * 10 + DigitValue(c))
      case SyntaxError => SyntaxError
      case RangeError => RangeError
  }

  /** The part after an optional leading sign. */
  function Unsigned(s: string): (body: string) {
    if s != [] && (s[0] == '-' || s[0] == '+') then s[1..] else s
  }

  /**
   * `strconv.Atoi(s)` with its error dropped: a syntax error yields 0 and a
   * range error the clamped int64 bound. The fast path Go takes for inputs
   * shorter than 19 characters yields the same values, since 18 digits
   * never leave the int64 range.
   */
  function Atoi(s: string): (n: int)
    ensures MinInt64 <= n <= MaxInt64
  {
    var neg := s != [] && s[0] == '-';
    var body := Unsigned(s);
    if body == [] then 0
    else
      match ScanDigits(body)
      case SyntaxError => 0
      case RangeError => if neg then MinInt64 else MaxInt64
      case Value(u) =>
        if neg then (if u > -MinInt64 then MinInt64 else -(u as int))
        else (if u > MaxInt64 then MaxInt64 else u)
  }

  /** An optional sign followed by one or more decimal digits. */
  predicate IsDecimal(s: string) {
    Unsigned(s) != [] && forall i :: 0 <= i < |Unsigned(s)| ==> IsDigit(Unsigned(s)[i])
  }

  /** Decimal digits of `n`, most significant first, without leading zeros. */
  function FormatDecimal(n: nat): (s: string)
    ensures s != [] && IsDigit(s[0])
    ensures forall i :: 0 <= i < |s| ==> IsDigit(s[i])
  {
    var d := ['0' + (n % 10) as char];
    if n < 10 then d else FormatDecimal(n / 10) + d
  }

  function Pow10(k: nat): (p: nat)
    ensures p >= 1
  {
    if k == 0 then 1 else 10 * Pow10(k - 1)
  }

  /** Formatting then scanning gives the number back. */
  lemma {:induction false} ScanFormat(n: nat)
    requires n <= MaxUint64
    ensures ScanDigits(FormatDecimal(n)) == Value(n)
  {
    var s := FormatDecimal(n);
    if n < 10 {
      assert s[..0] == [];
    } else {
      ScanFormat(n / 10);
      assert s[..|s| - 1] == FormatDecimal(n / 10);
    }
  }

  /** Reading back a formatted non-negative int64 gives the same id. */
  lemma AtoiFormatDecimal(n: nat)
    requires n <= MaxInt64
    ensures Atoi(FormatDecimal(n)) == n
  {
    ScanFormat(n);
  }

  /** Up to 19 digits never overflow: the loop ends with a value below 10^|s|. */
  lemma {:induction false} ScanShortDigits(s: string)
    requires |s| <= 19
    requires forall i :: 0 <= i < |s| ==> IsDigit(s[i])
    ensures ScanDigits(s).Value? && ScanDigits(s).n < Pow10(|s|)
  {
    if s != [] {
      var prefix := s[..|s| - 1];
      ScanShortDigits(prefix);
      Pow10Bound(|prefix|);
    }
  }

  lemma {:induction false} Pow10Bound(k: nat)
    requires k <= 18
    ensures Pow10(k) <= 1_000_000_000_000_000_000
    decreases 18 - k
  {
    if k < 18 {
      Pow10Bound(k + 1);
    } else {
      assert Pow10(6) == 1_000_000;
      assert Pow10(12) == 1_000_000_000_000;
    }
  }

  /** A non-digit among the first 19 characters stops the loop with a syntax error. */
  lemma {:induction false} ScanSyntaxError(s: string, k: nat)
    requires k < |s| && k <= 19 && !IsDigit(s[k])
    ensures ScanDigits(s) == SyntaxError
  {
    var prefix := s[..|s| - 1];
    if k == |s| - 1 {
      var j :| 0 <= j <= k && !IsDigit(s[j]) && forall i :: 0 <= i < j ==> IsDigit(s[i]);
      if j == k {
        ScanShortDigits(prefix);
      } else {
        ScanSyntaxError(prefix, j);
      }
    } else {
      ScanSyntaxError(prefix, k);
    }
  }

  /**
   * The part after the sign is empty, or holds a non-digit among its first
   * 20 characters, before the digits read so far can overflow.
   */
  predicate EarlyNonDigit(s: string) {
    Unsigned(s) == [] || exists k :: 0 <= k < |Unsigned(s)| && k <= 19 && !IsDigit(Unsigned(s)[k])
  }

  /** An `:id` segment whose digits are cut short by a non-digit reads as id 0. */
  lemma AtoiNonDecimal(s: string)
    requires EarlyNonDigit(s)
    ensures Atoi(s) == 0
  {
    var body := Unsigned(s);
    if body != [] {
      var k :| 0 <= k < |body| && k <= 19 && !IsDigit(body[k]);
      ScanSyntaxError(body, k);
    }
  }

  /** Every short segment that is not a signed decimal number is cut short so. */
  lemma ShortNonDecimalEarly(s: string)
    requires |s| < 19 && !IsDecimal(s)
    ensures EarlyNonDigit(s)
  {
  }

  /** A long segment with a non-digit up front still reads as 0. */
  lemma LongWordReadsZero()
    ensures Atoi("item-abcdefghijklmnopqrst") == 0
  {
    AtoiNonDecimal("item-abcdefghijklmnopqrst");
  }
}
