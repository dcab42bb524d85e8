/**
 * The two number parsers the handlers apply to path parameters:
 * strconv.ParseUint(s, 10, 64) for transaction and account-title ids, and
 * strconv.Atoi for the page number of the transaction listing. Both scan
 * the digits left to right and stop at the first character that is not a
 * digit or at the first digit that overflows 64 bits.
 */
module Numbers {
  import opened Models

  const MaxUint64: int := TwoTo64 - 1

  predicate IsDigit(c: char) {
    '0' <= c <= '9'
  }

  predicate AllDigits(s: string) {
    forall i :: 0 <= i < |s| ==> IsDigit(s[i])
  }

  function DigitValue(c: char): nat
    requires IsDigit(c)
  {
    (c as int) - ('0' as int)
  }

  function DigitChar(d: nat): (c: char)
    requires d < 10
    ensures IsDigit(c) && DigitValue(c) == d
  {
    (('0' as int) + d) as char
  }

  /** The number a string of decimal digits denotes (0 for the empty string). */
  function ValueOf(s: string): nat
    requires AllDigits(s)
  {
    if s == [] then 0 else ValueOf(s[..|s| - 1]) * 10 + DigitValue(s[|s| - 1])
  }

  /** The canonical decimal spelling of n: no sign, no leading zeros. */
  function Decimal(n: nat): (s: string)
    ensures |s| > 0 && AllDigits(s)
  {
    if n < 10 then [DigitChar(n)] else Decimal(n / 10) + [DigitChar(n % 10)]
  }

  lemma {:induction false} DecimalValue(n: nat)
    ensures ValueOf(Decimal(n)) == n
  {
    if n >= 10 {
      var s := Decimal(n);
      DecimalValue(n / 10);
      assert s[..|s| - 1] == Decimal(n / 10);
    }
  }

  // ---------------------------------------------------------------------
  // The digit scan shared by ParseUint and the slow path of Atoi
  // ---------------------------------------------------------------------

  /** What the scan of an unsigned decimal yields. */
  datatype Scan = Syntax | Range | Value(n: nat)

  /**
   * The scan from position i on, with n the value of the digits before i:
   * a non-digit is a syntax error, a digit that takes the value past
   * 2^64 - 1 a range error, whichever comes first.
   */
  function ScanFrom(s: string, i: nat, n: nat): (r: Scan)
    requires i <= |s| && n < TwoTo64
    ensures r.Value? ==> r.n < TwoTo64
    decreases |s| - i
  {
    if i == |s| then Value(n)
    else if !IsDigit(s[i]) then Syntax
    else if n * 10 + DigitValue(s[i]) > MaxUint64 then Range
    else ScanFrom(s, i + 1, n * 10 + DigitValue(s[i]))
  }

  /**
   * strconv.ParseUint(s, 10, 64): the empty string, and a string that does
   * not start with a digit, are syntax errors; a value is below 2^64.
   */
  function ParseUint(s: string): (r: Scan)
    ensures s == [] ==> r == Syntax
    ensures |s| > 0 && !IsDigit(s[0]) ==> r == Syntax
    ensures r.Value? ==> r.n < TwoTo64
  {
    if s == [] then Syntax else ScanFrom(s, 0, 0)
  }

  /** The value of a prefix of digits never exceeds the value of the whole. */
  lemma {:induction false} PrefixValue(s: string, i: nat)
    requires AllDigits(s) && i <= |s|
    ensures AllDigits(s[..i]) && ValueOf(s[..i]) <= ValueOf(s)
    decreases |s| - i
  {
    if i < |s| {
      var front := s[..|s| - 1];
      PrefixValue(front, i);
      assert front[..i] == s[..i];
      assert ValueOf(s) == ValueOf(front) * 10 + DigitValue(s[|s| - 1]);
    } else {
      assert s[..i] == s;
    }
  }

  lemma {:induction false} ScanFromValue(s: string, i: nat)
    requires i <= |s| && AllDigits(s[..i]) && ValueOf(s[..i]) < TwoTo64
    ensures ScanFrom(s, i, ValueOf(s[..i])).Value? <==> AllDigits(s) && ValueOf(s) < TwoTo64
    ensures ScanFrom(s, i, ValueOf(s[..i])).Value? ==> ScanFrom(s, i, ValueOf(s[..i])).n == ValueOf(s)
    ensures ScanFrom(s, i, ValueOf(s[..i])).Syntax? ==> !AllDigits(s)
    decreases |s| - i
  {
    if i == |s| {
      assert s[..i] == s;
    } else {
      var p := s[..i + 1];
      assert p[..i] == s[..i];
      if IsDigit(s[i]) {
        assert AllDigits(p);
        if ValueOf(p) > MaxUint64 {
          if AllDigits(s) {
            PrefixValue(s, i + 1);
          }
        } else {
          ScanFromValue(s, i + 1);
        }
      }
    }
  }

  /**
   * ParseUint accepts exactly the non-empty strings of decimal digits whose
   * value fits in 64 bits, and then yields that value.
   */
  lemma {:induction false} ParseUintAccepts(s: string)
    ensures ParseUint(s).Value? <==> |s| > 0 && AllDigits(s) && ValueOf(s) < TwoTo64
    ensures ParseUint(s).Value? ==> ParseUint(s).n == ValueOf(s)
    ensures ParseUint(s).Syntax? ==> |s| == 0 || !AllDigits(s)
  {
    if s != [] {
      assert s[..0] == [];
      ScanFromValue(s, 0);
    }
  }

  /** The decimal spelling of every uint64 parses back to it. */
  lemma {:induction false} ParseUintDecimal(n: nat)
    requires n < TwoTo64
    ensures ParseUint(Decimal(n)) == Value(n)
  {
    DecimalValue(n);
    ParseUintAccepts(Decimal(n));
  }

  // ---------------------------------------------------------------------
  // strconv.Atoi on a 64-bit platform
  // ---------------------------------------------------------------------

  predicate IsSign(c: char) {
    c == '+' || c == '-'
  }

  /**
   * strconv.Atoi's result, whose error the listing handler ignores. Strings
   * of 1 to 18 bytes take the fast path: an optional sign, then digits
   * only, and 0 on anything else. Longer strings go through ParseInt: a
   * syntax error gives 0 and a range error the nearest int64.
   */
  function Atoi(s: string): (r: Int64)
    ensures s == [] ==> r == 0
    ensures |s| > 0 && !IsSign(s[0]) && !IsDigit(s[0]) ==> r == 0
    ensures r < 0 ==> |s| > 0 && s[0] == '-'
  {
    if 0 < |s| < 19 then
      var digits := if IsSign(s[0]) then s[1..] else s;
      if |digits| == 0 || !AllDigits(digits) then 0
      else
        assert ValueOf(digits) < 1_000_000_000_000_000_000 by {
          ValueBound(digits);
        }
        var v: int := ValueOf(digits);
        if s[0] == '-' then -v else v
    else if |s| == 0 then 0
    else
      var neg := s[0] == '-';
      var digits := if IsSign(s[0]) then s[1..] else s;
      match ParseUint(digits)
      case Syntax => 0
      case Range => if neg then MinInt64 else MaxInt64
      case Value(n) =>
        var u: int := n;
        if !neg && u > MaxInt64 then MaxInt64
        else if neg && u > -MinInt64 then MinInt64
        else if neg then -u else u
  }

  /** Eighteen digits or fewer denote less than 10^18. */
  lemma {:induction false} ValueBound(s: string)
    requires AllDigits(s) && |s| <= 18
    ensures ValueOf(s) < 1_000_000_000_000_000_000
  {
    ValueBelowPow10(s);
    Pow10Mono(|s|, 18);
    assert Pow10(3) == 1000;
    assert Pow10(18) == 1_000_000_000_000_000_000;
  }

  lemma {:induction false} ValueBelowPow10(s: string)
    requires AllDigits(s)
    ensures ValueOf(s) < Pow10(|s|)
    decreases |s|
  {
    if s != [] {
      var front := s[..|s| - 1];
      ValueBelowPow10(front);
      MulMono(ValueOf(front) + 1, Pow10(|front|), 10);
    }
  }

  function Pow10(k: nat): (r: nat)
    ensures r > 0
  {
    if k == 0 then 1 else 10 * Pow10(k - 1)
  }

  lemma {:induction false} Pow10Mono(j: nat, k: nat)
    requires j <= k
    ensures Pow10(j) <= Pow10(k)
    decreases k - j
  {
    if j < k {
      Pow10Mono(j, k - 1);
    }
  }

  /** The decimal spelling of every int64, with a minus sign when negative, is read back exactly. */
  lemma {:induction false} AtoiDecimal(p: Int64)
    ensures Atoi(if p < 0 then "-" + Decimal(-(p as int)) else Decimal(p)) == p
  {
    var n: nat := if p < 0 then -(p as int) else p;
    var s := if p < 0 then "-" + Decimal(n) else Decimal(n);
    DecimalValue(n);
    ParseUintAccepts(Decimal(n));
    if p < 0 {
      assert s[0] == '-' && s[1..] == Decimal(n);
    } else {
      assert !IsSign(s[0]);
    }
  }

  /** A page parameter with anything but an optional sign and digits reads as page 0. */
  lemma {:induction false} AtoiRejectsToZero(s: string, k: nat)
    requires k < |s| && !IsDigit(s[k]) && (k > 0 || !IsSign(s[k]))
    requires |s| < 19
    ensures Atoi(s) == 0
  {
    var digits := if IsSign(s[0]) then s[1..] else s;
    if IsSign(s[0]) {
      assert digits[k - 1] == s[k];
    }
  }

  /** A page number beyond the int64 range reads as the largest int64. */
  lemma {:induction false} AtoiClamps(s: string)
    requires AllDigits(s) && ValueOf(s) > MaxInt64
    ensures Atoi(s) == MaxInt64
  {
    if |s| < 19 {
      ValueBound(s);
      assert false;
    }
    assert !IsSign(s[0]);
    ParseUintAccepts(s);
  }
}
