/**
 * `u64::from_str`, which the example extractors use on path parameters:
 * an optional `+`, then decimal digits accumulated left to right with
 * checked arithmetic. The first problem met while scanning decides the
 * error: a character that is not a digit, or a value past `u64::MAX`.
 */
module Decimal {
  import opened Wrappers

  const U64_MAX: nat := 0xFFFF_FFFF_FFFF_FFFF

  /** `IntErrorKind`, as far as unsigned parsing can produce it. */
  datatype IntErrorKind = Empty | InvalidDigit | PosOverflow

  /** The `Display` text of a `ParseIntError`. */
  function Message(kind: IntErrorKind): string
  {
    match kind
    case Empty => "cannot parse integer from empty string"
    case InvalidDigit => "invalid digit found in string"
    case PosOverflow => "number too large to fit in target type"
  }

  predicate IsDigit(c: char)
  {
    '0' <= c <= '9'
  }

  function DigitValue(c: char): nat
    requires IsDigit(c)
  {
    c as int - '0' as int
  }

  ghost predicate AllDigits(s: string)
  {
    forall k :: 0 <= k < |s| ==> IsDigit(s[k])
  }

  /** The number a digit string denotes. */
  function Value(s: string): nat
    requires AllDigits(s)
  {
    if s == [] then 0 else Value(s[..|s| - 1]) * 10 + DigitValue(s[|s| - 1])
  }

  /** The digit loop, from index `i` with `acc` accumulated so far. */
  function Accumulate(ds: string, i: nat, acc: nat): Result<nat, IntErrorKind>
    requires i <= |ds|
    decreases |ds| - i
  {
    if i == |ds| then Success(acc)
    else if !IsDigit(ds[i]) then Failure(InvalidDigit)
    else if acc * 10 + DigitValue(ds[i]) > U64_MAX then Failure(PosOverflow)
    else Accumulate(ds, i + 1, acc * 10 + DigitValue(ds[i]))
  }

  /** What follows the optional sign. */
  function Digits(s: string): string
  {
    if |s| > 0 && s[0] == '+' then s[1..] else s
  }

  /** `u64::from_str(s)`. */
  function ParseU64(s: string): Result<nat, IntErrorKind>
  {
    if s == [] then Failure(Empty)
    else
      var ds := Digits(s);
      if ds == [] then Failure(Empty)
      else Accumulate(ds, 0, 0)
  }

  /** The strings `u64::from_str` accepts: a sign at most, then digits whose value fits. */
  ghost predicate IsU64Numeral(s: string)
  {
    Digits(s) != [] && AllDigits(Digits(s)) && Value(Digits(s)) <= U64_MAX
  }

  lemma PrefixDigits(s: string, i: nat)
    requires AllDigits(s) && i <= |s|
    ensures AllDigits(s[..i])
  {
  }

  /** A longer digit string is worth at least as much as its prefix. */
  lemma {:induction false} ValueMonotone(s: string, i: nat)
    requires AllDigits(s) && i <= |s|
    ensures AllDigits(s[..i]) && Value(s[..i]) <= Value(s)
    decreases |s| - i
  {
    PrefixDigits(s, i);
    if i < |s| {
      var n := |s| - 1;
      PrefixDigits(s, n);
      ValueMonotone(s[..n], i);
      assert s[..n][..i] == s[..i];
      assert Value(s) == Value(s[..n]) * 10 + DigitValue(s[n]);
    } else {
      assert s[..i] == s;
    }
  }

  lemma ValueSnoc(s: string, i: nat)
    requires i < |s| && AllDigits(s[..i]) && IsDigit(s[i])
    ensures AllDigits(s[..i + 1]) && Value(s[..i + 1]) == Value(s[..i]) * 10 + DigitValue(s[i])
  {
    assert s[..i + 1][..i] == s[..i];
  }

  /**
   * The loop, started on a prefix it has already accepted, succeeds exactly
   * when the whole string is digits whose value fits, and then yields that
   * value.
   */
  lemma {:induction false} AccumulateSpec(ds: string, i: nat)
    requires i <= |ds| && AllDigits(ds[..i]) && Value(ds[..i]) <= U64_MAX
    ensures Accumulate(ds, i, Value(ds[..i])).Success? <==> AllDigits(ds) && Value(ds) <= U64_MAX
    ensures Accumulate(ds, i, Value(ds[..i])).Success? ==> Accumulate(ds, i, Value(ds[..i])).value == Value(ds)
    decreases |ds| - i
  {
    if i == |ds| {
      assert ds[..i] == ds;
    } else if !IsDigit(ds[i]) {
      assert !AllDigits(ds);
    } else {
      ValueSnoc(ds, i);
      if Value(ds[..i]) * 10 + DigitValue(ds[i]) > U64_MAX {
        if AllDigits(ds) {
          ValueMonotone(ds, i + 1);
        }
      } else {
        AccumulateSpec(ds, i + 1);
      }
    }
  }

  /** `from_str` succeeds exactly on the numerals whose value fits in 64 bits, and yields that value. */
  lemma ParseU64Spec(s: string)
    ensures ParseU64(s).Success? <==> IsU64Numeral(s)
    ensures ParseU64(s).Success? ==> ParseU64(s).value == Value(Digits(s))
  {
    var ds := Digits(s);
    if s != [] && ds != [] {
      assert ds[..0] == [];
      AccumulateSpec(ds, 0);
    }
  }

  /** `Empty` is reported exactly for `""` and a lone `+`. */
  lemma EmptyExactly(s: string)
    ensures ParseU64(s) == Failure(Empty) <==> s == "" || s == "+"
  {
    var ds := Digits(s);
    if s != [] && ds != [] {
      AccumulateNeverEmpty(ds, 0, 0);
    }
    if s == "+" {
      assert Digits(s) == [];
    }
  }

  lemma {:induction false} AccumulateNeverEmpty(ds: string, i: nat, acc: nat)
    requires i <= |ds|
    ensures Accumulate(ds, i, acc) != Failure(Empty)
    decreases |ds| - i
  {
    if i < |ds| && IsDigit(ds[i]) && acc * 10 + DigitValue(ds[i]) <= U64_MAX {
      AccumulateNeverEmpty(ds, i + 1, acc * 10 + DigitValue(ds[i]));
    }
  }

  /** A non-digit reached before the value overflows makes the error `InvalidDigit`. */
  lemma {:induction false} InvalidDigitFirst(ds: string, i: nat, k: nat)
    requires i <= k < |ds| && AllDigits(ds[..k]) && !IsDigit(ds[k])
    requires Value(ds[..k]) <= U64_MAX
    requires AllDigits(ds[..i]) && Value(ds[..i]) <= U64_MAX
    ensures Accumulate(ds, i, Value(ds[..i])) == Failure(InvalidDigit)
    decreases k - i
  {
    if i < k {
      assert ds[..k][..i + 1] == ds[..i + 1];
      PrefixDigits(ds[..k], i + 1);
      assert IsDigit(ds[i]) by { assert ds[..k][i] == ds[i]; }
      ValueSnoc(ds, i);
      ValueMonotone(ds[..k], i + 1);
      InvalidDigitFirst(ds, i + 1, k);
    }
  }

  /** A string of digits too large for 64 bits is `PosOverflow`, never `InvalidDigit`. */
  lemma {:induction false} OverflowReported(ds: string, i: nat)
    requires i < |ds| && AllDigits(ds) && Value(ds) > U64_MAX
    requires AllDigits(ds[..i]) && Value(ds[..i]) <= U64_MAX
    ensures Accumulate(ds, i, Value(ds[..i])) == Failure(PosOverflow)
    decreases |ds| - i
  {
    ValueSnoc(ds, i);
    if Value(ds[..i]) * 10 + DigitValue(ds[i]) <= U64_MAX {
      OverflowReported(ds, i + 1);
    }
  }

  /** `from_str` on a numeral that does not fit reports overflow. */
  lemma ParseOverflow(s: string)
    requires Digits(s) != [] && AllDigits(Digits(s)) && Value(Digits(s)) > U64_MAX
    ensures s != [] && ParseU64(s) == Failure(PosOverflow)
  {
    assert Digits(s)[..0] == [];
    OverflowReported(Digits(s), 0);
  }

  /** `from_str` on digits broken by a non-digit, the value so far still fitting, reports an invalid digit. */
  lemma ParseInvalidDigit(s: string, k: nat)
    requires k < |Digits(s)| && AllDigits(Digits(s)[..k]) && !IsDigit(Digits(s)[k])
    requires Value(Digits(s)[..k]) <= U64_MAX
    ensures ParseU64(s) == Failure(InvalidDigit)
  {
    assert Digits(s)[..0] == [];
    InvalidDigitFirst(Digits(s), 0, k);
  }

  // ---------------------------------------------------------------------
  // Printing, the inverse

  /** `n.to_string()`: decimal, most significant digit first, no leading zeros. */
  function ToDecimal(n: nat): (s: string)
    ensures |s| > 0 && AllDigits(s) && Value(s) == n
    ensures |s| > 1 ==> s[0] != '0'
  {
    var d := ['0' + (n % 10) as char];
    if n < 10 then d
    else
      var prefix := ToDecimal(n / 10);
      var s := prefix + d;
      assert s[..|s| - 1] == prefix;
      s
  }

  /** Printing then parsing gives the number back, for every value a `u64` holds. */
  lemma RoundTrip(n: nat)
    requires n <= U64_MAX
    ensures ParseU64(ToDecimal(n)) == Success(n)
  {
    var s := ToDecimal(n);
    assert Digits(s) == s;
    ParseU64Spec(s);
  }
}
