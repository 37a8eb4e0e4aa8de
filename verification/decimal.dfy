/**
 * Decimal text of integers, as Rust's `{}` formatting writes an `i64`
 * and as `str::parse::<i64>` reads it back.
 */
module Decimal {
  import opened Base

  /** Bounds of Rust's `i64`. */
  const I64Min: int := -0x8000_0000_0000_0000
  const I64Max: int := 0x7FFF_FFFF_FFFF_FFFF

  predicate IsDigit(c: char) {
    '0' <= c <= '9'
  }

  predicate AllDigits(s: string) {
    forall i | 0 <= i < |s| :: IsDigit(s[i])
  }

  function DigitChar(d: nat): (c: char)
    requires d < 10
    ensures IsDigit(c)
  {
    ['0', '1', '2', '3', '4', '5', '6', '7', '8', '9'][d]
  }

  function DigitValue(c: char): (d: nat)
    requires IsDigit(c)
    ensures d < 10
  {
    (c as int - '0' as int) as nat
  }

  lemma DigitValueOfChar(d: nat)
    requires d < 10
    ensures DigitValue(DigitChar(d)) == d
  {
  }

  /** The shortest decimal spelling of `n` (no sign, no leading zeros). */
  function NatToString(n: nat): (s: string)
    ensures |s| > 0 && AllDigits(s)
    ensures |s| > 1 ==> s[0] != '0'
    decreases n
  {
    if n < 10 then [DigitChar(n)] else NatToString(n / 10) + [DigitChar(n % 10)]
  }

  /** `n` as Rust's `Display` for integers writes it: a `-` before negatives. */
  function IntToString(n: int): (s: string)
    ensures |s| > 0
    ensures n >= 0 ==> AllDigits(s)
    ensures n < 0 ==> s[0] == '-' && AllDigits(s[1..])
  {
    if n < 0 then "-" + NatToString(-n) else NatToString(n)
  }

  /** The value of a run of decimal digits, read most significant first. */
  function DigitsValue(s: string): nat
    requires AllDigits(s)
  {
    if |s| == 0 then 0 else DigitsValue(s[..|s| - 1]) * 10 + DigitValue(s[|s| - 1])
  }

  lemma {:induction false} DigitsValueOfNatToString(n: nat)
    ensures DigitsValue(NatToString(n)) == n
    decreases n
  {
    var s := NatToString(n);
    if n < 10 {
      DigitValueOfChar(n);
    } else {
      DigitsValueOfNatToString(n / 10);
      DigitValueOfChar(n % 10);
      assert s[..|s| - 1] == NatToString(n / 10);
    }
  }

  /** Why `str::parse::<i64>` refused its input. */
  datatype IntError = Empty | InvalidDigit | PosOverflow | NegOverflow

  /** `s` without the one leading `+` or `-` that Rust's integer parser allows. */
  function Unsigned(s: string): string {
    if |s| > 0 && s[0] in {'+', '-'} then s[1..] else s
  }

  /** Whether Rust reads `s` as a negative number: it starts with `-`. */
  predicate Negative(s: string) {
    |s| > 0 && s[0] == '-'
  }

  /** The largest magnitude an `i64` of that sign holds. */
  function Bound(negative: bool): nat {
    if negative then -I64Min else I64Max
  }

  /** The error Rust reports for a magnitude past `Bound(negative)`. */
  function Overflow(negative: bool): IntError {
    if negative then NegOverflow else PosOverflow
  }

  /** `s` is a sign and digits whose value fits an `i64`. */
  predicate Fits(s: string) {
    var u := Unsigned(s);
    |u| > 0 && AllDigits(u) && DigitsValue(u) <= Bound(Negative(s))
  }

  /** The value of a `s` that fits, with its sign. */
  function SignedValue(s: string): int
    requires Fits(s)
  {
    var v: int := DigitsValue(Unsigned(s));
    if Negative(s) then -v else v
  }

  /**
   * Some run of digits at the front of `s`'s magnitude is already past the
   * bound, whatever follows it.
   */
  predicate OverflowsEarly(s: string) {
    var u := Unsigned(s);
    exists k | 0 < k <= |u| :: AllDigits(u[..k]) && DigitsValue(u[..k]) > Bound(Negative(s))
  }

  lemma {:induction false} DigitsAppend(u: string, i: nat)
    requires i < |u| && AllDigits(u[..i + 1])
    ensures AllDigits(u[..i]) && IsDigit(u[i])
    ensures DigitsValue(u[..i + 1]) == DigitsValue(u[..i]) * 10 + DigitValue(u[i])
  {
    var p := u[..i + 1];
    assert p[..|p| - 1] == u[..i];
    assert p[i] == u[i];
  }

  /** A longer run of digits is worth at least as much as its prefix. */
  lemma {:induction false} DigitsPrefixMonotone(u: string, k: nat)
    requires AllDigits(u) && k <= |u|
    ensures AllDigits(u[..k]) && DigitsValue(u[..k]) <= DigitsValue(u)
    decreases |u| - k
  {
    if k < |u| {
      var v := u[..|u| - 1];
      assert v[..k] == u[..k];
      DigitsPrefixMonotone(v, k);
    } else {
      assert u[..k] == u;
    }
  }

  /** Once a prefix of digits is past a bound, so is the whole run. */
  lemma PrefixPastBound(u: string, k: nat, b: nat)
    requires k <= |u| && AllDigits(u[..k]) && DigitsValue(u[..k]) > b
    ensures AllDigits(u) ==> DigitsValue(u) > b
  {
    if AllDigits(u) {
      DigitsPrefixMonotone(u, k);
    }
  }

  /**
   * The loop of Rust's `from_str_radix`, on the magnitude `u`: from the left,
   * a character that is not a digit stops with `InvalidDigit`, and a digit
   * that takes the magnitude past the bound stops with the overflow error;
   * `acc` is the value of the digits before `i`.
   */
  function Scan(u: string, i: nat, acc: nat, negative: bool): (r: Result<nat, IntError>)
    requires i <= |u| && AllDigits(u[..i]) && acc == DigitsValue(u[..i]) && acc <= Bound(negative)
    ensures r.Ok? <==> AllDigits(u) && DigitsValue(u) <= Bound(negative)
    ensures r.Ok? ==> AllDigits(u) && r.value == DigitsValue(u)
    ensures r.Err? ==> r.error == InvalidDigit || r.error == Overflow(negative)
    ensures r == Err(Overflow(negative)) <==>
      exists k | i < k <= |u| :: AllDigits(u[..k]) && DigitsValue(u[..k]) > Bound(negative)
    decreases |u| - i
  {
    if i == |u| then
      assert u[..i] == u;
      Ok(acc)
    else if !IsDigit(u[i]) then
      assert forall k | i < k <= |u| :: !AllDigits(u[..k]) by {
        forall k | i < k <= |u| ensures !AllDigits(u[..k]) {
          assert u[..k][i] == u[i];
        }
      }
      Err(InvalidDigit)
    else
      assert AllDigits(u[..i + 1]) by {
        assert forall j | 0 <= j < i :: u[..i + 1][j] == u[..i][j];
      }
      DigitsAppend(u, i);
      var next := acc * 10 + DigitValue(u[i]);
      if next > Bound(negative) then
        PrefixPastBound(u, i + 1, Bound(negative));
        Err(Overflow(negative))
      else
        Scan(u, i + 1, next, negative)
  }

  /**
   * `str::parse::<i64>`: an optional `+` or `-`, then decimal digits read
   * from the left; the first character that is not a digit gives
   * `InvalidDigit` and the first digit that overflows gives the overflow
   * error, whichever comes first.
   */
  function ParseI64(s: string): (r: Result<int, IntError>)
    ensures |s| == 0 ==> r == Err(Empty)
    ensures r.Ok? <==> Fits(s)
    ensures Fits(s) ==> r == Ok(SignedValue(s)) && I64Min <= r.value <= I64Max
    ensures r == Err(Overflow(Negative(s))) <==> OverflowsEarly(s)
    ensures |s| > 0 ==> (r == Err(InvalidDigit) <==> !Fits(s) && !OverflowsEarly(s))
  {
    if |s| == 0 then Err(Empty)
    else if s[0] in {'+', '-'} && |s| == 1 then Err(InvalidDigit)
    else
      var u := Unsigned(s);
      assert u[..0] == [];
      match Scan(u, 0, 0, Negative(s))
      case Ok(m) =>
        var v: int := m;
        Ok(if Negative(s) then -v else v)
      case Err(e) => Err(e)
  }

  function Pow10(n: nat): nat {
    if n == 0 then 1 else 10 * Pow10(n - 1)
  }

  lemma {:induction false} Pow10Sum(a: nat, b: nat)
    ensures Pow10(a + b) == Pow10(a) * Pow10(b)
  {
    if a > 0 {
      Pow10Sum(a - 1, b);
    }
  }

  /** A run of digits that does not start with `0` is worth at least 10 to the power of its length less one. */
  lemma {:induction false} LeadingDigitBound(s: string)
    requires |s| > 0 && AllDigits(s) && s[0] != '0'
    ensures DigitsValue(s) >= Pow10(|s| - 1)
  {
    if |s| > 1 {
      var p := s[..|s| - 1];
      assert p[0] == s[0];
      LeadingDigitBound(p);
    }
  }

  /** Twenty nines overflow before the parser reaches the `x` after them. */
  lemma OverflowBeforeBadDigit()
    ensures ParseI64("99999999999999999999x") == Err(PosOverflow)
  {
    var u := "99999999999999999999x";
    var p := u[..20];
    assert AllDigits(p) && p[0] != '0';
    LeadingDigitBound(p);
    assert Pow10(2) == 100;
    Pow10Sum(2, 2);
    Pow10Sum(4, 4);
    Pow10Sum(8, 8);
    Pow10Sum(16, 2);
    Pow10Sum(18, 1);
    assert Unsigned(u) == u && !Negative(u);
    assert AllDigits(u[..20]) && DigitsValue(u[..20]) > Bound(false);
  }

  /** Reading back what `IntToString` wrote gives the same `i64`. */
  lemma ParseI64OfIntToString(n: int)
    requires I64Min <= n <= I64Max
    ensures ParseI64(IntToString(n)) == Ok(n)
  {
    var s := IntToString(n);
    if n < 0 {
      DigitsValueOfNatToString(-n);
      assert Unsigned(s) == NatToString(-n);
    } else {
      DigitsValueOfNatToString(n);
      assert Unsigned(s) == NatToString(n);
    }
    assert Fits(s);
  }
}
