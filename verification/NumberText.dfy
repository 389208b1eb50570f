/** Decimal text of integers, and the canonical integers of the command line. */
module NumberText {
  import opened Prelude

  const MAX_SAFE_INTEGER := 9007199254740991

  predicate IsDigit(c: char) {
    '0' <= c <= '9'
  }

  function DigitValue(c: char): nat
    requires IsDigit(c)
  {
    c as int - '0' as int
  }

  function DigitChar(d: nat): (c: char)
    requires d < 10
    ensures IsDigit(c) && DigitValue(c) == d
  {
    '0' + d as char
  }

  predicate AllDigits(s: string) {
    forall i :: 0 <= i < |s| ==> IsDigit(s[i])
  }

  /** `String(n)`. */
  function Decimal(n: nat): string {
    if n < 10 then [DigitChar(n)] else Decimal(n / 10) + [DigitChar(n % 10)]
  }

  /** `Number(s)` for a string of digits. */
  function ToNumber(s: string): nat
    requires AllDigits(s)
  {
    if s == [] then 0 else 10 * ToNumber(s[..|s| - 1]) + DigitValue(s[|s| - 1])
  }

  /** `/^[1-9][0-9]*$/`. */
  predicate IsPositivePattern(s: string) {
    s != [] && s[0] != '0' && AllDigits(s)
  }

  /** `/^(?:0|[1-9][0-9]*)$/`. */
  predicate IsNonNegativePattern(s: string) {
    s == "0" || IsPositivePattern(s)
  }

  function SafeOrNone(n: nat): Option<nat> {
    if n <= MAX_SAFE_INTEGER then Some(n) else None
  }

  function ParseCanonicalPositiveInteger(s: string): Option<nat> {
    if IsPositivePattern(s) then SafeOrNone(ToNumber(s)) else None
  }

  function ParseCanonicalNonNegativeInteger(s: string): Option<nat> {
    if IsNonNegativePattern(s) then SafeOrNone(ToNumber(s)) else None
  }

  lemma {:induction false} DecimalIsCanonical(n: nat)
    ensures AllDigits(Decimal(n)) && ToNumber(Decimal(n)) == n
    ensures if n == 0 then Decimal(n) == "0" else IsPositivePattern(Decimal(n))
  {
    if n >= 10 {
      DecimalIsCanonical(n / 10);
      var s := Decimal(n);
      assert s[..|s| - 1] == Decimal(n / 10);
    }
  }

  lemma {:induction false} CanonicalIsDecimal(s: string)
    requires IsPositivePattern(s)
    ensures ToNumber(s) > 0 && s == Decimal(ToNumber(s))
    decreases |s|
  {
    if |s| == 1 {
      assert s[..0] == [];
    } else {
      var init := s[..|s| - 1];
      CanonicalIsDecimal(init);
      assert ToNumber(s) / 10 == ToNumber(init) && ToNumber(s) % 10 == DigitValue(s[|s| - 1]);
      assert s == init + [s[|s| - 1]];
    }
  }

  /** A text parses to `n` exactly when it is the decimal text of `n` and `n` is a positive safe
      integer: the parser and `String` are inverse to each other. */
  lemma PositiveIntegerRoundTrip(s: string, n: nat)
    ensures ParseCanonicalPositiveInteger(s) == Some(n) <==> s == Decimal(n) && 1 <= n <= MAX_SAFE_INTEGER
  {
    DecimalIsCanonical(n);
    if IsPositivePattern(s) {
      CanonicalIsDecimal(s);
    }
  }

  lemma NonNegativeIntegerRoundTrip(s: string, n: nat)
    ensures ParseCanonicalNonNegativeInteger(s) == Some(n) <==> s == Decimal(n) && n <= MAX_SAFE_INTEGER
  {
    DecimalIsCanonical(n);
    if IsPositivePattern(s) {
      CanonicalIsDecimal(s);
    } else if s == "0" {
      assert s[..0] == [];
      assert ToNumber("0") == 10 * ToNumber(s[..0]) + DigitValue('0');
    }
  }
}
