/**
 * The textual building blocks the ledger hashes and signs: PHP's notion of a
 * "falsy" string, `sprintf('%d')` for integers and `sprintf('%1.5F')` for
 * amounts.  Amounts are fixed-point numbers with five fractional digits.
 *
 * Both formatters are proved injective (through a parser that inverts them),
 * which is what makes a change to a single formatted field visible in the
 * strings that are hashed and signed.
 */
module Text {

  /** PHP's `!$s` on a string: the empty string and "0" are falsy. */
  predicate Falsy(s: string) {
    s == "" || s == "0"
  }

  /** Number of fixed-point units in one whole amount unit (`%1.5F`). */
  const Scale: int := 100000

  predicate IsDigit(c: char) {
    '0' <= c <= '9'
  }

  function DigitChar(d: int): (c: char)
    requires 0 <= d < 10
    ensures IsDigit(c) && c as int - '0' as int == d
  {
    ('0' as int + d) as char
  }

  /** The value of a digit character; other characters are read by the same rule. */
  function DigitValue(c: char): int {
    c as int - '0' as int
  }

  /** Decimal digits of a natural number, most significant first, no leading zeros. */
  function NatDigits(n: nat): (s: string)
    ensures |s| >= 1
    ensures forall i :: 0 <= i < |s| ==> IsDigit(s[i])
    decreases n
  {
    if n < 10 then [DigitChar(n)] else NatDigits(n / 10) + [DigitChar(n % 10)]
  }

  /** Exactly `width` decimal digits of `n`, zero-padded on the left. */
  function PaddedDigits(n: nat, width: nat): (s: string)
    ensures |s| == width
    ensures forall i :: 0 <= i < |s| ==> IsDigit(s[i])
  {
    if width == 0 then [] else PaddedDigits(n / 10, width - 1) + [DigitChar(n % 10)]
  }

  /** Reads a string of digits as a natural number (the inverse of NatDigits). */
  function DigitsValue(s: string): int {
    if s == [] then 0 else DigitsValue(s[..|s| - 1]) * 10 + DigitValue(s[|s| - 1])
  }

  /** `sprintf('%d', n)`. */
  function Decimal(n: int): (s: string)
    ensures |s| >= 1 && s[0] != ' ' && s[|s| - 1] != ' '
  {
    if n < 0 then "-" + NatDigits(-n) else NatDigits(n)
  }

  /** Reads the output of Decimal back. */
  function ParseDecimal(s: string): int {
    if |s| > 0 && s[0] == '-' then -DigitsValue(s[1..]) else DigitsValue(s)
  }

  function Abs(n: int): nat {
    if n < 0 then -n else n
  }

  /** `sprintf('%1.5F', a / Scale)`: sign, whole part, a point and five fractional digits. */
  function FormatAmount(a: int): (s: string)
    ensures |s| >= 7
  {
    (if a < 0 then "-" else "") + NatDigits(Abs(a) / Scale) + "." + PaddedDigits(Abs(a) % Scale, 5)
  }

  /** Reads the output of FormatAmount back. */
  function ParseAmount(s: string): int {
    var negative := |s| > 0 && s[0] == '-';
    var body := if negative then s[1..] else s;
    if |body| < 6 then 0
    else
      var magnitude := DigitsValue(body[..|body| - 6]) * Scale + DigitsValue(body[|body| - 5..]);
      if negative then -magnitude else magnitude
  }

  lemma DigitsValueSnoc(s: string, c: char)
    ensures DigitsValue(s + [c]) == DigitsValue(s) * 10 + DigitValue(c)
  {
    assert (s + [c])[..|s + [c]| - 1] == s;
  }

  lemma {:induction false} NatDigitsRoundTrip(n: nat)
    ensures DigitsValue(NatDigits(n)) == n
    decreases n
  {
    if n < 10 {
      DigitsValueSnoc([], DigitChar(n));
      assert [DigitChar(n)] == [] + [DigitChar(n)];
    } else {
      NatDigitsRoundTrip(n / 10);
      DigitsValueSnoc(NatDigits(n / 10), DigitChar(n % 10));
    }
  }

  function Pow10(k: nat): nat {
    if k == 0 then 1 else 10 * Pow10(k - 1)
  }

  lemma {:induction false} PaddedDigitsRoundTrip(n: nat, width: nat)
    requires n < Pow10(width)
    ensures DigitsValue(PaddedDigits(n, width)) == n
    decreases width
  {
    if width == 0 {
    } else {
      assert n / 10 < Pow10(width - 1);
      PaddedDigitsRoundTrip(n / 10, width - 1);
      DigitsValueSnoc(PaddedDigits(n / 10, width - 1), DigitChar(n % 10));
    }
  }

  /** ParseDecimal inverts Decimal. */
  lemma DecimalRoundTrip(n: int)
    ensures ParseDecimal(Decimal(n)) == n
  {
    if n < 0 {
      NatDigitsRoundTrip(-n);
      assert Decimal(n)[1..] == NatDigits(-n);
    } else {
      NatDigitsRoundTrip(n);
    }
  }

  /** `%d` never maps two integers to the same text. */
  lemma DecimalInjective(a: int, b: int)
    requires Decimal(a) == Decimal(b)
    ensures a == b
  {
    DecimalRoundTrip(a);
    DecimalRoundTrip(b);
  }

  /** ParseAmount inverts FormatAmount. */
  lemma AmountRoundTrip(a: int)
    ensures ParseAmount(FormatAmount(a)) == a
  {
    var whole := NatDigits(Abs(a) / Scale);
    var fraction := PaddedDigits(Abs(a) % Scale, 5);
    var body := whole + "." + fraction;
    assert FormatAmount(a) == (if a < 0 then "-" else "") + body;
    assert body[..|body| - 6] == whole;
    assert body[|body| - 5..] == fraction;
    NatDigitsRoundTrip(Abs(a) / Scale);
    assert Pow10(5) == Scale;
    PaddedDigitsRoundTrip(Abs(a) % Scale, 5);
    if a < 0 {
      assert FormatAmount(a)[1..] == body;
    } else {
      assert FormatAmount(a) == body;
      assert body[0] == whole[0] && IsDigit(whole[0]);
    }
  }

  /** `%1.5F` never maps two fixed-point amounts to the same text. */
  lemma AmountInjective(a: int, b: int)
    requires FormatAmount(a) == FormatAmount(b)
    ensures a == b
  {
    AmountRoundTrip(a);
    AmountRoundTrip(b);
  }

  /** Removing a common prefix: `p + x == p + y` only when `x == y`. */
  lemma PrefixCancel(p: string, x: string, y: string)
    requires p + x == p + y
    ensures x == y
  {
    assert x == (p + x)[|p|..];
    assert y == (p + y)[|p|..];
  }

  /** Removing a common suffix: `x + q == y + q` only when `x == y`. */
  lemma SuffixCancel(x: string, y: string, q: string)
    requires x + q == y + q
    ensures x == y
  {
    assert x == (x + q)[..|x|];
    assert y == (y + q)[..|y|];
  }

  /** `str_repeat(c, n)`. */
  function Repeat(c: char, n: nat): (s: string)
    ensures |s| == n && forall i :: 0 <= i < n ==> s[i] == c
  {
    if n == 0 then [] else Repeat(c, n - 1) + [c]
  }
}
