/** Parameter values and their string form. A parameter value is a string or
    a number; the path builder turns it into text with a template literal
    (`${value}`), which leaves a string as it is and writes a safe integer in
    decimal, with a leading `-` when it is negative. */
module Values {

  /** `Number.MAX_SAFE_INTEGER`, 2^53 - 1. Up to this magnitude every integer
      is a JavaScript number of its own, and `${n}` is its exact decimal text;
      beyond it the shortest round-trip digits are padded with zeros, and from
      1e21 on the text is in exponent form. */
  const MaxSafeInteger: int := 9007199254740991

  /** The integers the model admits as numeric parameter values. */
  type SafeInt = n: int | -MaxSafeInteger <= n <= MaxSafeInteger

  datatype Value = Str(text: string) | Num(n: SafeInt)

  predicate IsDigit(c: char)
  {
    '0' <= c <= '9'
  }

  function DigitChar(d: nat): char
    requires d < 10
  {
    "0123456789"[d]
  }

  predicate AllDigits(s: string)
  {
    forall i :: 0 <= i < |s| ==> IsDigit(s[i])
  }

  /** An optional minus sign followed by at least one decimal digit. */
  predicate IsIntText(s: string)
  {
    if |s| > 0 && s[0] == '-' then |s| > 1 && AllDigits(s[1..])
    else |s| > 0 && AllDigits(s)
  }

  /** Reads a string of decimal digits, most significant first. */
  function DecimalValue(s: string): int
    requires AllDigits(s)
  {
    if |s| == 0 then 0
    else DecimalValue(s[..|s| - 1]) * 10 + (s[|s| - 1] as int - '0' as int)
  }

  /** The decimal digits of `n`: at least one digit, no leading zero unless
      `n` is zero, and reading them back gives `n`. */
  function NatDigits(n: nat): (s: string)
    ensures |s| > 0 && AllDigits(s)
    ensures s[0] == '0' ==> |s| == 1
    ensures DecimalValue(s) == n
  {
    if n < 10 then [DigitChar(n)]
    else
      var high := NatDigits(n / 10);
      var s := high + [DigitChar(n % 10)];
      assert s[..|s| - 1] == high;
      s
  }

  /** Reads an optionally negative decimal integer. */
  function ParseInt(s: string): int
    requires IsIntText(s)
  {
    if s[0] == '-' then -DecimalValue(s[1..]) else DecimalValue(s)
  }

  /** The decimal text of an integer `n`, which is `${n}` when `n` is a
      `SafeInt`: digits after a minus sign exactly when `n` is negative, no
      leading zero (and no `-0`), and it reads back as `n`. */
  function IntString(n: int): (s: string)
    ensures IsIntText(s)
    ensures s[0] == '-' <==> n < 0
    ensures n < 0 ==> s[1] != '0'
    ensures n >= 0 && s[0] == '0' ==> |s| == 1
    ensures ParseInt(s) == n
  {
    if n < 0 then
      var digits := NatDigits(-n);
      var s := "-" + digits;
      assert s[1..] == digits;
      s
    else NatDigits(n)
  }

  /** `${value}`. A number (a safe integer) renders as its exact decimal text,
      never the empty string (so `0` gives `"0"`); a string renders as itself. */
  function ValueString(v: Value): (s: string)
    ensures v.Str? ==> s == v.text
    ensures v.Num? ==> IsIntText(s) && ParseInt(s) == v.n
    ensures v.Num? ==> s == IntString(v.n)
  {
    match v
    case Str(t) => t
    case Num(n) => IntString(n)
  }

  /** An integer's text is never empty and has no line terminator or `/`. */
  lemma IntTextIsPlain(s: string)
    requires IsIntText(s)
    ensures |s| > 0
    ensures forall c :: c in s ==> c == '-' || IsDigit(c)
  {
    if s[0] == '-' {
      forall c | c in s ensures c == '-' || IsDigit(c) {
        var i :| 0 <= i < |s| && s[i] == c;
        if i > 0 {
          assert s[1..][i - 1] == c;
        }
      }
    }
  }
}
