/** `Kernel#Integer` applied to a String, as used to read a sort column
    from request parameters: optional surrounding white space, an optional
    sign, an optional radix prefix (0x, 0b, 0o, 0d; a bare leading 0 means
    octal) and digits with single underscores between them. Anything else
    raises, which is `None` here. */
module RubyInteger {
  import opened Wrappers
  import RubyText

  /** The value of `c` as a digit of any radix up to 36, if it is one. */
  function DigitValue(c: char): (d: Option<nat>)
    ensures d.Some? ==> d.value < 36
  {
    if '0' <= c <= '9' then Some(c as nat - '0' as nat)
    else if 'a' <= c <= 'z' then Some(c as nat - 'a' as nat + 10)
    else if 'A' <= c <= 'Z' then Some(c as nat - 'A' as nat + 10)
    else None
  }

  predicate IsDigit(c: char, radix: nat) {
    DigitValue(c).Some? && DigitValue(c).value < radix
  }

  /** A digit string of the given radix: digits, with single underscores
      only between two digits. */
  predicate ValidDigits(s: string, radix: nat) {
    && DigitsOrSeparators(s, radix)
    && |s| > 0
    && IsDigit(s[0], radix)
    && IsDigit(s[|s| - 1], radix)
    && forall i :: 0 <= i < |s| ==> IsDigit(s[i], radix) || (s[i] == '_' && 0 < i < |s| - 1 && IsDigit(s[i + 1], radix))
  }

  predicate DigitsOrSeparators(s: string, radix: nat) {
    forall i :: 0 <= i < |s| ==> IsDigit(s[i], radix) || s[i] == '_'
  }

  /** The value of a digit string, skipping underscores. */
  function DigitsValue(s: string, radix: nat): (value: nat)
    requires DigitsOrSeparators(s, radix)
  {
    if s == [] then 0
    else
      var last := s[|s| - 1];
      assert IsDigit(last, radix) || last == '_';
      if last == '_' then DigitsValue(s[..|s| - 1], radix)
      else DigitsValue(s[..|s| - 1], radix) * radix + DigitValue(last).value
  }

  /** `s` without leading white space. */
  function TrimLeft(s: string): (r: string)
    ensures |r| <= |s| && r == s[|s| - |r|..]
    ensures r == [] || !RubyText.IsSpace(r[0])
  {
    if s != [] && RubyText.IsSpace(s[0]) then TrimLeft(s[1..]) else s
  }

  /** `s` without trailing white space. */
  function TrimRight(s: string): (r: string)
    ensures r <= s
    ensures r == [] || !RubyText.IsSpace(r[|r| - 1])
  {
    if s != [] && RubyText.IsSpace(s[|s| - 1]) then TrimRight(s[..|s| - 1]) else s
  }

  /** An unsigned number with its optional radix prefix. */
  function ParseUnsigned(body: string): (r: Option<nat>)
  {
    if |body| >= 2 && body[0] == '0' && body[1] in "xXbBoOdD" then
      var radix := if body[1] in "xX" then 16 else if body[1] in "bB" then 2 else if body[1] in "oO" then 8 else 10;
      var digits := body[2..];
      if ValidDigits(digits, radix) then Some(DigitsValue(digits, radix)) else None
    else
      var radix := if body != [] && body[0] == '0' then 8 else 10;
      if ValidDigits(body, radix) then Some(DigitsValue(body, radix)) else None
  }

  /** `Integer(text)`: the integer `text` denotes, or `None` where Ruby raises. */
  function ParseInteger(text: string): (r: Option<int>)
  {
    var t := TrimRight(TrimLeft(text));
    var signed := t != [] && (t[0] == '-' || t[0] == '+');
    var body := if signed then t[1..] else t;
    match ParseUnsigned(body)
    case None => None
    case Some(n) =>
      var v: int := if signed && t[0] == '-' then -(n as int) else n;
      Some(v)
  }

  /** The decimal numeral of `n`, without leading zeros. */
  function Decimal(n: nat): (s: string)
    ensures |s| > 0
    ensures forall i :: 0 <= i < |s| ==> '0' <= s[i] <= '9'
    ensures |s| > 1 ==> s[0] != '0'
  {
    if n < 10 then [('0' as nat + n) as char]
    else Decimal(n / 10) + [('0' as nat + n % 10) as char]
  }

  /** The numeral `Integer#to_s` produces. */
  function ShowInt(n: int): (s: string)
  {
    if n < 0 then "-" + Decimal(-n) else Decimal(n)
  }

  lemma {:induction false} DecimalValue(n: nat, radix: nat)
    requires radix == 10 || (radix == 8 && n < 8)
    ensures ValidDigits(Decimal(n), radix)
    ensures DigitsValue(Decimal(n), radix) == n
  {
    var s := Decimal(n);
    if n >= 10 {
      DecimalValue(n / 10, radix);
      assert s[..|s| - 1] == Decimal(n / 10);
    }
  }

  /** A decimal numeral reads back as its value (a lone "0" as octal zero). */
  lemma ParseDecimal(n: nat)
    ensures ParseUnsigned(Decimal(n)) == Some(n)
  {
    var d := Decimal(n);
    if d[0] == '0' {
      assert n == 0;
      DecimalValue(n, 8);
    } else {
      DecimalValue(n, 10);
    }
  }

  lemma {:induction false} TrimNumeral(s: string)
    requires |s| > 0
    requires forall i :: 0 <= i < |s| ==> s[i] == '-' || '0' <= s[i] <= '9'
    ensures TrimRight(TrimLeft(s)) == s
  {
  }

  /** `Integer(n.to_s) == n` for every integer. */
  lemma ParseShowRoundTrip(n: int)
    ensures ParseInteger(ShowInt(n)) == Some(n)
  {
    var s := ShowInt(n);
    var m: nat := if n < 0 then -(n as int) else n;
    TrimNumeral(s);
    ParseDecimal(m);
    if n < 0 {
      assert s[1..] == Decimal(m);
    }
  }
}
