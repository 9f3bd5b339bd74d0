/** Python's `int(text)` for a `str` argument in base 10, and `str(n)` for an `int`. */
module PyInt {
  import opened Python

  function DigitValue(c: char): nat
    requires IsDigit(c)
  {
    c as int - '0' as int
  }

  function DigitChar(d: nat): (c: char)
    requires d < 10
    ensures IsDigit(c) && DigitValue(c) == d
  {
    ('0' as int + d) as char
  }

  /** The digit body `int()` accepts: `digit ('_'? digit)*`, read as a decimal numeral.
      `None` for any other text, including the empty string. */
  function ParseDigits(t: string): Option<nat>
  {
    if t == "" || !IsDigit(t[|t| - 1]) then None
    else if |t| == 1 then Some(DigitValue(t[0]))
    else
      var init := if t[|t| - 2] == '_' then t[..|t| - 2] else t[..|t| - 1];
      match ParseDigits(init)
      case None => None
      case Some(v) => Some(10 * v + DigitValue(t[|t| - 1]))
  }

  /** `int(s)`: surrounding white space, an optional sign, then the digit body; `None` where
      Python raises `ValueError`. */
  function Int(s: string): Option<int>
  {
    var t := Strip(s);
    if t != "" && (t[0] == '+' || t[0] == '-') then
      match ParseDigits(t[1..])
      case None => None
      case Some(v) => Some(if t[0] == '-' then -(v as int) else v as int)
    else
      match ParseDigits(t)
      case None => None
      case Some(v) => Some(v)
  }

  /** The shortest decimal numeral of `n`. */
  function NatStr(n: nat): (s: string)
    ensures s != "" && AllDigits(s)
  {
    if n < 10 then [DigitChar(n)] else NatStr(n / 10) + [DigitChar(n % 10)]
  }

  /** `str(n)`. */
  function Str(n: int): string
  {
    if n < 0 then "-" + NatStr(-n) else NatStr(n)
  }

  lemma {:induction false} ParseNatStr(n: nat)
    ensures ParseDigits(NatStr(n)) == Some(n)
  {
    if n >= 10 {
      var t := NatStr(n);
      ParseNatStr(n / 10);
      assert t[..|t| - 1] == NatStr(n / 10);
    }
  }

  /** `int(str(n)) == n` for every integer. */
  lemma IntOfStr(n: int)
    ensures Int(Str(n)) == Some(n)
  {
    var s := Str(n);
    StripUnchanged(s);
    if n < 0 {
      assert s[1..] == NatStr(-n);
      ParseNatStr(-n);
    } else {
      ParseNatStr(n);
    }
  }

  /** `str` never maps two integers to the same text. */
  lemma StrInjective(m: int, n: int)
    requires Str(m) == Str(n)
    ensures m == n
  {
    IntOfStr(m);
    IntOfStr(n);
  }
}
