/** `positive_number` of subdivx_dl/helper.py: the argument type of `--lines`. */
module Helper {
  import opened Python
  import PyInt

  const NotNumeric: string := " must be a numeric value"
  const NotPositive: string := " should be greater than zero"

  /** `int(value)`, then the sign check; each failure is the message of the
      `ArgumentTypeError` that argparse reports. */
  function PositiveNumber(value: string): (r: Result<int, string>)
    ensures r == Err(value + NotNumeric) <==> PyInt.Int(value).None?
    ensures r == Err(value + NotPositive) <==> PyInt.Int(value).Some? && PyInt.Int(value).value <= 0
    ensures r.Ok? <==> PyInt.Int(value).Some? && PyInt.Int(value).value > 0
    ensures r.Ok? ==> r.value > 0 && Some(r.value) == PyInt.Int(value)
  {
    var numeric, positive := value + NotNumeric, value + NotPositive;
    assert numeric[|value| + 1] != positive[|value| + 1];
    match PyInt.Int(value)
    case None => Err(numeric)
    case Some(n) => if n <= 0 then Err(positive) else Ok(n)
  }

  /** Every positive integer, written out, is accepted as itself. */
  lemma PositiveNumberAccepts(n: int)
    requires n > 0
    ensures PositiveNumber(PyInt.Str(n)) == Ok(n)
  {
    PyInt.IntOfStr(n);
  }

  /** Zero and every negative integer, written out, are refused by the sign check. */
  lemma PositiveNumberRefuses(n: int)
    requires n <= 0
    ensures PositiveNumber(PyInt.Str(n)) == Err(PyInt.Str(n) + NotPositive)
  {
    PyInt.IntOfStr(n);
  }
}
