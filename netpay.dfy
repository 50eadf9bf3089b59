/** The three net-pay rules of the application: the save handler's, the update
    handler's and the payslip's. Amounts are exact, in cents. Both rules that
    compute a net subtract the transport deduction AND the allowance from the
    gross pay, as the code does. */
module NetPay {
  import opened Columns

  /** Python's float() applied to a non-empty text, giving cents; None where
      float() raises. Left abstract: every rule below takes it as a parameter. */
  type Parser = string -> Option<int>

  /** `float(s or 0)`: the empty text stands for 0; otherwise the parser decides. */
  function Amount(parse: Parser, s: string): (a: Option<int>)
    ensures s == "" ==> a == Some(0)
    ensures s != "" ==> a == parse(s)
  {
    if s == "" then Some(0) else parse(s)
  }

  /** The save handler's guarded conversion of one amount: a failure counts as 0. */
  function AmountOrZero(parse: Parser, s: string): int {
    match Amount(parse, s)
    case Some(c) => c
    case None => 0
  }

  /** Net pay as the save handler stores it: each amount is converted on its own,
      a text that does not parse counts as 0, and the result is
      gross - (transport + allowance). Rounding to two decimals is the identity
      on cents. */
  function SaveNet(parse: Parser, bruto: string, passagem: string, abono: string): (net: int)
    ensures Amount(parse, bruto).Some? && Amount(parse, passagem).Some? && Amount(parse, abono).Some? ==>
      net == Amount(parse, bruto).value - (Amount(parse, passagem).value + Amount(parse, abono).value)
    ensures Amount(parse, bruto).None? ==> net == -(AmountOrZero(parse, passagem) + AmountOrZero(parse, abono))
    ensures Amount(parse, passagem).None? ==> net == AmountOrZero(parse, bruto) - AmountOrZero(parse, abono)
    ensures Amount(parse, abono).None? ==> net == AmountOrZero(parse, bruto) - AmountOrZero(parse, passagem)
  {
    AmountOrZero(parse, bruto) - (AmountOrZero(parse, passagem) + AmountOrZero(parse, abono))
  }

  /** The value the update handler writes to salario_liquido: the three amounts
      are converted inside one guarded block, so a single failure leaves the
      net the user typed in the form. */
  function UpdateNet(parse: Parser, bruto: string, passagem: string, abono: string, typed: string): (v: Value)
    ensures v.Num? <==> Amount(parse, bruto).Some? && Amount(parse, passagem).Some? && Amount(parse, abono).Some?
    // when nothing fails, the update rule stores exactly what the save rule stores
    ensures v.Num? ==> v.cents == SaveNet(parse, bruto, passagem, abono)
    ensures !v.Num? ==> v == Text(typed)
  {
    match (Amount(parse, bruto), Amount(parse, passagem), Amount(parse, abono))
    case (Some(b), Some(p), Some(a)) => Num(b - (p + a))
    case _ => Text(typed)
  }

  /** Python truthiness of a stored cell: NULL, the empty text and zero are false. */
  predicate Falsy(v: Value) {
    v == Null || v == Text("") || v == Int(0) || v == Num(0)
  }

  /** `float(v or 0)` on a stored cell; None where float() raises. */
  function StoredAmount(parse: Parser, v: Value): (a: Option<int>)
    ensures Falsy(v) ==> a == Some(0)
    ensures v.Num? ==> a == Some(v.cents)
    ensures v.Text? ==> a == Amount(parse, v.s)
  {
    if Falsy(v) then Some(0)
    else match v
      case Text(s) => parse(s)
      case Int(n) => Some(100 * n)
      case Num(c) => Some(c)
      case Null => Some(0)
  }

  /** The net the payslip prints: a stored net that is falsy (NULL, empty, zero)
      is replaced by max(0, gross - (transport + allowance)); any amount that
      does not convert makes the payslip fail (None). */
  function PayslipNet(parse: Parser, bruto: Value, passagem: Value, abono: Value, liquido: Value): (r: Option<int>)
    ensures r.Some? <==>
      StoredAmount(parse, bruto).Some? && StoredAmount(parse, passagem).Some? &&
      StoredAmount(parse, abono).Some? && StoredAmount(parse, liquido).Some?
    // the fallback is max(0, gross - (transport + allowance)): at least both and
    // equal to one of them; a stored, truthy net is printed as it is
    ensures r.Some? && Falsy(liquido) ==> r.value >= 0
    ensures r.Some? && Falsy(liquido) ==>
      r.value >= StoredAmount(parse, bruto).value - (StoredAmount(parse, passagem).value + StoredAmount(parse, abono).value)
    ensures r.Some? && Falsy(liquido) ==>
      r.value == 0 ||
      r.value == StoredAmount(parse, bruto).value - (StoredAmount(parse, passagem).value + StoredAmount(parse, abono).value)
    ensures r.Some? && !Falsy(liquido) ==> r == StoredAmount(parse, liquido)
  {
    match (StoredAmount(parse, bruto), StoredAmount(parse, passagem), StoredAmount(parse, abono))
    case (Some(b), Some(p), Some(a)) =>
      if Falsy(liquido) then Some(if b - (p + a) > 0 then b - (p + a) else 0)
      else StoredAmount(parse, liquido)
    case _ => None
  }

  /** A record written by the save handler prints, on its payslip, exactly the net
      the save handler computed, negative or not, provided the stored amount
      texts convert. A zero net takes the fallback, which is zero as well. */
  lemma PayslipShowsSavedNet(parse: Parser, bruto: string, passagem: string, abono: string)
    requires Amount(parse, bruto).Some? && Amount(parse, passagem).Some? && Amount(parse, abono).Some?
    ensures PayslipNet(parse, Text(bruto), Text(passagem), Text(abono), Num(SaveNet(parse, bruto, passagem, abono)))
      == Some(SaveNet(parse, bruto, passagem, abono))
  {
    var net := SaveNet(parse, bruto, passagem, abono);
    assert StoredAmount(parse, Text(bruto)) == Amount(parse, bruto);
    assert StoredAmount(parse, Text(passagem)) == Amount(parse, passagem);
    assert StoredAmount(parse, Text(abono)) == Amount(parse, abono);
    if net == 0 {
      assert Falsy(Num(net));
    }
  }

  /** The worked example: gross 3000.00 and transport 150.00 save a net of
      2850.00; updating the allowance to 100 then stores 2750.00, because the
      allowance is subtracted. */
  lemma AllowanceIsSubtracted(parse: Parser)
    requires parse("3000.00") == Some(300000) && parse("150.00") == Some(15000)
    requires parse("0") == Some(0) && parse("100") == Some(10000)
    ensures SaveNet(parse, "3000.00", "150.00", "0") == 285000
    ensures UpdateNet(parse, "3000.00", "150.00", "100", "2850.00") == Num(275000)
  {
  }
}
