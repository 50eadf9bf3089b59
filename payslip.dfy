/** The logic inside the payslip generator: the output file name and the
    figures it prints. The PDF drawing, the logo and opening the file are not
    modelled; the timestamp is a parameter. */
module Payslip {
  import opened Columns
  import opened NetPay
  import opened Strings

  /** The reports directory, under the application directory. */
  const ReportsDir: string := "C:\\GestaoRH\\Relatorios"

  /** Positions of the payslip's fields in a full row (`id` first). */
  const RowBruto: nat := 16
  const RowPassagem: nat := 18
  const RowAbono: nat := 20
  const RowLiquido: nat := 21

  /** `data.get(name)` where `data = dict(zip(columns, record))`: position `i`
      of the record, or None when the record is shorter. */
  function Field(record: seq<Value>, i: nat): (v: Value)
    ensures i < |record| ==> v == record[i]
    ensures i >= |record| ==> v == Null
  {
    if i < |record| then record[i] else Null
  }

  /** `(nome or "colaborador").replace(" ", "_")`: a falsy name becomes
      "colaborador"; a truthy value that is not text has no `replace`, so the
      generator fails (None). */
  function SafeName(nome: Value): (r: Option<string>)
    ensures Falsy(nome) ==> r == Some("colaborador")
    ensures nome.Text? && nome.s != "" ==> r == Some(Replace(nome.s, ' ', '_'))
    ensures !Falsy(nome) && !nome.Text? ==> r.None?
    ensures r.Some? ==> r.value != "" && ' ' !in r.value
  {
    if Falsy(nome) then Some("colaborador")
    else match nome
      case Text(s) => Some(Replace(s, ' ', '_'))
      case _ => None
  }

  /** The fixed part of every payslip path before the name. */
  const PathPrefix: string := ReportsDir + "\\" + "contracheque_"

  /** `os.path.join(REPORTS_DIR, f"contracheque_{safe_name}_{ts}.pdf")`. */
  function PayslipPath(nome: Value, ts: string): (p: Option<string>)
    ensures p.Some? <==> SafeName(nome).Some?
    ensures p.Some? ==>
      var safe := SafeName(nome).value;
      |p.value| == |PathPrefix| + |safe| + |ts| + 5 &&
      p.value[..|PathPrefix|] == PathPrefix &&
      p.value[|PathPrefix|..|PathPrefix| + |safe|] == safe &&
      p.value[|PathPrefix| + |safe|..] == "_" + ts + ".pdf"
  {
    match SafeName(nome)
    case None => None
    case Some(safe) => Some(PathPrefix + safe + "_" + ts + ".pdf")
  }

  /** Within one timestamp, two non-empty names with no underscore of their own
      get different payslip paths: the path tells the name back. */
  lemma PathIdentifiesName(a: string, b: string, ts: string)
    requires a != "" && b != "" && '_' !in a && '_' !in b
    requires PayslipPath(Text(a), ts) == PayslipPath(Text(b), ts)
    ensures a == b
  {
    var sa := Replace(a, ' ', '_');
    var sb := Replace(b, ' ', '_');
    assert SafeName(Text(a)) == Some(sa) && SafeName(Text(b)) == Some(sb);
    var p := PayslipPath(Text(a), ts).value;
    assert |sa| == |sb|;
    assert sa == p[|PathPrefix|..|PathPrefix| + |sa|] == sb;
    forall k | 0 <= k < |a| ensures a[k] == b[k] {
      if a[k] == ' ' {
        assert sa[k] == '_';
      }
    }
  }

  /** The converse does not hold for names that use underscores: "Ana Maria" and
      "Ana_Maria" share a payslip path, so within one second the second payslip
      overwrites the first. */
  lemma SpaceAndUnderscoreCollide(ts: string)
    ensures PayslipPath(Text("Ana Maria"), ts) == PayslipPath(Text("Ana_Maria"), ts)
  {
    assert Replace("Ana Maria", ' ', '_') == Replace("Ana_Maria", ' ', '_');
  }

  /** The four amounts a payslip prints, in cents. */
  datatype Figures = Figures(bruto: int, passagem: int, abono: int, liquido: int)

  /** The financial block of the payslip for a full row: each amount is
      `float(value or 0)`, and the net falls back to max(0, gross - (transport +
      allowance)) when the stored net is falsy. Any conversion failure makes
      the generator fail (None). */
  function PayslipFigures(parse: Parser, record: seq<Value>): (r: Option<Figures>)
    ensures r.Some? <==>
      PayslipNet(parse, Field(record, RowBruto), Field(record, RowPassagem), Field(record, RowAbono), Field(record, RowLiquido)).Some?
    ensures r.Some? ==>
      Some(r.value.bruto) == StoredAmount(parse, Field(record, RowBruto)) &&
      Some(r.value.passagem) == StoredAmount(parse, Field(record, RowPassagem)) &&
      Some(r.value.abono) == StoredAmount(parse, Field(record, RowAbono))
    // a falsy stored net is printed as max(0, gross - (transport + allowance))
    ensures r.Some? && Falsy(Field(record, RowLiquido)) ==>
      r.value.liquido >= 0 && r.value.liquido >= r.value.bruto - (r.value.passagem + r.value.abono) &&
      (r.value.liquido == 0 || r.value.liquido == r.value.bruto - (r.value.passagem + r.value.abono))
    ensures r.Some? && !Falsy(Field(record, RowLiquido)) ==>
      Some(r.value.liquido) == StoredAmount(parse, Field(record, RowLiquido))
  {
    match PayslipNet(parse, Field(record, RowBruto), Field(record, RowPassagem), Field(record, RowAbono), Field(record, RowLiquido))
    case None => None
    case Some(net) =>
      Some(Figures(
        StoredAmount(parse, Field(record, RowBruto)).value,
        StoredAmount(parse, Field(record, RowPassagem)).value,
        StoredAmount(parse, Field(record, RowAbono)).value,
        net))
  }

  /** A payslip for a record whose four amounts are all blank (NULL, empty,
      zero, or past the end of the row) prints zeros throughout. */
  lemma EmptyRecordPaysNothing(parse: Parser, record: seq<Value>)
    requires Falsy(Field(record, RowBruto)) && Falsy(Field(record, RowPassagem))
    requires Falsy(Field(record, RowAbono)) && Falsy(Field(record, RowLiquido))
    ensures PayslipFigures(parse, record) == Some(Figures(0, 0, 0, 0))
  {
  }
}
