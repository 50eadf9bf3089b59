/** The column catalogue of the `colaboradores` table and the values its cells hold. */
module Columns {

  datatype Option<+T> = None | Some(value: T)

  datatype Result<+T> = Ok(value: T) | Err(msg: string)

  /** A cell as the database hands it back: NULL, text, an integer, or a
      floating-point amount, which this model keeps exactly, in cents. */
  datatype Value = Null | Text(s: string) | Int(n: int) | Num(cents: int)

  /** A column as the schema knows it: its name and its declared SQL type. */
  datatype ColumnDef = ColumnDef(name: string, sqlType: string)

  /** The base schema: every column the application expects, with its declared
      type, in table order; `id` first. */
  const BaseColumns: seq<ColumnDef> := [
    ColumnDef("id", "INTEGER PRIMARY KEY AUTOINCREMENT"),
    ColumnDef("nome", "TEXT"),
    ColumnDef("identidade", "TEXT"),
    ColumnDef("nome_mae", "TEXT"),
    ColumnDef("nome_pai", "TEXT"),
    ColumnDef("cpf", "TEXT"),
    ColumnDef("cep", "TEXT"),
    ColumnDef("endereco", "TEXT"),
    ColumnDef("numero", "TEXT"),
    ColumnDef("bairro", "TEXT"),
    ColumnDef("complemento", "TEXT"),
    ColumnDef("nascimento", "TEXT"),
    ColumnDef("telefone", "TEXT"),
    ColumnDef("email", "TEXT"),
    ColumnDef("cargo", "TEXT"),
    ColumnDef("salario_inicial", "REAL"),
    ColumnDef("salario_bruto", "REAL"),
    ColumnDef("optante_passagem", "TEXT"),
    ColumnDef("valor_passagem", "REAL"),
    ColumnDef("abono_salarial", "TEXT"),
    ColumnDef("valor_abono", "REAL"),
    ColumnDef("salario_liquido", "REAL"),
    ColumnDef("fim_contrato", "TEXT"),
    ColumnDef("empresa", "TEXT"),
    ColumnDef("endereco_empresa", "TEXT"),
    ColumnDef("numero_empresa", "TEXT"),
    ColumnDef("cidade", "TEXT"),
    ColumnDef("bairro_empresa", "TEXT"),
    ColumnDef("cnpj", "TEXT"),
    ColumnDef("telefone_empresa", "TEXT"),
    ColumnDef("email_empresa", "TEXT"),
    ColumnDef("anexo_pdf", "TEXT")]

  /** The names of the base schema, in table order. */
  const ColumnNames: seq<string> := Names(BaseColumns)

  /** The columns a record carries besides its id, in the order inserts write them. */
  const DataColumns: seq<string> := ColumnNames[1..]

  /** The columns the cell editor converts to a number before storing. */
  const NumericColumns: set<string> :=
    {"salario_bruto", "valor_passagem", "valor_abono", "salario_liquido", "salario_inicial"}

  /** Positions within the data cells of a record (ColumnNames position minus one). */
  const NomeAt: nat := 0
  const CargoAt: nat := 13
  const BrutoAt: nat := 15
  const PassagemAt: nat := 17
  const AbonoAt: nat := 19
  const LiquidoAt: nat := 20

  function Names(defs: seq<ColumnDef>): (names: seq<string>)
    ensures |names| == |defs|
    ensures forall i :: 0 <= i < |defs| ==> names[i] == defs[i].name
  {
    seq(|defs|, i requires 0 <= i < |defs| => defs[i].name)
  }

  /** No name occurs twice in `s`. */
  predicate Distinct(s: seq<string>) {
    forall i, j :: 0 <= i < j < |s| ==> s[i] != s[j]
  }

  /** The catalogue's sizes alone. */
  lemma CatalogueSize()
    ensures |ColumnNames| == 32 && |DataColumns| == 31
  {
  }

  /** The catalogue's contents at the positions the other modules use. */
  lemma CatalogueFacts()
    ensures Names(BaseColumns) == ColumnNames
    ensures ColumnNames[0] == "id"
    ensures DataColumns[NomeAt] == "nome" && DataColumns[CargoAt] == "cargo"
    ensures DataColumns[BrutoAt] == "salario_bruto" && DataColumns[PassagemAt] == "valor_passagem"
    ensures DataColumns[AbonoAt] == "valor_abono" && DataColumns[LiquidoAt] == "salario_liquido"
  {
  }

  // Distinctness is checked a block of rows at a time, each block against
  // every later name, to keep each proof small.
  lemma DistinctRows0()
    ensures forall i, j :: 0 <= i < 4 && i < j < |ColumnNames| ==> ColumnNames[i] != ColumnNames[j]
  {
  }

  lemma DistinctRows4()
    ensures forall i, j :: 4 <= i < 8 && i < j < |ColumnNames| ==> ColumnNames[i] != ColumnNames[j]
  {
  }

  lemma DistinctRows8()
    ensures forall i, j :: 8 <= i < 12 && i < j < |ColumnNames| ==> ColumnNames[i] != ColumnNames[j]
  {
  }

  lemma DistinctRows12()
    ensures forall i, j :: 12 <= i < 16 && i < j < |ColumnNames| ==> ColumnNames[i] != ColumnNames[j]
  {
  }

  lemma DistinctRows16()
    ensures forall i, j :: 16 <= i < 22 && i < j < |ColumnNames| ==> ColumnNames[i] != ColumnNames[j]
  {
  }

  lemma DistinctRows22()
    ensures forall i, j :: 22 <= i < 32 && i < j < |ColumnNames| ==> ColumnNames[i] != ColumnNames[j]
  {
  }

  lemma ColumnsDistinct()
    ensures Distinct(ColumnNames)
  {
    DistinctRows0();
    DistinctRows4();
    DistinctRows8();
    DistinctRows12();
    DistinctRows16();
    DistinctRows22();
  }
}
