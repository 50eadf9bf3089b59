/** The application window's record logic: the cached listing behind the
    records view, the navigation cursor over it, the selected row, and the
    form and cell-edit handlers that write to the table and then reload.
    Widgets, dialogs and the form's own contents are not modelled: the form
    is a parameter, a confirmation dialog is a boolean. */
module Window {
  import opened Columns
  import opened NetPay
  import opened Store
  import opened Payslip
  import opened Strings

  /** The cursor for a cache of `n` rows: -1 on an empty cache, a valid row
      position otherwise. */
  predicate CursorInRange(cur: int, n: nat) {
    if n == 0 then cur == -1 else 0 <= cur < n
  }

  /** `on_first`: the first row, unless the cache is empty. */
  function FirstCursor(cur: int, n: nat): (c: int)
    ensures n > 0 ==> c == 0
    ensures n == 0 ==> c == cur
  {
    if n == 0 then cur else 0
  }

  /** `on_prev`: one row up, unless already at the top (or on an empty cache). */
  function PrevCursor(cur: int): (c: int)
    ensures cur > 0 ==> c == cur - 1
    ensures cur <= 0 ==> c == cur
  {
    if cur > 0 then cur - 1 else cur
  }

  /** `on_next`: one row down, unless already at the bottom. */
  function NextCursor(cur: int, n: nat): (c: int)
    ensures cur < n - 1 ==> c == cur + 1
    ensures cur >= n - 1 ==> c == cur
  {
    if cur < n - 1 then cur + 1 else cur
  }

  /** `on_last`: the last row, unless the cache is empty. */
  function LastCursor(cur: int, n: nat): (c: int)
    ensures n > 0 ==> c == n - 1
    ensures n == 0 ==> c == cur
  {
    if n == 0 then cur else n - 1
  }

  /** Every move keeps the cursor in range. */
  lemma MovesStayInRange(cur: int, n: nat)
    requires CursorInRange(cur, n)
    ensures CursorInRange(PrevCursor(cur), n)
    ensures CursorInRange(NextCursor(cur, n), n)
    ensures CursorInRange(FirstCursor(cur, n), n) && CursorInRange(LastCursor(cur, n), n)
  {
  }

  /** Next then previous comes back, except at the bottom, where next does nothing. */
  lemma NextThenPrev(cur: int, n: nat)
    requires CursorInRange(cur, n) && cur < n - 1
    ensures PrevCursor(NextCursor(cur, n)) == cur
  {
  }

  /** The cursor after pressing next `k` times. */
  function NextTimes(cur: int, n: nat, k: nat): int
    decreases k
  {
    if k == 0 then cur else NextCursor(NextTimes(cur, n, k - 1), n)
  }

  /** Pressing next often enough reaches the last row and stays there. */
  lemma {:induction false} NextReachesLast(cur: int, n: nat, k: nat)
    requires CursorInRange(cur, n) && n > 0
    ensures NextTimes(cur, n, k) == if cur + k < n - 1 then cur + k else n - 1
    decreases k
  {
    if k > 0 {
      NextReachesLast(cur, n, k - 1);
    }
  }

  /** The loop in `on_tree_select`: the first position in `rs` holding `id`, or
      -1 when there is none. */
  method FindById(rs: seq<Record>, id: int) returns (idx: int)
    ensures -1 <= idx < |rs|
    ensures idx == -1 <==> forall j :: 0 <= j < |rs| ==> rs[j].id != id
    ensures idx >= 0 ==> rs[idx].id == id && forall j :: 0 <= j < idx ==> rs[j].id != id
  {
    var j := 0;
    while j < |rs|
      invariant 0 <= j <= |rs|
      invariant forall i :: 0 <= i < j ==> rs[i].id != id
    {
      if rs[j].id == id {
        return j;
      }
      j := j + 1;
    }
    return -1;
  }

  /** Every data column has an entry in the form (the amounts named on their
      own, so that the net-pay rules can read them). */
  predicate FormComplete(form: map<string, string>) {
    && (forall c :: c in DataColumns ==> c in form)
    && "salario_bruto" in form && "valor_passagem" in form
    && "valor_abono" in form && "salario_liquido" in form
  }

  /** The dictionary `on_salvar` inserts: every form field as typed, except the
      net pay, which is recomputed by the save rule. */
  function SaveFields(form: map<string, string>, parse: Parser): map<string, Value>
    requires FormComplete(form)
  {
    map c | c in DataColumns ::
      if c == "salario_liquido"
      then Num(SaveNet(parse, form["salario_bruto"], form["valor_passagem"], form["valor_abono"]))
      else Text(form[c])
  }

  /** The dictionary `on_atualizar` writes: every form field as typed, except the
      net pay, which the update rule recomputes when all three amounts convert. */
  function UpdateFields(form: map<string, string>, parse: Parser): map<string, Value>
    requires FormComplete(form)
  {
    map c | c in DataColumns ::
      if c == "salario_liquido"
      then UpdateNet(parse, form["salario_bruto"], form["valor_passagem"], form["valor_abono"], form["salario_liquido"])
      else Text(form[c])
  }

  /** The row `on_salvar` writes: each field as typed, the net pay replaced by the
      save rule's value whatever the user typed in it. */
  lemma SavedRow(form: map<string, string>, parse: Parser)
    requires FormComplete(form)
    ensures forall k :: 0 <= k < |DataColumns| && k != LiquidoAt ==>
      RowOf(SaveFields(form, parse))[k] == Text(form[DataColumns[k]])
    ensures RowOf(SaveFields(form, parse))[LiquidoAt] ==
      Num(SaveNet(parse, form["salario_bruto"], form["valor_passagem"], form["valor_abono"]))
  {
    CatalogueSize();
    CatalogueFacts();
    ColumnsDistinct();
    forall k | 0 <= k < |DataColumns| && k != LiquidoAt
      ensures DataColumns[k] != "salario_liquido"
    {
      assert DataColumns[k] == ColumnNames[k + 1] && DataColumns[LiquidoAt] == ColumnNames[LiquidoAt + 1];
    }
  }

  /** The row `on_atualizar` writes: each field as typed; the net pay is the
      recomputed one when all three amounts convert, and the typed one otherwise. */
  lemma UpdatedRow(form: map<string, string>, parse: Parser)
    requires FormComplete(form)
    ensures forall k :: 0 <= k < |DataColumns| && k != LiquidoAt ==>
      RowOf(UpdateFields(form, parse))[k] == Text(form[DataColumns[k]])
    ensures var b, p, a := form["salario_bruto"], form["valor_passagem"], form["valor_abono"];
      RowOf(UpdateFields(form, parse))[LiquidoAt] ==
        if Amount(parse, b).Some? && Amount(parse, p).Some? && Amount(parse, a).Some?
        then Num(SaveNet(parse, b, p, a))
        else Text(form["salario_liquido"])
  {
    CatalogueSize();
    CatalogueFacts();
    ColumnsDistinct();
    forall k | 0 <= k < |DataColumns| && k != LiquidoAt
      ensures DataColumns[k] != "salario_liquido"
    {
      assert DataColumns[k] == ColumnNames[k + 1] && DataColumns[LiquidoAt] == ColumnNames[LiquidoAt + 1];
    }
  }

  /** A record saved from the form prints, on its payslip, the net the save rule
      stored, once the amount texts convert. */
  lemma SavedRecordPayslip(form: map<string, string>, parse: Parser, id: int)
    requires FormComplete(form)
    requires var b, p, a := form["salario_bruto"], form["valor_passagem"], form["valor_abono"];
      Amount(parse, b).Some? && Amount(parse, p).Some? && Amount(parse, a).Some?
    ensures var net := SaveNet(parse, form["salario_bruto"], form["valor_passagem"], form["valor_abono"]);
      var figures := PayslipFigures(parse, [Int(id)] + RowOf(SaveFields(form, parse)));
      figures.Some? && figures.value.liquido == net
  {
    var b, p, a := form["salario_bruto"], form["valor_passagem"], form["valor_abono"];
    var cells := RowOf(SaveFields(form, parse));
    var row := [Int(id)] + cells;
    SavedRow(form, parse);
    CatalogueSize();
    CatalogueFacts();
    assert Field(row, RowBruto) == cells[BrutoAt] == Text(b);
    assert Field(row, RowPassagem) == cells[PassagemAt] == Text(p);
    assert Field(row, RowAbono) == cells[AbonoAt] == Text(a);
    assert Field(row, RowLiquido) == cells[LiquidoAt];
    PayslipShowsSavedNet(parse, b, p, a);
  }

  /** The value the cell editor stores: the numeric columns get
      `float(nv.replace(",", "."))`, or 0 when that fails; every other column
      gets the typed text. */
  function EditedValue(name: string, typed: string, parse: Parser): (v: Value)
    ensures v.Num? <==> name in NumericColumns
    ensures name !in NumericColumns ==> v == Text(typed)
    ensures name in NumericColumns && Amount(parse, Replace(typed, ',', '.')).None? ==> v == Num(0)
    ensures name in NumericColumns && Amount(parse, Replace(typed, ',', '.')).Some? ==>
      v == Num(Amount(parse, Replace(typed, ',', '.')).value)
  {
    if name in NumericColumns then Num(AmountOrZero(parse, Replace(typed, ',', '.'))) else Text(typed)
  }

  /** The main window's record state. */
  class App {
    /** The employee table the window reads and writes. */
    const table: EmployeeTable
    /** `records_cache`: the rows the records view shows, as last listed. */
    var cache: seq<Record>
    /** `current_index`. */
    var current: int
    /** The position of the selected row of the records view, if any. */
    var selected: Option<nat>
    /** The filter of the last reload. */
    ghost var shown: string

    /** The cache is the table's listing under the last filter, the cursor is in
        range and the selection is a row of the view. */
    ghost predicate Shows()
      reads this, table
    {
      && table.Valid()
      && cache == Listing(table.records, shown)
      && CursorInRange(current, |cache|)
      && (selected.Some? ==> selected.value < |cache|)
    }

    /** Where a reload leaves the view: the first row selected and under the
        cursor, or no selection and the cursor at -1 on an empty listing. */
    ghost predicate AtTop()
      reads this
    {
      && (cache != [] ==> current == 0 && selected == Some(0))
      && (cache == [] ==> current == -1 && selected == None)
    }

    /** ...and the cursor follows the selection. */
    ghost predicate Valid()
      reads this, table
    {
      Shows() && (selected.Some? ==> current == selected.value)
    }

    /** Start-up: `current_index = 0`, an empty cache, then a full reload. */
    constructor (table: EmployeeTable)
      requires table.Valid()
      ensures Valid() && this.table == table && shown == ""
      ensures cache == Listing(table.records, "")
      ensures AtTop()
    {
      this.table := table;
      cache := [];
      current := 0;
      selected := None;
      new;
      Reload("");
    }

    /** `reload_records(filtro)`: list the table again, select the first row and
        put the cursor on it; on an empty listing there is no selection and the
        cursor is -1. */
    method Reload(filter: string)
      requires table.Valid()
      modifies this
      ensures Valid()
      ensures shown == filter && cache == Listing(table.records, filter)
      ensures AtTop()
    {
      cache := table.List(filter);
      shown := filter;
      if cache != [] {
        selected := Some(0);
        current := 0;
      } else {
        selected := None;
        current := -1;
      }
    }

    /** `on_tree_select`: the cursor moves to the cached row holding the selected
        row's id, which, ids being unique, is the selected position itself. */
    method OnTreeSelect()
      requires Shows()
      modifies this
      ensures Valid()
      ensures cache == old(cache) && selected == old(selected) && shown == old(shown)
      ensures selected.Some? ==> current == selected.value
      ensures selected.None? ==> current == old(current)
    {
      if selected.None? {
        return;
      }
      var pos := selected.value;
      var id := cache[pos].id;
      ListingDescending(table.records, shown);
      var idx := FindById(cache, id);
      if idx >= 0 {
        current := idx;
      }
    }

    /** The user selects a row of the view (or clears the selection). */
    method Click(pos: Option<nat>)
      requires Valid()
      requires pos.Some? ==> pos.value < |cache|
      modifies this
      ensures Valid()
      ensures cache == old(cache) && selected == pos
      ensures pos.None? ==> current == old(current)
    {
      selected := pos;
      OnTreeSelect();
    }

    /** `_select_index(idx)`: select that row, when it is one. */
    method SelectIndex(idx: int)
      requires Shows()
      modifies this
      ensures Shows()
      ensures cache == old(cache) && shown == old(shown)
      ensures 0 <= idx < |cache| ==> selected == Some(idx) && current == idx
      ensures !(0 <= idx < |cache|) ==> selected == old(selected) && current == old(current)
    {
      if idx < 0 || idx >= |cache| {
        return;
      }
      selected := Some(idx);
      OnTreeSelect();
    }

    method OnFirst()
      requires Valid()
      modifies this
      ensures Valid() && cache == old(cache)
      ensures current == FirstCursor(old(current), |cache|)
      ensures selected == if cache == [] then old(selected) else Some(0)
    {
      if cache == [] {
        return;
      }
      current := 0;
      SelectIndex(current);
    }

    method OnPrev()
      requires Valid()
      modifies this
      ensures Valid() && cache == old(cache)
      ensures current == PrevCursor(old(current))
      ensures selected == if current == old(current) then old(selected) else Some(current)
    {
      if current > 0 {
        current := current - 1;
        SelectIndex(current);
      }
    }

    method OnNext()
      requires Valid()
      modifies this
      ensures Valid() && cache == old(cache)
      ensures current == NextCursor(old(current), |cache|)
      ensures selected == if current == old(current) then old(selected) else Some(current)
    {
      if current < |cache| - 1 {
        current := current + 1;
        SelectIndex(current);
      }
    }

    method OnLast()
      requires Valid()
      modifies this
      ensures Valid() && cache == old(cache)
      ensures current == LastCursor(old(current), |cache|)
      ensures selected == if cache == [] then old(selected) else Some(|cache| - 1)
    {
      if cache != [] {
        current := |cache| - 1;
        SelectIndex(current);
      }
    }

    /** `on_salvar`: insert the form as a new record, with the net pay recomputed,
        then reload the full listing. A form without some field fails before
        anything is written. */
    method OnSave(form: map<string, string>, parse: Parser)
      requires Valid()
      modifies this, table
      ensures Valid()
      ensures !FormComplete(form) ==> unchanged(this, table)
      ensures FormComplete(form) ==>
        && table.records == old(table.records) + [Record(old(table.nextId), RowOf(SaveFields(form, parse)))]
        && table.nextId == old(table.nextId) + 1
        && shown == ""
        && AtTop()
    {
      if !FormComplete(form) {
        return;
      }
      var id := table.Insert(SaveFields(form, parse));
      Reload("");
    }

    /** `on_atualizar`: rewrite the selected record from the form, then reload the
        full listing; without a selection nothing happens. */
    method OnUpdate(form: map<string, string>, parse: Parser)
      requires Valid()
      modifies this, table
      ensures Valid()
      ensures old(selected).None? || !FormComplete(form) ==> unchanged(this, table)
      ensures old(selected).Some? && FormComplete(form) ==>
        && table.records == Patched(old(table.records), old(cache)[old(selected).value].id, WholeRow(RowOf(UpdateFields(form, parse))))
        && table.nextId == old(table.nextId)
        && shown == ""
        && AtTop()
    {
      if selected.None? || !FormComplete(form) {
        return;
      }
      var id := cache[selected.value].id;
      table.Update(id, UpdateFields(form, parse));
      Reload("");
    }

    /** `on_excluir`: delete the selected record once the user confirms, then
        reload the full listing. */
    method OnDelete(confirmed: bool)
      requires Valid()
      modifies this, table
      ensures Valid()
      ensures old(selected).None? || !confirmed ==> unchanged(this, table)
      ensures old(selected).Some? && confirmed ==>
        && table.records == Removed(old(table.records), old(cache)[old(selected).value].id)
        && table.nextId == old(table.nextId)
        && shown == ""
        && AtTop()
    {
      if selected.None? || !confirmed {
        return;
      }
      var id := cache[selected.value].id;
      table.Delete(id);
      Reload("");
    }

    /** The cell editor: a double click on row `row`, displayed column `column`
        (0 is `id`, which is not editable), then Enter with `typed` in the entry.
        One column of that record is written, and the view is reloaded with the
        search text. */
    method OnEditCell(row: Option<nat>, column: nat, typed: string, search: string, parse: Parser)
      requires Valid()
      requires row.Some? ==> row.value < |cache|
      requires column < |ColumnNames|
      modifies this, table
      ensures Valid()
      ensures row.None? || column == 0 ==> unchanged(this, table)
      ensures row.Some? && column != 0 ==>
        && table.records == Patched(old(table.records), old(cache)[row.value].id,
             OneCell(column - 1, EditedValue(ColumnNames[column], typed, parse)))
        && table.nextId == old(table.nextId)
        && shown == search
        && AtTop()
    {
      if row.None? || column == 0 {
        return;
      }
      WriteCell(row.value, column, EditedValue(ColumnNames[column], typed, parse));
      ghost var written := table.records;
      Reload(search);
      assert table.records == written;
    }

    /** The UPDATE of one data column of the record shown at `row`. */
    method WriteCell(row: nat, column: nat, v: Value)
      requires table.Valid()
      requires row < |cache| && 1 <= column < |ColumnNames|
      modifies table
      ensures table.Valid()
      ensures table.records == Patched(old(table.records), cache[row].id, OneCell(column - 1, v))
      ensures table.nextId == old(table.nextId)
    {
      CatalogueSize();
      table.SetCell(cache[row].id, column - 1, v);
    }
  }
}
