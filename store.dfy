/** The `colaboradores` table as an abstract store: records in rowid order and
    the AUTOINCREMENT counter, with the insert, update, delete, single-cell
    update and filtered listing the application issues against it. */
module Store {
  import opened Columns

  /** One row: its id and its data cells, in DataColumns order. */
  datatype Record = Record(id: int, cells: seq<Value>)

  /** What an insert or an update writes from a column-to-value dictionary:
      every data column in order, the empty text for a missing key. The `id`
      key, if any, is not a data column and is never read. */
  function RowOf(d: map<string, Value>): (row: seq<Value>)
    ensures |row| == |DataColumns|
    ensures forall k :: 0 <= k < |DataColumns| && DataColumns[k] in d ==> row[k] == d[DataColumns[k]]
    ensures forall k :: 0 <= k < |DataColumns| && DataColumns[k] !in d ==> row[k] == Text("")
  {
    seq(|DataColumns|, k requires 0 <= k < |DataColumns| =>
      if DataColumns[k] in d then d[DataColumns[k]] else Text(""))
  }

  /** An `id` entry in the dictionary has no effect on the row written. */
  lemma RowOfIgnoresId(d: map<string, Value>, v: Value)
    ensures RowOf(d["id" := v]) == RowOf(d)
    ensures RowOf(d - {"id"}) == RowOf(d)
  {
    CatalogueSize();
    CatalogueFacts();
    ColumnsDistinct();
    assert "id" !in DataColumns by {
      forall k | 0 <= k < |DataColumns| ensures DataColumns[k] != "id" {
        assert DataColumns[k] == ColumnNames[k + 1];
      }
    }
  }

  /** Ids strictly increase along the sequence: rowid order. */
  predicate Ascending(rs: seq<Record>) {
    forall i, j :: 0 <= i < j < |rs| ==> rs[i].id < rs[j].id
  }

  /** Ids strictly decrease along the sequence: ORDER BY id DESC. */
  predicate Descending(rs: seq<Record>) {
    forall i, j :: 0 <= i < j < |rs| ==> rs[i].id > rs[j].id
  }

  /** Every record carries one cell per data column. */
  predicate WellFormed(rs: seq<Record>) {
    forall i :: 0 <= i < |rs| ==> |rs[i].cells| == |DataColumns|
  }

  /** The cells of the first record with this id, if there is one. */
  function Lookup(rs: seq<Record>, id: int): (r: Option<seq<Value>>)
    ensures r.None? <==> forall i :: 0 <= i < |rs| ==> rs[i].id != id
    ensures r.Some? ==> Record(id, r.value) in rs
  {
    if rs == [] then None
    else if rs[0].id == id then Some(rs[0].cells)
    else Lookup(rs[1..], id)
  }

  /** A change to one row: every data cell (UPDATE ... SET every column) or a
      single cell (UPDATE ... SET one column). */
  datatype RowEdit = WholeRow(row: seq<Value>) | OneCell(at: nat, v: Value)

  function Applied(e: RowEdit, cells: seq<Value>): seq<Value> {
    match e
    case WholeRow(row) => row
    case OneCell(at, v) => if at < |cells| then cells[at := v] else cells
  }

  /** UPDATE ... WHERE id = ?: the rows with that id get the edit; no row moves
      and no id changes. */
  function Patched(rs: seq<Record>, id: int, e: RowEdit): (out: seq<Record>)
    ensures |out| == |rs|
    ensures forall i :: 0 <= i < |rs| ==> out[i].id == rs[i].id
    ensures forall i :: 0 <= i < |rs| ==>
      out[i].cells == if rs[i].id == id then Applied(e, rs[i].cells) else rs[i].cells
  {
    if rs == [] then []
    else [if rs[0].id == id then Record(id, Applied(e, rs[0].cells)) else rs[0]] + Patched(rs[1..], id, e)
  }

  /** DELETE ... WHERE id = ?: exactly the rows with that id disappear, the
      others keep their order. */
  function Removed(rs: seq<Record>, id: int): (out: seq<Record>)
    ensures |out| <= |rs|
    ensures forall r :: r in out <==> r in rs && r.id != id
  {
    if rs == [] then []
    else (if rs[0].id == id then [] else [rs[0]]) + Removed(rs[1..], id)
  }

  /** `f` occurs in `s` starting at position `i`. */
  predicate OccursAt(s: string, f: string, i: int) {
    0 <= i && i + |f| <= |s| && s[i..i + |f|] == f
  }

  /** `f` occurs in `s` as a contiguous piece. */
  predicate Contains(s: string, f: string) {
    exists i | 0 <= i <= |s| - |f| :: OccursAt(s, f, i)
  }

  /** `column LIKE '%f%'` on one cell, as a plain substring test on text. */
  predicate Like(v: Value, f: string) {
    v.Text? && Contains(v.s, f)
  }

  /** The listing's WHERE clause: no filter at all when the text is empty,
      otherwise nome or cargo contains it. */
  predicate Matches(r: Record, filter: string) {
    filter == "" || (CargoAt < |r.cells| && (Like(r.cells[NomeAt], filter) || Like(r.cells[CargoAt], filter)))
  }

  /** SELECT * ... ORDER BY id DESC over records kept in rowid order: the newest
      matching record comes first. */
  function Listing(rs: seq<Record>, filter: string): seq<Record>
    decreases |rs|
  {
    if rs == [] then []
    else
      (if Matches(rs[|rs| - 1], filter) then [rs[|rs| - 1]] else [])
      + Listing(rs[..|rs| - 1], filter)
  }

  /** The listing holds exactly the matching records. */
  lemma {:induction false} ListingMembers(rs: seq<Record>, filter: string)
    ensures forall r :: r in Listing(rs, filter) <==> r in rs && Matches(r, filter)
    decreases |rs|
  {
    if rs != [] {
      var init := rs[..|rs| - 1];
      ListingMembers(init, filter);
      assert rs == init + [rs[|rs| - 1]];
    }
  }

  /** Records kept in rowid order are listed newest first. */
  lemma {:induction false} ListingDescending(rs: seq<Record>, filter: string)
    requires Ascending(rs)
    ensures Descending(Listing(rs, filter))
    decreases |rs|
  {
    if rs != [] {
      var init := rs[..|rs| - 1];
      var last := rs[|rs| - 1];
      ListingDescending(init, filter);
      ListingMembers(init, filter);
      var tail := Listing(init, filter);
      forall r | r in tail ensures r.id < last.id {
        var i :| 0 <= i < |init| && init[i] == r;
      }
    }
  }

  /** With an empty filter the listing is every record, newest first. */
  lemma {:induction false} ListingUnfiltered(rs: seq<Record>)
    ensures |Listing(rs, "")| == |rs|
    ensures forall k :: 0 <= k < |rs| ==> Listing(rs, "")[k] == rs[|rs| - 1 - k]
    decreases |rs|
  {
    if rs != [] {
      var init := rs[..|rs| - 1];
      ListingUnfiltered(init);
      forall k | 0 <= k < |rs| ensures Listing(rs, "")[k] == rs[|rs| - 1 - k] {
        if k > 0 {
          assert Listing(rs, "")[k] == Listing(init, "")[k - 1];
        }
      }
    }
  }

  /** Looking a record up after an edit: the edited id sees the edited cells if
      it existed, nothing if it did not; every other id sees what it saw before. */
  lemma {:induction false} LookupPatched(rs: seq<Record>, id: int, e: RowEdit, k: int)
    ensures Lookup(Patched(rs, id, e), k) ==
      if k != id then Lookup(rs, k)
      else match Lookup(rs, id)
        case None => None
        case Some(c) => Some(Applied(e, c))
  {
    if rs != [] {
      assert Patched(rs, id, e)[1..] == Patched(rs[1..], id, e);
      if rs[0].id != k {
        LookupPatched(rs[1..], id, e, k);
      }
    }
  }

  /** Looking a record up after a delete: the deleted id is gone, every other
      id sees what it saw before. */
  lemma {:induction false} LookupRemoved(rs: seq<Record>, id: int, k: int)
    ensures Lookup(Removed(rs, id), k) == if k == id then None else Lookup(rs, k)
  {
    if rs != [] {
      var tail := Removed(rs[1..], id);
      LookupRemoved(rs[1..], id, k);
      if rs[0].id == id {
        assert Removed(rs, id) == tail;
      } else {
        assert Removed(rs, id) == [rs[0]] + tail;
        assert ([rs[0]] + tail)[1..] == tail;
      }
    }
  }

  /** Looking a record up after an insert of a fresh id. */
  lemma {:induction false} LookupAppended(rs: seq<Record>, r: Record, k: int)
    requires forall i :: 0 <= i < |rs| ==> rs[i].id != r.id
    ensures Lookup(rs + [r], k) == if k == r.id then Some(r.cells) else Lookup(rs, k)
  {
    if rs != [] {
      assert (rs + [r])[1..] == rs[1..] + [r];
      LookupAppended(rs[1..], r, k);
    } else {
      assert rs + [r] == [r];
    }
  }

  /** Deleting keeps the remaining records in rowid order. */
  lemma {:induction false} RemovedAscending(rs: seq<Record>, id: int)
    requires Ascending(rs)
    ensures Ascending(Removed(rs, id))
  {
    if rs != [] {
      var tail := Removed(rs[1..], id);
      RemovedAscending(rs[1..], id);
      if rs[0].id != id {
        var out := Removed(rs, id);
        assert out == [rs[0]] + tail;
        forall j | 0 < j < |out| ensures rs[0].id < out[j].id {
          assert out[j] in tail;
          var i :| 0 <= i < |rs[1..]| && rs[1..][i] == out[j];
          assert rs[i + 1] == out[j];
        }
      }
    }
  }

  /** The table. */
  class EmployeeTable {
    /** The rows, in rowid order. */
    var records: seq<Record>
    /** One more than the largest id ever handed out (AUTOINCREMENT). */
    var nextId: int

    ghost predicate Valid()
      reads this
    {
      && 1 <= nextId
      && Ascending(records)
      && WellFormed(records)
      && (forall i :: 0 <= i < |records| ==> 1 <= records[i].id < nextId)
    }

    /** An empty table, as CREATE TABLE makes it. */
    constructor ()
      ensures Valid() && records == [] && nextId == 1
    {
      records := [];
      nextId := 1;
    }

    /** `listar_colaboradores(filtro)`: the matching records, newest first. */
    function List(filter: string): (rows: seq<Record>)
      reads this
      requires Valid()
      ensures forall r :: r in rows <==> r in records && Matches(r, filter)
      ensures Descending(rows)
      ensures filter == "" ==> |rows| == |records|
    {
      ListingMembers(records, filter);
      ListingDescending(records, filter);
      ListingUnfiltered(records);
      Listing(records, filter)
    }

    /** `inserir_colaborador(d)`: a new row with a fresh id, every data column
        written from `d` or as the empty text; the existing rows are untouched. */
    method Insert(d: map<string, Value>) returns (id: int)
      requires Valid()
      modifies this
      ensures Valid()
      ensures id == old(nextId) && nextId == id + 1
      ensures forall i :: 0 <= i < |old(records)| ==> old(records)[i].id < id
      ensures records == old(records) + [Record(id, RowOf(d))]
    {
      id := nextId;
      records := records + [Record(id, RowOf(d))];
      nextId := nextId + 1;
    }

    /** `atualizar_colaborador_db(id_, d)`: every data column of the row with
        this id is rewritten from `d`; nothing happens when there is no such row. */
    method Update(id: int, d: map<string, Value>)
      requires Valid()
      modifies this
      ensures Valid() && nextId == old(nextId)
      ensures records == Patched(old(records), id, WholeRow(RowOf(d)))
    {
      records := Patched(records, id, WholeRow(RowOf(d)));
    }

    /** `excluir_colaborador_db(id_)`: the row with this id disappears. */
    method Delete(id: int)
      requires Valid()
      modifies this
      ensures Valid() && nextId == old(nextId)
      ensures records == Removed(old(records), id)
    {
      RemovedAscending(records, id);
      records := Removed(records, id);
    }

    /** The cell editor's UPDATE of one data column of one row. */
    method SetCell(id: int, at: nat, v: Value)
      requires Valid() && at < |DataColumns|
      modifies this
      ensures Valid() && nextId == old(nextId)
      ensures records == Patched(old(records), id, OneCell(at, v))
    {
      records := Patched(records, id, OneCell(at, v));
    }
  }
}
