/** Start-up schema set-up: create the table if it is absent, then add every
    base column the table lacks, one ALTER TABLE at a time. */
module Migration {
  import opened Columns
  import opened Strings

  /** The table CREATE TABLE IF NOT EXISTS makes when there is none: id and nome only. */
  const InitialColumns: seq<ColumnDef> :=
    [ColumnDef("id", "INTEGER PRIMARY KEY AUTOINCREMENT"), ColumnDef("nome", "TEXT")]

  /** The columns present before the migration loop runs: the table's own, or
      the initial pair when the table did not exist. */
  function StartColumns(table: Option<seq<ColumnDef>>): seq<ColumnDef> {
    match table
    case None => InitialColumns
    case Some(cols) => cols
  }

  /** Whether the loop issues an ALTER TABLE for `c` that succeeds: the column is
      not already present, is not `id`, and the engine does not reject it. */
  predicate Adds(present: seq<string>, rejected: set<string>, c: ColumnDef) {
    c.name !in present && c.name != "id" && c.name !in rejected
  }

  /** The columns the loop over `base` adds, in the order it adds them. */
  function Planned(present: seq<string>, base: seq<ColumnDef>, rejected: set<string>): seq<ColumnDef>
    decreases |base|
  {
    if base == [] then []
    else
      Planned(present, base[..|base| - 1], rejected)
      + (if Adds(present, rejected, base[|base| - 1]) then [base[|base| - 1]] else [])
  }

  /** The column list the table ends up with. `rejected` names the columns whose
      ALTER TABLE fails; such a failure is ignored and the loop goes on. */
  function MigratedColumns(table: Option<seq<ColumnDef>>, rejected: set<string>): (cols: seq<ColumnDef>)
    // existing columns are never dropped, renamed or reordered
    ensures |cols| >= |StartColumns(table)| && cols[..|StartColumns(table)|] == StartColumns(table)
  {
    StartColumns(table) + Planned(Names(StartColumns(table)), BaseColumns, rejected)
  }

  /** The migration loop: the present names are read once, before the loop,
      then every column of `base` is visited in order. */
  method AddMissing(start: seq<ColumnDef>, base: seq<ColumnDef>, rejected: set<string>) returns (cols: seq<ColumnDef>)
    ensures cols == start + Planned(Names(start), base, rejected)
  {
    var present := Names(start);
    cols := start;
    var i := 0;
    while i < |base|
      invariant 0 <= i <= |base|
      invariant cols == start + Planned(present, base[..i], rejected)
    {
      var c := base[i];
      PrefixStep(base, i);
      if c.name in present {
        // already there
      } else if c.name == "id" {
        // the primary key is never added
      } else if c.name in rejected {
        // ALTER TABLE failed; the error is swallowed
      } else {
        cols := cols + [c];
      }
      i := i + 1;
    }
    assert base[..|base|] == base;
  }

  /** The start-up migration: create the table if needed, then run the loop
      over the base schema. */
  method Migrate(table: Option<seq<ColumnDef>>, rejected: set<string>) returns (cols: seq<ColumnDef>)
    ensures cols == MigratedColumns(table, rejected)
  {
    cols := AddMissing(StartColumns(table), BaseColumns, rejected);
  }

  /** A column is planned exactly when it is a base column the loop adds. */
  lemma {:induction false} PlannedMembers(present: seq<string>, base: seq<ColumnDef>, rejected: set<string>)
    ensures forall c :: c in Planned(present, base, rejected) <==> c in base && Adds(present, rejected, c)
    decreases |base|
  {
    if base != [] {
      var init := base[..|base| - 1];
      PlannedMembers(present, init, rejected);
      assert base == init + [base[|base| - 1]];
    }
  }

  /** The plan of a concatenation is the concatenation of the plans: the
      columns are added in base-list order. */
  lemma {:induction false} PlannedConcat(present: seq<string>, a: seq<ColumnDef>, b: seq<ColumnDef>, rejected: set<string>)
    ensures Planned(present, a + b, rejected) == Planned(present, a, rejected) + Planned(present, b, rejected)
    decreases |b|
  {
    if b != [] {
      var init := b[..|b| - 1];
      assert (a + b)[..|a + b| - 1] == a + init;
      assert (a + b)[|a + b| - 1] == b[|b| - 1];
      PlannedConcat(present, a, init, rejected);
      var step := if Adds(present, rejected, b[|b| - 1]) then [b[|b| - 1]] else [];
      calc {
        Planned(present, a + b, rejected);
        Planned(present, a + init, rejected) + step;
        (Planned(present, a, rejected) + Planned(present, init, rejected)) + step;
        Planned(present, a, rejected) + (Planned(present, init, rejected) + step);
        Planned(present, a, rejected) + Planned(present, b, rejected);
      }
    } else {
      assert a + b == a;
    }
  }

  /** Nothing is planned when every base column is present, is `id`, or is rejected. */
  lemma {:induction false} NothingPlanned(present: seq<string>, base: seq<ColumnDef>, rejected: set<string>)
    requires forall c :: c in base ==> !Adds(present, rejected, c)
    ensures Planned(present, base, rejected) == []
    decreases |base|
  {
    if base != [] {
      var init := base[..|base| - 1];
      assert forall c :: c in init ==> c in base;
      NothingPlanned(present, init, rejected);
    }
  }

  /** After the migration every base column except `id` is present, unless the
      engine rejected adding it; and every added column is a base column. */
  lemma MigrationComplete(table: Option<seq<ColumnDef>>, rejected: set<string>)
    ensures forall c :: c in BaseColumns && c.name != "id" && c.name !in rejected ==>
      c.name in Names(MigratedColumns(table, rejected))
    ensures var start := StartColumns(table);
      forall c :: c in MigratedColumns(table, rejected)[|start|..] ==> c in BaseColumns && c.name !in Names(start)
  {
    var start := StartColumns(table);
    var plan := Planned(Names(start), BaseColumns, rejected);
    var cols := MigratedColumns(table, rejected);
    PlannedMembers(Names(start), BaseColumns, rejected);
    assert cols[|start|..] == plan;
    forall c | c in BaseColumns && c.name != "id" && c.name !in rejected
      ensures c.name in Names(cols)
    {
      if c.name in Names(start) {
        var k :| 0 <= k < |start| && Names(start)[k] == c.name;
        assert Names(cols)[k] == c.name;
      } else {
        assert c in plan;
        var k :| 0 <= k < |plan| && plan[k] == c;
        assert Names(cols)[|start| + k] == c.name;
      }
    }
  }

  /** A second run adds nothing: migrating an already migrated table leaves it as it is. */
  lemma MigrationIdempotent(table: Option<seq<ColumnDef>>, rejected: set<string>)
    ensures MigratedColumns(Some(MigratedColumns(table, rejected)), rejected) == MigratedColumns(table, rejected)
  {
    var cols := MigratedColumns(table, rejected);
    MigrationComplete(table, rejected);
    NothingPlanned(Names(cols), BaseColumns, rejected);
  }
}
