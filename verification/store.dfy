/**
 * The SQLite database behind a context, as the entity sets see it through
 * Dapper: named tables, each with the columns and UNIQUE columns its schema
 * gave it, holding rows keyed by an AUTOINCREMENT RowId. A command is given
 * to the connection together with the structured operation its text stands
 * for; the text itself is recorded in a ghost log of executed commands. The
 * store decides unknown tables and columns and UNIQUE clashes itself; the
 * constraints that look at one row only (NOT NULL, CHECK), whether a schema
 * script runs, and the meaning of a WHERE text the model does not interpret
 * are oracles fixed when the connection is made.
 */
module Store {
  import opened Wrappers

  /** A column value as Dapper binds it. */
  datatype Value = NullValue | IntegerValue(i: int) | TextValue(s: string)

  /** The column values of one row (RowId excluded) that its INSERT named. */
  type Row = map<string, Value>

  datatype StoredRow = StoredRow(id: int, values: Row)

  /**
   * A table: the columns its CREATE TABLE gave it, the columns that carry an
   * index [IX_table_column] and those of them whose index is UNIQUE, its rows
   * in RowId order and the largest RowId it ever handed out.
   */
  datatype Table = Table(columns: seq<string>, indexed: seq<string>, unique: seq<string>, rows: seq<StoredRow>, lastId: int)

  /** One CREATE [UNIQUE] INDEX IF NOT EXISTS [IX_table_column] ON [table] ([column]). */
  datatype IndexSpec = IndexSpec(column: string, unique: bool)

  /**
   * What one table definition of a schema script does: CREATE TABLE IF NOT
   * EXISTS with these columns, then these index statements in order.
   */
  datatype TableShape = TableShape(name: string, columns: seq<string>, indexes: seq<IndexSpec>)

  /** Why the database refused a command. */
  datatype StoreError = ConstraintViolation | NoSuchTable | NoSuchColumn | BadCommand

  /** SQLITE_MAX_COMPOUND_SELECT as SQLite ships it: the most SELECTs one UNION ALL may join. */
  const MaxCompoundSelect: nat := 500

  /**
   * The WHERE clauses the library itself writes, and any other text a
   * caller passes to Select.
   */
  datatype Where =
    | AllRows                          // "1 = 1"
    | RowIdIs(rowId: int)              // "[RowId] = @RowId"
    | FieldIs(field: string, value: Value) // "[field] = @FieldValue"
    | Raw(text: string)

  /** RowIds in a table are positive, strictly increasing and never above lastId. */
  predicate TableValid(t: Table) {
    t.lastId >= 0
    && (forall k :: 0 <= k < |t.rows| ==> 0 < t.rows[k].id <= t.lastId)
    && IdsIncreasing(t.rows)
  }

  predicate IdsIncreasing(rows: seq<StoredRow>) {
    forall j, k :: 0 <= j < k < |rows| ==> rows[j].id < rows[k].id
  }

  /** The table a CREATE TABLE makes: its shape's columns, no index and no rows yet. */
  function EmptyTable(shape: TableShape): Table {
    Table(shape.columns, [], [], [], 0)
  }

  /** No earlier shape of the script names the same table, so this one's CREATE is the one that runs. */
  predicate FirstShape(shapes: seq<TableShape>, k: int)
    requires 0 <= k < |shapes|
  {
    forall j :: 0 <= j < k ==> shapes[j].name != shapes[k].name
  }

  /** The value a row holds in a column: NULL in every column its INSERT did not name. */
  function ValueAt(row: StoredRow, column: string): Value {
    if column in row.values then row.values[column] else NullValue
  }

  /** Every column the row names exists in the table. */
  predicate NamesColumns(t: Table, row: Row) {
    forall n :: n in row ==> n in t.columns
  }

  /**
   * The row would put a second copy of a value into a UNIQUE column: some
   * row already there holds the same non-NULL value (NULLs never clash).
   */
  predicate Clashes(unique: seq<string>, rows: seq<StoredRow>, row: Row) {
    exists k, c :: 0 <= k < |rows| && c in unique && c in row && row[c] != NullValue && ValueAt(rows[k], c) == row[c]
  }

  /**
   * Why a SELECT over a table with these columns does not even prepare: a
   * field comparison on a column the table lacks, or a WHERE text SQLite
   * cannot compile. This depends on the statement only, never on the rows.
   */
  function WhereError(w: Where, columns: seq<string>, rawValid: (string, seq<string>) -> bool): (e: Option<StoreError>)
    ensures e.Some? <==> (w.FieldIs? && w.field != "RowId" && w.field !in columns) || (w.Raw? && !rawValid(w.text, columns))
    ensures e.Some? && w.FieldIs? ==> e.value == NoSuchColumn
    ensures e.Some? && w.Raw? ==> e.value == BadCommand
  {
    match w
    case FieldIs(f, _) => if f != "RowId" && f !in columns then Some(NoSuchColumn) else None
    case Raw(text) => if rawValid(text, columns) then None else Some(BadCommand)
    case _ => None
  }

  /**
   * Does the row satisfy the clause? A comparison with NULL is never true in
   * SQL, so "[field] = @FieldValue" with a null value selects no row, not
   * even one whose field is NULL.
   */
  function Matches(w: Where, row: StoredRow, rawWhere: (string, StoredRow) -> bool): (r: bool)
    ensures w.FieldIs? && w.value == NullValue ==> !r
    ensures w.FieldIs? && w.field != "RowId" ==> (r <==> w.value != NullValue && ValueAt(row, w.field) == w.value)
    ensures w.FieldIs? && w.field == "RowId" ==> (r <==> w.value == IntegerValue(row.id))
    ensures w.RowIdIs? ==> (r <==> row.id == w.rowId)
  {
    match w
    case AllRows => true
    case RowIdIs(id) => row.id == id
    case FieldIs(f, v) =>
      if f == "RowId" then IntegerValue(row.id) == v
      else v != NullValue && ValueAt(row, f) == v
    case Raw(text) => rawWhere(text, row)
  }

  /**
   * The rows satisfying the clause. The model lists them in RowId order; a
   * SELECT without ORDER BY promises no order.
   */
  function Filter(rows: seq<StoredRow>, w: Where, rawWhere: (string, StoredRow) -> bool): (r: seq<StoredRow>)
    ensures forall k :: 0 <= k < |r| ==> r[k] in rows && Matches(w, r[k], rawWhere)
    ensures forall k :: 0 <= k < |rows| && Matches(w, rows[k], rawWhere) ==> rows[k] in r
    ensures w == AllRows ==> r == rows
    decreases |rows|
  {
    if rows == [] then []
    else
      var init := rows[..|rows| - 1];
      var last := rows[|rows| - 1];
      assert forall k :: 0 <= k < |init| ==> init[k] == rows[k];
      assert rows == init + [last];
      Filter(init, w, rawWhere) + if Matches(w, last, rawWhere) then [last] else []
  }

  /** Every text value can be written between single quotes as it stands: none holds a quote. */
  predicate QuoteFree(rows: seq<Row>) {
    forall k, n :: 0 <= k < |rows| && n in rows[k] && rows[k][n].TextValue? ==> '\'' !in rows[k][n].s
  }

  /** The rows of a table with the given RowIds removed. */
  function WithoutId(rows: seq<StoredRow>, id: int): (r: seq<StoredRow>)
    ensures forall k :: 0 <= k < |r| ==> r[k] in rows && r[k].id != id
    ensures forall k :: 0 <= k < |rows| && rows[k].id != id ==> rows[k] in r
    ensures |r| <= |rows|
    decreases |rows|
  {
    if rows == [] then []
    else
      var init := rows[..|rows| - 1];
      var last := rows[|rows| - 1];
      assert forall k :: 0 <= k < |init| ==> init[k] == rows[k];
      WithoutId(init, id) + if last.id == id then [] else [last]
  }

  /** The number of rows with the given RowId. */
  function CountId(rows: seq<StoredRow>, id: int): nat
    decreases |rows|
  {
    if rows == [] then 0
    else CountId(rows[..|rows| - 1], id) + if rows[|rows| - 1].id == id then 1 else 0
  }

  /**
   * The rows with the given RowId get the values the UPDATE sets; the
   * columns it does not set keep theirs.
   */
  function Replace(rows: seq<StoredRow>, id: int, values: Row): (r: seq<StoredRow>)
    ensures |r| == |rows|
    ensures forall k :: 0 <= k < |rows| ==> r[k].id == rows[k].id
    ensures forall k :: 0 <= k < |rows| ==> r[k].values == if rows[k].id == id then rows[k].values + values else rows[k].values
  {
    seq(|rows|, k requires 0 <= k < |rows| => if rows[k].id == id then StoredRow(id, rows[k].values + values) else rows[k])
  }

  /** A table after one INSERT: the row goes last, with the next RowId. */
  function Inserted(t: Table, row: Row): (r: Table)
    ensures r.columns == t.columns && r.indexed == t.indexed && r.unique == t.unique && r.lastId == t.lastId + 1
    ensures r.rows == t.rows + [StoredRow(t.lastId + 1, row)]
  {
    Table(t.columns, t.indexed, t.unique, t.rows + [StoredRow(t.lastId + 1, row)], t.lastId + 1)
  }

  /** A table after a DELETE keyed by RowId. */
  function Deleted(t: Table, id: int): Table {
    Table(t.columns, t.indexed, t.unique, WithoutId(t.rows, id), t.lastId)
  }

  /** A table after an UPDATE keyed by RowId. */
  function Updated(t: Table, id: int, values: Row): Table {
    Table(t.columns, t.indexed, t.unique, Replace(t.rows, id, values), t.lastId)
  }

  /** Appends rows with consecutive fresh RowIds after lastId, as one INSERT each would. */
  function AppendAll(t: Table, rows: seq<Row>): (r: Table)
    ensures r.columns == t.columns && r.indexed == t.indexed && r.unique == t.unique
    ensures r.lastId == t.lastId + |rows|
    ensures |r.rows| == |t.rows| + |rows|
    ensures r.rows[..|t.rows|] == t.rows
    ensures forall k :: 0 <= k < |rows| ==> r.rows[|t.rows| + k] == StoredRow(t.lastId + 1 + k, rows[k])
    decreases |rows|
  {
    if rows == [] then t
    else Inserted(AppendAll(t, rows[..|rows| - 1]), rows[|rows| - 1])
  }

  /**
   * The row a many-row INSERT refuses first, if any: the k-th row is checked
   * against the table as the rows before it left it.
   */
  predicate RefusedAt(name: string, t: Table, rows: seq<Row>, k: int, accepts: (string, Row) -> bool)
    requires 0 <= k < |rows|
  {
    !accepts(name, rows[k]) || Clashes(t.unique, AppendAll(t, rows[..k]).rows, rows[k])
  }

  /** One of the first i shapes names the table. */
  predicate Named(shapes: seq<TableShape>, i: int, n: string)
    requires 0 <= i <= |shapes|
  {
    exists k :: 0 <= k < i && shapes[k].name == n
  }

  lemma NamedNext(shapes: seq<TableShape>, i: int, n: string)
    requires 0 <= i < |shapes|
    ensures Named(shapes, i + 1, n) <==> Named(shapes, i, n) || shapes[i].name == n
  {
    if shapes[i].name == n {
      assert 0 <= i < i + 1 && shapes[i].name == n;
    }
  }

  /**
   * One index statement. Its name is IX_table_column, so IF NOT EXISTS makes
   * it do nothing when the column already has an index, UNIQUE or not. (A
   * statement on a column the table lacks makes the whole script fail, which
   * is the connection's schemaAccepts answer; here it changes nothing.)
   */
  function WithIndex(t: Table, ix: IndexSpec): (r: Table)
    ensures r.columns == t.columns && r.rows == t.rows && r.lastId == t.lastId
  {
    if ix.column in t.indexed || ix.column !in t.columns then t
    else Table(t.columns, t.indexed + [ix.column], if ix.unique then t.unique + [ix.column] else t.unique, t.rows, t.lastId)
  }

  /** The index statements of one table definition, run in order. */
  function WithIndexes(t: Table, ixs: seq<IndexSpec>): (r: Table)
    ensures r.columns == t.columns && r.rows == t.rows && r.lastId == t.lastId
    decreases |ixs|
  {
    if ixs == [] then t else WithIndex(WithIndexes(t, ixs[..|ixs| - 1]), ixs[|ixs| - 1])
  }

  /** Whether the first of these statements on the column creates a UNIQUE index; None if none names it. */
  function FirstSpec(ixs: seq<IndexSpec>, column: string): Option<bool>
    decreases |ixs|
  {
    if ixs == [] then None
    else
      var first := FirstSpec(ixs[..|ixs| - 1], column);
      if first.Some? then first
      else if ixs[|ixs| - 1].column == column then Some(ixs[|ixs| - 1].unique)
      else None
  }

  /** The first statement on a column among two lists run one after the other. */
  lemma {:induction false} FirstSpecAppend(a: seq<IndexSpec>, b: seq<IndexSpec>, column: string)
    ensures FirstSpec(a + b, column) == if FirstSpec(a, column).Some? then FirstSpec(a, column) else FirstSpec(b, column)
    decreases |b|
  {
    if b == [] {
      assert a + b == a;
    } else {
      FirstSpecAppend(a, b[..|b| - 1], column);
      assert (a + b)[..|a + b| - 1] == a + b[..|b| - 1];
    }
  }

  /**
   * One table definition of a script: CREATE TABLE IF NOT EXISTS (a table
   * that exists keeps its columns and rows), then its index statements on
   * whichever table has that name.
   */
  function RunShape(tables: map<string, Table>, shape: TableShape): map<string, Table> {
    var base := if shape.name in tables then tables[shape.name] else EmptyTable(shape);
    tables[shape.name := WithIndexes(base, shape.indexes)]
  }

  /** The tables after the first i table definitions of a script have run. */
  function RunPrefix(tables: map<string, Table>, shapes: seq<TableShape>, i: int): map<string, Table>
    requires 0 <= i <= |shapes|
    decreases i
  {
    if i == 0 then tables else RunShape(RunPrefix(tables, shapes, i - 1), shapes[i - 1])
  }

  /** The tables after a whole schema script has run. */
  function RunScript(tables: map<string, Table>, shapes: seq<TableShape>): map<string, Table> {
    RunPrefix(tables, shapes, |shapes|)
  }

  /**
   * Whether the first index statement on IX_table_column among the first i
   * table definitions is the UNIQUE one; None if none of them names it.
   */
  function FirstIndexIn(shapes: seq<TableShape>, i: int, table: string, column: string): Option<bool>
    requires 0 <= i <= |shapes|
    decreases i
  {
    if i == 0 then None
    else
      var first := FirstIndexIn(shapes, i - 1, table, column);
      if first.Some? then first
      else if shapes[i - 1].name == table then FirstSpec(shapes[i - 1].indexes, column)
      else None
  }

  /**
   * The schema script, one table definition after another, as SQLite runs
   * it inside the transaction.
   */
  method CreateTables(before: map<string, Table>, shapes: seq<TableShape>) returns (created: map<string, Table>)
    ensures created == RunScript(before, shapes)
  {
    created := before;
    var i := 0;
    while i < |shapes|
      invariant 0 <= i <= |shapes|
      invariant created == RunPrefix(before, shapes, i)
    {
      var shape := shapes[i];
      var base := if shape.name in created then created[shape.name] else EmptyTable(shape);
      var j := 0;
      while j < |shape.indexes|
        invariant 0 <= j <= |shape.indexes|
        invariant base == WithIndexes(if shape.name in created then created[shape.name] else EmptyTable(shape), shape.indexes[..j])
      {
        assert shape.indexes[..j + 1][..j] == shape.indexes[..j];
        base := WithIndex(base, shape.indexes[j]);
        j := j + 1;
      }
      assert shape.indexes[..j] == shape.indexes;
      created := created[shape.name := base];
      i := i + 1;
    }
  }

  /** The first i table definitions name a table when one of their index statements does. */
  lemma {:induction false} FirstIndexNamed(shapes: seq<TableShape>, i: int, table: string, column: string)
    requires 0 <= i <= |shapes|
    ensures FirstIndexIn(shapes, i, table, column).Some? ==> Named(shapes, i, table)
    decreases i
  {
    if i > 0 {
      FirstIndexNamed(shapes, i - 1, table, column);
      NamedNext(shapes, i - 1, table);
    }
  }

  /** The tables a script leaves: every table there was, plus every table it names. */
  lemma {:induction false} RunKeys(ts: map<string, Table>, shapes: seq<TableShape>, i: int)
    requires 0 <= i <= |shapes|
    ensures forall n :: n in RunPrefix(ts, shapes, i) <==> n in ts || Named(shapes, i, n)
    decreases i
  {
    if i > 0 {
      RunKeys(ts, shapes, i - 1);
      forall n
        ensures n in RunPrefix(ts, shapes, i) <==> n in ts || Named(shapes, i, n)
      {
        NamedNext(shapes, i - 1, n);
      }
    }
  }

  /** A table that existed keeps its columns and rows; a new one has no rows. */
  lemma {:induction false} RunKeeps(ts: map<string, Table>, shapes: seq<TableShape>, i: int)
    requires 0 <= i <= |shapes|
    ensures forall n :: n in ts ==> n in RunPrefix(ts, shapes, i)
    ensures forall n :: n in ts ==>
      (RunPrefix(ts, shapes, i)[n].columns == ts[n].columns
       && RunPrefix(ts, shapes, i)[n].rows == ts[n].rows && RunPrefix(ts, shapes, i)[n].lastId == ts[n].lastId)
    ensures forall n :: n in RunPrefix(ts, shapes, i) && n !in ts ==>
      RunPrefix(ts, shapes, i)[n].rows == [] && RunPrefix(ts, shapes, i)[n].lastId == 0
    decreases i
  {
    if i > 0 {
      RunKeeps(ts, shapes, i - 1);
    }
  }

  /** A table new to the script has the columns of the first definition that names it. */
  lemma {:induction false} RunFirstColumns(ts: map<string, Table>, shapes: seq<TableShape>, i: int)
    requires 0 <= i <= |shapes|
    ensures forall k :: 0 <= k < i && shapes[k].name !in ts && FirstShape(shapes, k) ==>
      shapes[k].name in RunPrefix(ts, shapes, i) && RunPrefix(ts, shapes, i)[shapes[k].name].columns == shapes[k].columns
    decreases i
  {
    if i > 0 {
      var prev := RunPrefix(ts, shapes, i - 1);
      var shape := shapes[i - 1];
      var after := RunPrefix(ts, shapes, i);
      assert after == RunShape(prev, shape);
      RunFirstColumns(ts, shapes, i - 1);
      RunKeys(ts, shapes, i - 1);
      forall k | 0 <= k < i && shapes[k].name !in ts && FirstShape(shapes, k)
        ensures shapes[k].name in after && after[shapes[k].name].columns == shapes[k].columns
      {
        if k == i - 1 {
          assert shape.name !in prev;
        }
      }
    }
  }

  /**
   * The index statements of one definition, as IF NOT EXISTS runs them: a
   * column gets an index iff it had one or it is a column of the table and
   * some statement names it, and the index is UNIQUE iff it was or the
   * column had none and the first statement naming it is the UNIQUE one.
   */
  lemma {:induction false} WithIndexesUnique(t: Table, ixs: seq<IndexSpec>, column: string)
    ensures column in WithIndexes(t, ixs).indexed <==>
      column in t.indexed || (column in t.columns && FirstSpec(ixs, column).Some?)
    ensures column in WithIndexes(t, ixs).unique <==>
      column in t.unique || (column !in t.indexed && column in t.columns && FirstSpec(ixs, column) == Some(true))
    decreases |ixs|
  {
    if ixs != [] {
      WithIndexesUnique(t, ixs[..|ixs| - 1], column);
    }
  }

  /**
   * The UNIQUE constraints a schema script leaves on a table, whichever
   * definitions name it: a column is UNIQUE iff it already was, or it had
   * no index, the table has it, and the first statement of the script on
   * IX_table_column is the UNIQUE one.
   */
  lemma {:induction false} RunUnique(ts: map<string, Table>, shapes: seq<TableShape>, i: int, table: string, column: string)
    requires 0 <= i <= |shapes| && table in RunPrefix(ts, shapes, i)
    ensures var t := RunPrefix(ts, shapes, i)[table];
      var indexedBefore := if table in ts then ts[table].indexed else [];
      && (column in t.indexed <==>
            column in indexedBefore || (column in t.columns && FirstIndexIn(shapes, i, table, column).Some?))
      && (column in t.unique <==>
            (table in ts && column in ts[table].unique)
            || (column !in indexedBefore && column in t.columns && FirstIndexIn(shapes, i, table, column) == Some(true)))
    decreases i
  {
    if i > 0 {
      var prev := RunPrefix(ts, shapes, i - 1);
      var shape := shapes[i - 1];
      if shape.name != table {
        RunUnique(ts, shapes, i - 1, table, column);
      } else if table in prev {
        RunUnique(ts, shapes, i - 1, table, column);
        WithIndexesUnique(prev[table], shape.indexes, column);
      } else {
        RunKeys(ts, shapes, i - 1);
        FirstIndexNamed(shapes, i - 1, table, column);
        WithIndexesUnique(EmptyTable(shape), shape.indexes, column);
      }
    }
  }

  /**
   * Two definitions of one table: the first index statement on a column
   * decides whether it is UNIQUE, whichever definition holds it.
   */
  lemma SharedTableFirstIndexWins()
    ensures var plain := TableShape("X", ["Name"], [IndexSpec("Name", false)]);
      var unique := TableShape("X", ["Name"], [IndexSpec("Name", true)]);
      var bare := TableShape("X", ["Name"], []);
      "X" in RunScript(map[], [plain, unique]) && "Name" !in RunScript(map[], [plain, unique])["X"].unique
      && "X" in RunScript(map[], [bare, unique]) && "Name" in RunScript(map[], [bare, unique])["X"].unique
  {
    var plain := TableShape("X", ["Name"], [IndexSpec("Name", false)]);
    var unique := TableShape("X", ["Name"], [IndexSpec("Name", true)]);
    var bare := TableShape("X", ["Name"], []);
    RunKeys(map[], [plain, unique], 2);
    assert Named([plain, unique], 2, "X");
    RunUnique(map[], [plain, unique], 2, "X", "Name");
    RunKeys(map[], [bare, unique], 2);
    assert Named([bare, unique], 2, "X");
    RunFirstColumns(map[], [bare, unique], 2);
    assert FirstShape([bare, unique], 0);
    RunUnique(map[], [bare, unique], 2, "X", "Name");
  }

  /** An open or closed connection to one database. */
  class SqliteConnection {
    var tables: map<string, Table>
    var IsOpen: bool
    /** Whether the constraints that look at one row only (NOT NULL, CHECK) accept it in a table. */
    const accepts: (string, Row) -> bool
    /** Whether every statement of a schema script succeeds (an index on a column the table lacks does not). */
    const schemaAccepts: string -> bool
    /** Whether SQLite compiles a WHERE text the model does not interpret, over a table with these columns. */
    const rawValid: (string, seq<string>) -> bool
    /** How the database evaluates such a WHERE text on a row. */
    const rawWhere: (string, StoredRow) -> bool
    /** The command texts executed, in order. */
    ghost var Executed: seq<string>

    ghost predicate Valid()
      reads this
    {
      forall name :: name in tables ==> TableValid(tables[name])
    }

    constructor (accepts: (string, Row) -> bool, schemaAccepts: string -> bool,
                 rawValid: (string, seq<string>) -> bool, rawWhere: (string, StoredRow) -> bool)
      ensures this.accepts == accepts && this.schemaAccepts == schemaAccepts
      ensures this.rawValid == rawValid && this.rawWhere == rawWhere
      ensures tables == map[] && !IsOpen && Executed == [] && Valid()
    {
      this.accepts := accepts;
      this.schemaAccepts := schemaAccepts;
      this.rawValid := rawValid;
      this.rawWhere := rawWhere;
      tables := map[];
      IsOpen := false;
      Executed := [];
    }

    method Open()
      modifies this`IsOpen
      ensures IsOpen
    {
      IsOpen := true;
    }

    method Close()
      modifies this`IsOpen
      ensures !IsOpen
    {
      IsOpen := false;
    }

    /**
     * Executes a schema script in one transaction: every named table that
     * does not exist yet is created empty with its shape's columns (CREATE
     * TABLE IF NOT EXISTS; the first CREATE of a name wins), and every index
     * statement runs on the table of that name (see RunUnique). When a
     * statement of the script fails, the transaction is never committed and
     * nothing changes.
     */
    method ExecuteSchema(script: string, shapes: seq<TableShape>) returns (r: Outcome<StoreError>)
      requires Valid()
      modifies this`tables, this`Executed
      ensures Valid()
      ensures Executed == old(Executed) + [script]
      ensures r == if schemaAccepts(script) then Pass else Fail(BadCommand)
      ensures r.Fail? ==> tables == old(tables)
      ensures r.Pass? ==> forall n :: n in tables <==> n in old(tables) || exists k :: 0 <= k < |shapes| && shapes[k].name == n
      ensures r.Pass? ==> tables == RunScript(old(tables), shapes)
      ensures r.Pass? ==> forall n :: n in old(tables) ==>
        (tables[n].columns == old(tables)[n].columns
         && tables[n].rows == old(tables)[n].rows && tables[n].lastId == old(tables)[n].lastId)
      ensures r.Pass? ==> forall k :: 0 <= k < |shapes| && shapes[k].name !in old(tables) && FirstShape(shapes, k) ==>
        tables[shapes[k].name].columns == shapes[k].columns && tables[shapes[k].name].rows == []
    {
      Executed := Executed + [script];
      if !schemaAccepts(script) {
        return Fail(BadCommand);
      }
      var created := CreateTables(tables, shapes);
      RunKeys(tables, shapes, |shapes|);
      RunKeeps(tables, shapes, |shapes|);
      RunFirstColumns(tables, shapes, |shapes|);
      assert forall n :: n in created ==> TableValid(created[n]);
      tables := created;
      r := Pass;
    }

    /** What an INSERT answers: the new RowId, or why it was refused. */
    function InsertAnswer(table: string, row: Row): (r: Result<seq<int>, StoreError>)
      reads this
      ensures r == Failure(NoSuchTable) <==> table !in tables
      ensures r.Success? <==> (table in tables && NamesColumns(tables[table], row)
        && accepts(table, row) && !Clashes(tables[table].unique, tables[table].rows, row))
      ensures r.Success? ==> r.value == [tables[table].lastId + 1]
    {
      if table !in tables then Failure(NoSuchTable)
      else if !NamesColumns(tables[table], row) then Failure(NoSuchColumn)
      else if !accepts(table, row) || Clashes(tables[table].unique, tables[table].rows, row) then Failure(ConstraintViolation)
      else Success([tables[table].lastId + 1])
    }

    /**
     * What a many-row INSERT answers: the row count, or why the whole
     * statement was refused. The rows arrive as '...' literals joined by
     * UNION ALL, so the statement does not parse when a text value holds a
     * quote, when there is no row to select, or when it joins more SELECTs
     * than SQLite allows.
     */
    function InsertAllAnswer(table: string, rows: seq<Row>): (r: Result<int, StoreError>)
      reads this
      ensures |rows| > MaxCompoundSelect ==> r == Failure(BadCommand)
      ensures r.Success? <==> (0 < |rows| <= MaxCompoundSelect && QuoteFree(rows) && table in tables
        && (forall k :: 0 <= k < |rows| ==> NamesColumns(tables[table], rows[k]))
        && (forall k :: 0 <= k < |rows| ==> !RefusedAt(table, tables[table], rows, k, accepts)))
      ensures r.Success? ==> r.value == |rows|
    {
      if |rows| == 0 || |rows| > MaxCompoundSelect || !QuoteFree(rows) then Failure(BadCommand)
      else if table !in tables then Failure(NoSuchTable)
      else if exists k :: 0 <= k < |rows| && !NamesColumns(tables[table], rows[k]) then Failure(NoSuchColumn)
      else if exists k :: 0 <= k < |rows| && RefusedAt(table, tables[table], rows, k, accepts) then
        Failure(ConstraintViolation)
      else Success(|rows|)
    }

    /** What a DELETE keyed by RowId answers: the number of rows it removes. */
    function DeleteAnswer(table: string, id: int): Result<int, StoreError>
      reads this
    {
      if table !in tables then Failure(NoSuchTable) else Success(CountId(tables[table].rows, id))
    }

    /**
     * What an UPDATE keyed by RowId answers: the number of rows it changes.
     * When no row has the RowId nothing is written, so no constraint is
     * checked and the answer is 0.
     */
    function UpdateAnswer(table: string, id: int, row: Row): (r: Result<int, StoreError>)
      reads this
      ensures r == Failure(NoSuchTable) <==> table !in tables
      ensures table in tables && NamesColumns(tables[table], row) && CountId(tables[table].rows, id) == 0 ==> r == Success(0)
      ensures r.Success? <==> (table in tables && NamesColumns(tables[table], row)
        && (CountId(tables[table].rows, id) == 0
            || (accepts(table, row) && !Clashes(tables[table].unique, WithoutId(tables[table].rows, id), row))))
      ensures r.Success? ==> r.value == CountId(tables[table].rows, id)
    {
      if table !in tables then Failure(NoSuchTable)
      else if !NamesColumns(tables[table], row) then Failure(NoSuchColumn)
      else if CountId(tables[table].rows, id) == 0 then Success(0)
      else if !accepts(table, row) || Clashes(tables[table].unique, WithoutId(tables[table].rows, id), row) then
        Failure(ConstraintViolation)
      else Success(CountId(tables[table].rows, id))
    }

    /**
     * An INSERT followed by SELECT last_insert_rowid(): the row gets the next
     * RowId, and the query yields that one id.
     */
    method Insert(command: string, table: string, row: Row) returns (r: Result<seq<int>, StoreError>)
      requires Valid()
      modifies this`tables, this`Executed
      ensures Valid()
      ensures Executed == old(Executed) + [command]
      ensures r == old(InsertAnswer(table, row))
      ensures r.Failure? ==> tables == old(tables)
      ensures r.Success? ==> tables == old(tables)[table := Inserted(old(tables)[table], row)]
    {
      Executed := Executed + [command];
      r := InsertAnswer(table, row);
      if r.Failure? {
        return;
      }
      var t := tables[table];
      assert TableValid(t);
      tables := tables[table := Inserted(t, row)];
    }

    /** One INSERT ... SELECT '...' UNION ALL ... statement: all rows or none. */
    method InsertAll(command: string, table: string, rows: seq<Row>) returns (r: Result<int, StoreError>)
      requires Valid()
      modifies this`tables, this`Executed
      ensures Valid()
      ensures Executed == old(Executed) + [command]
      ensures r == old(InsertAllAnswer(table, rows))
      ensures r.Failure? ==> tables == old(tables)
      ensures r.Success? ==> tables == old(tables)[table := AppendAll(old(tables)[table], rows)]
    {
      Executed := Executed + [command];
      r := InsertAllAnswer(table, rows);
      if r.Failure? {
        return;
      }
      var t := tables[table];
      var t' := AppendAll(t, rows);
      assert TableValid(t);
      assert TableValid(t') by {
        var n := |t.rows|;
        forall k | 0 <= k < |t'.rows| ensures 0 < t'.rows[k].id <= t'.lastId {
          if k < n {
            assert t'.rows[k] == t'.rows[..n][k];
          } else {
            assert t'.rows[n + (k - n)] == StoredRow(t.lastId + 1 + (k - n), rows[k - n]);
          }
        }
        forall j, k | 0 <= j < k < |t'.rows| ensures t'.rows[j].id < t'.rows[k].id {
          if j < n {
            assert t'.rows[j] == t'.rows[..n][j];
          } else {
            assert t'.rows[n + (j - n)] == StoredRow(t.lastId + 1 + (j - n), rows[j - n]);
          }
          if k < n {
            assert t'.rows[k] == t'.rows[..n][k];
          } else {
            assert t'.rows[n + (k - n)] == StoredRow(t.lastId + 1 + (k - n), rows[k - n]);
          }
        }
      }
      tables := tables[table := t'];
    }

    /** DELETE ... WHERE [RowId] = @RowId: the affected count. */
    method DeleteRow(command: string, table: string, id: int) returns (r: Result<int, StoreError>)
      requires Valid()
      modifies this`tables, this`Executed
      ensures Valid()
      ensures Executed == old(Executed) + [command]
      ensures r == old(DeleteAnswer(table, id))
      ensures r.Failure? ==> tables == old(tables)
      ensures r.Success? ==> tables == old(tables)[table := Deleted(old(tables)[table], id)]
    {
      Executed := Executed + [command];
      if table !in tables {
        return Failure(NoSuchTable);
      }
      var t := tables[table];
      var rows := WithoutId(t.rows, id);
      assert TableValid(t);
      assert TableValid(Deleted(t, id)) by {
        SubsequenceOrdered(t.rows, id);
        forall k | 0 <= k < |rows| ensures 0 < rows[k].id <= t.lastId {
          var j :| 0 <= j < |t.rows| && t.rows[j] == rows[k];
        }
      }
      tables := tables[table := Deleted(t, id)];
      r := Success(CountId(t.rows, id));
    }

    /** UPDATE ... SET ... WHERE [RowId] = @RowId: the affected count. */
    method UpdateRow(command: string, table: string, id: int, row: Row) returns (r: Result<int, StoreError>)
      requires Valid()
      modifies this`tables, this`Executed
      ensures Valid()
      ensures Executed == old(Executed) + [command]
      ensures r == old(UpdateAnswer(table, id, row))
      ensures r.Failure? ==> tables == old(tables)
      ensures r.Success? ==> tables == old(tables)[table := Updated(old(tables)[table], id, row)]
    {
      Executed := Executed + [command];
      r := UpdateAnswer(table, id, row);
      if r.Failure? {
        return;
      }
      var t := tables[table];
      assert TableValid(t);
      tables := tables[table := Updated(t, id, row)];
    }

    /**
     * A SELECT over one table with a WHERE clause: an error when the
     * statement names a missing table or column or does not compile, and
     * otherwise exactly the rows the clause selects, which the model lists
     * in RowId order (the SELECT has no ORDER BY, so SQLite promises none).
     */
    function Query(table: string, w: Where): (r: Result<seq<StoredRow>, StoreError>)
      reads this
      ensures r == Failure(NoSuchTable) <==> table !in tables
      ensures table in tables ==> (r.Failure? <==> WhereError(w, tables[table].columns, rawValid).Some?)
      ensures table in tables && r.Failure? ==> r.error == WhereError(w, tables[table].columns, rawValid).value
      ensures r.Success? ==> forall k :: 0 <= k < |r.value| ==>
        r.value[k] in tables[table].rows && Matches(w, r.value[k], rawWhere)
      ensures r.Success? ==> forall k :: 0 <= k < |tables[table].rows| && Matches(w, tables[table].rows[k], rawWhere) ==>
        tables[table].rows[k] in r.value
    {
      if table !in tables then Failure(NoSuchTable)
      else match WhereError(w, tables[table].columns, rawValid)
        case Some(e) => Failure(e)
        case None => Success(Filter(tables[table].rows, w, rawWhere))
    }

    /** SELECT COUNT(*) over one table. */
    function CountRows(table: string): Result<int, StoreError>
      reads this
    {
      if table !in tables then Failure(NoSuchTable) else Success(|tables[table].rows|)
    }
  }

  /** Removing rows keeps the survivors in increasing RowId order. */
  lemma {:induction false} SubsequenceOrdered(rows: seq<StoredRow>, id: int)
    requires IdsIncreasing(rows)
    ensures IdsIncreasing(WithoutId(rows, id))
    decreases |rows|
  {
    if rows != [] {
      var init := rows[..|rows| - 1];
      var last := rows[|rows| - 1];
      IncreasingInit(rows);
      SubsequenceOrdered(init, id);
      var r0 := WithoutId(init, id);
      if last.id != id {
        assert WithoutId(rows, id) == r0 + [last];
        forall k | 0 <= k < |r0| ensures r0[k].id < last.id {
          var j :| 0 <= j < |init| && init[j] == r0[k];
          assert init[j] == rows[j];
        }
        AppendLarger(r0, last);
      } else {
        assert WithoutId(rows, id) == r0;
      }
    }
  }

  /** The model's answer to a query lists its rows in increasing RowId order. */
  lemma {:induction false} FilterOrdered(rows: seq<StoredRow>, w: Where, rawWhere: (string, StoredRow) -> bool)
    requires IdsIncreasing(rows)
    ensures IdsIncreasing(Filter(rows, w, rawWhere))
    decreases |rows|
  {
    if rows != [] {
      var init := rows[..|rows| - 1];
      var last := rows[|rows| - 1];
      IncreasingInit(rows);
      FilterOrdered(init, w, rawWhere);
      var r0 := Filter(init, w, rawWhere);
      if Matches(w, last, rawWhere) {
        assert Filter(rows, w, rawWhere) == r0 + [last];
        forall k | 0 <= k < |r0| ensures r0[k].id < last.id {
          var j :| 0 <= j < |init| && init[j] == r0[k];
          assert init[j] == rows[j];
        }
        AppendLarger(r0, last);
      } else {
        assert Filter(rows, w, rawWhere) == r0;
      }
    }
  }

  /**
   * [LiteUnique] at work: once a row holding a non-NULL value in a UNIQUE
   * column is stored, a second row with the same value there clashes, so the
   * database refuses its INSERT.
   */
  lemma DuplicateUniqueRefused(t: Table, first: Row, second: Row, c: string)
    requires c in t.unique && c in first && c in second && first[c] == second[c] && first[c] != NullValue
    ensures Clashes(t.unique, Inserted(t, first).rows, second)
  {
    var rows := Inserted(t, first).rows;
    assert ValueAt(rows[|t.rows|], c) == second[c];
  }

  /** Every row but the last is in increasing RowId order too. */
  lemma IncreasingInit(rows: seq<StoredRow>)
    requires IdsIncreasing(rows) && rows != []
    ensures IdsIncreasing(rows[..|rows| - 1])
  {
    var init := rows[..|rows| - 1];
    forall j, k | 0 <= j < k < |init| ensures init[j].id < init[k].id {
      assert init[j] == rows[j] && init[k] == rows[k];
    }
  }

  lemma AppendLarger(rows: seq<StoredRow>, last: StoredRow)
    requires IdsIncreasing(rows)
    requires forall k :: 0 <= k < |rows| ==> rows[k].id < last.id
    ensures IdsIncreasing(rows + [last])
  {
    var r := rows + [last];
    forall j, k | 0 <= j < k < |r| ensures r[j].id < r[k].id {
      if k < |rows| {
        assert r[j] == rows[j] && r[k] == rows[k];
      } else {
        assert r[j] == rows[j] && r[k] == last;
      }
    }
  }

  /** In a valid table at most one row carries a given RowId. */
  lemma {:induction false} CountIdAtMostOne(rows: seq<StoredRow>, id: int)
    requires IdsIncreasing(rows)
    ensures CountId(rows, id) <= 1
    ensures CountId(rows, id) == 1 <==> exists k :: 0 <= k < |rows| && rows[k].id == id
    decreases |rows|
  {
    if rows != [] {
      var init := rows[..|rows| - 1];
      CountIdAtMostOne(init, id);
      if rows[|rows| - 1].id == id {
        forall k | 0 <= k < |init| ensures init[k].id != id {
          assert init[k] == rows[k];
        }
      }
      if exists k :: 0 <= k < |rows| && rows[k].id == id {
        var k :| 0 <= k < |rows| && rows[k].id == id;
        if k < |rows| - 1 {
          assert init[k] == rows[k];
        }
      }
    }
  }
}
