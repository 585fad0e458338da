/**
 * The table-definition builder (src/Unosquare.Labs.LiteLib/TypeDefinition.cs):
 * from a record type it derives the CREATE TABLE / CREATE INDEX script, the
 * six command templates and the ordered list of mapped property names, and it
 * memoises the result per type in a process-wide cache.
 *
 * The specification functions (Classify, Columns, MappedNames,
 * IndexStatements, BuildDefinition) say what the builder produces; the class
 * TypeDefinition is the builder as the source writes it, a loop that appends to
 * a StringBuilder and a list, trims the trailing comma and fills the cache, and
 * its contract ties its result to BuildDefinition.
 */
module TypeDefinitions {
  import opened Wrappers
  import opened SqlText
  import opened Descriptors

  /** NVARCHAR length used when a string property carries no [StringLength]. */
  const DefaultStringLength: int := 4096

  /** The SQL column types the builder writes. */
  datatype ColumnType = NVarChar(length: int) | Integer | Numeric | Text | DateTimeColumn | Blob

  function ColumnTypeName(ct: ColumnType): string {
    match ct
    case NVarChar(n) => "NVARCHAR(" + IntToString(n) + ")"
    case Integer => "INTEGER"
    case Numeric => "NUMERIC"
    case Text => "TEXT"
    case DateTimeColumn => "DATETIME"
    case Blob => "BLOB"
  }

  /**
   * The affinity of a value type: the TypeMappings table, with TEXT for every
   * value type the table does not list.
   */
  function ValueColumnType(p: Primitive): (ct: ColumnType)
    ensures ct == Integer <==>
      (p.Int16? || p.Int32? || p.Int64? || p.UInt16? || p.UInt32? || p.UInt64? || p.Byte? || p.Char?)
    ensures ct == Numeric <==> (p.Decimal? || p.Boolean?)
    ensures ct == DateTimeColumn <==> p.DateTime?
    ensures ct == Text <==> p.OtherValueType?
    ensures ct != Blob && !ct.NVarChar?
  {
    match p
    case Int16 => Integer
    case Int32 => Integer
    case Int64 => Integer
    case UInt16 => Integer
    case UInt32 => Integer
    case UInt64 => Integer
    case Byte => Integer
    case Char => Integer
    case Decimal => Numeric
    case Boolean => Numeric
    case DateTime => DateTimeColumn
    case OtherValueType(_) => Text
  }

  /** One column of the CREATE TABLE statement. */
  datatype Column = Column(name: string, columnType: ColumnType, nullable: bool, checkLength: Option<int>)

  /**
   * The column a property yields (GeneratePropertyInfo), or None when its type
   * has no affinity (a reference type other than string and byte[]).
   */
  function Classify(p: Property): (c: Option<Column>)
    ensures c.None? <==> p.propertyType.ReferenceType?
    ensures c.Some? ==> c.value.name == p.name
    ensures c.Some? ==> (c.value.columnType.NVarChar? <==> p.propertyType.StringType?)
    ensures c.Some? ==> (c.value.checkLength.Some? ==> p.propertyType.StringType?)
  {
    match p.propertyType
    case StringType =>
      var n := p.stringLength.GetOr(DefaultStringLength);
      Some(Column(p.name, NVarChar(n), !p.required, if n != DefaultStringLength then Some(n) else None))
    case ValueType(prim) => Some(Column(p.name, ValueColumnType(prim), false, None))
    case NullableOf(prim) => Some(Column(p.name, ValueColumnType(prim), true, None))
    case ByteArray => Some(Column(p.name, Blob, false, None))
    case ReferenceType(_) => None
  }

  function NullStatement(nullable: bool): string {
    if nullable then "NULL" else "NOT NULL"
  }

  /**
   * The column as it appears in the DDL, without indentation or trailing
   * comma: its bracketed name and type, then NULL or NOT NULL, then the
   * length check when there is one.
   */
  function RenderColumn(c: Column): string {
    "[" + c.name + "] " + ColumnTypeName(c.columnType) + " " + NullStatement(c.nullable)
    + match c.checkLength
      case Some(n) => " CHECK(length(" + c.name + ")<=" + IntToString(n) + ")"
      case None => ""
  }

  /** A property that passes the RowId, CanWrite and [NotMapped] filters. */
  predicate Survives(p: Property) {
    p.name != IdentityColumn && p.canWrite && !p.notMapped
  }

  /** A property that ends up in PropertyNames. */
  predicate IsMapped(p: Property) {
    Survives(p) && Classify(p).Some?
  }

  /** The columns of the mapped properties, in declaration order. */
  function Columns(ps: seq<Property>): seq<Column>
    decreases |ps|
  {
    if ps == [] then []
    else
      var p := ps[|ps| - 1];
      Columns(ps[..|ps| - 1]) + if IsMapped(p) then [Classify(p).value] else []
  }

  /** The names recorded in _propertyNames, in declaration order. */
  function MappedNames(ps: seq<Property>): seq<string>
    decreases |ps|
  {
    if ps == [] then []
    else
      var p := ps[|ps| - 1];
      MappedNames(ps[..|ps| - 1]) + if IsMapped(p) then [p.name] else []
  }

  /** The name both index statements of a property use. */
  function IndexName(table: string, property: string): string {
    "IX_" + table + "_" + property
  }

  function IndexDdl(table: string, property: string, unique: bool): string {
    "CREATE " + (if unique then "UNIQUE " else "") + "INDEX IF NOT EXISTS ["
    + IndexName(table, property) + "] ON [" + table + "] ([" + property + "]);"
  }

  /** The index statements one surviving property contributes: [LiteIndex] first, then [LiteUnique]. */
  function IndexStatementsFor(table: string, p: Property): seq<string> {
    (if p.liteIndex then [IndexDdl(table, p.name, false)] else [])
    + (if p.liteUnique then [IndexDdl(table, p.name, true)] else [])
  }

  /** The contents of indexBuilder after the loop over ps. */
  function IndexStatements(table: string, ps: seq<Property>): seq<string>
    decreases |ps|
  {
    if ps == [] then []
    else
      var p := ps[|ps| - 1];
      IndexStatements(table, ps[..|ps| - 1]) + if Survives(p) then IndexStatementsFor(table, p) else []
  }

  /**
   * A property whose UNIQUE index the schema really creates: a mapped
   * [LiteUnique] property without [LiteIndex]. With both attributes the
   * plain index is created first under the shared index name, and the
   * UNIQUE statement, IF NOT EXISTS under that same name, does nothing.
   */
  predicate IsUniqueColumn(p: Property) {
    IsMapped(p) && p.liteUnique && !p.liteIndex
  }

  /** The UNIQUE columns of the table, in declaration order. */
  function UniqueColumns(ps: seq<Property>): seq<string>
    decreases |ps|
  {
    if ps == [] then []
    else
      var p := ps[|ps| - 1];
      UniqueColumns(ps[..|ps| - 1]) + if IsUniqueColumn(p) then [p.name] else []
  }

  /** The type's name, unless a [Table] attribute names the table. */
  function TableName(t: TypeDescriptor): (name: string)
    ensures t.tableAttribute.None? ==> name == t.name
    ensures t.tableAttribute.Some? ==> name == t.tableAttribute.value
  {
    match t.tableAttribute
    case Some(n) => n
    case None => t.name
  }

  /** The identity column's definition line. */
  const RowIdColumn: string := "    [" + IdentityColumn + "] INTEGER PRIMARY KEY AUTOINCREMENT"

  /** The column definitions, indented as the DDL writes them. */
  function Indented(cols: seq<Column>): seq<string>
    decreases |cols|
  {
    if cols == [] then [] else Indented(cols[..|cols| - 1]) + ["    " + RenderColumn(cols[|cols| - 1])]
  }

  /** The CREATE TABLE statement: the identity column and then every column, comma separated. */
  function CreateTable(table: string, cols: seq<Column>): string {
    "CREATE TABLE IF NOT EXISTS [" + table + "] (" + NewLine
    + Join("," + NewLine, [RowIdColumn] + Indented(cols)) + NewLine
    + ");" + NewLine
  }

  /** TableDefinition: the CREATE TABLE statement followed by one line per index statement. */
  function TableScript(table: string, cols: seq<Column>, indexes: seq<string>): string {
    CreateTable(table, cols) + Lines(indexes)
  }

  /** The column list shapes of the templates. */
  function Bracketed(names: seq<string>): seq<string> {
    seq(|names|, k requires 0 <= k < |names| => "[" + names[k] + "]")
  }

  function Parameters(names: seq<string>): seq<string> {
    seq(|names|, k requires 0 <= k < |names| => "@" + names[k])
  }

  function Assignments(names: seq<string>): seq<string> {
    seq(|names|, k requires 0 <= k < |names| => "[" + names[k] + "] = @" + names[k])
  }

  /** The identity match every keyed template ends with. */
  const RowIdMatch: string := "[" + IdentityColumn + "] = @" + IdentityColumn

  /** SelectDefinition: RowId and then every listed column, from the table. */
  function SelectTemplate(table: string, names: seq<string>): string {
    "SELECT [" + IdentityColumn + "], " + Join(ListSeparator, Bracketed(names)) + " FROM [" + table + "]"
  }

  /** InsertDefinition: one parameter per listed column, then the query for the new RowId. */
  function InsertTemplate(table: string, names: seq<string>): string {
    "INSERT INTO [" + table + "] (" + Join(ListSeparator, Bracketed(names)) + ") VALUES ("
    + Join(ListSeparator, Parameters(names)) + "); SELECT last_insert_rowid();"
  }

  /** UpdateDefinition: every listed column assigned from its parameter, keyed by RowId. */
  function UpdateTemplate(table: string, names: seq<string>): string {
    "UPDATE [" + table + "] SET " + Join(ListSeparator, Assignments(names)) + "  WHERE " + RowIdMatch
  }

  /** DeleteDefinition: the unkeyed delete narrowed to one RowId. */
  function DeleteTemplate(table: string): string {
    "DELETE FROM [" + table + "] WHERE " + RowIdMatch
  }

  /** DeleteDefinitionWhere: a delete of the whole table, which callers extend with their own WHERE. */
  function DeleteWhereTemplate(table: string): string {
    "DELETE FROM [" + table + "]"
  }

  /** AnyDefinition: the table name goes in quotes, as a string literal, not in brackets. */
  function AnyTemplate(table: string): string {
    "SELECT EXISTS(SELECT 1 FROM '" + table + "')"
  }

  /** DefinitionCacheItem. */
  datatype DefinitionCacheItem = DefinitionCacheItem(
    TableName: string,
    TableDefinition: string,
    SelectDefinition: string,
    InsertDefinition: string,
    UpdateDefinition: string,
    DeleteDefinition: string,
    DeleteDefinitionWhere: string,
    AnyDefinition: string,
    PropertyNames: seq<string>)

  /** The fatal "Invalid DbSet, you need at least one property to bind" error. */
  datatype DefinitionError = InvalidDbSet

  /** The definition item for a table with the given columns, index statements and names. */
  function MakeDefinition(table: string, cols: seq<Column>, indexes: seq<string>, names: seq<string>): DefinitionCacheItem {
    DefinitionCacheItem(
      table,
      TableScript(table, cols, indexes),
      SelectTemplate(table, names),
      InsertTemplate(table, names),
      UpdateTemplate(table, names),
      DeleteTemplate(table),
      DeleteWhereTemplate(table),
      AnyTemplate(table),
      names)
  }

  /** What building the definition of t yields: the item, or the fatal error when nothing maps. */
  function BuildDefinition(t: TypeDescriptor): (r: Result<DefinitionCacheItem, DefinitionError>) {
    var table := TableName(t);
    var ps := t.properties;
    if MappedNames(ps) == [] then Failure(InvalidDbSet)
    else Success(MakeDefinition(table, Columns(ps), IndexStatements(table, ps), MappedNames(ps)))
  }

  // ---------------------------------------------------------------------------
  // The builder as the source writes it

  /** The text in _createBuilder before the loop over the properties. */
  function BuilderHeader(table: string): string {
    Line("CREATE TABLE IF NOT EXISTS [" + table + "] (") + Line(RowIdColumn + ",")
  }

  /** One AppendLine per element, each line ending in a comma. */
  function CommaLines(xs: seq<string>): string
    decreases |xs|
  {
    if xs == [] then "" else CommaLines(xs[..|xs| - 1]) + Line(xs[|xs| - 1] + ",")
  }

  /** The process-wide DefinitionCache, keyed by type. */
  class DefinitionCache {
    var entries: map<TypeDescriptor, DefinitionCacheItem>

    /** Every cached item is what a fresh build of its type yields. */
    ghost predicate Valid()
      reads this
    {
      forall t {:trigger t in entries} :: t in entries ==> BuildDefinition(t) == Success(entries[t])
    }

    constructor ()
      ensures entries == map[] && Valid()
    {
      entries := map[];
    }
  }

  /** The builder object: its StringBuilder and property-name list. */
  class TypeDefinition {
    var createBuilder: string
    var propertyNames: seq<string>

    constructor ()
      ensures createBuilder == "" && propertyNames == []
    {
      createBuilder := "";
      propertyNames := [];
    }

    /**
     * GeneratePropertyInfo: appends the column line of a property and records
     * its name when its type has an affinity, and does nothing otherwise.
     */
    method GeneratePropertyInfo(property: Property)
      modifies this
      ensures Classify(property).Some? ==>
        createBuilder == old(createBuilder) + Line("    " + RenderColumn(Classify(property).value) + ",")
        && propertyNames == old(propertyNames) + [property.name]
      ensures Classify(property).None? ==>
        createBuilder == old(createBuilder) && propertyNames == old(propertyNames)
    {
      var isValidProperty := false;
      var propertyType := property.propertyType;
      var isNullable := propertyType.NullableOf?;
      var column: Column;

      if propertyType.StringType? {
        isValidProperty := true;
        var stringLength := DefaultStringLength;
        if property.stringLength.Some? {
          stringLength := property.stringLength.value;
        }
        isNullable := !property.required;
        if stringLength != DefaultStringLength {
          column := Column(property.name, NVarChar(stringLength), isNullable, Some(stringLength));
        } else {
          column := Column(property.name, NVarChar(stringLength), isNullable, None);
        }
      } else if propertyType.ValueType? || propertyType.NullableOf? {
        isValidProperty := true;
        column := Column(property.name, ValueColumnType(propertyType.primitive), isNullable, None);
      } else if propertyType.ByteArray? {
        isValidProperty := true;
        column := Column(property.name, Blob, isNullable, None);
      }

      if isValidProperty {
        createBuilder := createBuilder + Line("    " + RenderColumn(column) + ",");
        propertyNames := propertyNames + [property.name];
      }
    }

    /**
     * One pass of the loop over the properties: skips the RowId, read-only
     * and [NotMapped] properties, and otherwise collects the property's index
     * statements and writes its column line.
     */
    method ScanProperty(tableName: string, property: Property, indexBuilder: seq<string>) returns (indexes: seq<string>)
      modifies this
      ensures indexes == indexBuilder + if Survives(property) then IndexStatementsFor(tableName, property) else []
      ensures IsMapped(property) ==>
        createBuilder == old(createBuilder) + Line("    " + RenderColumn(Classify(property).value) + ",")
        && propertyNames == old(propertyNames) + [property.name]
      ensures !IsMapped(property) ==> createBuilder == old(createBuilder) && propertyNames == old(propertyNames)
    {
      indexes := indexBuilder;
      if property.name == IdentityColumn || !property.canWrite {
        return;
      }

      // [NotMapped] properties contribute nothing
      if property.notMapped {
        return;
      }

      // [LiteIndex] yields a plain index statement
      if property.liteIndex {
        indexes := indexes + [IndexDdl(tableName, property.name, false)];
      }

      // [LiteUnique] yields a UNIQUE one, after it
      if property.liteUnique {
        indexes := indexes + [IndexDdl(tableName, property.name, true)];
      }

      GeneratePropertyInfo(property);
    }

    /**
     * The loop over the properties, in declaration order: the column lines,
     * each ending in a comma, the mapped names and the index statements.
     */
    method ScanProperties(tableName: string, properties: seq<Property>) returns (indexBuilder: seq<string>)
      modifies this
      ensures createBuilder == old(createBuilder) + CommaLines(Indented(Columns(properties)))
      ensures propertyNames == old(propertyNames) + MappedNames(properties)
      ensures indexBuilder == IndexStatements(tableName, properties)
    {
      indexBuilder := [];
      ghost var header := createBuilder;
      ghost var names := propertyNames;

      var i := 0;
      while i < |properties|
        invariant 0 <= i <= |properties|
        invariant createBuilder == header + CommaLines(Indented(Columns(properties[..i])))
        invariant propertyNames == names + MappedNames(properties[..i])
        invariant indexBuilder == IndexStatements(tableName, properties[..i])
      {
        var property := properties[i];
        PrefixStep(tableName, properties, i);
        indexBuilder := ScanProperty(tableName, property, indexBuilder);
        if IsMapped(property) {
          AppendAssoc(header, CommaLines(Indented(Columns(properties[..i]))),
            Line("    " + RenderColumn(Classify(property).value) + ","));
          SeqAssoc(names, MappedNames(properties[..i]), [property.name]);
        }
        i := i + 1;
      }
      assert properties[..i] == properties;
    }

    /**
     * Closes the CREATE TABLE statement: removes the last comma and newline
     * and writes the closing parenthesis.
     */
    method CloseTable(tableName: string, ghost cols: seq<Column>)
      requires createBuilder == BuilderHeader(tableName) + CommaLines(Indented(cols))
      modifies this
      ensures createBuilder == CreateTable(tableName, cols)
      ensures propertyNames == old(propertyNames)
    {
      TrimmedHeader(tableName, cols);
      createBuilder := createBuilder[..|createBuilder| - (|NewLine| + 1)];
      createBuilder := createBuilder + NewLine;
      createBuilder := createBuilder + Line(");");
    }

    /**
     * The TypeDefinition(Type) constructor body. A type already in the cache
     * gets the cached item and nothing is rebuilt; otherwise the definition
     * is built, and stored in the cache unless building fails.
     */
    method Build(t: TypeDescriptor, cache: DefinitionCache) returns (r: Result<DefinitionCacheItem, DefinitionError>)
      requires cache.Valid()
      requires createBuilder == "" && propertyNames == []
      modifies this, cache`entries
      ensures cache.Valid()
      ensures r == BuildDefinition(t)
      ensures t in old(cache.entries) ==>
        r == Success(old(cache.entries)[t]) && cache.entries == old(cache.entries)
        && createBuilder == "" && propertyNames == []
      ensures t !in old(cache.entries) && r.Success? ==> cache.entries == old(cache.entries)[t := r.value]
      ensures r.Failure? ==> cache.entries == old(cache.entries)
    {
      if t in cache.entries {
        r := Success(cache.entries[t]);
        return;
      }

      var properties := t.properties;

      // Start off with the table name
      var tableName := t.name;
      if t.tableAttribute.Some? {
        tableName := t.tableAttribute.value;
      }

      createBuilder := BuilderHeader(tableName);
      var indexBuilder := ScanProperties(tableName, properties);
      assert propertyNames == MappedNames(properties);

      if propertyNames == [] {
        r := Failure(InvalidDbSet);
        return;
      }

      CloseTable(tableName, Columns(properties));
      createBuilder := AppendLines(createBuilder, indexBuilder);

      var definition := DefinitionCacheItem(
        tableName,
        createBuilder,
        SelectTemplate(tableName, propertyNames),
        InsertTemplate(tableName, propertyNames),
        UpdateTemplate(tableName, propertyNames),
        DeleteTemplate(tableName),
        DeleteWhereTemplate(tableName),
        AnyTemplate(tableName),
        propertyNames);

      assert tableName == TableName(t);
      assert definition == MakeDefinition(tableName, Columns(properties), indexBuilder, propertyNames);
      assert BuildDefinition(t) == Success(definition);
      ghost var before := cache.entries;
      cache.entries := cache.entries[t := definition];
      forall u | u in cache.entries
        ensures BuildDefinition(u) == Success(cache.entries[u])
      {
        if u != t {
          assert u in before;
        }
      }
      r := Success(definition);
    }
  }

  /** The foreach that appends one line per index statement. */
  method AppendLines(text: string, lines: seq<string>) returns (r: string)
    ensures r == text + Lines(lines)
  {
    r := text;
    var j := 0;
    while j < |lines|
      invariant 0 <= j <= |lines|
      invariant r == text + Lines(lines[..j])
    {
      LinesSnoc(lines[..j], lines[j]);
      assert lines[..j + 1] == lines[..j] + [lines[j]];
      AppendAssoc(text, Lines(lines[..j]), Line(lines[j]));
      r := r + Line(lines[j]);
      j := j + 1;
    }
    assert lines[..j] == lines;
  }

  /** One more property: how the builder's three accumulators extend. */
  lemma PrefixStep(table: string, ps: seq<Property>, i: int)
    requires 0 <= i < |ps|
    ensures Columns(ps[..i + 1]) == Columns(ps[..i]) + if IsMapped(ps[i]) then [Classify(ps[i]).value] else []
    ensures MappedNames(ps[..i + 1]) == MappedNames(ps[..i]) + if IsMapped(ps[i]) then [ps[i].name] else []
    ensures IndexStatements(table, ps[..i + 1])
      == IndexStatements(table, ps[..i]) + if Survives(ps[i]) then IndexStatementsFor(table, ps[i]) else []
    ensures !IsMapped(ps[i]) ==>
      Columns(ps[..i + 1]) == Columns(ps[..i]) && MappedNames(ps[..i + 1]) == MappedNames(ps[..i])
    ensures !Survives(ps[i]) ==> IndexStatements(table, ps[..i + 1]) == IndexStatements(table, ps[..i])
    ensures IsMapped(ps[i]) ==>
      CommaLines(Indented(Columns(ps[..i + 1])))
      == CommaLines(Indented(Columns(ps[..i]))) + Line("    " + RenderColumn(Classify(ps[i]).value) + ",")
  {
    assert ps[..i + 1][..i] == ps[..i];
    if IsMapped(ps[i]) {
      var cols := Columns(ps[..i]);
      var c := Classify(ps[i]).value;
      assert (cols + [c])[..|cols|] == cols;
      var xs := Indented(cols);
      assert (xs + ["    " + RenderColumn(c)])[..|xs|] == xs;
    }
  }

  /** The header and comma-terminated column lines, less their last two characters, then ");". */
  lemma TrimmedHeader(table: string, cols: seq<Column>)
    ensures var b := BuilderHeader(table) + CommaLines(Indented(cols));
      |b| >= |NewLine| + 1
      && b[..|b| - (|NewLine| + 1)] + NewLine + Line(");") == CreateTable(table, cols)
  {
    var open := "CREATE TABLE IF NOT EXISTS [" + table + "] (";
    var body := Join("," + NewLine, [RowIdColumn] + Indented(cols));
    var tail := Line(RowIdColumn + ",") + CommaLines(Indented(cols));
    CommaLinesJoin(RowIdColumn, Indented(cols));
    var b := BuilderHeader(table) + CommaLines(Indented(cols));
    AppendAssoc(Line(open), Line(RowIdColumn + ","), CommaLines(Indented(cols)));
    assert b == Line(open) + tail;
    AppendAssoc(body, ",", NewLine);
    assert tail == body + ("," + NewLine);
    AppendAssoc(Line(open), body, "," + NewLine);
    TrimSuffix(Line(open) + body, "," + NewLine);
    assert b[..|b| - (|NewLine| + 1)] == Line(open) + body;
  }

  lemma AppendAssoc(a: string, b: string, c: string)
    ensures (a + b) + c == a + (b + c)
  {
  }

  lemma SeqAssoc<T>(a: seq<T>, b: seq<T>, c: seq<T>)
    ensures (a + b) + c == a + (b + c)
  {
  }

  lemma TrimSuffix(a: string, b: string)
    ensures (a + b)[..|a|] == a
  {
  }

  // ---------------------------------------------------------------------------
  // Lemmas

  lemma JoinSnoc(sep: string, xs: seq<string>, x: string)
    requires |xs| > 0
    ensures Join(sep, xs + [x]) == Join(sep, xs) + sep + x
    decreases |xs|
  {
    if |xs| == 1 {
      assert (xs + [x])[1..] == [x];
    } else {
      assert (xs + [x])[1..] == xs[1..] + [x];
      JoinSnoc(sep, xs[1..], x);
    }
  }

  /**
   * Trimming the last comma: a header line ending in a comma followed by
   * comma-terminated lines is the comma-separated join of all of them, plus
   * the final comma and newline the builder removes.
   */
  lemma {:induction false} CommaLinesJoin(x: string, ys: seq<string>)
    ensures Line(x + ",") + CommaLines(ys) == Join("," + NewLine, [x] + ys) + "," + NewLine
    decreases |ys|
  {
    if ys != [] {
      var init := ys[..|ys| - 1];
      var y := ys[|ys| - 1];
      var sep := "," + NewLine;
      CommaLinesJoin(x, init);
      assert [x] + ys == ([x] + init) + [y];
      JoinSnoc(sep, [x] + init, y);
      var j := Join(sep, [x] + init);
      calc {
        Line(x + ",") + CommaLines(ys);
        Line(x + ",") + (CommaLines(init) + Line(y + ","));
        (Line(x + ",") + CommaLines(init)) + Line(y + ",");
        (j + sep) + Line(y + ",");
        (j + sep + y) + sep;
        Join(sep, [x] + ys) + sep;
      }
    }
  }

  // ---------------------------------------------------------------------------
  // Properties of the built definition

  /** The position in PropertyNames of the i-th property, when it is mapped. */
  function Rank(ps: seq<Property>, i: int): nat
    requires 0 <= i <= |ps|
  {
    |MappedNames(ps[..i])|
  }

  /** The names recorded for a prefix of the properties start the names of all of them. */
  lemma {:induction false} MappedNamesPrefix(ps: seq<Property>, i: int)
    requires 0 <= i <= |ps|
    ensures |MappedNames(ps[..i])| <= |MappedNames(ps)|
    ensures MappedNames(ps)[..|MappedNames(ps[..i])|] == MappedNames(ps[..i])
    decreases |ps|
  {
    if i == |ps| {
      assert ps[..i] == ps;
    } else {
      var init := ps[..|ps| - 1];
      assert init[..i] == ps[..i];
      MappedNamesPrefix(init, i);
      var a := MappedNames(init);
      var b := MappedNames(ps[..i]);
      assert MappedNames(ps) == a + (if IsMapped(ps[|ps| - 1]) then [ps[|ps| - 1].name] else []);
      assert (a + (if IsMapped(ps[|ps| - 1]) then [ps[|ps| - 1].name] else []))[..|b|] == a[..|b|];
    }
  }

  /** A mapped property's name sits in PropertyNames at its rank. */
  lemma MappedNameAt(ps: seq<Property>, i: int)
    requires 0 <= i < |ps| && IsMapped(ps[i])
    ensures Rank(ps, i) < |MappedNames(ps)| && MappedNames(ps)[Rank(ps, i)] == ps[i].name
  {
    assert ps[..i + 1][..i] == ps[..i];
    assert MappedNames(ps[..i + 1]) == MappedNames(ps[..i]) + [ps[i].name];
    MappedNamesPrefix(ps, i + 1);
  }

  /** PropertyNames keeps declaration order: later mapped properties have larger ranks. */
  lemma RankOrder(ps: seq<Property>, i: int, j: int)
    requires 0 <= i < j <= |ps| && IsMapped(ps[i])
    ensures Rank(ps, i) < Rank(ps, j)
  {
    assert ps[..i + 1][..i] == ps[..i];
    assert MappedNames(ps[..i + 1]) == MappedNames(ps[..i]) + [ps[i].name];
    assert ps[..j][..i + 1] == ps[..i + 1];
    MappedNamesPrefix(ps[..j], i + 1);
  }

  /** Some mapped property of ps has this name. */
  predicate NameOfMapped(ps: seq<Property>, name: string) {
    exists i :: 0 <= i < |ps| && IsMapped(ps[i]) && ps[i].name == name
  }

  /** Every recorded name comes from a mapped property of the type. */
  lemma {:induction false} MappedNamesSound(ps: seq<Property>)
    ensures forall k :: 0 <= k < |MappedNames(ps)| ==> NameOfMapped(ps, MappedNames(ps)[k])
    decreases |ps|
  {
    if ps == [] {
      assert MappedNames(ps) == [];
    } else {
      var init := ps[..|ps| - 1];
      MappedNamesSound(init);
      forall k | 0 <= k < |MappedNames(ps)|
        ensures NameOfMapped(ps, MappedNames(ps)[k])
      {
        if k < |MappedNames(init)| {
          assert NameOfMapped(init, MappedNames(init)[k]);
          var i :| 0 <= i < |init| && IsMapped(init[i]) && init[i].name == MappedNames(init)[k];
          assert ps[i] == init[i];
          assert MappedNames(ps)[k] == MappedNames(init)[k];
          assert 0 <= i < |ps| && IsMapped(ps[i]) && MappedNames(ps)[k] == ps[i].name;
        } else {
          var i := |ps| - 1;
          assert IsMapped(ps[i]) && MappedNames(ps) == MappedNames(init) + [ps[i].name];
          assert MappedNames(ps)[k] == ps[i].name;
        }
      }
    }
  }

  /**
   * A name is in PropertyNames exactly when some property of that name is
   * mapped; so RowId, read-only, [NotMapped] and reference-typed properties
   * never contribute a name.
   */
  lemma MappedNamesMembership(ps: seq<Property>, name: string)
    ensures name in MappedNames(ps) <==> NameOfMapped(ps, name)
  {
    MappedNamesSound(ps);
    if NameOfMapped(ps, name) {
      var i :| 0 <= i < |ps| && IsMapped(ps[i]) && ps[i].name == name;
      MappedNameAt(ps, i);
    }
  }

  lemma RowIdNeverMapped(ps: seq<Property>)
    ensures IdentityColumn !in MappedNames(ps)
  {
    MappedNamesSound(ps);
  }

  /** PropertyNames is empty exactly when no property is mapped. */
  lemma {:induction false} NoNamesIffNothingMapped(ps: seq<Property>)
    ensures MappedNames(ps) == [] <==> forall i :: 0 <= i < |ps| ==> !IsMapped(ps[i])
    decreases |ps|
  {
    if ps != [] {
      var init := ps[..|ps| - 1];
      NoNamesIffNothingMapped(init);
      if MappedNames(ps) == [] {
        forall i | 0 <= i < |ps| ensures !IsMapped(ps[i]) {
          if i < |ps| - 1 {
            assert ps[i] == init[i];
          }
        }
      }
    }
  }

  /** Building fails, and nothing is cached, exactly when no property is mapped. */
  lemma BuildFailsIffNothingMapped(t: TypeDescriptor)
    ensures BuildDefinition(t).Failure? <==> forall i :: 0 <= i < |t.properties| ==> !IsMapped(t.properties[i])
  {
    NoNamesIffNothingMapped(t.properties);
  }

  /** One column per recorded name, with that name, in the same order. */
  lemma {:induction false} ColumnsMatchNames(ps: seq<Property>)
    ensures |Columns(ps)| == |MappedNames(ps)|
    ensures forall k :: 0 <= k < |Columns(ps)| ==> Columns(ps)[k].name == MappedNames(ps)[k]
    decreases |ps|
  {
    if ps != [] {
      ColumnsMatchNames(ps[..|ps| - 1]);
    }
  }

  /**
   * The column a mapped property contributes sits at its rank, so the DDL
   * declares every recorded name with the type, nullability and CHECK
   * clause Classify gives it.
   */
  lemma {:induction false} ColumnAt(ps: seq<Property>, i: int)
    requires 0 <= i < |ps| && IsMapped(ps[i])
    ensures Rank(ps, i) < |Columns(ps)| && Columns(ps)[Rank(ps, i)] == Classify(ps[i]).value
    decreases |ps|
  {
    ColumnsMatchNames(ps[..i]);
    ColumnsMatchNames(ps);
    if i == |ps| - 1 {
      assert ps[..i] == ps[..|ps| - 1];
    } else {
      var init := ps[..|ps| - 1];
      assert init[i] == ps[i] && init[..i] == ps[..i];
      ColumnAt(init, i);
    }
  }

  /** The string-column rule: NVARCHAR(n), NULL unless [Required], CHECK exactly when n is not the default. */
  lemma StringColumnRule(p: Property)
    requires p.propertyType.StringType?
    ensures Classify(p).Some?
    ensures var c := Classify(p).value;
      var n := if p.stringLength.Some? then p.stringLength.value else DefaultStringLength;
      c.columnType == NVarChar(n) && c.nullable == !p.required
      && (c.checkLength.Some? <==> n != DefaultStringLength)
      && (c.checkLength.Some? ==> c.checkLength.value == n)
  {
  }

  /** Value types: Nullable<X> is NULL, a bare value type is NOT NULL, both with X's affinity; byte[] is a NOT NULL BLOB. */
  lemma NullabilityRule(p: Property)
    ensures p.propertyType.ValueType? ==>
      Classify(p) == Some(Column(p.name, ValueColumnType(p.propertyType.primitive), false, None))
    ensures p.propertyType.NullableOf? ==>
      Classify(p) == Some(Column(p.name, ValueColumnType(p.propertyType.primitive), true, None))
    ensures p.propertyType.ByteArray? ==> Classify(p) == Some(Column(p.name, Blob, false, None))
    ensures Classify(p).None? <==> p.propertyType.ReferenceType?
  {
  }

  /** The index statements collected for a prefix start those collected for all properties. */
  lemma {:induction false} IndexStatementsPrefix(table: string, ps: seq<Property>, i: int)
    requires 0 <= i <= |ps|
    ensures |IndexStatements(table, ps[..i])| <= |IndexStatements(table, ps)|
    ensures IndexStatements(table, ps)[..|IndexStatements(table, ps[..i])|] == IndexStatements(table, ps[..i])
    decreases |ps|
  {
    if i == |ps| {
      assert ps[..i] == ps;
    } else {
      var init := ps[..|ps| - 1];
      assert init[..i] == ps[..i];
      IndexStatementsPrefix(table, init, i);
      var a := IndexStatements(table, init);
      var b := IndexStatements(table, ps[..i]);
      var extra := if Survives(ps[|ps| - 1]) then IndexStatementsFor(table, ps[|ps| - 1]) else [];
      assert IndexStatements(table, ps) == a + extra;
      assert (a + extra)[..|b|] == a[..|b|];
    }
  }

  /**
   * Every surviving property with [LiteIndex] or [LiteUnique] gets its
   * statement, whether or not its type is mapped to a column.
   */
  lemma IndexStatementsComplete(table: string, ps: seq<Property>, i: int)
    requires 0 <= i < |ps| && Survives(ps[i])
    ensures ps[i].liteIndex ==> IndexDdl(table, ps[i].name, false) in IndexStatements(table, ps)
    ensures ps[i].liteUnique ==> IndexDdl(table, ps[i].name, true) in IndexStatements(table, ps)
  {
    PrefixStep(table, ps, i);
    IndexStatementsPrefix(table, ps, i + 1);
    var whole := IndexStatements(table, ps);
    var upto := IndexStatements(table, ps[..i + 1]);
    assert forall s :: s in upto ==> s in whole by {
      forall s | s in upto ensures s in whole {
        var k :| 0 <= k < |upto| && upto[k] == s;
        assert whole[..|upto|][k] == s;
      }
    }
  }

  /**
   * A column is UNIQUE exactly when a mapped [LiteUnique] property without
   * [LiteIndex] has its name; its UNIQUE index statement is in the script,
   * and it is a column of the table.
   */
  lemma {:induction false} UniqueColumnsMembership(table: string, ps: seq<Property>, name: string)
    ensures name in UniqueColumns(ps) <==> exists i :: 0 <= i < |ps| && IsUniqueColumn(ps[i]) && ps[i].name == name
    ensures name in UniqueColumns(ps) ==>
      IndexDdl(table, name, true) in IndexStatements(table, ps) && name in MappedNames(ps)
    decreases |ps|
  {
    if ps != [] {
      var init := ps[..|ps| - 1];
      var last := ps[|ps| - 1];
      UniqueColumnsMembership(table, init, name);
      assert forall i :: 0 <= i < |init| ==> init[i] == ps[i];
      if exists i :: 0 <= i < |ps| && IsUniqueColumn(ps[i]) && ps[i].name == name {
        var i :| 0 <= i < |ps| && IsUniqueColumn(ps[i]) && ps[i].name == name;
        if i < |ps| - 1 {
          assert IsUniqueColumn(init[i]) && init[i].name == name;
        }
      }
      if name in UniqueColumns(ps) {
        var i :| 0 <= i < |ps| && IsUniqueColumn(ps[i]) && ps[i].name == name;
        IndexStatementsComplete(table, ps, i);
        MappedNamesMembership(ps, name);
      }
    }
  }

  /** Every index statement comes from a surviving property carrying the matching attribute. */
  lemma {:induction false} IndexStatementsSound(table: string, ps: seq<Property>)
    ensures forall s :: s in IndexStatements(table, ps) ==>
      exists i :: 0 <= i < |ps| && Survives(ps[i])
        && ((ps[i].liteIndex && s == IndexDdl(table, ps[i].name, false))
            || (ps[i].liteUnique && s == IndexDdl(table, ps[i].name, true)))
    decreases |ps|
  {
    if ps != [] {
      var init := ps[..|ps| - 1];
      var last := |ps| - 1;
      IndexStatementsSound(table, init);
      forall s | s in IndexStatements(table, ps)
        ensures exists i :: (0 <= i < |ps| && Survives(ps[i])
          && ((ps[i].liteIndex && s == IndexDdl(table, ps[i].name, false))
              || (ps[i].liteUnique && s == IndexDdl(table, ps[i].name, true))))
      {
        if s in IndexStatements(table, init) {
          var i :| 0 <= i < |init| && Survives(init[i])
            && ((init[i].liteIndex && s == IndexDdl(table, init[i].name, false))
                || (init[i].liteUnique && s == IndexDdl(table, init[i].name, true)));
          assert ps[i] == init[i];
        } else {
          assert Survives(ps[last]) && s in IndexStatementsFor(table, ps[last]);
        }
      }
    }
  }

  /** The number of index statements: one per attribute on each surviving property. */
  function AttributeCount(ps: seq<Property>): nat
    decreases |ps|
  {
    if ps == [] then 0
    else
      var p := ps[|ps| - 1];
      AttributeCount(ps[..|ps| - 1])
      + if Survives(p) then (if p.liteIndex then 1 else 0) + (if p.liteUnique then 1 else 0) else 0
  }

  lemma {:induction false} IndexStatementsCount(table: string, ps: seq<Property>)
    ensures |IndexStatements(table, ps)| == AttributeCount(ps)
    decreases |ps|
  {
    if ps != [] {
      IndexStatementsCount(table, ps[..|ps| - 1]);
    }
  }

  /**
   * The shape of a column line: its bracketed name and type, then NULL or
   * NOT NULL, then the length check when there is one.
   */
  lemma RenderColumnShape(c: Column)
    ensures StartsWith(RenderColumn(c), "[" + c.name + "] " + ColumnTypeName(c.columnType) + " " + NullStatement(c.nullable))
    ensures c.checkLength.None? ==> EndsWith(RenderColumn(c), NullStatement(c.nullable))
    ensures c.checkLength.Some? ==> EndsWith(RenderColumn(c), ")<=" + IntToString(c.checkLength.value) + ")")
  {
  }

  /** SelectDefinition reads RowId first and then the listed columns, from the table. */
  lemma SelectTemplateShape(table: string, names: seq<string>)
    ensures StartsWith(SelectTemplate(table, names), "SELECT [" + IdentityColumn + "], ")
    ensures EndsWith(SelectTemplate(table, names), " FROM [" + table + "]")
  {
  }

  /** InsertDefinition inserts into the table and ends by asking for the new RowId. */
  lemma InsertTemplateShape(table: string, names: seq<string>)
    ensures StartsWith(InsertTemplate(table, names), "INSERT INTO [" + table + "] (")
    ensures EndsWith(InsertTemplate(table, names), "); SELECT last_insert_rowid();")
  {
  }

  /** UpdateDefinition updates the table and is keyed by RowId. */
  lemma UpdateTemplateShape(table: string, names: seq<string>)
    ensures StartsWith(UpdateTemplate(table, names), "UPDATE [" + table + "] SET ")
    ensures EndsWith(UpdateTemplate(table, names), " WHERE " + RowIdMatch)
  {
  }

  /** DeleteDefinition is the unkeyed DeleteDefinitionWhere narrowed to one RowId. */
  lemma DeleteTemplateShape(table: string)
    ensures StartsWith(DeleteWhereTemplate(table), "DELETE FROM [")
    ensures DeleteTemplate(table) == DeleteWhereTemplate(table) + " WHERE " + RowIdMatch
  {
  }

  /** AnyDefinition names the table inside quotes, as a string literal, not in brackets. */
  lemma AnyTemplateShape(table: string)
    ensures StartsWith(AnyTemplate(table), "SELECT EXISTS(SELECT 1 FROM '")
    ensures EndsWith(AnyTemplate(table), "'" + table + "')")
  {
  }

  /**
   * A build fails exactly when no property maps; a successful one is named
   * after the type, records the mapped names, writes the CREATE TABLE of
   * their columns followed by the index statements, and keys its DELETE by
   * RowId on top of the unkeyed delete.
   */
  lemma BuildDefinitionParts(t: TypeDescriptor)
    ensures BuildDefinition(t).Failure? <==> MappedNames(t.properties) == []
    ensures BuildDefinition(t).Success? ==> var d := BuildDefinition(t).value;
      d.TableName == TableName(t) && d.PropertyNames == MappedNames(t.properties)
      && StartsWith(d.TableDefinition, CreateTable(d.TableName, Columns(t.properties)))
      && EndsWith(d.TableDefinition, Lines(IndexStatements(d.TableName, t.properties)))
      && d.DeleteDefinition == d.DeleteDefinitionWhere + " WHERE " + RowIdMatch
  {
    if BuildDefinition(t).Success? {
      var table := TableName(t);
      var d := BuildDefinition(t).value;
      assert d == MakeDefinition(table, Columns(t.properties), IndexStatements(table, t.properties), MappedNames(t.properties));
      AppendParts(CreateTable(table, Columns(t.properties)), Lines(IndexStatements(table, t.properties)));
    }
  }

  /**
   * An index attribute on a property that has no column: when a surviving
   * property whose type has no affinity carries [LiteIndex] or [LiteUnique],
   * and no other property shares its name, TableDefinition creates an index
   * on a column its CREATE TABLE does not have, a script SQLite refuses.
   */
  lemma IndexOnMissingColumn(t: TypeDescriptor, i: int)
    requires 0 <= i < |t.properties| && Survives(t.properties[i]) && Classify(t.properties[i]).None?
    requires t.properties[i].liteIndex || t.properties[i].liteUnique
    requires forall j :: 0 <= j < |t.properties| && j != i ==> t.properties[j].name != t.properties[i].name
    ensures IndexDdl(TableName(t), t.properties[i].name, t.properties[i].liteUnique && !t.properties[i].liteIndex)
      in IndexStatements(TableName(t), t.properties)
    ensures forall k :: 0 <= k < |Columns(t.properties)| ==> Columns(t.properties)[k].name != t.properties[i].name
  {
    var ps := t.properties;
    IndexStatementsComplete(TableName(t), ps, i);
    MappedNamesMembership(ps, ps[i].name);
    ColumnsMatchNames(ps);
  }

  /** No C# identifier contains a comma. */
  lemma IdentifierCommaFree(n: string)
    requires IsIdentifier(n)
    ensures ',' !in n
  {
  }

  /** Every name in PropertyNames is a property name of the type. */
  lemma MappedNamesAreIdentifiers(t: TypeDescriptor)
    requires WellFormed(t)
    ensures Identifiers(MappedNames(t.properties))
  {
    MappedNamesSound(t.properties);
  }

  predicate Identifiers(names: seq<string>) {
    forall k :: 0 <= k < |names| ==> IsIdentifier(names[k])
  }

  lemma BracketedCommaFree(names: seq<string>)
    requires Identifiers(names)
    ensures CommaFree(Bracketed(names))
  {
    forall k | 0 <= k < |names| ensures ',' !in Bracketed(names)[k] {
      IdentifierCommaFree(names[k]);
    }
  }

  lemma ParametersCommaFree(names: seq<string>)
    requires Identifiers(names)
    ensures CommaFree(Parameters(names))
  {
    forall k | 0 <= k < |names| ensures ',' !in Parameters(names)[k] {
      IdentifierCommaFree(names[k]);
    }
  }

  lemma AssignmentsCommaFree(names: seq<string>)
    requires Identifiers(names)
    ensures CommaFree(Assignments(names))
  {
    forall k | 0 <= k < |names| ensures ',' !in Assignments(names)[k] {
      IdentifierCommaFree(names[k]);
    }
  }

  /**
   * The three column lists of the templates read back, element by element,
   * as [p], @p and [p] = @p over PropertyNames, in matching positions.
   */
  lemma TemplateListsReadBack(names: seq<string>)
    requires |names| > 0 && Identifiers(names)
    ensures ParseList(Join(ListSeparator, Bracketed(names))) == Bracketed(names)
    ensures ParseList(Join(ListSeparator, Parameters(names))) == Parameters(names)
    ensures ParseList(Join(ListSeparator, Assignments(names))) == Assignments(names)
  {
    BracketedCommaFree(names);
    ParseJoin(Bracketed(names));
    ParametersCommaFree(names);
    ParseJoin(Parameters(names));
    AssignmentsCommaFree(names);
    ParseJoin(Assignments(names));
  }

  /** The three lists agree position by position. */
  lemma TemplateListsAligned(names: seq<string>)
    ensures |Bracketed(names)| == |Parameters(names)| == |Assignments(names)| == |names|
    ensures forall k :: 0 <= k < |names| ==>
      Bracketed(names)[k] == "[" + names[k] + "]"
      && Parameters(names)[k] == "@" + names[k]
      && Assignments(names)[k] == Bracketed(names)[k] + " = " + Parameters(names)[k]
  {
  }

  /** For a well-formed type, the built templates list exactly PropertyNames. */
  lemma BuiltTemplatesReadBack(t: TypeDescriptor)
    requires WellFormed(t) && BuildDefinition(t).Success?
    ensures var d := BuildDefinition(t).value;
      d.PropertyNames == MappedNames(t.properties)
      && d.InsertDefinition == InsertTemplate(d.TableName, d.PropertyNames)
      && ParseList(Join(ListSeparator, Bracketed(d.PropertyNames))) == Bracketed(d.PropertyNames)
      && ParseList(Join(ListSeparator, Parameters(d.PropertyNames))) == Parameters(d.PropertyNames)
      && ParseList(Join(ListSeparator, Assignments(d.PropertyNames))) == Assignments(d.PropertyNames)
  {
    MappedNamesAreIdentifiers(t);
    TemplateListsReadBack(MappedNames(t.properties));
  }
}
