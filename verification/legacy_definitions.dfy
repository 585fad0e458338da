/**
 * The older definition builder (Unosquare.Labs.LiteLib/LiteDbSet.cs,
 * LoadDefinitions): the same DDL and templates as the newer builder, but
 * written straight into the set's own properties and cached per set type with
 * six fields. It differs from the newer builder in three ways the lemmas below
 * state: the default table name is the literal nameof(T), every surviving
 * property name is recorded before its type is classified, and there is no
 * check that some property was mapped.
 */
module LegacyDefinitions {
  import opened Wrappers
  import opened SqlText
  import opened Descriptors
  import opened TypeDefinitions

  /** nameof(T): the name of the generic type parameter, not of the type bound to it. */
  const TypeParameterName: string := "T"

  /** The explicit affinity table of the older builder; value types missing from it get TEXT. */
  const TypeMappings: map<Primitive, ColumnType> := map[
    Int16 := Integer, Int32 := Integer, Int64 := Integer,
    UInt16 := Integer, UInt32 := Integer, UInt64 := Integer,
    Byte := Integer, Char := Integer,
    Decimal := Numeric, Boolean := Numeric,
    DateTime := DateTimeColumn]

  /** The affinity a value type gets: its TypeMappings entry, or TEXT. */
  function LegacyAffinity(p: Primitive): ColumnType {
    if p in TypeMappings then TypeMappings[p] else Text
  }

  /** The affinity table is the one the newer builder assumes for every value type. */
  lemma TypeMappingsAgree(p: Primitive)
    ensures LegacyAffinity(p) == ValueColumnType(p)
    ensures p in TypeMappings <==> !p.OtherValueType?
  {
  }

  /** The table name: the [Table] name, or else nameof(T). */
  function LegacyTableName(t: TypeDescriptor): (name: string)
    ensures t.tableAttribute.Some? ==> name == t.tableAttribute.value
    ensures t.tableAttribute.None? ==> name == TypeParameterName
  {
    match t.tableAttribute
    case Some(n) => n
    case None => TypeParameterName
  }

  /** The recorded names: every property that survives the RowId, CanWrite and [NotMapped] filters. */
  function LegacyNames(ps: seq<Property>): seq<string>
    decreases |ps|
  {
    if ps == [] then []
    else
      var p := ps[|ps| - 1];
      LegacyNames(ps[..|ps| - 1]) + if Survives(p) then [p.name] else []
  }

  /** The six definitions the older set holds and caches. */
  datatype LegacyDefinition = LegacyDefinition(
    TableName: string,
    TableDefinition: string,
    SelectDefinition: string,
    InsertDefinition: string,
    UpdateDefinition: string,
    DeleteDefinition: string)

  /**
   * What LoadDefinitions yields for a type; it never fails. The DDL has the
   * newer build's columns and indexes, but the templates list every
   * surviving property, mapped or not.
   */
  function LegacyBuild(t: TypeDescriptor): (r: LegacyDefinition)
    ensures r.TableName == LegacyTableName(t)
    ensures StartsWith(r.TableDefinition, CreateTable(r.TableName, Columns(t.properties)))
    ensures r.InsertDefinition == InsertTemplate(r.TableName, LegacyNames(t.properties))
    ensures r.UpdateDefinition == UpdateTemplate(r.TableName, LegacyNames(t.properties))
    ensures r.SelectDefinition == SelectTemplate(r.TableName, LegacyNames(t.properties))
    ensures r.DeleteDefinition == DeleteTemplate(r.TableName)
  {
    var table := LegacyTableName(t);
    var ps := t.properties;
    var names := LegacyNames(ps);
    LegacyDefinition(
      table,
      TableScript(table, Columns(ps), IndexStatements(table, ps)),
      SelectTemplate(table, names),
      InsertTemplate(table, names),
      UpdateTemplate(table, names),
      DeleteTemplate(table))
  }

  /**
   * One pass of the older loop: skips RowId, read-only and [NotMapped]
   * properties; otherwise collects the index statements, records the name
   * and writes the column line when the type has an affinity.
   */
  method LegacyScanProperty(tableName: string, property: Property,
                            createBuilder: string, indexBuilder: seq<string>, propertyNames: seq<string>)
    returns (create: string, indexes: seq<string>, names: seq<string>)
    ensures indexes == indexBuilder + if Survives(property) then IndexStatementsFor(tableName, property) else []
    ensures names == propertyNames + if Survives(property) then [property.name] else []
    ensures IsMapped(property) ==> create == createBuilder + Line("    " + RenderColumn(Classify(property).value) + ",")
    ensures !IsMapped(property) ==> create == createBuilder
  {
    create, indexes, names := createBuilder, indexBuilder, propertyNames;
    if property.name == IdentityColumn {
      return;
    }

    if !property.canWrite {
      return;
    }

    // [NotMapped] properties contribute nothing
    if property.notMapped {
      return;
    }

    // [LiteIndex] yields a plain index statement
    if property.liteIndex {
      indexes := indexes + [IndexDdl(tableName, property.name, false)];
    }

    // [LiteUnique] yields a UNIQUE one, after it
    if property.liteUnique {
      indexes := indexes + [IndexDdl(tableName, property.name, true)];
    }

    names := names + [property.name];
    var propertyType := property.propertyType;
    var isNullable := propertyType.NullableOf?;

    if propertyType.StringType? {
      var stringLength := DefaultStringLength;
      if property.stringLength.Some? {
        stringLength := property.stringLength.value;
      }
      isNullable := !property.required;
      if stringLength != DefaultStringLength {
        create := create + Line("    " + RenderColumn(Column(property.name, NVarChar(stringLength), isNullable, Some(stringLength))) + ",");
      } else {
        create := create + Line("    " + RenderColumn(Column(property.name, NVarChar(stringLength), isNullable, None)) + ",");
      }
    } else if propertyType.ValueType? || propertyType.NullableOf? {
      var primitive := propertyType.primitive;
      TypeMappingsAgree(primitive);
      if primitive in TypeMappings {
        create := create + Line("    " + RenderColumn(Column(property.name, TypeMappings[primitive], isNullable, None)) + ",");
      } else {
        create := create + Line("    " + RenderColumn(Column(property.name, Text, isNullable, None)) + ",");
      }
    } else if propertyType.ByteArray? {
      create := create + Line("    " + RenderColumn(Column(property.name, Blob, isNullable, None)) + ",");
    }
  }

  lemma LegacyNamesStep(ps: seq<Property>, i: int)
    requires 0 <= i < |ps|
    ensures LegacyNames(ps[..i + 1]) == LegacyNames(ps[..i]) + if Survives(ps[i]) then [ps[i].name] else []
  {
    assert ps[..i + 1][..i] == ps[..i];
  }

  /** The older loop over the properties, from the two header lines on. */
  method LegacyScan(tableName: string, properties: seq<Property>)
    returns (createBuilder: string, indexBuilder: seq<string>, propertyNames: seq<string>)
    ensures createBuilder == BuilderHeader(tableName) + CommaLines(Indented(Columns(properties)))
    ensures indexBuilder == IndexStatements(tableName, properties)
    ensures propertyNames == LegacyNames(properties)
  {
    createBuilder := BuilderHeader(tableName);
    ghost var header := createBuilder;
    indexBuilder := [];
    propertyNames := [];

    var i := 0;
    while i < |properties|
      invariant 0 <= i <= |properties|
      invariant createBuilder == header + CommaLines(Indented(Columns(properties[..i])))
      invariant indexBuilder == IndexStatements(tableName, properties[..i])
      invariant propertyNames == LegacyNames(properties[..i])
    {
      var property := properties[i];
      PrefixStep(tableName, properties, i);
      LegacyNamesStep(properties, i);
      createBuilder, indexBuilder, propertyNames :=
        LegacyScanProperty(tableName, property, createBuilder, indexBuilder, propertyNames);
      if IsMapped(property) {
        AppendAssoc(header, CommaLines(Indented(Columns(properties[..i]))),
          Line("    " + RenderColumn(Classify(property).value) + ","));
      }
      i := i + 1;
    }
    assert properties[..i] == properties;
  }

  /** The older per-set-type DefinitionCache. */
  class LegacyDefinitionCache {
    var entries: map<TypeDescriptor, LegacyDefinition>

    ghost predicate Valid()
      reads this
    {
      forall t :: t in entries ==> entries[t] == LegacyBuild(t)
    }

    constructor ()
      ensures entries == map[] && Valid()
    {
      entries := map[];
    }
  }

  /** The definition-holding part of the older LiteDbSet<T>. */
  class LegacyDbSet {
    var TableName: string
    var TableDefinition: string
    var SelectDefinition: string
    var InsertDefinition: string
    var UpdateDefinition: string
    var DeleteDefinition: string

    function Definitions(): LegacyDefinition
      reads this
    {
      LegacyDefinition(TableName, TableDefinition, SelectDefinition, InsertDefinition, UpdateDefinition, DeleteDefinition)
    }

    constructor ()
      ensures Definitions() == LegacyDefinition("", "", "", "", "", "")
    {
      TableName, TableDefinition, SelectDefinition := "", "", "";
      InsertDefinition, UpdateDefinition, DeleteDefinition := "", "", "";
    }

    /**
     * LoadDefinitions: a cache hit copies the six stored definitions; a miss
     * builds them and stores them. Either way the set ends up holding
     * LegacyBuild of its type.
     */
    method LoadDefinitions(t: TypeDescriptor, cache: LegacyDefinitionCache)
      requires cache.Valid()
      modifies this, cache`entries
      ensures cache.Valid()
      ensures Definitions() == LegacyBuild(t)
      ensures t in old(cache.entries) ==> cache.entries == old(cache.entries)
      ensures t !in old(cache.entries) ==> cache.entries == old(cache.entries)[t := LegacyBuild(t)]
    {
      if t in cache.entries {
        var cached := cache.entries[t];
        TableName := cached.TableName;
        TableDefinition := cached.TableDefinition;
        SelectDefinition := cached.SelectDefinition;
        InsertDefinition := cached.InsertDefinition;
        UpdateDefinition := cached.UpdateDefinition;
        DeleteDefinition := cached.DeleteDefinition;
        return;
      }

      // Start off with the table name
      var tableName := TypeParameterName;
      if t.tableAttribute.Some? {
        tableName := t.tableAttribute.value;
      }

      var createBuilder, indexBuilder, propertyNames := LegacyScan(tableName, t.properties);

      // drop the last column line's ", " (single-character newline)
      TrimmedHeader(tableName, Columns(t.properties));
      createBuilder := createBuilder[..|createBuilder| - 2];
      createBuilder := createBuilder + NewLine;
      createBuilder := createBuilder + Line(");");
      createBuilder := AppendLines(createBuilder, indexBuilder);

      TableName := tableName;
      TableDefinition := createBuilder;
      SelectDefinition := SelectTemplate(tableName, propertyNames);
      InsertDefinition := InsertTemplate(tableName, propertyNames);
      UpdateDefinition := UpdateTemplate(tableName, propertyNames);
      DeleteDefinition := DeleteTemplate(tableName);

      assert Definitions() == LegacyBuild(t);
      ghost var before := cache.entries;
      cache.entries := cache.entries[t := Definitions()];
      forall u | u in cache.entries
        ensures cache.entries[u] == LegacyBuild(u)
      {
        if u != t {
          assert u in before;
        }
      }
    }
  }

  // ---------------------------------------------------------------------------
  // How the older builder differs from the newer one

  /** The properties of a type that has a column, in declaration order: all but the other reference types. */
  function WithColumnTypes(ps: seq<Property>): seq<Property>
    decreases |ps|
  {
    if ps == [] then []
    else
      var last := ps[|ps| - 1];
      WithColumnTypes(ps[..|ps| - 1]) + if last.propertyType.ReferenceType? then [] else [last]
  }

  /** The older names of one more property: its name follows when it survives. */
  lemma LegacyNamesSnoc(ps: seq<Property>, p: Property)
    ensures LegacyNames(ps + [p]) == LegacyNames(ps) + if Survives(p) then [p.name] else []
  {
    assert (ps + [p])[..|ps|] == ps;
  }

  /** The newer names are exactly the older names of the properties that have a column type, in order. */
  lemma {:induction false} MappedNamesOfColumnTyped(ps: seq<Property>)
    ensures MappedNames(ps) == LegacyNames(WithColumnTypes(ps))
    decreases |ps|
  {
    if ps != [] {
      var init := ps[..|ps| - 1];
      var last := ps[|ps| - 1];
      MappedNamesOfColumnTyped(init);
      var kept := WithColumnTypes(init);
      assert IsMapped(last) <==> Survives(last) && !last.propertyType.ReferenceType?;
      if last.propertyType.ReferenceType? {
        assert WithColumnTypes(ps) == kept;
        assert MappedNames(ps) == MappedNames(init);
      } else {
        assert WithColumnTypes(ps) == kept + [last];
        LegacyNamesSnoc(kept, last);
      }
    }
  }

  /** Every newer name is an older one. */
  lemma {:induction false} MappedNamesInLegacy(ps: seq<Property>)
    ensures forall n :: n in MappedNames(ps) ==> n in LegacyNames(ps)
    decreases |ps|
  {
    if ps != [] {
      MappedNamesInLegacy(ps[..|ps| - 1]);
    }
  }

  /**
   * The names the newer builder records are the older ones less the
   * reference-typed survivors: exactly the older names of the properties
   * that have a column type, in the same order, so each newer name is an
   * older one. The two lists are equal iff no reference-typed property
   * survives, and the newer one is shorter otherwise.
   */
  lemma {:induction false} MappedNamesWithinLegacy(ps: seq<Property>)
    ensures MappedNames(ps) == LegacyNames(WithColumnTypes(ps))
    ensures forall n :: n in MappedNames(ps) ==> n in LegacyNames(ps)
    ensures |MappedNames(ps)| <= |LegacyNames(ps)|
    ensures (forall i :: 0 <= i < |ps| && Survives(ps[i]) ==> !ps[i].propertyType.ReferenceType?)
      ==> MappedNames(ps) == LegacyNames(ps)
    ensures (exists i :: 0 <= i < |ps| && Survives(ps[i]) && ps[i].propertyType.ReferenceType?)
      ==> |MappedNames(ps)| < |LegacyNames(ps)|
    decreases |ps|
  {
    MappedNamesOfColumnTyped(ps);
    MappedNamesInLegacy(ps);
    if ps != [] {
      var init := ps[..|ps| - 1];
      MappedNamesWithinLegacy(init);
      assert forall i :: 0 <= i < |init| ==> init[i] == ps[i];
      if exists i :: 0 <= i < |ps| && Survives(ps[i]) && ps[i].propertyType.ReferenceType? {
        var i :| 0 <= i < |ps| && Survives(ps[i]) && ps[i].propertyType.ReferenceType?;
        if i < |ps| - 1 {
          assert Survives(init[i]) && init[i].propertyType.ReferenceType?;
        }
      }
    }
  }

  /**
   * When the type is renamed by [Table] and no surviving property is of an
   * unmapped reference type, the older builder writes what the newer one does.
   */
  lemma LegacyAgreesWithNewer(t: TypeDescriptor)
    requires t.tableAttribute.Some?
    requires forall i :: 0 <= i < |t.properties| && Survives(t.properties[i]) ==> !t.properties[i].propertyType.ReferenceType?
    requires BuildDefinition(t).Success?
    ensures var d := BuildDefinition(t).value;
      LegacyBuild(t) == LegacyDefinition(d.TableName, d.TableDefinition, d.SelectDefinition,
                                         d.InsertDefinition, d.UpdateDefinition, d.DeleteDefinition)
  {
    MappedNamesWithinLegacy(t.properties);
  }

  /** Without the empty check, a type with no mapped property still gets a table with only RowId. */
  lemma LegacyBuildsWithoutColumns(t: TypeDescriptor)
    requires forall i :: 0 <= i < |t.properties| ==> !Survives(t.properties[i])
    ensures BuildDefinition(t).Failure?
    ensures LegacyBuild(t).TableDefinition == CreateTable(LegacyTableName(t), []) + Lines(IndexStatements(LegacyTableName(t), t.properties))
    ensures Columns(t.properties) == []
  {
    NoNamesIffNothingMapped(t.properties);
    ColumnsMatchNames(t.properties);
  }

  // ---------------------------------------------------------------------------
  // Defects of the older builder, and the newer behaviour that corrects them

  /**
   * nameof(T) is the constant "T": every record type without [Table] gets
   * the same table, so two such types share one table.
   */
  lemma LegacyTablesCollide(t1: TypeDescriptor, t2: TypeDescriptor)
    requires t1.tableAttribute.None? && t2.tableAttribute.None?
    ensures LegacyTableName(t1) == LegacyTableName(t2) == "T"
    ensures LegacyBuild(t1).DeleteDefinition == LegacyBuild(t2).DeleteDefinition
  {
  }

  /** The newer builder names the table after the type, so distinct type names give distinct tables. */
  lemma TableNameDistinguishesTypes(t1: TypeDescriptor, t2: TypeDescriptor)
    requires t1.tableAttribute.None? && t2.tableAttribute.None?
    ensures TableName(t1) == TableName(t2) <==> t1.name == t2.name
  {
  }

  /** A record with one writable property of a class type, e.g. a navigation property. */
  const OwnerOnly: TypeDescriptor := TypeDescriptor("Order", Some("Orders"),
    [Property("Owner", true, ReferenceType("Customer"), false, false, false, false, None)])

  /**
   * The older builder records "Owner" and so writes [Owner] into the insert
   * template, but emits no column for it: the table it creates has no such
   * column.
   */
  lemma LegacyTemplateNamesMissingColumn()
    ensures LegacyNames(OwnerOnly.properties) == ["Owner"]
    ensures Columns(OwnerOnly.properties) == []
    ensures LegacyBuild(OwnerOnly).InsertDefinition == InsertTemplate("Orders", ["Owner"])
  {
    var ps := OwnerOnly.properties;
    assert ps[..0] == [];
    assert LegacyNames(ps) == LegacyNames(ps[..0]) + ["Owner"];
    assert Columns(ps) == Columns(ps[..0]);
  }

  /**
   * The newer builder records a name only together with its column, so
   * every name its templates use is a column of the table it creates.
   */
  lemma EveryRecordedNameHasColumn(ps: seq<Property>, k: int)
    requires 0 <= k < |MappedNames(ps)|
    ensures k < |Columns(ps)| && Columns(ps)[k].name == MappedNames(ps)[k]
  {
    ColumnsMatchNames(ps);
  }
}
