/**
 * The runtime side of LiteLib: an entity set inserts, updates, deletes and
 * queries the records of one type, raising a before and an after event
 * around each change; a context discovers its entity sets, creates the
 * schema of a new database and registers itself in a process-wide map of
 * live instances until it is disposed.
 */
module LiteLib {
  import opened Wrappers
  import opened SqlText
  import opened Descriptors
  import opened TypeDefinitions
  import opened Store

  // ---------------------------------------------------------------------------
  // Entities and the events around them

  /** What the library reads and writes of a record: its RowId and its property values. */
  datatype EntityState = EntityState(rowId: int, values: Row)

  /** A record of type T (an ILiteModel): RowId is 0 until it is stored. */
  class Entity {
    var RowId: int
    var Values: Row

    function State(): EntityState
      reads this
    {
      EntityState(RowId, Values)
    }

    constructor (values: Row)
      ensures RowId == 0 && Values == values
    {
      RowId := 0;
      Values := values;
    }
  }

  /** What a handler can see and leave behind: the entity and the Cancel flag of the shared args. */
  datatype HookState = HookState(entity: EntityState, cancel: bool)

  /** An event handler: it may change the entity's properties and set or clear Cancel. */
  type Handler = HookState -> HookState

  /** Invoking a multicast event: every subscribed handler, in subscription order, on the same args. */
  function RunHandlers(hs: seq<Handler>, s: HookState): HookState
    decreases |hs|
  {
    if hs == [] then s else hs[|hs| - 1](RunHandlers(hs[..|hs| - 1], s))
  }

  /** The six events of an entity set. */
  datatype EventKind = BeforeInsert | AfterInsert | BeforeUpdate | AfterUpdate | BeforeDelete | AfterDelete

  /**
   * EntityEventArgs: the entity and the set are fixed when the args are made
   * (their setters are protected), Cancel is open to every handler.
   */
  class EntityEventArgs {
    const Entity: Entity
    const DbSet: EntitySet
    var Cancel: bool

    constructor (entity: Entity, liteDbSet: EntitySet)
      ensures Entity == entity && DbSet == liteDbSet && !Cancel
    {
      DbSet := liteDbSet;
      Entity := entity;
      Cancel := false;
    }
  }

  /** One raised event: which, with which args object, and the entity as the handlers first saw it. */
  datatype Firing = Firing(kind: EventKind, args: EntityEventArgs, seen: EntityState)

  /** Errors the entity-set operations throw. */
  datatype SetError =
    | ArgumentNull(paramName: string)   // ArgumentNullException
    | ArgumentError(paramName: string)  // ArgumentException
    | StoreFailure(error: StoreError)   // an exception out of the database

  /**
   * The parameters Dapper binds from an entity: one per mapped property,
   * its value, and NULL for a property that holds none.
   */
  function Bind(names: seq<string>, values: Row): (row: Row)
    ensures forall n :: n in row <==> n in names
    ensures forall n :: n in row && n in values ==> row[n] == values[n]
    ensures forall n :: n in row && n !in values ==> row[n] == NullValue
  {
    map n | n in names :: if n in values then values[n] else NullValue
  }

  /** The text a value takes inside '...' in InsertRange; null interpolates as nothing. */
  function ValueText(v: Value): string {
    match v
    case NullValue => ""
    case IntegerValue(i) => IntToString(i)
    case TextValue(s) => s
  }

  /** The SELECT line InsertRange writes for one entity. */
  function SelectLiteral(names: seq<string>, row: Row): string {
    "SELECT " + Join(ListSeparator, seq(|names|, k requires 0 <= k < |names| =>
      "'" + ValueText(if names[k] in row then row[names[k]] else NullValue) + "'"))
  }

  /**
   * The one statement InsertRange sends: an INSERT naming the columns, fed by
   * a UNION ALL of literal SELECTs, the first of them right after the
   * column list and the last at the end.
   */
  function InsertRangeCommand(table: string, names: seq<string>, rows: seq<Row>): (r: string)
    ensures StartsWith(r, "INSERT INTO [" + table + "] (" + Join(ListSeparator, Bracketed(names)) + ")")
    ensures rows != [] ==> EndsWith(r, SelectLiteral(names, rows[|rows| - 1]))
  {
    var head := "INSERT INTO [" + table + "] (" + Join(ListSeparator, Bracketed(names)) + ")";
    var selects := seq(|rows|, k requires 0 <= k < |rows| => SelectLiteral(names, rows[k]));
    if rows == [] then head + Join("UNION ALL ", selects)
    else
      JoinEndsWithLast("UNION ALL ", selects);
      EndsWithPrepend(head, Join("UNION ALL ", selects), selects[|rows| - 1]);
      head + Join("UNION ALL ", selects)
  }

  /** The WHERE text each query passes: a caller's text goes as it is, the others bind a parameter or none. */
  function WhereText(w: Where): (r: string)
    ensures w.Raw? ==> r == w.text
    ensures w.RowIdIs? ==> r == RowIdMatch
    ensures w.FieldIs? ==> StartsWith(r, "[" + w.field + "]") && EndsWith(r, "@FieldValue")
  {
    match w
    case AllRows => "1 = 1"
    case RowIdIs(_) => RowIdMatch
    case FieldIs(f, _) => "[" + f + "] = @FieldValue"
    case Raw(text) => text
  }

  /** FirstOrDefault over a query's rows. */
  function First(rows: seq<StoredRow>): Option<StoredRow> {
    if rows == [] then None else Some(rows[0])
  }

  // ---------------------------------------------------------------------------
  // The index statements of a TableDefinition, as the store runs them

  /** The index statements one surviving property contributes, [LiteIndex] first. */
  function IndexSpecsFor(p: Property): seq<IndexSpec> {
    (if p.liteIndex then [IndexSpec(p.name, false)] else [])
    + (if p.liteUnique then [IndexSpec(p.name, true)] else [])
  }

  /** The index statements of a type's TableDefinition, in order. */
  function IndexSpecsOf(ps: seq<Property>): seq<IndexSpec>
    decreases |ps|
  {
    if ps == [] then []
    else
      var p := ps[|ps| - 1];
      IndexSpecsOf(ps[..|ps| - 1]) + if Survives(p) then IndexSpecsFor(p) else []
  }

  /** The text of index statements on a table. */
  function IndexTexts(table: string, ixs: seq<IndexSpec>): (r: seq<string>)
    ensures |r| == |ixs|
    ensures forall k :: 0 <= k < |ixs| ==> r[k] == IndexDdl(table, ixs[k].column, ixs[k].unique)
  {
    seq(|ixs|, k requires 0 <= k < |ixs| => IndexDdl(table, ixs[k].column, ixs[k].unique))
  }

  /** The index statements the store runs are those the TableDefinition holds, statement for statement. */
  lemma {:induction false} IndexSpecsRendered(table: string, ps: seq<Property>)
    ensures IndexTexts(table, IndexSpecsOf(ps)) == IndexStatements(table, ps)
    decreases |ps|
  {
    if ps != [] {
      var init := ps[..|ps| - 1];
      var p := ps[|ps| - 1];
      IndexSpecsRendered(table, init);
      var a := IndexSpecsOf(init);
      var b := if Survives(p) then IndexSpecsFor(p) else [];
      assert IndexTexts(table, a + b) == IndexTexts(table, a) + IndexTexts(table, b);
      assert IndexTexts(table, b) == if Survives(p) then IndexStatementsFor(table, p) else [];
    }
  }

  /** A column no property is named after has no index statement, and is neither mapped nor UNIQUE. */
  lemma {:induction false} UnnamedColumn(ps: seq<Property>, column: string)
    requires forall i :: 0 <= i < |ps| ==> ps[i].name != column
    ensures FirstSpec(IndexSpecsOf(ps), column) == None
    ensures column !in MappedNames(ps) && column !in UniqueColumns(ps)
    decreases |ps|
  {
    if ps != [] {
      var init := ps[..|ps| - 1];
      var p := ps[|ps| - 1];
      forall i | 0 <= i < |init|
        ensures init[i].name != column
      {
        assert init[i] == ps[i];
      }
      UnnamedColumn(init, column);
      assert p.name != column;
      var b := if Survives(p) then IndexSpecsFor(p) else [];
      assert IndexSpecsOf(ps) == IndexSpecsOf(init) + b;
      FirstSpecAppend(IndexSpecsOf(init), b, column);
      FirstSpecOfProperty(p, column);
      assert MappedNames(ps) == MappedNames(init) + if IsMapped(p) then [p.name] else [];
      assert UniqueColumns(ps) == UniqueColumns(init) + if IsUniqueColumn(p) then [p.name] else [];
    }
  }

  /** The first of one property's statements on a column: its [LiteIndex] one, else its [LiteUnique] one. */
  lemma FirstSpecOfProperty(p: Property, column: string)
    ensures FirstSpec(IndexSpecsFor(p), column) ==
      if p.name != column then None
      else if p.liteIndex then Some(false)
      else if p.liteUnique then Some(true)
      else None
  {
    var a: seq<IndexSpec> := if p.liteIndex then [IndexSpec(p.name, false)] else [];
    var b: seq<IndexSpec> := if p.liteUnique then [IndexSpec(p.name, true)] else [];
    FirstSpecAppend(a, b, column);
    assert a == [] || a[..0] == [];
    assert b == [] || b[..0] == [];
  }

  /**
   * Within one type's definition, the first index statement on a mapped
   * column is the UNIQUE one iff the column is one of UniqueColumns: its
   * property has [LiteUnique] and not [LiteIndex].
   */
  lemma {:induction false} OwnIndexUnique(ps: seq<Property>, column: string)
    requires forall i, j :: 0 <= i < j < |ps| ==> ps[i].name != ps[j].name
    ensures (column in MappedNames(ps) && FirstSpec(IndexSpecsOf(ps), column) == Some(true)) <==> column in UniqueColumns(ps)
    decreases |ps|
  {
    if ps != [] {
      var init := ps[..|ps| - 1];
      var p := ps[|ps| - 1];
      var b := if Survives(p) then IndexSpecsFor(p) else [];
      assert IndexSpecsOf(ps) == IndexSpecsOf(init) + b;
      assert MappedNames(ps) == MappedNames(init) + if IsMapped(p) then [p.name] else [];
      assert UniqueColumns(ps) == UniqueColumns(init) + if IsUniqueColumn(p) then [p.name] else [];
      FirstSpecAppend(IndexSpecsOf(init), b, column);
      FirstSpecOfProperty(p, column);
      if p.name == column {
        forall i | 0 <= i < |init|
          ensures init[i].name != column
        {
          assert init[i] == ps[i];
        }
        UnnamedColumn(init, column);
      } else {
        forall i, j | 0 <= i < j < |init|
          ensures init[i].name != init[j].name
        {
          assert init[i] == ps[i] && init[j] == ps[j];
        }
        OwnIndexUnique(init, column);
      }
    }
  }

  /**
   * A table that one type's TableDefinition creates on its own has exactly
   * UniqueColumns as its UNIQUE columns.
   */
  lemma FreshTableUnique(table: string, ps: seq<Property>, column: string)
    requires forall i, j :: 0 <= i < j < |ps| ==> ps[i].name != ps[j].name
    ensures var created := RunScript(map[], [TableShape(table, MappedNames(ps), IndexSpecsOf(ps))]);
      table in created && (column in created[table].unique <==> column in UniqueColumns(ps))
  {
    var shapes := [TableShape(table, MappedNames(ps), IndexSpecsOf(ps))];
    RunFirstColumns(map[], shapes, 1);
    assert FirstShape(shapes, 0);
    RunUnique(map[], shapes, 1, table, column);
    OwnIndexUnique(ps, column);
  }

  // ---------------------------------------------------------------------------
  // Entity sets

  /** LiteDbSet<T>: T is ElementType. */
  class EntitySet {
    const ElementType: TypeDescriptor

    /** The definitions, which only the constructor's LoadDefinitions assigns. */
    const TableName: string
    const TableDefinition: string
    const SelectDefinition: string
    const InsertDefinition: string
    const UpdateDefinition: string
    const DeleteDefinition: string
    const DeleteDefinitionWhere: string
    const PropertyNames: seq<string>

    /**
     * What the set's TableDefinition does: its table, one column per
     * property name, and the index statements of its element type.
     */
    function Shape(): TableShape {
      TableShape(TableName, PropertyNames, IndexSpecsOf(ElementType.properties))
    }

    /** The owning context and the entity type, which LoadEntitySets assigns once. */
    const Context: LiteDbContext?
    const EntityType: Option<TypeDescriptor>

    var OnBeforeInsert: seq<Handler>
    var OnAfterInsert: seq<Handler>
    var OnBeforeUpdate: seq<Handler>
    var OnAfterUpdate: seq<Handler>
    var OnBeforeDelete: seq<Handler>
    var OnAfterDelete: seq<Handler>

    /** Every event raised so far, in order. */
    ghost var Fired: seq<Firing>

    /** The definitions hold the item a build of T yields. */
    predicate Loaded() {
      BuildDefinition(ElementType).Success? && Holds(BuildDefinition(ElementType).value)
    }

    /** The eight definition properties are those of d. */
    predicate Holds(d: DefinitionCacheItem) {
      TableName == d.TableName && TableDefinition == d.TableDefinition
      && SelectDefinition == d.SelectDefinition && InsertDefinition == d.InsertDefinition
      && UpdateDefinition == d.UpdateDefinition && DeleteDefinition == d.DeleteDefinition
      && DeleteDefinitionWhere == d.DeleteDefinitionWhere && PropertyNames == d.PropertyNames
    }

    /** The set belongs to a context whose connection is open for commands. */
    predicate Live()
      reads this, Context
    {
      Context != null && Context.Connection != null
    }

    function Db(): SqliteConnection
      requires Live()
      reads this, Context
    {
      Context.Connection
    }

    /** The connection commands go to: none when the set has no live context. */
    function Connections(): set<SqliteConnection>
      reads this, Context
    {
      if Live() then {Context.Connection} else {}
    }

    /**
     * The log continues the earlier one with an event of this kind, raised on
     * args made for this set and the entity, whose handlers first saw seen.
     */
    ghost predicate FiredFirst(kind: EventKind, n: int, entity: Entity, seen: EntityState)
      reads this
    {
      0 <= n < |Fired| && Fired[n].kind == kind && Fired[n].seen == seen
      && Fired[n].args.Entity == entity && Fired[n].args.DbSet == this
    }

    /** The handlers subscribed to an event. */
    function Handlers(kind: EventKind): seq<Handler>
      reads this
    {
      match kind
      case BeforeInsert => OnBeforeInsert
      case AfterInsert => OnAfterInsert
      case BeforeUpdate => OnBeforeUpdate
      case AfterUpdate => OnAfterUpdate
      case BeforeDelete => OnBeforeDelete
      case AfterDelete => OnAfterDelete
    }

    /**
     * A set whose constructor's LoadDefinitions produced d, given its
     * context and entity type; only the no-op handlers are subscribed.
     */
    constructor (elementType: TypeDescriptor, d: DefinitionCacheItem, context: LiteDbContext?, entityType: Option<TypeDescriptor>)
      ensures ElementType == elementType && Holds(d) && Context == context && EntityType == entityType
      ensures Fired == [] && forall kind :: Handlers(kind) == []
    {
      ElementType := elementType;
      TableName, TableDefinition, SelectDefinition := d.TableName, d.TableDefinition, d.SelectDefinition;
      InsertDefinition, UpdateDefinition := d.InsertDefinition, d.UpdateDefinition;
      DeleteDefinition, DeleteDefinitionWhere := d.DeleteDefinition, d.DeleteDefinitionWhere;
      PropertyNames := d.PropertyNames;
      Context := context;
      EntityType := entityType;
      OnBeforeInsert, OnAfterInsert, OnBeforeUpdate := [], [], [];
      OnAfterUpdate, OnBeforeDelete, OnAfterDelete := [], [], [];
      Fired := [];
    }

    /** event += handler. */
    method Subscribe(kind: EventKind, handler: Handler)
      modifies this`OnBeforeInsert, this`OnAfterInsert, this`OnBeforeUpdate
      modifies this`OnAfterUpdate, this`OnBeforeDelete, this`OnAfterDelete
      ensures Handlers(kind) == old(Handlers(kind)) + [handler]
      ensures forall other :: other != kind ==> Handlers(other) == old(Handlers(other))
    {
      match kind
      case BeforeInsert => OnBeforeInsert := OnBeforeInsert + [handler];
      case AfterInsert => OnAfterInsert := OnAfterInsert + [handler];
      case BeforeUpdate => OnBeforeUpdate := OnBeforeUpdate + [handler];
      case AfterUpdate => OnAfterUpdate := OnAfterUpdate + [handler];
      case BeforeDelete => OnBeforeDelete := OnBeforeDelete + [handler];
      case AfterDelete => OnAfterDelete := OnAfterDelete + [handler];
    }

    /** Raises an event: each subscribed handler runs in turn on the one args object. */
    method Raise(kind: EventKind, args: EntityEventArgs)
      modifies args, args.Entity, this`Fired
      ensures Fired == old(Fired) + [Firing(kind, args, old(args.Entity.State()))]
      ensures HookState(args.Entity.State(), args.Cancel)
        == RunHandlers(Handlers(kind), HookState(old(args.Entity.State()), old(args.Cancel)))
    {
      Fired := Fired + [Firing(kind, args, args.Entity.State())];
      var handlers := Handlers(kind);
      ghost var start := HookState(args.Entity.State(), args.Cancel);
      var i := 0;
      while i < |handlers|
        modifies args, args.Entity
        invariant 0 <= i <= |handlers|
        invariant HookState(args.Entity.State(), args.Cancel) == RunHandlers(handlers[..i], start)
      {
        assert handlers[..i + 1][..i] == handlers[..i];
        var next := handlers[i](HookState(args.Entity.State(), args.Cancel));
        args.Entity.RowId := next.entity.rowId;
        args.Entity.Values := next.entity.values;
        args.Cancel := next.cancel;
        i := i + 1;
      }
      assert handlers[..i] == handlers;
    }

    /**
     * Insert: the before-insert handlers may cancel (nothing is stored and 0
     * is returned); otherwise the row is inserted, the entity takes the new
     * RowId, the after-insert handlers see the same args, and 1 is returned.
     */
    method Insert(entity: Entity) returns (r: Result<int, SetError>)
      requires Live() && Db().Valid()
      modifies entity, this`Fired, Context.Connection`tables, Context.Connection`Executed
      ensures Db().Valid()
      ensures FiredFirst(BeforeInsert, |old(Fired)|, entity, old(entity.State()))
      ensures Fired[..|old(Fired)|] == old(Fired)
      ensures
        var before := RunHandlers(OnBeforeInsert, HookState(old(entity.State()), false));
        var row := Bind(PropertyNames, before.entity.values);
        var answer := old(Db().InsertAnswer(TableName, row));
        if before.cancel then
          r == Success(0) && entity.State() == before.entity && |Fired| == |old(Fired)| + 1
          && Db().tables == old(Db().tables) && Db().Executed == old(Db().Executed)
        else if answer.Failure? then
          r == Failure(StoreFailure(answer.error)) && entity.State() == before.entity
          && |Fired| == |old(Fired)| + 1
          && Db().tables == old(Db().tables) && Db().Executed == old(Db().Executed) + [InsertDefinition]
        else
          var stored := EntityState(answer.value[0], before.entity.values);
          r == Success(1)
          && entity.State() == RunHandlers(OnAfterInsert, HookState(stored, false)).entity
          && |Fired| == |old(Fired)| + 2
          && Fired[|old(Fired)| + 1] == Firing(AfterInsert, Fired[|old(Fired)|].args, stored)
          && Db().Executed == old(Db().Executed) + [InsertDefinition]
          && Db().tables == old(Db().tables)[TableName := Inserted(old(Db().tables)[TableName], row)]
    {
      var args := new EntityEventArgs(entity, this);
      Raise(BeforeInsert, args);
      if args.Cancel {
        return Success(0);
      }
      var result := Context.Connection.Insert(InsertDefinition, TableName, Bind(PropertyNames, entity.Values));
      if result.Failure? {
        return Failure(StoreFailure(result.error));
      }
      entity.RowId := if result.value == [] then 0 else result.value[0];
      Raise(AfterInsert, args);
      r := Success(1);
    }

    /**
     * InsertAsync: as Insert, except that when the database yields no RowId
     * the call returns 0 and no after-insert event is raised.
     */
    method InsertAsync(entity: Entity) returns (r: Result<int, SetError>)
      requires Live() && Db().Valid()
      modifies entity, this`Fired, Context.Connection`tables, Context.Connection`Executed
      ensures Db().Valid()
      ensures FiredFirst(BeforeInsert, |old(Fired)|, entity, old(entity.State()))
      ensures Fired[..|old(Fired)|] == old(Fired)
      ensures
        var before := RunHandlers(OnBeforeInsert, HookState(old(entity.State()), false));
        var row := Bind(PropertyNames, before.entity.values);
        var answer := old(Db().InsertAnswer(TableName, row));
        if before.cancel then
          r == Success(0) && entity.State() == before.entity && |Fired| == |old(Fired)| + 1
          && Db().tables == old(Db().tables) && Db().Executed == old(Db().Executed)
        else if answer.Failure? then
          r == Failure(StoreFailure(answer.error)) && entity.State() == before.entity
          && |Fired| == |old(Fired)| + 1
          && Db().tables == old(Db().tables) && Db().Executed == old(Db().Executed) + [InsertDefinition]
        else
          var stored := EntityState(answer.value[0], before.entity.values);
          r == Success(1)
          && entity.State() == RunHandlers(OnAfterInsert, HookState(stored, false)).entity
          && |Fired| == |old(Fired)| + 2
          && Fired[|old(Fired)| + 1] == Firing(AfterInsert, Fired[|old(Fired)|].args, stored)
          && Db().Executed == old(Db().Executed) + [InsertDefinition]
          && Db().tables == old(Db().tables)[TableName := Inserted(old(Db().tables)[TableName], row)]
    {
      var args := new EntityEventArgs(entity, this);
      Raise(BeforeInsert, args);
      if args.Cancel {
        return Success(0);
      }
      var result := Context.Connection.Insert(InsertDefinition, TableName, Bind(PropertyNames, entity.Values));
      if result.Failure? {
        return Failure(StoreFailure(result.error));
      }
      var inserted := CompleteInsertAsync(args, result.value);
      r := Success(inserted);
    }

    /** The continuation of InsertAsync once the query has answered with the ids. */
    method CompleteInsertAsync(args: EntityEventArgs, ids: seq<int>) returns (inserted: int)
      modifies args, args.Entity, this`Fired
      ensures ids == [] ==>
        inserted == 0 && args.Entity.State() == old(args.Entity.State()) && args.Cancel == old(args.Cancel)
        && Fired == old(Fired)
      ensures ids != [] ==>
        var stored := EntityState(ids[0], old(args.Entity.Values));
        inserted == 1
        && HookState(args.Entity.State(), args.Cancel) == RunHandlers(OnAfterInsert, HookState(stored, old(args.Cancel)))
        && Fired == old(Fired) + [Firing(AfterInsert, args, stored)]
    {
      if ids == [] {
        return 0;
      }
      args.Entity.RowId := ids[0];
      Raise(AfterInsert, args);
      inserted := 1;
    }

    /**
     * Update: the before-update handlers may cancel (0); otherwise the row
     * with the entity's RowId is rewritten from its properties, the
     * after-update handlers run on the same args, and the database's count of
     * affected rows is returned. Update itself never assigns RowId.
     */
    method Update(entity: Entity) returns (r: Result<int, SetError>)
      requires Live() && Db().Valid()
      modifies entity, this`Fired, Context.Connection`tables, Context.Connection`Executed
      ensures Db().Valid()
      ensures FiredFirst(BeforeUpdate, |old(Fired)|, entity, old(entity.State()))
      ensures Fired[..|old(Fired)|] == old(Fired)
      ensures
        var before := RunHandlers(OnBeforeUpdate, HookState(old(entity.State()), false));
        var row := Bind(PropertyNames, before.entity.values);
        var answer := old(Db().UpdateAnswer(TableName, before.entity.rowId, row));
        if before.cancel then
          r == Success(0) && entity.State() == before.entity && |Fired| == |old(Fired)| + 1
          && Db().tables == old(Db().tables) && Db().Executed == old(Db().Executed)
        else if answer.Failure? then
          r == Failure(StoreFailure(answer.error)) && entity.State() == before.entity
          && |Fired| == |old(Fired)| + 1
          && Db().tables == old(Db().tables) && Db().Executed == old(Db().Executed) + [UpdateDefinition]
        else
          var t := old(Db().tables)[TableName];
          r == Success(answer.value)
          && entity.State() == RunHandlers(OnAfterUpdate, HookState(before.entity, false)).entity
          && |Fired| == |old(Fired)| + 2
          && Fired[|old(Fired)| + 1] == Firing(AfterUpdate, Fired[|old(Fired)|].args, before.entity)
          && Db().Executed == old(Db().Executed) + [UpdateDefinition]
          && Db().tables == old(Db().tables)[TableName := Updated(t, before.entity.rowId, row)]
    {
      var args := new EntityEventArgs(entity, this);
      Raise(BeforeUpdate, args);
      if args.Cancel {
        return Success(0);
      }
      var result := Context.Connection.UpdateRow(UpdateDefinition, TableName, entity.RowId, Bind(PropertyNames, entity.Values));
      if result.Failure? {
        return Failure(StoreFailure(result.error));
      }
      Raise(AfterUpdate, args);
      r := Success(result.value);
    }

    /**
     * Delete: an entity whose RowId is 0 is refused before any handler runs;
     * otherwise the before-delete handlers may cancel (0), or the row with
     * the entity's RowId is deleted, the entity's RowId goes back to 0, the
     * after-delete handlers run on the same args, and the affected count is
     * returned.
     */
    method Delete(entity: Entity) returns (r: Result<int, SetError>)
      requires entity.RowId != 0 ==> Live() && Db().Valid()
      modifies entity, this`Fired, Connections()`tables, Connections()`Executed
      ensures old(entity.RowId) == 0 ==>
        r == Failure(ArgumentError(IdentityColumn)) && entity.State() == old(entity.State())
        && Fired == old(Fired) && unchanged(Connections())
      ensures old(entity.RowId) != 0 ==> Db().Valid()
      ensures old(entity.RowId) != 0 ==>
        FiredFirst(BeforeDelete, |old(Fired)|, entity, old(entity.State())) && Fired[..|old(Fired)|] == old(Fired)
      ensures old(entity.RowId) != 0 ==>
        var before := RunHandlers(OnBeforeDelete, HookState(old(entity.State()), false));
        var answer := old(Db().DeleteAnswer(TableName, before.entity.rowId));
        if before.cancel then
          r == Success(0) && entity.State() == before.entity && |Fired| == |old(Fired)| + 1
          && Db().tables == old(Db().tables) && Db().Executed == old(Db().Executed)
        else if answer.Failure? then
          r == Failure(StoreFailure(answer.error)) && entity.State() == before.entity
          && |Fired| == |old(Fired)| + 1
          && Db().tables == old(Db().tables) && Db().Executed == old(Db().Executed) + [DeleteDefinition]
        else
          var t := old(Db().tables)[TableName];
          var cleared := EntityState(0, before.entity.values);
          r == Success(answer.value)
          && entity.State() == RunHandlers(OnAfterDelete, HookState(cleared, false)).entity
          && |Fired| == |old(Fired)| + 2
          && Fired[|old(Fired)| + 1] == Firing(AfterDelete, Fired[|old(Fired)|].args, cleared)
          && Db().Executed == old(Db().Executed) + [DeleteDefinition]
          && Db().tables == old(Db().tables)[TableName := Deleted(t, before.entity.rowId)]
    {
      if entity.RowId == 0 {
        return Failure(ArgumentError(IdentityColumn));
      }
      var args := new EntityEventArgs(entity, this);
      Raise(BeforeDelete, args);
      if args.Cancel {
        return Success(0);
      }
      var result := Context.Connection.DeleteRow(DeleteDefinition, TableName, entity.RowId);
      if result.Failure? {
        return Failure(StoreFailure(result.error));
      }
      entity.RowId := 0;
      Raise(AfterDelete, args);
      r := Success(result.value);
    }

    /**
     * InsertRange: a null or empty sequence is refused; otherwise one
     * statement inserts every entity, without raising any event and without
     * assigning any RowId. Each value goes into the statement as a '...'
     * literal, so the table receives its text (a null as the empty text).
     */
    method InsertRange(entities: seq<Entity>) returns (r: Outcome<SetError>)
      requires entities != [] ==> Live() && Db().Valid()
      modifies Connections()`tables, Connections()`Executed
      ensures Fired == old(Fired)
      ensures forall k :: 0 <= k < |entities| ==> entities[k].State() == old(entities[k].State())
      ensures entities == [] ==> r == Fail(ArgumentNull("entities")) && unchanged(Connections())
      ensures entities != [] ==> Db().Valid()
      ensures entities != [] ==>
        var rows := RowsOf(PropertyNames, entities);
        var answer := old(Db().InsertAllAnswer(TableName, rows));
        Db().Executed == old(Db().Executed) + [InsertRangeCommand(TableName, PropertyNames, rows)]
        && (answer.Failure? ==> r == Fail(StoreFailure(answer.error)) && Db().tables == old(Db().tables))
        && (answer.Success? ==>
              r == Pass && Db().tables == old(Db().tables)[TableName := AppendAll(old(Db().tables)[TableName], rows)])
    {
      if entities == [] {
        return Fail(ArgumentNull("entities"));
      }
      var rows := RowsOf(PropertyNames, entities);
      var command := InsertRangeCommand(TableName, PropertyNames, rows);
      var db := Context.Connection;
      ghost var answer := db.InsertAllAnswer(TableName, rows);
      var result := db.InsertAll(command, TableName, rows);
      assert result == answer && db == Db();
      if result.Failure? {
        return Fail(StoreFailure(result.error));
      }
      r := Pass;
    }

    /** The command text Select sends for a WHERE clause. */
    function SelectCommand(w: Where): (r: string)
      reads this
      ensures StartsWith(r, SelectDefinition + " WHERE ") && EndsWith(r, WhereText(w))
      ensures w == AllRows ==> r == SelectDefinition + " WHERE 1 = 1"
    {
      SelectDefinition + " WHERE " + WhereText(w)
    }

    /**
     * Select: the rows of the set's table that satisfy the clause, listed
     * in RowId order by the model (the SELECT has no ORDER BY); an error
     * when the statement names a missing table or column or does not
     * compile, whatever rows the table holds.
     */
    function Select(w: Where): (r: Result<seq<StoredRow>, StoreError>)
      requires Live()
      reads this, Context, Context.Connection
      ensures r == Failure(NoSuchTable) <==> TableName !in Db().tables
      ensures TableName in Db().tables ==>
        (r.Failure? <==> WhereError(w, Db().tables[TableName].columns, Db().rawValid).Some?)
      ensures r.Success? ==> forall k :: 0 <= k < |r.value| ==>
        r.value[k] in Db().tables[TableName].rows && Matches(w, r.value[k], Db().rawWhere)
      ensures r.Success? ==> forall k :: 0 <= k < |Db().tables[TableName].rows| ==>
        Matches(w, Db().tables[TableName].rows[k], Db().rawWhere) ==> Db().tables[TableName].rows[k] in r.value
    {
      Db().Query(TableName, w)
    }

    /** SelectAll: Select with "1 = 1", which is every row of the table. */
    function SelectAll(): (r: Result<seq<StoredRow>, StoreError>)
      requires Live()
      reads this, Context, Context.Connection
      ensures r.Success? <==> TableName in Db().tables
      ensures r.Success? ==> r.value == Db().tables[TableName].rows
    {
      Select(AllRows)
    }

    /** Single: the row with the given RowId, or None. */
    function Single(rowId: int): (r: Result<Option<StoredRow>, StoreError>)
      requires Live()
      reads this, Context, Context.Connection
      ensures r.Success? <==> TableName in Db().tables
      ensures r.Success? && r.value.Some? ==>
        r.value.value.id == rowId && r.value.value in Db().tables[TableName].rows
      ensures r.Success? && r.value.None? ==>
        forall k :: 0 <= k < |Db().tables[TableName].rows| ==> Db().tables[TableName].rows[k].id != rowId
    {
      match Select(RowIdIs(rowId))
      case Failure(e) => Failure(e)
      case Success(rows) => Success(First(rows))
    }

    /** FirstOrDefault: the first row whose field has the value, or None. */
    function FirstOrDefault(field: string, value: Value): (r: Result<Option<StoredRow>, StoreError>)
      requires Live()
      reads this, Context, Context.Connection
      ensures r.Success? <==>
        TableName in Db().tables && (field == IdentityColumn || field in Db().tables[TableName].columns)
      ensures r == Failure(NoSuchColumn) <==>
        TableName in Db().tables && field != IdentityColumn && field !in Db().tables[TableName].columns
      ensures r.Success? && r.value.Some? ==>
        r.value.value in Db().tables[TableName].rows
        && Matches(FieldIs(field, value), r.value.value, Db().rawWhere)
      ensures r.Success? && r.value.None? ==>
        forall k :: 0 <= k < |Db().tables[TableName].rows| ==>
          !Matches(FieldIs(field, value), Db().tables[TableName].rows[k], Db().rawWhere)
      ensures r.Success? && value == NullValue ==> r.value.None?
    {
      match Select(FieldIs(field, value))
      case Failure(e) => Failure(e)
      case Success(rows) => Success(First(rows))
    }

    /** The command text Count sends: a count over the whole table, with no WHERE. */
    function CountCommand(): (r: string)
      reads this
      ensures StartsWith(r, "SELECT COUNT(*) FROM [") && EndsWith(r, TableName + "]")
    {
      "SELECT COUNT(*) FROM [" + TableName + "]"
    }

    /** Count: the number of rows SelectAll returns. */
    function Count(): (r: Result<int, StoreError>)
      requires Live()
      reads this, Context, Context.Connection
      ensures r.Success? <==> SelectAll().Success?
      ensures r.Success? ==> r.value == |SelectAll().value|
    {
      Db().CountRows(TableName)
    }
  }

  /** The row one literal SELECT of InsertRange yields: every mapped property as the text between its quotes. */
  function LiteralRow(names: seq<string>, values: Row): Row {
    map n | n in names :: TextValue(ValueText(if n in values then values[n] else NullValue))
  }

  /** The rows InsertRange's SELECTs yield, one per entity, in order. */
  function RowsOf(names: seq<string>, entities: seq<Entity>): (rows: seq<Row>)
    reads set k | 0 <= k < |entities| :: entities[k]
    ensures |rows| == |entities|
    ensures forall k :: 0 <= k < |entities| ==> rows[k] == LiteralRow(names, entities[k].Values)
    decreases |entities|
  {
    if entities == [] then []
    else RowsOf(names, entities[..|entities| - 1]) + [LiteralRow(names, entities[|entities| - 1].Values)]
  }

  /**
   * What InsertRange stores for a mapped property: a null becomes the empty
   * text, text is kept as it is, and an integer becomes its decimal text,
   * from which the integer reads back.
   */
  lemma LiteralRowValues(names: seq<string>, values: Row, n: string)
    requires n in names
    ensures n in LiteralRow(names, values)
    ensures (n !in values || values[n] == NullValue) ==> LiteralRow(names, values)[n] == TextValue("")
    ensures n in values && values[n].TextValue? ==> LiteralRow(names, values)[n] == values[n]
    ensures n in values && values[n].IntegerValue? ==>
      LiteralRow(names, values)[n].TextValue? && ParseInt(LiteralRow(names, values)[n].s) == values[n].i
  {
    if n in values && values[n].IntegerValue? {
      IntToStringRoundTrip(values[n].i);
    }
  }

  // ---------------------------------------------------------------------------
  // What the handlers can and cannot do

  /** Subscribing b after a runs a's handlers first, then b's, on the same args. */
  lemma {:induction false} RunHandlersAppend(a: seq<Handler>, b: seq<Handler>, s: HookState)
    ensures RunHandlers(a + b, s) == RunHandlers(b, RunHandlers(a, s))
    decreases |b|
  {
    if b != [] {
      var b0 := b[..|b| - 1];
      assert (a + b)[..|a + b| - 1] == a + b0;
      RunHandlersAppend(a, b0, s);
    } else {
      assert a + b == a;
    }
  }

  /** A handler that leaves RowId alone. */
  ghost predicate KeepsRowId(h: Handler) {
    forall st: HookState :: h(st).entity.rowId == st.entity.rowId
  }

  /** A handler that never sets Cancel (it may still clear it). */
  ghost predicate NeverCancels(h: Handler) {
    forall st: HookState :: !st.cancel ==> !h(st).cancel
  }

  /** Handlers that all leave RowId alone leave it alone together. */
  lemma {:induction false} HandlersKeepRowId(hs: seq<Handler>, s: HookState)
    requires forall k :: 0 <= k < |hs| ==> KeepsRowId(hs[k])
    ensures RunHandlers(hs, s).entity.rowId == s.entity.rowId
    decreases |hs|
  {
    if hs != [] {
      var init := hs[..|hs| - 1];
      assert forall k :: 0 <= k < |init| ==> init[k] == hs[k];
      HandlersKeepRowId(init, s);
      assert KeepsRowId(hs[|hs| - 1]);
    }
  }

  /** With no handler that sets Cancel, an operation is never cancelled. */
  lemma {:induction false} HandlersNeverCancel(hs: seq<Handler>, e: EntityState)
    requires forall k :: 0 <= k < |hs| ==> NeverCancels(hs[k])
    ensures !RunHandlers(hs, HookState(e, false)).cancel
    decreases |hs|
  {
    if hs != [] {
      var init := hs[..|hs| - 1];
      assert forall k :: 0 <= k < |init| ==> init[k] == hs[k];
      HandlersNeverCancel(init, e);
      assert NeverCancels(hs[|hs| - 1]);
    }
  }

  /**
   * Update never assigns RowId: when neither the before- nor the
   * after-update handlers change it, the entity leaves Update with the RowId
   * it came with.
   */
  lemma UpdateKeepsRowId(before: seq<Handler>, after: seq<Handler>, e: EntityState)
    requires forall k :: 0 <= k < |before| ==> KeepsRowId(before[k])
    requires forall k :: 0 <= k < |after| ==> KeepsRowId(after[k])
    ensures RunHandlers(after, HookState(RunHandlers(before, HookState(e, false)).entity, false)).entity.rowId == e.rowId
  {
    var mid := RunHandlers(before, HookState(e, false));
    HandlersKeepRowId(before, HookState(e, false));
    HandlersKeepRowId(after, HookState(mid.entity, false));
  }

  /**
   * A stored entity ends Insert with the RowId the database assigned when the
   * after-insert handlers leave RowId alone.
   */
  lemma InsertAssignsRowId(after: seq<Handler>, id: int, values: Row)
    requires forall k :: 0 <= k < |after| ==> KeepsRowId(after[k])
    ensures RunHandlers(after, HookState(EntityState(id, values), false)).entity.rowId == id
  {
    HandlersKeepRowId(after, HookState(EntityState(id, values), false));
  }

  // ---------------------------------------------------------------------------
  // Contexts

  /** The ILog of a legacy context. */
  datatype Logger = NullLog | Log(name: string)

  /** Errors the context operations throw. */
  datatype ContextError = ArgumentOutOfRange

  /** Why the constructor threw: a set type Build refuses, or a schema script the database refuses. */
  datatype CreateError = InvalidEntitySet(definitionError: DefinitionError) | SchemaRefused(storeError: StoreError)

  /** The properties whose type is LiteDbSet<...>, in declaration order. */
  function EntitySetProperties(ps: seq<ContextProperty>): (r: seq<ContextProperty>)
    ensures forall k :: 0 <= k < |r| ==> r[k].propertyType.EntitySetOf?
    ensures forall p :: p in r <==> p in ps && p.propertyType.EntitySetOf?
    ensures UniqueNames(ps) ==> UniqueNames(r)
    decreases |ps|
  {
    if ps == [] then []
    else
      var init := ps[..|ps| - 1];
      var last := ps[|ps| - 1];
      assert forall k :: 0 <= k < |init| ==> init[k] == ps[k];
      var head := EntitySetProperties(init);
      var r := head + if last.propertyType.EntitySetOf? then [last] else [];
      assert UniqueNames(ps) ==> UniqueNames(r) by {
        if UniqueNames(ps) {
          assert UniqueNames(init);
          forall j, k | 0 <= j < k < |r| ensures r[j].name != r[k].name {
            assert r[j] == head[j];
            if k == |head| {
              var m :| 0 <= m < |init| && init[m] == head[j];
            }
          }
        }
      }
      r
  }

  /** The entity type of each set-typed property, by property name. */
  function SetTypes(props: seq<ContextProperty>): (m: map<string, TypeDescriptor>)
    requires forall k :: 0 <= k < |props| ==> props[k].propertyType.EntitySetOf?
    ensures forall k :: 0 <= k < |props| ==> props[k].name in m
    ensures UniqueNames(props) ==> forall k :: 0 <= k < |props| ==> m[props[k].name] == props[k].propertyType.entity
    decreases |props|
  {
    if props == [] then map[]
    else
      var init := props[..|props| - 1];
      var last := props[|props| - 1];
      assert forall k :: 0 <= k < |init| ==> init[k] == props[k];
      SetTypes(init)[last.name := last.propertyType.entity]
  }

  /** No two properties share a name. */
  predicate UniqueNames(ps: seq<ContextProperty>) {
    forall j, k {:trigger ps[j].name, ps[k].name} :: 0 <= j < k < |ps| ==> ps[j].name != ps[k].name
  }

  /** The property names of a list of properties. */
  function PropertyNamesOf(ps: seq<ContextProperty>): (names: seq<string>)
    ensures |names| == |ps| && forall k :: 0 <= k < |ps| ==> names[k] == ps[k].name
  {
    seq(|ps|, k requires 0 <= k < |ps| => ps[k].name)
  }

  /** The cache of set-typed properties per context type. */
  class PropertyTypeCache {
    var entries: map<ContextDescriptor, seq<ContextProperty>>

    ghost predicate Valid()
      reads this
    {
      forall c :: c in entries ==> entries[c] == EntitySetProperties(c.properties)
    }

    constructor ()
      ensures entries == map[] && Valid()
    {
      entries := map[];
    }

    /** The set-typed properties of a context type, computed on the first request only. */
    method Retrieve(c: ContextDescriptor) returns (ps: seq<ContextProperty>)
      requires Valid()
      modifies this`entries
      ensures Valid()
      ensures ps == EntitySetProperties(c.properties)
      ensures c in old(entries) ==> entries == old(entries)
      ensures c !in old(entries) ==> entries == old(entries)[c := ps]
    {
      if c in entries {
        ps := entries[c];
      } else {
        ps := EntitySetProperties(c.properties);
        entries := entries[c := ps];
      }
    }
  }

  /** The process-wide map of live contexts by UniqueId. */
  class ContextRegistry {
    var Instances: map<int, LiteDbContext>

    constructor ()
      ensures Instances == map[]
    {
      Instances := map[];
    }
  }

  /** The first of names whose set has the element type, if any. */
  function FirstSetOf(names: seq<string>, sets: map<string, EntitySet>, t: TypeDescriptor): (r: Option<nat>)
    requires forall k :: 0 <= k < |names| ==> names[k] in sets
    ensures r.Some? ==> r.value < |names| && sets[names[r.value]].ElementType == t
    ensures r.Some? ==> forall j :: 0 <= j < r.value ==> sets[names[j]].ElementType != t
    ensures r.None? <==> forall k :: 0 <= k < |names| ==> sets[names[k]].ElementType != t
    decreases |names|
  {
    if names == [] then None
    else if sets[names[0]].ElementType == t then Some(0)
    else
      match FirstSetOf(names[1..], sets, t)
      case None => None
      case Some(k) => Some(k + 1)
  }

  /**
   * The LiteDbSet constructor's LoadDefinitions: a set type already in the
   * cache gets the cached definitions; otherwise they are built, and the
   * cache keeps them. A type with no mappable property throws.
   */
  method LoadDefinitions(elementType: TypeDescriptor, cache: DefinitionCache)
    returns (r: Result<DefinitionCacheItem, DefinitionError>)
    requires cache.Valid()
    modifies cache`entries
    ensures cache.Valid()
    ensures r == BuildDefinition(elementType)
    ensures elementType in old(cache.entries) || r.Failure? ==> cache.entries == old(cache.entries)
    ensures elementType !in old(cache.entries) && r.Success? ==>
      cache.entries == old(cache.entries)[elementType := r.value]
  {
    var builder := new TypeDefinition();
    r := builder.Build(elementType, cache);
  }

  /**
   * Activator.CreateInstance of LiteDbSet<T>, whose constructor loads the
   * definitions, followed by the assignments of Context and EntityType.
   */
  method CreateSet(elementType: TypeDescriptor, cache: DefinitionCache, context: LiteDbContext?,
                   entityType: Option<TypeDescriptor>)
    returns (r: Result<EntitySet, DefinitionError>)
    requires cache.Valid()
    modifies cache`entries
    ensures cache.Valid()
    ensures r.Success? <==> BuildDefinition(elementType).Success?
    ensures r.Success? ==>
      fresh(r.value) && r.value.ElementType == elementType && r.value.Loaded()
      && r.value.Context == context && r.value.EntityType == entityType && r.value.Fired == []
  {
    var d := LoadDefinitions(elementType, cache);
    if d.Failure? {
      return Failure(d.error);
    }
    var entitySet := new EntitySet(elementType, d.value, context, entityType);
    r := Success(entitySet);
  }

  /**
   * A set-typed property whose entity type has no property to map, so that
   * building its definitions throws and no set can be created for it.
   */
  predicate Unbuildable(p: ContextProperty) {
    p.propertyType.EntitySetOf? && MappedNames(p.propertyType.entity.properties) == []
  }

  /** No set property of props is unbuildable. */
  predicate AllBuildable(props: seq<ContextProperty>) {
    forall k :: 0 <= k < |props| ==> !Unbuildable(props[k])
  }

  /** A name-to-set map and the order its keys were added in agree, each name once. */
  predicate IndexedBy(names: seq<string>, sets: map<string, EntitySet>) {
    (forall k :: 0 <= k < |names| ==> names[k] in sets)
    && (forall n {:trigger n in sets} :: n in sets ==> n in names)
    && (forall j, k :: 0 <= j < k < |names| ==> names[j] != names[k])
  }

  /**
   * Registering the properties' names in order, one set each, leaves the map
   * and its key order in agreement when no two properties share a name.
   */
  lemma NamesIndexed(props: seq<ContextProperty>, names: seq<string>, sets: map<string, EntitySet>)
    requires UniqueNames(props)
    requires |names| == |props| && forall k :: 0 <= k < |props| ==> names[k] == props[k].name
    requires forall k :: 0 <= k < |props| ==> props[k].name in sets
    requires forall n :: n in sets ==> n in names
    ensures IndexedBy(names, sets)
  {
  }

  /** Appending the next property's name keeps the names those of the properties so far. */
  lemma NamesSnoc(props: seq<ContextProperty>, names: seq<string>, i: nat)
    requires i < |props| && |names| == i && forall k :: 0 <= k < i ==> names[k] == props[k].name
    ensures |names + [props[i].name]| == i + 1
    ensures forall k :: 0 <= k < i + 1 ==> (names + [props[i].name])[k] == props[k].name
  {
  }

  /** Every set in the map holds the definitions built for its entity type. */
  predicate AllLoaded(sets: map<string, EntitySet>) {
    forall n :: n in sets ==> sets[n].Loaded()
  }

  /** Every set in the map has the entity type of the property it is kept under. */
  predicate TypedBy(sets: map<string, EntitySet>, types: map<string, TypeDescriptor>) {
    forall n :: n in sets ==> n in types && sets[n].ElementType == types[n]
  }

  /** The TableDefinition of the set kept under each name, in order. */
  function DefinitionsOf(names: seq<string>, sets: map<string, EntitySet>): (r: seq<string>)
    requires forall k :: 0 <= k < |names| ==> names[k] in sets
  {
    seq(|names|, k requires 0 <= k < |names| => sets[names[k]].TableDefinition)
  }

  /** The TableName of the set kept under each name, in order. */
  function TableNamesOf(names: seq<string>, sets: map<string, EntitySet>): (r: seq<string>)
    requires forall k :: 0 <= k < |names| ==> names[k] in sets
  {
    seq(|names|, k requires 0 <= k < |names| => sets[names[k]].TableName)
  }

  /** The table shape of the set kept under each name, in order. */
  function ShapesOf(names: seq<string>, sets: map<string, EntitySet>): (r: seq<TableShape>)
    requires forall k :: 0 <= k < |names| ==> names[k] in sets
  {
    seq(|names|, k requires 0 <= k < |names| => sets[names[k]].Shape())
  }

  /** The entity type of each set property, in declaration order. */
  function EntityTypesOf(props: seq<ContextProperty>): (r: seq<TypeDescriptor>)
    requires forall k :: 0 <= k < |props| ==> props[k].propertyType.EntitySetOf?
  {
    seq(|props|, k requires 0 <= k < |props| => props[k].propertyType.entity)
  }

  /** The element type of the set kept under each name, in order. */
  function ElementTypesOf(names: seq<string>, sets: map<string, EntitySet>): (r: seq<TypeDescriptor>)
    requires forall k :: 0 <= k < |names| ==> names[k] in sets
  {
    seq(|names|, k requires 0 <= k < |names| => sets[names[k]].ElementType)
  }

  /** The CREATE TABLE statement built for an entity type; empty when none can be built. */
  function CreateTableOf(t: TypeDescriptor): string {
    match BuildDefinition(t)
    case Success(d) => d.TableDefinition
    case Failure(_) => ""
  }

  /** The table name built for an entity type; empty when none can be built. */
  function TableNameOf(t: TypeDescriptor): string {
    match BuildDefinition(t)
    case Success(d) => d.TableName
    case Failure(_) => ""
  }

  /** The schema of a sequence of entity types: their CREATE TABLE statements, in order. */
  function Schema(ts: seq<TypeDescriptor>): seq<string> {
    seq(|ts|, k requires 0 <= k < |ts| => CreateTableOf(ts[k]))
  }

  /**
   * Once LoadEntitySets has registered one set per set property, in
   * declaration order and each of its property's entity type, the sets'
   * element types are the properties' entity types.
   */
  lemma LoadedTypes(props: seq<ContextProperty>, names: seq<string>, sets: map<string, EntitySet>)
    requires forall k :: 0 <= k < |props| ==> props[k].propertyType.EntitySetOf?
    requires UniqueNames(props) && names == PropertyNamesOf(props)
    requires IndexedBy(names, sets) && TypedBy(sets, SetTypes(props))
    ensures ElementTypesOf(names, sets) == EntityTypesOf(props)
  {
  }

  /** LiteDbContext. */
  class LiteDbContext {
    const ContextType: ContextDescriptor
    /** The static Intances map shared by every context. */
    const Registry: ContextRegistry

    /** _entitySets, and the order its keys were added in. */
    var EntitySets: map<string, EntitySet>
    var SetNames: seq<string>

    var Connection: SqliteConnection?
    var UniqueId: int
    var Logger: Logger
    var isDisposing: bool

    /** How many times OnDatabaseCreated has been raised. */
    ghost var DatabaseCreatedEvents: nat

    /** The state right after the field initialisers. */
    constructor (contextType: ContextDescriptor, registry: ContextRegistry, logger: Option<Logger>)
      ensures ContextType == contextType && Registry == registry
      ensures EntitySets == map[] && SetNames == [] && Connection == null && !isDisposing
      ensures DatabaseCreatedEvents == 0 && Logger == logger.GetOr(NullLog)
    {
      ContextType := contextType;
      Registry := registry;
      EntitySets := map[];
      SetNames := [];
      Connection := null;
      UniqueId := 0;
      Logger := logger.GetOr(NullLog);
      isDisposing := false;
      DatabaseCreatedEvents := 0;
    }

    /** A set that knows this context and its own entity type, and holds its definitions. */
    predicate Registered(s: EntitySet) {
      s.Context == this && s.EntityType == Some(s.ElementType)
    }

    /** Every set in the map is registered with this context. */
    predicate AllRegistered(sets: map<string, EntitySet>) {
      forall n :: n in sets ==> Registered(sets[n])
    }

    /**
     * What LoadEntitySets leaves: every registered set is kept under the
     * name of a set property whose entity type it has, knows this context
     * and holds its definitions.
     */
    predicate SetsLoaded(types: map<string, TypeDescriptor>)
      reads this`SetNames, this`EntitySets
    {
      IndexedBy(SetNames, EntitySets) && TypedBy(EntitySets, types) && AllRegistered(EntitySets)
    }

    /**
     * What the constructor's LoadEntitySets leaves for the set properties
     * props of the context type: one registered set per property, in
     * declaration order, each of the property's entity type.
     */
    predicate LoadedFrom(props: seq<ContextProperty>)
      reads this`SetNames, this`EntitySets
    {
      (forall k :: 0 <= k < |props| ==> props[k].propertyType.EntitySetOf?)
      && SetNames == PropertyNamesOf(props) && SetsLoaded(SetTypes(props))
      && ElementTypesOf(SetNames, EntitySets) == EntityTypesOf(props)
    }

    /**
     * One pass of the LoadEntitySets loop: a new set of the property's entity
     * type is created, given this context and its entity type, and registered
     * under the property name.
     */
    method RegisterSet(name: string, entity: TypeDescriptor, cache: DefinitionCache, ghost types: map<string, TypeDescriptor>)
      returns (r: Outcome<DefinitionError>)
      requires cache.Valid() && TypedBy(EntitySets, types) && AllRegistered(EntitySets) && AllLoaded(EntitySets)
      requires name in types && types[name] == entity && name !in EntitySets
      modifies this`EntitySets, this`SetNames, cache`entries
      ensures cache.Valid()
      ensures r.Fail? <==> BuildDefinition(entity).Failure?
      ensures r.Pass? ==> TypedBy(EntitySets, types) && AllRegistered(EntitySets) && AllLoaded(EntitySets)
      ensures r.Pass? ==> name in EntitySets && fresh(EntitySets[name])
      ensures r.Pass? ==> EntitySets == old(EntitySets)[name := EntitySets[name]]
      ensures r.Pass? ==> SetNames == old(SetNames) + [name]
    {
      var created := CreateSet(entity, cache, this, Some(entity));
      if created.Failure? {
        return Fail(created.error);
      }
      SetNames := SetNames + [name];
      EntitySets := EntitySets[name := created.value];
      r := Pass;
    }

    /**
     * What holds after the first i passes of the LoadEntitySets loop over
     * props: their names are registered in order, each with a set of its
     * entity type that is registered with this context, and nothing else is.
     */
    predicate LoadedUpTo(props: seq<ContextProperty>, i: nat, types: map<string, TypeDescriptor>)
      reads this`SetNames, this`EntitySets
    {
      i <= |props| && |SetNames| == i
      && (forall k :: 0 <= k < i ==> SetNames[k] == props[k].name && props[k].name in EntitySets)
      && (forall n :: n in EntitySets ==> n in SetNames)
      && TypedBy(EntitySets, types) && AllRegistered(EntitySets) && AllLoaded(EntitySets)
    }

    /** One pass of the LoadEntitySets loop, for the property props[i]. */
    method LoadStep(props: seq<ContextProperty>, i: nat, cache: DefinitionCache, ghost types: map<string, TypeDescriptor>)
      returns (r: Outcome<DefinitionError>)
      requires cache.Valid() && i < |props| && LoadedUpTo(props, i, types) && UniqueNames(props)
      requires props[i].propertyType.EntitySetOf?
      requires props[i].name in types && types[props[i].name] == props[i].propertyType.entity
      modifies this`EntitySets, this`SetNames, cache`entries
      ensures cache.Valid()
      ensures r.Fail? <==> Unbuildable(props[i])
      ensures r.Pass? ==> LoadedUpTo(props, i + 1, types)
      ensures r.Pass? ==> var name := props[i].name;
        name in EntitySets && fresh(EntitySets[name]) && EntitySets == old(EntitySets)[name := EntitySets[name]]
    {
      var p := props[i];
      assert p.name !in EntitySets by {
        forall k | 0 <= k < |SetNames| ensures SetNames[k] != p.name {
          assert props[k].name != props[i].name;
        }
      }
      NamesSnoc(props, SetNames, i);
      r := RegisterSet(p.name, p.propertyType.entity, cache, types);
      assert BuildDefinition(p.propertyType.entity).Failure? <==> Unbuildable(p);
    }

    /**
     * The LoadEntitySets loop over the set-typed properties props, whose
     * entity types are types.
     */
    method RegisterAll(props: seq<ContextProperty>, cache: DefinitionCache, ghost types: map<string, TypeDescriptor>)
      returns (r: Outcome<DefinitionError>)
      requires cache.Valid()
      requires forall k :: 0 <= k < |props| ==> props[k].propertyType.EntitySetOf?
      requires forall k :: 0 <= k < |props| ==> props[k].name in types && types[props[k].name] == props[k].propertyType.entity
      requires UniqueNames(props)
      requires EntitySets == map[] && SetNames == []
      modifies this`EntitySets, this`SetNames, cache`entries
      ensures cache.Valid()
      ensures r.Fail? <==> !AllBuildable(props)
      ensures r.Pass? ==> SetNames == PropertyNamesOf(props) && SetsLoaded(types) && AllLoaded(EntitySets)
      ensures r.Pass? ==> forall n :: n in EntitySets ==> fresh(EntitySets[n])
    {
      var i := 0;
      while i < |props|
        invariant 0 <= i <= |props| && cache.Valid() && LoadedUpTo(props, i, types)
        invariant forall k :: 0 <= k < i ==> !Unbuildable(props[k])
        invariant forall n :: n in EntitySets ==> fresh(EntitySets[n])
      {
        var step := LoadStep(props, i, cache, types);
        if step.Fail? {
          return step;
        }
        i := i + 1;
      }
      NamesIndexed(props, SetNames, EntitySets);
      r := Pass;
    }

    /**
     * LoadEntitySets: every LiteDbSet property of the context type, in
     * declaration order, is given a new set that knows this context and its
     * entity type, registered under the property's name. It throws when a
     * property's entity type has nothing to map.
     */
    method LoadEntitySets(typeCache: PropertyTypeCache, cache: DefinitionCache) returns (r: Outcome<DefinitionError>)
      requires typeCache.Valid() && cache.Valid()
      requires UniqueNames(ContextType.properties)
      requires EntitySets == map[] && SetNames == []
      modifies this`EntitySets, this`SetNames, typeCache`entries, cache`entries
      ensures typeCache.Valid() && cache.Valid()
      ensures var props := EntitySetProperties(ContextType.properties);
        r.Fail? <==> !AllBuildable(props)
      ensures var props := EntitySetProperties(ContextType.properties);
        r.Pass? ==> SetNames == PropertyNamesOf(props) && SetsLoaded(SetTypes(props)) && AllLoaded(EntitySets)
      ensures r.Pass? ==> forall n :: n in EntitySets ==> fresh(EntitySets[n])
    {
      var props := typeCache.Retrieve(ContextType);
      r := RegisterAll(props, cache, SetTypes(props));
    }

    /** The TableDefinition of every registered set, in registration order. */
    function TableDefinitions(): seq<string>
      requires IndexedBy(SetNames, EntitySets)
      reads this`SetNames, this`EntitySets
    {
      DefinitionsOf(SetNames, EntitySets)
    }

    /** The TableName of every registered set, in registration order. */
    function TableNames(): seq<string>
      requires IndexedBy(SetNames, EntitySets)
      reads this`SetNames, this`EntitySets
    {
      TableNamesOf(SetNames, EntitySets)
    }

    /** What each registered set's TableDefinition creates, in registration order. */
    function TableShapes(): seq<TableShape>
      requires IndexedBy(SetNames, EntitySets)
      reads this`SetNames, this`EntitySets
    {
      ShapesOf(SetNames, EntitySets)
    }

    /**
     * The definitions a registered set holds are those built for its element
     * type, so the sets' TableDefinitions and TableNames are the schema of
     * their element types.
     */
    lemma SchemaLoaded()
      requires IndexedBy(SetNames, EntitySets) && AllLoaded(EntitySets)
      ensures var ts := ElementTypesOf(SetNames, EntitySets);
        TableDefinitions() == Schema(ts)
        && forall k :: 0 <= k < |ts| ==> TableNames()[k] == TableNameOf(ts[k])
    {
      forall k | 0 <= k < |SetNames|
        ensures TableDefinitions()[k] == CreateTableOf(EntitySets[SetNames[k]].ElementType)
        ensures TableNames()[k] == TableNameOf(EntitySets[SetNames[k]].ElementType)
      {
        assert EntitySets[SetNames[k]].Loaded();
      }
    }

    /**
     * CreateDatabase: the schema script is every registered set's
     * TableDefinition, one per line in registration order, executed in one
     * transaction; OnDatabaseCreated is raised once it is committed. The
     * script creates each set's table when it does not exist yet, and runs
     * each set's index statements on whatever table has that name, so a
     * table shared by two sets, or one that existed before, takes its
     * UNIQUE columns from the whole script (Store.RunUnique). When the
     * database refuses the script, the exception leaves the transaction
     * uncommitted and no event is raised. The ghost parameters name the
     * sets' TableDefinitions and TableNames.
     */
    method CreateDatabase(ghost defs: seq<string>, ghost names: seq<string>) returns (r: Outcome<StoreError>)
      requires Connection != null && Connection.Valid() && IndexedBy(SetNames, EntitySets)
      requires defs == TableDefinitions() && names == TableNames()
      modifies Connection`tables, Connection`Executed, this`DatabaseCreatedEvents
      ensures Connection.Valid()
      ensures Connection.Executed == old(Connection.Executed) + [Lines(defs)]
      ensures r.Pass? <==> Connection.schemaAccepts(Lines(defs))
      ensures r.Fail? ==>
        Connection.tables == old(Connection.tables) && DatabaseCreatedEvents == old(DatabaseCreatedEvents)
      ensures r.Pass? ==> forall k :: 0 <= k < |names| ==> names[k] in Connection.tables
      ensures r.Pass? ==> Connection.tables == RunScript(old(Connection.tables), TableShapes())
      ensures r.Pass? ==> forall n :: n in old(Connection.tables) ==>
        (n in Connection.tables && Connection.tables[n].columns == old(Connection.tables)[n].columns
         && Connection.tables[n].rows == old(Connection.tables)[n].rows)
      ensures r.Pass? ==> forall k :: 0 <= k < |names| && names[k] !in old(Connection.tables) && FirstShape(TableShapes(), k) ==>
        Connection.tables[names[k]].columns == TableShapes()[k].columns && Connection.tables[names[k]].rows == []
      ensures r.Pass? ==> DatabaseCreatedEvents == old(DatabaseCreatedEvents) + 1
    {
      var ddl := AppendLines("", TableDefinitions());
      assert ddl == Lines(defs) by {
        assert "" + Lines(defs) == Lines(defs);
      }
      var shapes := TableShapes();
      r := Connection.ExecuteSchema(ddl, shapes);
      assert forall k :: 0 <= k < |names| ==> shapes[k].name == names[k];
      if r.Pass? {
        DatabaseCreatedEvents := DatabaseCreatedEvents + 1;
      }
    }

    /**
     * The part of the constructor after LoadEntitySets: the connection is
     * opened, the schema is created when the database did not exist, and the
     * context is registered under its new UniqueId. An exception out of
     * CreateDatabase ends the construction before the registration. The
     * ghost parameters name the sets' TableDefinitions and TableNames.
     */
    method Connect(connection: SqliteConnection, databaseExists: bool, newId: int,
                   ghost defs: seq<string>, ghost names: seq<string>) returns (r: Outcome<StoreError>)
      requires connection.Valid() && IndexedBy(SetNames, EntitySets)
      requires defs == TableDefinitions() && names == TableNames()
      modifies this`Connection, this`DatabaseCreatedEvents, this`UniqueId, Registry`Instances
      modifies connection`IsOpen, connection`tables, connection`Executed
      ensures Connection == connection && connection.IsOpen && connection.Valid()
      ensures SetNames == old(SetNames) && EntitySets == old(EntitySets)
      ensures r.Fail? <==> !databaseExists && !connection.schemaAccepts(Lines(defs))
      ensures r.Fail? ==>
        UniqueId == old(UniqueId) && Registry.Instances == old(Registry.Instances)
        && connection.tables == old(connection.tables) && connection.Executed == old(connection.Executed) + [Lines(defs)]
        && DatabaseCreatedEvents == old(DatabaseCreatedEvents)
      ensures r.Pass? ==> UniqueId == newId && Registry.Instances == old(Registry.Instances)[newId := this]
      ensures databaseExists ==>
        connection.tables == old(connection.tables) && connection.Executed == old(connection.Executed)
        && DatabaseCreatedEvents == old(DatabaseCreatedEvents)
      ensures !databaseExists && r.Pass? ==>
        connection.Executed == old(connection.Executed) + [Lines(defs)]
        && (forall k :: 0 <= k < |names| ==> names[k] in connection.tables)
        && DatabaseCreatedEvents == old(DatabaseCreatedEvents) + 1
    {
      Connection := connection;
      connection.Open();
      r := Pass;
      if !databaseExists {
        r := CreateDatabase(defs, names);
        if r.Fail? {
          return;
        }
      }
      UniqueId := newId;
      Registry.Instances := Registry.Instances[newId := this];
    }

    /**
     * The start of the LiteDbContext constructor: the field initialisers,
     * the logger, and LoadEntitySets, whose exception ends the construction.
     */
    static method LoadNew(contextType: ContextDescriptor, registry: ContextRegistry, logger: Option<Logger>,
                          typeCache: PropertyTypeCache, cache: DefinitionCache)
      returns (r: Result<LiteDbContext, DefinitionError>)
      requires typeCache.Valid() && cache.Valid()
      requires UniqueNames(contextType.properties)
      modifies typeCache`entries, cache`entries
      ensures typeCache.Valid() && cache.Valid()
      ensures var props := EntitySetProperties(contextType.properties);
        r.Failure? <==> !AllBuildable(props)
      ensures r.Success? ==> fresh(r.value)
      ensures r.Success? ==> r.value.ContextType == contextType && r.value.Registry == registry
      ensures r.Success? ==> r.value.Connection == null
      ensures r.Success? ==> !r.value.isDisposing
      ensures r.Success? ==> r.value.DatabaseCreatedEvents == 0
      ensures r.Success? ==> r.value.Logger == logger.GetOr(NullLog)
      ensures r.Success? ==> r.value.LoadedFrom(EntitySetProperties(contextType.properties))
      ensures r.Success? ==> var ts := EntityTypesOf(EntitySetProperties(contextType.properties));
        r.value.TableDefinitions() == Schema(ts)
        && forall k :: 0 <= k < |ts| ==> r.value.TableNames()[k] == TableNameOf(ts[k])
    {
      var context := new LiteDbContext(contextType, registry, logger);
      var loaded := context.LoadEntitySets(typeCache, cache);
      if loaded.Fail? {
        return Failure(loaded.error);
      }
      LoadedTypes(EntitySetProperties(contextType.properties), context.SetNames, context.EntitySets);
      context.SchemaLoaded();
      r := Success(context);
    }

    /**
     * The LiteDbContext constructor: the entity sets are loaded first, then
     * the connection is opened, the schema is created when the database did
     * not exist, and the context is registered under a new UniqueId. The
     * file system's answer, the new Guid and the connection are parameters.
     * An entity set that cannot be built, or a schema the database refuses,
     * ends the construction with an exception and nothing is registered.
     */
    static method Create(contextType: ContextDescriptor, registry: ContextRegistry, connection: SqliteConnection,
                         databaseExists: bool, newId: int, logger: Option<Logger>,
                         typeCache: PropertyTypeCache, cache: DefinitionCache)
      returns (r: Result<LiteDbContext, CreateError>)
      requires typeCache.Valid() && cache.Valid() && connection.Valid()
      requires UniqueNames(contextType.properties)
      modifies typeCache`entries, cache`entries, registry`Instances, connection`IsOpen, connection`tables, connection`Executed
      ensures typeCache.Valid() && cache.Valid() && connection.Valid()
      ensures var props := EntitySetProperties(contextType.properties);
        r.Failure? <==> !AllBuildable(props) || (!databaseExists && !connection.schemaAccepts(Lines(Schema(EntityTypesOf(props)))))
      ensures r.Failure? ==> (r.error.InvalidEntitySet? <==> !AllBuildable(EntitySetProperties(contextType.properties)))
      ensures r.Failure? ==> registry.Instances == old(registry.Instances) && connection.tables == old(connection.tables)
      ensures r.Failure? && r.error.InvalidEntitySet? ==>
        connection.IsOpen == old(connection.IsOpen) && connection.Executed == old(connection.Executed)
      ensures r.Failure? && r.error.SchemaRefused? ==> var ts := EntityTypesOf(EntitySetProperties(contextType.properties));
        connection.IsOpen && connection.Executed == old(connection.Executed) + [Lines(Schema(ts))]
      ensures r.Success? ==> fresh(r.value)
      ensures r.Success? ==> r.value.ContextType == contextType && r.value.Registry == registry
      ensures r.Success? ==> r.value.Connection == connection && connection.IsOpen
      ensures r.Success? ==> !r.value.isDisposing
      ensures r.Success? ==> r.value.UniqueId == newId && registry.Instances == old(registry.Instances)[newId := r.value]
      ensures r.Success? ==> r.value.Logger == logger.GetOr(NullLog)
      ensures r.Success? ==> r.value.LoadedFrom(EntitySetProperties(contextType.properties))
      ensures r.Success? && databaseExists ==>
        connection.tables == old(connection.tables) && connection.Executed == old(connection.Executed)
        && r.value.DatabaseCreatedEvents == 0
      ensures r.Success? ==> var ts := EntityTypesOf(EntitySetProperties(contextType.properties));
        r.value.TableDefinitions() == Schema(ts)
        && forall k :: 0 <= k < |ts| ==> r.value.TableNames()[k] == TableNameOf(ts[k])
      ensures r.Success? && !databaseExists ==>
        connection.Executed == old(connection.Executed) + [Lines(r.value.TableDefinitions())]
        && (forall k :: 0 <= k < |r.value.TableNames()| ==> r.value.TableNames()[k] in connection.tables)
        && r.value.DatabaseCreatedEvents == 1
    {
      var loaded := LoadNew(contextType, registry, logger, typeCache, cache);
      if loaded.Failure? {
        return Failure(InvalidEntitySet(loaded.error));
      }
      var context := loaded.value;
      var connected := context.Connect(connection, databaseExists, newId, context.TableDefinitions(), context.TableNames());
      if connected.Fail? {
        return Failure(SchemaRefused(connected.error));
      }
      r := Success(context);
    }

    /**
     * Set(entityType): the first registered set, in registration order,
     * whose entity type is entityType; ArgumentOutOfRangeException when there
     * is none.
     */
    function Set(entityType: TypeDescriptor): (r: Result<EntitySet, ContextError>)
      requires IndexedBy(SetNames, EntitySets)
      reads this
      ensures r.Failure? <==> forall n :: n in EntitySets ==> EntitySets[n].ElementType != entityType
      ensures r.Success? ==> r.value.ElementType == entityType
      ensures r.Success? ==> exists k :: (0 <= k < |SetNames| && EntitySets[SetNames[k]] == r.value
        && (forall j :: 0 <= j < k ==> EntitySets[SetNames[j]].ElementType != entityType))
    {
      match FirstSetOf(SetNames, EntitySets, entityType)
      case None => Failure(ArgumentOutOfRange)
      case Some(k) => Success(EntitySets[SetNames[k]])
    }

    /** GetSetNames: exactly the registered names, each once. */
    function GetSetNames(): (names: seq<string>)
      requires IndexedBy(SetNames, EntitySets)
      reads this
      ensures forall n :: n in names <==> n in EntitySets
      ensures forall j, k :: 0 <= j < k < |names| ==> names[j] != names[k]
    {
      SetNames
    }

    /**
     * Dispose(disposing): the first call with disposing set removes the
     * context from the registry, closes the connection and drops it; every
     * call marks the context disposed, and later calls change nothing.
     */
    method Release(disposing: bool)
      requires !isDisposing && disposing ==> Connection != null
      modifies this`isDisposing, this`Connection, Registry`Instances
      modifies (if Connection != null then {Connection} else {})`IsOpen
      ensures isDisposing
      ensures old(isDisposing) || !disposing ==>
        Connection == old(Connection) && Registry.Instances == old(Registry.Instances)
        && (Connection != null ==> Connection.IsOpen == old(Connection.IsOpen))
      ensures !old(isDisposing) && disposing ==>
        Connection == null && Registry.Instances == old(Registry.Instances) - {UniqueId}
        && !old(Connection).IsOpen
    {
      if !isDisposing {
        if disposing {
          Registry.Instances := Registry.Instances - {UniqueId};
          Connection.Close();
          Connection := null;
        }
        isDisposing := true;
      }
    }

    /** Dispose(): Dispose(true). */
    method Dispose()
      requires !isDisposing ==> Connection != null
      modifies this`isDisposing, this`Connection, Registry`Instances
      modifies (if Connection != null then {Connection} else {})`IsOpen
      ensures isDisposing
      ensures old(isDisposing) ==>
        Connection == old(Connection) && Registry.Instances == old(Registry.Instances)
        && (Connection != null ==> Connection.IsOpen == old(Connection.IsOpen))
      ensures !old(isDisposing) ==>
        Connection == null && Registry.Instances == old(Registry.Instances) - {UniqueId}
        && !old(Connection).IsOpen
    {
      Release(true);
    }
  }
}
