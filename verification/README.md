# LiteLib, modelled in Dafny

LiteLib is a small object mapper over SQLite. A `LiteDbContext` subclass declares one `LiteDbSet<T>` property per table. When the context is constructed it:

- discovers those properties;
- gives each one a set that knows the context and its entity type;
- opens the database;
- creates the schema when the database file is new;
- registers itself in a process-wide map of live contexts until it is disposed.

Each set derives its SQL from the shape of `T`: the `CREATE TABLE` and `CREATE INDEX` script, and the SELECT, INSERT, UPDATE and DELETE templates. It caches that result per type. It raises a before event and an after event around every insert, update and delete, and any handler of a before event may cancel the operation.

This project models that core.

| file | module | contents |
|---|---|---|
| `wrappers.dfy` | `Wrappers` | `Option`, `Result` and `Outcome`. |
| `sql_text.dfy` | `SqlText` | The text the library writes: lines (`AppendLine`), `string.Join(", ", …)` with its read-back, and integers rendered in decimal and read back. |
| `descriptors.dfy` | `Descriptors` | What reflection tells the library about an entity type: its name, its `[Table]` name, and its public properties in declaration order. Each property carries its kind and its attributes (`NotMapped`, `LiteIndex`, `LiteUnique`, `Required`, `StringLength`). It also describes what reflection tells about a context type. |
| `type_definition.dfy` | `TypeDefinitions` | The newer definition builder (`TypeDefinition`, `DefinitionCacheItem`). A specification function `BuildDefinition` is paired with the imperative builder that fills a text buffer and a name list property by property and writes the static cache. Lemmas cover column filtering and order, the affinity and `CHECK` rules, the index statements and the "Invalid DbSet" error. |
| `legacy_definitions.dfy` | `LegacyDefinitions` | The older builder (`Unosquare.Labs.LiteLib/LiteDbSet.cs`): its explicit affinity table, and where it differs from the newer one. |
| `store.dfy` | `Store` | The SQLite connection that Dapper drives, as a store. It maps each table name to its columns, its indexed and UNIQUE columns, and rows keyed by an autoincrement RowId, and logs the commands it was sent. It decides unknown tables and columns and UNIQUE clashes itself. Row-local constraints, whether a schema script runs, and WHERE text it does not interpret are answers fixed when the connection is made. |
| `lite_lib.dfy` | `LiteLib` | `EntityEventArgs`, the entity set's CRUD and event pipeline and its queries, the index statements of a set's definition as the store runs them, and the context. The context covers set discovery, schema creation, `Set`, `GetSetNames`, the instance registry and `Dispose`. |

Event handlers are total functions over the entity's state and the `Cancel` flag. They run in subscription order, like a multicast delegate. The ghost field `Fired` of a set records every event it raised, with the args object and the entity state the handlers first saw.

## Model

| member | source | states |
|---|---|---|
| TypeDefinitions.TypeDefinition.Build | src/Unosquare.Labs.LiteLib/TypeDefinition.cs:22-107 | The result is the specification `BuildDefinition(t)`. On a cache hit it is the cached item, and neither the cache nor the builders change. The first successful build stores its item. A failed build ("Invalid DbSet") caches nothing. |
| TypeDefinitions.TypeDefinition.GeneratePropertyInfo | src/Unosquare.Labs.LiteLib/TypeDefinition.cs:111-164 | A string, value-type, `Nullable<value>` or `byte[]` property appends exactly its column line, ending in a comma, and appends its name. Any other reference type changes neither the buffer nor the names. |
| TypeDefinitions.TypeDefinition.ScanProperty | src/Unosquare.Labs.LiteLib/TypeDefinition.cs:44-72 | One loop pass. A RowId, read-only or NotMapped property adds nothing. A surviving property adds its index then unique-index statement, and adds its column only if it is mapped. |
| TypeDefinitions.TypeDefinition.ScanProperties | src/Unosquare.Labs.LiteLib/TypeDefinition.cs:44-72 | After the loop, the buffer holds the header plus the column lines of `Columns(ps)`. The names are `MappedNames(ps)` and the index list is `IndexStatements(table, ps)`. |
| TypeDefinitions.TypeDefinition.CloseTable | src/Unosquare.Labs.LiteLib/TypeDefinition.cs:77-81 | Removing the trailing comma and newline and then appending `);` yields exactly `CreateTable(table, cols)`. |
| TypeDefinitions.AppendLines | src/Unosquare.Labs.LiteLib/TypeDefinition.cs:83-86 | Appending each line with `AppendLine` yields `text + Lines(lines)`. |
| TypeDefinitions.TypeDefinition.constructor | src/Unosquare.Labs.LiteLib/TypeDefinition.cs:19-20 | A builder starts with an empty buffer and no names. |
| TypeDefinitions.DefinitionCache.constructor | src/Unosquare.Labs.LiteLib/TypeDefinition.cs:16-17 | The static cache starts empty, and every entry it will ever hold is the build of its key. |
| TypeDefinitions.TableName | src/Unosquare.Labs.LiteLib/TypeDefinition.cs:36-39 | The table name is the `[Table]` name when there is one, and the type's name otherwise. |
| TypeDefinitions.BuildDefinitionParts | src/Unosquare.Labs.LiteLib/TypeDefinition.cs:22-107 | The build fails iff no name is mapped. A successful build has the table name and the mapped names, a TableDefinition that starts with the closed `CREATE TABLE` and ends with the index lines, and a DELETE template that is the DELETE-WHERE template with the RowId clause. |
| TypeDefinitions.Classify | src/Unosquare.Labs.LiteLib/TypeDefinition.cs:111-164 | A property has no column iff its type is another reference type. Its column carries its name, is NVARCHAR iff the property is a string, and only strings get a length CHECK. |
| TypeDefinitions.RenderColumnShape | src/Unosquare.Labs.LiteLib/TypeDefinition.cs:140-156 | A column line is `[name] TYPE NULL`/`NOT NULL`. It ends with the null statement, or, when there is a length check, with `)<=n)`. |
| TypeDefinitions.SelectTemplateShape | src/Unosquare.Labs.LiteLib/TypeDefinition.cs:96 | The SELECT template starts with `SELECT [RowId], ` and ends with ` FROM [table]`. |
| TypeDefinitions.InsertTemplateShape | src/Unosquare.Labs.LiteLib/TypeDefinition.cs:97-98 | The INSERT template starts with `INSERT INTO [table] (` and ends with `); SELECT last_insert_rowid();`. |
| TypeDefinitions.UpdateTemplateShape | src/Unosquare.Labs.LiteLib/TypeDefinition.cs:99-100 | The UPDATE template starts with `UPDATE [table] SET ` and ends with the RowId clause. |
| TypeDefinitions.DeleteTemplateShape | src/Unosquare.Labs.LiteLib/TypeDefinition.cs:101-103 | The DELETE-WHERE template starts with `DELETE FROM [`, and the DELETE template is it followed by ` WHERE ` and the RowId clause. |
| TypeDefinitions.AnyTemplateShape | src/Unosquare.Labs.LiteLib/TypeDefinition.cs:104 | The ANY template is `SELECT EXISTS(SELECT 1 FROM 'table')`, with the table in single quotes. |
| TypeDefinitions.IndexOnMissingColumn | src/Unosquare.Labs.LiteLib/TypeDefinition.cs:55-69 | A surviving property of another reference type with LiteIndex or LiteUnique gets an index statement although no column carries its name, so the schema indexes a column its table lacks. |
| TypeDefinitions.ValueColumnType | Unosquare.Labs.LiteLib/LiteDbSet.cs:31-44 | The affinity of a value type: INTEGER exactly for Int16/32/64, UInt16/32/64, byte and char; NUMERIC exactly for decimal and bool; DATETIME exactly for DateTime; TEXT exactly for other value types. It is never BLOB or NVARCHAR. |
| TypeDefinitions.StringColumnRule | src/Unosquare.Labs.LiteLib/TypeDefinition.cs:120-146 | A string property is always mapped, as `NVARCHAR(n)` with n = 4096 or its StringLength. It is nullable iff it is not Required. It has `CHECK(length(name)<=n)` iff n ≠ 4096. |
| TypeDefinitions.NullabilityRule | src/Unosquare.Labs.LiteLib/TypeDefinition.cs:115-158 | A value type is NOT NULL with its affinity. `Nullable<value>` is NULL with the affinity of the underlying type. `byte[]` is BLOB NOT NULL. A property has no column iff it is another reference type. |
| TypeDefinitions.RowIdNeverMapped | src/Unosquare.Labs.LiteLib/TypeDefinition.cs:46-47 | `RowId` is never among the recorded property names. |
| TypeDefinitions.MappedNamesSound | src/Unosquare.Labs.LiteLib/TypeDefinition.cs:44-52 | Every recorded name is the name of a writable, non-NotMapped, non-RowId property of a mappable type. |
| TypeDefinitions.MappedNamesMembership | src/Unosquare.Labs.LiteLib/TypeDefinition.cs:160-163 | A name is recorded iff some property with that name survives the filters and has a mappable type. Both directions are stated. |
| TypeDefinitions.MappedNameAt | src/Unosquare.Labs.LiteLib/TypeDefinition.cs:44-72 | Each mapped property appears in the names at its rank among the mapped properties. |
| TypeDefinitions.RankOrder | src/Unosquare.Labs.LiteLib/TypeDefinition.cs:44-72 | Ranks are strictly increasing, so the names keep declaration order. |
| TypeDefinitions.MappedNamesPrefix | src/Unosquare.Labs.LiteLib/TypeDefinition.cs:44-72 | The names recorded after i properties are a prefix of the final names. |
| TypeDefinitions.PrefixStep | src/Unosquare.Labs.LiteLib/TypeDefinition.cs:44-72 | One more property extends the columns, the names and the index statements by exactly that property's contribution. |
| TypeDefinitions.ColumnsMatchNames | src/Unosquare.Labs.LiteLib/TypeDefinition.cs:140-163 | The k-th column emitted is for the k-th recorded name. |
| TypeDefinitions.ColumnAt | src/Unosquare.Labs.LiteLib/TypeDefinition.cs:44-72 | The column of a mapped property sits at its rank. |
| TypeDefinitions.NoNamesIffNothingMapped | src/Unosquare.Labs.LiteLib/TypeDefinition.cs:74-75 | No name is recorded iff no property is mapped. |
| TypeDefinitions.BuildFailsIffNothingMapped | src/Unosquare.Labs.LiteLib/TypeDefinition.cs:74-75 | The build fails with "Invalid DbSet" iff no property is mapped. |
| TypeDefinitions.IndexStatementsComplete | src/Unosquare.Labs.LiteLib/TypeDefinition.cs:55-69 | Every surviving LiteIndex property gets its `CREATE INDEX` statement, and every surviving LiteUnique property gets its `CREATE UNIQUE INDEX` statement, whether or not a column is emitted for it. |
| TypeDefinitions.IndexStatementsSound | src/Unosquare.Labs.LiteLib/TypeDefinition.cs:55-69 | Every index statement comes from a surviving property carrying the matching attribute. |
| TypeDefinitions.IndexStatementsCount | src/Unosquare.Labs.LiteLib/TypeDefinition.cs:55-69 | There is exactly one statement per index attribute of a surviving property. |
| TypeDefinitions.IndexStatementsPrefix | src/Unosquare.Labs.LiteLib/TypeDefinition.cs:55-69 | The statements of the first i properties come first and in property order. |
| TypeDefinitions.TrimmedHeader | src/Unosquare.Labs.LiteLib/TypeDefinition.cs:78-81 | The buffer always has a trailing comma and newline to remove, and removing them leaves the closed `CREATE TABLE` statement. |
| TypeDefinitions.CommaLinesJoin | src/Unosquare.Labs.LiteLib/TypeDefinition.cs:78 | The column lines, each ending in a comma, are the columns joined by a comma and newline, followed by one more comma and newline. |
| TypeDefinitions.TemplateListsAligned | src/Unosquare.Labs.LiteLib/TypeDefinition.cs:88-90 | The column, parameter and assignment lists have one entry per name: `[p]`, `@p` and `[p] = @p`, in matching positions. |
| TypeDefinitions.TemplateListsReadBack | src/Unosquare.Labs.LiteLib/TypeDefinition.cs:88-90 | Splitting each joined list at ", " gives back the list. |
| TypeDefinitions.BuiltTemplatesReadBack | src/Unosquare.Labs.LiteLib/TypeDefinition.cs:88-103 | In a built definition, PropertyNames are the mapped names. The INSERT template lists them, and all three joined lists read back to one entry per property name. |
| TypeDefinitions.MappedNamesAreIdentifiers | src/Unosquare.Labs.LiteLib/TypeDefinition.cs:44-52 | The recorded names of a well-formed type are identifiers. |
| TypeDefinitions.IdentifierCommaFree | src/Unosquare.Labs.LiteLib/TypeDefinition.cs:88-90 | An identifier holds no comma, so joining lists of them is unambiguous. |
| TypeDefinitions.BracketedCommaFree | src/Unosquare.Labs.LiteLib/TypeDefinition.cs:88 | `[p]` entries of identifiers hold no comma. |
| TypeDefinitions.ParametersCommaFree | src/Unosquare.Labs.LiteLib/TypeDefinition.cs:89 | `@p` entries of identifiers hold no comma. |
| TypeDefinitions.AssignmentsCommaFree | src/Unosquare.Labs.LiteLib/TypeDefinition.cs:90 | `[p] = @p` entries of identifiers hold no comma. |
| TypeDefinitions.UniqueColumnsMembership | src/Unosquare.Labs.LiteLib/TypeDefinition.cs:55-69 | A column is UNIQUE iff some mapped property of that name has `[LiteUnique]` and not `[LiteIndex]`. Both statements use the index name `IX_table_name`, so with both attributes the plain index comes first and the `CREATE UNIQUE INDEX IF NOT EXISTS` does nothing. A UNIQUE column is a mapped name, and its unique-index statement is in the script. |
| LiteLib.IndexSpecsRendered | src/Unosquare.Labs.LiteLib/TypeDefinition.cs:55-69 | The index statements a set's shape hands the store are the TableDefinition's index statements, text for text and in order. |
| LiteLib.FirstSpecOfProperty | src/Unosquare.Labs.LiteLib/TypeDefinition.cs:59-68 | Of one property's statements, the first on its column is the `[LiteIndex]` one if it has that attribute, else the `[LiteUnique]` one. No statement names another column. |
| LiteLib.UnnamedColumn | src/Unosquare.Labs.LiteLib/TypeDefinition.cs:55-69 | A name no property has gets no index statement, and is neither a mapped name nor a UNIQUE column. |
| LiteLib.OwnIndexUnique | src/Unosquare.Labs.LiteLib/TypeDefinition.cs:55-69 | When property names are distinct, a column is a mapped name whose first index statement is the UNIQUE one iff it is one of `UniqueColumns`. |
| LiteLib.FreshTableUnique | src/Unosquare.Labs.LiteLib/TypeDefinition.cs:41-69 | A table that one type's TableDefinition creates on its own has exactly that type's `UniqueColumns` as UNIQUE columns. |
| LiteLib.LoadDefinitions | src/Unosquare.Labs.LiteLib/LiteDbSet.cs:412-518 | A set's definitions are the build of its element type. A cache hit changes nothing, and a first successful build is stored. |
| LiteLib.CreateSet | src/Unosquare.Labs.LiteLib/LiteDbSet.cs:30-33 | Constructing a set succeeds iff its type builds. The new set holds the built definitions, no events have been raised, and it carries the given context and entity type. |
| LiteLib.EntitySet.constructor | src/Unosquare.Labs.LiteLib/LiteDbSet.cs:40-119 | The definition properties are those of the item, and every event has only its no-op handler. |
| LiteLib.EntitySet.Subscribe | src/Unosquare.Labs.LiteLib/LiteDbSet.cs:40-65 | `+=` appends the handler to that event only. |
| LiteLib.EntitySet.Raise | src/Unosquare.Labs.LiteLib/LiteDbSet.cs:135 | Raising an event runs its handlers in order on the args. The entity and `Cancel` end as the handlers leave them, and the event is logged with the state the handlers first saw. |
| LiteLib.EntitySet.Insert | src/Unosquare.Labs.LiteLib/LiteDbSet.cs:132-142 | Before-insert always fires first. If cancelled, the result is 0, no SQL runs, RowId is not reassigned and nothing more fires. Otherwise the INSERT runs. On success RowId becomes the store's new id, after-insert fires on the same args with that id, the row is appended, and the result is 1. A store error is returned with no after event. The older twin at Unosquare.Labs.LiteLib/LiteDbSet.cs:364-374 behaves the same way and is modelled by this member. |
| LiteLib.EntitySet.InsertAsync | src/Unosquare.Labs.LiteLib/LiteDbSet.cs:174-188 | The same outcomes as `Insert`. |
| LiteLib.EntitySet.CompleteInsertAsync | src/Unosquare.Labs.LiteLib/LiteDbSet.cs:183-187 | When the query yields no id, the result is 0, nothing changes and nothing fires. Otherwise RowId becomes the first id, after-insert fires, and the result is 1. |
| LiteLib.EntitySet.Delete | src/Unosquare.Labs.LiteLib/LiteDbSet.cs:220-234 | RowId 0 gives ArgumentException before any handler runs or any SQL executes, with or without a context. If cancelled, the result is 0 and RowId is untouched. Otherwise the row is deleted, RowId is reset to 0 before after-delete fires on the same args, and the store's count is returned. A store error is returned with no after event and no change to the table. DeleteAsync (src/Unosquare.Labs.LiteLib/LiteDbSet.cs:244-259) and the older Delete (Unosquare.Labs.LiteLib/LiteDbSet.cs:406-420) behave the same way and are modelled by this member. |
| LiteLib.EntitySet.Update | src/Unosquare.Labs.LiteLib/LiteDbSet.cs:269-279 | If cancelled, the result is 0 and no SQL runs. Otherwise the row with the entity's RowId is replaced, after-update fires on the same args, and the store's count is returned. RowId is never assigned. The older twin at Unosquare.Labs.LiteLib/LiteDbSet.cs:451-461 behaves the same way and is modelled by this member. |
| LiteLib.EntitySet.InsertRange | src/Unosquare.Labs.LiteLib/LiteDbSet.cs:149-165 | An empty sequence gives ArgumentNullException and runs no SQL, with or without a context. Otherwise exactly one command runs, `InsertRangeCommand` over the entities' literal rows. If the store accepts it, every row is appended in order with consecutive ids; if not (a value holding a quote breaks the literal), the table is unchanged and the error is returned. No event fires and no entity changes. |
| LiteLib.EntitySet.Select | src/Unosquare.Labs.LiteLib/LiteDbSet.cs:309 | The query fails with NoSuchTable iff the set's table does not exist. Otherwise it fails iff the statement does not prepare (a field comparison on a column the table lacks, or WHERE text SQLite cannot compile), whatever rows the table holds. When it succeeds it returns rows of the table that satisfy the clause, and every row of the table that satisfies it is returned. |
| LiteLib.EntitySet.SelectAll | src/Unosquare.Labs.LiteLib/LiteDbSet.cs:317 | Select with "1 = 1" returns every row of the table. The older twin at Unosquare.Labs.LiteLib/LiteDbSet.cs:499-502 behaves the same way and is modelled by this member. |
| LiteLib.EntitySet.Single | src/Unosquare.Labs.LiteLib/LiteDbSet.cs:365-366 | The result is a stored row with that RowId, or None exactly when no row has it. The older twin at Unosquare.Labs.LiteLib/LiteDbSet.cs:531-536 behaves the same way and is modelled by this member. |
| LiteLib.EntitySet.FirstOrDefault | src/Unosquare.Labs.LiteLib/LiteDbSet.cs:343 | It succeeds iff the table exists and the field is RowId or one of the table's columns. An unknown field gives NoSuchColumn even on an empty table, as does the older twin at Unosquare.Labs.LiteLib/LiteDbSet.cs:488-493 that it reaches through `Select`. The result is a stored row whose field equals the value, or None exactly when the comparison is false on every row. A NULL value matches no row (`[f] = NULL` is never true), so it always gives None. |
| LiteLib.EntitySet.Count | src/Unosquare.Labs.LiteLib/LiteDbSet.cs:388-393 | The count is the number of rows SelectAll returns. |
| LiteLib.Bind | src/Unosquare.Labs.LiteLib/LiteDbSet.cs:139 | The parameters bound from an entity are exactly the mapped property names. Each holds the entity's value for that name, and NULL where the entity has no value. |
| LiteLib.RowsOf | src/Unosquare.Labs.LiteLib/LiteDbSet.cs:156-162 | InsertRange yields one row per entity, in order, and each row is the literal text of the entity's mapped values. |
| LiteLib.LiteralRowValues | src/Unosquare.Labs.LiteLib/LiteDbSet.cs:162 | Every mapped property has a value in the literal row. A null or missing value arrives as the empty text, a text value arrives as it is, and an integer arrives as decimal text that reads back as that integer. |
| LiteLib.InsertRangeCommand | src/Unosquare.Labs.LiteLib/LiteDbSet.cs:154-162 | The command starts with `INSERT INTO [table] ([p1], [p2], …)` over the mapped names, and ends with the literal SELECT of the last entity. |
| LiteLib.WhereText | src/Unosquare.Labs.LiteLib/LiteDbSet.cs:309-365 | Raw WHERE text is sent as given. The RowId clause is `[RowId] = @RowId`. A field clause starts with `[field]` and ends with the `@FieldValue` parameter. |
| LiteLib.EntitySet.SelectCommand | src/Unosquare.Labs.LiteLib/LiteDbSet.cs:309-317 | The SELECT template followed by ` WHERE ` and the clause text. For SelectAll it is the template with ` WHERE 1 = 1`. |
| LiteLib.EntitySet.CountCommand | src/Unosquare.Labs.LiteLib/LiteDbSet.cs:390 | A `SELECT COUNT(*)` over the set's bracketed table, with no WHERE. |
| LiteLib.RunHandlersAppend | src/Unosquare.Labs.LiteLib/LiteDbSet.cs:40-65 | Running handlers a then b is running a, then b on the result. |
| LiteLib.HandlersKeepRowId | src/Unosquare.Labs.LiteLib/LiteDbSet.cs:269-279 | Handlers that never touch RowId leave it as it was. |
| LiteLib.HandlersNeverCancel | src/Unosquare.Labs.LiteLib/LiteDbSet.cs:134-136 | Handlers that never set Cancel leave a fresh args object uncancelled. |
| LiteLib.UpdateKeepsRowId | src/Unosquare.Labs.LiteLib/LiteDbSet.cs:269-279 | Around an Update, RowId is whatever the handlers make it, and never what the store makes it. |
| LiteLib.InsertAssignsRowId | src/Unosquare.Labs.LiteLib/LiteDbSet.cs:138-141 | After a successful Insert whose after-handlers keep RowId, the entity's RowId is the store's id. |
| LiteLib.Entity.constructor | src/Unosquare.Labs.LiteLib/LiteModel.cs:1-12 | A new entity has RowId 0. |
| LiteLib.EntityEventArgs.constructor | src/Unosquare.Labs.LiteLib/EntityEventArgs.cs:18-23 | Entity and DbSet are the arguments, and they are constant. Cancel starts false. |
| LiteLib.EntitySetProperties | src/Unosquare.Labs.LiteLib/LiteDbContext.cs:95-99 | The set properties are exactly the context's properties of type `LiteDbSet<>`, in declaration order, with distinct names when the context's names are distinct. |
| LiteLib.SetTypes | src/Unosquare.Labs.LiteLib/LiteDbContext.cs:104 | Each set property's entity type is its generic argument. |
| LiteLib.PropertyNamesOf | src/Unosquare.Labs.LiteLib/LiteDbContext.cs:118 | The keys are the property names, in order. |
| LiteLib.PropertyTypeCache.Retrieve | src/Unosquare.Labs.LiteLib/LiteDbContext.cs:93-100 | The set properties are computed once per context type. A cached list is returned unchanged, and a first retrieval stores it. The older twin at Unosquare.Labs.LiteLib/LiteDbContext.cs:87-97 behaves the same way and is modelled by this member. |
| LiteLib.PropertyTypeCache.constructor | src/Unosquare.Labs.LiteLib/LiteDbContext.cs:33 | The property cache starts empty. |
| LiteLib.ContextRegistry.constructor | src/Unosquare.Labs.LiteLib/LiteDbContext.cs:32 | The instance registry starts empty. |
| LiteLib.LiteDbContext.constructor | src/Unosquare.Labs.LiteLib/LiteDbContext.cs:30-32 | There are no sets and no connection, and the context is not disposed. The Logger is never null, because NullLog replaces a null logger (the older context, Unosquare.Labs.LiteLib/LiteDbContext.cs:50-52). |
| LiteLib.LiteDbContext.RegisterSet | src/Unosquare.Labs.LiteLib/LiteDbContext.cs:104-118 | One loop pass. It fails iff the entity type does not build. Otherwise a fresh set of that type, knowing this context, is added under the name and nothing else changes. |
| LiteLib.LiteDbContext.LoadStep | src/Unosquare.Labs.LiteLib/LiteDbContext.cs:102-119 | The loop invariant after i properties is kept by one more property. |
| LiteLib.LiteDbContext.RegisterAll | src/Unosquare.Labs.LiteLib/LiteDbContext.cs:102-119 | It fails iff some set property's type does not build. Otherwise the keys are the set property names in order, and each set has Context == this, EntityType equal to its generic argument and its definitions. |
| LiteLib.LiteDbContext.LoadEntitySets | src/Unosquare.Labs.LiteLib/LiteDbContext.cs:91-122 | As `RegisterAll`, over the cached set properties of the context type. The older twin at Unosquare.Labs.LiteLib/LiteDbContext.cs:99-116 behaves the same way and is modelled by this member. |
| LiteLib.LiteDbContext.SchemaLoaded | src/Unosquare.Labs.LiteLib/LiteDbContext.cs:130-133 | The loaded sets' TableDefinitions and TableNames are the `CREATE TABLE` scripts and table names of their entity types, in registration order. |
| LiteLib.LiteDbContext.CreateDatabase | src/Unosquare.Labs.LiteLib/LiteDbContext.cs:127-141 | Exactly one script runs: every set's TableDefinition, one per line, in registration order. It fails iff the store refuses that script, and then no table changes and OnDatabaseCreated does not fire. On success the tables are `RunScript` of the earlier ones over every set's `Shape()` (its table, mapped names and index statements), so `Store.RunUnique` gives every table's UNIQUE columns. Every set's table exists, existing tables keep their columns and rows, and OnDatabaseCreated has fired once. A set's table that did not exist before is created empty, with the mapped names of the first set that names it as its columns. The older twin at Unosquare.Labs.LiteLib/LiteDbContext.cs:124-138 behaves the same way and is modelled by this member. |
| LiteLib.LiteDbContext.Connect | src/Unosquare.Labs.LiteLib/LiteDbContext.cs:58-82 | The connection is opened. The schema is created iff the database did not exist; otherwise nothing runs and no event fires. It fails iff the schema had to be created and the store refused it; then the context is not registered, no table changes and no event fires. Otherwise the context is registered under its new UniqueId. |
| LiteLib.LiteDbContext.LoadNew | src/Unosquare.Labs.LiteLib/LiteDbContext.cs:53-56 | Loading fails iff some set's type does not build. Otherwise the context holds one set per set property, and their definitions are the schema of the entity types. |
| LiteLib.LiteDbContext.Create | src/Unosquare.Labs.LiteLib/LiteDbContext.cs:53-82 | Construction fails with InvalidEntitySet iff some set's type does not build; then no SQL runs. It fails with SchemaRefused iff every type builds, the file is new and the store refuses the schema script; then that script was sent once. Either failure leaves the registry and the tables untouched. Otherwise the schema of the entity types is executed iff the file did not exist, OnDatabaseCreated fires once in that case and never otherwise, and the context is registered under its UniqueId. |
| LiteLib.FirstSetOf | src/Unosquare.Labs.LiteLib/LiteDbContext.cs:162 | The index of the first set whose type matches, or None iff no set's type matches. |
| LiteLib.LiteDbContext.Set | src/Unosquare.Labs.LiteLib/LiteDbContext.cs:160-168 | The result is the first registered set whose entity type is the argument. ArgumentOutOfRange is returned iff no set has that type. |
| LiteLib.LiteDbContext.GetSetNames | src/Unosquare.Labs.LiteLib/LiteDbContext.cs:184 | The names are exactly the registered names, each once. |
| LiteLib.LiteDbContext.Release | src/Unosquare.Labs.LiteLib/LiteDbContext.cs:215-231 | The first call with disposing removes the context from the registry, closes the connection and drops it. Every call leaves it disposed, and later calls change nothing. |
| LiteLib.LiteDbContext.Dispose | src/Unosquare.Labs.LiteLib/LiteDbContext.cs:236-240 | Dispose is idempotent. The first call unregisters the context and closes and drops the connection. The older twin at Unosquare.Labs.LiteLib/LiteDbContext.cs:185-210 behaves the same way and is modelled by this member. |
| LiteLib.NamesIndexed | src/Unosquare.Labs.LiteLib/LiteDbContext.cs:118 | Distinct property names give a key list that indexes the set map one to one. |
| LiteLib.LoadedTypes | src/Unosquare.Labs.LiteLib/LiteDbContext.cs:116-118 | The element types of the loaded sets are the entity types of the set properties, in order. |
| LegacyDefinitions.LegacyDbSet.LoadDefinitions | Unosquare.Labs.LiteLib/LiteDbSet.cs:158-316 | The definitions are those of the older build. A cache hit copies the six stored definitions without rebuilding, and a miss stores them. |
| LegacyDefinitions.LegacyBuild | Unosquare.Labs.LiteLib/LiteDbSet.cs:158-316 | The older build names the table with the older rule. Its DDL starts with the newer builder's closed `CREATE TABLE`. Its INSERT, UPDATE and SELECT templates list every surviving property, and its DELETE template is the RowId delete. |
| LegacyDefinitions.LegacyScanProperty | Unosquare.Labs.LiteLib/LiteDbSet.cs:189-277 | Every surviving property's name is recorded, together with its index statements. Its column is added only if its type is mappable. |
| LegacyDefinitions.LegacyScan | Unosquare.Labs.LiteLib/LiteDbSet.cs:189-277 | After the loop, the buffer holds the same columns as the newer builder's, and the names are all surviving properties. |
| LegacyDefinitions.LegacyNamesStep | Unosquare.Labs.LiteLib/LiteDbSet.cs:227 | One more property adds its name iff it survives the filters. |
| LegacyDefinitions.LegacyDbSet.constructor | Unosquare.Labs.LiteLib/LiteDbSet.cs:101-126 | The definition properties start empty. |
| LegacyDefinitions.LegacyDefinitionCache.constructor | Unosquare.Labs.LiteLib/LiteDbSet.cs:56-57 | The older cache starts empty. |
| LegacyDefinitions.TypeMappingsAgree | Unosquare.Labs.LiteLib/LiteDbSet.cs:262-272 | The older explicit affinity table gives the same affinity as the newer mapping, and its lookup misses exactly on other value types. |
| LegacyDefinitions.LegacyTableName | Unosquare.Labs.LiteLib/LiteDbSet.cs:181-184 | The table name is the `[Table]` name, or else the literal "T". |
| LegacyDefinitions.MappedNamesWithinLegacy | Unosquare.Labs.LiteLib/LiteDbSet.cs:227 | The newer names are exactly the older builder's names computed over the properties without a reference type (`MappedNames(ps) == LegacyNames(WithColumnTypes(ps))`), so every newer name is an older name. The older names extend the newer ones. They are equal iff no surviving property has an unmappable reference type, and strictly longer otherwise. |
| LegacyDefinitions.LegacyAgreesWithNewer | Unosquare.Labs.LiteLib/LiteDbSet.cs:158-316 | With a `[Table]` name and no unmappable surviving property, the older build equals the newer build's six definitions. |
| LegacyDefinitions.LegacyBuildsWithoutColumns | Unosquare.Labs.LiteLib/LiteDbSet.cs:279-291 | With no surviving property, the newer build fails, but the older build still emits a `CREATE TABLE` with only the RowId column. |
| LegacyDefinitions.LegacyTablesCollide | Unosquare.Labs.LiteLib/LiteDbSet.cs:181 | Two types without `[Table]` get the same table "T" and the same DELETE template. |
| LegacyDefinitions.TableNameDistinguishesTypes | src/Unosquare.Labs.LiteLib/TypeDefinition.cs:36 | In the newer builder, types without `[Table]` share a table iff they share a name. |
| LegacyDefinitions.LegacyTemplateNamesMissingColumn | Unosquare.Labs.LiteLib/LiteDbSet.cs:227 | A type whose only property is a reference type gets an INSERT template naming a column its table lacks. |
| LegacyDefinitions.EveryRecordedNameHasColumn | src/Unosquare.Labs.LiteLib/TypeDefinition.cs:160-163 | In the newer builder, every recorded name has its column, at the same position. |
| Store.SqliteConnection.constructor | src/Unosquare.Labs.LiteLib/LiteDbContext.cs:69 | A new connection is closed and has no tables. Its oracles are the given functions: whether row-local constraints accept a row, whether a schema script runs, whether WHERE text compiles over a table's columns, and what that text selects. |
| Store.SqliteConnection.Open | src/Unosquare.Labs.LiteLib/LiteDbContext.cs:71 | The connection is open afterwards. |
| Store.SqliteConnection.Close | src/Unosquare.Labs.LiteLib/LiteDbContext.cs:223 | The connection is closed afterwards. |
| Store.SqliteConnection.ExecuteSchema | src/Unosquare.Labs.LiteLib/LiteDbContext.cs:135-138 | The script is logged once. It fails with BadCommand iff the store refuses the script, and then no table changes. Otherwise the tables afterwards are `RunScript` of the earlier ones: the earlier tables plus every table the script names (`IF NOT EXISTS`). Existing tables keep their columns, rows and last id. A new table is empty and has the columns of the first shape that names it. Every index statement runs on the table of its name, so a column's UNIQUE flag comes from the whole script, as `RunUnique` states. |
| Store.SqliteConnection.Insert | src/Unosquare.Labs.LiteLib/LiteDbSet.cs:139 | The answer is `InsertAnswer` on the state before. On success the row is appended with id lastId + 1 (`AUTOINCREMENT`) and that id is returned. On failure nothing changes. |
| Store.SqliteConnection.InsertAll | src/Unosquare.Labs.LiteLib/LiteDbSet.cs:164 | The answer is `InsertAllAnswer` on the state before. On success all rows are appended in order with consecutive new ids. On failure nothing changes. |
| Store.SqliteConnection.DeleteRow | src/Unosquare.Labs.LiteLib/LiteDbSet.cs:230 | On success the row with that id is removed and the others are kept in order. On failure nothing changes. |
| Store.SqliteConnection.UpdateRow | src/Unosquare.Labs.LiteLib/LiteDbSet.cs:276 | The answer is `UpdateAnswer` on the state before. On success the row with that id takes the values the UPDATE sets and keeps its other columns, and ids and order are kept. On failure nothing changes. |
| Store.Filter | src/Unosquare.Labs.LiteLib/LiteDbSet.cs:309 | A query over rows returns exactly the rows that satisfy the WHERE clause: each returned row is a row of the table that matches, and every matching row is returned. "1 = 1" returns every row. The model keeps the table's order. |
| Store.Matches | src/Unosquare.Labs.LiteLib/LiteDbSet.cs:343-366 | A field comparison is true iff the value is not NULL and equals the row's value in that column. A column the row's INSERT did not name holds NULL, so comparing with NULL is never true. A comparison on RowId, or the `[RowId] = @RowId` clause, is true iff the row has that id. |
| Store.SqliteConnection.Query | src/Unosquare.Labs.LiteLib/LiteDbSet.cs:309 | NoSuchTable iff the table does not exist. Otherwise the query fails iff `WhereError` finds the statement does not prepare over the table's columns, with that error, whatever rows the table holds. On success it returns exactly the matching rows. |
| Store.WithoutId | src/Unosquare.Labs.LiteLib/LiteDbSet.cs:230 | Deleting by id keeps exactly the rows with other ids. |
| Store.Replace | src/Unosquare.Labs.LiteLib/LiteDbSet.cs:276 | Updating by id changes only that row's values. |
| Store.AppendAll | src/Unosquare.Labs.LiteLib/LiteDbSet.cs:159-164 | The rows of InsertRange are appended in order, with consecutive ids. |
| Store.SubsequenceOrdered | src/Unosquare.Labs.LiteLib/TypeDefinition.cs:42 | Deleting keeps the ids strictly increasing. |
| Store.AppendLarger | src/Unosquare.Labs.LiteLib/TypeDefinition.cs:42 | Appending a larger id keeps the ids strictly increasing. |
| Store.CountIdAtMostOne | src/Unosquare.Labs.LiteLib/TypeDefinition.cs:42 | RowId is a key: at most one row has a given id, and exactly one iff some row has it. |
| Store.WhereError | src/Unosquare.Labs.LiteLib/LiteDbSet.cs:309 | A SELECT fails to prepare iff it compares a field that is neither RowId nor a column of the table (NoSuchColumn), or its WHERE text does not compile over the table's columns (BadCommand). The answer depends on the statement and the columns only. |
| Store.InsertAnswer | src/Unosquare.Labs.LiteLib/LiteDbSet.cs:139 | An INSERT fails with NoSuchTable iff the table is missing. It succeeds iff the table exists, every column it names is a column of the table, the row-local constraints accept the row, and no stored row holds the same non-NULL value in a UNIQUE column. The new id is lastId + 1. |
| Store.InsertAllAnswer | src/Unosquare.Labs.LiteLib/LiteDbSet.cs:154-164 | More than 500 SELECTs in one UNION ALL (SQLite's compound SELECT limit) is BadCommand. The many-row INSERT succeeds iff there is at least one row, no text holds a quote, the table exists, every row names only its columns, and no row is refused against the table as the rows before it left it. The count is the number of rows. |
| Store.UpdateAnswer | src/Unosquare.Labs.LiteLib/LiteDbSet.cs:276 | NoSuchTable iff the table is missing. When no row has the id, the UPDATE answers 0 without checking any constraint. It succeeds iff the table exists, the row names only its columns, and either no row has the id or the row is accepted and clashes with no other row in a UNIQUE column. The count is the number of rows with the id. |
| Store.CreateTables | src/Unosquare.Labs.LiteLib/TypeDefinition.cs:41-69 | Running each definition's `CREATE TABLE IF NOT EXISTS` and then its index statements, definition by definition, leaves exactly `RunScript` of the earlier tables. |
| Store.WithIndex | src/Unosquare.Labs.LiteLib/TypeDefinition.cs:59-68 | `CREATE [UNIQUE] INDEX IF NOT EXISTS` never changes a table's columns, rows or last id. |
| Store.WithIndexes | src/Unosquare.Labs.LiteLib/TypeDefinition.cs:55-69 | A run of index statements never changes a table's columns, rows or last id. |
| Store.FirstSpecAppend | src/Unosquare.Labs.LiteLib/TypeDefinition.cs:55-69 | Among two lists of index statements run one after the other, the first statement on a column is the first list's, if it has one, and otherwise the second list's. |
| Store.WithIndexesUnique | src/Unosquare.Labs.LiteLib/TypeDefinition.cs:59-68 | After a run of index statements on a table, a column is indexed iff it was, or the table has it and some statement names it. It is UNIQUE iff it was, or it had no index, the table has it, and the first statement naming it is the UNIQUE one. |
| Store.RunKeys | src/Unosquare.Labs.LiteLib/TypeDefinition.cs:41 | After the first i definitions, a table exists iff it existed before or one of them names it. |
| Store.RunKeeps | src/Unosquare.Labs.LiteLib/TypeDefinition.cs:41 | Tables that existed before keep their columns, rows and last id. A table the script creates has no rows and last id 0. |
| Store.RunFirstColumns | src/Unosquare.Labs.LiteLib/TypeDefinition.cs:41 | A table the script creates has the columns of the first definition that names it. |
| Store.FirstIndexNamed | src/Unosquare.Labs.LiteLib/TypeDefinition.cs:59-68 | An index statement on a table comes from a definition of that table. |
| Store.RunUnique | src/Unosquare.Labs.LiteLib/TypeDefinition.cs:55-69 | After the script, a column of a table is indexed iff it was before, or the table has it and some definition of that table holds an index statement on it. It is UNIQUE iff it was UNIQUE before, or it had no index before, the table has it, and the first statement on it in the whole script is the UNIQUE one. A table shared by several sets, or one that existed before, is covered too. |
| Store.SharedTableFirstIndexWins | src/Unosquare.Labs.LiteLib/TypeDefinition.cs:59-68 | Two definitions of table "X": a plain `IX_X_Name` followed by a unique one leaves `Name` not UNIQUE. A definition with no index on `Name` followed by a unique one leaves `Name` UNIQUE. |
| Store.FilterOrdered | src/Unosquare.Labs.LiteLib/LiteDbSet.cs:309 | The model lists a query's rows in increasing RowId order. The SELECT has no `ORDER BY`, so this order is the model's choice, not SQLite's promise. |
| Store.DuplicateUniqueRefused | test/Unosquare.Labs.LiteLib.Tests/DbContextFixture.Insert.cs:28-52 | Once a row with a non-NULL value in a UNIQUE column is stored, a second row with the same value there clashes, so its INSERT is refused. |
| SqlText.ParseJoin | src/Unosquare.Labs.LiteLib/TypeDefinition.cs:88-90 | `string.Join(", ", xs)` of comma-free entries splits back into xs. |
| SqlText.NatToStringRoundTrip | src/Unosquare.Labs.LiteLib/TypeDefinition.cs:139-141 | The decimal text of a natural number reads back as that number. |
| SqlText.IntToStringRoundTrip | src/Unosquare.Labs.LiteLib/LiteDbSet.cs:162 | The decimal text of an integer, with its sign, reads back as that integer. |
| SqlText.LinesAppend | src/Unosquare.Labs.LiteLib/LiteDbContext.cs:129-133 | The lines of two lists appended are the lines of each, concatenated. |
| SqlText.LinesAt | src/Unosquare.Labs.LiteLib/LiteDbContext.cs:129-133 | The k-th definition appears in the script as its own line, between the lines before it and the lines after it. |

## Left out

- SQLite, Dapper and transactions are replaced by the store in `store.dfy`. The command text is logged but not parsed. The store answers a query from its `Where` value rather than from the text `SelectCommand` builds.
- The store decides unknown tables, unknown columns and UNIQUE clashes from the columns its schema gave each table. The constraints that look at one row only (`NOT NULL`, the `CHECK` on string length), whether a schema script runs, and whether WHERE text a caller passes compiles and what it selects, are functions fixed when the connection is created.
- Column and table names are compared exactly. SQLite compares them without regard to case.
- A UNIQUE clash compares the model's values for equality, with no type affinity, so `'5'` and `5` do not clash.
- SQLite's limit on the length of one SQL statement is not modelled. The limit of 500 SELECTs in one compound SELECT is.
- `Context.Select`, `Context.Delete`, `Context.LogSqlCommand`, and the `Delete(whereText)` and `Query` methods that delegate to them are not part of this model, because the context source that defines them is not available.
- Reflection (`GetProperties`, attributes, `Activator.CreateInstance`, `MakeGenericType`) is replaced by the descriptors in `descriptors.dfy`. A type is identified with its descriptor, and that descriptor is the key of the definition caches.
- `GetTypeMapping()` is not part of this model. The newer builder is given the older builder's explicit affinity table.
- `Environment.NewLine` is fixed to a one-character "\n". The trim removes that newline and the comma. The older builder is modelled with its MONO branch, which removes two characters.
- The file system (`Path.GetFullPath`, `File.Exists`), the new `Guid` and the opened connection are parameters of `LiteDbContext.Create`. A Guid is an `int`.
- `VaccuumDatabaseAsync`, logging, `Debugger.IsAttached` and the debug messages are not modelled, because they are I/O only.
- The Async methods (`DeleteAsync`, `UpdateAsync`, `SelectAsync`, `SelectAllAsync`, `SingleAsync`, `FirstOrDefaultAsync`, `CountAsync`) are modelled by their synchronous twins. `InsertAsync` keeps its own branch on an empty result, in `CompleteInsertAsync`.
- Concurrency is not modelled: the concurrent dictionaries are plain maps and each operation is atomic.
- A `LiteDbSet` property that already holds a set when the context loads is not modelled. Every property is taken to start null and receive a fresh set. The `currentValue == null` check after `Activator.CreateInstance` can never succeed and is left out.
- `EntitySet` definitions, and its `Context` and `EntityType`, are constants fixed when the set is created. The source has protected setters for the definitions. `LoadEntitySets` sets `Context` and `EntityType` once, right after creating the set, and any later reassignment through their public setters is not modelled.
- The enumeration order of `_entitySets` is taken to be insertion order. `Dictionary` gives no such guarantee, but it holds while nothing is removed.
- LiteLib.LiteDbContext.LoadEntitySets, LiteLib.LiteDbContext.LoadNew and LiteLib.LiteDbContext.Create require distinct property names, which C# guarantees for the properties of one type.
- `LiteDbContext` merges the two contexts: the older one's `Logger` (with its `NullLog` default) and the newer one's `Connection` handling.
- Handlers that subscribe, raise events or call the set again from inside a handler are not modelled. A handler sees only the entity's state and the `Cancel` flag.
- LiteLib.EntitySet.InsertRange renders each value with `IntToString` or as the text itself, between single quotes, and stores that text. It does not model .NET's `ToString` for other types, nor SQLite's type affinity, which would turn `'5'` back into an integer in an INTEGER column. Any value holding a quote is modelled as a command the store refuses (BadCommand), including a value whose quotes happen to still parse, such as a doubled quote.
- RowId is a C# `long`; it is modelled as an unbounded `int`, with no 64-bit overflow.
- LiteLib.EntitySet.FirstOrDefault compares values by equality of the model's values. SQLite's type affinity, which converts text and integers before comparing against a column, is not modelled; only the NULL rule (a comparison with NULL is never true) is.
- LiteLib.LiteDbContext.CreateDatabase takes the store's acceptance of a schema script as the connection's `schemaAccepts` answer, fixed when the connection is created. The model does not derive it from the script's text, so a script that indexes a missing column (see `TypeDefinitions.IndexOnMissingColumn`) is refused only if that answer says so.
- Store.SqliteConnection.Query and LiteLib.EntitySet.Select list the selected rows in RowId order. The SELECT has no `ORDER BY`, so SQLite promises no order: a WHERE text that SQLite answers through an index returns rows in that index's order. The model does not capture that order.
- Store.SqliteConnection.ExecuteSchema does not refuse a `CREATE UNIQUE INDEX` on a table whose stored rows already hold a duplicate value. SQLite fails the script then. `schemaAccepts` looks at the script text only, so the model does not capture that failure.
- Index names are `IX_{table}_{column}` joined with underscores, so `IX_A_B_C` could name column `B_C` of table `A` or column `C` of table `A_B`. The model keys an index by its table and column and does not capture such a collision.
- Use after `Dispose`, or of a set with no context, is not modelled: `Insert`, `InsertAsync`, `Update`, the queries and `Count`, `Delete` with a nonzero RowId and a non-empty `InsertRange` require a live context. The source runs the before-handlers and then throws a NullReferenceException. `Delete` with RowId 0 and an empty `InsertRange` do not need a context.
- The newer `LiteDbSet` has its own builder and definition cache (src/Unosquare.Labs.LiteLib/LiteDbSet.cs:412-518), keyed by the set's type and without `AnyDefinition`. Its loop is the same as `TypeDefinition`'s, statement for statement, so the model gives the set the `TypeDefinition` build of its element type. It keeps one cache keyed by the entity type, so two set types over the same entity type share an entry, and the set ignores the build's `AnyDefinition`.
- `ILiteDbSet`, `ILiteModel`, `LiteModel` and the attribute classes are data only and are folded into the descriptors and `Entity`.
- `Extensions.ToSQLiteUtcDate` reads the clock and is not modelled.

## Findings

| source | as written | input that shows it | evidently intended | confidence | as-written member | corrected member |
|---|---|---|---|---|---|---|
| Unosquare.Labs.LiteLib/LiteDbSet.cs:181 | The default table name is `nameof(T)`, which is the literal "T" for every entity type. | Two entity types without `[Table]`, e.g. `Order` and `Warehouse`. Both map to table "T" and share its DELETE template. | The type's own name (`typeof(T).Name`), as the newer builder uses. | high (not executed) | LegacyDefinitions.LegacyTablesCollide | LegacyDefinitions.TableNameDistinguishesTypes |
| Unosquare.Labs.LiteLib/LiteDbSet.cs:227 | A property name is recorded before its type is classified, so a reference-typed property with no column still appears in the INSERT, UPDATE and SELECT templates. | A type "Orders" whose only property is `Owner` of a class type. The INSERT template names `[Owner]`, but the table has no such column. | Record a name only when a column is emitted, as the newer builder's `GeneratePropertyInfo` does. | high (not executed) | LegacyDefinitions.LegacyTemplateNamesMissingColumn | LegacyDefinitions.EveryRecordedNameHasColumn |
