/**
 * The structural description of a record type that stands in for .NET
 * reflection: the type's name, its optional [Table] attribute and its public
 * instance properties in declaration order, each with the attributes the
 * builder looks at. The same is given for a context type (its public
 * properties, some of which are entity sets).
 */
module Descriptors {
  import opened Wrappers

  /** The fixed identity column of every mapped table (ILiteModel.RowId). */
  const IdentityColumn: string := "RowId"

  /** The value types the affinity table distinguishes; every other struct is OtherValueType. */
  datatype Primitive =
    | Int16 | Int32 | Int64
    | UInt16 | UInt32 | UInt64
    | Byte | Char
    | Decimal | Boolean
    | DateTime
    | OtherValueType(typeName: string)

  /** The declared type of a property. */
  datatype PropertyType =
    | StringType                      // System.String
    | ValueType(primitive: Primitive) // a non-nullable struct
    | NullableOf(primitive: Primitive) // Nullable<struct>
    | ByteArray                       // byte[]
    | ReferenceType(typeName: string) // any other class

  /**
   * One public instance property and the attributes on it:
   * [NotMapped], [LiteIndex], [LiteUnique], [Required] and [StringLength(n)].
   */
  datatype Property = Property(
    name: string,
    canWrite: bool,
    propertyType: PropertyType,
    notMapped: bool,
    liteIndex: bool,
    liteUnique: bool,
    required: bool,
    stringLength: Option<int>)

  /** A record type: its bare name, its [Table] attribute if any, its properties in declaration order. */
  datatype TypeDescriptor = TypeDescriptor(
    name: string,
    tableAttribute: Option<string>,
    properties: seq<Property>)

  /**
   * A character that may appear in a C# identifier. Identifiers take Unicode
   * letters, digits, connectors and marks; the model only relies on what they
   * never take: white space and the punctuation the SQL texts are built from.
   */
  predicate IsIdentifierChar(c: char) {
    c !in {' ', '\t', '\n', '\r', ',', '.', ';', '[', ']', '(', ')', '@', '=', '\'', '"'}
  }

  /** A C# identifier: non-empty and made of identifier characters. */
  predicate IsIdentifier(s: string) {
    |s| > 0 && forall k :: 0 <= k < |s| ==> IsIdentifierChar(s[k])
  }

  /** What reflection guarantees of a record type: every property name is an identifier. */
  predicate WellFormed(t: TypeDescriptor) {
    forall i :: 0 <= i < |t.properties| ==> IsIdentifier(t.properties[i].name)
  }

  /** The declared type of a property of a context class. */
  datatype ContextPropertyType =
    | EntitySetOf(entity: TypeDescriptor) // LiteDbSet<entity>
    | OtherPropertyType(typeName: string)

  datatype ContextProperty = ContextProperty(name: string, propertyType: ContextPropertyType)

  /** A class derived from LiteDbContext: its name and public instance properties in declaration order. */
  datatype ContextDescriptor = ContextDescriptor(name: string, properties: seq<ContextProperty>)

  /** Property names of a class are distinct. */
  predicate DistinctNames(c: ContextDescriptor) {
    forall i, j :: 0 <= i < j < |c.properties| ==> c.properties[i].name != c.properties[j].name
  }
}
