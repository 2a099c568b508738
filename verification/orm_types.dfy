/**
 * Plain-data stand-ins for what the ORM obtains by reflection and JDBC:
 * bean properties with their getter annotations, property values, beans as
 * maps from property name to value, and the errors the ORM raises.
 */
module Orm {
  import opened Wrappers

  /** The declared Java type of a property; only the first five have a SQL column type. */
  datatype JavaType =
    | IntPrim       // int
    | IntBoxed      // java.lang.Integer
    | LongPrim      // long
    | LongBoxed     // java.lang.Long
    | StringType    // java.lang.String
    | OtherType(typeName: string, primitive: bool)

  /** Whether the getter's return type is a primitive (so the column cannot hold NULL). */
  predicate IsPrimitive(t: JavaType) {
    t.IntPrim? || t.LongPrim? || (t.OtherType? && t.primitive)
  }

  /** The annotations found on a property's getter: `@Column(value)`, `@Id`, `@GeneratedValue`. */
  datatype Getter = Getter(column: Option<string>, isId: bool, isGenerated: bool)

  /**
   * A bean property as the introspector reports it. A property without a getter
   * (write-only) has `getter == None`; its annotations are then unreachable.
   */
  datatype Prop = Prop(name: string, javaType: JavaType, getter: Option<Getter>)

  /** An entity class: its simple name, its `@Table` value if any, and its ordered properties. */
  datatype BeanType = BeanType(simpleName: string, table: Option<string>, props: seq<Prop>)

  /**
   * A column, parameter or property value. `Ref` is a reference to an object
   * the ORM does not look into, such as the entity passed to `save`.
   */
  datatype Value = Null | IntValue(i: int) | TextValue(s: string) | Ref(address: nat)

  /** An entity instance: the value of each property by name; a missing name reads as `Null`. */
  type Bean = map<string, Value>

  function Read(bean: Bean, name: string): Value {
    if name in bean then bean[name] else Null
  }

  /** Why the database refused a request. */
  datatype SqlFailure =
    | DbFailure(code: nat)       // any failure reported by the driver
    | NoSuchColumn(index: nat)   // `getObject(index)` past the last column of a row

  /** Everything the ORM can throw. */
  datatype Error =
    | NoGetter(property: string)          // IllegalArgumentException "has no getter"
    | CannotMap(property: string)         // IllegalArgumentException "cannot map ... to a SQL type"
    | NoPropertyFound                     // IllegalStateException from findProperty
    | TooManyIds(count: nat)              // IllegalStateException from findId
    | UnexpectedMethod(name: string)      // IllegalStateException for an unknown repository method
    | Unsupported                         // UnsupportedOperationException for equals/hashCode/toString
    | NoCurrentConnection                 // IllegalStateException "no current connection"
    | InvalidRepository                   // IllegalArgumentException "invalid repository interface"
    | InvalidTypeArgument                 // IllegalArgumentException "invalid type argument"
    | NullReference                       // a null dereference, missing argument or argument of the wrong class;
                                          // the exact exception type is not modelled
    | Sql(failure: SqlFailure)            // a checked SQLException
    | UncheckedSql(failure: SqlFailure)   // an SQLException wrapped to cross the repository proxy
    | Raised(code: nat)                   // any other runtime exception thrown by user code

  /** An opaque handle for a JDBC connection. */
  type Conn = nat

  /**
   * `currentConnection()`: the connection bound to the calling context, or
   * "no current connection" when none is bound.
   */
  function CurrentConnection(slot: Option<Conn>): (r: Result<Conn, Error>)
    ensures r.Success? <==> slot.Some?
    ensures r.Success? ==> r.value == slot.value
    ensures r.Failure? ==> r.error == NoCurrentConnection
  {
    match slot
    case Some(c) => Success(c)
    case None => Failure(NoCurrentConnection)
  }

  /** A prepared statement as sent to the database: its text and the values bound to `?` 1, 2, ... */
  datatype Statement = Statement(sql: string, params: seq<Value>)
}
