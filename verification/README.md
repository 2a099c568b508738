# A verified model of a small Java framework toolkit

This project models, in Dafny, the core of four small Java frameworks:

* **ORM** (`ORM.java`):
  * It derives SQL for a bean type: `CREATE TABLE` with column types and key clauses, the `MERGE INTO` upsert, and `SELECT`s.
  * It implements repository interfaces through a proxy. Each call is dispatched on the method: an `@Query` query, `findBy<Property>`, `findAll`, `findById`, `save`, or an object method.
  * It runs blocks in a transaction bound to the current thread.
* **Injector registry** (`InjectorRegistry.java`):
  * It maps type keys to providers: a fixed instance, a supplier, or a class to construct.
  * It refuses a second registration of the same type.
  * It picks the constructor of a provider class when the class is registered, then resolves constructor parameters and `@Inject` setters through `lookupInstance`.
* **Interceptor registry** (`InterceptorRegistry.java`):
  * It keeps a per-annotation list of interceptors that only grows.
  * On each proxied call it collects the method's interceptors in annotation order and runs them as a chain in which the first one is outermost.
  * Around advice runs `after` in a `finally`.
* **JSON writer** (`JSONWriter.java`): a recursive serialiser for `null`, booleans, integers, strings and beans. A bean is written as its properties in descriptor order, without `class`, and strings are not escaped.

Everything is pure functions over immutable datatypes. There are a few methods with loops, written where the source loops: binding parameters, reading a row into an entity, and building the invocation chain.

## How the Java world is represented

* **Reflection:** a bean type is a `BeanType`, its property descriptors are a `seq<Prop>`, and each getter records its `@Column`, `@Id` and `@GeneratedValue` annotations. An injector class is a `ClassInfo` with its public constructors and bean properties.
* **Objects:** an entity is a `Bean`, a map from property name to `Value`. A missing name reads as `null`. A `save` argument is a `Ref` into a `Heap` of entities.
* **JDBC:** it is replaced by the answers the database gives during one call:
  * `QueryAnswer`: the rows, or a failure;
  * `SaveAnswer`: the update failure and the generated-keys result;
  * `Script`: the outcome of connect, `setAutoCommit`, the block, commit, rollback and close.

  Each model returns the `Statement` (SQL text and bound parameters) it would send.
* **The current connection:** this `ThreadLocal` is the slot `Option<Conn>` that goes into and comes out of a transaction.
* **Exceptions:** they are `Failure` values that name the error. A `SQLException` is `Sql`, and its unchecked wrapper is `UncheckedSql`.
* **Interceptors:** an invocation is observed as a trace of `Enter`, `Leave`, `Before`, `After` and `Call` events.
* **Instance identity:** a provider class builds a `Built` object carrying a creation serial, so two constructions can be told apart.

Behaviour of the code worth noting, which the model follows:

* The column type suffixes come in the order `AUTO_INCREMENT`, ` NOT NULL`, then the `PRIMARY KEY` clause.
* `save` writes a generated key back whenever the bean has an `@Id` property, not only for `@GeneratedValue` ids.
* `findBy<Name>` filters on the property name, not the column name.
* The repository resolves each method's strategy again on every call; nothing is memoised.
* A nested `transaction` silently replaces the outer binding and clears it on exit.

## Model

| member | source | states |
|---|---|---|
| Orm.CurrentConnection | orm/src/main/java/com/github/forax/framework/orm/ORM.java:79-85 | succeeds exactly when the thread has a bound connection, returning that connection; otherwise fails with "no current connection" |
| Schema.TypeMappingTable | orm/src/main/java/com/github/forax/framework/orm/ORM.java:36-42 | exactly `int`/`Integer` map to `INTEGER`, `long`/`Long` to `BIGINT` and `String` to `VARCHAR(255)`; every other type is unmapped |
| Schema.TableName | orm/src/main/java/com/github/forax/framework/orm/ORM.java:115-118 | the `@Table` value when present, else the simple class name, upper-cased; the result has no lower-case letter |
| Schema.ColumnName | orm/src/main/java/com/github/forax/framework/orm/ORM.java:120-126 | fails with "no getter" exactly when the property has no getter; otherwise the `@Column` value or the property name, upper-cased |
| Schema.ColumnType | orm/src/main/java/com/github/forax/framework/orm/ORM.java:128-141 | an unmappable type is reported before a missing getter; on success the text parses back to the mapped SQL type, `AUTO_INCREMENT` iff `@GeneratedValue`, `NOT NULL` iff the type is primitive, and a `PRIMARY KEY` on the column iff `@Id` |
| Schema.ParseRender | orm/src/main/java/com/github/forax/framework/orm/ORM.java:138-140 | the column type text is unambiguous: parsing a rendered definition recovers its type, both flags and the key column |
| Schema.PersistedMembers | orm/src/main/java/com/github/forax/framework/orm/ORM.java:148-149 | a property becomes a column exactly when its column name is not `CLASS`, and no property is invented |
| Schema.CreateTableColumns | orm/src/main/java/com/github/forax/framework/orm/ORM.java:148-155 | succeeds iff every property has a getter and every non-`CLASS` property's type maps; the entries are `name type` for the persisted properties in descriptor order; otherwise the error is "no getter" or "cannot map" |
| Schema.CreateTableSql | orm/src/main/java/com/github/forax/framework/orm/ORM.java:145-156 | `CREATE TABLE <TABLE> (` + entries joined by `, ` + `)`, with the same success condition |
| Schema.CreateTable | orm/src/main/java/com/github/forax/framework/orm/ORM.java:143-163 | a null bean type is refused before anything else; then mapping errors, then the missing connection, then the update's SQL failure; on success the statement has no parameters |
| Schema.SaveColumns | orm/src/main/java/com/github/forax/framework/orm/ORM.java:190-193 | succeeds iff every property has a getter; the column names of the persisted properties in order |
| Schema.SaveQuery | orm/src/main/java/com/github/forax/framework/orm/ORM.java:188-199 | `MERGE INTO T (cols) VALUES (?, ...);` over those columns, failing only for a missing getter |
| Schema.SaveQueryPlaceholders | orm/src/main/java/com/github/forax/framework/orm/ORM.java:194-197 | the upsert has exactly one `?` per persisted column |
| Schema.SaveColumnsSplit | orm/src/main/java/com/github/forax/framework/orm/ORM.java:190-193 | when there is at least one column and no column name contains `, `, splitting the column list at `, ` gives the column names back (with no column the list is empty and splits into one empty name) |
| EntityMapper.BoundMembers | orm/src/main/java/com/github/forax/framework/orm/ORM.java:204-207 | parameters are bound for exactly the properties not named `class` |
| EntityMapper.BindParameters | orm/src/main/java/com/github/forax/framework/orm/ORM.java:203-210 | the parameter slots are exactly 1..n, and slot k holds the getter value of the k-th bound property |
| EntityMapper.ToEntityClass | orm/src/main/java/com/github/forax/framework/orm/ORM.java:165-178 | the loop computes the positional reading `EntityOf`: property k (skipping `class`) receives column k+1, and a row that is too short fails with the missing column index |
| EntityMapper.ToEntityPositional | orm/src/main/java/com/github/forax/framework/orm/ORM.java:168-176 | with distinct property names, reading succeeds on a long enough row and the k-th bound property reads column k+1 |
| EntityMapper.SaveThenReadRoundTrip | orm/src/main/java/com/github/forax/framework/orm/ORM.java:165-178 | reading back the parameters `save` binds gives every non-`class` property its original value and leaves other fields as the fresh instance had them |
| EntityMapper.SaveArity | orm/src/main/java/com/github/forax/framework/orm/ORM.java:188-210 | the upsert has exactly as many `?` placeholders as `save` binds parameters, provided exactly the `class` property maps to column `CLASS` |
| EntityMapper.ClassColumnBoundAnyway | orm/src/main/java/com/github/forax/framework/orm/ORM.java:188-210 | that proviso is needed: a property annotated `@Column("class")` is left out of the upsert's columns but still bound as a parameter |
| EntityMapper.Save | orm/src/main/java/com/github/forax/framework/orm/ORM.java:201-222 | sends the upsert with the bound parameters; fails iff a getter is missing, the update fails, or fetching keys fails when an id exists; writes the generated key into the id property and nothing else, and leaves the bean unchanged without id or key row |
| EntityMapper.RunQuery | orm/src/main/java/com/github/forax/framework/orm/ORM.java:228-243 | sends the query with the arguments in order; a failing query fails with its SQL error; otherwise one entity per row, each read positionally, succeeding when every row is long enough |
| EntityMapper.FindId | orm/src/main/java/com/github/forax/framework/orm/ORM.java:245-254 | a null dereference exactly when a property has no getter; otherwise none when no property is `@Id`, the unique `@Id` property when there is one, and "unexpected value" carrying the count whenever there are several; no other error |
| EntityMapper.FindProperty | orm/src/main/java/com/github/forax/framework/orm/ORM.java:24-29 | the first property whose name is the decapitalised id, or "No property found" exactly when none has that name |
| Repository.BeanTypeFromRepository | orm/src/main/java/com/github/forax/framework/orm/ORM.java:44-60 | "invalid repository" exactly when no super-interface is a parameterised `Repository`; otherwise it succeeds exactly when the first such super-interface has a class as its argument, and returns that class; "invalid type argument" otherwise |
| Repository.CreateRepository | orm/src/main/java/com/github/forax/framework/orm/ORM.java:256-260 | a null repository type is refused first; otherwise a repository exists exactly when the bean type is found, it carries that type, its table name and its properties, and every failure is a null, invalid-repository or invalid-type-argument error |
| Repository.Resolve | orm/src/main/java/com/github/forax/framework/orm/ORM.java:264-297 | `@Query` wins; then `findBy<Name>` other than `findById` looks up the property; then `findAll`, the object methods (unsupported), `findById` and `save`; "unexpected value" exactly for every other name |
| Repository.FindByNameResolves | orm/src/main/java/com/github/forax/framework/orm/ORM.java:275-277 | `findBy` + the capitalised name of a lower-camel property other than `id` resolves to the first property with that name |
| Repository.CallQuery | orm/src/main/java/com/github/forax/framework/orm/ORM.java:264-273 | without a current connection it fails with "no current connection"; otherwise it succeeds exactly when the database returns readable rows; it sends the `@Query` text with the call's arguments; a `List` method gets every row as an entity in row order, any other method gets the first row or empty |
| Repository.CallFindBy | orm/src/main/java/com/github/forax/framework/orm/ORM.java:274-280 | the connection is checked before the argument; it succeeds exactly when both are present and the rows are readable; it selects `WHERE <property name> = ?` with the first argument and returns the first row or empty |
| Repository.CallFindAll | orm/src/main/java/com/github/forax/framework/orm/ORM.java:180-186 | without a connection it fails; otherwise it succeeds exactly when the rows are readable; it selects every row of the table and returns them all as entities in row order |
| Repository.CallFindById | orm/src/main/java/com/github/forax/framework/orm/ORM.java:284-290 | the argument, then the id property (a missing one is a null dereference, several are an error), then the connection; it selects `WHERE <id column> = ?` with the first argument and returns the first row or empty; it succeeds exactly when all of these are present and the rows are readable |
| Repository.CallSave | orm/src/main/java/com/github/forax/framework/orm/ORM.java:291-295 | the argument, the id property and the connection are checked in that order; the update failure is reported as a SQL failure; on success it sends the upsert with the entity's bound values, replaces that entity by the one `save` produced, and returns the same reference |
| Repository.Execute | orm/src/main/java/com/github/forax/framework/orm/ORM.java:281-297 | every strategy fails without a current connection; SQL failures arise only from the database answers; only `save` changes the heap, and never its set of addresses |
| Repository.WrapSql | orm/src/main/java/com/github/forax/framework/orm/ORM.java:299-301 | a checked SQL failure becomes its unchecked wrapper; everything else passes through |
| Repository.Invoke | orm/src/main/java/com/github/forax/framework/orm/ORM.java:262-302 | resolution errors surface as they are, execution results are wrapped, and no checked SQL failure leaves the proxy |
| Repository.SaveWritesBackKey | orm/src/main/java/com/github/forax/framework/orm/ORM.java:291-295 | `save` through the proxy returns its argument; with an id property and a generated key, the entity's id becomes the key, its other fields and every other entity are unchanged |
| Transaction.RunTransaction | orm/src/main/java/com/github/forax/framework/orm/ORM.java:87-113 | a failed connect or `setAutoCommit` fails before any binding; otherwise the connection is bound and the block runs with it, commit happens iff the block completed, rollback happens iff a SQL failure occurred, the first SQL failure is the one reported, a non-SQL error passes through, an unchecked SQL wrapper is unwrapped, and unbind and close always follow; the whole trace is setup, bind, block, then commit if the block completed, then rollback if a SQL failure occurred, then unbind and close |
| Transaction.CheckedTransaction | orm/src/main/java/com/github/forax/framework/orm/ORM.java:86-89 | a null data source or block is refused with a null error before any connection is requested, leaving the slot as it was; with both present the run is the transaction above |
| Transaction.NoConnectionAfterTransaction | orm/src/main/java/com/github/forax/framework/orm/ORM.java:109-111 | after a transaction, asking for the current connection fails |
| Transaction.NestedTransactionDropsOuterBinding | orm/src/main/java/com/github/forax/framework/orm/ORM.java:92 | a nested transaction's block sees the inner connection, and after it no connection is bound even though the outer one was |
| Transaction.RepositoryFailureRollsBack | orm/src/main/java/com/github/forax/framework/orm/ORM.java:97-108 | a repository call that fails with a SQL error inside the block makes the transaction roll back and report that SQL error |
| Injector.RegisterInstance | injector/src/main/java/com/github/forax/framework/injector/InjectorRegistry.java:13-20 | null arguments and an already registered type are refused with the registry unchanged; otherwise exactly the new type is added, bound to the instance |
| Injector.RegisterProvider | injector/src/main/java/com/github/forax/framework/injector/InjectorRegistry.java:22-29 | the same rule for a supplier |
| Injector.InjectedConstructor | injector/src/main/java/com/github/forax/framework/injector/InjectorRegistry.java:42-51 | more than one `@Inject` constructor is an error; exactly one is returned; none gives an empty result |
| Injector.ChooseConstructor | injector/src/main/java/com/github/forax/framework/injector/InjectorRegistry.java:56 | the unique `@Inject` constructor, or the parameterless constructor when none is annotated |
| Injector.RegisterProviderClass | injector/src/main/java/com/github/forax/framework/injector/InjectorRegistry.java:53-61 | nulls refused; a constructor problem is reported before the duplicate check; on success the type is bound to the class with the constructor chosen now; the registry is otherwise unchanged |
| Injector.FindInjectableProperties | injector/src/main/java/com/github/forax/framework/injector/InjectorRegistry.java:72-81 | exactly the properties other than `class` whose setter carries `@Inject`, as a subsequence of the descriptors in their order |
| Injector.Lookup | injector/src/main/java/com/github/forax/framework/injector/InjectorRegistry.java:63-70 | a null type fails; otherwise the lookup succeeds exactly when the type is `Resolvable`: it is registered, and for a provider class every constructor parameter and injectable property type resolves in turn. A registered instance is returned itself; a provider class yields a new object of that class with a serial never used before; every error is a null argument, an unregistered type, or the depth bound |
| Injector.Construct | injector/src/main/java/com/github/forax/framework/injector/InjectorRegistry.java:31-40 | builds the chosen class with one argument per constructor parameter and one injected value per injectable property, in order; it succeeds exactly when every parameter type and every injectable property type resolves; each argument and injected value is what its type's provider yields: the registered instance itself, the supplier's result, or an object built from the registered class |
| Injector.FirstMissingReported | injector/src/main/java/com/github/forax/framework/injector/InjectorRegistry.java:31-40 | dependencies are resolved in order, so the error names the first unregistered one when all before it resolve |
| Injector.ConstructReportsMissingParameter | injector/src/main/java/com/github/forax/framework/injector/InjectorRegistry.java:32-33 | an unregistered constructor parameter type makes construction fail with that type's "not registered" error, once the earlier parameters resolve |
| Injector.ResolvableMonotone | injector/src/main/java/com/github/forax/framework/injector/InjectorRegistry.java:63-70 | a lookup that resolves within a depth bound also resolves within any larger one; the bound only cuts off deep or cyclic chains |
| Injector.InstanceLookupStable | injector/src/main/java/com/github/forax/framework/injector/InjectorRegistry.java:63-70 | once `registerInstance(t, x)` succeeded, `lookupInstance(t)` returns `x` after any further registrations |
| Injector.ProviderClassBuildsFresh | injector/src/main/java/com/github/forax/framework/injector/InjectorRegistry.java:57 | two lookups of a class-provided type return two distinct instances |
| Interceptors.AddInterceptor | interceptor/src/main/java/org/github/forax/framework/interceptor/InterceptorRegistry.java:34-38 | null arguments refused; the interceptor is appended to its annotation's list and every other list is unchanged |
| Interceptors.AddAroundAdvice | interceptor/src/main/java/org/github/forax/framework/interceptor/InterceptorRegistry.java:15-32 | the advice's wrapper is appended the same way |
| Interceptors.FindInterceptors | interceptor/src/main/java/org/github/forax/framework/interceptor/InterceptorRegistry.java:40-44 | an interceptor is collected exactly when one of the method's annotations registered it |
| Interceptors.FindInterceptorsAppend | interceptor/src/main/java/org/github/forax/framework/interceptor/InterceptorRegistry.java:40-44 | collection follows annotation order: the lists concatenate as the annotations do |
| Interceptors.GetInvocation | interceptor/src/main/java/org/github/forax/framework/interceptor/InterceptorRegistry.java:46-54 | wrapping from the last interceptor to the first yields the chain whose first interceptor is outermost, and the bare target for no interceptors |
| Interceptors.Proceed | interceptor/src/main/java/org/github/forax/framework/interceptor/InterceptorRegistry.java:18-30 | running a chain enters its interceptors from the outermost in, calls the target once, exits them in reverse, an advice's `after` seeing the result or `null` when the call threw; the chain ends as the target ended |
| Interceptors.ProceedNest | interceptor/src/main/java/org/github/forax/framework/interceptor/InterceptorRegistry.java:46-54 | running the chain enters the interceptors in list order, calls the target once, exits them in reverse order, and ends as the target ended |
| Interceptors.AfterRunsOnThrow | interceptor/src/main/java/org/github/forax/framework/interceptor/InterceptorRegistry.java:22-27 | an around advice's `after` runs when the call throws, and receives `null` |
| Interceptors.CreateProxy | interceptor/src/main/java/org/github/forax/framework/interceptor/InterceptorRegistry.java:56-59 | both arguments are required |
| Interceptors.ProxyCall | interceptor/src/main/java/org/github/forax/framework/interceptor/InterceptorRegistry.java:75 | a proxied call runs the chain of the interceptors collected from the registry at call time |
| Interceptors.LateInterceptorApplies | interceptor/src/main/java/org/github/forax/framework/interceptor/InterceptorRegistry.java:75 | an interceptor added after the proxy exists is included in the next call, right after the ones its annotation already had |
| JsonWriter.ToJson | mapper/src/main/java/com/github/forax/framework/mapper/JSONWriter.java:29-39 | the first character tells which kind of value was written (`n`ull, `t`/`f` boolean, `-` or digit integer, `"` string, `{` bean), and a string or bean text ends with its closing delimiter |
| JsonWriter.Entry | mapper/src/main/java/com/github/forax/framework/mapper/JSONWriter.java:12-14 | an entry starts with a quote, holds the name, then `": "`, then the value's text; a name without quotes ends at the first quote after the opening one |
| JsonWriter.Entries | mapper/src/main/java/com/github/forax/framework/mapper/JSONWriter.java:19-23 | the entries are exactly those of the properties not named `class`, never more entries than properties |
| JsonWriter.ToJsonStrip | mapper/src/main/java/com/github/forax/framework/mapper/JSONWriter.java:21 | the `class` property never reaches the output, at any depth |
| JsonReader.ParseIntText | mapper/src/main/java/com/github/forax/framework/mapper/JSONWriter.java:33 | an integer is written as its decimal text, with a minus sign when negative, and reads back as the same value |
| JsonReader.ParseStringText | mapper/src/main/java/com/github/forax/framework/mapper/JSONWriter.java:36 | a string without quotes is written between quotes and reads back unchanged |
| JsonReader.ParseFieldEntry | mapper/src/main/java/com/github/forax/framework/mapper/JSONWriter.java:12-14 | an entry is the quoted name, `": "`, and the value, and reads back as that property |
| JsonReader.ParseFieldsJoin | mapper/src/main/java/com/github/forax/framework/mapper/JSONWriter.java:19-23 | a bean's entries, joined by `, ` and closed by `}`, read back as its properties in descriptor order |
| JsonReader.ParseToJson | mapper/src/main/java/com/github/forax/framework/mapper/JSONWriter.java:12-39 | the written text of a value is read back as that value and ends exactly where the text ends |
| JsonReader.RoundTrip | mapper/src/main/java/com/github/forax/framework/mapper/JSONWriter.java:29-39 | parsing `toJSON(v)` gives `v` for every value whose strings and names hold no quote and whose beans have no `class` property |
| JsonReader.ToJsonInjective | mapper/src/main/java/com/github/forax/framework/mapper/JSONWriter.java:29-39 | two values whose strings and names hold no quote and whose beans have no `class` property are written as the same text only when they are equal |
| JsonReader.NoEscapingMergesProperties | mapper/src/main/java/com/github/forax/framework/mapper/JSONWriter.java:36 | because strings are not escaped, a bean with one string property and a bean with two properties can serialise to the same text |
| Text.Decapitalize | orm/src/main/java/com/github/forax/framework/orm/ORM.java:26 | `Introspector.decapitalize`: the first letter is lowered unless the first two letters are both upper case; the rest is unchanged |

## Left out

- JDBC itself: connections, prepared statements and result sets are replaced by scripted answers. Statement preparation failures and failures of `getObject` beyond a missing column are not modelled. Closing a statement or result set is not modelled.
- Java reflection and `Introspector`: property lists, annotations and constructors are given as data. Their order is taken as the descriptor order the JDK reports.
- `Utils.defaultConstructor`, `Utils.newInstance`, `Utils.invokeMethod` and `Utils.beanInfo` are not part of this model. The default constructor is taken to be the first public parameterless one. Exceptions thrown by constructors, getters and setters are not modelled.
- `Proxy` creation and `ThreadLocal` per-thread storage: concurrency is out of scope, and the single current-connection slot is passed explicitly.
- `JSONWriter`'s `Double` and `Float` cases (floating-point formatting) and its `IntrospectionException` path.
- Text.ToUpper: `toUpperCase(Locale.ROOT)` is modelled for ASCII letters only. Text.Decapitalize: `Character.toLowerCase` is likewise ASCII-only.
- Injector.Lookup: a dependency chain deeper than the `fuel` parameter fails with `TooDeep`. The source would recurse without bound, and overflow the stack on a cycle.
- Injector.Lookup: a supplier's result is modelled as a value determined by the supplier. The source calls it again on each lookup.
- Interceptors.Proceed: an interceptor registered with `addInterceptor` is arbitrary code. It is modelled as one that proceeds exactly once and returns what it got. An advice's own exceptions from `before` or `after` are not modelled.
- EntityMapper.Save: a property without a setter, and a failing setter call when writing back the id, are not modelled.
- Repository.CallSave: a `save` whose argument is not an entity fails with a null dereference before any statement is sent. The source would first prepare the statement.
- EntityMapper.ToEntityClass: a property that has a getter but no setter makes the source's `invokeMethod` on the missing write method fail (ORM.java:174-175). `Prop` records no setter, so the model stores the column value anyway.
- JsonWriter.ToJson: a property with a setter but no getter makes `propertyToJson` fail on the missing read method (JSONWriter.java:13). A `Field` always carries a getter's value, so that failure is not modelled.
- The `registerProviderClass` setters come from the registered type, not from the implementation class. This is modelled as written.
- The exact Java exception classes (`IllegalStateException`, `IllegalArgumentException`, `NullPointerException`, `UnsupportedOperationException`) are collapsed into one `Error` value per message.
