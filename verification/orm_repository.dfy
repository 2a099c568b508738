/**
 * `createRepository`: the entity type is read from the repository
 * interface's `Repository<T, ID>` super-interface, and every call on the
 * proxy is resolved by method name and `@Query` into a strategy, executed,
 * and any SQL failure wrapped so it can cross the proxy.
 */
module Repository {
  import opened Wrappers
  import opened Text
  import opened Orm
  import opened Schema
  import opened EntityMapper

  /** The raw type of a generic super-interface: `Repository` itself or something else. */
  datatype RawType = RepositoryRaw | OtherRaw(name: string)

  /** The first actual type argument: a class, or a type variable / wildcard / parameterised type. */
  datatype TypeArg = ClassArg(bean: BeanType) | NonClassArg

  /** One entry of `getGenericInterfaces()`. */
  datatype SuperInterface = Parameterized(raw: RawType, firstArg: TypeArg) | PlainInterface(name: string)

  predicate IsRepositorySuper(i: SuperInterface) {
    i.Parameterized? && i.raw == RepositoryRaw
  }

  /** The position of the first `Repository<...>` super-interface, or `|ifaces|` when there is none. */
  function FirstRepositorySuper(ifaces: seq<SuperInterface>): (k: nat)
    ensures k <= |ifaces|
    ensures k < |ifaces| ==> IsRepositorySuper(ifaces[k])
    ensures forall j :: 0 <= j < k ==> !IsRepositorySuper(ifaces[j])
  {
    if |ifaces| == 0 then 0
    else if IsRepositorySuper(ifaces[0]) then 0
    else
      var k := FirstRepositorySuper(ifaces[1..]);
      assert forall j :: 1 <= j < k + 1 ==> ifaces[j] == ifaces[1..][j - 1];
      k + 1
  }

  /**
   * `findBeanTypeFromRepository`: the class argument of the first
   * `Repository<...>` super-interface; an invalid repository when there is
   * none, an invalid type argument when that argument is not a class.
   */
  function BeanTypeFromRepository(ifaces: seq<SuperInterface>): (r: Result<BeanType, Error>)
    ensures r == Failure(InvalidRepository) <==> forall j :: 0 <= j < |ifaces| ==> !IsRepositorySuper(ifaces[j])
    ensures r.Success? ==> exists k :: 0 <= k < |ifaces| && ifaces[k] == Parameterized(RepositoryRaw, ClassArg(r.value)) &&
                                       forall j :: 0 <= j < k ==> !IsRepositorySuper(ifaces[j])
    ensures r.Failure? ==> r.error == InvalidRepository || r.error == InvalidTypeArgument
    ensures (exists j :: 0 <= j < |ifaces| && IsRepositorySuper(ifaces[j])) ==>
              (r.Success? <==> ifaces[FirstRepositorySuper(ifaces)].firstArg.ClassArg?)
  {
    var k := FirstRepositorySuper(ifaces);
    if k == |ifaces| then Failure(InvalidRepository)
    else match ifaces[k].firstArg
      case ClassArg(b) => Success(b)
      case NonClassArg => Failure(InvalidTypeArgument)
  }

  /** What `createRepository` fixes once: the entity type, its table name and its properties. */
  datatype RepositoryImpl = RepositoryImpl(beanType: BeanType, tableName: string, props: seq<Prop>)

  /**
   * `createRepository`: a null repository type is refused first; otherwise
   * the bean type is found and the table name derived.
   */
  function CreateRepository(repositoryType: Option<seq<SuperInterface>>): (r: Result<RepositoryImpl, Error>)
    ensures repositoryType.None? ==> r == Failure(NullReference)
    ensures repositoryType.Some? ==> (r.Success? <==> BeanTypeFromRepository(repositoryType.value).Success?)
    ensures r.Success? ==> var b := BeanTypeFromRepository(repositoryType.value).value;
                           r.value == RepositoryImpl(b, TableName(b), b.props)
    ensures r.Failure? ==> r.error == NullReference || r.error == InvalidRepository || r.error == InvalidTypeArgument
  {
    if repositoryType.None? then Failure(NullReference)
    else
      var b :- BeanTypeFromRepository(repositoryType.value);
      Success(RepositoryImpl(b, TableName(b), b.props))
  }

  /** A repository method as the proxy sees it: name, `@Query` text if any, and whether it returns a `List`. */
  datatype MethodSig = MethodSig(name: string, query: Option<string>, returnsList: bool)

  /** How a call is answered. */
  datatype Strategy =
    | CustomQuery(sql: string, returnsList: bool)
    | FindByProperty(property: Prop)
    | FindAll
    | FindById
    | Save

  const FindByPrefix: string := "findBy"

  predicate IsObjectMethod(name: string) {
    name == "equals" || name == "hashCode" || name == "toString"
  }

  /**
   * The dispatch of the proxy's handler, re-run on every call: `@Query` first,
   * then `findBy<Property>` (other than `findById`), then `findAll`, the
   * unsupported `equals`/`hashCode`/`toString`, `findById`, `save`, and an
   * error for any other name.
   */
  function Resolve(props: seq<Prop>, m: MethodSig): (r: Result<Strategy, Error>)
    ensures m.query.Some? ==> r == Success(CustomQuery(m.query.value, m.returnsList))
    ensures m.query.None? && StartsWith(m.name, FindByPrefix) && m.name != "findById" ==>
              r == (var p :- FindProperty(props, m.name[|FindByPrefix|..]); Success(FindByProperty(p)))
    ensures m.query.None? && m.name == "findAll" ==> r == Success(FindAll)
    ensures m.query.None? && IsObjectMethod(m.name) ==> r == Failure(Unsupported)
    ensures m.query.None? && m.name == "findById" ==> r == Success(FindById)
    ensures m.query.None? && m.name == "save" ==> r == Success(Save)
    ensures r.Failure? ==> r.error == Unsupported || r.error == NoPropertyFound || r.error == UnexpectedMethod(m.name)
    ensures r == Failure(UnexpectedMethod(m.name)) <==>
              m.query.None? && !StartsWith(m.name, FindByPrefix) && !IsObjectMethod(m.name) &&
              m.name !in {"findAll", "findById", "save"}
  {
    assert |FindByPrefix| == 6 && FindByPrefix[4] == 'B';
    assert "findAll"[..6][4] == 'A';
    assert !StartsWith("findAll", FindByPrefix) && !StartsWith("save", FindByPrefix);
    assert !StartsWith("equals", FindByPrefix) && !StartsWith("hashCode", FindByPrefix) && !StartsWith("toString", FindByPrefix);
    if m.query.Some? then Success(CustomQuery(m.query.value, m.returnsList))
    else if StartsWith(m.name, FindByPrefix) && m.name != "findById" then
      var p :- FindProperty(props, m.name[|FindByPrefix|..]);
      Success(FindByProperty(p))
    else if m.name == "findAll" then Success(FindAll)
    else if IsObjectMethod(m.name) then Failure(Unsupported)
    else if m.name == "findById" then Success(FindById)
    else if m.name == "save" then Success(Save)
    else Failure(UnexpectedMethod(m.name))
  }

  /** The bean-property name a `findBy` suffix stands for: the first letter upper-cased. */
  function Capitalize(n: string): string {
    if |n| == 0 then n else [UpperChar(n[0])] + n[1..]
  }

  /**
   * For a property named in the usual lower-camel style, the method
   * `findBy` + its capitalised name resolves to a search on that property
   * (the first one of that name), unless the name is `id`.
   */
  lemma FindByNameResolves(props: seq<Prop>, k: nat, returnsList: bool)
    requires k < |props|
    requires |props[k].name| > 0 && IsLower(props[k].name[0])
    requires !(|props[k].name| > 1 && IsUpper(props[k].name[1]))
    requires props[k].name != "id"
    ensures Resolve(props, MethodSig(FindByPrefix + Capitalize(props[k].name), None, returnsList))
            == Success(FindByProperty(props[FirstNamed(props, props[k].name)]))
  {
    var n := props[k].name;
    var m := FindByPrefix + Capitalize(n);
    assert m[..|FindByPrefix|] == FindByPrefix;
    assert m[|FindByPrefix|..] == Capitalize(n);
    assert Decapitalize(Capitalize(n)) == n by {
      var c := Capitalize(n);
      assert c[1..] == n[1..];
      assert [c[0]] + c[1..] == c;
      assert [n[0]] + n[1..] == n;
    }
    assert Capitalize(n) != "Id" by {
      var c := Capitalize(n);
      if |n| == 2 && n[1] == 'd' {
        assert n[0] != 'i' by { assert n == [n[0], n[1]]; }
        assert c[0] != 'I';
      } else if |n| == 2 {
        assert c[1] != 'd';
      }
    }
    assert m != "findById" by {
      assert "findById"[|FindByPrefix|..] == "Id";
    }
    assert FirstNamed(props, n) <= k;
  }

  /** The reply of a repository call. */
  datatype Reply = ListReply(beans: seq<Bean>) | OptionalReply(found: Option<Bean>) | ObjectReply(value: Value)

  /** What the database answers during one call. */
  datatype Db = Db(query: QueryAnswer, save: SaveAnswer)

  /** Objects reachable through a `Ref`, by address: the entity instances passed to `save`. */
  type Heap = map<nat, Bean>

  /** The effect of one call: the statement sent, the reply, and the heap afterwards. */
  datatype Effect = Effect(statement: Statement, reply: Reply, heap: Heap)

  function FirstOf(beans: seq<Bean>): (r: Option<Bean>)
    ensures r.None? <==> |beans| == 0
    ensures r.Some? ==> r.value == beans[0]
  {
    if |beans| == 0 then None else Some(beans[0])
  }

  function SelectWhere(tableName: string, column: string): string {
    "SELECT * FROM " + tableName + " WHERE " + column + " = ?"
  }

  /**
   * An `@Query` method: asks for the current connection, then runs the query
   * with the call's arguments; a `List` method gets every row, any other the
   * first row if there is one.
   */
  function CallQuery(repo: RepositoryImpl, sql: string, returnsList: bool, args: seq<Value>,
                     slot: Option<Conn>, db: Db, heap: Heap, blank: Bean): (r: Result<Effect, Error>)
    ensures slot.None? ==> r == Failure(NoCurrentConnection)
    ensures slot.Some? && db.query.QueryFails? ==> r == Failure(Sql(db.query.failure))
    ensures r.Success? <==> slot.Some? && RowsReadable(repo.props, db.query)
    ensures r.Success? ==> r.value.statement == Statement(sql, args) && r.value.heap == heap
    ensures r.Success? && returnsList ==>
              r.value.reply.ListReply? && ReadsRows(repo.props, db.query.rows, blank, r.value.reply.beans)
    ensures r.Success? && !returnsList ==>
              r.value.reply.OptionalReply? && ReadsFirstRow(repo.props, db.query.rows, blank, r.value.reply.found)
    ensures r.Failure? && r.error.Sql? ==> slot.Some? && !RowsReadable(repo.props, db.query)
  {
    var _ :- CurrentConnection(slot);
    var (st, beans) :- RunQuery(sql, repo.props, args, db.query, blank);
    Success(Effect(st, if returnsList then ListReply(beans) else OptionalReply(FirstOf(beans)), heap))
  }

  /**
   * `findBy<Property>`: asks for the current connection, then selects on the
   * property's name with the first argument, and answers the first row if any.
   */
  function CallFindBy(repo: RepositoryImpl, p: Prop, args: seq<Value>,
                      slot: Option<Conn>, db: Db, heap: Heap, blank: Bean): (r: Result<Effect, Error>)
    ensures slot.None? ==> r == Failure(NoCurrentConnection)
    ensures slot.Some? && |args| == 0 ==> r == Failure(NullReference)
    ensures slot.Some? && |args| > 0 && db.query.QueryFails? ==> r == Failure(Sql(db.query.failure))
    ensures r.Success? <==> slot.Some? && |args| > 0 && RowsReadable(repo.props, db.query)
    ensures r.Success? ==>
              r.value.statement == Statement("SELECT * FROM " + repo.tableName + " WHERE " + p.name + " = ?", [args[0]]) &&
              r.value.heap == heap
    ensures r.Success? ==>
              r.value.reply.OptionalReply? && ReadsFirstRow(repo.props, db.query.rows, blank, r.value.reply.found)
    ensures r.Failure? && r.error.Sql? ==> slot.Some? && !RowsReadable(repo.props, db.query)
  {
    var sql := SelectWhere(repo.tableName, p.name);
    var _ :- CurrentConnection(slot);
    if |args| == 0 then Failure(NullReference)
    else
      var (st, beans) :- RunQuery(sql, repo.props, [args[0]], db.query, blank);
      Success(Effect(st, OptionalReply(FirstOf(beans)), heap))
  }

  /** `findAll()`: every row of the entity's table. */
  function CallFindAll(repo: RepositoryImpl, slot: Option<Conn>, db: Db, heap: Heap, blank: Bean): (r: Result<Effect, Error>)
    ensures slot.None? ==> r == Failure(NoCurrentConnection)
    ensures slot.Some? && db.query.QueryFails? ==> r == Failure(Sql(db.query.failure))
    ensures r.Success? <==> slot.Some? && RowsReadable(repo.props, db.query)
    ensures r.Success? ==> r.value.statement == Statement("SELECT * FROM " + TableName(repo.beanType), []) && r.value.heap == heap
    ensures r.Success? ==>
              r.value.reply.ListReply? && ReadsRows(repo.props, db.query.rows, blank, r.value.reply.beans)
    ensures r.Failure? && r.error.Sql? ==> slot.Some? && !RowsReadable(repo.props, db.query)
  {
    var _ :- CurrentConnection(slot);
    var (st, beans) :- RunQuery("SELECT * FROM " + TableName(repo.beanType), repo.props, [], db.query, blank);
    Success(Effect(st, ListReply(beans), heap))
  }

  /**
   * `findById`: reads the first argument, finds the id property (a missing one
   * is a null dereference when its column is named), then asks for the
   * connection and selects on the id column.
   */
  function CallFindById(repo: RepositoryImpl, args: seq<Value>,
                        slot: Option<Conn>, db: Db, heap: Heap, blank: Bean): (r: Result<Effect, Error>)
    ensures |args| == 0 ==> r == Failure(NullReference)
    ensures |args| > 0 && FindId(repo.props).Failure? ==> r == Failure(FindId(repo.props).error)
    ensures |args| > 0 && FindId(repo.props) == Success(None) ==> r == Failure(NullReference)
    ensures |args| > 0 && FindId(repo.props).Success? && FindId(repo.props).value.Some? && slot.None? ==>
              r == Failure(NoCurrentConnection)
    ensures r.Success? <==>
              |args| > 0 && FindId(repo.props).Success? && FindId(repo.props).value.Some? &&
              slot.Some? && RowsReadable(repo.props, db.query)
    ensures r.Success? ==>
              var id := FindId(repo.props).value.value;
              ColumnName(id).Success? &&
              r.value.statement == Statement("SELECT * FROM " + repo.tableName + " WHERE " + ColumnName(id).value + " = ?", [args[0]]) &&
              r.value.heap == heap
    ensures r.Success? ==>
              r.value.reply.OptionalReply? && ReadsFirstRow(repo.props, db.query.rows, blank, r.value.reply.found)
    ensures r.Failure? && r.error.Sql? ==> slot.Some? && !RowsReadable(repo.props, db.query)
  {
    if |args| == 0 then Failure(NullReference)
    else
      var idProp :- FindId(repo.props);
      if idProp.None? then Failure(NullReference)
      else
        var column := ColumnName(idProp.value).value;
        var sql := SelectWhere(repo.tableName, column);
        var _ :- CurrentConnection(slot);
        var (st, beans) :- RunQuery(sql, repo.props, [args[0]], db.query, blank);
        Success(Effect(st, OptionalReply(FirstOf(beans)), heap))
  }

  /**
   * `save`: reads the first argument, finds the id property, asks for the
   * connection and saves the referenced entity, which is returned.
   */
  function CallSave(repo: RepositoryImpl, args: seq<Value>,
                    slot: Option<Conn>, db: Db, heap: Heap, blank: Bean): (r: Result<Effect, Error>)
    ensures |args| == 0 ==> r == Failure(NullReference)
    ensures |args| > 0 && FindId(repo.props).Failure? ==> r == Failure(FindId(repo.props).error)
    ensures |args| > 0 && FindId(repo.props).Success? && slot.None? ==> r == Failure(NoCurrentConnection)
    ensures |args| > 0 && FindId(repo.props).Success? && slot.Some? && !(args[0].Ref? && args[0].address in heap) ==>
              r == Failure(NullReference)
    ensures (|args| > 0 && FindId(repo.props).Success? && slot.Some? && args[0].Ref? && args[0].address in heap &&
             db.save.update.Some?) ==> r == Failure(Sql(db.save.update.value))
    ensures r.Success? <==>
              |args| > 0 && FindId(repo.props).Success? && slot.Some? && args[0].Ref? && args[0].address in heap &&
              db.save.update.None? && !(FindId(repo.props).value.Some? && db.save.keys.KeysFail?)
    ensures r.Success? ==>
              var bean := heap[args[0].address];
              r.value.reply == ObjectReply(args[0]) &&
              r.value.statement == Statement(SaveQuery(repo.tableName, repo.props).value, Params(repo.props, bean)) &&
              r.value.heap == heap[args[0].address := EntityMapper.Save(repo.tableName, repo.props, bean, FindId(repo.props).value, db.save).value.bean]
    ensures r.Failure? && r.error.Sql? ==> slot.Some? && (db.save.update.Some? || db.save.keys.KeysFail?)
  {
    if |args| == 0 then Failure(NullReference)
    else
      var idProp :- FindId(repo.props);
      var _ :- CurrentConnection(slot);
      if !(args[0].Ref? && args[0].address in heap) then Failure(NullReference)
      else
        var saved :- EntityMapper.Save(repo.tableName, repo.props, heap[args[0].address], idProp, db.save);
        Success(Effect(saved.statement, ObjectReply(args[0]), heap[args[0].address := saved.bean]))
  }

  /** Runs a resolved strategy. SQL failures come back as `Sql`; the caller wraps them. */
  function Execute(repo: RepositoryImpl, s: Strategy, args: seq<Value>, slot: Option<Conn>, db: Db, heap: Heap, blank: Bean)
    : (r: Result<Effect, Error>)
    ensures r.Failure? && r.error.Sql? ==>
              slot.Some? && (db.query.QueryFails? || db.save.update.Some? || db.save.keys.KeysFail? ||
                             exists k :: 0 <= k < |db.query.rows| && |db.query.rows[k]| < |Bound(repo.props)|)
    ensures slot.None? ==> r.Failure?
    ensures slot.None? && !s.FindById? && !s.Save? ==> r == Failure(NoCurrentConnection)
    ensures r.Success? && s.CustomQuery? ==> (s.returnsList <==> r.value.reply.ListReply?)
    ensures r.Success? && s.CustomQuery? ==> r.value.statement == Statement(s.sql, args)
    ensures r.Success? && s.FindAll? ==> r.value.reply.ListReply? && r.value.statement == Statement("SELECT * FROM " + TableName(repo.beanType), [])
    ensures r.Success? && s.FindByProperty? ==>
              r.value.reply.OptionalReply? && |args| > 0 &&
              r.value.statement == Statement(SelectWhere(repo.tableName, s.property.name), [args[0]])
    ensures r.Success? && s.FindById? ==> r.value.reply.OptionalReply? && |args| > 0 && r.value.statement.params == [args[0]]
    ensures r.Success? && !s.Save? ==> r.value.heap == heap
    ensures r.Success? && s.Save? ==> |args| > 0 && r.value.reply == ObjectReply(args[0]) && r.value.heap.Keys == heap.Keys
  {
    match s
    case CustomQuery(sql, returnsList) => CallQuery(repo, sql, returnsList, args, slot, db, heap, blank)
    case FindByProperty(p) => CallFindBy(repo, p, args, slot, db, heap, blank)
    case FindAll => CallFindAll(repo, slot, db, heap, blank)
    case FindById => CallFindById(repo, args, slot, db, heap, blank)
    case Save => CallSave(repo, args, slot, db, heap, blank)
  }

  /** The handler's `catch (SQLException e)`: a checked SQL failure leaves the proxy wrapped. */
  function WrapSql<T>(r: Result<T, Error>): (w: Result<T, Error>)
    ensures r.Success? ==> w == r
    ensures r.Failure? && r.error.Sql? ==> w == Failure(UncheckedSql(r.error.failure))
    ensures r.Failure? && !r.error.Sql? ==> w == r
  {
    match r
    case Failure(Sql(f)) => Failure(UncheckedSql(f))
    case _ => r
  }

  /** One call on the repository proxy: resolve, execute, wrap. */
  function Invoke(repo: RepositoryImpl, m: MethodSig, args: seq<Value>, slot: Option<Conn>, db: Db, heap: Heap, blank: Bean)
    : (r: Result<Effect, Error>)
    ensures r.Failure? ==> !r.error.Sql?
    ensures Resolve(repo.props, m).Failure? ==> r == Failure(Resolve(repo.props, m).error)
    ensures Resolve(repo.props, m).Success? ==>
              r == WrapSql(Execute(repo, Resolve(repo.props, m).value, args, slot, db, heap, blank))
  {
    var s :- Resolve(repo.props, m);
    WrapSql(Execute(repo, s, args, slot, db, heap, blank))
  }

  /**
   * `after` is `before` with the entity at `address` given `key` as its `idName`
   * property: no other property of that entity and no other entity changed.
   */
  ghost predicate KeyWrittenBack(before: Heap, after: Heap, address: nat, idName: string, key: Value) {
    address in before && address in after &&
    Read(after[address], idName) == key &&
    (forall n :: n != idName ==> Read(after[address], n) == Read(before[address], n)) &&
    (forall a :: a in before && a != address ==> a in after && after[a] == before[a])
  }

  /** `save` with an id property and a generated key writes the key into the saved entity only. */
  lemma CallSaveWritesBack(repo: RepositoryImpl, args: seq<Value>, c: Conn, db: Db, heap: Heap, blank: Bean, id: Prop)
    requires |args| > 0 && args[0].Ref? && args[0].address in heap
    requires FindId(repo.props) == Success(Some(id))
    requires db.save.update.None? && db.save.keys.KeyRow?
    ensures var e := CallSave(repo, args, Some(c), db, heap, blank);
            e.Success? && e.value.reply == ObjectReply(args[0]) &&
            KeyWrittenBack(heap, e.value.heap, args[0].address, id.name, db.save.keys.key)
  {
    var e := CallSave(repo, args, Some(c), db, heap, blank);
    assert AllReadable(repo.props);
    var saved := EntityMapper.Save(repo.tableName, repo.props, heap[args[0].address], Some(id), db.save);
    assert saved.Success?;
    assert e.value.heap == heap[args[0].address := saved.value.bean];
  }

  /**
   * A `save` call on the proxy returns the same entity reference it was given;
   * when the entity has an id property and the database returns a generated
   * key, that key is now the id, and nothing else in the entity changed.
   */
  lemma SaveWritesBackKey(repo: RepositoryImpl, args: seq<Value>, c: Conn, db: Db, heap: Heap, blank: Bean, id: Prop)
    requires |args| > 0 && args[0].Ref? && args[0].address in heap
    requires FindId(repo.props) == Success(Some(id))
    requires db.save.update.None? && db.save.keys.KeyRow?
    ensures var r := Invoke(repo, MethodSig("save", None, false), args, Some(c), db, heap, blank);
            r.Success? && r.value.reply == ObjectReply(args[0]) &&
            KeyWrittenBack(heap, r.value.heap, args[0].address, id.name, db.save.keys.key)
  {
    ResolveSave(repo.props);
    CallSaveWritesBack(repo, args, c, db, heap, blank, id);
    assert Execute(repo, Save, args, Some(c), db, heap, blank) == CallSave(repo, args, Some(c), db, heap, blank);
  }

  lemma ResolveSave(props: seq<Prop>)
    ensures Resolve(props, MethodSig("save", None, false)) == Success(Save)
  {
  }
}
