/**
 * The two directions of the ORM's row mapping: binding a bean's property
 * values to statement parameters (`save`) and reading a row back into a new
 * bean (`toEntityClass`), plus `findAll`, `findId` and `findProperty`.
 */
module EntityMapper {
  import opened Wrappers
  import opened Text
  import opened Orm
  import opened Schema

  /** The properties that are bound and read positionally: every one except `class`, in order. */
  function Bound(props: seq<Prop>): (r: seq<Prop>)
    ensures |r| <= |props|
  {
    if |props| == 0 then []
    else (if props[0].name == ClassProperty then [] else [props[0]]) + Bound(props[1..])
  }

  /** Exactly the properties other than `class` are bound. */
  lemma {:induction false} BoundMembers(props: seq<Prop>)
    ensures forall p :: p in Bound(props) <==> p in props && p.name != ClassProperty
  {
    if |props| > 0 {
      BoundMembers(props[1..]);
      assert props == [props[0]] + props[1..];
    }
  }

  /** The values `save` binds: the getter value of the k-th bound property goes to parameter k + 1. */
  function Params(props: seq<Prop>, bean: Bean): (r: seq<Value>)
    ensures |r| == |Bound(props)|
  {
    var ps := Bound(props);
    seq(|ps|, k requires 0 <= k < |ps| => Read(bean, ps[k].name))
  }

  /**
   * The binding loop of `save`: walks every property, skips `class`, and sets
   * parameter `index` (starting at 1) before incrementing it. The result maps
   * each JDBC parameter index to its value.
   */
  method BindParameters(props: seq<Prop>, bean: Bean) returns (slots: map<nat, Value>)
    ensures forall k :: k in slots <==> 1 <= k <= |Bound(props)|
    ensures forall k :: 1 <= k <= |Bound(props)| ==> slots[k] == Params(props, bean)[k - 1]
  {
    slots := map[];
    var index := 1;
    var i := 0;
    while i < |props|
      invariant 0 <= i <= |props|
      invariant index == |Bound(props[..i])| + 1
      invariant forall k :: k in slots <==> 1 <= k < index
      invariant forall k :: 1 <= k < index ==> slots[k] == Read(bean, Bound(props[..i])[k - 1].name)
    {
      BoundSnoc(props, i);
      if props[i].name != ClassProperty {
        slots := slots[index := Read(bean, props[i].name)];
        index := index + 1;
      }
      i := i + 1;
    }
    assert props[..i] == props;
  }

  /** Extending the prefix by one property extends its bound properties by that property unless it is `class`. */
  lemma BoundSnoc(props: seq<Prop>, i: nat)
    requires i < |props|
    ensures Bound(props[..i + 1]) == Bound(props[..i]) + (if props[i].name == ClassProperty then [] else [props[i]])
  {
    BoundAppend(props[..i], [props[i]]);
    assert props[..i + 1] == props[..i] + [props[i]];
    assert [props[i]][1..] == [];
  }

  lemma {:induction false} BoundAppend(a: seq<Prop>, b: seq<Prop>)
    ensures Bound(a + b) == Bound(a) + Bound(b)
    decreases |a|
  {
    if |a| == 0 {
      assert a + b == b;
    } else {
      assert (a + b)[1..] == a[1..] + b;
      BoundAppend(a[1..], b);
    }
  }

  /** A result row: column k (1-based) holds `row[k - 1]`. */
  type Row = seq<Value>

  /** `resultSet.getObject(index)`; an index past the last column is an SQL error. */
  function GetObject(row: Row, index: nat): (r: Result<Value, Error>)
    ensures r.Success? <==> 1 <= index <= |row|
    ensures r.Success? ==> r.value == row[index - 1]
    ensures r.Failure? ==> r.error == Sql(NoSuchColumn(index))
  {
    if 1 <= index <= |row| then Success(row[index - 1]) else Failure(Sql(NoSuchColumn(index)))
  }

  /** Writes `row` into `bean` one bound property at a time, the later writer winning on a repeated name. */
  function Assign(ps: seq<Prop>, row: Row, bean: Bean): (r: Bean)
    requires |row| >= |ps|
    decreases |ps|
  {
    if |ps| == 0 then bean else Assign(ps[1..], row[1..], bean[ps[0].name := row[0]])
  }

  /**
   * `toEntityClass` as a reference: a row with fewer columns than bound
   * properties fails at the first missing column; otherwise the blank instance
   * receives column k in the k-th bound property.
   */
  function EntityOf(props: seq<Prop>, row: Row, blank: Bean): Result<Bean, Error> {
    var ps := Bound(props);
    if |row| < |ps| then Failure(Sql(NoSuchColumn(|row| + 1))) else Success(Assign(ps, row, blank))
  }

  lemma AssignSnoc(ps: seq<Prop>, p: Prop, row: Row, bean: Bean)
    requires |row| > |ps|
    ensures Assign(ps + [p], row[..|ps| + 1], bean) == Assign(ps, row[..|ps|], bean)[p.name := row[|ps|]]
    decreases |ps|
  {
    if |ps| == 0 {
      assert ps + [p] == [p];
      assert row[..1][1..] == [];
    } else {
      assert (ps + [p])[1..] == ps[1..] + [p];
      assert row[..|ps| + 1][1..] == row[1..][..|ps[1..]| + 1];
      assert row[..|ps|][1..] == row[1..][..|ps[1..]|];
      AssignSnoc(ps[1..], p, row[1..], bean[ps[0].name := row[0]]);
    }
  }

  /**
   * The reading loop of `toEntityClass`: skips `class`, reads column `index`
   * (starting at 1) into the next property's setter.
   */
  method ToEntityClass(props: seq<Prop>, row: Row, blank: Bean) returns (r: Result<Bean, Error>)
    ensures r == EntityOf(props, row, blank)
  {
    var instance := blank;
    var index := 1;
    var i := 0;
    while i < |props|
      invariant 0 <= i <= |props|
      invariant index == |Bound(props[..i])| + 1
      invariant index - 1 <= |row|
      invariant instance == Assign(Bound(props[..i]), row[..index - 1], blank)
    {
      BoundSnoc(props, i);
      if props[i].name != ClassProperty {
        var value := GetObject(row, index);
        if value.Failure? {
          BoundPrefixLength(props, i + 1);
          return value.PropagateFailure();
        }
        AssignSnoc(Bound(props[..i]), props[i], row, blank);
        assert Bound(props[..i + 1]) == Bound(props[..i]) + [props[i]];
        instance := instance[props[i].name := value.value];
        index := index + 1;
      } else {
        assert Bound(props[..i + 1]) == Bound(props[..i]);
      }
      i := i + 1;
    }
    assert props[..i] == props;
    assert row[..index - 1] == row[..|Bound(props)|];
    AssignPrefix(Bound(props), row, blank);
    return Success(instance);
  }

  /** A prefix has no more bound properties than the whole list. */
  lemma BoundPrefixLength(props: seq<Prop>, i: nat)
    requires i <= |props|
    ensures |Bound(props[..i])| <= |Bound(props)|
  {
    BoundAppend(props[..i], props[i..]);
    assert props[..i] + props[i..] == props;
  }

  /** Only the first `|ps|` columns matter to `Assign`. */
  lemma AssignPrefix(ps: seq<Prop>, row: Row, bean: Bean)
    requires |row| >= |ps|
    ensures Assign(ps, row[..|ps|], bean) == Assign(ps, row, bean)
    decreases |ps|
  {
    if |ps| > 0 {
      assert row[..|ps|][1..] == row[1..][..|ps[1..]|];
      AssignPrefix(ps[1..], row[1..], bean[ps[0].name := row[0]]);
    }
  }

  /** The names of the given properties. */
  function Names(ps: seq<Prop>): set<string> {
    set k | 0 <= k < |ps| :: ps[k].name
  }

  /**
   * When every column agrees with `bean` on its property, `Assign` leaves each
   * assigned name holding the bean's value and every other name untouched.
   */
  lemma {:induction false} AssignConsistent(ps: seq<Prop>, row: Row, base: Bean, bean: Bean)
    requires |row| >= |ps|
    requires forall k :: 0 <= k < |ps| ==> row[k] == Read(bean, ps[k].name)
    ensures forall n :: Read(Assign(ps, row, base), n) == if n in Names(ps) then Read(bean, n) else Read(base, n)
    decreases |ps|
  {
    if |ps| > 0 {
      var b1 := base[ps[0].name := row[0]];
      forall k | 0 <= k < |ps[1..]| ensures row[1..][k] == Read(bean, ps[1..][k].name) {
        assert ps[1..][k] == ps[k + 1];
      }
      AssignConsistent(ps[1..], row[1..], b1, bean);
      assert Names(ps) == {ps[0].name} + Names(ps[1..]) by {
        forall n | n in Names(ps) ensures n in {ps[0].name} + Names(ps[1..]) {
          var k :| 0 <= k < |ps| && ps[k].name == n;
          if k > 0 { assert ps[1..][k - 1] == ps[k]; }
        }
        forall n | n in Names(ps[1..]) ensures n in Names(ps) {
          var k :| 0 <= k < |ps[1..]| && ps[1..][k].name == n;
          assert ps[k + 1].name == n;
        }
      }
    }
  }

  /** With distinct property names, the k-th bound property receives column k + 1. */
  lemma {:induction false} AssignDistinct(ps: seq<Prop>, row: Row, base: Bean)
    requires |row| >= |ps|
    requires forall i, j :: 0 <= i < j < |ps| ==> ps[i].name != ps[j].name
    ensures forall k :: 0 <= k < |ps| ==> Read(Assign(ps, row, base), ps[k].name) == row[k]
    decreases |ps|
  {
    if |ps| > 0 {
      var b1 := base[ps[0].name := row[0]];
      AssignDistinct(ps[1..], row[1..], b1);
      AssignUntouched(ps[1..], row[1..], b1, ps[0].name);
      forall k | 0 <= k < |ps| ensures Read(Assign(ps, row, base), ps[k].name) == row[k] {
        if k > 0 { assert ps[1..][k - 1] == ps[k]; }
      }
    }
  }

  lemma {:induction false} AssignUntouched(ps: seq<Prop>, row: Row, base: Bean, n: string)
    requires |row| >= |ps|
    requires forall k :: 0 <= k < |ps| ==> ps[k].name != n
    ensures Read(Assign(ps, row, base), n) == Read(base, n)
    decreases |ps|
  {
    if |ps| > 0 {
      AssignUntouched(ps[1..], row[1..], base[ps[0].name := row[0]], n);
    }
  }

  /** `toEntityClass` reads column k into the k-th property other than `class`, when names are distinct. */
  lemma ToEntityPositional(props: seq<Prop>, row: Row, blank: Bean)
    requires |row| >= |Bound(props)|
    requires forall i, j :: 0 <= i < j < |Bound(props)| ==> Bound(props)[i].name != Bound(props)[j].name
    ensures EntityOf(props, row, blank).Success?
    ensures forall k :: 0 <= k < |Bound(props)| ==> Read(EntityOf(props, row, blank).value, Bound(props)[k].name) == row[k]
  {
    AssignDistinct(Bound(props), row, blank);
  }

  /**
   * Positional symmetry of `save` and `toEntityClass`: reading back the row of
   * parameters `save` binds gives every property other than `class` the value
   * the bean had, and leaves every other name as the blank instance had it.
   */
  lemma SaveThenReadRoundTrip(props: seq<Prop>, bean: Bean, blank: Bean)
    ensures EntityOf(props, Params(props, bean), blank).Success?
    ensures forall p :: p in props && p.name != ClassProperty ==>
              Read(EntityOf(props, Params(props, bean), blank).value, p.name) == Read(bean, p.name)
    ensures forall n :: n !in Names(Bound(props)) ==>
              Read(EntityOf(props, Params(props, bean), blank).value, n) == Read(blank, n)
  {
    var ps := Bound(props);
    AssignConsistent(ps, Params(props, bean), blank, bean);
    BoundMembers(props);
    forall p | p in props && p.name != ClassProperty ensures p.name in Names(ps) {
      var k :| 0 <= k < |ps| && ps[k] == p;
    }
  }

  /**
   * The column list of the upsert skips properties whose column is `CLASS`,
   * while the binding loop skips the property named `class`. The two agree
   * when exactly the `class` property maps to that column.
   */
  predicate ClassSkipsAgree(props: seq<Prop>) {
    forall k :: 0 <= k < |props| ==> (IsClassColumn(props[k]) <==> props[k].name == ClassProperty)
  }

  lemma {:induction false} PersistedIsBound(props: seq<Prop>)
    requires ClassSkipsAgree(props)
    ensures Persisted(props) == Bound(props)
  {
    if |props| > 0 {
      assert ClassSkipsAgree(props[1..]) by {
        forall k | 0 <= k < |props[1..]| ensures IsClassColumn(props[1..][k]) <==> props[1..][k].name == ClassProperty {
          assert props[1..][k] == props[k + 1];
        }
      }
      PersistedIsBound(props[1..]);
    }
  }

  /** When the skips agree, the upsert has one `?` placeholder per parameter `save` binds. */
  lemma SaveArity(props: seq<Prop>, bean: Bean)
    requires AllReadable(props)
    requires ClassSkipsAgree(props)
    ensures Count('?', Join(Repeat("?", |SaveColumns(props).value|), Sep)) == |Params(props, bean)|
  {
    SaveQueryPlaceholders(props);
    PersistedIsBound(props);
  }

  /**
   * Without that agreement the counts differ: a property `kind` annotated
   * `@Column("class")` gets no column in the upsert but is still bound.
   */
  lemma ClassColumnBoundAnyway()
    ensures var props := [Prop("kind", StringType, Some(Getter(Some("class"), false, false)))];
            AllReadable(props) && |SaveColumns(props).value| == 0 && |Params(props, map[])| == 1
  {
    var props := [Prop("kind", StringType, Some(Getter(Some("class"), false, false)))];
    assert ToUpper("class") == "CLASS";
    assert IsClassColumn(props[0]);
    assert Persisted(props[1..]) == [];
    assert Persisted(props) == [];
    assert Bound(props[1..]) == [];
    assert Bound(props) == [props[0]];
  }

  /** What the database answers to `getGeneratedKeys()`: a failure, an empty result, or a first row's first column. */
  datatype KeysAnswer = KeysFail(failure: SqlFailure) | NoKeyRow | KeyRow(key: Value)

  /** What the database answers to the upsert and, if asked, to the generated-keys request. */
  datatype SaveAnswer = SaveAnswer(update: Option<SqlFailure>, keys: KeysAnswer)

  /** The statement `save` sent and the bean it returns. */
  datatype Saved = Saved(statement: Statement, bean: Bean)

  /**
   * `save`: prepares the upsert (which fails on a property without getter),
   * binds the parameters, executes, and, only when an id property was found
   * and the generated-keys result has a row, writes that key into the id
   * property.
   */
  function Save(tableName: string, props: seq<Prop>, bean: Bean, idProp: Option<Prop>, answer: SaveAnswer): (r: Result<Saved, Error>)
    ensures r.Success? <==> AllReadable(props) && answer.update.None? && !(idProp.Some? && answer.keys.KeysFail?)
    ensures !AllReadable(props) ==> r.Failure? && r.error.NoGetter?
    ensures AllReadable(props) && answer.update.Some? ==> r == Failure(Sql(answer.update.value))
    ensures r.Success? ==> r.value.statement.params == Params(props, bean)
    ensures r.Success? ==> r.value.statement.sql == SaveQuery(tableName, props).value
    ensures r.Success? && idProp.Some? && answer.keys.KeyRow? ==>
              Read(r.value.bean, idProp.value.name) == answer.keys.key &&
              forall n :: n != idProp.value.name ==> Read(r.value.bean, n) == Read(bean, n)
    ensures r.Success? && !(idProp.Some? && answer.keys.KeyRow?) ==> r.value.bean == bean
  {
    var sql :- SaveQuery(tableName, props);
    if answer.update.Some? then Failure(Sql(answer.update.value))
    else
      var statement := Statement(sql, Params(props, bean));
      match idProp
      case None => Success(Saved(statement, bean))
      case Some(id) =>
        match answer.keys
        case KeysFail(f) => Failure(Sql(f))
        case NoKeyRow => Success(Saved(statement, bean))
        case KeyRow(key) => Success(Saved(statement, bean[id.name := key]))
  }

  /** What the database answers to a query: a failure or the rows of the result set. */
  datatype QueryAnswer = QueryFails(failure: SqlFailure) | Rows(rows: seq<Row>)

  /** The entity of each row, in row order; the first row that is too short stops the iteration. */
  function EntitiesOf(props: seq<Prop>, rows: seq<Row>, blank: Bean): (r: Result<seq<Bean>, Error>)
    ensures r.Success? <==> forall k :: 0 <= k < |rows| ==> |rows[k]| >= |Bound(props)|
    ensures r.Success? ==> |r.value| == |rows|
    ensures r.Success? ==> forall k :: 0 <= k < |rows| ==> r.value[k] == EntityOf(props, rows[k], blank).value
  {
    if |rows| == 0 then Success([])
    else
      var head :- EntityOf(props, rows[0], blank);
      var tail :- EntitiesOf(props, rows[1..], blank);
      assert forall k :: 1 <= k < |rows| ==> rows[k] == rows[1..][k - 1];
      Success([head] + tail)
  }

  /** The query answered with rows, each long enough to be read into an entity. */
  predicate RowsReadable(props: seq<Prop>, answer: QueryAnswer) {
    answer.Rows? && forall k :: 0 <= k < |answer.rows| ==> |answer.rows[k]| >= |Bound(props)|
  }

  /** `beans` are the rows read positionally, one entity per row, in row order. */
  predicate ReadsRows(props: seq<Prop>, rows: seq<Row>, blank: Bean, beans: seq<Bean>) {
    |beans| == |rows| && forall k :: 0 <= k < |rows| ==> EntityOf(props, rows[k], blank) == Success(beans[k])
  }

  /** `found` is the first row read positionally, or empty when there is no row. */
  predicate ReadsFirstRow(props: seq<Prop>, rows: seq<Row>, blank: Bean, found: Option<Bean>) {
    (found.None? <==> |rows| == 0) && (found.Some? ==> EntityOf(props, rows[0], blank) == Success(found.value))
  }

  /**
   * The general `findAll(connection, query, beanInfo, constructor, args)`:
   * binds `args` to parameters 1, 2, ... in order, runs the query and maps
   * every row to a new entity.
   */
  function RunQuery(sql: string, props: seq<Prop>, args: seq<Value>, answer: QueryAnswer, blank: Bean)
    : (r: Result<(Statement, seq<Bean>), Error>)
    ensures answer.QueryFails? ==> r == Failure(Sql(answer.failure))
    ensures r.Success? ==> r.value.0 == Statement(sql, args)
    ensures r.Success? ==> answer.Rows? && |r.value.1| == |answer.rows|
    ensures r.Success? ==> forall k :: 0 <= k < |answer.rows| ==> EntityOf(props, answer.rows[k], blank) == Success(r.value.1[k])
    ensures answer.Rows? && (forall k :: 0 <= k < |answer.rows| ==> |answer.rows[k]| >= |Bound(props)|) ==> r.Success?
    ensures r.Success? <==> RowsReadable(props, answer)
    ensures r.Success? ==> ReadsRows(props, answer.rows, blank, r.value.1)
  {
    match answer
    case QueryFails(f) => Failure(Sql(f))
    case Rows(rows) =>
      var beans :- EntitiesOf(props, rows, blank);
      Success((Statement(sql, args), beans))
  }

  /** The properties whose getter carries `@Id`, in order. */
  function IdProps(props: seq<Prop>): (r: seq<Prop>)
    requires AllReadable(props)
    ensures forall p :: p in r ==> p in props && p.getter.value.isId
    ensures (exists k :: 0 <= k < |props| && props[k].getter.value.isId) ==> |r| > 0
  {
    if |props| == 0 then []
    else
      AllReadableCons(props);
      var tail := IdProps(props[1..]);
      assert (exists k :: 0 <= k < |props| && props[k].getter.value.isId) ==> props[0].getter.value.isId || |tail| > 0 by {
        if exists k :: 0 <= k < |props| && props[k].getter.value.isId {
          var k :| 0 <= k < |props| && props[k].getter.value.isId;
          if k > 0 { assert props[1..][k - 1] == props[k]; }
        }
      }
      (if props[0].getter.value.isId then [props[0]] else []) + tail
  }

  /** Every id property occurs in `IdProps`, so with a single entry that entry is the only id property. */
  lemma {:induction false} IdPropsComplete(props: seq<Prop>)
    requires AllReadable(props)
    ensures forall p :: p in props && p.getter.value.isId ==> p in IdProps(props)
  {
    if |props| > 0 {
      AllReadableCons(props);
      IdPropsComplete(props[1..]);
      assert props == [props[0]] + props[1..];
    }
  }

  /**
   * `findId`: none when no getter carries `@Id`, the property when exactly one
   * does, an error when more do. Reading the annotations dereferences every
   * getter, so a property without one is a null dereference.
   */
  function FindId(props: seq<Prop>): (r: Result<Option<Prop>, Error>)
    ensures r == Failure(NullReference) <==> !AllReadable(props)
    ensures r == Success(None) <==> AllReadable(props) && forall k :: 0 <= k < |props| ==> !props[k].getter.value.isId
    ensures r.Success? && r.value.Some? ==>
              r.value.value in props && r.value.value.getter.value.isId &&
              forall k :: 0 <= k < |props| && props[k].getter.value.isId ==> props[k] == r.value.value
    ensures r.Failure? && r.error.TooManyIds? ==> AllReadable(props) && r.error.count == |IdProps(props)| > 1
    ensures AllReadable(props) && |IdProps(props)| > 1 ==> r == Failure(TooManyIds(|IdProps(props)|))
    ensures r.Failure? ==> r.error == NullReference || r.error.TooManyIds?
  {
    if !AllReadable(props) then Failure(NullReference)
    else
      var ids := IdProps(props);
      IdPropsEmpty(props);
      if |ids| == 0 then Success(None)
      else if |ids| == 1 then
        IdPropsSingle(props);
        Success(Some(ids[0]))
      else Failure(TooManyIds(|ids|))
  }

  /** No property is listed exactly when no getter carries `@Id`. */
  lemma IdPropsEmpty(props: seq<Prop>)
    requires AllReadable(props)
    ensures |IdProps(props)| == 0 <==> forall k :: 0 <= k < |props| ==> !props[k].getter.value.isId
  {
    if |IdProps(props)| > 0 {
      var p := IdProps(props)[0];
      assert p in props;
    }
  }

  /** A single listed property is the only `@Id` property. */
  lemma IdPropsSingle(props: seq<Prop>)
    requires AllReadable(props)
    requires |IdProps(props)| == 1
    ensures IdProps(props)[0] in props && IdProps(props)[0].getter.value.isId
    ensures forall k :: 0 <= k < |props| && props[k].getter.value.isId ==> props[k] == IdProps(props)[0]
  {
    IdPropsComplete(props);
    var ids := IdProps(props);
    assert ids[0] in ids;
    assert forall k :: 0 <= k < |props| && props[k].getter.value.isId ==> props[k] in ids;
  }

  /** The position of the first property called `name`, or `|props|` when there is none. */
  function FirstNamed(props: seq<Prop>, name: string): (k: nat)
    ensures k <= |props|
    ensures k < |props| ==> props[k].name == name
    ensures forall j :: 0 <= j < k ==> props[j].name != name
  {
    if |props| == 0 then 0
    else if props[0].name == name then 0
    else
      var k := FirstNamed(props[1..], name);
      assert forall j :: 1 <= j < k + 1 ==> props[j] == props[1..][j - 1];
      k + 1
  }

  /**
   * `findProperty`: the first property whose name equals the decapitalised
   * `id`; "No property found" when none does. The `class` property takes part
   * in the search.
   */
  function FindProperty(props: seq<Prop>, id: string): (r: Result<Prop, Error>)
    ensures r.Failure? <==> forall k :: 0 <= k < |props| ==> props[k].name != Decapitalize(id)
    ensures r.Failure? ==> r.error == NoPropertyFound
    ensures r.Success? ==> r.value.name == Decapitalize(id)
    ensures r.Success? ==> exists k :: 0 <= k < |props| && props[k] == r.value &&
                                      forall j :: 0 <= j < k ==> props[j].name != Decapitalize(id)
  {
    var k := FirstNamed(props, Decapitalize(id));
    if k < |props| then Success(props[k]) else Failure(NoPropertyFound)
  }
}
