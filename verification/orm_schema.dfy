/**
 * Naming rules, the Java-to-SQL type table, column definitions and the
 * `CREATE TABLE` / `MERGE INTO` text builders of the ORM.
 */
module Schema {
  import opened Wrappers
  import opened Text
  import opened Orm

  /** The fixed Java-type to SQL-type table. */
  const TypeMapping: map<JavaType, string> := map[
    IntPrim := "INTEGER",
    IntBoxed := "INTEGER",
    LongPrim := "BIGINT",
    LongBoxed := "BIGINT",
    StringType := "VARCHAR(255)"
  ]

  /** The three SQL type names the table produces. */
  predicate IsSqlTypeName(s: string) {
    s == "INTEGER" || s == "BIGINT" || s == "VARCHAR(255)"
  }

  lemma TypeMappingTable(t: JavaType)
    ensures t in TypeMapping <==> !t.OtherType?
    ensures t in TypeMapping ==> IsSqlTypeName(TypeMapping[t])
    ensures (t == IntPrim || t == IntBoxed) ==> TypeMapping[t] == "INTEGER"
    ensures (t == LongPrim || t == LongBoxed) ==> TypeMapping[t] == "BIGINT"
    ensures t == StringType ==> TypeMapping[t] == "VARCHAR(255)"
  {
  }

  /** The table name: the `@Table` value if present, else the simple class name, upper-cased. */
  function TableName(b: BeanType): (r: string)
    ensures b.table.Some? ==> r == ToUpper(b.table.value)
    ensures b.table.None? ==> r == ToUpper(b.simpleName)
    ensures IsUpperText(r)
  {
    ToUpperChars(match b.table case Some(t) => t case None => b.simpleName);
    ToUpper(match b.table case Some(t) => t case None => b.simpleName)
  }

  /** The column name: the `@Column` value on the getter if present, else the property name, upper-cased. */
  function ColumnName(p: Prop): (r: Result<string, Error>)
    ensures r.Failure? <==> p.getter.None?
    ensures r.Failure? ==> r.error == NoGetter(p.name)
    ensures r.Success? && p.getter.value.column.Some? ==> r.value == ToUpper(p.getter.value.column.value)
    ensures r.Success? && p.getter.value.column.None? ==> r.value == ToUpper(p.name)
  {
    match p.getter
    case None => Failure(NoGetter(p.name))
    case Some(g) => Success(ToUpper(match g.column case Some(c) => c case None => p.name))
  }

  /** The parts of a column definition: SQL type and the three optional suffixes. */
  datatype ColumnSpec = ColumnSpec(sqlType: string, autoIncrement: bool, notNull: bool, primaryKey: Option<string>)

  const AutoIncrement: string := " AUTO_INCREMENT"
  const NotNull: string := " NOT NULL"
  const PrimaryKeyOpen: string := ",\nPRIMARY KEY ("

  /** Column definition text: type, then ` AUTO_INCREMENT`, then ` NOT NULL`, then the primary-key clause. */
  function Render(c: ColumnSpec): string {
    c.sqlType
    + (if c.autoIncrement then AutoIncrement else "")
    + (if c.notNull then NotNull else "")
    + RenderPrimaryKey(c.primaryKey)
  }

  /** The SQL type name at the start of a column definition, if any. */
  function ParseBase(s: string): Option<string> {
    if StartsWith(s, "INTEGER") then Some("INTEGER")
    else if StartsWith(s, "BIGINT") then Some("BIGINT")
    else if StartsWith(s, "VARCHAR(255)") then Some("VARCHAR(255)")
    else None
  }

  /** Strips an optional `suffix` marker from the front of `s`, telling whether it was there. */
  function ParseFlag(s: string, marker: string): (bool, string) {
    if StartsWith(s, marker) then (true, s[|marker|..]) else (false, s)
  }

  /** Reads the optional primary-key clause, which must be all that is left. */
  function ParsePrimaryKey(s: string): Option<Option<string>> {
    if s == "" then Some(None)
    else if StartsWith(s, PrimaryKeyOpen) && |s| > |PrimaryKeyOpen| && s[|s| - 1] == ')' then
      Some(Some(s[|PrimaryKeyOpen|..|s| - 1]))
    else None
  }

  /** Reads the suffixes after the type, accepting them only in their fixed order. */
  function ParseSuffixes(s1: string): Option<(bool, bool, Option<string>)> {
    var (auto, s2) := ParseFlag(s1, AutoIncrement);
    var (notNull, s3) := ParseFlag(s2, NotNull);
    match ParsePrimaryKey(s3)
    case None => None
    case Some(pk) => Some((auto, notNull, pk))
  }

  /** Reads a column definition back into its parts. */
  function ParseColumnType(s: string): Option<ColumnSpec> {
    match ParseBase(s)
    case None => None
    case Some(base) =>
      match ParseSuffixes(s[|base|..])
      case None => None
      case Some((auto, notNull, pk)) => Some(ColumnSpec(base, auto, notNull, pk))
  }

  lemma ParseBaseConcat(t: string, rest: string)
    requires IsSqlTypeName(t)
    ensures ParseBase(t + rest) == Some(t)
    ensures (t + rest)[|t|..] == rest
  {
    StartsWithConcat(t, rest);
    var s := t + rest;
    assert s[0] == t[0];
  }

  /** The text a primary-key option renders to. */
  function RenderPrimaryKey(pk: Option<string>): string {
    match pk case Some(col) => PrimaryKeyOpen + col + ")" case None => ""
  }

  lemma ParsePrimaryKeyRender(pk: Option<string>)
    ensures ParsePrimaryKey(RenderPrimaryKey(pk)) == Some(pk)
  {
    match pk {
      case None =>
      case Some(col) =>
        var t := RenderPrimaryKey(pk);
        StartsWithConcat(PrimaryKeyOpen, col + ")");
        assert t == PrimaryKeyOpen + (col + ")");
        assert t[|PrimaryKeyOpen|..|t| - 1] == col;
    }
  }

  lemma ParseFlagPresent(marker: string, rest: string)
    ensures ParseFlag(marker + rest, marker) == (true, rest)
  {
    StartsWithConcat(marker, rest);
  }

  lemma ParseNotNullAbsent(pk: Option<string>)
    ensures ParseFlag(RenderPrimaryKey(pk), NotNull) == (false, RenderPrimaryKey(pk))
  {
    var t := RenderPrimaryKey(pk);
    if |t| > 0 { assert t[0] == ','; }
  }

  lemma ParseAutoAbsent(nn: string, pk: Option<string>)
    requires nn == "" || nn == NotNull
    ensures ParseFlag(nn + RenderPrimaryKey(pk), AutoIncrement) == (false, nn + RenderPrimaryKey(pk))
  {
    var t := nn + RenderPrimaryKey(pk);
    if nn == NotNull {
      assert t[1] == 'N';
    } else {
      assert t == RenderPrimaryKey(pk);
      if |t| > 0 { assert t[0] == ','; }
    }
  }

  lemma ParseSuffixesRender(c: ColumnSpec)
    ensures ParseSuffixes(Render(ColumnSpec("", c.autoIncrement, c.notNull, c.primaryKey)))
            == Some((c.autoIncrement, c.notNull, c.primaryKey))
  {
    var pk := RenderPrimaryKey(c.primaryKey);
    var nn := if c.notNull then NotNull else "";
    var ai := if c.autoIncrement then AutoIncrement else "";
    assert Render(ColumnSpec("", c.autoIncrement, c.notNull, c.primaryKey)) == ai + (nn + pk);
    if c.autoIncrement {
      ParseFlagPresent(AutoIncrement, nn + pk);
    } else {
      assert ai + (nn + pk) == nn + pk;
      ParseAutoAbsent(nn, c.primaryKey);
    }
    if c.notNull {
      ParseFlagPresent(NotNull, pk);
    } else {
      assert nn + pk == pk;
      ParseNotNullAbsent(c.primaryKey);
    }
    ParsePrimaryKeyRender(c.primaryKey);
  }

  /** Rendering a column definition and parsing it back recovers every part. */
  lemma ParseRender(c: ColumnSpec)
    requires IsSqlTypeName(c.sqlType)
    ensures ParseColumnType(Render(c)) == Some(c)
  {
    var tail := Render(ColumnSpec("", c.autoIncrement, c.notNull, c.primaryKey));
    assert Render(c) == c.sqlType + tail;
    ParseBaseConcat(c.sqlType, tail);
    ParseSuffixesRender(c);
  }

  /**
   * The SQL column type of a property. An unmappable Java type is reported
   * before a missing getter; otherwise the text is the mapped type with the
   * suffixes in their fixed order.
   */
  function ColumnType(p: Prop): (r: Result<string, Error>)
    ensures r.Failure? <==> p.javaType !in TypeMapping || p.getter.None?
    ensures p.javaType !in TypeMapping ==> r == Failure(CannotMap(p.name))
    ensures p.javaType in TypeMapping && p.getter.None? ==> r == Failure(NoGetter(p.name))
    ensures r.Success? ==>
      ParseColumnType(r.value) == Some(ColumnSpec(
        TypeMapping[p.javaType],
        p.getter.value.isGenerated,
        IsPrimitive(p.javaType),
        if p.getter.value.isId then Some(ColumnName(p).value) else None))
  {
    if p.javaType !in TypeMapping then Failure(CannotMap(p.name))
    else if p.getter.None? then Failure(NoGetter(p.name))
    else
      var g := p.getter.value;
      var spec := ColumnSpec(TypeMapping[p.javaType], g.isGenerated, IsPrimitive(p.javaType),
                             if g.isId then Some(ColumnName(p).value) else None);
      ParseRender(spec);
      Success(Render(spec))
  }

  /** Every property has a getter, so every column name can be computed. */
  predicate AllReadable(props: seq<Prop>) {
    forall k :: 0 <= k < |props| ==> props[k].getter.Some?
  }

  /** The property maps to the column `CLASS`, the one the builders skip. */
  predicate IsClassColumn(p: Prop) {
    ColumnName(p).Success? && ColumnName(p).value == "CLASS"
  }

  /** The properties that become columns: those whose column name is not `CLASS`, in order. */
  function Persisted(props: seq<Prop>): (r: seq<Prop>)
  {
    if |props| == 0 then []
    else (if IsClassColumn(props[0]) then [] else [props[0]]) + Persisted(props[1..])
  }

  /** A property becomes a column exactly when its column name is not `CLASS`. */
  lemma {:induction false} PersistedMembers(props: seq<Prop>)
    ensures forall p :: p in Persisted(props) <==> p in props && !IsClassColumn(p)
    ensures |Persisted(props)| <= |props|
  {
    if |props| > 0 {
      PersistedMembers(props[1..]);
      assert props == [props[0]] + props[1..];
    }
  }

  lemma {:induction false} PersistedReadable(props: seq<Prop>)
    requires AllReadable(props)
    ensures AllReadable(Persisted(props))
  {
    if |props| > 0 {
      AllReadableCons(props);
      PersistedReadable(props[1..]);
      var tail := Persisted(props[1..]);
      var r := Persisted(props);
      if IsClassColumn(props[0]) {
        assert r == tail;
      } else {
        assert r == [props[0]] + tail;
        forall k | 0 <= k < |r| ensures r[k].getter.Some? {
          if k > 0 { assert r[k] == tail[k - 1]; }
        }
      }
    }
  }

  /** `COL TYPE` for one persisted property. */
  function ColumnEntry(p: Prop): string
    requires p.getter.Some? && p.javaType in TypeMapping
  {
    ColumnName(p).value + " " + ColumnType(p).value
  }

  predicate AllMappable(props: seq<Prop>) {
    forall k :: 0 <= k < |props| ==> props[k].javaType in TypeMapping
  }

  lemma AllReadableCons(props: seq<Prop>)
    requires |props| > 0
    ensures AllReadable(props) <==> props[0].getter.Some? && AllReadable(props[1..])
  {
    if props[0].getter.Some? && AllReadable(props[1..]) {
      forall k | 0 <= k < |props| ensures props[k].getter.Some? {
        if k > 0 { assert props[k] == props[1..][k - 1]; }
      }
    }
  }

  lemma AllMappableAppend(a: seq<Prop>, b: seq<Prop>)
    ensures AllMappable(a + b) <==> AllMappable(a) && AllMappable(b)
  {
    if AllMappable(a) && AllMappable(b) {
      forall k | 0 <= k < |a + b| ensures (a + b)[k].javaType in TypeMapping {
        if k >= |a| { assert (a + b)[k] == b[k - |a|]; }
      }
    }
    if AllMappable(a + b) {
      forall k | 0 <= k < |a| ensures a[k].javaType in TypeMapping {
        assert (a + b)[k] == a[k];
      }
      forall k | 0 <= k < |b| ensures b[k].javaType in TypeMapping {
        assert (a + b)[|a| + k] == b[k];
      }
    }
  }

  /** The `COL TYPE` entries of the given properties, in order. */
  function ColumnEntries(ps: seq<Prop>): (r: seq<string>)
    requires AllReadable(ps) && AllMappable(ps)
    ensures |r| == |ps|
  {
    seq(|ps|, k requires 0 <= k < |ps| => ColumnEntry(ps[k]))
  }

  lemma ColumnEntriesCons(p: Prop, ps: seq<Prop>)
    requires AllReadable([p] + ps) && AllMappable([p] + ps)
    ensures p.getter.Some? && p.javaType in TypeMapping
    ensures AllReadable(ps) && AllMappable(ps)
    ensures ColumnEntries([p] + ps) == [ColumnEntry(p)] + ColumnEntries(ps)
  {
    AllReadableCons([p] + ps);
    assert ([p] + ps)[0] == p;
    assert ([p] + ps)[1..] == ps;
    AllMappableAppend([p], ps);
  }

  /**
   * The column entries of `CREATE TABLE`, computed property by property as the
   * stream does: the column-name filter runs first, then the entry is built,
   * so the first offending property decides the error.
   */
  function CreateTableColumns(props: seq<Prop>): (r: Result<seq<string>, Error>)
    ensures r.Success? <==> AllReadable(props) && AllMappable(Persisted(props))
    ensures r.Success? ==> AllReadable(Persisted(props)) && r.value == ColumnEntries(Persisted(props))
    ensures r.Failure? && |props| > 0 && props[0].getter.None? ==> r.error == NoGetter(props[0].name)
    ensures r.Failure? ==> r.error.NoGetter? || r.error.CannotMap?
  {
    if |props| == 0 then Success([])
    else
      AllReadableCons(props);
      var name :- ColumnName(props[0]);
      PersistedCons(props);
      if name == "CLASS" then
        var rest :- CreateTableColumns(props[1..]);
        Success(rest)
      else
        var ty :- ColumnType(props[0]);
        var rest :- CreateTableColumns(props[1..]);
        ColumnEntriesCons(props[0], Persisted(props[1..]));
        Success([name + " " + ty] + rest)
  }

  /** How the first property contributes to the persisted list. */
  lemma PersistedCons(props: seq<Prop>)
    requires |props| > 0 && props[0].getter.Some?
    ensures AllReadable(props) <==> AllReadable(props[1..])
    ensures IsClassColumn(props[0]) ==> Persisted(props) == Persisted(props[1..])
    ensures !IsClassColumn(props[0]) ==> Persisted(props) == [props[0]] + Persisted(props[1..])
    ensures !IsClassColumn(props[0]) ==>
              (AllMappable(Persisted(props)) <==> props[0].javaType in TypeMapping && AllMappable(Persisted(props[1..])))
    ensures AllReadable(props) ==> AllReadable(Persisted(props))
  {
    AllReadableCons(props);
    var tail := Persisted(props[1..]);
    if !IsClassColumn(props[0]) {
      AllMappableAppend([props[0]], tail);
    }
    if AllReadable(props) {
      PersistedReadable(props);
    }
  }

  /** `CREATE TABLE T (` + entries joined by ", " + `)`. */
  function CreateTableSql(b: BeanType): (r: Result<string, Error>)
    ensures r.Success? <==> AllReadable(b.props) && AllMappable(Persisted(b.props))
    ensures r.Success? ==>
      var entries := CreateTableColumns(b.props).value;
      r.value == "CREATE TABLE " + TableName(b) + " (" + Join(entries, Sep) + ")"
  {
    var entries :- CreateTableColumns(b.props);
    Success("CREATE TABLE " + TableName(b) + " (" + Join(entries, Sep) + ")")
  }

  /** The column names of the given readable properties, in order. */
  function ColumnNames(ps: seq<Prop>): (r: seq<string>)
    requires AllReadable(ps)
    ensures |r| == |ps|
  {
    seq(|ps|, k requires 0 <= k < |ps| => ColumnName(ps[k]).value)
  }

  /** The column names of the upsert, in property order, skipping the `CLASS` column. */
  function SaveColumns(props: seq<Prop>): (r: Result<seq<string>, Error>)
    ensures r.Success? <==> AllReadable(props)
    ensures r.Failure? ==> r.error.NoGetter?
    ensures r.Success? ==> AllReadable(Persisted(props)) && r.value == ColumnNames(Persisted(props))
  {
    if |props| == 0 then Success([])
    else
      AllReadableCons(props);
      var name :- ColumnName(props[0]);
      var rest :- SaveColumns(props[1..]);
      ColumnNamesCons(props);
      Success(if name == "CLASS" then rest else [name] + rest)
  }

  /** The column names of the persisted properties, one property at a time. */
  lemma ColumnNamesCons(props: seq<Prop>)
    requires |props| > 0 && AllReadable(props)
    ensures AllReadable(Persisted(props[1..])) && AllReadable(Persisted(props))
    ensures var name := ColumnName(props[0]).value;
            var rest := ColumnNames(Persisted(props[1..]));
            ColumnNames(Persisted(props)) == if name == "CLASS" then rest else [name] + rest
  {
    AllReadableCons(props);
    PersistedReadable(props);
    PersistedReadable(props[1..]);
    var tail := Persisted(props[1..]);
    if !IsClassColumn(props[0]) {
      assert Persisted(props) == [props[0]] + tail;
      ColumnNamesPrepend(props[0], tail);
    }
  }

  lemma ColumnNamesPrepend(p: Prop, tail: seq<Prop>)
    requires p.getter.Some? && AllReadable(tail)
    ensures AllReadable([p] + tail)
    ensures ColumnNames([p] + tail) == [ColumnName(p).value] + ColumnNames(tail)
  {
    AllReadableCons([p] + tail);
    assert ([p] + tail)[1..] == tail;
  }

  /** `MERGE INTO T (cols) VALUES (?, ...);` */
  function SaveQuery(tableName: string, props: seq<Prop>): (r: Result<string, Error>)
    ensures r.Success? <==> AllReadable(props)
    ensures r.Failure? ==> r.error.NoGetter?
    ensures r.Success? ==>
      var cols := SaveColumns(props).value;
      r.value == "MERGE INTO " + tableName + " (" + Join(cols, Sep) + ") VALUES ("
                 + Join(Repeat("?", |cols|), Sep) + ");"
  {
    var cols :- SaveColumns(props);
    Success("MERGE INTO " + tableName + " (" + Join(cols, Sep) + ") VALUES ("
            + Join(Repeat("?", |cols|), Sep) + ");")
  }

  /** The upsert lists as many `?` placeholders as columns, one per persisted property. */
  lemma SaveQueryPlaceholders(props: seq<Prop>)
    requires AllReadable(props)
    ensures |SaveColumns(props).value| == |Persisted(props)|
    ensures Count('?', Join(Repeat("?", |SaveColumns(props).value|), Sep)) == |Persisted(props)|
  {
    PlaceholderCount(|SaveColumns(props).value|);
  }

  /** No column name contains the separator `, `. */
  predicate SepFreeNames(props: seq<Prop>) {
    forall p :: p in props && ColumnName(p).Success? ==> NoSep(ColumnName(p).value)
  }

  /**
   * When no column name contains `, `, the column list of the upsert splits
   * back into the column names. At least one column is needed: an empty list
   * splits into one empty name.
   */
  lemma SaveColumnsSplit(props: seq<Prop>)
    requires AllReadable(props)
    requires SepFreeNames(props)
    requires |Persisted(props)| > 0
    ensures Split(Join(SaveColumns(props).value, Sep)) == SaveColumns(props).value
  {
    var cols := SaveColumns(props).value;
    var ps := Persisted(props);
    PersistedMembers(props);
    forall k | 0 <= k < |cols| ensures NoSep(cols[k]) {
      assert ps[k] in props;
      assert cols[k] == ColumnName(ps[k]).value;
    }
    SplitJoin(cols);
  }

  /**
   * `createTable`: refuses a null bean type, builds the statement
   * (configuration errors first), then asks for the current connection,
   * then executes.
   */
  function CreateTable(beanType: Option<BeanType>, slot: Option<Conn>, update: Option<SqlFailure>): (r: Result<Statement, Error>)
    ensures beanType.None? ==> r == Failure(NullReference)
    ensures beanType.Some? ==> var b := beanType.value;
              (CreateTableSql(b).Failure? ==> r == Failure(CreateTableSql(b).error)) &&
              (CreateTableSql(b).Success? && slot.None? ==> r == Failure(NoCurrentConnection)) &&
              (CreateTableSql(b).Success? && slot.Some? && update.Some? ==> r == Failure(Sql(update.value)))
    ensures r.Success? <==> beanType.Some? && CreateTableSql(beanType.value).Success? && slot.Some? && update.None?
    ensures r.Success? ==> r.value == Statement(CreateTableSql(beanType.value).value, [])
  {
    if beanType.None? then Failure(NullReference)
    else
      var sql :- CreateTableSql(beanType.value);
      var _ :- CurrentConnection(slot);
      if update.Some? then Failure(Sql(update.value)) else Success(Statement(sql, []))
  }
}
