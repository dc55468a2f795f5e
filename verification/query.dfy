/** The fluent query builder (rum/src/model/mod.rs): `Query` is a tagged union
    of a SELECT under construction, an (unimplemented) UPDATE and raw SQL;
    chain methods rewrite the SELECT and pass other variants through, except
    the LIMIT-setting ones, which reach `unreachable!()` on them. */
module QueryBuilder {

  import opened Results
  import opened Strings
  import opened Columns
  import opened Sql

  datatype Query = SelectQuery(select: Select) | Update | Raw(sql: string)

  /** A panic in the source: `unreachable!()` or `todo!()`. */
  datatype Fault = Unreachable | Unimplemented

  /** `ToSql for Query`: a SELECT is rendered, raw SQL is returned verbatim,
      and an UPDATE is not implemented. */
  function ToSql(q: Query): (r: Result<string, Fault>)
    ensures r.Err? <==> q.Update?
    ensures q.Raw? ==> r == Ok(q.sql)
    ensures q.Update? ==> r == Err(Unimplemented)
    ensures q.SelectQuery? ==> r == Ok(Render(q.select))
  {
    match q
    case SelectQuery(s) => Ok(Render(s))
    case Raw(sql) => Ok(sql)
    case Update => Err(Unimplemented)
  }

  /** `Query::select`: every column of the table, keyed by `id`. */
  function SelectFrom(tableName: string): (q: Query)
    ensures q.SelectQuery?
    ensures q.select.tableName == tableName && q.select.primaryKey == DefaultPrimaryKey
    ensures q.select.columns == Columns([], None) && q.select.joins == []
    ensures q.select.whereClause == [] && q.select.orderBy == []
    ensures q.select.limit == None && q.select.offset == None
  {
    SelectQuery(NewSelect(tableName, "id"))
  }

  /** `Query::take_many`: LIMIT `n`, no other change; SELECT only. */
  function TakeMany(q: Query, n: nat): (r: Result<Query, Fault>)
    ensures r.Err? <==> !q.SelectQuery?
    ensures r.Err? ==> r.error == Unreachable
    ensures r.Ok? ==>
      && r.value.SelectQuery?
      && SameSource(r.value.select, q.select)
      && r.value.select.whereClause == q.select.whereClause
      && r.value.select.orderBy == q.select.orderBy
      && r.value.select.offset == q.select.offset
      && r.value.select.limit == Some(n)
  {
    match q
    case SelectQuery(s) => Ok(SelectQuery(WithLimit(s, n)))
    case _ => Err(Unreachable)
  }

  /** `Query::take_one`: LIMIT 1. */
  function TakeOne(q: Query): (r: Result<Query, Fault>)
    ensures r.Err? <==> !q.SelectQuery?
    ensures r.Err? ==> r.error == Unreachable
    ensures r.Ok? ==>
      && r.value.SelectQuery?
      && SameSource(r.value.select, q.select)
      && r.value.select.whereClause == q.select.whereClause
      && r.value.select.orderBy == q.select.orderBy
      && r.value.select.offset == q.select.offset
      && r.value.select.limit == Some(1)
  {
    match q
    case SelectQuery(s) => Ok(SelectQuery(WithLimit(s, 1)))
    case _ => Err(Unreachable)
  }

  /** `Query::limit` is `take_many`. */
  function Limit(q: Query, n: nat): (r: Result<Query, Fault>)
    ensures r.Err? <==> !q.SelectQuery?
    ensures r.Err? ==> r.error == Unreachable
    ensures r.Ok? ==>
      && r.value.SelectQuery?
      && SameSource(r.value.select, q.select)
      && r.value.select.whereClause == q.select.whereClause
      && r.value.select.orderBy == q.select.orderBy
      && r.value.select.offset == q.select.offset
      && r.value.select.limit == Some(n)
  {
    TakeMany(q, n)
  }

  /** The order `first_*` falls back to: the primary key, ascending. */
  function DefaultOrder(s: Select): seq<OrderTerm>
  {
    [OrderTerm(Column(s.tableName, s.primaryKey), Asc)]
  }

  /** `Query::first_many`: LIMIT `n`, ordered by the primary key when no
      order was given, the given order kept otherwise. */
  function FirstMany(q: Query, n: nat): (r: Result<Query, Fault>)
    ensures r.Err? <==> !q.SelectQuery?
    ensures r.Err? ==> r.error == Unreachable
    ensures r.Ok? ==>
      && r.value.SelectQuery?
      && SameSource(r.value.select, q.select)
      && r.value.select.whereClause == q.select.whereClause
      && r.value.select.offset == q.select.offset
      && r.value.select.limit == Some(n)
      && (q.select.orderBy == [] ==> r.value.select.orderBy == DefaultOrder(q.select))
      && (q.select.orderBy != [] ==> r.value.select.orderBy == q.select.orderBy)
  {
    match q
    case SelectQuery(s) =>
      var orderBy := if s.orderBy == [] then DefaultOrder(s) else s.orderBy;
      Ok(SelectQuery(WithOrderBy(WithLimit(s, n), orderBy)))
    case _ => Err(Unreachable)
  }

  /** `Query::first_one` is `first_many(1)`. */
  function FirstOne(q: Query): (r: Result<Query, Fault>)
    ensures r.Err? <==> !q.SelectQuery?
    ensures r.Err? ==> r.error == Unreachable
    ensures r.Ok? ==>
      && r.value.SelectQuery?
      && SameSource(r.value.select, q.select)
      && r.value.select.whereClause == q.select.whereClause
      && r.value.select.offset == q.select.offset
      && r.value.select.limit == Some(1)
      && r.value.select.orderBy == (if q.select.orderBy == [] then DefaultOrder(q.select) else q.select.orderBy)
  {
    match q
    case SelectQuery(_) => FirstMany(q, 1)
    case _ => Err(Unreachable)
  }

  /** `Query::filter`: AND-ed equality predicates appended after the
      existing ones; other variants pass through. */
  function Filter(q: Query, filters: seq<(string, Value)>): (r: Query)
    ensures !q.SelectQuery? ==> r == q
    ensures q.SelectQuery? ==>
      && r.SelectQuery?
      && r.select.whereClause == q.select.whereClause + PredicatesFor(q.select.tableName, filters, Equal, And)
      && SameSource(r.select, q.select)
      && r.select.orderBy == q.select.orderBy
      && r.select.limit == q.select.limit && r.select.offset == q.select.offset
  {
    match q
    case SelectQuery(s) => SelectQuery(FilterAnd(s, filters))
    case _ => q
  }

  /** `Query::not`: AND-ed `<>` predicates; other variants pass through. */
  function Not(q: Query, filters: seq<(string, Value)>): (r: Query)
    ensures !q.SelectQuery? ==> r == q
    ensures q.SelectQuery? ==>
      && r.SelectQuery?
      && r.select.whereClause == q.select.whereClause + PredicatesFor(q.select.tableName, filters, NotEqual, And)
      && SameSource(r.select, q.select)
      && r.select.orderBy == q.select.orderBy
      && r.select.limit == q.select.limit && r.select.offset == q.select.offset
  {
    match q
    case SelectQuery(s) => SelectQuery(FilterNot(s, filters))
    case _ => q
  }

  /** `Query::or_not`: OR-ed `<>` predicates; other variants pass through. */
  function OrNot(q: Query, filters: seq<(string, Value)>): (r: Query)
    ensures !q.SelectQuery? ==> r == q
    ensures q.SelectQuery? ==>
      && r.SelectQuery?
      && r.select.whereClause == q.select.whereClause + PredicatesFor(q.select.tableName, filters, NotEqual, Or)
      && SameSource(r.select, q.select)
      && r.select.orderBy == q.select.orderBy
      && r.select.limit == q.select.limit && r.select.offset == q.select.offset
  {
    match q
    case SelectQuery(s) => SelectQuery(FilterOrNot(s, filters))
    case _ => q
  }

  /** `Query::find_by`: drops every existing predicate, then filters on the
      one column; other variants pass through. */
  function FindBy(q: Query, column: string, value: Value): (r: Query)
    ensures !q.SelectQuery? ==> r == q
    ensures q.SelectQuery? ==>
      && r.SelectQuery?
      && r.select.whereClause == [Predicate(Column(q.select.tableName, column), Equal, value, And)]
      && SameSource(r.select, q.select)
      && r.select.orderBy == q.select.orderBy
      && r.select.limit == q.select.limit && r.select.offset == q.select.offset
  {
    var cleared := match q
      case SelectQuery(s) => SelectQuery(s.(whereClause := []))
      case _ => q;
    Filter(cleared, [(column, value)])
  }

  /** `Query::offset`; other variants pass through. */
  function Offset(q: Query, n: nat): (r: Query)
    ensures !q.SelectQuery? ==> r == q
    ensures q.SelectQuery? ==>
      && r.SelectQuery?
      && r.select.offset == Some(n)
      && SameSource(r.select, q.select)
      && r.select.whereClause == q.select.whereClause
      && r.select.orderBy == q.select.orderBy && r.select.limit == q.select.limit
  {
    match q
    case SelectQuery(s) => SelectQuery(WithOffset(s, n))
    case _ => q
  }

  /** `Query::order`: the new terms go after the existing ones; other
      variants pass through. */
  function Order(q: Query, terms: seq<OrderTerm>): (r: Query)
    ensures !q.SelectQuery? ==> r == q
    ensures q.SelectQuery? ==>
      && r.SelectQuery?
      && r.select.orderBy == q.select.orderBy + terms
      && SameSource(r.select, q.select)
      && r.select.whereClause == q.select.whereClause
      && r.select.limit == q.select.limit && r.select.offset == q.select.offset
  {
    match q
    case SelectQuery(s) => SelectQuery(s.(orderBy := s.orderBy + terms))
    case _ => q
  }

  /** `Query::join::<F>()` on a query of model `target`, where `owner` (F)
      declares an association of kind `kind` with `target`; other variants
      pass through. */
  function Join(q: Query, owner: ModelInfo, target: ModelInfo, kind: AssociationKind): (r: Query)
    ensures !q.SelectQuery? ==> r == q
    ensures q.SelectQuery? ==>
      && r.SelectQuery?
      && r.select.tableName == q.select.tableName && r.select.primaryKey == q.select.primaryKey
      && r.select.joins == q.select.joins + [JoinFor(owner, target, kind)]
      && r.select.columns.tableName == Some(q.select.tableName)
      && r.select.columns.columns == q.select.columns.columns
      && r.select.whereClause == q.select.whereClause
      && r.select.orderBy == q.select.orderBy
      && r.select.limit == q.select.limit && r.select.offset == q.select.offset
  {
    match q
    case SelectQuery(s) => SelectQuery(AddJoin(s, JoinFor(owner, target, kind)))
    case _ => q
  }

  // ---------------------------------------------------------------------
  // The `Model` trait's default constructors, for a model stored in
  // `tableName`.

  /** `Model::primary_key` default. */
  const DefaultPrimaryKey := "id"

  /** `Model::foreign_key` default: the singular of the table name, then
      `_id`. Singularisation is the `pluralizer` crate's, passed in. */
  function DefaultForeignKey(tableName: string, singular: string -> string): (fk: string)
    ensures |fk| >= 3 && fk[|fk| - 3..] == "_id"
    ensures fk[..|fk| - 3] == singular(tableName)
  {
    singular(tableName) + "_id"
  }

  /** `Model::column`: a column qualified by the model's table. */
  function ModelColumn(tableName: string, name: string): (col: Column)
    ensures col.tableName == tableName && col.columnName == name
    ensures Qualified(col) <==> tableName != ""
  {
    New(tableName, name)
  }

  /** `Model::all`. */
  function All(tableName: string): (q: Query)
    ensures q.SelectQuery? && q.select == NewSelect(tableName, DefaultPrimaryKey)
  {
    SelectFrom(tableName)
  }

  /** A query on the whole of `tableName` as `Query::select` starts it:
      every column, no join, keyed by the default primary key. */
  predicate FromTable(q: Query, tableName: string)
  {
    q.SelectQuery? && SameSource(q.select, NewSelect(tableName, DefaultPrimaryKey))
  }

  /** `Model::take_one`: one row of the table, unfiltered and unordered. */
  function ModelTakeOne(tableName: string): (r: Result<Query, Fault>)
    ensures r.Ok? && FromTable(r.value, tableName)
    ensures r.value.select.whereClause == [] && r.value.select.orderBy == []
    ensures r.value.select.limit == Some(1) && r.value.select.offset == None
  {
    TakeOne(SelectFrom(tableName))
  }

  /** `Model::take_many`: `n` rows of the table, unfiltered and unordered. */
  function ModelTakeMany(tableName: string, n: nat): (r: Result<Query, Fault>)
    ensures r.Ok? && FromTable(r.value, tableName)
    ensures r.value.select.whereClause == [] && r.value.select.orderBy == []
    ensures r.value.select.limit == Some(n) && r.value.select.offset == None
  {
    TakeMany(SelectFrom(tableName), n)
  }

  /** `Model::first_one`: the row of the table with the least primary key. */
  function ModelFirstOne(tableName: string): (r: Result<Query, Fault>)
    ensures r.Ok? && FromTable(r.value, tableName)
    ensures r.value.select.whereClause == []
    ensures r.value.select.orderBy == [OrderTerm(Column(tableName, DefaultPrimaryKey), Asc)]
    ensures r.value.select.limit == Some(1) && r.value.select.offset == None
  {
    FirstOne(SelectFrom(tableName))
  }

  /** `Model::first_many`: the `n` rows of the table with the least primary
      keys. */
  function ModelFirstMany(tableName: string, n: nat): (r: Result<Query, Fault>)
    ensures r.Ok? && FromTable(r.value, tableName)
    ensures r.value.select.whereClause == []
    ensures r.value.select.orderBy == [OrderTerm(Column(tableName, DefaultPrimaryKey), Asc)]
    ensures r.value.select.limit == Some(n) && r.value.select.offset == None
  {
    FirstMany(SelectFrom(tableName), n)
  }

  /** `Model::filter`: the rows of the table matching every pair. */
  function ModelFilter(tableName: string, filters: seq<(string, Value)>): (q: Query)
    ensures FromTable(q, tableName)
    ensures q.select.whereClause == PredicatesFor(tableName, filters, Equal, And)
    ensures q.select.orderBy == [] && q.select.limit == None && q.select.offset == None
  {
    Filter(SelectFrom(tableName), filters)
  }

  /** `Model::find_by`: `find_by` then `take_one`, one row whose `column`
      equals `value`. */
  function ModelFindBy(tableName: string, column: string, value: Value): (r: Result<Query, Fault>)
    ensures r.Ok? && FromTable(r.value, tableName)
    ensures r.value.select.whereClause == [Predicate(Column(tableName, column), Equal, value, And)]
    ensures r.value.select.orderBy == []
    ensures r.value.select.limit == Some(1) && r.value.select.offset == None
  {
    TakeOne(FindBy(SelectFrom(tableName), column, value))
  }

  /** `Model::find_by_sql`: a raw query. */
  function FindBySql(sql: string): (q: Query)
    ensures ToSql(q) == Ok(sql)
  {
    Raw(sql)
  }

  /** `Model::order`. */
  function ModelOrder(tableName: string, terms: seq<OrderTerm>): (q: Query)
    ensures FromTable(q, tableName)
    ensures q.select.orderBy == terms && q.select.whereClause == []
    ensures q.select.limit == None && q.select.offset == None
  {
    Order(All(tableName), terms)
  }
}
