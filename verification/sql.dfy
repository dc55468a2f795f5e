/** The SELECT record and its SQL rendering: values, where-predicates with
    positional placeholders, joins, ORDER BY, LIMIT and OFFSET. The renderers
    (select.rs, filter.rs, join.rs, order_by.rs, placeholders.rs, value.rs)
    are not part of this model. The tests in rum/src/model/mod.rs fix the
    clause order, `= $k`, `= ANY($k)`, ` AND `, `INNER JOIN … ON …`,
    `ORDER BY … ASC` and `LIMIT`; the renderings of `<>`, ` OR `, `DESC`,
    several order terms and `OFFSET` are this model's choice. */
module Sql {

  import opened Results
  import opened Strings
  import opened Columns

  /** A bindable SQL value; a `List` is bound as one array parameter. */
  datatype Value =
    | Integer(i: int)
    | Text(s: string)
    | Boolean(b: bool)
    | Timestamp(t: int)
    | Null
    | List(items: seq<Value>)

  datatype Comparison = Equal | NotEqual

  /** How a predicate is attached to the predicates before it. */
  datatype Connective = And | Or

  /** One where-predicate: `column <comparison> value`. */
  datatype Predicate = Predicate(column: Column, comparison: Comparison, value: Value, connective: Connective)

  /** The kind of an association between two models. */
  datatype AssociationKind = BelongsTo | HasMany

  /** The static facts of a model that joins need. */
  datatype ModelInfo = ModelInfo(tableName: string, primaryKey: string, foreignKey: string)

  /** `INNER JOIN tableName ON left = right`. */
  datatype JoinClause = JoinClause(tableName: string, left: Column, right: Column)

  datatype Direction = Asc | Desc

  datatype OrderTerm = OrderTerm(column: Column, direction: Direction)

  /** The SELECT under construction. */
  datatype Select = Select(
    tableName: string,
    primaryKey: string,
    columns: Columns,
    joins: seq<JoinClause>,
    whereClause: seq<Predicate>,
    orderBy: seq<OrderTerm>,
    limit: Option<nat>,
    offset: Option<nat>)

  /** `Select::new`: every column of the table, nothing else. */
  function NewSelect(tableName: string, primaryKey: string): (s: Select)
    ensures s.tableName == tableName && s.primaryKey == primaryKey
    ensures s.columns == Columns([], None)
    ensures s.joins == [] && s.whereClause == [] && s.orderBy == []
    ensures s.limit == None && s.offset == None
  {
    Select(tableName, primaryKey, Columns([], None), [], [], [], None, None)
  }

  // ---------------------------------------------------------------------
  // Chain steps on the record.

  /** The fields a chain step other than a filter or a join never touches. */
  predicate SameSource(a: Select, b: Select)
  {
    && a.tableName == b.tableName
    && a.primaryKey == b.primaryKey
    && a.columns == b.columns
    && a.joins == b.joins
  }

  /** The predicates a filter call adds: each name becomes a column of the
      select's table, compared with its value. */
  function PredicatesFor(tableName: string, filters: seq<(string, Value)>, comparison: Comparison, connective: Connective): (ps: seq<Predicate>)
    ensures |ps| == |filters|
    ensures forall i :: 0 <= i < |ps| ==>
      ps[i] == Predicate(Column(tableName, filters[i].0), comparison, filters[i].1, connective)
  {
    seq(|filters|, i requires 0 <= i < |filters| =>
      Predicate(Column(tableName, filters[i].0), comparison, filters[i].1, connective))
  }

  function AddPredicates(s: Select, filters: seq<(string, Value)>, comparison: Comparison, connective: Connective): (r: Select)
    ensures SameSource(r, s) && r.orderBy == s.orderBy && r.limit == s.limit && r.offset == s.offset
    ensures r.whereClause == s.whereClause + PredicatesFor(s.tableName, filters, comparison, connective)
  {
    s.(whereClause := s.whereClause + PredicatesFor(s.tableName, filters, comparison, connective))
  }

  /** `Select::filter_and`: AND-ed equality predicates. */
  function FilterAnd(s: Select, filters: seq<(string, Value)>): Select
  {
    AddPredicates(s, filters, Equal, And)
  }

  /** `Select::filter_not`: AND-ed negated predicates. */
  function FilterNot(s: Select, filters: seq<(string, Value)>): Select
  {
    AddPredicates(s, filters, NotEqual, And)
  }

  /** `Select::filter_or_not`: OR-ed negated predicates. */
  function FilterOrNot(s: Select, filters: seq<(string, Value)>): Select
  {
    AddPredicates(s, filters, NotEqual, Or)
  }

  /** `Select::limit`. */
  function WithLimit(s: Select, n: nat): (r: Select)
    ensures SameSource(r, s) && r.whereClause == s.whereClause
    ensures r.orderBy == s.orderBy && r.offset == s.offset
    ensures r.limit == Some(n)
  {
    s.(limit := Some(n))
  }

  /** `Select::offset`. */
  function WithOffset(s: Select, n: nat): (r: Select)
    ensures SameSource(r, s) && r.whereClause == s.whereClause
    ensures r.orderBy == s.orderBy && r.limit == s.limit
    ensures r.offset == Some(n)
  {
    s.(offset := Some(n))
  }

  /** `Select::order_by`: replaces the order list. */
  function WithOrderBy(s: Select, orderBy: seq<OrderTerm>): (r: Select)
    ensures SameSource(r, s) && r.whereClause == s.whereClause
    ensures r.limit == s.limit && r.offset == s.offset
    ensures r.orderBy == orderBy
  {
    s.(orderBy := orderBy)
  }

  /** `Select::join`: appends the join and projects the select's own table. */
  function AddJoin(s: Select, j: JoinClause): (r: Select)
    ensures r.tableName == s.tableName && r.primaryKey == s.primaryKey
    ensures r.joins == s.joins + [j]
    ensures r.columns == WithTable(s.columns, s.tableName)
    ensures r.whereClause == s.whereClause && r.orderBy == s.orderBy
    ensures r.limit == s.limit && r.offset == s.offset
  {
    s.(joins := s.joins + [j], columns := WithTable(s.columns, s.tableName))
  }

  /** The join a query on `target` gets from the association of `owner` to
      `target`. A `BelongsTo` owner holds the target's foreign key; a
      `HasMany` owner is pointed at by its own foreign key in the target. */
  function JoinFor(owner: ModelInfo, target: ModelInfo, kind: AssociationKind): (j: JoinClause)
    ensures j.tableName == owner.tableName
    ensures j.left.tableName == target.tableName && j.right.tableName == owner.tableName
    ensures kind == BelongsTo ==>
      j.left.columnName == target.primaryKey && j.right.columnName == target.foreignKey
    ensures kind == HasMany ==>
      j.left.columnName == owner.foreignKey && j.right.columnName == owner.primaryKey
  {
    match kind
    case BelongsTo =>
      JoinClause(owner.tableName, Column(target.tableName, target.primaryKey), Column(owner.tableName, target.foreignKey))
    case HasMany =>
      JoinClause(owner.tableName, Column(target.tableName, owner.foreignKey), Column(owner.tableName, owner.primaryKey))
  }

  /** Joining B from A (B belongs to A) and A from B (A has many B) compare
      the same two columns, each with the other table on the left. */
  lemma JoinDirectionConsistent(a: ModelInfo, b: ModelInfo)
    ensures JoinFor(b, a, BelongsTo).left == JoinFor(a, b, HasMany).right
    ensures JoinFor(b, a, BelongsTo).right == JoinFor(a, b, HasMany).left
    ensures JoinFor(b, a, BelongsTo).tableName == b.tableName
    ensures JoinFor(a, b, HasMany).tableName == a.tableName
  {
  }

  // ---------------------------------------------------------------------
  // Rendering.

  /** The positional marker of the `k`-th bound value. */
  function Marker(k: nat): string
  {
    "$" + NatToString(k)
  }

  /** The right-hand side of a predicate: its marker, wrapped in `ANY(…)`
      for a list. */
  function ValueSql(v: Value, k: nat): string
  {
    if v.List? then "ANY(" + Marker(k) + ")" else Marker(k)
  }

  /** A predicate whose value is bound as parameter `k`; a list value is
      matched with `ANY`. */
  function PredicateSql(p: Predicate, k: nat): string
  {
    ColumnSql(p.column) + (if p.comparison == Equal then " = " else " <> ") + ValueSql(p.value, k)
  }

  function ConnectiveSql(c: Connective): string
  {
    if c == And then " AND " else " OR "
  }

  /** One predicate of a WHERE clause, after its connective unless it opens
      the clause. */
  function ConditionSql(p: Predicate, k: nat, first: bool): string
  {
    (if first then "" else ConnectiveSql(p.connective)) + PredicateSql(p, k)
  }

  /** The predicates `ps`, numbered from `k`. */
  function Conditions(ps: seq<Predicate>, k: nat, first: bool): string
  {
    Numbered(ps, k, first, ConditionSql)
  }

  /** The values bound to `$1..$n`, in predicate order. */
  function Placeholders(ps: seq<Predicate>): (vs: seq<Value>)
    ensures |vs| == |ps|
    ensures forall i :: 0 <= i < |ps| ==> vs[i] == ps[i].value
  {
    seq(|ps|, i requires 0 <= i < |ps| => ps[i].value)
  }

  lemma PlaceholdersAppend(ps: seq<Predicate>, qs: seq<Predicate>)
    ensures Placeholders(ps + qs) == Placeholders(ps) + Placeholders(qs)
  {
  }

  function WhereSql(ps: seq<Predicate>): string
  {
    if |ps| == 0 then "" else " WHERE " + Conditions(ps, 1, true)
  }

  function JoinSql(j: JoinClause): string
  {
    " INNER JOIN " + QuoteIdent(j.tableName) + " ON " + ColumnSql(j.left) + " = " + ColumnSql(j.right)
  }

  function JoinsSql(js: seq<JoinClause>): string
  {
    if |js| == 0 then "" else JoinSql(js[0]) + JoinsSql(js[1..])
  }

  function OrderTermSql(t: OrderTerm): string
  {
    ColumnSql(t.column) + (if t.direction == Asc then " ASC" else " DESC")
  }

  function OrderSql(terms: seq<OrderTerm>): string
  {
    if |terms| == 0 then ""
    else " ORDER BY " + Join(seq(|terms|, i requires 0 <= i < |terms| => OrderTermSql(terms[i])), ", ")
  }

  function LimitSql(limit: Option<nat>): string
  {
    match limit
    case None => ""
    case Some(n) => " LIMIT " + NatToString(n)
  }

  function OffsetSql(offset: Option<nat>): string
  {
    match offset
    case None => ""
    case Some(n) => " OFFSET " + NatToString(n)
  }

  /** `Select::to_sql`, in the fixed clause order
      SELECT, FROM, JOIN, WHERE, ORDER BY, LIMIT, OFFSET. */
  function Render(s: Select): string
  {
    "SELECT " + ColumnsSql(s.columns) + " FROM " + QuoteIdent(s.tableName)
    + JoinsSql(s.joins) + WhereSql(s.whereClause) + OrderSql(s.orderBy)
    + LimitSql(s.limit) + OffsetSql(s.offset)
  }

  // ---------------------------------------------------------------------
  // Placeholder bookkeeping.

  /** Appending predicates continues the numbering where the earlier ones
      stopped: the appended block is numbered from `k + |ps|`, each of its
      predicates after its connective. */
  lemma ConditionsAppend(ps: seq<Predicate>, qs: seq<Predicate>, k: nat, first: bool)
    requires |ps| > 0 || !first
    ensures Conditions(ps + qs, k, first) == Conditions(ps, k, first) + Conditions(qs, k + |ps|, false)
  {
    NumberedAppend(ps, qs, k, first, ConditionSql);
  }

  /** A WHERE clause over two blocks of predicates: the second block is
      numbered on from the first and follows it after its connectives. */
  lemma WhereAppend(ps: seq<Predicate>, qs: seq<Predicate>)
    requires |ps| > 0
    ensures WhereSql(ps + qs) == " WHERE " + Conditions(ps, 1, true) + Conditions(qs, |ps| + 1, false)
  {
    ConditionsAppend(ps, qs, 1, true);
    ConcatAssoc(" WHERE ", Conditions(ps, 1, true), Conditions(qs, |ps| + 1, false));
  }

  /** A predicate after the first is rendered after its connective, with
      the next number. */
  lemma LaterCondition(qs: seq<Predicate>, k: nat)
    requires |qs| > 0
    ensures Conditions(qs, k, false)
      == ConnectiveSql(qs[0].connective) + PredicateSql(qs[0], k) + Conditions(qs[1..], k + 1, false)
  {
  }

  /** No character of `s` is a `$`. */
  predicate NoDollar(s: string)
  {
    '$' !in s
  }

  lemma {:induction false} EscapeNoDollar(s: string)
    requires NoDollar(s)
    ensures NoDollar(Escape(s))
  {
    if |s| > 0 {
      EscapeNoDollar(s[1..]);
    }
  }

  lemma MarkerHasOneDollar(k: nat)
    ensures Count(Marker(k), '$') == 1
  {
    var digits := NatToString(k);
    assert '$' !in digits by {
      assert forall i :: 0 <= i < |digits| ==> IsDigit(digits[i]);
    }
    CountZero(digits, '$');
    assert Count("$", '$') == 1;
    CountConcat("$", digits, '$');
  }

  lemma ColumnHasNoDollar(col: Column)
    requires NoDollar(col.tableName) && NoDollar(col.columnName)
    ensures Count(ColumnSql(col), '$') == 0
  {
    EscapeNoDollar(col.tableName);
    EscapeNoDollar(col.columnName);
    CountZero(ColumnSql(col), '$');
  }

  lemma ValueHasOneDollar(v: Value, k: nat)
    ensures Count(ValueSql(v, k), '$') == 1
  {
    MarkerHasOneDollar(k);
    if v.List? {
      CountZero("ANY(", '$');
      CountZero(")", '$');
      CountConcat("ANY(", Marker(k), '$');
      CountConcat("ANY(" + Marker(k), ")", '$');
    }
  }

  lemma PredicateHasOneDollar(p: Predicate, k: nat)
    requires NoDollar(p.column.tableName) && NoDollar(p.column.columnName)
    ensures Count(PredicateSql(p, k), '$') == 1
  {
    var col := ColumnSql(p.column);
    var op := if p.comparison == Equal then " = " else " <> ";
    ColumnHasNoDollar(p.column);
    CountZero(op, '$');
    ValueHasOneDollar(p.value, k);
    CountConcat(col, op, '$');
    CountConcat(col + op, ValueSql(p.value, k), '$');
  }

  /** When no identifier contains a `$`, the conditions carry exactly one
      positional marker per bound value. */
  lemma OneMarkerPerValue(ps: seq<Predicate>, k: nat, first: bool)
    requires forall p :: p in ps ==> NoDollar(p.column.tableName) && NoDollar(p.column.columnName)
    ensures Count(Conditions(ps, k, first), '$') == |Placeholders(ps)|
  {
    forall p, n: nat, f | p in ps
      ensures Count(ConditionSql(p, n, f), '$') == 1
    {
      var lead := if f then "" else ConnectiveSql(p.connective);
      CountZero(lead, '$');
      PredicateHasOneDollar(p, n);
      CountConcat(lead, PredicateSql(p, n), '$');
    }
    NumberedCount(ps, k, first, ConditionSql, '$');
  }
}
