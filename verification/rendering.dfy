/** What the chain methods of rum/src/model/mod.rs do to the rendered SQL:
    all-input statements of the rules its tests illustrate, and the tests'
    own expected strings. */
module QueryRendering {

  import opened Results
  import opened Strings
  import opened Columns
  import opened Sql
  import opened QueryBuilder

  /** The clauses after the FROM table, in their fixed order. */
  function Clauses(s: Select): string
  {
    JoinsSql(s.joins) + WhereSql(s.whereClause) + OrderSql(s.orderBy) + LimitSql(s.limit) + OffsetSql(s.offset)
  }

  /** A SELECT renders as its projection, its table, then its clauses. */
  lemma Assemble(s: Select)
    ensures Render(s) == "SELECT " + ColumnsSql(s.columns) + " FROM " + QuoteIdent(s.tableName) + Clauses(s)
  {
    var head := "SELECT " + ColumnsSql(s.columns) + " FROM " + QuoteIdent(s.tableName);
    var j, w, o, l, f := JoinsSql(s.joins), WhereSql(s.whereClause), OrderSql(s.orderBy), LimitSql(s.limit), OffsetSql(s.offset);
    calc {
      Render(s);
      head + j + w + o + l + f;
      { ConcatAssoc(head, j, w); }
      head + (j + w) + o + l + f;
      { ConcatAssoc(head, j + w, o); }
      head + (j + w + o) + l + f;
      { ConcatAssoc(head, j + w + o, l); }
      head + (j + w + o + l) + f;
      { ConcatAssoc(head, j + w + o + l, f); }
      head + Clauses(s);
    }
  }

  lemma EmptyRight(a: string)
    ensures a + "" == a
  {
  }

  /** A query on every column of `t`: `SELECT * FROM "t"` and its clauses. */
  lemma StarRendering(s: Select)
    requires s.columns == Columns([], None)
    ensures Render(s) == "SELECT * FROM " + QuoteIdent(s.tableName) + Clauses(s)
  {
    Assemble(s);
    EmptyColumnsStar();
    StarHead();
  }

  lemma StarHead()
    ensures "SELECT " + "*" + " FROM " == "SELECT * FROM "
  {
  }

  /** `Model::all` selects every column of the table and nothing more. */
  lemma AllRendering(t: string)
    ensures ToSql(All(t)) == Ok("SELECT * FROM " + QuoteIdent(t))
  {
    var s := All(t).select;
    StarRendering(s);
    assert Clauses(s) == "";
    EmptyRight("SELECT * FROM " + QuoteIdent(t));
  }

  /** `Model::take_many(n)`: a LIMIT and no ORDER BY. */
  lemma TakeManyRendering(t: string, n: nat)
    ensures ModelTakeMany(t, n).Ok?
    ensures ToSql(ModelTakeMany(t, n).value) == Ok("SELECT * FROM " + QuoteIdent(t) + " LIMIT " + NatToString(n))
  {
    var s := ModelTakeMany(t, n).value.select;
    StarRendering(s);
    assert Clauses(s) == " LIMIT " + NatToString(n);
    ConcatAssoc("SELECT * FROM " + QuoteIdent(t), " LIMIT ", NatToString(n));
  }

  /** `Model::first_many(n)`: ordered by the primary key, then limited. */
  lemma FirstManyRendering(t: string, n: nat)
    ensures ModelFirstMany(t, n).Ok?
    ensures ToSql(ModelFirstMany(t, n).value)
      == Ok("SELECT * FROM " + QuoteIdent(t) + " ORDER BY " + ColumnSql(Column(t, DefaultPrimaryKey)) + " ASC" + " LIMIT " + NatToString(n))
  {
    var s := ModelFirstMany(t, n).value.select;
    StarRendering(s);
    DefaultOrderRendering(SelectFrom(t), n);
    OrderLimitClauses(s, n);
    RegroupOrderLimit("SELECT * FROM " + QuoteIdent(t), ColumnSql(Column(t, DefaultPrimaryKey)), NatToString(n));
  }

  /** The clauses of an unjoined, unfiltered SELECT with a LIMIT. */
  lemma OrderLimitClauses(s: Select, n: nat)
    requires s.joins == [] && s.whereClause == [] && s.offset == None && s.limit == Some(n)
    ensures Clauses(s) == OrderSql(s.orderBy) + (" LIMIT " + NatToString(n))
  {
    EmptyRight(OrderSql(s.orderBy) + (" LIMIT " + NatToString(n)));
  }

  lemma RegroupOrderLimit(head: string, col: string, digits: string)
    ensures head + ((" ORDER BY " + col + " ASC") + (" LIMIT " + digits))
      == head + " ORDER BY " + col + " ASC" + " LIMIT " + digits
  {
    var o := " ORDER BY " + col + " ASC";
    ConcatAssoc(head, o, " LIMIT " + digits);
    ConcatAssoc(head + o, " LIMIT ", digits);
    calc {
      head + o;
      { ConcatAssoc(head, " ORDER BY " + col, " ASC"); }
      head + (" ORDER BY " + col) + " ASC";
      { ConcatAssoc(head, " ORDER BY ", col); }
      head + " ORDER BY " + col + " ASC";
    }
  }

  /** The order `first_*` installs on an unordered query renders as
      `ORDER BY <table>.<primary key> ASC`. */
  lemma DefaultOrderRendering(q: Query, n: nat)
    requires q.SelectQuery? && q.select.orderBy == []
    ensures FirstMany(q, n).Ok?
    ensures OrderSql(FirstMany(q, n).value.select.orderBy)
      == " ORDER BY " + ColumnSql(Column(q.select.tableName, q.select.primaryKey)) + " ASC"
  {
    var terms := DefaultOrder(q.select);
    var rendered := seq(1, i requires 0 <= i < 1 => OrderTermSql(terms[i]));
    assert rendered == [OrderTermSql(terms[0])];
    assert Strings.Join(rendered, ", ") == OrderTermSql(terms[0]);
  }

  /** `take_*`, `limit` and `first_*` on an ordered query never change the
      ORDER BY clause. */
  lemma LimitKeepsOrder(q: Query, n: nat)
    requires q.SelectQuery?
    ensures OrderSql(TakeMany(q, n).value.select.orderBy) == OrderSql(q.select.orderBy)
    ensures q.select.orderBy != [] ==>
      OrderSql(FirstMany(q, n).value.select.orderBy) == OrderSql(q.select.orderBy)
  {
  }

  /** `find_by` discards every predicate an earlier `filter` added: the
      WHERE clause is the single `find_by` predicate either way. */
  lemma FindByAfterFilter(q: Query, filters: seq<(string, Value)>, column: string, v: Value)
    ensures !q.SelectQuery? ==> FindBy(Filter(q, filters), column, v) == q
    ensures q.SelectQuery? ==>
      FindBy(Filter(q, filters), column, v).select.whereClause == FindBy(q, column, v).select.whereClause
  {
  }

  /** `offset(n)` on a query without an offset appends `OFFSET n` to its
      SQL and changes nothing before it. */
  lemma OffsetRendering(q: Query, n: nat)
    requires q.SelectQuery? && q.select.offset == None
    ensures ToSql(Offset(q, n)) == Ok(ToSql(q).value + " OFFSET " + NatToString(n))
  {
    var s, s2 := q.select, Offset(q, n).select;
    var before := "SELECT " + ColumnsSql(s.columns) + " FROM " + QuoteIdent(s.tableName)
      + JoinsSql(s.joins) + WhereSql(s.whereClause) + OrderSql(s.orderBy) + LimitSql(s.limit);
    assert Render(s) == before + "";
    EmptyRight(before);
    assert Render(s2) == before + (" OFFSET " + NatToString(n));
    ConcatAssoc(before, " OFFSET ", NatToString(n));
  }

  /** A later `offset` replaces an earlier one. */
  lemma OffsetReplaces(q: Query, m: nat, n: nat)
    ensures ToSql(Offset(Offset(q, m), n)) == ToSql(Offset(q, n))
  {
  }

  /** `order(terms)` on an unordered, unlimited query without an offset
      appends its ORDER BY clause to the SQL. */
  lemma OrderRendering(q: Query, terms: seq<OrderTerm>)
    requires q.SelectQuery? && q.select.orderBy == [] && q.select.limit == None && q.select.offset == None
    ensures ToSql(Order(q, terms)) == Ok(ToSql(q).value + OrderSql(terms))
  {
    var s, s2 := q.select, Order(q, terms).select;
    assert s2.orderBy == terms;
    var before := "SELECT " + ColumnsSql(s.columns) + " FROM " + QuoteIdent(s.tableName)
      + JoinsSql(s.joins) + WhereSql(s.whereClause);
    assert Render(s) == before + "" + "" + "";
    EmptyRight(before);
    assert Render(s2) == before + OrderSql(terms) + "" + "";
    EmptyRight(before + OrderSql(terms));
  }

  /** Each clause is empty or starts with a space. */
  predicate Spaced(c: string)
  {
    |c| == 0 || c[0] == ' '
  }

  lemma SpacedConcat(a: string, b: string)
    requires Spaced(a) && Spaced(b)
    ensures Spaced(a + b)
  {
  }

  lemma {:induction false} JoinsSpaced(js: seq<JoinClause>)
    ensures Spaced(JoinsSql(js))
    decreases |js|
  {
    if |js| > 0 {
      JoinsSpaced(js[1..]);
      SpacedConcat(JoinSql(js[0]), JoinsSql(js[1..]));
    }
  }

  lemma ClausesSpaced(s: Select)
    ensures Spaced(Clauses(s))
  {
    JoinsSpaced(s.joins);
    SpacedConcat(JoinsSql(s.joins), WhereSql(s.whereClause));
    SpacedConcat(JoinsSql(s.joins) + WhereSql(s.whereClause), OrderSql(s.orderBy));
    SpacedConcat(JoinsSql(s.joins) + WhereSql(s.whereClause) + OrderSql(s.orderBy), LimitSql(s.limit));
    SpacedConcat(JoinsSql(s.joins) + WhereSql(s.whereClause) + OrderSql(s.orderBy) + LimitSql(s.limit), OffsetSql(s.offset));
  }

  /** The SQL of a SELECT names its table: after `SELECT <columns> FROM `
      the quoted identifier reads back as the table name, and what follows
      it is the clauses. */
  lemma ToSqlNamesTable(s: Select)
    ensures var head := "SELECT " + ColumnsSql(s.columns) + " FROM ";
      && ToSql(SelectQuery(s)).Ok?
      && |head| < |ToSql(SelectQuery(s)).value|
      && ToSql(SelectQuery(s)).value[..|head|] == head
      && ToSql(SelectQuery(s)).value[|head|] == '"'
      && ReadQuoted(ToSql(SelectQuery(s)).value[|head| + 1..]) == Some((s.tableName, Clauses(s)))
  {
    var head := "SELECT " + ColumnsSql(s.columns) + " FROM ";
    var rest := QuoteIdent(s.tableName) + Clauses(s);
    Assemble(s);
    ConcatAssoc(head, QuoteIdent(s.tableName), Clauses(s));
    assert Render(s) == head + rest;
    ClausesSpaced(s);
    ReadIdent(s.tableName, Clauses(s));
    assert (head + rest)[|head| + 1..] == rest[1..];
  }

  /** Two `filter` calls number the second call's placeholders right after
      the first call's, the two joined by AND, and bind the values in call
      order. */
  lemma FilterNumbersAcrossCalls(t: string, a: seq<(string, Value)>, b: seq<(string, Value)>)
    requires |a| > 0 && |b| > 0
    ensures var q := Filter(Filter(All(t), a), b);
      var pa := PredicatesFor(t, a, Equal, And);
      var pb := PredicatesFor(t, b, Equal, And);
      && q.SelectQuery?
      && q.select.whereClause == pa + pb
      && WhereSql(q.select.whereClause) == " WHERE " + Conditions(pa, 1, true) + Conditions(pb, |a| + 1, false)
      && Conditions(pb, |a| + 1, false) == " AND " + PredicateSql(pb[0], |a| + 1) + Conditions(pb[1..], |a| + 2, false)
      && Placeholders(q.select.whereClause) == Placeholders(pa) + Placeholders(pb)
  {
    var pa := PredicatesFor(t, a, Equal, And);
    var pb := PredicatesFor(t, b, Equal, And);
    FilterTwice(t, a, b);
    WhereAppend(pa, pb);
    LaterCondition(pb, |a| + 1);
    assert pb[0].connective == And;
    PlaceholdersAppend(pa, pb);
  }

  lemma FilterTwice(t: string, a: seq<(string, Value)>, b: seq<(string, Value)>)
    ensures Filter(Filter(All(t), a), b).SelectQuery?
    ensures Filter(Filter(All(t), a), b).select.whereClause
      == PredicatesFor(t, a, Equal, And) + PredicatesFor(t, b, Equal, And)
  {
    assert [] + PredicatesFor(t, a, Equal, And) == PredicatesFor(t, a, Equal, And);
  }

  /** `Model::find_by` with a scalar value: one predicate bound to `$1`,
      then LIMIT 1. */
  lemma FindByRendering(t: string, column: string, v: Value)
    requires !v.List?
    ensures ModelFindBy(t, column, v).Ok?
    ensures ToSql(ModelFindBy(t, column, v).value)
      == Ok("SELECT * FROM " + QuoteIdent(t) + " WHERE " + ColumnSql(Column(t, column)) + " = $1" + " LIMIT 1")
    ensures Placeholders(ModelFindBy(t, column, v).value.select.whereClause) == [v]
  {
    var s := ModelFindBy(t, column, v).value.select;
    StarRendering(s);
    var p := Predicate(Column(t, column), Equal, v, And);
    assert s.whereClause == [p];
    assert NatToString(1) == "1";
    assert Marker(1) == "$1";
    var col := ColumnSql(Column(t, column));
    assert PredicateSql(p, 1) == col + " = " + "$1";
    ConcatAssoc(col, " = ", "$1");
    assert " = " + "$1" == " = $1";
    assert [p][1..] == [];
    assert ConditionSql(p, 1, true) == "" + PredicateSql(p, 1);
    assert "" + PredicateSql(p, 1) == PredicateSql(p, 1);
    assert Numbered([p][1..], 2, false, ConditionSql) == "";
    assert Numbered([p], 1, true, ConditionSql) == ConditionSql(p, 1, true) + Numbered([p][1..], 2, false, ConditionSql);
    assert Conditions([p], 1, true) == ConditionSql(p, 1, true) + "";
    EmptyRight(ConditionSql(p, 1, true));
    var w := " WHERE " + col + " = $1";
    ConcatAssoc(" WHERE ", col, " = $1");
    assert WhereSql(s.whereClause) == w;
    assert LimitSql(s.limit) == " LIMIT 1";
    assert Clauses(s) == w + " LIMIT 1";
    var head := "SELECT * FROM " + QuoteIdent(t);
    ConcatAssoc(head, w, " LIMIT 1");
    ConcatAssoc(head, " WHERE " + col, " = $1");
    ConcatAssoc(head, " WHERE ", col);
  }

  /** Joining a related model projects the queried table's columns
      (`"t".*`) and adds one INNER JOIN after the FROM table. */
  lemma JoinRendering(owner: ModelInfo, target: ModelInfo, kind: AssociationKind)
    ensures var q := QueryBuilder.Join(All(target.tableName), owner, target, kind);
      ToSql(q) == Ok("SELECT \"" + target.tableName + "\".* FROM " + QuoteIdent(target.tableName) + JoinSql(JoinFor(owner, target, kind)))
  {
    var t := target.tableName;
    var s := QueryBuilder.Join(All(t), owner, target, kind).select;
    Assemble(s);
    EmptyColumnsOfTable(t);
    var j := JoinFor(owner, target, kind);
    SingleJoinClauses(s, j);
    ProjectionHead(t);
  }

  lemma SingleJoinClauses(s: Select, j: JoinClause)
    requires s.joins == [j] && s.whereClause == [] && s.orderBy == []
    requires s.limit == None && s.offset == None
    ensures Clauses(s) == JoinSql(j)
  {
    assert s.joins[1..] == [];
    EmptyRight(JoinSql(j));
    assert JoinsSql(s.joins) == JoinSql(j);
  }

  lemma ProjectionHead(t: string)
    ensures "SELECT " + ("\"" + t + "\".*") + " FROM " == "SELECT \"" + t + "\".* FROM "
  {
    ConcatAssoc("SELECT ", "\"" + t, "\".*");
    ConcatAssoc("SELECT ", "\"", t);
  }

  // ---------------------------------------------------------------------
  // The expected strings of the tests in rum/src/model/mod.rs.

  /** The test models: users have many orders, orders belong to users. */
  const Users := ModelInfo("users", "id", "user_id")
  const Orders := ModelInfo("orders", "id", "order_id")

  /** An identifier without a double quote is quoted verbatim. */
  lemma QuoteFree(x: string)
    requires '"' !in x
    ensures QuoteIdent(x) == "\"" + x + "\""
  {
    EscapeQuoteFree(x);
  }

  lemma QuoteUsers()
    ensures QuoteIdent("users") == "\"users\""
  {
    QuoteFree("users");
  }

  lemma QuoteOrders()
    ensures QuoteIdent("orders") == "\"orders\""
  {
    QuoteFree("orders");
  }

  lemma QuoteId()
    ensures QuoteIdent("id") == "\"id\""
  {
    QuoteFree("id");
  }

  lemma UsersHead()
    ensures "SELECT * FROM " + QuoteIdent("users") == "SELECT * FROM \"users\""
  {
    QuoteUsers();
    assert "SELECT * FROM " + "\"users\"" == "SELECT * FROM \"users\"";
  }

  lemma SmallNumbers()
    ensures NatToString(1) == "1"
    ensures NatToString(25) == "25"
  {
    assert NatToString(2) == "2";
  }

  lemma ExampleAll()
    ensures ToSql(All("users")) == Ok("SELECT * FROM \"users\"")
  {
    AllRendering("users");
    UsersHead();
  }

  /** `take_one` and `take_many`: the test expectations with limits 1 and 25. */
  lemma ExampleTakeMany(n: nat, digits: string)
    requires (n, digits) in {(1, "1"), (25, "25")}
    ensures ModelTakeMany("users", n).Ok?
    ensures ToSql(ModelTakeMany("users", n).value) == Ok("SELECT * FROM \"users\" LIMIT " + digits)
  {
    TakeManyRendering("users", n);
    UsersHead();
    SmallNumbers();
    assert NatToString(n) == digits;
    assert "SELECT * FROM \"users\"" + " LIMIT " == "SELECT * FROM \"users\" LIMIT ";
  }

  lemma ExampleTakeOne()
    ensures ModelTakeOne("users").Ok?
    ensures ToSql(ModelTakeOne("users").value) == Ok("SELECT * FROM \"users\" LIMIT 1")
  {
    ExampleTakeMany(1, "1");
    assert ModelTakeOne("users") == ModelTakeMany("users", 1);
    assert "SELECT * FROM \"users\" LIMIT " + "1" == "SELECT * FROM \"users\" LIMIT 1";
  }

  lemma UsersId()
    ensures ColumnSql(Column("users", "id")) == "\"users\".\"id\""
  {
    QuoteUsers();
    QuoteId();
    assert "\"users\"" + "." + "\"id\"" == "\"users\".\"id\"";
  }

  lemma FirstManyText()
    ensures "SELECT * FROM \"users\"" + " ORDER BY " + "\"users\".\"id\"" + " ASC" + " LIMIT "
      == "SELECT * FROM \"users\" ORDER BY \"users\".\"id\" ASC LIMIT "
  {
  }

  lemma ExampleFirstMany(n: nat, digits: string)
    requires (n, digits) in {(1, "1"), (25, "25")}
    ensures ModelFirstMany("users", n).Ok?
    ensures ToSql(ModelFirstMany("users", n).value)
      == Ok("SELECT * FROM \"users\" ORDER BY \"users\".\"id\" ASC LIMIT " + digits)
  {
    FirstManyRendering("users", n);
    UsersHead();
    SmallNumbers();
    assert NatToString(n) == digits;
    UsersId();
    FirstManyText();
  }

  lemma ExampleFirstOne()
    ensures ModelFirstOne("users").Ok?
    ensures ToSql(ModelFirstOne("users").value) == Ok("SELECT * FROM \"users\" ORDER BY \"users\".\"id\" ASC LIMIT 1")
  {
    ExampleFirstMany(1, "1");
    assert ModelFirstOne("users") == ModelFirstMany("users", 1);
    assert "SELECT * FROM \"users\" ORDER BY \"users\".\"id\" ASC LIMIT " + "1"
      == "SELECT * FROM \"users\" ORDER BY \"users\".\"id\" ASC LIMIT 1";
  }

  lemma ExampleFindBy()
    ensures ModelFindBy("users", "email", Text("test@test.com")).Ok?
    ensures ToSql(ModelFindBy("users", "email", Text("test@test.com")).value)
      == Ok("SELECT * FROM \"users\" WHERE \"users\".\"email\" = $1 LIMIT 1")
  {
    FindByRendering("users", "email", Text("test@test.com"));
    UsersHead();
    UsersEmail();
    FindByText();
  }

  lemma UsersEmail()
    ensures ColumnSql(Column("users", "email")) == "\"users\".\"email\""
  {
    QuoteUsers();
    QuoteFree("email");
    assert "\"users\"" + "." + "\"email\"" == "\"users\".\"email\"";
  }

  lemma FindByText()
    ensures "SELECT * FROM \"users\"" + " WHERE " + "\"users\".\"email\"" + " = $1" + " LIMIT 1"
      == "SELECT * FROM \"users\" WHERE \"users\".\"email\" = $1 LIMIT 1"
  {
  }

  lemma QuoteUserId()
    ensures QuoteIdent("user_id") == "\"user_id\""
  {
    QuoteFree("user_id");
  }

  lemma OrdersUserId()
    ensures ColumnSql(Column("orders", "user_id")) == "\"orders\".\"user_id\""
  {
    QuoteOrders();
    QuoteUserId();
    assert "\"orders\"" + "." + "\"user_id\"" == "\"orders\".\"user_id\"";
  }

  /** The projection and FROM table of a joined query on `t`. */
  lemma JoinedHead(t: string)
    requires '"' !in t
    ensures "SELECT \"" + t + "\".* FROM " + QuoteIdent(t) == "SELECT \"" + t + "\".* FROM \"" + t + "\""
  {
    QuoteFree(t);
    var a := "SELECT \"" + t + "\".* FROM ";
    ConcatAssoc(a, "\"" + t, "\"");
    ConcatAssoc(a, "\"", t);
    assert "SELECT \"" + t + "\".* FROM " + "\"" == "SELECT \"" + t + "\".* FROM \"";
  }

  /** Regrouping a join clause's six pieces after a prefix. */
  lemma Flatten(h: string, a: string, b: string, c: string, d: string, e: string, f: string)
    ensures h + (a + b + c + d + e + f) == h + a + b + c + d + e + f
  {
    ConcatAssoc(h, a + b + c + d + e, f);
    ConcatAssoc(h, a + b + c + d, e);
    ConcatAssoc(h, a + b + c, d);
    ConcatAssoc(h, a + b, c);
    ConcatAssoc(h, a, b);
  }

  lemma JoinOrdersText()
    ensures "SELECT \"users\".* FROM \"users\""
      + (" INNER JOIN " + "\"orders\"" + " ON " + "\"users\".\"id\"" + " = " + "\"orders\".\"user_id\"")
      == "SELECT \"users\".* FROM \"users\" INNER JOIN \"orders\" ON \"users\".\"id\" = \"orders\".\"user_id\""
  {
    Flatten("SELECT \"users\".* FROM \"users\"", " INNER JOIN ", "\"orders\"", " ON ", "\"users\".\"id\"", " = ", "\"orders\".\"user_id\"");
    JoinOrdersTextStart();
    JoinOrdersTextEnd();
  }

  lemma JoinOrdersTextStart()
    ensures "SELECT \"users\".* FROM \"users\"" + " INNER JOIN " + "\"orders\"" + " ON " == "SELECT \"users\".* FROM \"users\" INNER JOIN \"orders\" ON "
  {
    assert "SELECT \"users\".* FROM \"users\"" + " INNER JOIN " == "SELECT \"users\".* FROM \"users\" INNER JOIN ";
    assert "SELECT \"users\".* FROM \"users\" INNER JOIN " + "\"orders\"" == "SELECT \"users\".* FROM \"users\" INNER JOIN \"orders\"";
    assert "SELECT \"users\".* FROM \"users\" INNER JOIN \"orders\"" + " ON " == "SELECT \"users\".* FROM \"users\" INNER JOIN \"orders\" ON ";
  }

  lemma JoinOrdersTextEnd()
    ensures "SELECT \"users\".* FROM \"users\" INNER JOIN \"orders\" ON " + "\"users\".\"id\"" + " = " + "\"orders\".\"user_id\"" == "SELECT \"users\".* FROM \"users\" INNER JOIN \"orders\" ON \"users\".\"id\" = \"orders\".\"user_id\""
  {
    assert "SELECT \"users\".* FROM \"users\" INNER JOIN \"orders\" ON " + "\"users\".\"id\"" == "SELECT \"users\".* FROM \"users\" INNER JOIN \"orders\" ON \"users\".\"id\"";
    assert "SELECT \"users\".* FROM \"users\" INNER JOIN \"orders\" ON \"users\".\"id\"" + " = " == "SELECT \"users\".* FROM \"users\" INNER JOIN \"orders\" ON \"users\".\"id\" = ";
    assert "SELECT \"users\".* FROM \"users\" INNER JOIN \"orders\" ON \"users\".\"id\" = " + "\"orders\".\"user_id\"" == "SELECT \"users\".* FROM \"users\" INNER JOIN \"orders\" ON \"users\".\"id\" = \"orders\".\"user_id\"";
  }

  lemma JoinUsersText()
    ensures "SELECT \"orders\".* FROM \"orders\""
      + (" INNER JOIN " + "\"users\"" + " ON " + "\"orders\".\"user_id\"" + " = " + "\"users\".\"id\"")
      == "SELECT \"orders\".* FROM \"orders\" INNER JOIN \"users\" ON \"orders\".\"user_id\" = \"users\".\"id\""
  {
    Flatten("SELECT \"orders\".* FROM \"orders\"", " INNER JOIN ", "\"users\"", " ON ", "\"orders\".\"user_id\"", " = ", "\"users\".\"id\"");
    JoinUsersTextStart();
    JoinUsersTextEnd();
  }

  lemma JoinUsersTextStart()
    ensures "SELECT \"orders\".* FROM \"orders\"" + " INNER JOIN " + "\"users\"" + " ON " == "SELECT \"orders\".* FROM \"orders\" INNER JOIN \"users\" ON "
  {
    assert "SELECT \"orders\".* FROM \"orders\"" + " INNER JOIN " == "SELECT \"orders\".* FROM \"orders\" INNER JOIN ";
    assert "SELECT \"orders\".* FROM \"orders\" INNER JOIN " + "\"users\"" == "SELECT \"orders\".* FROM \"orders\" INNER JOIN \"users\"";
    assert "SELECT \"orders\".* FROM \"orders\" INNER JOIN \"users\"" + " ON " == "SELECT \"orders\".* FROM \"orders\" INNER JOIN \"users\" ON ";
  }

  lemma JoinUsersTextEnd()
    ensures "SELECT \"orders\".* FROM \"orders\" INNER JOIN \"users\" ON " + "\"orders\".\"user_id\"" + " = " + "\"users\".\"id\"" == "SELECT \"orders\".* FROM \"orders\" INNER JOIN \"users\" ON \"orders\".\"user_id\" = \"users\".\"id\""
  {
    assert "SELECT \"orders\".* FROM \"orders\" INNER JOIN \"users\" ON " + "\"orders\".\"user_id\"" == "SELECT \"orders\".* FROM \"orders\" INNER JOIN \"users\" ON \"orders\".\"user_id\"";
    assert "SELECT \"orders\".* FROM \"orders\" INNER JOIN \"users\" ON \"orders\".\"user_id\"" + " = " == "SELECT \"orders\".* FROM \"orders\" INNER JOIN \"users\" ON \"orders\".\"user_id\" = ";
    assert "SELECT \"orders\".* FROM \"orders\" INNER JOIN \"users\" ON \"orders\".\"user_id\" = " + "\"users\".\"id\"" == "SELECT \"orders\".* FROM \"orders\" INNER JOIN \"users\" ON \"orders\".\"user_id\" = \"users\".\"id\"";
  }

  lemma OrdersJoinClause()
    ensures JoinSql(JoinFor(Orders, Users, BelongsTo)) == " INNER JOIN " + "\"orders\"" + " ON " + "\"users\".\"id\"" + " = " + "\"orders\".\"user_id\""
  {
    assert JoinFor(Orders, Users, BelongsTo) == JoinClause("orders", Column("users", "id"), Column("orders", "user_id"));
    QuoteOrders();
    UsersId();
    OrdersUserId();
  }

  lemma UsersJoinClause()
    ensures JoinSql(JoinFor(Users, Orders, HasMany)) == " INNER JOIN " + "\"users\"" + " ON " + "\"orders\".\"user_id\"" + " = " + "\"users\".\"id\""
  {
    assert JoinFor(Users, Orders, HasMany) == JoinClause("users", Column("orders", "user_id"), Column("users", "id"));
    QuoteUsers();
    UsersId();
    OrdersUserId();
  }

  /** `User::all().join::<Order>()`: an order belongs to its user. */
  lemma ExampleJoinOrders()
    ensures ToSql(QueryBuilder.Join(All("users"), Orders, Users, BelongsTo))
      == Ok("SELECT \"users\".* FROM \"users\" INNER JOIN \"orders\" ON \"users\".\"id\" = \"orders\".\"user_id\"")
  {
    JoinRendering(Orders, Users, BelongsTo);
    JoinedHead("users");
    OrdersJoinClause();
    UsersJoinedHead();
    JoinOrdersText();
  }

  /** `Order::all().join::<User>()`: a user has many orders. */
  lemma ExampleJoinUsers()
    ensures ToSql(QueryBuilder.Join(All("orders"), Users, Orders, HasMany))
      == Ok("SELECT \"orders\".* FROM \"orders\" INNER JOIN \"users\" ON \"orders\".\"user_id\" = \"users\".\"id\"")
  {
    JoinRendering(Users, Orders, HasMany);
    JoinedHead("orders");
    UsersJoinClause();
    OrdersJoinedHead();
    JoinUsersText();
  }

  lemma UsersJoinedHead()
    ensures "SELECT \"" + "users" + "\".* FROM \"" + "users" + "\"" == "SELECT \"users\".* FROM \"users\""
  {
  }

  lemma OrdersJoinedHead()
    ensures "SELECT \"" + "orders" + "\".* FROM \"" + "orders" + "\"" == "SELECT \"orders\".* FROM \"orders\""
  {
  }

  lemma ExampleRaw()
    ensures ToSql(FindBySql("SELECT 1")) == Ok("SELECT 1")
  {
  }

  // ---------------------------------------------------------------------
  // `first_one` after a join.

  /** A query with joins but no predicates, order, limit or offset, and the
      same query with an order and a limit: the second renders as the first
      followed by its ORDER BY and LIMIT clauses. */
  lemma AppendOrderLimit(s: Select, s2: Select)
    requires s2.tableName == s.tableName && s2.columns == s.columns && s2.joins == s.joins
    requires s.whereClause == [] && s.orderBy == [] && s.limit == None && s.offset == None
    requires s2.whereClause == [] && s2.offset == None
    ensures Render(s2) == Render(s) + OrderSql(s2.orderBy) + LimitSql(s2.limit)
  {
    var h := "SELECT " + ColumnsSql(s.columns) + " FROM " + QuoteIdent(s.tableName) + JoinsSql(s.joins);
    var o, l := OrderSql(s2.orderBy), LimitSql(s2.limit);
    assert Render(s) == h + "" + "" + "" + "";
    assert Render(s2) == h + "" + o + l + "";
    EmptyRight(h);
    EmptyRight(h + o + l);
  }

  /** `first_one` on a joined query appends the primary-key order and
      LIMIT 1 to the joined query's SQL. */
  lemma JoinFirstOneRendering(owner: ModelInfo, target: ModelInfo, kind: AssociationKind)
    ensures FirstOne(QueryBuilder.Join(All(target.tableName), owner, target, kind)).Ok?
    ensures var joined := QueryBuilder.Join(All(target.tableName), owner, target, kind);
      ToSql(FirstOne(joined).value)
      == Ok(Render(joined.select) + " ORDER BY " + ColumnSql(Column(target.tableName, DefaultPrimaryKey)) + " ASC" + " LIMIT 1")
  {
    var t := target.tableName;
    var joined := QueryBuilder.Join(All(t), owner, target, kind);
    var s2 := FirstOne(joined).value.select;
    AppendOrderLimit(joined.select, s2);
    DefaultOrderRendering(joined, 1);
    SmallNumbers();
    assert LimitSql(s2.limit) == " LIMIT 1";
    var c := ColumnSql(Column(t, DefaultPrimaryKey));
    var r := Render(joined.select);
    ConcatAssoc(r, " ORDER BY " + c, " ASC");
    ConcatAssoc(r, " ORDER BY ", c);
  }

  lemma JoinFirstOneText()
    ensures "SELECT \"users\".* FROM \"users\" INNER JOIN \"orders\" ON \"users\".\"id\" = \"orders\".\"user_id\""
      + " ORDER BY " + "\"users\".\"id\"" + " ASC" + " LIMIT 1"
      == "SELECT \"users\".* FROM \"users\" INNER JOIN \"orders\" ON \"users\".\"id\" = \"orders\".\"user_id\" ORDER BY \"users\".\"id\" ASC LIMIT 1"
  {
    var j := "SELECT \"users\".* FROM \"users\" INNER JOIN \"orders\" ON \"users\".\"id\" = \"orders\".\"user_id\"";
    assert j + " ORDER BY " == "SELECT \"users\".* FROM \"users\" INNER JOIN \"orders\" ON \"users\".\"id\" = \"orders\".\"user_id\" ORDER BY ";
    assert "SELECT \"users\".* FROM \"users\" INNER JOIN \"orders\" ON \"users\".\"id\" = \"orders\".\"user_id\" ORDER BY " + "\"users\".\"id\""
      == "SELECT \"users\".* FROM \"users\" INNER JOIN \"orders\" ON \"users\".\"id\" = \"orders\".\"user_id\" ORDER BY \"users\".\"id\"";
    assert "SELECT \"users\".* FROM \"users\" INNER JOIN \"orders\" ON \"users\".\"id\" = \"orders\".\"user_id\" ORDER BY \"users\".\"id\"" + " ASC"
      == "SELECT \"users\".* FROM \"users\" INNER JOIN \"orders\" ON \"users\".\"id\" = \"orders\".\"user_id\" ORDER BY \"users\".\"id\" ASC";
  }

  /** `User::all().join::<Order>().first_one()`. */
  lemma ExampleJoinFirstOne()
    ensures FirstOne(QueryBuilder.Join(All("users"), Orders, Users, BelongsTo)).Ok?
    ensures ToSql(FirstOne(QueryBuilder.Join(All("users"), Orders, Users, BelongsTo)).value)
      == Ok("SELECT \"users\".* FROM \"users\" INNER JOIN \"orders\" ON \"users\".\"id\" = \"orders\".\"user_id\" ORDER BY \"users\".\"id\" ASC LIMIT 1")
  {
    JoinFirstOneRendering(Orders, Users, BelongsTo);
    ExampleJoinOrders();
    UsersId();
    JoinFirstOneText();
  }

  // ---------------------------------------------------------------------
  // Three `filter` calls.

  /** The first predicate of a WHERE clause is rendered without a
      connective, the rest numbered on after it. */
  lemma OpeningCondition(ps: seq<Predicate>, k: nat)
    requires |ps| > 0
    ensures Conditions(ps, k, true) == PredicateSql(ps[0], k) + Conditions(ps[1..], k + 1, false)
  {
    assert ConditionSql(ps[0], k, true) == "" + PredicateSql(ps[0], k);
    assert "" + PredicateSql(ps[0], k) == PredicateSql(ps[0], k);
  }

  /** Four AND-ed predicates open a WHERE clause as their renderings
      numbered 1 to 4, each after the first preceded by ` AND `. */
  lemma FourAndConditions(ps: seq<Predicate>)
    requires |ps| == 4 && ps[1].connective == And && ps[2].connective == And && ps[3].connective == And
    ensures Conditions(ps, 1, true)
      == PredicateSql(ps[0], 1) + (" AND " + PredicateSql(ps[1], 2) + (" AND " + PredicateSql(ps[2], 3) + (" AND " + PredicateSql(ps[3], 4))))
  {
    var last: seq<Predicate> := ps[3..];
    LaterCondition(last, 4);
    assert last[1..] == [];
    var c4 := " AND " + PredicateSql(ps[3], 4);
    EmptyRight(c4);
    assert Conditions(last, 4, false) == c4;
    var c3 := " AND " + PredicateSql(ps[2], 3) + c4;
    LaterCondition(ps[2..], 3);
    assert ps[2..][1..] == last;
    assert Conditions(ps[2..], 3, false) == c3;
    LaterCondition(ps[1..], 2);
    assert ps[1..][1..] == ps[2..];
    OpeningCondition(ps, 1);
  }

  /** A query on every column with predicates and no other clause renders
      as `SELECT * FROM "t" WHERE …`. */
  lemma WhereOnlyRendering(s: Select)
    requires s.columns == Columns([], None) && s.joins == [] && s.orderBy == []
    requires s.limit == None && s.offset == None && |s.whereClause| > 0
    ensures Render(s) == "SELECT * FROM " + QuoteIdent(s.tableName) + (" WHERE " + Conditions(s.whereClause, 1, true))
  {
    StarRendering(s);
    var w := WhereSql(s.whereClause);
    assert Clauses(s) == "" + w + "" + "" + "";
    assert "" + w == w;
    EmptyRight(w);
  }

  /** The values of the filter test. */
  const Email := Text("test@test.com")
  const Password := Text("not_encrypted")
  const Ids := List([Integer(1), Integer(2), Integer(3)])

  /** `User::all().filter(email, password).filter(id = 5).filter(id in [1, 2, 3])`. */
  function ExampleFilterQuery(): Query
  {
    Filter(Filter(Filter(All("users"), [("email", Email), ("password", Password)]), [("id", Integer(5))]), [("id", Ids)])
  }

  lemma ExampleFilterSelect()
    ensures ExampleFilterQuery().SelectQuery?
    ensures ExampleFilterQuery().select == Select("users", "id", Columns([], None), [],
      [ Predicate(Column("users", "email"), Equal, Email, And),
        Predicate(Column("users", "password"), Equal, Password, And),
        Predicate(Column("users", "id"), Equal, Integer(5), And),
        Predicate(Column("users", "id"), Equal, Ids, And) ],
      [], None, None)
  {
  }

  lemma MoreNumbers()
    ensures NatToString(2) == "2" && NatToString(3) == "3" && NatToString(4) == "4"
  {
  }

  lemma QuotePassword()
    ensures QuoteIdent("password") == "\"password\""
  {
    QuoteFree("password");
  }

  lemma UsersPassword()
    ensures ColumnSql(Column("users", "password")) == "\"users\".\"password\""
  {
    assert ColumnSql(Column("users", "password")) == QuoteIdent("users") + "." + QuoteIdent("password");
    QuoteUsers();
    QuotePassword();
    UsersPasswordText();
  }

  lemma UsersPasswordText()
    ensures "\"users\"" + "." + "\"password\"" == "\"users\".\"password\""
  {
  }

  lemma EmailPredicate()
    ensures PredicateSql(Predicate(Column("users", "email"), Equal, Email, And), 1) == "\"users\".\"email\" = $1"
  {
    SmallNumbers();
    UsersEmail();
    assert "\"users\".\"email\"" + " = " == "\"users\".\"email\" = ";
  }

  lemma PasswordPredicate()
    ensures PredicateSql(Predicate(Column("users", "password"), Equal, Password, And), 2) == "\"users\".\"password\" = $2"
  {
    MoreNumbers();
    UsersPassword();
    assert "\"users\".\"password\"" + " = " == "\"users\".\"password\" = ";
  }

  lemma IdPredicate()
    ensures PredicateSql(Predicate(Column("users", "id"), Equal, Integer(5), And), 3) == "\"users\".\"id\" = $3"
  {
    MoreNumbers();
    UsersId();
  }

  lemma IdsPredicate()
    ensures PredicateSql(Predicate(Column("users", "id"), Equal, Ids, And), 4) == "\"users\".\"id\" = ANY($4)"
  {
    MoreNumbers();
    UsersId();
    assert Marker(4) == "$4";
    assert ValueSql(Ids, 4) == "ANY(" + "$4" + ")";
  }

  /** Regrouping the WHERE clause of four conditions after a prefix. */
  lemma FlattenWhere(h: string, w: string, p1: string, a2: string, a3: string, a4: string)
    ensures h + (w + (p1 + (a2 + (a3 + a4)))) == h + w + p1 + a2 + a3 + a4
  {
    ConcatAssoc(h, w, p1 + (a2 + (a3 + a4)));
    ConcatAssoc(h + w, p1, a2 + (a3 + a4));
    ConcatAssoc(h + w + p1, a2, a3 + a4);
    ConcatAssoc(h + w + p1 + a2, a3, a4);
  }

  /** The test's WHERE clause, cut at its predicates. */
  lemma ExampleFilterConditions()
    ensures ExampleFilterQuery().SelectQuery?
    ensures Conditions(ExampleFilterQuery().select.whereClause, 1, true)
      == "\"users\".\"email\" = $1" + ((" AND " + "\"users\".\"password\" = $2")
        + ((" AND " + "\"users\".\"id\" = $3") + (" AND " + "\"users\".\"id\" = ANY($4)")))
  {
    ExampleFilterSelect();
    FourAndConditions(ExampleFilterQuery().select.whereClause);
    EmailPredicate();
    PasswordPredicate();
    IdPredicate();
    IdsPredicate();
  }

  /** The filter test binds its values in call order, the list as one. */
  lemma ExampleFilterValues()
    ensures ExampleFilterQuery().SelectQuery?
    ensures Placeholders(ExampleFilterQuery().select.whereClause) == [Email, Password, Integer(5), Ids]
  {
    ExampleFilterSelect();
  }

  /** The filter test: three calls render one WHERE clause numbered `$1` to
      `$4`, the list matched with `ANY`. The expected text is the test's,
      cut at its predicates. */
  lemma ExampleFilter()
    ensures ToSql(ExampleFilterQuery())
      == Ok("SELECT * FROM \"users\"" + " WHERE " + "\"users\".\"email\" = $1"
        + (" AND " + "\"users\".\"password\" = $2")
        + (" AND " + "\"users\".\"id\" = $3")
        + (" AND " + "\"users\".\"id\" = ANY($4)"))
  {
    ExampleFilterSelect();
    WhereOnlyRendering(ExampleFilterQuery().select);
    ExampleFilterConditions();
    UsersHead();
    FlattenWhere("SELECT * FROM \"users\"", " WHERE ", "\"users\".\"email\" = $1",
      " AND " + "\"users\".\"password\" = $2", " AND " + "\"users\".\"id\" = $3", " AND " + "\"users\".\"id\" = ANY($4)");
  }

}
