/** Table columns and column lists as rendered into SQL (rum/src/model/column.rs).
    Identifiers are escaped by doubling every double quote, so that a rendered
    column can always be read back unambiguously (`ParseColumnSql`). */
module Columns {

  import opened Results
  import opened Strings

  /** A column, optionally qualified by its table; an empty table name means
      the column is unqualified. */
  datatype Column = Column(tableName: string, columnName: string)

  /** A projection list; an empty list selects every column, of `tableName`
      when one is set. */
  datatype Columns = Columns(columns: seq<Column>, tableName: Option<string>)

  /** `Column::new`. */
  function New(tableName: string, columnName: string): Column
  {
    Column(tableName, columnName)
  }

  /** `Column::qualified`: the column names its table. */
  predicate Qualified(col: Column)
  {
    |col.tableName| > 0
  }

  /** `Column::name`: a column with no table. */
  function Name(columnName: string): (col: Column)
    ensures !Qualified(col)
    ensures col.columnName == columnName
  {
    New("", columnName)
  }

  /** `Column::qualify`: attach (or replace) the table, keep the column. */
  function Qualify(col: Column, tableName: string): (r: Column)
    ensures r.columnName == col.columnName
    ensures r.tableName == tableName
    ensures Qualified(r) <==> tableName != ""
  {
    col.(tableName := tableName)
  }

  /** `IntoColumn for String`: a string names an unqualified column. */
  function IntoColumn(s: string): (col: Column)
    ensures !Qualified(col)
    ensures col.columnName == s
  {
    Name(s)
  }

  /** Identifier escaping: every `"` is doubled. */
  function Escape(s: string): string
  {
    if |s| == 0 then ""
    else (if s[0] == '"' then "\"\"" else [s[0]]) + Escape(s[1..])
  }

  /** Escaping lengthens the text by one per quote and changes nothing
      else in quote-free text. */
  lemma {:induction false} EscapeQuoteFree(s: string)
    ensures |Escape(s)| == |s| + Count(s, '"')
    ensures '"' !in s ==> Escape(s) == s
  {
    if |s| > 0 {
      EscapeQuoteFree(s[1..]);
      assert s == [s[0]] + s[1..];
    }
  }

  /** A quoted SQL identifier. */
  function QuoteIdent(s: string): string
  {
    "\"" + Escape(s) + "\""
  }

  /** `Column::to_sql`: `"c"` when unqualified, `"t"."c"` otherwise, both
      parts escaped. */
  function ColumnSql(col: Column): (r: string)
    ensures !Qualified(col) ==> r == QuoteIdent(col.columnName)
    ensures Qualified(col) ==> r == QuoteIdent(col.tableName) + "." + QuoteIdent(col.columnName)
  {
    if col.tableName == "" then QuoteIdent(col.columnName)
    else QuoteIdent(col.tableName) + "." + QuoteIdent(col.columnName)
  }

  /** `Columns::table_name`. */
  function WithTable(cols: Columns, tableName: string): (r: Columns)
    ensures r.columns == cols.columns
    ensures r.tableName == Some(tableName)
  {
    cols.(tableName := Some(tableName))
  }

  /** The SQL of each column, in order. */
  function ColumnSqls(cols: seq<Column>): (r: seq<string>)
    ensures |r| == |cols|
    ensures forall i :: 0 <= i < |cols| ==> r[i] == ColumnSql(cols[i])
  {
    seq(|cols|, i requires 0 <= i < |cols| => ColumnSql(cols[i]))
  }

  /** `Columns::to_sql`: `*`, `"t".*` (the table NOT escaped), or the
      columns' SQL joined by `, `, from which the list is read back. */
  function ColumnsSql(cols: Columns): (r: string)
    ensures |cols.columns| == 0 && cols.tableName.None? ==> r == "*"
    ensures |cols.columns| == 0 && cols.tableName.Some? ==> r == "\"" + cols.tableName.value + "\".*"
    ensures |cols.columns| > 0 ==> ParseColumnList(r) == Some(cols.columns)
  {
    if |cols.columns| == 0 then
      match cols.tableName
      case Some(t) => "\"" + t + "\".*"
      case None => "*"
    else
      ColumnListRoundTrip(cols.columns);
      Join(ColumnSqls(cols.columns), ", ")
  }

  /** An empty projection with no table selects everything. */
  lemma EmptyColumnsStar()
    ensures ColumnsSql(Columns([], None)) == "*"
  {
  }

  /** An empty projection with a table selects all of that table's columns,
      the table name copied verbatim. */
  lemma EmptyColumnsOfTable(t: string)
    ensures ColumnsSql(Columns([], Some(t))) == "\"" + t + "\".*"
  {
  }

  /** A non-empty projection ignores the table name: it is the SQL of every
      column, in order, separated by `, `, its first column first. */
  lemma {:induction false} NonEmptyColumnsIgnoreTable(cols: seq<Column>, t1: Option<string>, t2: Option<string>)
    requires |cols| > 0
    ensures ColumnsSql(Columns(cols, t1)) == ColumnsSql(Columns(cols, t2))
    ensures ColumnsSql(Columns(cols, t1)) == Join(ColumnSqls(cols), ", ")
    ensures ColumnSql(cols[0]) <= ColumnsSql(Columns(cols, t1))
  {
  }

  // ---------------------------------------------------------------------
  // Reading rendered columns back: the inverse of `ColumnSql`.

  /** Reads the remainder of a quoted identifier whose opening quote has been
      consumed: `""` stands for one quote and a lone `"` closes it. Returns the
      identifier and the text after the closing quote. */
  function ReadQuoted(s: string): (r: Option<(string, string)>)
    ensures r.Some? ==> |r.value.1| < |s|
    decreases |s|
  {
    if |s| == 0 then None
    else if s[0] == '"' then
      if |s| >= 2 && s[1] == '"' then
        match ReadQuoted(s[2..])
        case None => None
        case Some(p) => Some(("\"" + p.0, p.1))
      else Some(("", s[1..]))
    else
      match ReadQuoted(s[1..])
      case None => None
      case Some(p) => Some(([s[0]] + p.0, p.1))
  }

  /** Parses `"c"` or `"t"."c"` back into a column. */
  function ParseColumnSql(s: string): Option<Column>
  {
    if |s| == 0 || s[0] != '"' then None
    else
      match ReadQuoted(s[1..])
      case None => None
      case Some(first) =>
        if first.1 == "" then Some(Column("", first.0))
        else if |first.1| >= 2 && first.1[0] == '.' && first.1[1] == '"' then
          match ReadQuoted(first.1[2..])
          case Some(second) => if second.1 == "" then Some(Column(first.0, second.0)) else None
          case None => None
        else None
  }

  lemma ReadQuotedDoubled(rest: string, name: string, after: string)
    requires ReadQuoted(rest) == Some((name, after))
    ensures ReadQuoted("\"\"" + rest) == Some(("\"" + name, after))
  {
    assert ("\"\"" + rest)[2..] == rest;
  }

  lemma ReadQuotedPlain(ch: char, rest: string, name: string, after: string)
    requires ch != '"'
    requires ReadQuoted(rest) == Some((name, after))
    ensures ReadQuoted([ch] + rest) == Some(([ch] + name, after))
  {
    assert ([ch] + rest)[1..] == rest;
  }

  lemma {:induction false} ReadEscaped(x: string, tail: string)
    requires |tail| == 0 || tail[0] != '"'
    ensures ReadQuoted(Escape(x) + "\"" + tail) == Some((x, tail))
    decreases |x|
  {
    if |x| == 0 {
      assert Escape(x) + "\"" + tail == "\"" + tail;
      assert ("\"" + tail)[1..] == tail;
    } else {
      ReadEscaped(x[1..], tail);
      ReadEscapedStep(x, tail);
    }
  }

  /** One step of `ReadEscaped`: reading the escape of the first character. */
  lemma ReadEscapedStep(x: string, tail: string)
    requires |x| > 0
    requires ReadQuoted(Escape(x[1..]) + "\"" + tail) == Some((x[1..], tail))
    ensures ReadQuoted(Escape(x) + "\"" + tail) == Some((x, tail))
  {
    var rest := Escape(x[1..]) + "\"" + tail;
    assert x == [x[0]] + x[1..];
    if x[0] == '"' {
      assert Escape(x) + "\"" + tail == "\"\"" + rest by {
        assert Escape(x) == "\"\"" + Escape(x[1..]);
      }
      assert "\"" == [x[0]];
      ReadQuotedDoubled(rest, x[1..], tail);
    } else {
      assert Escape(x) + "\"" + tail == [x[0]] + rest by {
        assert Escape(x) == [x[0]] + Escape(x[1..]);
      }
      ReadQuotedPlain(x[0], rest, x[1..], tail);
    }
  }

  /** The quoted identifier at the head of `QuoteIdent(x) + tail` reads
      back as `x`, leaving `tail`. */
  lemma ReadIdent(x: string, tail: string)
    requires |tail| == 0 || tail[0] != '"'
    ensures |QuoteIdent(x) + tail| > 0 && (QuoteIdent(x) + tail)[0] == '"'
    ensures ReadQuoted((QuoteIdent(x) + tail)[1..]) == Some((x, tail))
  {
    var body := Escape(x) + "\"";
    assert QuoteIdent(x) == "\"" + body;
    assert (QuoteIdent(x) + tail)[1..] == body + tail;
    ReadEscaped(x, tail);
  }

  lemma ParseUnqualified(c: string)
    ensures ParseColumnSql(QuoteIdent(c)) == Some(Column("", c))
  {
    ReadIdent(c, "");
    assert QuoteIdent(c) + "" == QuoteIdent(c);
  }

  lemma ParseQualified(t: string, c: string)
    ensures ParseColumnSql(QuoteIdent(t) + "." + QuoteIdent(c)) == Some(Column(t, c))
  {
    var tail := "." + QuoteIdent(c);
    ConcatAssoc(QuoteIdent(t), ".", QuoteIdent(c));
    ReadIdent(t, tail);
    assert tail[1..] == QuoteIdent(c);
    assert tail[2..] == (QuoteIdent(c) + "")[1..];
    ReadIdent(c, "");
  }

  /** Reads the column whose SQL opens `s`: `"c"`, or `"t"."c"` when the
      first identifier is followed by `.` and a quote. Returns the column
      and the text after it. */
  function ReadColumn(s: string): (r: Option<(Column, string)>)
    ensures r.Some? ==> |r.value.1| < |s|
  {
    if |s| == 0 || s[0] != '"' then None
    else
      match ReadQuoted(s[1..])
      case None => None
      case Some(first) =>
        if |first.1| >= 2 && first.1[0] == '.' && first.1[1] == '"' then
          match ReadQuoted(first.1[2..])
          case None => None
          case Some(second) => Some((Column(first.0, second.0), second.1))
        else Some((Column("", first.0), first.1))
  }

  /** Parses the `, `-separated columns of a non-empty projection. */
  function ParseColumnList(s: string): Option<seq<Column>>
    decreases |s|
  {
    match ReadColumn(s)
    case None => None
    case Some((col, rest)) =>
      if rest == "" then Some([col])
      else if |rest| >= 2 && rest[0] == ',' && rest[1] == ' ' then
        match ParseColumnList(rest[2..])
        case None => None
        case Some(cols) => Some([col] + cols)
      else None
  }

  /** The column at the head of its SQL followed by a separator or nothing
      is read back, leaving what follows. */
  lemma ReadColumnSql(col: Column, tail: string)
    requires |tail| == 0 || tail[0] == ','
    ensures ReadColumn(ColumnSql(col) + tail) == Some((col, tail))
  {
    if col.tableName == "" {
      ReadIdent(col.columnName, tail);
    } else {
      var after := "." + QuoteIdent(col.columnName) + tail;
      assert ColumnSql(col) + tail == QuoteIdent(col.tableName) + after;
      ReadIdent(col.tableName, after);
      ReadIdent(col.columnName, tail);
      assert after[2..] == (QuoteIdent(col.columnName) + tail)[1..];
    }
  }

  /** A non-empty list of columns is read back from the `, `-join of their
      SQL. */
  lemma {:induction false} ColumnListRoundTrip(cols: seq<Column>)
    requires |cols| > 0
    ensures ParseColumnList(Join(ColumnSqls(cols), ", ")) == Some(cols)
    decreases |cols|
  {
    var parts := ColumnSqls(cols);
    if |cols| == 1 {
      ReadColumnSql(cols[0], "");
      assert Join(parts, ", ") == ColumnSql(cols[0]) + "";
      assert ParseColumnList(ColumnSql(cols[0]) + "") == Some([cols[0]]);
      assert [cols[0]] == cols;
    } else {
      var rest := Join(ColumnSqls(cols[1..]), ", ");
      assert parts[1..] == ColumnSqls(cols[1..]);
      assert Join(parts, ", ") == ColumnSql(cols[0]) + (", " + rest);
      ReadColumnSql(cols[0], ", " + rest);
      assert (", " + rest)[2..] == rest;
      ColumnListRoundTrip(cols[1..]);
      assert [cols[0]] + cols[1..] == cols;
    }
  }

  /** Rendering is injective: the column can be read back from its SQL. */
  lemma ColumnSqlRoundTrip(col: Column)
    ensures ParseColumnSql(ColumnSql(col)) == Some(col)
  {
    if col.tableName == "" {
      ParseUnqualified(col.columnName);
    } else {
      ParseQualified(col.tableName, col.columnName);
    }
  }
}
