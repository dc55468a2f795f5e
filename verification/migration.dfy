/** The migration record (rum/src/model/migrations/model.rs): its static
    model facts, the value and column lists it hands to the query builder,
    and the file name of each direction of a migration. */
module Migrations {

  import opened Results
  import opened Strings
  import Sql
  import Derive
  import QueryBuilder

  /** One row of the migrations table. Timestamps are seconds; the clock
      itself is not part of this model. */
  datatype Migration = Migration(id: Option<int>, version: int, name: string, appliedAt: Option<int>)

  datatype Direction = Up | Down

  // ---------------------------------------------------------------------
  // `Model for Migration`.

  const TableName := "rum_migrations"
  const PrimaryKey := "id"
  const ForeignKey := "rum_migration_id"

  /** `ToValue` of an optional integer: `NULL` when absent. */
  function OptionalInteger(v: Option<int>): Sql.Value
  {
    match v
    case None => Sql.Null
    case Some(i) => Sql.Integer(i)
  }

  function OptionalTimestamp(v: Option<int>): Sql.Value
  {
    match v
    case None => Sql.Null
    case Some(t) => Sql.Timestamp(t)
  }

  /** `id()`. */
  function IdValue(m: Migration): (v: Sql.Value)
    ensures m.id.None? <==> v == Sql.Null
    ensures m.id.Some? ==> v == Sql.Integer(m.id.value)
  {
    OptionalInteger(m.id)
  }

  /** `column_names()`: the three stored columns, without the key. */
  function ColumnNames(): (names: seq<string>)
    ensures PrimaryKey !in names
  {
    ["version", "name", "applied_at"]
  }

  /** `values()`: the three stored fields, in column order. */
  function Values(m: Migration): (vs: seq<Sql.Value>)
    ensures |vs| == |ColumnNames()|
  {
    [Sql.Integer(m.version), Sql.Text(m.name), OptionalTimestamp(m.appliedAt)]
  }

  /** The struct's fields as the derive macro would see them. */
  function Fields(m: Migration): seq<Derive.Field>
  {
    [ Derive.Field("id", IdValue(m)),
      Derive.Field("version", Sql.Integer(m.version)),
      Derive.Field("name", Sql.Text(m.name)),
      Derive.Field("applied_at", OptionalTimestamp(m.appliedAt)) ]
  }

  /** The hand-written lists are what the corrected derivation gives for
      the same struct: the key column left out of both, the rest aligned. */
  lemma ListsMatchCorrectedDerive(m: Migration)
    ensures ColumnNames() == Derive.InsertColumnNames(Fields(m))
    ensures Values(m) == Derive.Values(Fields(m))
    ensures |Derive.ColumnNames(Fields(m))| == |Values(m)| + 1
  {
    var fs := Fields(m);
    assert fs[3..][1..] == [];
    assert fs[2..][1..] == fs[3..] && fs[1..][1..] == fs[2..] && fs[1..] == fs[1..];
    assert Derive.InsertColumnNames(fs[3..]) == ["applied_at"];
    assert Derive.InsertColumnNames(fs[2..]) == ["name", "applied_at"];
    assert Derive.InsertColumnNames(fs[1..]) == ["version", "name", "applied_at"];
    assert Derive.Values(fs[3..]) == [OptionalTimestamp(m.appliedAt)];
    assert Derive.Values(fs[2..]) == [Sql.Text(m.name), OptionalTimestamp(m.appliedAt)];
    assert Derive.Values(fs[1..]) == Values(m);
  }

  /** Each column name is bound to the field of that name. */
  lemma ValuesAligned(m: Migration)
    ensures forall i :: 0 <= i < |Values(m)| ==> Derive.Field(ColumnNames()[i], Values(m)[i]) in Fields(m)
  {
    ListsMatchCorrectedDerive(m);
    Derive.InsertColumnsAligned(Fields(m));
  }

  /** The explicit foreign key is the one the `Model` default would build
      from the table name exactly when the singularizer maps
      `rum_migrations` to `rum_migration`. */
  lemma ForeignKeyIsDefault(singular: string -> string)
    ensures ForeignKey == QueryBuilder.DefaultForeignKey(TableName, singular) <==> singular(TableName) == "rum_migration"
  {
    var fk := QueryBuilder.DefaultForeignKey(TableName, singular);
    if ForeignKey == fk {
      assert fk[..|fk| - 3] == ForeignKey[..13];
      assert ForeignKey[..13] == "rum_migration";
    }
  }

  // ---------------------------------------------------------------------
  // File names.

  function DirectionName(d: Direction): string
  {
    match d
    case Up => "up"
    case Down => "down"
  }

  /** `path`: `<version>_<name>.<up|down>.sql`. */
  function MigrationPath(m: Migration, d: Direction): (p: string)
    ensures EndsWith(p, Suffix(d))
    ensures |p| > |IntToString(m.version)| && p[..|IntToString(m.version)| + 1] == IntToString(m.version) + "_"
  {
    IntToString(m.version) + "_" + m.name + "." + DirectionName(d) + ".sql"
  }

  function Suffix(d: Direction): string
  {
    "." + DirectionName(d) + ".sql"
  }

  predicate EndsWith(s: string, suffix: string)
  {
    |suffix| <= |s| && s[|s| - |suffix|..] == suffix
  }

  /** Reads a migration file name back: the version up to the first `_`,
      the name up to the direction suffix. */
  function ParsePath(p: string): (r: Option<(int, string, Direction)>)
  {
    var versionText := Split(p, '_')[0];
    SplitFirst(p, '_');
    if |versionText| == |p| then None
    else
      var rest := p[|versionText| + 1..];
      var d := if EndsWith(rest, Suffix(Up)) then Some(Up)
               else if EndsWith(rest, Suffix(Down)) then Some(Down)
               else None;
      match (ParseInt(versionText), d)
      case (Some(v), Some(dir)) => Some((v, rest[..|rest| - |Suffix(dir)|], dir))
      case _ => None
  }

  lemma NoUnderscoreInInt(v: int)
    ensures '_' !in IntToString(v)
  {
    var digits := NatToString(if v < 0 then -v else v);
    assert forall i :: 0 <= i < |digits| ==> IsDigit(digits[i]);
    if v < 0 {
      assert IntToString(v) == "-" + digits;
      assert forall i :: 0 <= i < |"-" + digits| ==> ("-" + digits)[i] != '_' by {
        forall i | 0 <= i < |"-" + digits|
          ensures ("-" + digits)[i] != '_'
        {
          if i > 0 {
            assert ("-" + digits)[i] == digits[i - 1];
          }
        }
      }
    }
  }

  /** The first piece of a split on `c` of `a + [c] + b` is `a` when `a`
      holds no `c`. */
  lemma SplitFirstPiece(a: string, b: string, c: char)
    requires c !in a
    ensures Split(a + [c] + b, c)[0] == a
  {
    var s := a + [c] + b;
    var p := Split(s, c)[0];
    SplitFirst(s, c);
    assert s[|a|] == c;
    if |p| > |a| {
      assert false;
    }
    assert p == s[..|p|];
    assert s[..|a|] == a;
  }

  /** The directions' suffixes never both fit the same name. */
  lemma SuffixesDistinct(rest: string)
    requires EndsWith(rest, Suffix(Down))
    ensures !EndsWith(rest, Suffix(Up))
  {
    assert Suffix(Down) == ".down.sql" && Suffix(Up) == ".up.sql";
    assert rest[|rest| - 7] == 'o';
  }

  /** The direction suffix is recognised, and cutting it leaves the name. */
  lemma SuffixOf(name: string, d: Direction)
    ensures var rest := name + Suffix(d);
      && (if EndsWith(rest, Suffix(Up)) then Some(Up)
          else if EndsWith(rest, Suffix(Down)) then Some(Down)
          else None) == Some(d)
      && rest[..|rest| - |Suffix(d)|] == name
  {
    var rest := name + Suffix(d);
    assert rest[|rest| - |Suffix(d)|..] == Suffix(d);
    if d == Down {
      SuffixesDistinct(rest);
    }
  }

  /** A version text free of `_`, an underscore, then the rest. */
  lemma ParseParts(v: string, name: string, d: Direction, version: int)
    requires '_' !in v && ParseInt(v) == Some(version)
    ensures ParsePath(v + "_" + (name + Suffix(d))) == Some((version, name, d))
  {
    var tail := name + Suffix(d);
    var p := v + "_" + tail;
    SplitFirstPiece(v, tail, '_');
    assert p[|v| + 1..] == tail;
    SuffixOf(name, d);
  }

  lemma PathShape(m: Migration, d: Direction)
    ensures MigrationPath(m, d) == IntToString(m.version) + "_" + (m.name + Suffix(d))
  {
    var v := IntToString(m.version);
    ConcatAssoc(v + "_" + m.name, "." + DirectionName(d), ".sql");
    ConcatAssoc(v + "_" + m.name, ".", DirectionName(d));
    ConcatAssoc(v + "_", m.name, Suffix(d));
  }

  /** Parsing a migration's file name gives back its version, its name and
      the direction. */
  lemma PathRoundTrip(m: Migration, d: Direction)
    ensures ParsePath(MigrationPath(m, d)) == Some((m.version, m.name, d))
  {
    PathShape(m, d);
    NoUnderscoreInInt(m.version);
    IntRoundTrip(m.version);
    ParseParts(IntToString(m.version), m.name, d, m.version);
  }

  /** The up and down file names share everything before the direction. */
  lemma PathsDifferOnlyInDirection(m: Migration)
    ensures var stem := IntToString(m.version) + "_" + m.name + ".";
      && MigrationPath(m, Up) == stem + "up" + ".sql"
      && MigrationPath(m, Down) == stem + "down" + ".sql"
      && MigrationPath(m, Up) != MigrationPath(m, Down)
  {
    PathRoundTrip(m, Up);
    PathRoundTrip(m, Down);
  }

  lemma ExamplePath()
    ensures MigrationPath(Migration(None, 1, "users", None), Up) == "1_users.up.sql"
  {
    assert NatToString(1) == "1";
    assert IntToString(1) == "1";
  }
}
