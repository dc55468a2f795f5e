/** The name and list computations of the `Model` derive macro
    (rum-macros/src/lib.rs): `snake_case`, the foreign key and table name,
    `column_names`, `values`, the `id()` accessor, and the association impls
    generated from `belongs_to`/`has_many` attributes. Token plumbing is left
    out: a struct is its name and its fields. */
module Derive {

  import opened Results
  import opened Strings
  import opened Sql
  import QueryBuilder

  // ---------------------------------------------------------------------
  // snake_case

  predicate IsAsciiUpper(c: char)
  {
    'A' <= c <= 'Z'
  }

  /** `char::to_ascii_lowercase`: ASCII upper-case letters move down to
      lower case, every other character is kept. */
  function ToAsciiLower(c: char): (r: char)
    ensures !IsAsciiUpper(r)
    ensures IsAsciiUpper(c) ==> r as int == c as int + 32
    ensures !IsAsciiUpper(c) ==> r == c
  {
    if IsAsciiUpper(c) then (c as int + 32) as char else c
  }

  /** What the loop pushes for character `c` at index `i`. */
  function SnakePiece(c: char, i: nat): string
  {
    if IsAsciiUpper(c) && i != 0 then ['_', ToAsciiLower(c)] else [ToAsciiLower(c)]
  }

  /** How many underscores `snake_case` inserts: the ASCII upper-case
      letters after index 0. */
  function Inserted(s: string): nat
    decreases |s|
  {
    if |s| <= 1 then 0
    else Inserted(s[..|s| - 1]) + (if IsAsciiUpper(s[|s| - 1]) then 1 else 0)
  }

  predicate NoUpper(s: string)
  {
    forall i :: 0 <= i < |s| ==> !IsAsciiUpper(s[i])
  }

  /** `snake_case`, one loop iteration per character. The result has no
      upper-case letter and is longer by exactly the inserted underscores. */
  function SnakeCase(s: string): (r: string)
    ensures NoUpper(r)
    ensures |r| == |s| + Inserted(s)
    decreases |s|
  {
    if |s| == 0 then ""
    else SnakeCase(s[..|s| - 1]) + SnakePiece(s[|s| - 1], |s| - 1)
  }

  /** A string without upper-case letters is already in snake case. */
  lemma {:induction false} SnakeCaseIdentity(s: string)
    requires NoUpper(s)
    ensures SnakeCase(s) == s
    decreases |s|
  {
    if |s| > 0 {
      var init := s[..|s| - 1];
      InitNoUpper(s);
      SnakeCaseIdentity(init);
      SnakeCaseLowerLast(s);
      SplitLast(s);
    }
  }

  lemma InitNoUpper(s: string)
    requires |s| > 0 && NoUpper(s)
    ensures NoUpper(s[..|s| - 1])
  {
    var init := s[..|s| - 1];
    forall i | 0 <= i < |init|
      ensures !IsAsciiUpper(init[i])
    {
      assert init[i] == s[i];
    }
  }

  lemma SnakeCaseLowerLast(s: string)
    requires |s| > 0 && !IsAsciiUpper(s[|s| - 1])
    ensures SnakeCase(s) == SnakeCase(s[..|s| - 1]) + [s[|s| - 1]]
  {
  }

  lemma SplitLast(s: string)
    requires |s| > 0
    ensures s == s[..|s| - 1] + [s[|s| - 1]]
  {
  }

  /** Converting twice changes nothing more. */
  lemma SnakeCaseIdempotent(s: string)
    ensures SnakeCase(SnakeCase(s)) == SnakeCase(s)
  {
    SnakeCaseIdentity(SnakeCase(s));
  }

  /** The first character is only lowered; an upper-case letter after it is
      lowered behind an underscore. */
  lemma {:induction false} SnakeCaseAppend(s: string, c: char)
    requires |s| > 0
    ensures IsAsciiUpper(c) ==> SnakeCase(s + [c]) == SnakeCase(s) + ['_', ToAsciiLower(c)]
    ensures !IsAsciiUpper(c) ==> SnakeCase(s + [c]) == SnakeCase(s) + [c]
  {
    assert (s + [c])[..|s|] == s;
  }

  lemma ExampleChat()
    ensures SnakeCase("Chat") == "chat"
  {
    assert SnakeCase("C") == "c" by {
      assert "C"[..0] == "";
    }
    SnakeCaseAppend("C", 'h');
    assert "C" + ['h'] == "Ch";
    assert SnakeCase("Ch") == "ch";
    SnakeCaseAppend("Ch", 'a');
    assert "Ch" + ['a'] == "Cha";
    assert SnakeCase("Cha") == "cha";
    SnakeCaseAppend("Cha", 't');
    assert "Cha" + ['t'] == "Chat";
  }

  lemma ExampleChatMess()
    ensures SnakeCase("ChatMess") == "chat_mess"
  {
    ExampleChat();
    SnakeCaseAppend("Chat", 'M');
    assert "Chat" + ['M'] == "ChatM";
    assert SnakeCase("ChatM") == "chat_m";
    SnakeCaseAppend("ChatM", 'e');
    assert "ChatM" + ['e'] == "ChatMe";
    assert SnakeCase("ChatMe") == "chat_me";
    SnakeCaseAppend("ChatMe", 's');
    assert "ChatMe" + ['s'] == "ChatMes";
    assert SnakeCase("ChatMes") == "chat_mes";
    SnakeCaseAppend("ChatMes", 's');
    assert "ChatMes" + ['s'] == "ChatMess";
  }

  /** The struct name of the chat example becomes `chat_message`. */
  lemma ExampleChatMessage()
    ensures SnakeCase("ChatMessage") == "chat_message"
  {
    ExampleChatMess();
    SnakeCaseAppend("ChatMess", 'a');
    assert "ChatMess" + ['a'] == "ChatMessa";
    assert SnakeCase("ChatMessa") == "chat_messa";
    SnakeCaseAppend("ChatMessa", 'g');
    assert "ChatMessa" + ['g'] == "ChatMessag";
    assert SnakeCase("ChatMessag") == "chat_messag";
    SnakeCaseAppend("ChatMessag", 'e');
    assert "ChatMessag" + ['e'] == "ChatMessage";
  }

  // ---------------------------------------------------------------------
  // Names derived from the struct name.

  /** `foreign_key()`: the snake-case struct name, then `_id`. */
  function ForeignKey(structName: string): (fk: string)
    ensures |fk| == |SnakeCase(structName)| + 3
    ensures fk[..|fk| - 3] == SnakeCase(structName) && fk[|fk| - 3..] == "_id"
  {
    SnakeCase(structName) + "_id"
  }

  /** `table_name()`: the snake-case struct name, pluralised by the
      `pluralizer` crate, which is a parameter here. */
  function TableName(structName: string, pluralize: string -> string): string
  {
    pluralize(SnakeCase(structName))
  }

  // ---------------------------------------------------------------------
  // Fields.

  /** A named field of the struct and the value it holds. */
  datatype Field = Field(name: string, value: Value)

  predicate IsId(f: Field)
  {
    f.name == "id"
  }

  /** `has_id`: some field is named `id`. */
  function HasId(fields: seq<Field>): (b: bool)
    ensures b <==> exists i :: 0 <= i < |fields| && IsId(fields[i])
    decreases |fields|
  {
    if |fields| == 0 then false
    else IsId(fields[0]) || HasId(fields[1..])
  }

  /** `column_names()` as written: every field name in declaration order,
      `id` included. */
  function ColumnNames(fields: seq<Field>): (names: seq<string>)
    ensures |names| == |fields|
    ensures forall i :: 0 <= i < |fields| ==> names[i] == fields[i].name
    decreases |fields|
  {
    if |fields| == 0 then [] else [fields[0].name] + ColumnNames(fields[1..])
  }

  /** The fields `values()` reports: all but those named `id`, every one
      of them, one entry per field dropped. */
  function NonIdFields(fields: seq<Field>): (r: seq<Field>)
    ensures |r| == |fields| - IdCount(fields)
    ensures forall f :: f in r ==> f in fields && !IsId(f)
    ensures forall f :: f in fields && !IsId(f) ==> f in r
    decreases |fields|
  {
    if |fields| == 0 then []
    else (if IsId(fields[0]) then [] else [fields[0]]) + NonIdFields(fields[1..])
  }

  /** `values()`: the field values in declaration order, skipping `id`. */
  function Values(fields: seq<Field>): (vs: seq<Value>)
    ensures |vs| <= |fields|
    decreases |fields|
  {
    if |fields| == 0 then []
    else (if IsId(fields[0]) then [] else [fields[0].value]) + Values(fields[1..])
  }

  /** Entry `i` of `values()` is the value of the `i`-th field not named
      `id`. */
  lemma {:induction false} ValuesOfNonIdFields(fields: seq<Field>)
    ensures |Values(fields)| == |NonIdFields(fields)|
    ensures forall i :: 0 <= i < |Values(fields)| ==> Values(fields)[i] == NonIdFields(fields)[i].value
    decreases |fields|
  {
    if |fields| > 0 {
      ValuesOfNonIdFields(fields[1..]);
      var vs, nf := Values(fields), NonIdFields(fields);
      var restVs, restNf := Values(fields[1..]), NonIdFields(fields[1..]);
      if IsId(fields[0]) {
        assert vs == restVs && nf == restNf;
      } else {
        assert vs == [fields[0].value] + restVs && nf == [fields[0]] + restNf;
        forall i | 1 <= i < |vs|
          ensures vs[i] == nf[i].value
        {
          assert vs[i] == restVs[i - 1] && nf[i] == restNf[i - 1];
        }
      }
    }
  }

  /** Values of a concatenation are the concatenated values. */
  lemma {:induction false} ValuesAppend(a: seq<Field>, b: seq<Field>)
    ensures Values(a + b) == Values(a) + Values(b)
    decreases |a|
  {
    if |a| == 0 {
      assert a + b == b;
    } else {
      assert (a + b)[1..] == a[1..] + b;
      assert (a + b)[0] == a[0];
      ValuesAppend(a[1..], b);
      var head: seq<Value> := if IsId(a[0]) then [] else [a[0].value];
      assert Values(a + b) == head + Values(a[1..] + b);
      assert Values(a) == head + Values(a[1..]);
      assert head + (Values(a[1..]) + Values(b)) == (head + Values(a[1..])) + Values(b);
    }
  }

  /** Number of fields named `id`. */
  function IdCount(fields: seq<Field>): nat
    decreases |fields|
  {
    if |fields| == 0 then 0 else (if IsId(fields[0]) then 1 else 0) + IdCount(fields[1..])
  }

  lemma {:induction false} ValuesLength(fields: seq<Field>)
    ensures |Values(fields)| == |fields| - IdCount(fields)
    ensures IdCount(fields) == 0 <==> !HasId(fields)
    decreases |fields|
  {
    if |fields| > 0 {
      ValuesLength(fields[1..]);
    }
  }

  /** Field names are distinct, as the compiler requires of a struct. */
  predicate DistinctNames(fields: seq<Field>)
  {
    forall i, j :: 0 <= i < j < |fields| ==> fields[i].name != fields[j].name
  }

  lemma {:induction false} DistinctIdCount(fields: seq<Field>)
    requires DistinctNames(fields)
    ensures IdCount(fields) <= 1
    decreases |fields|
  {
    if |fields| > 0 {
      DistinctIdCount(fields[1..]);
      if IsId(fields[0]) {
        NoIdInRest(fields);
      }
    }
  }

  lemma NoIdInRest(fields: seq<Field>)
    requires DistinctNames(fields) && |fields| > 0 && IsId(fields[0])
    ensures IdCount(fields[1..]) == 0
  {
    var rest := fields[1..];
    assert forall i :: 0 <= i < |rest| ==> !IsId(rest[i]) by {
      forall i | 0 <= i < |rest|
        ensures !IsId(rest[i])
      {
        assert rest[i] == fields[i + 1];
      }
    }
    ValuesLength(rest);
  }

  /** For a struct with an `id` field, `values()` has one entry fewer than
      there are fields; without one, one per field. */
  lemma ValuesCount(fields: seq<Field>)
    requires DistinctNames(fields)
    ensures HasId(fields) ==> |Values(fields)| == |fields| - 1
    ensures !HasId(fields) ==> |Values(fields)| == |fields|
  {
    ValuesLength(fields);
    DistinctIdCount(fields);
  }

  /** The `id()` accessor is generated exactly when `id` is a column name. */
  lemma IdAccessorIffIdColumn(fields: seq<Field>)
    ensures HasId(fields) <==> "id" in ColumnNames(fields)
  {
    var names := ColumnNames(fields);
    if "id" in names {
      var i :| 0 <= i < |names| && names[i] == "id";
      assert IsId(fields[i]);
    }
  }

  /** As written, `column_names()` and `values()` disagree on any struct
      with an `id` field: with fields `id, email` the first name is `id`
      while the first value is the email. */
  lemma ColumnNamesMisaligned(id: Value, email: Value)
    ensures var fields := [Field("id", id), Field("email", email)];
      && |ColumnNames(fields)| == 2
      && |Values(fields)| == 1
      && ColumnNames(fields)[0] == "id"
      && Values(fields)[0] == email
  {
    var fields := [Field("id", id), Field("email", email)];
    assert fields[1..] == [Field("email", email)];
    assert fields[1..][1..] == [];
    assert Values(fields[1..][1..]) == [];
    assert !IsId(Field("email", email));
    assert Values(fields[1..]) == [email];
    assert IsId(fields[0]);
    assert Values(fields) == [email];
  }

  /** The column names that line up with `values()`: every field name but
      `id`, in declaration order. */
  function InsertColumnNames(fields: seq<Field>): (names: seq<string>)
    ensures |names| <= |fields|
    decreases |fields|
  {
    if |fields| == 0 then []
    else (if IsId(fields[0]) then [] else [fields[0].name]) + InsertColumnNames(fields[1..])
  }

  /** Entry `i` of the corrected names is the name of the `i`-th field not
      named `id`. */
  lemma {:induction false} InsertColumnNamesOfNonIdFields(fields: seq<Field>)
    ensures |InsertColumnNames(fields)| == |NonIdFields(fields)|
    ensures forall i :: 0 <= i < |InsertColumnNames(fields)| ==>
      InsertColumnNames(fields)[i] == NonIdFields(fields)[i].name
    decreases |fields|
  {
    if |fields| > 0 {
      InsertColumnNamesOfNonIdFields(fields[1..]);
      var ns, nf := InsertColumnNames(fields), NonIdFields(fields);
      var restNs, restNf := InsertColumnNames(fields[1..]), NonIdFields(fields[1..]);
      if IsId(fields[0]) {
        assert ns == restNs && nf == restNf;
      } else {
        assert ns == [fields[0].name] + restNs && nf == [fields[0]] + restNf;
        forall i | 1 <= i < |ns|
          ensures ns[i] == nf[i].name
        {
          assert ns[i] == restNs[i - 1] && nf[i] == restNf[i - 1];
        }
      }
    }
  }

  /** The corrected names pair up with `values()`: same length, and each
      name is bound to the value of the field of that name. */
  lemma InsertColumnsAligned(fields: seq<Field>)
    ensures |InsertColumnNames(fields)| == |Values(fields)|
    ensures forall i :: 0 <= i < |Values(fields)| ==>
      Field(InsertColumnNames(fields)[i], Values(fields)[i]) in fields
    ensures "id" !in InsertColumnNames(fields)
  {
    ValuesOfNonIdFields(fields);
    InsertColumnNamesOfNonIdFields(fields);
    var names, vs, nf := InsertColumnNames(fields), Values(fields), NonIdFields(fields);
    forall i | 0 <= i < |vs|
      ensures Field(names[i], vs[i]) in fields
    {
      assert Field(names[i], vs[i]) == nf[i];
    }
    forall i | 0 <= i < |names|
      ensures names[i] != "id"
    {
      assert nf[i] in nf;
    }
  }

  // ---------------------------------------------------------------------
  // Association attributes.

  /** The three shapes of `syn::Meta`; `path` is the list of path segments.
      The `tokens` of a `ListMeta` are the list's token trees in order,
      punctuation included, as rum-macros/src/lib.rs:143-152 iterates them:
      `has_many(A, B)` holds three trees, `A`, `,` and `B`, and yields an
      impl for each. */
  datatype Meta =
    | PathMeta(path: seq<string>)
    | ListMeta(path: seq<string>, tokens: seq<string>)
    | NameValueMeta(path: seq<string>, value: string)

  /** A panic of the macro. */
  datatype Fault =
    | MissingSegment  // an attribute whose path has no segment
    | NotAList        // an association attribute that is not `name(...)`
    | NotAStruct      // the macro applied to an enum or a union

  /** `impl Association<target> for owner { association_type() = kind }`. */
  datatype AssociationImpl = AssociationImpl(owner: string, target: string, kind: AssociationKind)

  predicate IsAssociationName(name: string)
  {
    name == "belongs_to" || name == "has_many"
  }

  function KindOf(name: string): AssociationKind
  {
    if name == "belongs_to" then BelongsTo else HasMany
  }

  /** One impl per listed token, all of the same kind. */
  function ImplsFor(owner: string, tokens: seq<string>, kind: AssociationKind): (r: seq<AssociationImpl>)
    ensures |r| == |tokens|
    ensures forall i :: 0 <= i < |tokens| ==> r[i] == AssociationImpl(owner, tokens[i], kind)
  {
    seq(|tokens|, i requires 0 <= i < |tokens| => AssociationImpl(owner, tokens[i], kind))
  }

  /** What one attribute contributes: nothing unless its first path
      segment names an association; then one impl per token of its list. */
  function AttributeImpls(owner: string, meta: Meta): (r: Result<seq<AssociationImpl>, Fault>)
    ensures |meta.path| == 0 ==> r == Err(MissingSegment)
    ensures |meta.path| > 0 && !IsAssociationName(meta.path[0]) ==> r == Ok([])
    ensures |meta.path| > 0 && IsAssociationName(meta.path[0]) && !meta.ListMeta? ==> r == Err(NotAList)
    ensures |meta.path| > 0 && meta.ListMeta? && meta.path[0] == "belongs_to" ==>
      r == Ok(ImplsFor(owner, meta.tokens, BelongsTo))
    ensures |meta.path| > 0 && meta.ListMeta? && meta.path[0] == "has_many" ==>
      r == Ok(ImplsFor(owner, meta.tokens, HasMany))
    ensures r.Ok? ==> forall a :: a in r.value ==> a.owner == owner
  {
    if |meta.path| == 0 then Err(MissingSegment)
    else if !IsAssociationName(meta.path[0]) then Ok([])
    else match meta
      case ListMeta(path, tokens) => Ok(ImplsFor(owner, tokens, KindOf(path[0])))
      case _ => Err(NotAList)
  }

  /** `handle_model_attrs`: the attributes in order; the first panic
      aborts the expansion. */
  function ModelAttrs(owner: string, attrs: seq<Meta>): (r: Result<seq<AssociationImpl>, Fault>)
    ensures |attrs| > 0 && AttributeImpls(owner, attrs[0]).Err? ==> r == Err(AttributeImpls(owner, attrs[0]).error)
    ensures |attrs| > 0 && r.Ok? ==> AttributeImpls(owner, attrs[0]).Ok? && AttributeImpls(owner, attrs[0]).value <= r.value
    decreases |attrs|
  {
    if |attrs| == 0 then Ok([])
    else match AttributeImpls(owner, attrs[0])
      case Err(e) => Err(e)
      case Ok(first) =>
        match ModelAttrs(owner, attrs[1..])
        case Err(e) => Err(e)
        case Ok(rest) => Ok(first + rest)
  }

  /** The expansion succeeds exactly when every attribute does, and then
      every impl is for the deriving struct and comes from an association
      attribute. */
  lemma {:induction false} ModelAttrsOk(owner: string, attrs: seq<Meta>)
    ensures ModelAttrs(owner, attrs).Ok? <==> forall i :: 0 <= i < |attrs| ==> AttributeImpls(owner, attrs[i]).Ok?
    ensures ModelAttrs(owner, attrs).Ok? ==> forall a :: a in ModelAttrs(owner, attrs).value ==> a.owner == owner
    decreases |attrs|
  {
    if |attrs| > 0 {
      ModelAttrsOk(owner, attrs[1..]);
      assert forall i :: 1 <= i < |attrs| ==> attrs[i] == attrs[1..][i - 1];
    }
  }

  /** Number of impls the attributes ask for: the tokens of every
      association attribute. */
  function RequestedImpls(attrs: seq<Meta>): nat
    decreases |attrs|
  {
    if |attrs| == 0 then 0
    else
      var a := attrs[0];
      (if |a.path| > 0 && IsAssociationName(a.path[0]) && a.ListMeta? then |a.tokens| else 0)
      + RequestedImpls(attrs[1..])
  }

  /** One impl per listed token; other attributes add none. */
  lemma {:induction false} ModelAttrsCount(owner: string, attrs: seq<Meta>)
    requires ModelAttrs(owner, attrs).Ok?
    ensures |ModelAttrs(owner, attrs).value| == RequestedImpls(attrs)
    decreases |attrs|
  {
    if |attrs| > 0 {
      ModelAttrsCount(owner, attrs[1..]);
    }
  }

  lemma ImplsForOne(owner: string, target: string, kind: AssociationKind)
    ensures ImplsFor(owner, [target], kind) == [AssociationImpl(owner, target, kind)]
  {
    var r := ImplsFor(owner, [target], kind);
    assert |r| == 1 && r[0] == AssociationImpl(owner, target, kind);
  }

  /** `#[belongs_to(User)] #[has_many(Order)]` on `Chat`: one impl each,
      in attribute order; a plain `#[derive]`-like attribute adds nothing. */
  lemma ExampleAttrs()
    ensures ModelAttrs("Chat", [ListMeta(["belongs_to"], ["User"]), PathMeta(["doc"]), ListMeta(["has_many"], ["Order"])])
      == Ok([AssociationImpl("Chat", "User", BelongsTo), AssociationImpl("Chat", "Order", HasMany)])
  {
    var attrs := [ListMeta(["belongs_to"], ["User"]), PathMeta(["doc"]), ListMeta(["has_many"], ["Order"])];
    var belongs := [AssociationImpl("Chat", "User", BelongsTo)];
    var has := [AssociationImpl("Chat", "Order", HasMany)];
    ImplsForOne("Chat", "User", BelongsTo);
    ImplsForOne("Chat", "Order", HasMany);
    assert AttributeImpls("Chat", attrs[0]) == Ok(belongs);
    assert AttributeImpls("Chat", attrs[1]) == Ok([]);
    assert AttributeImpls("Chat", attrs[2]) == Ok(has);
    var last := attrs[1..][1..];
    assert last == [attrs[2]];
    assert last[1..] == [];
    assert ModelAttrs("Chat", last) == Ok(has + []);
    assert has + [] == has;
    assert attrs[1..][0] == attrs[1];
    assert ModelAttrs("Chat", attrs[1..]) == Ok([] + has);
    assert [] + has == has;
    assert ModelAttrs("Chat", attrs) == Ok(belongs + has);
    assert belongs + has == [AssociationImpl("Chat", "User", BelongsTo), AssociationImpl("Chat", "Order", HasMany)];
  }

  // ---------------------------------------------------------------------
  // The whole derivation.

  /** The input of the derive: a struct's name and fields, or another kind
      of item. */
  datatype Item = Struct(name: string, fields: seq<Field>, attrs: seq<Meta>) | Enum(name: string, attrs: seq<Meta>)

  /** What `#[derive(Model)]` generates, as data. */
  datatype Derived = Derived(
    tableName: string,
    foreignKey: string,
    columnNames: seq<string>,
    values: seq<Value>,
    hasIdAccessor: bool,
    associations: seq<AssociationImpl>)

  /** `derive_model`: the attribute handling runs first and panics on an
      enum as well. With `corrected` false the generated `column_names()`
      is the list as written, `id` included; with `corrected` true it is
      the list that leaves `id` out as `values()` does (see
      `ColumnNamesMisaligned`). */
  function DeriveModelWith(item: Item, pluralize: string -> string, corrected: bool): (r: Result<Derived, Fault>)
    ensures item.Enum? ==> r == Err(NotAStruct)
    ensures item.Struct? && ModelAttrs(item.name, item.attrs).Err? ==> r == Err(ModelAttrs(item.name, item.attrs).error)
    ensures item.Struct? && ModelAttrs(item.name, item.attrs).Ok? ==> r.Ok?
    ensures r.Ok? ==>
      && r.value.foreignKey == SnakeCase(item.name) + "_id"
      && r.value.tableName == pluralize(SnakeCase(item.name))
      && r.value.values == Values(item.fields)
      && (r.value.hasIdAccessor <==> exists i :: 0 <= i < |item.fields| && item.fields[i].name == "id")
      && r.value.associations == ModelAttrs(item.name, item.attrs).value
    ensures r.Ok? && !corrected ==>
      && |r.value.columnNames| == |item.fields|
      && forall i :: 0 <= i < |item.fields| ==> r.value.columnNames[i] == item.fields[i].name
    ensures r.Ok? && corrected ==>
      && |r.value.columnNames| == |r.value.values|
      && (forall i :: 0 <= i < |r.value.values| ==> Field(r.value.columnNames[i], r.value.values[i]) in item.fields)
      && "id" !in r.value.columnNames
  {
    match item
    case Enum(_, _) => Err(NotAStruct)
    case Struct(name, fields, attrs) =>
      match ModelAttrs(name, attrs)
      case Err(e) => Err(e)
      case Ok(impls) =>
        InsertColumnsAligned(fields);
        var names := if corrected then InsertColumnNames(fields) else ColumnNames(fields);
        Ok(Derived(TableName(name, pluralize), ForeignKey(name), names, Values(fields), HasId(fields), impls))
  }

  /** The derived foreign key is the default key `QueryBuilder` computes
      from the derived table name, whenever the singularizer undoes the
      pluralizer on the snake-case struct name. */
  lemma ForeignKeyMatchesTable(structName: string, pluralize: string -> string, singularize: string -> string)
    requires singularize(pluralize(SnakeCase(structName))) == SnakeCase(structName)
    ensures ForeignKey(structName) == QueryBuilder.DefaultForeignKey(TableName(structName, pluralize), singularize)
  {
  }

  /** Both versions of the derivation name the keys of a model the way the
      query builder expects to join it. */
  lemma DerivedKeysMatch(item: Item, pluralize: string -> string, singularize: string -> string, corrected: bool)
    requires item.Struct? && singularize(pluralize(SnakeCase(item.name))) == SnakeCase(item.name)
    requires DeriveModelWith(item, pluralize, corrected).Ok?
    ensures var d := DeriveModelWith(item, pluralize, corrected).value;
      d.foreignKey == QueryBuilder.DefaultForeignKey(d.tableName, singularize)
  {
    ForeignKeyMatchesTable(item.name, pluralize, singularize);
  }
}
