/** Template statements (rum/src/view/template/language/statement.rs): a
    recursive-descent parser from tokens to `PrintText`/`If`/`Else`/`End`
    statements, and their evaluation. Expressions are a type parameter `E`:
    the parser receives `Expression::parse` as a function, the evaluator
    receives `evaluate` followed by `truthy`. */
module Statements {

  import opened Results

  /** The tokens the statement parser looks at. `Expr` stands for every
      token of an expression (constants, variables, operators). */
  datatype Token =
    | BlockStart
    | BlockEnd
    | Text(text: string)
    | If
    | ElseIf
    | Else
    | End
    | For
    | Expr(lexeme: string)

  datatype Error =
    | Eof
    | Syntax(token: Token)
    /** A `todo!()` arm. */
    | Unimplemented
    /** Raised by an expression or its context. */
    | Failed(message: string)

  datatype Statement<E> =
    | Print(expression: E)
    | PrintText(text: string)
    | IfStatement(expression: E, ifBody: seq<Statement<E>>, elseBody: seq<Statement<E>>)
    | ElseMarker
    | EndMarker
    | Empty

  /** `Expression::parse`: the expression and how many tokens it took. */
  type ExprParser<E> = seq<Token> -> Result<(E, nat), Error>

  // ---------------------------------------------------------------------
  // Parsing.

  /** `block_end!`: the next token, if any, must be `BlockEnd`, and is
      consumed. */
  function BlockEndCheck(ts: seq<Token>): (r: Result<seq<Token>, Error>)
    ensures r.Ok? <==> |ts| == 0 || ts[0] == BlockEnd
    ensures r.Ok? ==> r.value == if |ts| == 0 then ts else ts[1..]
    ensures r.Err? ==> r.error == Syntax(ts[0])
  {
    if |ts| == 0 then Ok(ts)
    else if ts[0] == BlockEnd then Ok(ts[1..])
    else Err(Syntax(ts[0]))
  }

  /** The unconsumed tokens are a proper suffix of the input. */
  predicate Consumed(ts: seq<Token>, rest: seq<Token>)
  {
    |rest| < |ts| && rest == ts[|ts| - |rest|..]
  }

  /** `Statement::parse`: one statement and the tokens after it. */
  function ParseStatement<E>(ts: seq<Token>, parseExpr: ExprParser<E>): (r: Result<(Statement<E>, seq<Token>), Error>)
    ensures r.Ok? ==> Consumed(ts, r.value.1)
    decreases |ts|, 0
  {
    if |ts| == 0 then Err(Eof)
    else
      var rest := ts[1..];
      match ts[0]
      case End =>
        (match BlockEndCheck(rest)
         case Err(e) => Err(e)
         case Ok(after) => Ok((EndMarker, after)))
      case Text(s) => Ok((PrintText(s), rest))
      case BlockStart =>
        var r := ParseStatement(rest, parseExpr);
        if r.Ok? then
          assert rest[|rest| - |r.value.1|..] == ts[|ts| - |r.value.1|..];
          r
        else r
      case Else =>
        (match BlockEndCheck(rest)
         case Err(e) => Err(e)
         case Ok(after) => Ok((ElseMarker, after)))
      case If => ParseConditional(rest, parseExpr)
      case ElseIf => ParseConditional(rest, parseExpr)
      case For => Err(Unimplemented)
      case _ => Err(Syntax(ts[0]))
  }

  /** The `If`/`ElseIf` arm, after its keyword: the expression, then the
      bodies. */
  function ParseConditional<E>(ts: seq<Token>, parseExpr: ExprParser<E>): (r: Result<(Statement<E>, seq<Token>), Error>)
    ensures r.Ok? ==> |r.value.1| <= |ts| && r.value.1 == ts[|ts| - |r.value.1|..]
    decreases |ts|, 2
  {
    match parseExpr(ts)
    case Err(e) => Err(e)
    case Ok((expression, n)) =>
      var after := ts[if n <= |ts| then n else |ts|..];
      var r := ParseIfBody(after, parseExpr, expression, []);
      if r.Ok? then
        assert after[|after| - |r.value.1|..] == ts[|ts| - |r.value.1|..];
        r
      else r
  }

  /** The first inner loop: statements go to `if_body` until `End`; an
      `Else` is pushed onto `if_body` and hands over to the second loop. */
  function ParseIfBody<E>(ts: seq<Token>, parseExpr: ExprParser<E>, expression: E, ifBody: seq<Statement<E>>)
    : (r: Result<(Statement<E>, seq<Token>), Error>)
    ensures r.Ok? ==> |r.value.1| < |ts| && r.value.1 == ts[|ts| - |r.value.1|..]
    decreases |ts|, 1
  {
    match ParseStatement(ts, parseExpr)
    case Err(e) => Err(e)
    case Ok((statement, rest)) =>
      if statement.EndMarker? then Ok((IfStatement(expression, ifBody, []), rest))
      else
        var r := if statement.ElseMarker? then ParseElseBody(rest, parseExpr, expression, ifBody + [statement], [])
                 else ParseIfBody(rest, parseExpr, expression, ifBody + [statement]);
        if r.Ok? then
          assert rest[|rest| - |r.value.1|..] == ts[|ts| - |r.value.1|..];
          r
        else r
  }

  /** The second inner loop: every statement up to `End` goes to
      `else_body`, a further `Else` included. */
  function ParseElseBody<E>(ts: seq<Token>, parseExpr: ExprParser<E>, expression: E, ifBody: seq<Statement<E>>, elseBody: seq<Statement<E>>)
    : (r: Result<(Statement<E>, seq<Token>), Error>)
    ensures r.Ok? ==> |r.value.1| < |ts| && r.value.1 == ts[|ts| - |r.value.1|..]
    decreases |ts|, 1
  {
    match ParseStatement(ts, parseExpr)
    case Err(e) => Err(e)
    case Ok((statement, rest)) =>
      if statement.EndMarker? then Ok((IfStatement(expression, ifBody, elseBody), rest))
      else
        var r := ParseElseBody(rest, parseExpr, expression, ifBody, elseBody + [statement]);
        if r.Ok? then
          assert rest[|rest| - |r.value.1|..] == ts[|ts| - |r.value.1|..];
          r
        else r
  }

  /** What each leading token makes of the statement: end of input, text,
      the markers with their optional `BlockEnd`, the unimplemented `for`
      and every token that cannot start a statement. */
  lemma ParseStatementCases<E>(ts: seq<Token>, parseExpr: ExprParser<E>)
    ensures |ts| == 0 ==> ParseStatement(ts, parseExpr) == Err(Eof)
    ensures |ts| > 0 && ts[0].Text? ==> ParseStatement(ts, parseExpr) == Ok((PrintText(ts[0].text), ts[1..]))
    ensures |ts| > 0 && (ts[0] == End || ts[0] == Else) ==>
      var marker: Statement<E> := if ts[0] == End then EndMarker else ElseMarker;
      && (ParseStatement(ts, parseExpr).Ok? <==> |ts| == 1 || ts[1] == BlockEnd)
      && (|ts| == 1 ==> ParseStatement(ts, parseExpr) == Ok((marker, [])))
      && (|ts| > 1 && ts[1] == BlockEnd ==> ParseStatement(ts, parseExpr) == Ok((marker, ts[2..])))
      && (|ts| > 1 && ts[1] != BlockEnd ==> ParseStatement(ts, parseExpr) == Err(Syntax(ts[1])))
    ensures |ts| > 0 && (ts[0] == BlockEnd || ts[0].Expr?) ==> ParseStatement(ts, parseExpr) == Err(Syntax(ts[0]))
    ensures |ts| > 0 && ts[0] == For ==> ParseStatement(ts, parseExpr) == Err(Unimplemented)
  {
    if |ts| > 1 {
      assert ts[1..][1..] == ts[2..];
    }
  }

  /** `BlockStart` opens a block and is otherwise skipped: whatever follows
      it is parsed as if it came first. */
  lemma BlockStartSkipped<E>(ts: seq<Token>, parseExpr: ExprParser<E>)
    ensures ParseStatement([BlockStart] + ts, parseExpr) == ParseStatement(ts, parseExpr)
  {
    assert ([BlockStart] + ts)[1..] == ts;
  }

  /** `ElseIf` opens a conditional exactly as `If` does. */
  lemma ElseIfIsIf<E>(ts: seq<Token>, parseExpr: ExprParser<E>)
    ensures ParseStatement([ElseIf] + ts, parseExpr) == ParseStatement([If] + ts, parseExpr)
  {
    assert ([ElseIf] + ts)[1..] == ts == ([If] + ts)[1..];
  }

  /** A failing expression parse fails the conditional with its error. */
  lemma ConditionFails<E>(ts: seq<Token>, parseExpr: ExprParser<E>)
    requires parseExpr(ts).Err?
    ensures ParseStatement([If] + ts, parseExpr) == Err(parseExpr(ts).error)
  {
    assert ([If] + ts)[1..] == ts;
  }

  /** A conditional left open at the end of input fails with `Eof`. */
  lemma {:induction false} UnclosedIfBody<E>(ts: seq<Token>, parseExpr: ExprParser<E>, e: E, acc: seq<Statement<E>>)
    requires forall i :: 0 <= i < |ts| ==> ts[i].Text?
    ensures ParseIfBody(ts, parseExpr, e, acc) == Err(Eof)
    decreases |ts|
  {
    if |ts| > 0 {
      UnclosedIfBody(ts[1..], parseExpr, e, acc + [PrintText(ts[0].text)]);
    }
  }

  // ---------------------------------------------------------------------
  // Evaluation.

  /** `Statement::evaluate`; `test` is the expression's evaluation followed
      by `truthy`, in the caller's context. With `corrected` false this is
      the code as written, where the `Else` marker kept in `if_body` reaches
      the `todo!()` arm; with `corrected` true the marker prints nothing. */
  function EvaluateWith<E>(s: Statement<E>, test: E -> Result<bool, Error>, corrected: bool): (r: Result<string, Error>)
    ensures s.PrintText? ==> r == Ok(s.text)
    ensures s.Print? || s.EndMarker? || s.Empty? ==> r == Err(Unimplemented)
    ensures s.ElseMarker? ==> r == if corrected then Ok("") else Err(Unimplemented)
    decreases s
  {
    match s
    case PrintText(text) => Ok(text)
    case IfStatement(expression, ifBody, elseBody) =>
      (match test(expression)
       case Err(e) => Err(e)
       case Ok(truthy) => EvaluateAllWith(if truthy then ifBody else elseBody, test, corrected))
    case ElseMarker => if corrected then Ok("") else Err(Unimplemented)
    case _ => Err(Unimplemented)
  }

  /** The statements' outputs concatenated in order; the first error wins. */
  function EvaluateAllWith<E>(ss: seq<Statement<E>>, test: E -> Result<bool, Error>, corrected: bool): (r: Result<string, Error>)
    ensures |ss| == 0 ==> r == Ok("")
    ensures |ss| > 0 && EvaluateWith(ss[0], test, corrected).Err? ==> r == Err(EvaluateWith(ss[0], test, corrected).error)
    ensures |ss| > 0 && r.Ok? ==> EvaluateWith(ss[0], test, corrected).Ok? && EvaluateWith(ss[0], test, corrected).value <= r.value
    decreases ss
  {
    if |ss| == 0 then Ok("")
    else
      match EvaluateWith(ss[0], test, corrected)
      case Err(e) => Err(e)
      case Ok(head) =>
        match EvaluateAllWith(ss[1..], test, corrected)
        case Err(e) => Err(e)
        case Ok(tail) => Ok(head + tail)
  }

  /** The evaluation the rest of the model uses: the `Else` marker prints
      nothing, and the statements other than conditionals succeed exactly
      when they are text or that marker. */
  function Evaluate<E>(s: Statement<E>, test: E -> Result<bool, Error>): (r: Result<string, Error>)
    ensures s.ElseMarker? ==> r == Ok("")
    ensures !s.IfStatement? ==> (r.Ok? <==> s.PrintText? || s.ElseMarker?)
  {
    EvaluateWith(s, test, true)
  }

  function EvaluateAll<E>(ss: seq<Statement<E>>, test: E -> Result<bool, Error>): Result<string, Error>
  {
    EvaluateAllWith(ss, test, true)
  }

  /** The concatenated outputs, when every statement succeeds. */
  function Outputs<E>(ss: seq<Statement<E>>, test: E -> Result<bool, Error>, corrected: bool): string
    requires forall i :: 0 <= i < |ss| ==> EvaluateWith(ss[i], test, corrected).Ok?
  {
    if |ss| == 0 then "" else EvaluateWith(ss[0], test, corrected).value + Outputs(ss[1..], test, corrected)
  }

  /** Evaluation of a list succeeds exactly when every statement does, with
      their outputs in order; otherwise it fails with the error of the
      first failing statement. */
  lemma {:induction false} EvaluateAllSpec<E>(ss: seq<Statement<E>>, test: E -> Result<bool, Error>, corrected: bool)
    ensures EvaluateAllWith(ss, test, corrected).Ok? <==> forall i :: 0 <= i < |ss| ==> EvaluateWith(ss[i], test, corrected).Ok?
    ensures EvaluateAllWith(ss, test, corrected).Ok? ==> EvaluateAllWith(ss, test, corrected).value == Outputs(ss, test, corrected)
    ensures EvaluateAllWith(ss, test, corrected).Err? ==>
      exists i :: 0 <= i < |ss| && EvaluateWith(ss[i], test, corrected) == Err(EvaluateAllWith(ss, test, corrected).error)
        && forall j :: 0 <= j < i ==> EvaluateWith(ss[j], test, corrected).Ok?
    decreases |ss|
  {
    if |ss| > 0 {
      EvaluateAllSpec(ss[1..], test, corrected);
      assert forall i :: 1 <= i < |ss| ==> ss[1..][i - 1] == ss[i];
      if EvaluateWith(ss[0], test, corrected).Ok? && EvaluateAllWith(ss[1..], test, corrected).Err? {
        var i :| 0 <= i < |ss[1..]| && EvaluateWith(ss[1..][i], test, corrected) == Err(EvaluateAllWith(ss[1..], test, corrected).error)
          && forall j :: 0 <= j < i ==> EvaluateWith(ss[1..][j], test, corrected).Ok?;
        assert EvaluateWith(ss[i + 1], test, corrected) == Err(EvaluateAllWith(ss, test, corrected).error);
      }
    }
  }

  /** As written: an `If` whose test holds evaluates its `if_body`, `Else`
      marker included, so when it has an `Else` branch it reaches the
      unimplemented arm, whatever the other statements print. */
  lemma TruthyIfWithElseFails<E>(e: E, ifBody: seq<Statement<E>>, elseBody: seq<Statement<E>>, test: E -> Result<bool, Error>)
    requires test(e) == Ok(true)
    requires ElseMarker in ifBody
    requires forall s :: s in ifBody && s != ElseMarker ==> EvaluateWith(s, test, false).Ok?
    ensures EvaluateWith(IfStatement(e, ifBody, elseBody), test, false) == Err(Unimplemented)
  {
    EvaluateAllSpec(ifBody, test, false);
    var i :| 0 <= i < |ifBody| && ifBody[i] == ElseMarker;
    assert !EvaluateWith(ifBody[i], test, false).Ok?;
    var k :| 0 <= k < |ifBody| && EvaluateWith(ifBody[k], test, false) == Err(EvaluateAllWith(ifBody, test, false).error)
      && forall j :: 0 <= j < k ==> EvaluateWith(ifBody[j], test, false).Ok?;
    assert ifBody[k] == ElseMarker;
  }

  /** A concrete template hitting it: `<% if x %>a<% else %>b<% end %>`
      with `x` true. */
  lemma TruthyIfWithElseExample<E>(x: E, test: E -> Result<bool, Error>)
    requires test(x) == Ok(true)
    ensures EvaluateWith(IfStatement(x, [PrintText("a"), ElseMarker], [PrintText("b")]), test, false) == Err(Unimplemented)
    ensures Evaluate(IfStatement(x, [PrintText("a"), ElseMarker], [PrintText("b")]), test) == Ok("a")
  {
    TruthyIfWithElseFails(x, [PrintText("a"), ElseMarker], [PrintText("b")], test);
    var ifBody: seq<Statement<E>> := [PrintText("a"), ElseMarker];
    assert ifBody[1..][1..] == [];
    assert EvaluateAll(ifBody[1..][1..], test) == Ok("");
    assert EvaluateAll(ifBody[1..], test) == Ok("" + "");
    assert "" + "" == "" && "a" + "" == "a";
    assert EvaluateAll(ifBody, test) == Ok("a");
  }

  /** Evaluating a list that ends in the `Else` marker is evaluating the
      list without it. */
  lemma {:induction false} TrailingElsePrintsNothing<E>(body: seq<Statement<E>>, test: E -> Result<bool, Error>)
    ensures EvaluateAll(body + [ElseMarker], test) == EvaluateAll(body, test)
    decreases |body|
  {
    if |body| == 0 {
      var marker: seq<Statement<E>> := [ElseMarker];
      assert body + marker == marker;
      assert marker[1..] == [];
      assert EvaluateAllWith(marker[1..], test, true) == Ok("");
      assert "" + "" == "";
    } else {
      assert (body + [ElseMarker])[1..] == body[1..] + [ElseMarker];
      TrailingElsePrintsNothing(body[1..], test);
      assert (body + [ElseMarker])[0] == body[0];
      var r := EvaluateAll(body[1..], test);
      if r.Ok? {
        assert r.value + "" == r.value;
      }
    }
  }

  /** Corrected: a conditional prints its `if_body` (without the `Else`
      marker) when the test holds and its `else_body` otherwise, and fails
      with the test's error. */
  lemma ConditionalBranches<E>(e: E, body: seq<Statement<E>>, elseBody: seq<Statement<E>>, test: E -> Result<bool, Error>)
    ensures test(e) == Ok(true) ==> Evaluate(IfStatement(e, body + [ElseMarker], elseBody), test) == EvaluateAll(body, test)
    ensures test(e) == Ok(false) ==> Evaluate(IfStatement(e, body + [ElseMarker], elseBody), test) == EvaluateAll(elseBody, test)
    ensures test(e).Err? ==> Evaluate(IfStatement(e, body + [ElseMarker], elseBody), test) == Err(test(e).error)
  {
    TrailingElsePrintsNothing(body, test);
  }

  /** No `Else` marker anywhere in the statement. */
  predicate NoElse<E>(s: Statement<E>)
    decreases s
  {
    match s
    case ElseMarker => false
    case IfStatement(_, ifBody, elseBody) =>
      (forall i :: 0 <= i < |ifBody| ==> NoElse(ifBody[i])) && (forall i :: 0 <= i < |elseBody| ==> NoElse(elseBody[i]))
    case _ => true
  }

  /** The two evaluations differ only at an `Else` marker: without one they
      agree. */
  lemma {:induction false} EvaluatorsAgree<E>(s: Statement<E>, test: E -> Result<bool, Error>)
    requires NoElse(s)
    ensures EvaluateWith(s, test, false) == EvaluateWith(s, test, true)
    decreases s, 1
  {
    match s
    case IfStatement(e, ifBody, elseBody) =>
      if test(e).Ok? {
        EvaluatorsAgreeAll(if test(e).value then ifBody else elseBody, test);
      }
    case _ =>
  }

  lemma {:induction false} EvaluatorsAgreeAll<E>(ss: seq<Statement<E>>, test: E -> Result<bool, Error>)
    requires forall i :: 0 <= i < |ss| ==> NoElse(ss[i])
    ensures EvaluateAllWith(ss, test, false) == EvaluateAllWith(ss, test, true)
    decreases ss, 0
  {
    if |ss| > 0 {
      EvaluatorsAgree(ss[0], test);
      assert forall i :: 0 <= i < |ss[1..]| ==> ss[1..][i] == ss[i + 1];
      EvaluatorsAgreeAll(ss[1..], test);
    }
  }

  // ---------------------------------------------------------------------
  // The tokens a statement comes from.

  /** Statements the parser can build: markers, text, and conditionals
      whose `if_body` holds an `Else` marker only as its last element,
      followed by an `else_body` only after such a marker; no `End` is
      kept in either body. */
  predicate Shaped<E>(s: Statement<E>)
    decreases s
  {
    match s
    case PrintText(_) => true
    case ElseMarker => true
    case EndMarker => true
    case IfStatement(_, ifBody, elseBody) =>
      && (forall i :: 0 <= i < |ifBody| ==> !ifBody[i].EndMarker? && Shaped(ifBody[i]))
      && (forall i :: 0 <= i < |elseBody| ==> !elseBody[i].EndMarker? && Shaped(elseBody[i]))
      && (forall i :: 0 <= i < |ifBody| - 1 ==> !ifBody[i].ElseMarker?)
      && (|elseBody| > 0 ==> |ifBody| > 0 && ifBody[|ifBody| - 1].ElseMarker?)
    case _ => false
  }

  /** The tokens of a statement followed by `rest`, given the tokens of
      each expression. */
  function TokensThen<E>(s: Statement<E>, rest: seq<Token>, exprTokens: E -> seq<Token>): seq<Token>
    decreases s
  {
    match s
    case PrintText(text) => [Text(text)] + rest
    case ElseMarker => [BlockStart, Else, BlockEnd] + rest
    case EndMarker => Closing(rest)
    case IfStatement(e, ifBody, elseBody) =>
      [BlockStart, If] + (exprTokens(e) + AllThen(ifBody, AllThen(elseBody, Closing(rest), exprTokens), exprTokens))
    case _ => rest
  }

  /** The tokens of the statements in order, followed by `rest`. */
  function AllThen<E>(ss: seq<Statement<E>>, rest: seq<Token>, exprTokens: E -> seq<Token>): seq<Token>
    decreases ss
  {
    if |ss| == 0 then rest else TokensThen(ss[0], AllThen(ss[1..], rest, exprTokens), exprTokens)
  }

  /** The end of a conditional: `End` in its block, then whatever
      follows. */
  function Closing(rest: seq<Token>): seq<Token>
  {
    [BlockStart, End, BlockEnd] + rest
  }

  /** The expression parser reads back exactly the tokens of an
      expression, whatever follows them. */
  ghost predicate ReadsBack<E(!new)>(parseExpr: ExprParser<E>, exprTokens: E -> seq<Token>)
  {
    forall e, rest {:trigger parseExpr(exprTokens(e) + rest)} ::
      parseExpr(exprTokens(e) + rest) == Ok((e, |exprTokens(e)|))
  }

  function Size<E>(s: Statement<E>): (n: nat)
    ensures n >= 1
    decreases s
  {
    match s
    case IfStatement(_, ifBody, elseBody) => 1 + SizeAll(ifBody) + SizeAll(elseBody)
    case _ => 1
  }

  function SizeAll<E>(ss: seq<Statement<E>>): nat
    decreases ss
  {
    if |ss| == 0 then 0 else Size(ss[0]) + SizeAll(ss[1..])
  }

  /** A marker in its block is read back, up to its `BlockEnd`. */
  lemma ParseMarker<E>(keyword: Token, rest: seq<Token>, parseExpr: ExprParser<E>)
    requires keyword == Else || keyword == End
    ensures ParseStatement([BlockStart, keyword, BlockEnd] + rest, parseExpr)
      == Ok((if keyword == Else then ElseMarker else EndMarker, rest))
  {
    var ts := [BlockStart, keyword, BlockEnd] + rest;
    assert ts[1..] == [keyword, BlockEnd] + rest;
    assert ts[1..][1..] == [BlockEnd] + rest;
    assert ([BlockEnd] + rest)[1..] == rest;
  }

  lemma ParseClosing<E>(rest: seq<Token>, parseExpr: ExprParser<E>)
    ensures ParseStatement(Closing(rest), parseExpr) == Ok((EndMarker, rest))
  {
    ParseMarker(End, rest, parseExpr);
  }

  /** Two steps of `Statement::parse` on `BlockStart`, `If`: the
      conditional arm. */
  lemma ParseIfStep<E>(ts: seq<Token>, parseExpr: ExprParser<E>)
    requires |ts| > 1 && ts[0] == BlockStart && ts[1] == If
    ensures ParseStatement(ts, parseExpr) == ParseConditional(ts[2..], parseExpr)
  {
    assert ts[1..][1..] == ts[2..];
  }

  /** The conditional arm once the expression has been read. */
  lemma ParseConditionalStep<E>(e: E, exprLength: nat, ts: seq<Token>, parseExpr: ExprParser<E>)
    requires parseExpr(ts) == Ok((e, exprLength)) && exprLength <= |ts|
    ensures ParseConditional(ts, parseExpr) == ParseIfBody(ts[exprLength..], parseExpr, e, [])
  {
  }

  /** One step of the first loop. */
  lemma IfBodyStep<E>(ts: seq<Token>, later: seq<Token>, head: Statement<E>, parseExpr: ExprParser<E>, e: E, acc: seq<Statement<E>>)
    requires ParseStatement(ts, parseExpr) == Ok((head, later))
    ensures ParseIfBody(ts, parseExpr, e, acc)
      == if head.EndMarker? then Ok((IfStatement(e, acc, []), later))
         else if head.ElseMarker? then ParseElseBody(later, parseExpr, e, acc + [head], [])
         else ParseIfBody(later, parseExpr, e, acc + [head])
  {
  }

  /** One step of the second loop. */
  lemma ElseBodyStep<E>(ts: seq<Token>, later: seq<Token>, head: Statement<E>, parseExpr: ExprParser<E>, e: E, ifBody: seq<Statement<E>>, acc: seq<Statement<E>>)
    requires ParseStatement(ts, parseExpr) == Ok((head, later))
    ensures ParseElseBody(ts, parseExpr, e, ifBody, acc)
      == if head.EndMarker? then Ok((IfStatement(e, ifBody, acc), later))
         else ParseElseBody(later, parseExpr, e, ifBody, acc + [head])
  {
  }

  /** Every statement the parser can build is read back from its tokens,
      whatever follows them. */
  lemma {:induction false} ParseTokens<E(!new)>(s: Statement<E>, rest: seq<Token>, parseExpr: ExprParser<E>, exprTokens: E -> seq<Token>)
    requires ReadsBack(parseExpr, exprTokens)
    requires Shaped(s)
    ensures ParseStatement(TokensThen(s, rest, exprTokens), parseExpr) == Ok((s, rest))
    decreases Size(s), 1
  {
    var ts := TokensThen(s, rest, exprTokens);
    match s
    case PrintText(_) =>
      assert ts[1..] == rest;
    case ElseMarker =>
      ParseMarker(Else, rest, parseExpr);
    case EndMarker =>
      ParseClosing(rest, parseExpr);
    case IfStatement(e, ifBody, elseBody) =>
      ParseConditionalTokens(e, ifBody, elseBody, rest, parseExpr, exprTokens);
  }

  lemma {:induction false} ParseConditionalTokens<E(!new)>(e: E, ifBody: seq<Statement<E>>, elseBody: seq<Statement<E>>,
                                                           rest: seq<Token>, parseExpr: ExprParser<E>, exprTokens: E -> seq<Token>)
    requires ReadsBack(parseExpr, exprTokens)
    requires Shaped(IfStatement(e, ifBody, elseBody))
    ensures ParseStatement(TokensThen(IfStatement(e, ifBody, elseBody), rest, exprTokens), parseExpr)
      == Ok((IfStatement(e, ifBody, elseBody), rest))
    decreases Size(IfStatement(e, ifBody, elseBody)), 0
  {
    var ts := TokensThen(IfStatement(e, ifBody, elseBody), rest, exprTokens);
    var bodies := AllThen(ifBody, AllThen(elseBody, Closing(rest), exprTokens), exprTokens);
    assert ts == [BlockStart, If] + (exprTokens(e) + bodies);
    ParseIfStep(ts, parseExpr);
    assert ts[2..] == exprTokens(e) + bodies;
    assert parseExpr(exprTokens(e) + bodies) == Ok((e, |exprTokens(e)|));
    ParseConditionalStep(e, |exprTokens(e)|, exprTokens(e) + bodies, parseExpr);
    assert (exprTokens(e) + bodies)[|exprTokens(e)|..] == bodies;
    ParseIfBodyTokens(e, ifBody, elseBody, [], rest, parseExpr, exprTokens);
    assert [] + ifBody == ifBody;
  }

  /** The first loop reads the `if_body` statements, hands the `Else`
      marker over to the second loop, and stops at `End`. */
  lemma {:induction false} ParseIfBodyTokens<E(!new)>(e: E, ifBody: seq<Statement<E>>, elseBody: seq<Statement<E>>, acc: seq<Statement<E>>,
                                                      rest: seq<Token>, parseExpr: ExprParser<E>, exprTokens: E -> seq<Token>)
    requires ReadsBack(parseExpr, exprTokens)
    requires Shaped(IfStatement(e, ifBody, elseBody))
    ensures ParseIfBody(AllThen(ifBody, AllThen(elseBody, Closing(rest), exprTokens), exprTokens), parseExpr, e, acc)
      == Ok((IfStatement(e, acc + ifBody, elseBody), rest))
    decreases SizeAll(ifBody) + SizeAll(elseBody), 3
  {
    if |ifBody| == 0 {
      IfBodyEnds(e, elseBody, acc, rest, parseExpr, exprTokens);
      assert acc + ifBody == acc;
    } else {
      IfBodyNext(e, ifBody, elseBody, acc, rest, parseExpr, exprTokens);
    }
  }

  /** An empty `if_body` (and so no `else_body`): the loop meets `End`. */
  lemma IfBodyEnds<E>(e: E, elseBody: seq<Statement<E>>, acc: seq<Statement<E>>,
                      rest: seq<Token>, parseExpr: ExprParser<E>, exprTokens: E -> seq<Token>)
    requires Shaped(IfStatement(e, [], elseBody))
    ensures ParseIfBody(AllThen([], AllThen(elseBody, Closing(rest), exprTokens), exprTokens), parseExpr, e, acc)
      == Ok((IfStatement(e, acc, elseBody), rest))
  {
    assert elseBody == [];
    var ts := AllThen([], AllThen(elseBody, Closing(rest), exprTokens), exprTokens);
    assert ts == Closing(rest);
    ParseClosing(rest, parseExpr);
    IfBodyStep(ts, rest, EndMarker, parseExpr, e, acc);
  }

  /** A nonempty `if_body`: its first statement is read back, then the loop
      goes on. */
  lemma {:induction false} IfBodyNext<E(!new)>(e: E, ifBody: seq<Statement<E>>, elseBody: seq<Statement<E>>, acc: seq<Statement<E>>,
                                               rest: seq<Token>, parseExpr: ExprParser<E>, exprTokens: E -> seq<Token>)
    requires ReadsBack(parseExpr, exprTokens)
    requires Shaped(IfStatement(e, ifBody, elseBody)) && |ifBody| > 0
    ensures ParseIfBody(AllThen(ifBody, AllThen(elseBody, Closing(rest), exprTokens), exprTokens), parseExpr, e, acc)
      == Ok((IfStatement(e, acc + ifBody, elseBody), rest))
    decreases SizeAll(ifBody) + SizeAll(elseBody), 2
  {
    var tail := AllThen(elseBody, Closing(rest), exprTokens);
    var ts := AllThen(ifBody, tail, exprTokens);
    var head := ifBody[0];
    var later := AllThen(ifBody[1..], tail, exprTokens);
    IfBodyHead(e, ifBody, elseBody, tail, exprTokens);
    ParseTokens(head, later, parseExpr, exprTokens);
    if head.ElseMarker? {
      assert later == tail;
      IfBodyStep(ts, later, head, parseExpr, e, acc);
      ElseHandover(e, head, elseBody, acc, rest, parseExpr, exprTokens);
    } else {
      IfBodyStep(ts, later, head, parseExpr, e, acc);
      IfBodyRest(e, ifBody, elseBody, acc, rest, parseExpr, exprTokens);
    }
  }

  /** After a statement other than `Else`, the loop reads the rest of
      `if_body`. */
  lemma {:induction false} IfBodyRest<E(!new)>(e: E, ifBody: seq<Statement<E>>, elseBody: seq<Statement<E>>, acc: seq<Statement<E>>,
                                               rest: seq<Token>, parseExpr: ExprParser<E>, exprTokens: E -> seq<Token>)
    requires ReadsBack(parseExpr, exprTokens)
    requires Shaped(IfStatement(e, ifBody, elseBody)) && |ifBody| > 0 && !ifBody[0].ElseMarker?
    ensures ParseIfBody(AllThen(ifBody[1..], AllThen(elseBody, Closing(rest), exprTokens), exprTokens), parseExpr, e, acc + [ifBody[0]])
      == Ok((IfStatement(e, acc + ifBody, elseBody), rest))
    decreases SizeAll(ifBody) + SizeAll(elseBody), 1
  {
    IfBodyTail(e, ifBody, elseBody);
    ParseIfBodyTokens(e, ifBody[1..], elseBody, acc + [ifBody[0]], rest, parseExpr, exprTokens);
    assert acc + [ifBody[0]] + ifBody[1..] == acc + ifBody;
  }

  lemma IfBodyHead<E>(e: E, ifBody: seq<Statement<E>>, elseBody: seq<Statement<E>>, tail: seq<Token>, exprTokens: E -> seq<Token>)
    requires Shaped(IfStatement(e, ifBody, elseBody)) && |ifBody| > 0
    ensures AllThen(ifBody, tail, exprTokens) == TokensThen(ifBody[0], AllThen(ifBody[1..], tail, exprTokens), exprTokens)
    ensures Shaped(ifBody[0]) && !ifBody[0].EndMarker?
    ensures SizeAll(ifBody) == Size(ifBody[0]) + SizeAll(ifBody[1..])
    ensures ifBody[0].ElseMarker? ==> ifBody == [ifBody[0]]
    ensures forall i :: 0 <= i < |elseBody| ==> !elseBody[i].EndMarker? && Shaped(elseBody[i])
  {
    if ifBody[0].ElseMarker? {
      assert |ifBody| == 1;
    }
  }

  /** The `Else` marker closes `if_body` and the second loop reads the
      rest. */
  lemma {:induction false} ElseHandover<E(!new)>(e: E, marker: Statement<E>, elseBody: seq<Statement<E>>, acc: seq<Statement<E>>,
                                                 rest: seq<Token>, parseExpr: ExprParser<E>, exprTokens: E -> seq<Token>)
    requires ReadsBack(parseExpr, exprTokens)
    requires forall i :: 0 <= i < |elseBody| ==> !elseBody[i].EndMarker? && Shaped(elseBody[i])
    ensures ParseElseBody(AllThen(elseBody, Closing(rest), exprTokens), parseExpr, e, acc + [marker], [])
      == Ok((IfStatement(e, acc + [marker], elseBody), rest))
    decreases SizeAll(elseBody), 3
  {
    ParseElseBodyTokens(e, acc + [marker], elseBody, [], rest, parseExpr, exprTokens);
    assert [] + elseBody == elseBody;
  }

  lemma IfBodyTail<E>(e: E, ifBody: seq<Statement<E>>, elseBody: seq<Statement<E>>)
    requires Shaped(IfStatement(e, ifBody, elseBody)) && |ifBody| > 0 && !ifBody[0].ElseMarker?
    ensures Shaped(IfStatement(e, ifBody[1..], elseBody))
    ensures SizeAll(ifBody[1..]) < SizeAll(ifBody)
  {
    assert forall i :: 0 <= i < |ifBody[1..]| ==> ifBody[1..][i] == ifBody[i + 1];
  }

  /** The second loop reads the `else_body` statements and stops at
      `End`. */
  lemma {:induction false} ParseElseBodyTokens<E(!new)>(e: E, ifBody: seq<Statement<E>>, elseBody: seq<Statement<E>>, acc: seq<Statement<E>>,
                                                        rest: seq<Token>, parseExpr: ExprParser<E>, exprTokens: E -> seq<Token>)
    requires ReadsBack(parseExpr, exprTokens)
    requires forall i :: 0 <= i < |elseBody| ==> !elseBody[i].EndMarker? && Shaped(elseBody[i])
    ensures ParseElseBody(AllThen(elseBody, Closing(rest), exprTokens), parseExpr, e, ifBody, acc)
      == Ok((IfStatement(e, ifBody, acc + elseBody), rest))
    decreases SizeAll(elseBody), 2
  {
    var ts := AllThen(elseBody, Closing(rest), exprTokens);
    if |elseBody| == 0 {
      ParseClosing(rest, parseExpr);
      ElseBodyStep(ts, rest, EndMarker, parseExpr, e, ifBody, acc);
      assert acc + elseBody == acc;
    } else {
      var head := elseBody[0];
      var later := AllThen(elseBody[1..], Closing(rest), exprTokens);
      ParseTokens(head, later, parseExpr, exprTokens);
      ElseBodyStep(ts, later, head, parseExpr, e, ifBody, acc);
      assert forall i :: 0 <= i < |elseBody[1..]| ==> elseBody[1..][i] == elseBody[i + 1];
      ParseElseBodyTokens(e, ifBody, elseBody[1..], acc + [head], rest, parseExpr, exprTokens);
      assert acc + [head] + elseBody[1..] == acc + elseBody;
    }
  }

  // ---------------------------------------------------------------------
  // Conditionals left open.

  /** The second loop, run over the tokens of statements none of which is
      `End`, reaches the end of input and fails with `Eof`. */
  lemma {:induction false} UnclosedElseBodyTokens<E(!new)>(ss: seq<Statement<E>>, parseExpr: ExprParser<E>, exprTokens: E -> seq<Token>,
                                                          e: E, ifBody: seq<Statement<E>>, acc: seq<Statement<E>>)
    requires ReadsBack(parseExpr, exprTokens)
    requires forall i :: 0 <= i < |ss| ==> !ss[i].EndMarker? && Shaped(ss[i])
    ensures ParseElseBody(AllThen(ss, [], exprTokens), parseExpr, e, ifBody, acc) == Err(Eof)
    decreases |ss|
  {
    if |ss| > 0 {
      var later := AllThen(ss[1..], [], exprTokens);
      ParseTokens(ss[0], later, parseExpr, exprTokens);
      ElseBodyStep(AllThen(ss, [], exprTokens), later, ss[0], parseExpr, e, ifBody, acc);
      assert forall i :: 0 <= i < |ss[1..]| ==> ss[1..][i] == ss[i + 1];
      UnclosedElseBodyTokens(ss[1..], parseExpr, exprTokens, e, ifBody, acc + [ss[0]]);
    }
  }

  /** The first loop, run over the tokens of statements none of which is
      `End` (text, `Else` markers and closed conditionals in any order),
      fails with `Eof`: an `Else` hands over to the second loop, which
      fails the same way. */
  lemma {:induction false} UnclosedIfBodyTokens<E(!new)>(ss: seq<Statement<E>>, parseExpr: ExprParser<E>, exprTokens: E -> seq<Token>,
                                                        e: E, acc: seq<Statement<E>>)
    requires ReadsBack(parseExpr, exprTokens)
    requires forall i :: 0 <= i < |ss| ==> !ss[i].EndMarker? && Shaped(ss[i])
    ensures ParseIfBody(AllThen(ss, [], exprTokens), parseExpr, e, acc) == Err(Eof)
    decreases |ss|
  {
    if |ss| > 0 {
      var later := AllThen(ss[1..], [], exprTokens);
      ParseTokens(ss[0], later, parseExpr, exprTokens);
      IfBodyStep(AllThen(ss, [], exprTokens), later, ss[0], parseExpr, e, acc);
      assert forall i :: 0 <= i < |ss[1..]| ==> ss[1..][i] == ss[i + 1];
      if ss[0].ElseMarker? {
        UnclosedElseBodyTokens(ss[1..], parseExpr, exprTokens, e, acc + [ss[0]], []);
      } else {
        UnclosedIfBodyTokens(ss[1..], parseExpr, exprTokens, e, acc + [ss[0]]);
      }
    }
  }

  /** A conditional whose block is never closed by `End` fails with `Eof`,
      whatever statements its bodies hold. */
  lemma UnclosedConditional<E(!new)>(e: E, ss: seq<Statement<E>>, parseExpr: ExprParser<E>, exprTokens: E -> seq<Token>)
    requires ReadsBack(parseExpr, exprTokens)
    requires forall i :: 0 <= i < |ss| ==> !ss[i].EndMarker? && Shaped(ss[i])
    ensures ParseStatement([BlockStart, If] + (exprTokens(e) + AllThen(ss, [], exprTokens)), parseExpr) == Err(Eof)
  {
    var bodies := AllThen(ss, [], exprTokens);
    var ts := [BlockStart, If] + (exprTokens(e) + bodies);
    ParseIfStep(ts, parseExpr);
    assert ts[2..] == exprTokens(e) + bodies;
    assert parseExpr(exprTokens(e) + bodies) == Ok((e, |exprTokens(e)|));
    ParseConditionalStep(e, |exprTokens(e)|, exprTokens(e) + bodies, parseExpr);
    assert (exprTokens(e) + bodies)[|exprTokens(e)|..] == bodies;
    UnclosedIfBodyTokens(ss, parseExpr, exprTokens, e, []);
  }
}
