/** A template program (rum-templates/src/language/program.rs): the
    statements of a token stream, parsed one after another, and the
    concatenation of their outputs. The statements are those of
    rum/src/view/template/language/statement.rs, as modelled in
    `Statements`; the `rum-templates` crate's own statement module is not
    part of this model. */
module Programs {

  import opened Results
  import opened Statements

  /** `Program::parse`: statements while tokens remain; the first statement
      that fails to parse fails the program. */
  function ParseProgram<E>(ts: seq<Token>, parseExpr: ExprParser<E>): (r: Result<seq<Statement<E>>, Error>)
    ensures |ts| == 0 ==> r == Ok([])
    ensures |ts| > 0 && ParseStatement(ts, parseExpr).Err? ==> r == Err(ParseStatement(ts, parseExpr).error)
    ensures r.Ok? ==> |r.value| <= |ts|
    ensures r.Ok? && |ts| > 0 ==> ParseStatement(ts, parseExpr).Ok? && |r.value| > 0 && r.value[0] == ParseStatement(ts, parseExpr).value.0
    decreases |ts|
  {
    if |ts| == 0 then Ok([])
    else
      match ParseStatement(ts, parseExpr)
      case Err(e) => Err(e)
      case Ok((statement, rest)) =>
        match ParseProgram(rest, parseExpr)
        case Err(e) => Err(e)
        case Ok(statements) => Ok([statement] + statements)
  }

  /** `Program::evaluate`: every statement's output in order, or the first
      error. `corrected` picks the statement evaluation as written or the
      corrected one (see `Statements.EvaluateWith`). */
  function EvaluateProgramWith<E>(statements: seq<Statement<E>>, test: E -> Result<bool, Error>, corrected: bool): (r: Result<string, Error>)
    ensures r.Ok? <==> forall i :: 0 <= i < |statements| ==> EvaluateWith(statements[i], test, corrected).Ok?
    ensures r.Ok? ==> r.value == Outputs(statements, test, corrected)
  {
    EvaluateAllSpec(statements, test, corrected);
    EvaluateAllWith(statements, test, corrected)
  }

  /** `statements` in front of a parsed program; an error stays. */
  function Prepend<E>(statements: seq<Statement<E>>, r: Result<seq<Statement<E>>, Error>): Result<seq<Statement<E>>, Error>
  {
    match r
    case Err(e) => Err(e)
    case Ok(tail) => Ok(statements + tail)
  }

  lemma PrependTwice<E>(head: Statement<E>, statements: seq<Statement<E>>, r: Result<seq<Statement<E>>, Error>)
    ensures Prepend([head], Prepend(statements, r)) == Prepend([head] + statements, r)
  {
    if r.Ok? {
      assert [head] + (statements + r.value) == ([head] + statements) + r.value;
    }
  }

  /** One statement read off the front of the tokens. */
  lemma ParseProgramStep<E>(ts: seq<Token>, statement: Statement<E>, later: seq<Token>, parseExpr: ExprParser<E>)
    requires ParseStatement(ts, parseExpr) == Ok((statement, later))
    ensures ParseProgram(ts, parseExpr) == Prepend([statement], ParseProgram(later, parseExpr))
  {
  }

  /** Statements already read are prepended to the program parsed from the
      tokens that follow them; a failure there fails the whole. */
  lemma {:induction false} ParseProgramAfter<E(!new)>(statements: seq<Statement<E>>, rest: seq<Token>, parseExpr: ExprParser<E>, exprTokens: E -> seq<Token>)
    requires ReadsBack(parseExpr, exprTokens)
    requires forall i :: 0 <= i < |statements| ==> Shaped(statements[i])
    ensures ParseProgram(AllThen(statements, rest, exprTokens), parseExpr) == Prepend(statements, ParseProgram(rest, parseExpr))
    decreases |statements|
  {
    var after := ParseProgram(rest, parseExpr);
    if |statements| == 0 {
      if after.Ok? {
        assert statements + after.value == after.value;
      }
    } else {
      var later := AllThen(statements[1..], rest, exprTokens);
      assert AllThen(statements, rest, exprTokens) == TokensThen(statements[0], later, exprTokens);
      ParseTokens(statements[0], later, parseExpr, exprTokens);
      ParseProgramStep(AllThen(statements, rest, exprTokens), statements[0], later, parseExpr);
      assert forall i :: 0 <= i < |statements[1..]| ==> statements[1..][i] == statements[i + 1];
      ParseProgramAfter(statements[1..], rest, parseExpr, exprTokens);
      PrependTwice(statements[0], statements[1..], after);
      assert [statements[0]] + statements[1..] == statements;
    }
  }

  /** A program is read back from the tokens of its statements. */
  lemma ProgramRoundTrip<E(!new)>(statements: seq<Statement<E>>, parseExpr: ExprParser<E>, exprTokens: E -> seq<Token>)
    requires ReadsBack(parseExpr, exprTokens)
    requires forall i :: 0 <= i < |statements| ==> Shaped(statements[i])
    ensures ParseProgram(AllThen(statements, [], exprTokens), parseExpr) == Ok(statements)
  {
    ParseProgramAfter(statements, [], parseExpr, exprTokens);
    assert statements + [] == statements;
  }

  // ---------------------------------------------------------------------
  // A small expression language for the worked example: an expression is
  // its lexemes, read up to and including the `BlockEnd` that closes its
  // block; `a == b` compares constants by their text.

  function LexemeTokens(lexemes: seq<string>): seq<Token>
  {
    if |lexemes| == 0 then [] else [Expr(lexemes[0])] + LexemeTokens(lexemes[1..])
  }

  function ExprTokens(lexemes: seq<string>): seq<Token>
  {
    LexemeTokens(lexemes) + [BlockEnd]
  }

  /** Reads `Expr` tokens up to the closing `BlockEnd`. */
  function ReadLexemes(ts: seq<Token>): (r: Result<(seq<string>, nat), Error>)
    ensures r.Ok? ==> 0 < r.value.1 <= |ts| && ts[r.value.1 - 1] == BlockEnd
    decreases |ts|
  {
    if |ts| == 0 then Err(Eof)
    else if ts[0] == BlockEnd then Ok(([], 1))
    else if ts[0].Expr? then
      match ReadLexemes(ts[1..])
      case Err(e) => Err(e)
      case Ok((lexemes, n)) => Ok(([ts[0].lexeme] + lexemes, n + 1))
    else Err(Syntax(ts[0]))
  }

  lemma {:induction false} ReadLexemesTokens(lexemes: seq<string>, rest: seq<Token>)
    ensures ReadLexemes(ExprTokens(lexemes) + rest) == Ok((lexemes, |ExprTokens(lexemes)|))
    decreases |lexemes|
  {
    var ts := ExprTokens(lexemes) + rest;
    if |lexemes| == 0 {
      assert ts[0] == BlockEnd;
    } else {
      assert ts[0] == Expr(lexemes[0]);
      assert ts[1..] == ExprTokens(lexemes[1..]) + rest;
      ReadLexemesTokens(lexemes[1..], rest);
      assert [lexemes[0]] + lexemes[1..] == lexemes;
    }
  }

  lemma LexemesReadBack()
    ensures ReadsBack(ReadLexemes, ExprTokens)
  {
    forall e, rest
      ensures ReadLexemes(ExprTokens(e) + rest) == Ok((e, |ExprTokens(e)|))
    {
      ReadLexemesTokens(e, rest);
    }
  }

  function Compare(lexemes: seq<string>): Result<bool, Error>
  {
    if |lexemes| == 3 && lexemes[1] == "==" then Ok(lexemes[0] == lexemes[2])
    else Err(Failed("unsupported expression"))
  }

  /** `<html><body><% if 1 == 4 %>world is great<% else %>not so much<% end %></body></html>`. */
  function ExampleStatements(): seq<Statement<seq<string>>>
  {
    [ PrintText("<html><body>"),
      IfStatement(["1", "==", "4"], [PrintText("world is great"), ElseMarker], [PrintText("not so much")]),
      PrintText("</body></html>") ]
  }

  function ExampleTokens(): seq<Token>
  {
    [ Text("<html><body>"), BlockStart, If, Expr("1"), Expr("=="), Expr("4"), BlockEnd,
      Text("world is great"), BlockStart, Else, BlockEnd, Text("not so much"),
      BlockStart, End, BlockEnd, Text("</body></html>") ]
  }

  lemma ExampleConditionTokens()
    ensures ExprTokens(["1", "==", "4"]) == [Expr("1"), Expr("=="), Expr("4"), BlockEnd]
  {
    var l: seq<string> := ["1", "==", "4"];
    assert l[1..] == ["==", "4"] && l[1..][1..] == ["4"] && l[1..][1..][1..] == [];
    assert LexemeTokens(["4"]) == [Expr("4")];
    assert LexemeTokens(["==", "4"]) == [Expr("=="), Expr("4")];
  }

  /** The bodies of the example's conditional, then its closing block. */
  lemma ExampleBodyTokens(tail: seq<Token>)
    ensures AllThen([PrintText("world is great"), ElseMarker], AllThen([PrintText("not so much")], Closing(tail), ExprTokens), ExprTokens)
      == [Text("world is great"), BlockStart, Else, BlockEnd, Text("not so much"), BlockStart, End, BlockEnd] + tail
  {
    var elseBody: seq<Statement<seq<string>>> := [PrintText("not so much")];
    var ifBody: seq<Statement<seq<string>>> := [PrintText("world is great"), ElseMarker];
    assert elseBody[1..] == [];
    var elsePart := [Text("not so much")] + Closing(tail);
    assert AllThen(elseBody, Closing(tail), ExprTokens) == elsePart;
    assert ifBody[1..] == [ElseMarker] && ifBody[1..][1..] == [];
    assert AllThen(ifBody[1..], elsePart, ExprTokens) == [BlockStart, Else, BlockEnd] + elsePart;
  }

  lemma ExampleTokensOf()
    ensures AllThen(ExampleStatements(), [], ExprTokens) == ExampleTokens()
  {
    var ss := ExampleStatements();
    var tail := [Text("</body></html>")];
    assert ss[2..] == [PrintText("</body></html>")] && ss[2..][1..] == [];
    assert AllThen(ss[2..], [], ExprTokens) == tail;
    ExampleConditionTokens();
    ExampleBodyTokens(tail);
    assert ss[1..][1..] == ss[2..];
    assert AllThen(ss[1..], [], ExprTokens) == TokensThen(ss[1], tail, ExprTokens);
  }

  lemma ExampleShaped()
    ensures forall i :: 0 <= i < |ExampleStatements()| ==> Shaped(ExampleStatements()[i])
  {
  }

  /** Text, a conditional with an `else` branch whose test fails, text:
      the output is the outer text around the `else` branch. */
  lemma FalseConditionalOutput<E>(a: string, e: E, x: string, y: string, c: string, test: E -> Result<bool, Error>, corrected: bool)
    requires test(e) == Ok(false)
    ensures EvaluateAllWith([PrintText(a), IfStatement(e, [PrintText(x), ElseMarker], [PrintText(y)]), PrintText(c)], test, corrected)
      == Ok(a + (y + c))
  {
    var ss: seq<Statement<E>> := [PrintText(a), IfStatement(e, [PrintText(x), ElseMarker], [PrintText(y)]), PrintText(c)];
    var elseBody: seq<Statement<E>> := [PrintText(y)];
    assert EvaluateAllWith(elseBody[1..], test, corrected) == Ok("");
    assert EvaluateAllWith(elseBody, test, corrected) == Ok(y + "");
    assert y + "" == y;
    assert EvaluateAllWith(ss[1..][1..][1..], test, corrected) == Ok("");
    assert EvaluateAllWith(ss[1..][1..], test, corrected) == Ok(c + "");
    assert c + "" == c;
    assert ss[1].elseBody == elseBody && ss[1..][0] == ss[1];
    assert EvaluateWith(ss[1], test, corrected) == Ok(y);
    assert EvaluateAllWith(ss[1..], test, corrected) == Ok(y + c);
  }

  lemma ExampleParse()
    ensures ParseProgram(ExampleTokens(), ReadLexemes) == Ok(ExampleStatements())
  {
    LexemesReadBack();
    ExampleShaped();
    ExampleTokensOf();
    ProgramRoundTrip(ExampleStatements(), ReadLexemes, ExprTokens);
  }

  lemma ExampleText()
    ensures "<html><body>" + ("not so much" + "</body></html>") == "<html><body>not so much</body></html>"
  {
  }

  /** The template parses to its three statements and prints the `else`
      branch, since `1 == 4` does not hold; the `Else` marker is never
      evaluated, so the code as written gives the same output. */
  lemma ExampleProgram(corrected: bool)
    ensures ParseProgram(ExampleTokens(), ReadLexemes) == Ok(ExampleStatements())
    ensures EvaluateProgramWith(ExampleStatements(), Compare, corrected) == Ok("<html><body>not so much</body></html>")
  {
    ExampleParse();
    assert Compare(["1", "==", "4"]) == Ok(false);
    FalseConditionalOutput("<html><body>", ["1", "==", "4"], "world is great", "not so much", "</body></html>", Compare, corrected);
    ExampleText();
  }
}
