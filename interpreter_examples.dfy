/**
 * Whole lines of the interpreter: the characters are lexed, the sentinel is
 * appended, the lexemes are parsed and the tree is evaluated.
 */
module InterpreterExamples {
  import opened Prelude
  import opened Lexemes
  import opened Lexing
  import opened Grammar
  import opened GrammarExamples
  import opened Interpreter

  /** `1+2`, the first three characters of the line below. */
  lemma {:induction false} ExampleLexOnePlusTwo()
    ensures Lexed([], "1+2") == Scanning([Num(1), Op(PLUS), Num(2)], 0)
  {
    LexedSnoc([], "", '1');
    StepDigit(Scanning([], 0), '1', 0);
    assert Lexed([], "1") == Scanning([Num(1)], 0);
    LexedSnoc([], "1", '+');
    StepOperator(Lexed([], "1"), '+', 1);
    assert Lexed([], "1+") == Scanning([Num(1), Op(PLUS)], 0);
    LexedSnoc([], "1+", '2');
    StepDigit(Lexed([], "1+"), '2', 2);
  }

  /** `1+2*3` lexes to five lexemes at depth 0. */
  lemma {:induction false} ExampleLexSeven()
    ensures Lexed([], "1+2*3") == Scanning([Num(1), Op(PLUS), Num(2), Op(LexemeKind.MUL), Num(3)], 0)
  {
    ExampleLexOnePlusTwo();
    var s := "1+2";
    LexedSnoc([], s, '*');
    assert s + ['*'] == "1+2*";
    LexedSnoc([], s + ['*'], '3');
    assert s + ['*'] + ['3'] == "1+2*3";
  }

  /** The line `1+2*3` evaluates to 7. */
  lemma {:induction false} ExampleSeven()
    ensures var p := ParseExpr(Lexed([], "1+2*3").lexemes + [NilLexeme]);
      p.result.Ok? && Complete(p.result.value) && Visit(p.result.value) == Ok(7.0)
  {
    ExampleLexSeven();
    assert Lexed([], "1+2*3").lexemes + [NilLexeme]
        == [Num(1), Op(PLUS), Num(2), Op(LexemeKind.MUL), Num(3), NilLexeme];
    ExamplePrecedence();
  }

  /** `(1+2)*3` evaluates to 9. */
  lemma ExampleNine()
    ensures var p := ParseExpr([Op(LPAREN), Num(1), Op(PLUS), Num(2), Op(RPAREN), Op(LexemeKind.MUL), Num(3), NilLexeme]);
      p.result.Ok? && Complete(p.result.value) && Visit(p.result.value) == Ok(9.0)
  {
    ExampleParentheses();
  }

  /** `1-2-3` evaluates to -4: the subtractions are done from the left. */
  lemma ExampleMinusFour()
    ensures var p := ParseExpr([Num(1), Op(MINUS), Num(2), Op(MINUS), Num(3), NilLexeme]);
      p.result.Ok? && Complete(p.result.value) && Visit(p.result.value) == Ok(-4.0)
  {
    ExampleLeftAssociative();
  }

  /** `1/0` is a division by zero. */
  lemma ExampleDivisionByZero()
    ensures var p := ParseExpr([Num(1), Op(LexemeKind.DIV), Num(0), NilLexeme]);
      p.result.Ok? && Complete(p.result.value) && Visit(p.result.value) == Err(DivisionByZero)
  {
    var t := Binary(ASTNodeKind.DIV, Leaf(1), Leaf(0));
    assert Print(t, 0) + [NilLexeme] == [Num(1), Op(LexemeKind.DIV), Num(0), NilLexeme];
    ParsePrinted(t, [NilLexeme]);
  }
}
