/**
 * Worked parses of small lexeme vectors (each ends with the Nil sentinel that
 * `parse` appends, and parentheses carry the depth the lexer records).
 */
module GrammarExamples {
  import opened Prelude
  import opened Lexemes
  import opened Grammar

  function Num(v: nat): Lexeme { Lexeme(v, LexemeKind.NUMBER) }

  function Op(k: LexemeKind): Lexeme { Lexeme(0, k) }

  /** `1-2-3`: operators of one level nest to the left. */
  lemma ExampleLeftAssociative()
    ensures ParseExpr([Num(1), Op(MINUS), Num(2), Op(MINUS), Num(3), NilLexeme])
         == Parsed(Ok(Binary(SUB, Binary(SUB, Leaf(1), Leaf(2)), Leaf(3))), [NilLexeme])
  {
    var t := Binary(SUB, Binary(SUB, Leaf(1), Leaf(2)), Leaf(3));
    assert Print(t, 0) + [NilLexeme] == [Num(1), Op(MINUS), Num(2), Op(MINUS), Num(3), NilLexeme];
    ParsePrinted(t, [NilLexeme]);
  }

  /** `1+2*3`: `*` binds tighter than `+`. */
  lemma ExamplePrecedence()
    ensures ParseExpr([Num(1), Op(PLUS), Num(2), Op(LexemeKind.MUL), Num(3), NilLexeme])
         == Parsed(Ok(Binary(ADD, Leaf(1), Binary(ASTNodeKind.MUL, Leaf(2), Leaf(3)))), [NilLexeme])
  {
    var t := Binary(ADD, Leaf(1), Binary(ASTNodeKind.MUL, Leaf(2), Leaf(3)));
    assert Print(t, 0) + [NilLexeme] == [Num(1), Op(PLUS), Num(2), Op(LexemeKind.MUL), Num(3), NilLexeme];
    ParsePrinted(t, [NilLexeme]);
  }

  /** `(1+2)*3`: the parentheses regroup and leave no node of their own. */
  lemma ExampleParentheses()
    ensures ParseExpr([Op(LPAREN), Num(1), Op(PLUS), Num(2), Op(RPAREN), Op(LexemeKind.MUL), Num(3), NilLexeme])
         == Parsed(Ok(Binary(ASTNodeKind.MUL, Binary(ADD, Leaf(1), Leaf(2)), Leaf(3))), [NilLexeme])
  {
    var t := Binary(ASTNodeKind.MUL, Binary(ADD, Leaf(1), Leaf(2)), Leaf(3));
    assert Print(t, 0) + [NilLexeme]
        == [Op(LPAREN), Num(1), Op(PLUS), Num(2), Op(RPAREN), Op(LexemeKind.MUL), Num(3), NilLexeme];
    ParsePrinted(t, [NilLexeme]);
  }

  /** `1(2)`: the parse stops after `1` and the rest is silently left over. */
  lemma ExampleTrailingIgnored()
    ensures ParseExpr([Num(1), Op(LPAREN), Num(2), Op(RPAREN), NilLexeme])
         == Parsed(Ok(Leaf(1)), [Op(LPAREN), Num(2), Op(RPAREN), NilLexeme])
  {
    var rest := [Op(LPAREN), Num(2), Op(RPAREN), NilLexeme];
    assert Print(Leaf(1), 0) + rest == [Num(1), Op(LPAREN), Num(2), Op(RPAREN), NilLexeme];
    ParsePrinted(Leaf(1), rest);
  }

  /** Empty input: `factor` finds the sentinel instead of an operand. */
  lemma ExampleEmpty()
    ensures ParseExpr([NilLexeme]) == Parsed(Err(ExpectedOperand(NilLexeme)), [NilLexeme])
  {
    MissingOperand([NilLexeme]);
  }

  /** `1+`: the operand after `+` is missing. */
  lemma ExampleMissingOperand()
    ensures ParseExpr([Num(1), Op(PLUS), NilLexeme]) == Parsed(Err(ExpectedOperand(NilLexeme)), [NilLexeme])
  {
    var rest := [Op(PLUS), NilLexeme];
    assert [Num(1), Op(PLUS), NilLexeme] == Print(Leaf(1), 0) + rest;
    ExprPrinted(Leaf(1), rest);
    assert rest[1..] == [NilLexeme];
    MissingOperand([NilLexeme]);
    ExprTailFails(Leaf(1), rest);
  }

  /** `(1`: the closing parenthesis is missing. */
  lemma ExampleUnclosed()
    ensures ParseExpr([Op(LPAREN), Num(1), NilLexeme]) == Parsed(Err(UnexpectedKind(RPAREN)), [NilLexeme])
  {
    var ts := [Op(LPAREN), Num(1), NilLexeme];
    assert ts[1..] == Print(Leaf(1), 0) + [NilLexeme];
    ParsePrinted(Leaf(1), [NilLexeme]);
    MissingClose(ts);
  }
}
