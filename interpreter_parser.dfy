/**
 * `x06_math_interpreter`: the same lexer and parser as x05, except that what
 * went wrong is now returned instead of panicking: `lex` returns an optional
 * error, and `eat`, `factor`, `term`, `expr` and `parse` return it to their
 * caller, which passes it on unchanged.  The only panic left is the `)` at
 * depth 0, where the unsigned depth counter would go below zero.
 */
module InterpreterParser {
  import opened Prelude
  import opened Lexemes
  import opened Lexing
  import opened Grammar

  class Lexer {
    var lexemes: seq<Lexeme>

    constructor()
      ensures lexemes == []
    {
      lexemes := [];
    }

    /** The digit case of `lex`: pop the last lexeme; a NUMBER is pushed back
        with the digit appended to its value, anything else is pushed back
        unchanged and followed by a new one-digit NUMBER.  (The errors for a
        failed `pop` and a failed `to_digit` cannot occur.) */
    method LexDigit(d: nat)
      modifies this
      ensures lexemes == PushDigit(old(lexemes), d)
    {
      PushDigitPopped(lexemes, d);
      if |lexemes| > 0 {
        var last := lexemes[|lexemes| - 1];
        ghost var stem := lexemes[..|lexemes| - 1];
        lexemes := lexemes[..|lexemes| - 1];
        assert lexemes == stem;
        if last.kind.NUMBER? {
          lexemes := lexemes + [Lexeme(last.value * 10 + d, LexemeKind.NUMBER)];
        } else {
          lexemes := lexemes + [last];
          assert lexemes == stem + [last];
          lexemes := lexemes + [Lexeme(d, LexemeKind.NUMBER)];
        }
      } else {
        lexemes := lexemes + [Lexeme(d, LexemeKind.NUMBER)];
      }
    }

    /** `lex`: `None` once every character has been lexed, or the first
        unexpected character and its index, with the lexemes pushed before it
        left in the vector.  A `)` at depth 0 still panics. */
    method Lex(source: string) returns (err: Option<LexError>)
      requires !Lexed(lexemes, source).Underflowed?
      modifies this
      ensures lexemes == Lexed(old(lexemes), source).lexemes
      ensures err == Lexed(old(lexemes), source).Error()
    {
      ghost var prior := lexemes;
      var depth: nat := 0;
      for i := 0 to |source|
        invariant Lexed(prior, source[..i]) == Scanning(lexemes, depth)
      {
        var ch := source[i];
        ghost var st := Scanning(lexemes, depth);
        LexedNext(prior, source, i);
        if IsWhitespace(ch) {
          StepSpace(st, ch, i);
          continue;
        }
        if IsDigit(ch) {
          StepDigit(st, ch, i);
          LexDigit(DigitValue(ch));
        } else if ch == '(' {
          StepOpen(st, ch, i);
          lexemes := lexemes + [Lexeme(depth, LPAREN)];
          depth := depth + 1;
        } else if ch == ')' {
          if depth == 0 {
            // The depth counter would underflow: excluded by the precondition.
            LexUnderflowsAt(prior, source, i);
            assert false;
          }
          StepClose(st, ch, i);
          depth := depth - 1;
          lexemes := lexemes + [Lexeme(depth, RPAREN)];
        } else {
          var kind := OperatorKind(ch);
          if kind.None? {
            LexRejectsAt(prior, source, i);
            return Some(UnexpectedChar(ch, i));
          }
          StepOperator(st, ch, i);
          lexemes := lexemes + [Lexeme(0, kind.value)];
        }
      }
      assert source[..|source|] == source;
      return None;
    }
  }

  /** The parser: the lexeme vector it took over from the lexer, and a cursor
      (`curr_index`, with `curr_lexeme` a copy of the lexeme under it).  The
      ghost field `rest` is the cursor's view of the vector, the lexemes from
      `curr_index` on, which is what the grammar functions read. */
  class Parser {
    var lexemes: seq<Lexeme>
    var currLexeme: Lexeme
    var currIndex: nat
    ghost var rest: seq<Lexeme>

    /** The cursor invariant: in bounds, `curr_lexeme` is the lexeme under it,
        and the vector ends with the Nil sentinel, which is never eaten. */
    ghost predicate Valid()
      reads this
    {
      currIndex < |lexemes| && currLexeme == lexemes[currIndex] && EndsWithNil(lexemes) &&
      rest == lexemes[currIndex..]
    }

    /** A parser over the lexemes of `lexer`, the cursor on a Nil placeholder. */
    constructor(lexer: Lexer)
      ensures lexemes == lexer.lexemes && currLexeme == NilLexeme && currIndex == 0
    {
      lexemes := lexer.lexemes;
      currLexeme := NilLexeme;
      currIndex := 0;
    }

    /** `parse`: append the sentinel, start at index 0 and parse one `expr`.
        Any lexemes after that `expr` are left unread, and so never reported. */
    method Parse() returns (result: Result<ASTNode, ParseError>)
      modifies this
      ensures lexemes == old(lexemes) + [NilLexeme] && Valid()
      ensures ParseExpr(lexemes) == Parsed(result, rest)
    {
      currIndex := 0;
      lexemes := lexemes + [NilLexeme];
      currLexeme := lexemes[currIndex];
      rest := lexemes;
      result := Expr();
    }

    /** `eat`: step over the current lexeme if it is of `kind`, and otherwise
        report the kind that was expected and leave the cursor where it is.
        Stepping must not run off the end of the vector. */
    method Eat(kind: LexemeKind) returns (err: Option<ParseError>)
      requires Valid() && (currLexeme.kind == kind ==> currIndex + 1 < |lexemes|)
      modifies this
      ensures Valid() && lexemes == old(lexemes)
      ensures old(currLexeme).kind == kind ==>
        err == None && currIndex == old(currIndex) + 1 && rest == old(rest)[1..]
      ensures old(currLexeme).kind != kind ==>
        err == Some(UnexpectedKind(kind)) && currIndex == old(currIndex) && rest == old(rest)
    {
      if currLexeme.kind == kind {
        currIndex := currIndex + 1;
        currLexeme := lexemes[currIndex];
        rest := rest[1..];
        err := None;
      } else {
        err := Some(UnexpectedKind(kind));
      }
    }

    method Factor() returns (result: Result<ASTNode, ParseError>)
      requires Valid()
      modifies this
      ensures Valid() && lexemes == old(lexemes)
      ensures ParseFactor(old(rest)) == Parsed(result, rest)
      decreases |rest|, 0
    {
      var token := currLexeme;
      if token.kind == LexemeKind.NUMBER {
        var err := Eat(LexemeKind.NUMBER);
        if err.Some? {
          // The kind was just checked.
          assert false;
        }
        return Ok(Leaf(token.value));
      } else if token.kind == LPAREN {
        var err := Eat(LPAREN);
        if err.Some? {
          assert false;
        }
        var node := Expr();
        if node.Err? {
          return node;
        }
        err := Eat(RPAREN);
        if err.Some? {
          return Err(err.value);
        }
        return node;
      } else {
        return Err(ExpectedOperand(currLexeme));
      }
    }

    method Term() returns (result: Result<ASTNode, ParseError>)
      requires Valid()
      modifies this
      ensures Valid() && lexemes == old(lexemes)
      ensures ParseTerm(old(rest)) == Parsed(result, rest)
      decreases |rest|, 1
    {
      ghost var ts := rest;
      var first := Factor();
      if first.Err? {
        return first;
      }
      var node := first.value;
      TermOfFactor(ts, node, rest);
      while currLexeme.kind == LexemeKind.MUL || currLexeme.kind == LexemeKind.DIV
        invariant Valid() && lexemes == old(lexemes)
        invariant ParseTerm(ts) == TermTail(node, rest)
        decreases |rest|
      {
        var token := currLexeme;
        TermTailNext(node, rest);
        if token.kind == LexemeKind.MUL {
          var err := Eat(LexemeKind.MUL);
          if err.Some? {
            assert false;
          }
        }
        if token.kind == LexemeKind.DIV {
          var err := Eat(LexemeKind.DIV);
          if err.Some? {
            assert false;
          }
        }
        var right := Factor();
        if right.Err? {
          return right;
        }
        node := Binary(AstKind(token.kind), node, right.value);
      }
      TermTailStop(node, rest);
      return Ok(node);
    }

    method Expr() returns (result: Result<ASTNode, ParseError>)
      requires Valid()
      modifies this
      ensures Valid() && lexemes == old(lexemes)
      ensures ParseExpr(old(rest)) == Parsed(result, rest)
      decreases |rest|, 2
    {
      ghost var ts := rest;
      var first := Term();
      if first.Err? {
        return first;
      }
      var node := first.value;
      ExprOfTerm(ts, node, rest);
      while currLexeme.kind == PLUS || currLexeme.kind == MINUS
        invariant Valid() && lexemes == old(lexemes)
        invariant ParseExpr(ts) == ExprTail(node, rest)
        decreases |rest|
      {
        var token := currLexeme;
        ExprTailNext(node, rest);
        if token.kind == PLUS {
          var err := Eat(PLUS);
          if err.Some? {
            assert false;
          }
        }
        if token.kind == MINUS {
          var err := Eat(MINUS);
          if err.Some? {
            assert false;
          }
        }
        var right := Term();
        if right.Err? {
          return right;
        }
        node := Binary(AstKind(token.kind), node, right.value);
      }
      ExprTailStop(node, rest);
      return Ok(node);
    }
  }
}
