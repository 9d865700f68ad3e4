/**
 * `x05_math_parser`: the lexer again (now with the Nil kind and `u64` values)
 * and the first recursive-descent parser.  Everything that goes wrong panics:
 * an unexpected character, a `)` at depth 0, an `eat` of the wrong kind and a
 * `factor` that finds no operand.  Each method therefore requires that its
 * reference function (`Lexing.Lexed`, `Grammar.ParseFactor` ...) does not
 * report an error, and promises to compute exactly what that function says.
 */
module MathParser {
  import opened Prelude
  import opened Lexemes
  import opened Lexing
  import opened Grammar

  class Lexer {
    var lexemes: seq<Lexeme>

    constructor()
      ensures lexemes == []
    {
      lexemes := [];
    }

    /** The digit case of `lex`: pop the last lexeme; a NUMBER is pushed back
        with the digit appended to its value, anything else is pushed back
        unchanged and followed by a new one-digit NUMBER. */
    method LexDigit(d: nat)
      modifies this
      ensures lexemes == PushDigit(old(lexemes), d)
    {
      PushDigitPopped(lexemes, d);
      if |lexemes| > 0 {
        var last := lexemes[|lexemes| - 1];
        ghost var stem := lexemes[..|lexemes| - 1];
        lexemes := lexemes[..|lexemes| - 1];
        assert lexemes == stem;
        if last.kind.NUMBER? {
          lexemes := lexemes + [Lexeme(last.value * 10 + d, LexemeKind.NUMBER)];
        } else {
          lexemes := lexemes + [last];
          assert lexemes == stem + [last];
          lexemes := lexemes + [Lexeme(d, LexemeKind.NUMBER)];
        }
      } else {
        lexemes := lexemes + [Lexeme(d, LexemeKind.NUMBER)];
      }
    }

    /** `lex`, which panics on an unexpected character and on a `)` at depth 0,
        so those inputs are not allowed. */
    method Lex(source: string)
      requires Lexed(lexemes, source).Scanning?
      modifies this
      ensures lexemes == Lexed(old(lexemes), source).lexemes
    {
      ghost var prior := lexemes;
      var depth: nat := 0;
      for i := 0 to |source|
        invariant Lexed(prior, source[..i]) == Scanning(lexemes, depth)
      {
        var ch := source[i];
        ghost var st := Scanning(lexemes, depth);
        LexedNext(prior, source, i);
        ScanningPrefix(prior, source, i + 1);
        if IsWhitespace(ch) {
          StepSpace(st, ch, i);
          continue;
        }
        if IsDigit(ch) {
          StepDigit(st, ch, i);
          LexDigit(DigitValue(ch));
        } else if ch == '(' {
          StepOpen(st, ch, i);
          lexemes := lexemes + [Lexeme(depth, LPAREN)];
          depth := depth + 1;
        } else if ch == ')' {
          StepClose(st, ch, i);
          depth := depth - 1;
          lexemes := lexemes + [Lexeme(depth, RPAREN)];
        } else {
          var kind := OperatorKind(ch);
          if kind.None? {
            // "Unexpected char": excluded by the precondition.
            assert false;
          }
          StepOperator(st, ch, i);
          lexemes := lexemes + [Lexeme(0, kind.value)];
        }
      }
      assert source[..|source|] == source;
    }
  }

  /** The parser: the lexeme vector it took over from the lexer, and a cursor
      (`curr_index`, with `curr_lexeme` a copy of the lexeme under it).  The
      ghost field `rest` is the cursor's view of the vector, the lexemes from
      `curr_index` on, which is what the grammar functions read. */
  class Parser {
    var lexemes: seq<Lexeme>
    var currLexeme: Lexeme
    var currIndex: nat
    ghost var rest: seq<Lexeme>

    /** The cursor invariant: in bounds, `curr_lexeme` is the lexeme under it,
        and the vector ends with the Nil sentinel, which is never eaten. */
    ghost predicate Valid()
      reads this
    {
      currIndex < |lexemes| && currLexeme == lexemes[currIndex] && EndsWithNil(lexemes) &&
      rest == lexemes[currIndex..]
    }

    /** A parser over the lexemes of `lexer`, the cursor on a Nil placeholder. */
    constructor(lexer: Lexer)
      ensures lexemes == lexer.lexemes && currLexeme == NilLexeme && currIndex == 0
    {
      lexemes := lexer.lexemes;
      currLexeme := NilLexeme;
      currIndex := 0;
    }

    /** `parse`: append the sentinel, start at index 0 and parse one `expr`.
        Any lexemes after that `expr` are left unread. */
    method Parse() returns (node: ASTNode)
      requires ParseExpr(lexemes + [NilLexeme]).result.Ok?
      modifies this
      ensures lexemes == old(lexemes) + [NilLexeme] && Valid()
      ensures ParseExpr(lexemes) == Parsed(Ok(node), rest)
    {
      currIndex := 0;
      lexemes := lexemes + [NilLexeme];
      currLexeme := lexemes[currIndex];
      rest := lexemes;
      node := Expr();
    }

    /** `eat`: step over the current lexeme, which must be of `kind` (it panics
        otherwise) and must not be the last one (the index would run off the end). */
    method Eat(kind: LexemeKind)
      requires Valid() && currLexeme.kind == kind && currIndex + 1 < |lexemes|
      modifies this
      ensures Valid() && lexemes == old(lexemes) && currIndex == old(currIndex) + 1
      ensures rest == old(rest)[1..]
    {
      currIndex := currIndex + 1;
      currLexeme := lexemes[currIndex];
      rest := rest[1..];
    }

    method Factor() returns (node: ASTNode)
      requires Valid() && ParseFactor(rest).result.Ok?
      modifies this
      ensures Valid() && lexemes == old(lexemes)
      ensures ParseFactor(old(rest)) == Parsed(Ok(node), rest)
      decreases |rest|, 0
    {
      var token := currLexeme;
      if token.kind == LexemeKind.NUMBER {
        Eat(LexemeKind.NUMBER);
        node := Leaf(token.value);
      } else if token.kind == LPAREN {
        Eat(LPAREN);
        node := Expr();
        Eat(RPAREN);
      } else {
        // "Unexpected token ..., was expecting NUMBER or LPAREN": excluded.
        assert false;
      }
    }

    method Term() returns (node: ASTNode)
      requires Valid() && ParseTerm(rest).result.Ok?
      modifies this
      ensures Valid() && lexemes == old(lexemes)
      ensures ParseTerm(old(rest)) == Parsed(Ok(node), rest)
      decreases |rest|, 1
    {
      ghost var ts := rest;
      node := Factor();
      TermOfFactor(ts, node, rest);
      while currLexeme.kind == LexemeKind.MUL || currLexeme.kind == LexemeKind.DIV
        invariant Valid() && lexemes == old(lexemes)
        invariant ParseTerm(ts) == TermTail(node, rest)
        decreases |rest|
      {
        var token := currLexeme;
        TermTailNext(node, rest);
        if token.kind == LexemeKind.MUL {
          Eat(LexemeKind.MUL);
        }
        if token.kind == LexemeKind.DIV {
          Eat(LexemeKind.DIV);
        }
        var right := Factor();
        node := Binary(AstKind(token.kind), node, right);
      }
      TermTailStop(node, rest);
    }

    method Expr() returns (node: ASTNode)
      requires Valid() && ParseExpr(rest).result.Ok?
      modifies this
      ensures Valid() && lexemes == old(lexemes)
      ensures ParseExpr(old(rest)) == Parsed(Ok(node), rest)
      decreases |rest|, 2
    {
      ghost var ts := rest;
      node := Term();
      ExprOfTerm(ts, node, rest);
      while currLexeme.kind == PLUS || currLexeme.kind == MINUS
        invariant Valid() && lexemes == old(lexemes)
        invariant ParseExpr(ts) == ExprTail(node, rest)
        decreases |rest|
      {
        var token := currLexeme;
        ExprTailNext(node, rest);
        if token.kind == PLUS {
          Eat(PLUS);
        }
        if token.kind == MINUS {
          Eat(MINUS);
        }
        var right := Term();
        node := Binary(AstKind(token.kind), node, right);
      }
      ExprTailStop(node, rest);
    }
  }
}
