/**
 * `x04_math_lexer`: the first lexer.  Its `LexemeKind` has no Nil (there is no
 * parser yet), it carries `u128` values, and it panics where later versions
 * return an error: on an unexpected character and on a `)` at depth 0.
 */
module MathLexer {
  import opened Lexemes
  import opened Lexing

  /** A lexeme of x04: every kind but the Nil sentinel, which it does not have. */
  type PlainLexeme = x: Lexeme | !x.kind.Nil? witness Lexeme(0, LexemeKind.NUMBER)

  class Lexer {
    var lexemes: seq<PlainLexeme>

    constructor()
      ensures lexemes == []
    {
      lexemes := [];
    }

    /** The digit case of `lex`: pop the last lexeme; a NUMBER is pushed back
        with the digit appended to its value, anything else is pushed back
        unchanged and followed by a new one-digit NUMBER. */
    method LexDigit(d: nat)
      modifies this
      ensures lexemes == PushDigit(old(lexemes), d)
    {
      PushDigitPopped(lexemes, d);
      if |lexemes| > 0 {
        var last := lexemes[|lexemes| - 1];
        ghost var stem := lexemes[..|lexemes| - 1];
        lexemes := lexemes[..|lexemes| - 1];
        assert lexemes == stem;
        if last.kind.NUMBER? {
          lexemes := lexemes + [Lexeme(last.value * 10 + d, LexemeKind.NUMBER)];
        } else {
          lexemes := lexemes + [last];
          assert lexemes == stem + [last];
          lexemes := lexemes + [Lexeme(d, LexemeKind.NUMBER)];
        }
      } else {
        lexemes := lexemes + [Lexeme(d, LexemeKind.NUMBER)];
      }
    }

    /** `lex`: one pass over the characters of `source`, appending to `lexemes`.
        It panics on an unexpected character and on a `)` at depth 0, so those
        inputs are not allowed; `Lexing.LexStopsAt` says exactly which they are. */
    method Lex(source: string)
      requires Lexed(lexemes, source).Scanning?
      modifies this
      ensures lexemes == Lexed(old(lexemes), source).lexemes
    {
      ghost var prior := lexemes;
      var depth: nat := 0;
      for i := 0 to |source|
        invariant Lexed(prior, source[..i]) == Scanning(lexemes, depth)
      {
        var ch := source[i];
        ghost var st := Scanning(lexemes, depth);
        LexedNext(prior, source, i);
        ScanningPrefix(prior, source, i + 1);
        if IsWhitespace(ch) {
          StepSpace(st, ch, i);
          continue;
        }
        if IsDigit(ch) {
          StepDigit(st, ch, i);
          LexDigit(DigitValue(ch));
        } else if ch == '(' {
          StepOpen(st, ch, i);
          lexemes := lexemes + [Lexeme(depth, LPAREN)];
          depth := depth + 1;
        } else if ch == ')' {
          StepClose(st, ch, i);
          depth := depth - 1;
          lexemes := lexemes + [Lexeme(depth, RPAREN)];
        } else {
          var kind := OperatorKind(ch);
          if kind.None? {
            // "Unexpected char": excluded by the precondition.
            assert false;
          }
          StepOperator(st, ch, i);
          lexemes := lexemes + [Lexeme(0, kind.value)];
        }
      }
      assert source[..|source|] == source;
    }
  }
}
