# rust-training arithmetic front end, in Dafny

A model of the successive versions of a small arithmetic front end in Rust, plus a Fibonacci exercise, with proofs about each.

The front end has three versions that share one design:
- `x04_math_lexer` is a lexer only.
- `x05_math_parser` adds a recursive-descent parser. This version panics on every error.
- `x06_math_interpreter` returns its errors instead of panicking, and adds a tree-walking evaluator.

The grammar is the one `x06` prints:
- `expr : term ((PLUS | MINUS) term)*`
- `term : factor ((MUL | DIV) factor)*`
- `factor : INTEGER | LPAREN expr RPAREN`

The lexer turns characters into `Lexeme`s:
- a run of digits becomes one NUMBER with its decimal value;
- an operator becomes a lexeme with value 0;
- `(` and `)` carry the parenthesis depth.

The parser keeps a cursor into the lexeme vector, with the Nil sentinel appended at the end. It builds an `ASTNode` tree, and `ast_visitor` evaluates that tree.

## Structure

- `prelude.dfy` (`Prelude`): `Option` and `Result`.
- `lexemes.dfy` (`Lexemes`): the shared data model. It holds:
  - `LexemeKind`, `Lexeme`, `ASTNodeKind` and `ASTNode`;
  - the conversion `astnode_kind_from_lexeme_type` (`AstKind`);
  - the two tree-shape predicates, `Complete` and `WellFormed`.
- `lexing.dfy` (`Lexing`): the specification of one run of `lex`.
  - `Lexed(prior, s)` is the state after lexing the string `s` onto the lexemes `prior`. It is a left fold of `Step`, which models one iteration of the loop.
  - The state is one of three:
    - `Scanning(lexemes, depth)`;
    - `Rejected(lexemes, UnexpectedChar(ch, position))`;
    - `Underflowed(lexemes, position)`, for a `)` at depth 0.
  - The file also holds the lemmas about that function.
- `grammar.dfy` (`Grammar`): the specification of the parser as functions on the lexemes left under the cursor: `ParseFactor`, `ParseTerm`, `TermTail`, `ParseExpr` and `ExprTail`. Each returns the rule's result and the lexemes left. It also holds the lemmas about them:
  - soundness: what is left is a suffix, Nil is never eaten, and an error names the lexeme under the cursor;
  - flattening: the leaves and operators in order are the consumed lexemes without parentheses;
  - printing: parsing the minimally parenthesised printing of a tree gives the tree back;
  - the error cases.
- `grammar_examples.dfy` (`GrammarExamples`): worked parses.
- `math_lexer.dfy` (`MathLexer`): the `x04` `Lexer` class. Its lexemes cannot be Nil.
- `math_parser.dfy` (`MathParser`): the `x05` `Lexer` and `Parser` classes. Every panic of the source is a precondition.
- `interpreter_parser.dfy` (`InterpreterParser`): the `x06` `Lexer` and `Parser` classes. They return the source's errors as `LexError` and `ParseError` values.
- `interpreter.dfy` (`Interpreter`): `ast_visitor` as `Visit`. `ReadExpr` is a reference semantics that computes the value while reading the lexemes, and `ExprEvaluates` proves that parsing then evaluating agrees with it.
- `interpreter_examples.dfy` (`InterpreterExamples`): whole lines evaluated.
- `fibonacci.dfy` (`Fibonacci`): `fib` as a function and `fib2` as a method with its vector stack.

The methods of the classes are proved against the specification functions:
- `Lex` ends with `lexemes == Lexed(old(lexemes), source).lexemes`.
- `Factor`, `Term` and `Expr` end with `ParseX(old(rest)) == Parsed(result, rest)`. Here `rest` is a ghost field holding the lexemes from `curr_index` on.

So every property proved about `Lexed` and `ParseExpr` holds for the classes.

The same functions relate the versions to each other:
- `MathParser.Parser.Parse` requires `ParseExpr(...)` to succeed, and returns its tree.
- `InterpreterParser.Parser.Parse` returns exactly `ParseExpr(...)`'s result.

So on the same lexemes, `x05` builds the same tree wherever `x06` succeeds, and it is refused (it panics) exactly where `x06` returns an error. The lexers relate in the same way:
- the `x04` and `x05` lexers require `Lexed(...).Scanning?`;
- the `x06` lexer returns `Lexed(...).Error()`, which is an error exactly when the state is `Rejected`.

Two behaviours of the code are worth stating, and the model keeps both:
- `parse` never checks that the cursor reached Nil (`x06_math_interpreter/src/parser.rs:191-198`). The grammar printed by `main` (`x06_math_interpreter/src/main.rs:35-37`) says nothing about lexemes after `expr`, and those are silently ignored rather than reported (`GrammarExamples.ExampleTrailingIgnored`).
- A failed `eat` builds the message "Got unexpected token type: …" from the kind it was asked for, not the lexeme it found (`x06_math_interpreter/src/parser.rs:206`). The model's error carries that expected kind (`Grammar.ParseError.UnexpectedKind`).

## Model

| member | source | states |
|---|---|---|
| Lexemes.Leaf | x06_math_interpreter/src/parser.rs:219-220 | the NUMBER node `factor` builds has no children, so `ast_visitor` cannot panic on it, and it is well-formed exactly when its value is non-negative |
| Lexemes.AstKind | x06_math_interpreter/src/parser.rs:177-188 | only NUMBER and the four operator kinds convert; NUMBER becomes a NUMBER node and nothing else does, and `LexemeKindOf` undoes the conversion |
| Lexemes.LexemeKindOf | x06_math_interpreter/src/parser.rs:177-183 | every node kind comes from a kind the conversion accepts |
| Lexemes.KindRoundTrip | x06_math_interpreter/src/parser.rs:177-183 | converting a node kind back and forth gives it unchanged, so the conversion is one-to-one |
| Lexemes.Binary | x06_math_interpreter/src/parser.rs:265-272 | an operator node with two well-formed children is well-formed |
| Lexemes.WellFormedIsComplete | x06_math_interpreter/src/main.rs:10-18 | every operator node of a well-formed tree has both children, at every depth |
| Lexing.DigitValue | x06_math_interpreter/src/parser.rs:79-80 | `to_digit(10)` of a digit is below 10 |
| Lexing.OperatorKind | x06_math_interpreter/src/parser.rs:109-119 | exactly `+ - * /` have a kind, each an operator kind, and none of them is whitespace, a digit or a parenthesis, so the earlier branches never see them |
| Lexing.Classify | x06_math_interpreter/src/parser.rs:65-121 | a digit class carries a value below 10 and an operator class an operator kind |
| Lexing.PushDigit | x06_math_interpreter/src/parser.rs:69-101 | the vector ends in a NUMBER; it keeps its length exactly when it already ended in a NUMBER, and otherwise grows by one; every lexeme before the last is unchanged |
| Lexing.PushDigitDecimal | x06_math_interpreter/src/parser.rs:79-80 | the pushed digit becomes the last decimal digit of the NUMBER, whose leading digits are the old value (or nothing, for a new NUMBER) |
| Lexing.StepOn | x06_math_interpreter/src/parser.rs:64-122 | one iteration on a classified character: a stopped run is left as it is, a run that stops keeps its lexemes, and at most one lexeme is pushed and none removed |
| Lexing.Step | x06_math_interpreter/src/parser.rs:64-122 | one iteration on a character: it rejects exactly the characters `lex` does not accept, reporting the character and its index, and underflows only at a `)` at depth 0 |
| Lexing.Lexed | x06_math_interpreter/src/parser.rs:61-125 | `lex` as a fold of `Step` over the characters, starting at depth 0; the vector never shrinks (the other lemmas of this section state what it holds) |
| Lexing.LexedSnoc | x06_math_interpreter/src/parser.rs:64-123 | lexing one more character is one more loop iteration on the state reached so far |
| Lexing.LexedNext | x06_math_interpreter/src/parser.rs:64-123 | the loop's view: the state after character `i` is one step on from the state before it |
| Lexing.LexedHalts | x06_math_interpreter/src/parser.rs:116-118 | once `lex` has stopped, later characters change nothing |
| Lexing.ScanningPrefix | x05_math_parser/src/parser/mod.rs:105-118 | if the whole input lexes without stopping, so does every prefix |
| Lexing.StepSpace | x06_math_interpreter/src/parser.rs:65-67 | a whitespace character leaves the state unchanged |
| Lexing.StepDigit | x06_math_interpreter/src/parser.rs:69-101 | a digit merges into the last lexeme if it is a NUMBER, and otherwise starts a new one |
| Lexing.PushDigitPopped | x06_math_interpreter/src/parser.rs:70-100 | popping the last lexeme and pushing it back, merged or followed by a new NUMBER, gives that same vector |
| Lexing.StepOpen | x06_math_interpreter/src/parser.rs:102-104 | `(` pushes one LPAREN carrying the depth before it, and then increments the depth |
| Lexing.StepClose | x06_math_interpreter/src/parser.rs:105-107 | `)` at depth 0 stops the run as an underflow; otherwise it decrements the depth and pushes one RPAREN carrying the new depth |
| Lexing.StepOperator | x06_math_interpreter/src/parser.rs:108-121 | each of `+ - * /` pushes exactly one lexeme of its kind with value 0 |
| Lexing.StepOther | x06_math_interpreter/src/parser.rs:116-118 | any other character stops the run with the character and its 0-based index, and keeps the lexemes pushed so far |
| Lexing.DecimalSnoc | x06_math_interpreter/src/parser.rs:79 | one more digit multiplies the decimal value by ten and adds the digit; whitespace changes nothing |
| Lexing.LexDigitRun | x06_math_interpreter/src/parser.rs:65-101 | a run of digits and whitespace lexes to one NUMBER whose value is the decimal value of its digits, continuing a NUMBER already last in the vector |
| Lexing.DigitsSpellValue | x06_math_interpreter/src/parser.rs:69-101 | every character of the decimal spelling of `v` is a digit, and its decimal value is `v` |
| Lexing.LexRender | x06_math_interpreter/src/parser.rs:64-125 | lexing the text of a canonical lexeme sequence gives that sequence back, with the depth equal to the number of unclosed parentheses |
| Lexing.CanonicalSnoc | x06_math_interpreter/src/parser.rs:102-121 | appending a lexeme that fits keeps a sequence canonical and updates its balance by one step |
| Lexing.PushDigitCanonical | x06_math_interpreter/src/parser.rs:69-101 | the digit case keeps the vector canonical and its parenthesis balance unchanged |
| Lexing.StepCanonical | x06_math_interpreter/src/parser.rs:64-123 | every iteration keeps a fresh lexer's vector canonical and its depth equal to the balance |
| Lexing.LexedIsCanonical | x06_math_interpreter/src/parser.rs:78-121 | a fresh lexer produces no Nil, no two adjacent NUMBERs and operators of value 0; each parenthesis carries its depth, and the depth is the number of unclosed `(` |
| Lexing.LexNormalizes | x06_math_interpreter/src/parser.rs:64-125 | after a successful run, lexing the printed lexemes again (no whitespace) gives the same state |
| Lexing.CanonicalAt | x06_math_interpreter/src/parser.rs:102-107 | every prefix of a canonical sequence is canonical, and each lexeme fits what precedes it |
| Lexing.ParenDepths | x06_math_interpreter/src/parser.rs:103-107 | an LPAREN carries the depth before it and an RPAREN the depth after it |
| Lexing.MatchedParensShareDepth | x06_math_interpreter/src/parser.rs:103-107 | a `(` and its matching `)` carry the same depth |
| Lexing.StepExtends | x06_math_interpreter/src/parser.rs:70-121 | one iteration never removes a lexeme, and it only grows a NUMBER left last |
| Lexing.LexKeepsPrior | x06_math_interpreter/src/parser.rs:61-125 | `lex` appends to the existing vector and never clears it; only a NUMBER left last by an earlier call can grow |
| Lexing.StepPrepend | x06_math_interpreter/src/parser.rs:64-123 | one iteration does the same thing whatever lexemes, ending in a non-NUMBER, came before |
| Lexing.LexAfterNonNumber | x06_math_interpreter/src/parser.rs:61-125 | after a vector that does not end in a NUMBER, `lex` appends exactly what a fresh lexer would produce |
| Lexing.StepWellShaped | x06_math_interpreter/src/parser.rs:78-121 | one iteration never pushes Nil and never leaves two NUMBERs adjacent |
| Lexing.LexWellShaped | x06_math_interpreter/src/parser.rs:78-121 | `lex` never pushes Nil and never leaves two NUMBERs adjacent, whatever was already in the vector |
| Lexing.CanonicalWellShaped | x06_math_interpreter/src/parser.rs:121 | canonical output holds no Nil and no adjacent NUMBERs, and every operator lexeme carries 0 |
| Lexing.LexStopsAt | x06_math_interpreter/src/parser.rs:105-118 | a rejected run names the first unacceptable character and its index, and keeps exactly the lexemes pushed before it; an underflow is at a `)` reached at depth 0 |
| Lexing.LexRejectsAt | x06_math_interpreter/src/parser.rs:116-118 | the first unacceptable character reached while scanning is reported, with its index |
| Lexing.LexUnderflowsAt | x06_math_interpreter/src/parser.rs:105-106 | a `)` reached at depth 0 stops the run as an underflow at its index |
| Lexing.LexAcceptsAll | x06_math_interpreter/src/parser.rs:125 | input made only of acceptable characters yields no error |
| Lexing.ExampleSpacedDigits | x06_math_interpreter/src/parser.rs:65-79 | `1 2` lexes to the single NUMBER 12 |
| Lexing.ExampleUnexpected | x06_math_interpreter/src/parser.rs:116-118 | `1@2` stops at `@`, index 1, after pushing NUMBER 1 |
| Lexing.ExampleDepths | x06_math_interpreter/src/parser.rs:102-107 | `(()` gives LPAREN 0, LPAREN 1 and RPAREN 1 at depth 1 |
| Lexing.ExampleUnderflow | x06_math_interpreter/src/parser.rs:105-106 | `1)` underflows at index 1 |
| Grammar.Peek | x06_math_interpreter/src/parser.rs:195-203 | `curr_lexeme` is one of the lexemes left or the Nil sentinel; on a vector ending in the sentinel it is exactly `lexemes[curr_index]` |
| Grammar.ParseFactor | x06_math_interpreter/src/parser.rs:210-240 | `factor` consumes something when it succeeds, and returns a well-formed tree |
| Grammar.TermTail | x06_math_interpreter/src/parser.rs:248-273 | the `term` loop stops at a lexeme that is neither `*` nor `/`, and keeps the tree well-formed |
| Grammar.ParseTerm | x06_math_interpreter/src/parser.rs:242-276 | `term` consumes something when it succeeds, stops before `*` and `/`, and returns a well-formed tree |
| Grammar.ExprTail | x06_math_interpreter/src/parser.rs:284-309 | the `expr` loop stops at a lexeme that is neither `+` nor `-`, and keeps the tree well-formed |
| Grammar.ParseExpr | x06_math_interpreter/src/parser.rs:278-312 | `expr` consumes something when it succeeds, stops before any operator, and returns a well-formed tree |
| Grammar.FactorSound | x06_math_interpreter/src/parser.rs:210-240 | `factor` leaves a suffix of its input, never eats Nil, and an error names the lexeme under the cursor |
| Grammar.TermTailSound | x06_math_interpreter/src/parser.rs:248-273 | the same for the `term` loop |
| Grammar.TermSound | x06_math_interpreter/src/parser.rs:242-276 | the same for `term` |
| Grammar.ExprTailSound | x06_math_interpreter/src/parser.rs:284-309 | the same for the `expr` loop |
| Grammar.ExprSound | x06_math_interpreter/src/parser.rs:278-312 | the same for `expr`, so the cursor stays in bounds and on the sentinel at worst |
| Grammar.StripStep | x06_math_interpreter/src/parser.rs:221-236 | the consumed lexemes split into the first lexeme and the consumed lexemes of the two rules after it |
| Grammar.StripParens | x06_math_interpreter/src/parser.rs:221-236 | a consumed parenthesis pair contributes nothing once parentheses are stripped |
| Grammar.FactorFlat | x06_math_interpreter/src/parser.rs:210-240 | the in-order traversal of the tree `factor` returns is the lexemes it consumed, without parentheses |
| Grammar.TermTailFlat | x06_math_interpreter/src/parser.rs:248-273 | the same for the `term` loop, after the tree accumulated so far |
| Grammar.TermFlat | x06_math_interpreter/src/parser.rs:242-276 | the same for `term` |
| Grammar.ExprTailFlat | x06_math_interpreter/src/parser.rs:284-309 | the same for the `expr` loop |
| Grammar.ExprFlat | x06_math_interpreter/src/parser.rs:278-312 | the leaves and operators of the parsed tree, read left to right, are the consumed lexemes in order with the parentheses removed |
| Grammar.ExprTailStep | x06_math_interpreter/src/parser.rs:284-308 | one iteration of the `expr` loop folds the operator and the next `term` into a new left-nested node |
| Grammar.TermTailStep | x06_math_interpreter/src/parser.rs:248-272 | one iteration of the `term` loop folds the operator and the next `factor` into a new left-nested node |
| Grammar.ExprTailNext | x06_math_interpreter/src/parser.rs:284-308 | at `+` or `-` the `expr` loop parses the next `term` and either stops with its error or folds it in |
| Grammar.TermTailNext | x06_math_interpreter/src/parser.rs:248-272 | at `*` or `/` the `term` loop parses the next `factor` and either stops with its error or folds it in |
| Grammar.ExprTailStop | x06_math_interpreter/src/parser.rs:284-311 | the `expr` loop ends at anything but `+` or `-` with the tree accumulated so far |
| Grammar.TermTailStop | x06_math_interpreter/src/parser.rs:248-275 | the `term` loop ends at anything but `*` or `/` with the tree accumulated so far |
| Grammar.ExprOfTerm | x06_math_interpreter/src/parser.rs:279-284 | `expr` is its first `term` followed by the loop |
| Grammar.TermOfFactor | x06_math_interpreter/src/parser.rs:243-248 | `term` is its first `factor` followed by the loop |
| Grammar.FactorPrinted | x06_math_interpreter/src/parser.rs:210-240 | `factor` parses any well-formed tree printed as a factor back to that tree |
| Grammar.TermPrinted | x06_math_interpreter/src/parser.rs:242-276 | `term` parses a tree printed as a term back to it, and continues with the loop after it |
| Grammar.ExprPrinted | x06_math_interpreter/src/parser.rs:278-312 | `expr` parses a tree printed as an expression back to it, and continues with the loop after it |
| Grammar.ParsePrinted | x06_math_interpreter/src/parser.rs:278-312 | round trip: parsing the minimally parenthesised printing of any well-formed tree gives that tree, which encodes precedence and left-associativity, and stops right after it |
| Grammar.MissingOperand | x06_math_interpreter/src/parser.rs:237-238 | anything but NUMBER or LPAREN where an operand is expected fails with that lexeme, without moving, and the failure passes up unchanged |
| Grammar.ExprTailFails | x06_math_interpreter/src/parser.rs:304-307 | an error in the `term` after `+`/`-` aborts the loop unchanged |
| Grammar.TermTailFails | x06_math_interpreter/src/parser.rs:268-271 | an error in the `factor` after `*`/`/` aborts the loop unchanged |
| Grammar.MissingClose | x06_math_interpreter/src/parser.rs:232-235 | an unclosed `(` fails at `eat(RPAREN)`, expecting RPAREN, and that failure passes up unchanged |
| GrammarExamples.ExampleLeftAssociative | x06_math_interpreter/src/parser.rs:284-308 | `1-2-3` parses to SUB(SUB(1,2),3) |
| GrammarExamples.ExamplePrecedence | x06_math_interpreter/src/parser.rs:248-308 | `1+2*3` parses to ADD(1,MUL(2,3)) |
| GrammarExamples.ExampleParentheses | x06_math_interpreter/src/parser.rs:221-236 | `(1+2)*3` parses to MUL(ADD(1,2),3); the parentheses make no node |
| GrammarExamples.ExampleTrailingIgnored | x06_math_interpreter/src/parser.rs:191-198 | `1(2)` parses to the leaf 1 and leaves the rest unread |
| GrammarExamples.ExampleEmpty | x06_math_interpreter/src/parser.rs:237-238 | empty input fails on the sentinel, expecting an operand |
| GrammarExamples.ExampleMissingOperand | x06_math_interpreter/src/parser.rs:237-238 | `1+` fails on the sentinel, expecting an operand |
| GrammarExamples.ExampleUnclosed | x06_math_interpreter/src/parser.rs:232-235 | `(1` fails expecting RPAREN |
| MathLexer.Lexer.constructor | x04_math_lexer/src/main.rs:4 | a new lexer holds no lexemes |
| MathLexer.Lexer.LexDigit | x04_math_lexer/src/lexer.rs:48-80 | the digit case leaves the vector that `PushDigit` describes |
| MathLexer.Lexer.Lex | x04_math_lexer/src/lexer.rs:40-103 | on input that does not panic, the vector ends as `Lexed` says, so the lexing lemmas hold for it |
| MathParser.Lexer.constructor | x05_math_parser/src/main.rs:4 | a new lexer holds no lexemes |
| MathParser.Lexer.LexDigit | x05_math_parser/src/parser/mod.rs:69-101 | the digit case leaves the vector that `PushDigit` describes |
| MathParser.Lexer.Lex | x05_math_parser/src/parser/mod.rs:61-124 | on input that does not panic, the vector ends as `Lexed` says |
| MathParser.Parser.constructor | x05_math_parser/src/main.rs:15 | the parser takes over the lexer's lexemes, with the cursor at 0 on a Nil placeholder |
| MathParser.Parser.Parse | x05_math_parser/src/parser/mod.rs:213-220 | appends exactly one Nil, starts the cursor at 0, and returns `ParseExpr`'s tree, with the cursor where `ParseExpr` stops |
| MathParser.Parser.Eat | x05_math_parser/src/parser/mod.rs:222-229 | on a matching kind, advances the cursor by exactly one and keeps it in bounds; a mismatch panics and is refused |
| MathParser.Parser.Factor | x05_math_parser/src/parser/mod.rs:231-246 | computes exactly what `ParseFactor` does, tree and cursor, where it does not panic |
| MathParser.Parser.Term | x05_math_parser/src/parser/mod.rs:248-270 | computes exactly what `ParseTerm` does, tree and cursor |
| MathParser.Parser.Expr | x05_math_parser/src/parser/mod.rs:272-294 | computes exactly what `ParseExpr` does, tree and cursor |
| InterpreterParser.Lexer.constructor | x06_math_interpreter/src/main.rs:42 | a new lexer holds no lexemes |
| InterpreterParser.Lexer.LexDigit | x06_math_interpreter/src/parser.rs:69-101 | the digit case leaves the vector that `PushDigit` describes |
| InterpreterParser.Lexer.Lex | x06_math_interpreter/src/parser.rs:61-126 | the vector ends as `Lexed` says; the result is `None` or the first unexpected character and its index, exactly as `Lexed` reports |
| InterpreterParser.Parser.constructor | x06_math_interpreter/src/main.rs:63-70 | the parser takes over the lexer's lexemes, with the cursor at 0 on a Nil placeholder |
| InterpreterParser.Parser.Parse | x06_math_interpreter/src/parser.rs:191-198 | appends exactly one Nil, starts at 0, and returns exactly `ParseExpr`'s result, success or error, with the cursor where it stops |
| InterpreterParser.Parser.Eat | x06_math_interpreter/src/parser.rs:200-208 | advances by exactly one when the kind matches; otherwise returns the expected kind as an error and leaves the cursor untouched |
| InterpreterParser.Parser.Factor | x06_math_interpreter/src/parser.rs:210-240 | returns exactly `ParseFactor`'s result and leaves the cursor where it stops |
| InterpreterParser.Parser.Term | x06_math_interpreter/src/parser.rs:242-276 | returns exactly `ParseTerm`'s result, the first error aborting the loop |
| InterpreterParser.Parser.Expr | x06_math_interpreter/src/parser.rs:278-312 | returns exactly `ParseExpr`'s result, the first error aborting the loop |
| Interpreter.Apply | x06_math_interpreter/src/main.rs:20-24 | combining two child values fails exactly when a child failed or a divisor is zero |
| Interpreter.Visit | x06_math_interpreter/src/main.rs:6-28 | `ast_visitor`: a leaf is its value, and only a division can fail, so a tree without one always evaluates; `ExprEvaluates` ties it to the reference evaluator |
| Interpreter.ParsedTreesAreComplete | x06_math_interpreter/src/main.rs:10-18 | every tree the parser returns has both children on every operator node, so the missing-child panics never fire |
| Interpreter.FactorEvaluates | x06_math_interpreter/src/main.rs:6-28 | evaluating `factor`'s tree gives what reading the factor directly gives |
| Interpreter.TermTailEvaluates | x06_math_interpreter/src/main.rs:6-28 | the same for the `term` loop, from the value accumulated so far |
| Interpreter.TermEvaluates | x06_math_interpreter/src/main.rs:6-28 | the same for `term` |
| Interpreter.ExprTailEvaluates | x06_math_interpreter/src/main.rs:6-28 | the same for the `expr` loop |
| Interpreter.ExprEvaluates | x06_math_interpreter/src/main.rs:35-37 | for every lexeme sequence, parse-then-evaluate agrees with reading the advertised grammar directly: the same value or division by zero, the same lexemes left, and failure in the same places |
| InterpreterExamples.ExampleLexOnePlusTwo | x06_math_interpreter/src/parser.rs:64-123 | `1+2` lexes to NUMBER 1, PLUS, NUMBER 2 |
| InterpreterExamples.ExampleLexSeven | x06_math_interpreter/src/parser.rs:64-123 | `1+2*3` lexes to five lexemes at depth 0 |
| InterpreterExamples.ExampleSeven | x06_math_interpreter/src/main.rs:54-81 | the line `1+2*3` is lexed, parsed and evaluated to 7 |
| InterpreterExamples.ExampleNine | x06_math_interpreter/src/main.rs:20-24 | `(1+2)*3` evaluates to 9 |
| InterpreterExamples.ExampleMinusFour | x06_math_interpreter/src/main.rs:20-24 | `1-2-3` evaluates to -4 |
| InterpreterExamples.ExampleDivisionByZero | x06_math_interpreter/src/main.rs:24 | `1/0` is a division by zero |
| Fibonacci.Fib | x03_fibonacci/src/main.rs:8-14 | `fib`, with every value at least 1 and at least its index |
| Fibonacci.FibMonotone | x03_fibonacci/src/main.rs:8-14 | the sequence never decreases, so once `fib(n)` fits in a `u128` so does every value before it |
| Fibonacci.Fib2 | x03_fibonacci/src/main.rs:21-41 | `fib2(n) == fib(n)`; the stack holds `fib(j)` at every index `j`, no push overflows, and the empty-stack branch is unreachable |
| Fibonacci.FibUpToTwenty | x03_fibonacci/src/main.rs:46-54 | `fib(20)` is 10946, so no value `main` prints overflows |

## Left out

- Console I/O is not modelled: the REPL of `x06` (`main`, with its `exit` test and `In`/`Out` counters), the shells of `x05` and `x04`, the printing loops of `x03`, and the `x02` program.
- The `Display` implementations and `ASTNode::dump`/`dump_recursive` are not modelled, because they only format and print. Errors are datatypes instead of message strings:
  - `LexError.UnexpectedChar(ch, position)`;
  - `ParseError.ExpectedOperand(lexeme)`;
  - `ParseError.UnexpectedKind(expected)`.
- Interpreter.Visit: the value is an exact `real`, not an IEEE-754 `f64`, so rounding is not modelled. A zero divisor gives `DivisionByZero` instead of an infinity or NaN.
- Lexing.PushDigit: a NUMBER's value is an unbounded `nat`. The `u64` (`x05`, `x06`) or `u128` (`x04`) multiply-add can overflow on long digit runs; that overflow is not modelled. This is the only width gap in the leaves: `factor`'s `as i128` cast of a `u64` value is exact, and `Lexemes.Leaf` keeps the value unchanged.
- Fibonacci.Fib: `fib` works on unbounded naturals, so the overflow of its `u128` addition is not modelled. `Fibonacci.Fib2` does check every push against the `u128` range.
- The `)` at depth 0 underflows `paren_depth` and is treated as a panic:
  - a precondition of the `x04` and `x05` `Lex`;
  - a precondition of the `x06` `Lex` (`!Underflowed?`);
  - the `Underflowed` state of `Lexed`.
  A release build's wrap-around is not modelled.
- MathLexer.Lexer.Lex and MathParser.Lexer.Lex require input on which `lex` does not panic, because the source panics on every other input.
- MathParser.Parser.Parse, MathParser.Parser.Factor, MathParser.Parser.Term and MathParser.Parser.Expr require that the corresponding grammar function succeeds, because the source panics otherwise.
- `char::is_whitespace` is the fixed list of Unicode White_Space code points. `chars().enumerate()` indexes are positions in a `seq<char>`.
- Some defensive branches are stated as unreachable and not modelled as failures:
  - a failed `pop` or `to_digit` in `lex`;
  - the panic in `astnode_kind_from_lexeme_type`;
  - the `eat` calls in the `term`/`expr` loops and in `factor` that cannot mismatch;
  - the "Illegal code location!" arm of `ast_visitor`;
  - the empty-stack branch of `fib2`.
- The parser owns its lexer in the source. In the model, `Parser.lexemes` is a copy of the lexer's vector taken by the constructor, so ownership and aliasing are not modelled.
- `ast_visitor` is deterministic and has no side effects. `Visit` is a Dafny function, which makes this hold by construction, so no lemma states it.
- The whole-line examples start from text only for `1+2*3`. The others start from lexeme sequences: lexing longer literals symbol by symbol is costly to prove, and `Lexing.LexRender` covers the text-to-lexemes step in general.
