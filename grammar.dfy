/**
 * The reference semantics of `Parser::{eat, factor, term, expr}`, shared by the
 * panicking parser (x05) and the one that returns errors (x06):
 *
 *   expr   : term ((PLUS | MINUS) term)*
 *   term   : factor ((MUL | DIV) factor)*
 *   factor : NUMBER | LPAREN expr RPAREN
 *
 * Each rule is a function from the lexemes not yet consumed (from the cursor to
 * the end of the vector) to its result and the lexemes it leaves.  The cursor's
 * lexeme is the first of them, or the Nil sentinel once none are left.
 */
module Grammar {
  import opened Prelude
  import opened Lexemes

  /** The two errors the parser reports: `eat` found another kind than the one
      it was asked for ("Got unexpected token type"), and `factor` found neither
      a NUMBER nor a `(` ("Unexpected token ..., was expecting NUMBER or LPAREN"). */
  datatype ParseError = UnexpectedKind(expected: LexemeKind) | ExpectedOperand(found: Lexeme)

  /** What a rule returns, and the lexemes left after it. */
  datatype Parsed = Parsed(result: Result<ASTNode, ParseError>, rest: seq<Lexeme>)

  /** The lexeme under the cursor: one of the lexemes left, or the sentinel once
      none are; on a vector that ends in the sentinel, exactly the first left. */
  function Peek(ts: seq<Lexeme>): (t: Lexeme)
    ensures t in ts || t == NilLexeme
    ensures EndsWithNil(ts) ==> t == ts[0]
  {
    if ts == [] then NilLexeme else ts[0]
  }

  predicate IsSuffix(rest: seq<Lexeme>, ts: seq<Lexeme>) {
    |rest| <= |ts| && rest == ts[|ts| - |rest|..]
  }

  /** The vector ends with the Nil sentinel `parse` appends. */
  predicate EndsWithNil(ts: seq<Lexeme>) {
    |ts| > 0 && ts[|ts| - 1].kind.Nil?
  }

  /** The error describes the lexeme the cursor stopped at: either `factor` found
      no operand there, or the `)` closing a parenthesis is missing there. */
  predicate ErrorAt(e: ParseError, at: Lexeme) {
    match e
    case ExpectedOperand(found) => found == at && !at.kind.NUMBER? && !at.kind.LPAREN?
    case UnexpectedKind(expected) => expected == RPAREN && !at.kind.RPAREN?
  }

  /** What every rule promises about the lexemes it leaves: they are a suffix of
      its input, the Nil sentinel is never consumed, and an error names the
      lexeme the cursor stopped at. */
  predicate Sound(ts: seq<Lexeme>, r: Parsed) {
    IsSuffix(r.rest, ts) &&
    (EndsWithNil(ts) ==> EndsWithNil(r.rest)) &&
    (r.result.Err? ==> ErrorAt(r.result.error, Peek(r.rest)))
  }

  /** Soundness carries over a consumed lexeme that is not the sentinel. */
  lemma {:induction false} SoundSkip(ts: seq<Lexeme>, r: Parsed)
    requires ts != [] && !ts[0].kind.Nil? && Sound(ts[1..], r)
    ensures Sound(ts, r)
  {
    assert ts[1..][|ts[1..]| - |r.rest|..] == ts[|ts| - |r.rest|..];
  }

  /** Soundness composes along the lexemes left by an earlier rule. */
  lemma {:induction false} SoundTrans(ts: seq<Lexeme>, mid: Parsed, r: Parsed)
    requires Sound(ts, mid) && Sound(mid.rest, r)
    ensures Sound(ts, r)
  {
    var b := mid.rest;
    assert b[|b| - |r.rest|..] == ts[|ts| - |r.rest|..];
  }

  function ParseFactor(ts: seq<Lexeme>): (r: Parsed)
    ensures |r.rest| <= |ts|
    ensures r.result.Ok? ==> |r.rest| < |ts| && WellFormed(r.result.value)
    decreases |ts|, 0
  {
    var t := Peek(ts);
    if t.kind.NUMBER? then
      Parsed(Ok(Leaf(t.value)), ts[1..])
    else if t.kind.LPAREN? then
      var inner := ParseExpr(ts[1..]);
      if inner.result.Err? then inner
      else if Peek(inner.rest).kind.RPAREN? then
        Parsed(inner.result, inner.rest[1..])
      else Parsed(Err(UnexpectedKind(RPAREN)), inner.rest)
    else
      Parsed(Err(ExpectedOperand(t)), ts)
  }

  /** The `while` loop of `term` once `acc` has been built. */
  function TermTail(acc: ASTNode, ts: seq<Lexeme>): (r: Parsed)
    ensures |r.rest| <= |ts|
    ensures r.result.Ok? ==> !IsMultiplicative(Peek(r.rest).kind)
    ensures r.result.Ok? && WellFormed(acc) ==> WellFormed(r.result.value)
    decreases |ts|, 0
  {
    var t := Peek(ts);
    if IsMultiplicative(t.kind) then
      var f := ParseFactor(ts[1..]);
      if f.result.Err? then f
      else
        TermTail(Binary(AstKind(t.kind), acc, f.result.value), f.rest)
    else
      Parsed(Ok(acc), ts)
  }

  function ParseTerm(ts: seq<Lexeme>): (r: Parsed)
    ensures |r.rest| <= |ts|
    ensures r.result.Ok? ==> |r.rest| < |ts| && WellFormed(r.result.value)
    ensures r.result.Ok? ==> !IsMultiplicative(Peek(r.rest).kind)
    decreases |ts|, 1
  {
    var f := ParseFactor(ts);
    if f.result.Err? then f
    else
      TermTail(f.result.value, f.rest)
  }

  /** The `while` loop of `expr` once `acc` has been built. */
  function ExprTail(acc: ASTNode, ts: seq<Lexeme>): (r: Parsed)
    ensures |r.rest| <= |ts|
    ensures r.result.Ok? ==> !IsAdditive(Peek(r.rest).kind)
    ensures r.result.Ok? && WellFormed(acc) ==> WellFormed(r.result.value)
    ensures r.result.Ok? && !IsMultiplicative(Peek(ts).kind) ==> !IsMultiplicative(Peek(r.rest).kind)
    decreases |ts|, 0
  {
    var t := Peek(ts);
    if IsAdditive(t.kind) then
      var e := ParseTerm(ts[1..]);
      if e.result.Err? then e
      else
        ExprTail(Binary(AstKind(t.kind), acc, e.result.value), e.rest)
    else
      Parsed(Ok(acc), ts)
  }

  function ParseExpr(ts: seq<Lexeme>): (r: Parsed)
    ensures |r.rest| <= |ts|
    ensures r.result.Ok? ==> |r.rest| < |ts| && WellFormed(r.result.value)
    ensures r.result.Ok? ==> !IsAdditive(Peek(r.rest).kind) && !IsMultiplicative(Peek(r.rest).kind)
    decreases |ts|, 2
  {
    var e := ParseTerm(ts);
    if e.result.Err? then e
    else
      ExprTail(e.result.value, e.rest)
  }

  // ---------------------------------------------------------------------------
  // What every rule leaves behind

  lemma {:induction false} FactorSound(ts: seq<Lexeme>)
    ensures Sound(ts, ParseFactor(ts))
    decreases |ts|, 0
  {
    var t := Peek(ts);
    if t.kind.NUMBER? {
      SoundSkip(ts, Parsed(Ok(Leaf(t.value)), ts[1..]));
    } else if t.kind.LPAREN? {
      var inner := ParseExpr(ts[1..]);
      ExprSound(ts[1..]);
      SoundSkip(ts, inner);
      if inner.result.Ok? && Peek(inner.rest).kind.RPAREN? {
        var r := Parsed(inner.result, inner.rest[1..]);
        SoundSkip(inner.rest, r);
        SoundTrans(ts, inner, r);
      }
    }
  }

  lemma {:induction false} TermTailSound(acc: ASTNode, ts: seq<Lexeme>)
    ensures Sound(ts, TermTail(acc, ts))
    decreases |ts|, 0
  {
    var t := Peek(ts);
    if IsMultiplicative(t.kind) {
      var f := ParseFactor(ts[1..]);
      FactorSound(ts[1..]);
      SoundSkip(ts, f);
      if f.result.Ok? {
        var node := Binary(AstKind(t.kind), acc, f.result.value);
        TermTailSound(node, f.rest);
        SoundTrans(ts, f, TermTail(node, f.rest));
      }
    }
  }

  lemma {:induction false} TermSound(ts: seq<Lexeme>)
    ensures Sound(ts, ParseTerm(ts))
    decreases |ts|, 1
  {
    var f := ParseFactor(ts);
    FactorSound(ts);
    if f.result.Ok? {
      TermTailSound(f.result.value, f.rest);
      SoundTrans(ts, f, TermTail(f.result.value, f.rest));
    }
  }

  lemma {:induction false} ExprTailSound(acc: ASTNode, ts: seq<Lexeme>)
    ensures Sound(ts, ExprTail(acc, ts))
    decreases |ts|, 0
  {
    var t := Peek(ts);
    if IsAdditive(t.kind) {
      var e := ParseTerm(ts[1..]);
      TermSound(ts[1..]);
      SoundSkip(ts, e);
      if e.result.Ok? {
        var node := Binary(AstKind(t.kind), acc, e.result.value);
        ExprTailSound(node, e.rest);
        SoundTrans(ts, e, ExprTail(node, e.rest));
      }
    }
  }

  /** Every rule, and so `parse`, leaves a suffix of its input; it never eats the
      Nil sentinel; and an error describes the lexeme the cursor stopped at. */
  lemma {:induction false} ExprSound(ts: seq<Lexeme>)
    ensures Sound(ts, ParseExpr(ts))
    decreases |ts|, 2
  {
    var e := ParseTerm(ts);
    TermSound(ts);
    if e.result.Ok? {
      ExprTailSound(e.result.value, e.rest);
      SoundTrans(ts, e, ExprTail(e.result.value, e.rest));
    }
  }

  // ---------------------------------------------------------------------------
  // The tree lists the operands and operators in input order, without parentheses

  /** A lexeme as the tree keeps it: NUMBERs with their value, operators with 0. */
  function Plain(x: Lexeme): Lexeme {
    if x.kind.NUMBER? then x else Lexeme(0, x.kind)
  }

  /** The lexemes with the parentheses removed. */
  function Strip(ls: seq<Lexeme>): seq<Lexeme> {
    if ls == [] then []
    else (if ls[0].kind.LPAREN? || ls[0].kind.RPAREN? then [] else [Plain(ls[0])]) + Strip(ls[1..])
  }

  /** The in-order traversal of a tree, as lexemes. */
  function Flatten(t: ASTNode): seq<Lexeme>
    requires WellFormed(t)
  {
    if t.kind.NUMBER? then [Lexeme(t.value as nat, LexemeKind.NUMBER)]
    else Flatten(t.left.value) + [Lexeme(0, LexemeKindOf(t.kind))] + Flatten(t.right.value)
  }

  /** The lexemes a rule consumed. */
  function Consumed(ts: seq<Lexeme>, rest: seq<Lexeme>): seq<Lexeme>
    requires |rest| <= |ts|
  {
    ts[..|ts| - |rest|]
  }

  lemma {:induction false} StripAppend(a: seq<Lexeme>, b: seq<Lexeme>)
    ensures Strip(a + b) == Strip(a) + Strip(b)
    decreases |a|
  {
    if a == [] {
      assert a + b == b;
    } else {
      assert (a + b)[0] == a[0];
      assert (a + b)[1..] == a[1..] + b;
      StripAppend(a[1..], b);
    }
  }

  lemma {:induction false} Associate(w: seq<Lexeme>, a: seq<Lexeme>, b: seq<Lexeme>, c: seq<Lexeme>)
    ensures (w + a + b) + c == w + (a + b + c)
  {
  }

  lemma {:induction false} StripOne(x: Lexeme)
    ensures Strip([x]) == if x.kind.LPAREN? || x.kind.RPAREN? then [] else [Plain(x)]
  {
    assert [x][1..] == [];
  }

  /** What consuming one lexeme and then what a later rule consumes strips to. */
  lemma {:induction false} StripStep(ts: seq<Lexeme>, mid: seq<Lexeme>, rest: seq<Lexeme>)
    requires ts != [] && IsSuffix(mid, ts[1..]) && IsSuffix(rest, mid)
    ensures IsSuffix(rest, ts)
    ensures Strip(Consumed(ts, rest)) == Strip([ts[0]]) + Strip(Consumed(ts[1..], mid)) + Strip(Consumed(mid, rest))
  {
    var t1 := ts[1..];
    assert mid[|mid| - |rest|..] == ts[|ts| - |rest|..];
    assert Consumed(ts, rest) == [ts[0]] + Consumed(t1, mid) + Consumed(mid, rest);
    StripAppend([ts[0]] + Consumed(t1, mid), Consumed(mid, rest));
    StripAppend([ts[0]], Consumed(t1, mid));
  }

  lemma {:induction false} StripSplit(ts: seq<Lexeme>, mid: seq<Lexeme>, rest: seq<Lexeme>)
    requires IsSuffix(mid, ts) && IsSuffix(rest, mid)
    ensures IsSuffix(rest, ts)
    ensures Strip(Consumed(ts, rest)) == Strip(Consumed(ts, mid)) + Strip(Consumed(mid, rest))
  {
    assert mid[|mid| - |rest|..] == ts[|ts| - |rest|..];
    assert Consumed(ts, rest) == Consumed(ts, mid) + Consumed(mid, rest);
    StripAppend(Consumed(ts, mid), Consumed(mid, rest));
  }

  /** Parentheses around what a rule consumed strip away. */
  lemma {:induction false} StripParens(ts: seq<Lexeme>, mid: seq<Lexeme>)
    requires ts != [] && ts[0].kind.LPAREN? && IsSuffix(mid, ts[1..])
    requires mid != [] && mid[0].kind.RPAREN?
    ensures IsSuffix(mid[1..], ts)
    ensures Strip(Consumed(ts, mid[1..])) == Strip(Consumed(ts[1..], mid))
  {
    StripStep(ts, mid, mid[1..]);
    assert Consumed(mid, mid[1..]) == [mid[0]];
    StripOne(ts[0]);
    StripOne(mid[0]);
  }

  lemma {:induction false} FactorFlat(ts: seq<Lexeme>)
    ensures ParseFactor(ts).result.Ok? ==>
      Flatten(ParseFactor(ts).result.value) == Strip(Consumed(ts, ParseFactor(ts).rest))
    decreases |ts|, 0
  {
    var t := Peek(ts);
    var r := ParseFactor(ts);
    if t.kind.NUMBER? {
      assert r == Parsed(Ok(Leaf(t.value)), ts[1..]);
      assert Consumed(ts, ts[1..]) == [ts[0]];
      StripOne(ts[0]);
    } else if t.kind.LPAREN? {
      var inner := ParseExpr(ts[1..]);
      if inner.result.Ok? && Peek(inner.rest).kind.RPAREN? {
        assert r == Parsed(inner.result, inner.rest[1..]);
        ExprFlat(ts[1..]);
        ExprSound(ts[1..]);
        StripParens(ts, inner.rest);
      }
    }
  }

  lemma {:induction false} TermTailFlat(acc: ASTNode, ts: seq<Lexeme>)
    requires WellFormed(acc)
    ensures TermTail(acc, ts).result.Ok? ==>
      Flatten(TermTail(acc, ts).result.value) == Flatten(acc) + Strip(Consumed(ts, TermTail(acc, ts).rest))
    decreases |ts|, 0
  {
    var t := Peek(ts);
    var r := TermTail(acc, ts);
    if IsMultiplicative(t.kind) {
      var f := ParseFactor(ts[1..]);
      if f.result.Ok? {
        var node := Binary(AstKind(t.kind), acc, f.result.value);
        assert r == TermTail(node, f.rest);
        FactorFlat(ts[1..]);
        TermTailFlat(node, f.rest);
        FactorSound(ts[1..]);
        TermTailSound(node, f.rest);
        StripStep(ts, f.rest, r.rest);
        StripOne(ts[0]);
        assert Flatten(node) == Flatten(acc) + [Plain(ts[0])] + Flatten(f.result.value);
        if r.result.Ok? {
          var a, b, c := Strip([ts[0]]), Strip(Consumed(ts[1..], f.rest)), Strip(Consumed(f.rest, r.rest));
          assert Flatten(r.result.value) == Flatten(node) + c;
          assert Flatten(node) == Flatten(acc) + a + b;
          assert Strip(Consumed(ts, r.rest)) == a + b + c;
          Associate(Flatten(acc), a, b, c);
        }
      }
    } else {
      assert r == Parsed(Ok(acc), ts);
      assert Consumed(ts, ts) == [];
    }
  }

  lemma {:induction false} TermFlat(ts: seq<Lexeme>)
    ensures ParseTerm(ts).result.Ok? ==>
      Flatten(ParseTerm(ts).result.value) == Strip(Consumed(ts, ParseTerm(ts).rest))
    decreases |ts|, 1
  {
    var f := ParseFactor(ts);
    if f.result.Ok? {
      FactorFlat(ts);
      TermTailFlat(f.result.value, f.rest);
      FactorSound(ts);
      TermTailSound(f.result.value, f.rest);
      StripSplit(ts, f.rest, ParseTerm(ts).rest);
    }
  }

  lemma {:induction false} ExprTailFlat(acc: ASTNode, ts: seq<Lexeme>)
    requires WellFormed(acc)
    ensures ExprTail(acc, ts).result.Ok? ==>
      Flatten(ExprTail(acc, ts).result.value) == Flatten(acc) + Strip(Consumed(ts, ExprTail(acc, ts).rest))
    decreases |ts|, 0
  {
    var t := Peek(ts);
    var r := ExprTail(acc, ts);
    if IsAdditive(t.kind) {
      var e := ParseTerm(ts[1..]);
      if e.result.Ok? {
        var node := Binary(AstKind(t.kind), acc, e.result.value);
        assert r == ExprTail(node, e.rest);
        TermFlat(ts[1..]);
        ExprTailFlat(node, e.rest);
        TermSound(ts[1..]);
        ExprTailSound(node, e.rest);
        StripStep(ts, e.rest, r.rest);
        StripOne(ts[0]);
        assert Flatten(node) == Flatten(acc) + [Plain(ts[0])] + Flatten(e.result.value);
        if r.result.Ok? {
          var a, b, c := Strip([ts[0]]), Strip(Consumed(ts[1..], e.rest)), Strip(Consumed(e.rest, r.rest));
          assert Flatten(r.result.value) == Flatten(node) + c;
          assert Flatten(node) == Flatten(acc) + a + b;
          assert Strip(Consumed(ts, r.rest)) == a + b + c;
          Associate(Flatten(acc), a, b, c);
        }
      }
    } else {
      assert r == Parsed(Ok(acc), ts);
      assert Consumed(ts, ts) == [];
    }
  }

  /** On success the tree's in-order traversal is exactly the consumed input with
      its parentheses removed: every NUMBER becomes a leaf and every operator a
      node, in input order, and the parentheses leave no node. */
  lemma {:induction false} ExprFlat(ts: seq<Lexeme>)
    ensures ParseExpr(ts).result.Ok? ==>
      Flatten(ParseExpr(ts).result.value) == Strip(Consumed(ts, ParseExpr(ts).rest))
    decreases |ts|, 2
  {
    var e := ParseTerm(ts);
    if e.result.Ok? {
      TermFlat(ts);
      ExprTailFlat(e.result.value, e.rest);
      TermSound(ts);
      ExprTailSound(e.result.value, e.rest);
      StripSplit(ts, e.rest, ParseExpr(ts).rest);
    }
  }

  // ---------------------------------------------------------------------------
  // Every well-formed tree is what the parser builds from its printed form

  /** Binding strength: `+ -` bind loosest, `* /` tighter, numbers tightest. */
  function Level(k: ASTNodeKind): nat {
    match k
    case ADD => 0
    case SUB => 0
    case MUL => 1
    case DIV => 1
    case NUMBER => 2
  }

  /** The lexemes of `t` with as few parentheses as the grammar needs, in a context
      that binds at `ctx`: a node that binds looser than its context is wrapped in
      parentheses, and since every operator associates to the left a right operand
      of the same strength is wrapped too. */
  function Print(t: ASTNode, ctx: nat): seq<Lexeme>
    requires WellFormed(t)
  {
    if t.kind.NUMBER? then [Lexeme(t.value as nat, LexemeKind.NUMBER)]
    else
      var level := Level(t.kind);
      var body := Print(t.left.value, level) + [Lexeme(0, LexemeKindOf(t.kind))] + Print(t.right.value, level + 1);
      if level < ctx then [Lexeme(0, LPAREN)] + body + [Lexeme(0, RPAREN)] else body
  }

  /** The rule each printing context is parsed by: Print(t, 2) is a factor,
      Print(t, 1) a term and Print(t, 0) an expression.  The measure orders the
      three lemmas about one tree by which one calls which. */
  function Rank(t: ASTNode, rule: nat): nat {
    var l := Level(t.kind);
    if l == 2 then rule
    else if l == 1 then (if rule == 0 then 2 else rule - 1)
    else (if rule == 2 then 0 else rule + 1)
  }

  // One unfolding of each rule, stated on the pieces a printed tree is made of.

  lemma {:induction false} ExprTailStep(acc: ASTNode, op: Lexeme, ts: seq<Lexeme>, e: ASTNode, rest: seq<Lexeme>)
    requires IsAdditive(op.kind) && ParseTerm(ts) == Parsed(Ok(e), rest)
    ensures ExprTail(acc, [op] + ts) == ExprTail(Binary(AstKind(op.kind), acc, e), rest)
  {
    assert ([op] + ts)[1..] == ts;
  }

  lemma {:induction false} TermTailStep(acc: ASTNode, op: Lexeme, ts: seq<Lexeme>, f: ASTNode, rest: seq<Lexeme>)
    requires IsMultiplicative(op.kind) && ParseFactor(ts) == Parsed(Ok(f), rest)
    ensures TermTail(acc, [op] + ts) == TermTail(Binary(AstKind(op.kind), acc, f), rest)
  {
    assert ([op] + ts)[1..] == ts;
  }

  /** One iteration of the `while` loop of `expr`, seen from the cursor: the
      operator is eaten and a `term` parsed; an error there ends the loop. */
  lemma {:induction false} ExprTailNext(acc: ASTNode, ts: seq<Lexeme>)
    requires ts != [] && IsAdditive(ts[0].kind)
    ensures ExprTail(acc, ts) ==
      var e := ParseTerm(ts[1..]);
      if e.result.Err? then e else ExprTail(Binary(AstKind(ts[0].kind), acc, e.result.value), e.rest)
  {
  }

  /** One iteration of the `while` loop of `term`, seen from the cursor. */
  lemma {:induction false} TermTailNext(acc: ASTNode, ts: seq<Lexeme>)
    requires ts != [] && IsMultiplicative(ts[0].kind)
    ensures TermTail(acc, ts) ==
      var f := ParseFactor(ts[1..]);
      if f.result.Err? then f else TermTail(Binary(AstKind(ts[0].kind), acc, f.result.value), f.rest)
  {
  }

  lemma {:induction false} ExprTailStop(acc: ASTNode, ts: seq<Lexeme>)
    requires !IsAdditive(Peek(ts).kind)
    ensures ExprTail(acc, ts) == Parsed(Ok(acc), ts)
  {
  }

  lemma {:induction false} TermTailStop(acc: ASTNode, ts: seq<Lexeme>)
    requires !IsMultiplicative(Peek(ts).kind)
    ensures TermTail(acc, ts) == Parsed(Ok(acc), ts)
  {
  }

  lemma {:induction false} ExprOfTerm(ts: seq<Lexeme>, e: ASTNode, rest: seq<Lexeme>)
    requires ParseTerm(ts) == Parsed(Ok(e), rest)
    ensures ParseExpr(ts) == ExprTail(e, rest)
  {
  }

  lemma {:induction false} TermOfFactor(ts: seq<Lexeme>, f: ASTNode, rest: seq<Lexeme>)
    requires ParseFactor(ts) == Parsed(Ok(f), rest)
    ensures ParseTerm(ts) == TermTail(f, rest)
  {
  }

  lemma {:induction false} Regroup(a: seq<Lexeme>, b: seq<Lexeme>, c: seq<Lexeme>, d: seq<Lexeme>)
    ensures (a + b + c) + d == a + (b + (c + d))
  {
  }

  /** An operator node prints its operands around the operator, and is wrapped in
      parentheses only in a context that binds tighter than it. */
  lemma {:induction false} PrintOperator(t: ASTNode, ctx: nat)
    requires WellFormed(t) && !t.kind.NUMBER?
    ensures ctx <= Level(t.kind) ==>
      Print(t, ctx) == Print(t.left.value, Level(t.kind)) + [Lexeme(0, LexemeKindOf(t.kind))] + Print(t.right.value, Level(t.kind) + 1)
    ensures ctx > Level(t.kind) ==> Print(t, ctx) == [Lexeme(0, LPAREN)] + Print(t, Level(t.kind)) + [Lexeme(0, RPAREN)]
  {
  }

  /** The printing adds nothing but parentheses: without them it is the tree's
      in-order reading, whatever the context. */
  lemma {:induction false} PrintStrips(t: ASTNode, ctx: nat)
    requires WellFormed(t)
    ensures Strip(Print(t, ctx)) == Flatten(t)
    decreases t
  {
    if t.kind.NUMBER? {
      StripOne(Lexeme(t.value as nat, LexemeKind.NUMBER));
    } else {
      var level := Level(t.kind);
      var l := Print(t.left.value, level);
      var op := Lexeme(0, LexemeKindOf(t.kind));
      var r := Print(t.right.value, level + 1);
      var body := l + [op] + r;
      PrintOperator(t, ctx);
      PrintOperator(t, level);
      assert Strip(body) == Flatten(t) by {
        PrintStrips(t.left.value, level);
        PrintStrips(t.right.value, level + 1);
        StripAppend(l + [op], r);
        StripAppend(l, [op]);
        StripOne(op);
      }
      if level < ctx {
        var open, close := Lexeme(0, LPAREN), Lexeme(0, RPAREN);
        assert Print(t, ctx) == [open] + body + [close];
        StripAppend([open] + body, [close]);
        StripAppend([open], body);
        StripOne(open);
        StripOne(close);
      } else {
        assert Print(t, ctx) == body;
      }
    }
  }

  /** The last step of FactorPrinted for an operator node. */
  lemma {:induction false} FactorCombine(t: ASTNode, rest: seq<Lexeme>)
    requires WellFormed(t) && !t.kind.NUMBER?
    requires ParseExpr(Print(t, 0) + ([Lexeme(0, RPAREN)] + rest)) == Parsed(Ok(t), [Lexeme(0, RPAREN)] + rest)
    ensures ParseFactor(Print(t, 2) + rest) == Parsed(Ok(t), rest)
  {
    var close := [Lexeme(0, RPAREN)] + rest;
    PrintOperator(t, 2);
    Regroup([Lexeme(0, LPAREN)], Print(t, 0), [Lexeme(0, RPAREN)], rest);
    var ts := Print(t, 2) + rest;
    assert ts == [Lexeme(0, LPAREN)] + (Print(t, 0) + close);
    assert ts[1..] == Print(t, 0) + close;
    assert close[1..] == rest;
  }

  /** A printed operator node is its printed operands around the operator. */
  lemma {:induction false} PrintedOperands(t: ASTNode, ctx: nat, rest: seq<Lexeme>)
    requires WellFormed(t) && !t.kind.NUMBER? && ctx == Level(t.kind)
    ensures Print(t, ctx) + rest ==
      Print(t.left.value, ctx) + ([Lexeme(0, LexemeKindOf(t.kind))] + (Print(t.right.value, ctx + 1) + rest))
    ensures t == Binary(AstKind(LexemeKindOf(t.kind)), t.left.value, t.right.value)
  {
    PrintOperator(t, ctx);
    Regroup(Print(t.left.value, ctx), [Lexeme(0, LexemeKindOf(t.kind))], Print(t.right.value, ctx + 1), rest);
    KindRoundTrip(t.kind);
  }

  lemma {:induction false} FactorPrinted(t: ASTNode, rest: seq<Lexeme>)
    requires WellFormed(t)
    ensures ParseFactor(Print(t, 2) + rest) == Parsed(Ok(t), rest)
    decreases t, Rank(t, 0)
  {
    if t.kind.NUMBER? {
      var ts := Print(t, 2) + rest;
      assert ts[0] == Lexeme(t.value as nat, LexemeKind.NUMBER) && ts[1..] == rest;
    } else {
      var close := [Lexeme(0, RPAREN)] + rest;
      ExprPrinted(t, close);
      ExprTailStop(t, close);
      FactorCombine(t, rest);
    }
  }

  lemma {:induction false} TermPrinted(t: ASTNode, rest: seq<Lexeme>)
    requires WellFormed(t)
    ensures ParseTerm(Print(t, 1) + rest) == TermTail(t, rest)
    decreases t, Rank(t, 1)
  {
    if IsMultiplicative(LexemeKindOf(t.kind)) {
      var l, r, op := t.left.value, t.right.value, Lexeme(0, LexemeKindOf(t.kind));
      var tail := [op] + (Print(r, 2) + rest);
      calc {
        ParseTerm(Print(t, 1) + rest);
        { PrintedOperands(t, 1, rest); }
        ParseTerm(Print(l, 1) + tail);
        { TermPrinted(l, tail); }
        TermTail(l, tail);
        { FactorPrinted(r, rest); TermTailStep(l, op, Print(r, 2) + rest, r, rest); }
        TermTail(Binary(AstKind(op.kind), l, r), rest);
        { PrintedOperands(t, 1, rest); }
        TermTail(t, rest);
      }
    } else {
      calc {
        ParseTerm(Print(t, 1) + rest);
        { if !t.kind.NUMBER? { PrintOperator(t, 1); PrintOperator(t, 2); } }
        ParseTerm(Print(t, 2) + rest);
        { FactorPrinted(t, rest); TermOfFactor(Print(t, 2) + rest, t, rest); }
        TermTail(t, rest);
      }
    }
  }

  lemma {:induction false} ExprPrinted(t: ASTNode, rest: seq<Lexeme>)
    requires WellFormed(t) && !IsMultiplicative(Peek(rest).kind)
    ensures ParseExpr(Print(t, 0) + rest) == ExprTail(t, rest)
    decreases t, Rank(t, 2)
  {
    if IsAdditive(LexemeKindOf(t.kind)) {
      var l, r, op := t.left.value, t.right.value, Lexeme(0, LexemeKindOf(t.kind));
      var tail := [op] + (Print(r, 1) + rest);
      calc {
        ParseExpr(Print(t, 0) + rest);
        { PrintedOperands(t, 0, rest); }
        ParseExpr(Print(l, 0) + tail);
        { ExprPrinted(l, tail); }
        ExprTail(l, tail);
        { TermPrinted(r, rest); TermTailStop(r, rest); ExprTailStep(l, op, Print(r, 1) + rest, r, rest); }
        ExprTail(Binary(AstKind(op.kind), l, r), rest);
        { PrintedOperands(t, 0, rest); }
        ExprTail(t, rest);
      }
    } else {
      calc {
        ParseExpr(Print(t, 0) + rest);
        { if !t.kind.NUMBER? { PrintOperator(t, 0); PrintOperator(t, 1); } }
        ParseExpr(Print(t, 1) + rest);
        { TermPrinted(t, rest); TermTailStop(t, rest); ExprOfTerm(Print(t, 1) + rest, t, rest); }
        ExprTail(t, rest);
      }
    }
  }

  /** The printed form of any well-formed tree parses back to that tree, and the
      parse stops right after it when what follows is not an operator (the Nil
      sentinel, say, or a stray `)`). */
  lemma {:induction false} ParsePrinted(t: ASTNode, rest: seq<Lexeme>)
    requires WellFormed(t)
    requires !IsAdditive(Peek(rest).kind) && !IsMultiplicative(Peek(rest).kind)
    ensures ParseExpr(Print(t, 0) + rest) == Parsed(Ok(t), rest)
  {
    ExprPrinted(t, rest);
  }

  // ---------------------------------------------------------------------------
  // Errors

  /** Where an operand is expected but the cursor holds neither a NUMBER nor a
      `(` (the sentinel of an empty input, an operator, a `)`), all three rules
      fail at once with ExpectedOperand, naming that lexeme, and consume nothing. */
  lemma {:induction false} MissingOperand(ts: seq<Lexeme>)
    requires !Peek(ts).kind.NUMBER? && !Peek(ts).kind.LPAREN?
    ensures ParseFactor(ts) == Parsed(Err(ExpectedOperand(Peek(ts))), ts)
    ensures ParseTerm(ts) == ParseFactor(ts)
    ensures ParseExpr(ts) == ParseFactor(ts)
  {
  }

  /** An operator whose right operand fails ends the loop with that error,
      unchanged. */
  lemma {:induction false} ExprTailFails(acc: ASTNode, ts: seq<Lexeme>)
    requires ts != [] && IsAdditive(ts[0].kind) && ParseTerm(ts[1..]).result.Err?
    ensures ExprTail(acc, ts) == ParseTerm(ts[1..])
  {
  }

  lemma {:induction false} TermTailFails(acc: ASTNode, ts: seq<Lexeme>)
    requires ts != [] && IsMultiplicative(ts[0].kind) && ParseFactor(ts[1..]).result.Err?
    ensures TermTail(acc, ts) == ParseFactor(ts[1..])
  {
  }

  /** A `(` whose expression is not followed by `)` fails where the `)` should
      be, with UnexpectedKind(RPAREN). */
  lemma {:induction false} MissingClose(ts: seq<Lexeme>)
    requires ts != [] && ts[0].kind.LPAREN?
    requires ParseExpr(ts[1..]).result.Ok? && !Peek(ParseExpr(ts[1..]).rest).kind.RPAREN?
    ensures ParseFactor(ts) == Parsed(Err(UnexpectedKind(RPAREN)), ParseExpr(ts[1..]).rest)
    ensures ParseTerm(ts) == ParseFactor(ts)
    ensures ParseExpr(ts) == ParseFactor(ts)
  {
  }
}
