/**
 * `ast_visitor` of x06: the tree-walking evaluator.  A NUMBER node is its value;
 * an operator node evaluates its left child, then its right child, and combines
 * the two with its operator.  Values are exact reals, and a zero divisor is an
 * explicit error where the source's `f64` division yields an infinity or NaN.
 */
module Interpreter {
  import opened Prelude
  import opened Lexemes
  import opened Grammar

  datatype EvalError = DivisionByZero

  /** An operator applied to the values of the two children; the first error
      met, in evaluation order, is the result. */
  function Apply(k: ASTNodeKind, a: Result<real, EvalError>, b: Result<real, EvalError>): (r: Result<real, EvalError>)
    requires !k.NUMBER?
    ensures r.Err? <==> a.Err? || b.Err? || (k.DIV? && b == Ok(0.0))
  {
    if a.Err? then a
    else if b.Err? then b
    else match k
      case ADD => Ok(a.value + b.value)
      case SUB => Ok(a.value - b.value)
      case MUL => Ok(a.value * b.value)
      case DIV => if b.value == 0.0 then Err(DivisionByZero) else Ok(a.value / b.value)
  }

  /** No node of the tree is a division. */
  predicate DivisionFree(t: ASTNode) {
    !t.kind.DIV? &&
    (t.left.Some? ==> DivisionFree(t.left.value)) &&
    (t.right.Some? ==> DivisionFree(t.right.value))
  }

  /** `ast_visitor`.  Its "Empty lhs/rhs" panics are excluded by `Complete`, and
      its "Illegal code location!" arm cannot be reached once NUMBER is handled.
      Only a division can fail, and a leaf is its own value. */
  function Visit(root: ASTNode): (r: Result<real, EvalError>)
    requires Complete(root)
    ensures DivisionFree(root) ==> r.Ok?
    ensures r.Err? ==> !DivisionFree(root)
    ensures root.kind.NUMBER? ==> r == Ok(root.value as real)
  {
    if root.kind.NUMBER? then Ok(root.value as real)
    else Apply(root.kind, Visit(root.left.value), Visit(root.right.value))
  }

  /** The trees the parser returns are complete, so `ast_visitor` never panics
      on them. */
  lemma {:induction false} ParsedTreesAreComplete(ts: seq<Lexeme>)
    ensures ParseExpr(ts).result.Ok? ==> Complete(ParseExpr(ts).result.value)
  {
    if ParseExpr(ts).result.Ok? {
      WellFormedIsComplete(ParseExpr(ts).result.value);
    }
  }

  // ---------------------------------------------------------------------------
  // A reference semantics: the value of the input computed while reading it
  // with the grammar the program advertises, without building a tree

  /** The value read so far and the lexemes left. */
  datatype Reading = Reading(value: Result<real, EvalError>, rest: seq<Lexeme>)

  function ReadFactor(ts: seq<Lexeme>): (r: Option<Reading>)
    ensures r.Some? ==> |r.value.rest| < |ts|
    decreases |ts|, 0
  {
    var t := Peek(ts);
    if t.kind.NUMBER? then Some(Reading(Ok(t.value as real), ts[1..]))
    else if t.kind.LPAREN? then
      match ReadExpr(ts[1..])
      case None => None
      case Some(inner) =>
        if Peek(inner.rest).kind.RPAREN? then Some(Reading(inner.value, inner.rest[1..])) else None
    else None
  }

  function ReadTermTail(acc: Result<real, EvalError>, ts: seq<Lexeme>): (r: Option<Reading>)
    ensures r.Some? ==> |r.value.rest| <= |ts|
    decreases |ts|, 0
  {
    var t := Peek(ts);
    if IsMultiplicative(t.kind) then
      match ReadFactor(ts[1..])
      case None => None
      case Some(f) => ReadTermTail(Apply(AstKind(t.kind), acc, f.value), f.rest)
    else Some(Reading(acc, ts))
  }

  function ReadTerm(ts: seq<Lexeme>): (r: Option<Reading>)
    ensures r.Some? ==> |r.value.rest| < |ts|
    decreases |ts|, 1
  {
    match ReadFactor(ts)
    case None => None
    case Some(f) => ReadTermTail(f.value, f.rest)
  }

  function ReadExprTail(acc: Result<real, EvalError>, ts: seq<Lexeme>): (r: Option<Reading>)
    ensures r.Some? ==> |r.value.rest| <= |ts|
    decreases |ts|, 0
  {
    var t := Peek(ts);
    if IsAdditive(t.kind) then
      match ReadTerm(ts[1..])
      case None => None
      case Some(e) => ReadExprTail(Apply(AstKind(t.kind), acc, e.value), e.rest)
    else Some(Reading(acc, ts))
  }

  function ReadExpr(ts: seq<Lexeme>): (r: Option<Reading>)
    ensures r.Some? ==> |r.value.rest| < |ts|
    decreases |ts|, 2
  {
    match ReadTerm(ts)
    case None => None
    case Some(e) => ReadExprTail(e.value, e.rest)
  }

  /** What evaluating the result of a rule gives, as a reading. */
  function Evaluated(p: Parsed): Option<Reading>
    requires p.result.Ok? ==> WellFormed(p.result.value)
  {
    if p.result.Err? then None
    else
      WellFormedIsComplete(p.result.value);
      Some(Reading(Visit(p.result.value), p.rest))
  }

  lemma {:induction false} FactorEvaluates(ts: seq<Lexeme>)
    ensures ReadFactor(ts) == Evaluated(ParseFactor(ts))
    decreases |ts|, 0
  {
    if Peek(ts).kind.LPAREN? {
      ExprEvaluates(ts[1..]);
    }
  }

  lemma {:induction false} TermTailEvaluates(acc: ASTNode, ts: seq<Lexeme>)
    requires WellFormed(acc)
    ensures (WellFormedIsComplete(acc); ReadTermTail(Visit(acc), ts) == Evaluated(TermTail(acc, ts)))
    decreases |ts|, 0
  {
    WellFormedIsComplete(acc);
    var t := Peek(ts);
    if IsMultiplicative(t.kind) {
      var f := ParseFactor(ts[1..]);
      FactorEvaluates(ts[1..]);
      if f.result.Ok? {
        var node := Binary(AstKind(t.kind), acc, f.result.value);
        WellFormedIsComplete(node);
        assert Visit(node) == Apply(AstKind(t.kind), Visit(acc), Visit(f.result.value));
        TermTailEvaluates(node, f.rest);
      }
    }
  }

  lemma {:induction false} TermEvaluates(ts: seq<Lexeme>)
    ensures ReadTerm(ts) == Evaluated(ParseTerm(ts))
    decreases |ts|, 1
  {
    var f := ParseFactor(ts);
    FactorEvaluates(ts);
    if f.result.Ok? {
      TermTailEvaluates(f.result.value, f.rest);
    }
  }

  lemma {:induction false} ExprTailEvaluates(acc: ASTNode, ts: seq<Lexeme>)
    requires WellFormed(acc)
    ensures (WellFormedIsComplete(acc); ReadExprTail(Visit(acc), ts) == Evaluated(ExprTail(acc, ts)))
    decreases |ts|, 0
  {
    WellFormedIsComplete(acc);
    var t := Peek(ts);
    if IsAdditive(t.kind) {
      var e := ParseTerm(ts[1..]);
      TermEvaluates(ts[1..]);
      if e.result.Ok? {
        var node := Binary(AstKind(t.kind), acc, e.result.value);
        WellFormedIsComplete(node);
        assert Visit(node) == Apply(AstKind(t.kind), Visit(acc), Visit(e.result.value));
        ExprTailEvaluates(node, e.rest);
      }
    }
  }

  /** Parsing and then evaluating the tree gives what reading the input with
      the grammar gives: the same value, or the same division by zero, and the
      same lexemes left; and the parser fails exactly where the reading does. */
  lemma {:induction false} ExprEvaluates(ts: seq<Lexeme>)
    ensures ReadExpr(ts) == Evaluated(ParseExpr(ts))
    decreases |ts|, 2
  {
    var e := ParseTerm(ts);
    TermEvaluates(ts);
    if e.result.Ok? {
      ExprTailEvaluates(e.result.value, e.rest);
    }
  }
}
