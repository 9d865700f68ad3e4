/**
 * The token and syntax-tree types shared by the lexers, the parsers and the
 * evaluator: `LexemeKind`, `Lexeme`, `ASTNodeKind`, `ASTNode` and the
 * conversion `astnode_kind_from_lexeme_type`.
 *
 * The fixed-width `u64`/`u128`/`i128` payloads become unbounded `nat`/`int`.
 */
module Lexemes {
  import opened Prelude

  datatype LexemeKind = NUMBER | PLUS | MINUS | MUL | DIV | LPAREN | RPAREN | Nil

  /** A lexeme: its kind and its `integral_value`, which is the number for a NUMBER,
      the nesting depth for a parenthesis and 0 for everything else. */
  datatype Lexeme = Lexeme(value: nat, kind: LexemeKind)

  /** The end-of-input sentinel the parser appends. */
  const NilLexeme := Lexeme(0, Nil)

  predicate IsAdditive(k: LexemeKind) { k.PLUS? || k.MINUS? }

  predicate IsMultiplicative(k: LexemeKind) { k.MUL? || k.DIV? }

  /** The kinds `astnode_kind_from_lexeme_type` accepts without panicking. */
  predicate IsConvertible(k: LexemeKind) { k.NUMBER? || IsAdditive(k) || IsMultiplicative(k) }

  datatype ASTNodeKind = NUMBER | ADD | SUB | MUL | DIV

  /** The source's node record, children included as optional boxes. */
  datatype ASTNode = ASTNode(value: int, kind: ASTNodeKind, left: Option<ASTNode>, right: Option<ASTNode>)

  /** The node `factor` builds for a NUMBER lexeme; the `u64` to `i128` cast
      there is exact, so the value is kept as it is. */
  function Leaf(v: int): (t: ASTNode)
    ensures Complete(t)
    ensures WellFormed(t) <==> v >= 0
  {
    ASTNode(v, ASTNodeKind.NUMBER, None, None)
  }

  /** The node `term` and `expr` fold an operator into. */
  function Binary(k: ASTNodeKind, l: ASTNode, r: ASTNode): (t: ASTNode)
    ensures !k.NUMBER? && WellFormed(l) && WellFormed(r) ==> WellFormed(t)
  {
    ASTNode(0, k, Some(l), Some(r))
  }

  /** `astnode_kind_from_lexeme_type`; it panics on the parentheses and on Nil. */
  function AstKind(k: LexemeKind): (r: ASTNodeKind)
    requires IsConvertible(k)
    ensures r.NUMBER? == k.NUMBER?
    ensures LexemeKindOf(r) == k
  {
    match k
    case NUMBER => ASTNodeKind.NUMBER
    case PLUS => ADD
    case MINUS => SUB
    case MUL => ASTNodeKind.MUL
    case DIV => ASTNodeKind.DIV
  }

  /** The lexeme kind each node kind comes from (the inverse of `AstKind`). */
  function LexemeKindOf(k: ASTNodeKind): (r: LexemeKind)
    ensures IsConvertible(r)
  {
    match k
    case NUMBER => LexemeKind.NUMBER
    case ADD => PLUS
    case SUB => MINUS
    case MUL => LexemeKind.MUL
    case DIV => LexemeKind.DIV
  }

  lemma {:induction false} KindRoundTrip(k: ASTNodeKind)
    ensures AstKind(LexemeKindOf(k)) == k
  {
    match k
    case NUMBER =>
    case ADD =>
    case SUB =>
    case MUL =>
    case DIV =>
  }

  /** Every operator node has both children: what `ast_visitor` needs to avoid its
      "Empty lhs/rhs" panics. */
  predicate Complete(t: ASTNode) {
    t.kind.NUMBER? ||
    (t.left.Some? && t.right.Some? && Complete(t.left.value) && Complete(t.right.value))
  }

  /** The shape the parser builds: leaves hold a non-negative value and no children;
      operator nodes hold value 0 and two well-formed children. */
  predicate WellFormed(t: ASTNode) {
    if t.kind.NUMBER? then
      t.value >= 0 && t.left.None? && t.right.None?
    else
      t.value == 0 && t.left.Some? && t.right.Some? &&
      WellFormed(t.left.value) && WellFormed(t.right.value)
  }

  lemma {:induction false} WellFormedIsComplete(t: ASTNode)
    requires WellFormed(t)
    ensures Complete(t)
  {
    if !t.kind.NUMBER? {
      WellFormedIsComplete(t.left.value);
      WellFormedIsComplete(t.right.value);
    }
  }
}
