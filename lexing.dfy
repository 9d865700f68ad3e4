/**
 * The reference semantics of `Lexer::lex`, shared by the three versions of the
 * lexer (x04, x05, x06): one left-to-right pass over the characters, with the
 * lexeme vector and the parenthesis depth as the only state.
 *
 * `Lexed(prior, s)` is the state after the first |s| characters, starting from
 * the lexemes `prior` already in the vector and depth 0.  The lemmas below say
 * what that state means: digit runs, depths, append-only behaviour, the exact
 * error positions, and a printer (`Render`) that `lex` inverts.
 */
module Lexing {
  import opened Prelude
  import opened Lexemes

  /** `char::is_whitespace`: the Unicode White_Space property. */
  predicate IsWhitespace(ch: char) {
    var c := ch as int;
    (0x09 <= c <= 0x0D) || c == 0x20 || c == 0x85 || c == 0xA0 || c == 0x1680 ||
    (0x2000 <= c <= 0x200A) || c == 0x2028 || c == 0x2029 || c == 0x202F ||
    c == 0x205F || c == 0x3000
  }

  /** `char::is_digit(10)`: the ASCII digits only. */
  predicate IsDigit(ch: char) { '0' <= ch <= '9' }

  /** `char::to_digit(10)`, which cannot fail on a digit. */
  function DigitValue(ch: char): (d: nat)
    requires IsDigit(ch)
    ensures d < 10
  {
    (ch as int) - ('0' as int)
  }

  /** The operator characters and the kinds they become. */
  function OperatorKind(ch: char): (r: Option<LexemeKind>)
    ensures r.Some? <==> ch in "+-*/"
    ensures r.Some? ==> IsAdditive(r.value) || IsMultiplicative(r.value)
    ensures r.Some? ==> !IsWhitespace(ch) && !IsDigit(ch) && ch != '(' && ch != ')'
  {
    if ch == '+' then Some(PLUS)
    else if ch == '-' then Some(MINUS)
    else if ch == '*' then Some(LexemeKind.MUL)
    else if ch == '/' then Some(LexemeKind.DIV)
    else None
  }

  /** How one character is treated, in the order `lex` tests it. */
  datatype CharClass = Space | Digit(d: nat) | Open | Close | Operator(kind: LexemeKind) | Other
  {
    /** A digit value is below ten and an operator kind is an operator. */
    predicate Valid() {
      (Digit? ==> d < 10) && (Operator? ==> IsAdditive(kind) || IsMultiplicative(kind))
    }
  }

  function Classify(ch: char): (c: CharClass)
    ensures c.Valid()
  {
    if IsWhitespace(ch) then Space
    else if IsDigit(ch) then Digit(DigitValue(ch))
    else if ch == '(' then Open
    else if ch == ')' then Close
    else if OperatorKind(ch).Some? then Operator(OperatorKind(ch).value)
    else Other
  }

  /** The characters `lex` accepts. */
  predicate Acceptable(ch: char) {
    IsWhitespace(ch) || IsDigit(ch) || ch == '(' || ch == ')' || OperatorKind(ch).Some?
  }

  /** "Unexpected char: '{ch}' at position {position}." (a 0-based char index). */
  datatype LexError = UnexpectedChar(ch: char, position: nat)

  /** The state of one run of `lex`: still scanning; stopped at an unexpected
      character; or stopped at a `)` met at depth 0, where the unsigned depth
      counter would go below zero (a panic in a debug build). */
  datatype LexState =
    | Scanning(lexemes: seq<Lexeme>, depth: nat)
    | Rejected(lexemes: seq<Lexeme>, error: LexError)
    | Underflowed(lexemes: seq<Lexeme>, position: nat)
  {
    /** What x06's `lex` returns: `Some(msg)` exactly when it stopped at an
        unexpected character. */
    function Error(): Option<LexError> {
      if Rejected? then Some(error) else None
    }
  }

  /** A digit merges into the last lexeme if that is a NUMBER, else starts one:
      the vector then ends in a NUMBER whose decimal spelling is the old one's
      (or nothing) followed by the digit, and nothing before it changes. */
  function PushDigit(ls: seq<Lexeme>, d: nat): (r: seq<Lexeme>)
    ensures |r| > 0 && r[|r| - 1].kind.NUMBER?
    ensures |r| == |ls| <==> |ls| > 0 && ls[|ls| - 1].kind.NUMBER?
    ensures |r| == |ls| || |r| == |ls| + 1
    ensures forall i | 0 <= i < |r| - 1 :: r[i] == ls[i]
  {
    if |ls| > 0 && ls[|ls| - 1].kind.NUMBER? then
      ls[..|ls| - 1] + [Lexeme(ls[|ls| - 1].value * 10 + d, LexemeKind.NUMBER)]
    else
      ls + [Lexeme(d, LexemeKind.NUMBER)]
  }

  /** One iteration of the loop in `lex`, on the character `ch` at `index`.  A
      run is rejected only at a character `lex` does not accept, and underflows
      only at a `)` met at depth 0. */
  function Step(st: LexState, ch: char, index: nat): (r: LexState)
    ensures st.Scanning? && r.Rejected? ==> !Acceptable(ch) && r.error == UnexpectedChar(ch, index)
    ensures st.Scanning? && r.Underflowed? ==> ch == ')' && st.depth == 0 && r.position == index
    ensures st.Scanning? && !Acceptable(ch) ==> r.Rejected?
  {
    StepOn(st, Classify(ch), ch, index)
  }

  /** The same iteration, once the character has been classified as `cls`.  A
      stopped run stays as it is; a run that stops keeps its lexemes; and an
      iteration pushes at most one lexeme and removes none. */
  function StepOn(st: LexState, cls: CharClass, ch: char, index: nat): (r: LexState)
    ensures !st.Scanning? ==> r == st
    ensures st.Scanning? && !r.Scanning? ==> r.lexemes == st.lexemes
    ensures |st.lexemes| <= |r.lexemes| <= |st.lexemes| + 1
  {
    if !st.Scanning? then st
    else match cls
      case Space => st
      case Digit(d) => Scanning(PushDigit(st.lexemes, d), st.depth)
      case Open => Scanning(st.lexemes + [Lexeme(st.depth, LPAREN)], st.depth + 1)
      case Close =>
        if st.depth == 0 then Underflowed(st.lexemes, index)
        else Scanning(st.lexemes + [Lexeme(st.depth - 1, RPAREN)], st.depth - 1)
      case Operator(k) => Scanning(st.lexemes + [Lexeme(0, k)], st.depth)
      case Other => Rejected(st.lexemes, UnexpectedChar(ch, index))
  }

  /** The state after lexing `s` onto the lexemes `prior`; the vector never
      shrinks.  Where a run stops is stated by `LexStopsAt`. */
  function Lexed(prior: seq<Lexeme>, s: string): (r: LexState)
    ensures |prior| <= |r.lexemes|
  {
    if |s| == 0 then Scanning(prior, 0)
    else Step(Lexed(prior, s[..|s| - 1]), s[|s| - 1], |s| - 1)
  }

  /** A digit appended to a NUMBER becomes its last decimal digit, and the
      NUMBER's old value its leading digits; otherwise the new NUMBER is the
      digit alone. */
  lemma {:induction false} PushDigitDecimal(ls: seq<Lexeme>, d: nat)
    requires d < 10
    ensures var r := PushDigit(ls, d);
      r[|r| - 1].value % 10 == d &&
      r[|r| - 1].value / 10 == (if |r| == |ls| then ls[|ls| - 1].value else 0)
  {
  }

  lemma {:induction false} LexedSnoc(prior: seq<Lexeme>, s: string, c: char)
    ensures Lexed(prior, s + [c]) == Step(Lexed(prior, s), c, |s|)
  {
    assert (s + [c])[..|s|] == s;
  }

  /** The loop's view of `Lexed`: the state after character `i` is one Step on
      from the state before it. */
  lemma {:induction false} LexedNext(prior: seq<Lexeme>, s: string, i: nat)
    requires i < |s|
    ensures Lexed(prior, s[..i + 1]) == Step(Lexed(prior, s[..i]), s[i], i)
  {
    assert s[..i] + [s[i]] == s[..i + 1];
    LexedSnoc(prior, s[..i], s[i]);
  }

  /** Once `lex` stops, later characters change nothing. */
  lemma {:induction false} LexedHalts(prior: seq<Lexeme>, s: string, k: nat)
    requires k <= |s| && !Lexed(prior, s[..k]).Scanning?
    ensures Lexed(prior, s) == Lexed(prior, s[..k])
    decreases |s|
  {
    if k < |s| {
      var init := s[..|s| - 1];
      assert init[..k] == s[..k];
      LexedHalts(prior, init, k);
    } else {
      assert s[..k] == s;
    }
  }

  /** A whole input that lexes without stopping lexes every prefix without
      stopping. */
  lemma {:induction false} ScanningPrefix(prior: seq<Lexeme>, s: string, k: nat)
    requires k <= |s| && Lexed(prior, s).Scanning?
    ensures Lexed(prior, s[..k]).Scanning?
  {
    if !Lexed(prior, s[..k]).Scanning? {
      LexedHalts(prior, s, k);
    }
  }

  // ---------------------------------------------------------------------------
  // Digit runs

  function Pow10(n: nat): (p: nat)
    ensures p >= 1
  {
    if n == 0 then 1 else 10 * Pow10(n - 1)
  }

  /** The number of digits in `ds`. */
  function DigitCount(ds: string): nat {
    if ds == [] then 0 else (if IsDigit(ds[0]) then 1 else 0) + DigitCount(ds[1..])
  }

  /** The decimal value of the digits in `ds`, read positionally: each digit
      weighs ten to the number of digits that follow it; other characters weigh nothing. */
  function DecimalValue(ds: string): nat {
    if ds == [] then 0
    else if IsDigit(ds[0]) then DigitValue(ds[0]) * Pow10(DigitCount(ds[1..])) + DecimalValue(ds[1..])
    else DecimalValue(ds[1..])
  }

  lemma {:induction false} DecimalSnoc(ds: string, c: char)
    ensures DigitCount(ds + [c]) == DigitCount(ds) + (if IsDigit(c) then 1 else 0)
    ensures DecimalValue(ds + [c]) ==
            if IsDigit(c) then DecimalValue(ds) * 10 + DigitValue(c) else DecimalValue(ds)
  {
    if ds == [] {
      assert [c][1..] == [];
    } else {
      var rest := ds[1..];
      assert (ds + [c])[0] == ds[0];
      assert (ds + [c])[1..] == rest + [c];
      DecimalSnoc(rest, c);
      if IsDigit(ds[0]) && IsDigit(c) {
        var w := DigitValue(ds[0]);
        var n := DigitCount(rest);
        calc {
          DecimalValue(ds + [c]);
          w * Pow10(n + 1) + DecimalValue(rest) * 10 + DigitValue(c);
          { assert w * Pow10(n + 1) == (w * Pow10(n)) * 10; }
          (w * Pow10(n) + DecimalValue(rest)) * 10 + DigitValue(c);
        }
      }
    }
  }

  lemma {:induction false} NoDigitsNoValue(ds: string)
    requires DigitCount(ds) == 0
    ensures DecimalValue(ds) == 0
  {
    if ds != [] {
      NoDigitsNoValue(ds[1..]);
    }
  }

  /** The lexemes before the one a digit would merge into. */
  function Stem(ls: seq<Lexeme>): seq<Lexeme> {
    if |ls| > 0 && ls[|ls| - 1].kind.NUMBER? then ls[..|ls| - 1] else ls
  }

  /** The value a digit would merge into (0 when it starts a new NUMBER). */
  function Base(ls: seq<Lexeme>): nat {
    if |ls| > 0 && ls[|ls| - 1].kind.NUMBER? then ls[|ls| - 1].value else 0
  }

  predicate DigitsAndSpaces(ds: string) {
    forall k | 0 <= k < |ds| :: IsDigit(ds[k]) || IsWhitespace(ds[k])
  }

  /** The vector after a run of digits and whitespace with `count` digits of
      decimal value `value` has been lexed onto `ls`. */
  function AfterRun(ls: seq<Lexeme>, count: nat, value: nat): seq<Lexeme> {
    if count == 0 then ls
    else Stem(ls) + [Lexeme(Base(ls) * Pow10(count) + value, LexemeKind.NUMBER)]
  }

  lemma {:induction false} StepDigit(st: LexState, c: char, i: nat)
    requires st.Scanning? && IsDigit(c)
    ensures Step(st, c, i) == Scanning(PushDigit(st.lexemes, DigitValue(c)), st.depth)
  {
  }

  lemma {:induction false} StepSpace(st: LexState, c: char, i: nat)
    requires IsWhitespace(c)
    ensures Step(st, c, i) == st
  {
  }

  /** `PushDigit` as `lex` performs it: pop the last lexeme, then push either
      the merged NUMBER, or the popped lexeme back and a new NUMBER. */
  lemma {:induction false} PushDigitPopped(ls: seq<Lexeme>, d: nat)
    ensures |ls| > 0 && ls[|ls| - 1].kind.NUMBER? ==>
      PushDigit(ls, d) == ls[..|ls| - 1] + [Lexeme(ls[|ls| - 1].value * 10 + d, LexemeKind.NUMBER)]
    ensures |ls| > 0 && !ls[|ls| - 1].kind.NUMBER? ==>
      PushDigit(ls, d) == ls[..|ls| - 1] + [ls[|ls| - 1]] + [Lexeme(d, LexemeKind.NUMBER)]
    ensures |ls| == 0 ==> PushDigit(ls, d) == ls + [Lexeme(d, LexemeKind.NUMBER)]
  {
    if |ls| > 0 {
      assert ls[..|ls| - 1] + [ls[|ls| - 1]] == ls;
    }
  }

  lemma {:induction false} StepOpen(st: LexState, c: char, i: nat)
    requires st.Scanning? && c == '('
    ensures Step(st, c, i) == Scanning(st.lexemes + [Lexeme(st.depth, LPAREN)], st.depth + 1)
  {
  }

  lemma {:induction false} StepClose(st: LexState, c: char, i: nat)
    requires st.Scanning? && c == ')'
    ensures st.depth == 0 ==> Step(st, c, i) == Underflowed(st.lexemes, i)
    ensures st.depth > 0 ==> Step(st, c, i) == Scanning(st.lexemes + [Lexeme(st.depth - 1, RPAREN)], st.depth - 1)
  {
  }

  lemma {:induction false} StepOperator(st: LexState, c: char, i: nat)
    requires st.Scanning? && OperatorKind(c).Some?
    ensures Step(st, c, i) == Scanning(st.lexemes + [Lexeme(0, OperatorKind(c).value)], st.depth)
  {
  }

  lemma {:induction false} StepOther(st: LexState, c: char, i: nat)
    requires st.Scanning? && !Acceptable(c)
    ensures Step(st, c, i) == Rejected(st.lexemes, UnexpectedChar(c, i))
  {
  }

  lemma {:induction false} PushDigitAfterRun(ls: seq<Lexeme>, count: nat, value: nat, d: nat)
    requires count == 0 ==> value == 0
    ensures PushDigit(AfterRun(ls, count, value), d) == AfterRun(ls, count + 1, value * 10 + d)
  {
    if count > 0 {
      var b, p := Base(ls), Pow10(count);
      assert (b * p + value) * 10 + d == b * (10 * p) + (value * 10 + d);
    }
  }

  lemma {:induction false} DigitsAndSpacesPrefix(ds: string)
    requires DigitsAndSpaces(ds) && ds != []
    ensures DigitsAndSpaces(ds[..|ds| - 1])
  {
    var init := ds[..|ds| - 1];
    forall k | 0 <= k < |init| ensures IsDigit(init[k]) || IsWhitespace(init[k]) {
      assert init[k] == ds[k];
    }
  }

  lemma {:induction false} RunStepDigit(ls: seq<Lexeme>, n: nat, v: nat, depth: nat, c: char, i: nat)
    requires n == 0 ==> v == 0
    requires IsDigit(c)
    ensures Step(Scanning(AfterRun(ls, n, v), depth), c, i) ==
            Scanning(AfterRun(ls, n + 1, v * 10 + DigitValue(c)), depth)
  {
    StepDigit(Scanning(AfterRun(ls, n, v), depth), c, i);
    PushDigitAfterRun(ls, n, v, DigitValue(c));
  }

  /** One more digit or space of a run. */
  lemma {:induction false} RunSnoc(run: string, c: char, ls: seq<Lexeme>, depth: nat, i: nat)
    requires IsDigit(c) || IsWhitespace(c)
    ensures Step(Scanning(AfterRun(ls, DigitCount(run), DecimalValue(run)), depth), c, i) ==
            Scanning(AfterRun(ls, DigitCount(run + [c]), DecimalValue(run + [c])), depth)
  {
    var n, v := DigitCount(run), DecimalValue(run);
    if n == 0 { NoDigitsNoValue(run); }
    DecimalSnoc(run, c);
    if IsDigit(c) {
      RunStepDigit(ls, n, v, depth, c, i);
    } else {
      StepSpace(Scanning(AfterRun(ls, n, v), depth), c, i);
    }
  }

  /** A run of digits, possibly interleaved with whitespace, becomes ONE NUMBER
      whose value is the decimal value of its digits; when the vector already ends
      in a NUMBER the run continues that number. */
  lemma {:induction false} LexDigitRun(prior: seq<Lexeme>, a: string, ds: string, ls: seq<Lexeme>, depth: nat)
    requires Lexed(prior, a) == Scanning(ls, depth)
    requires DigitsAndSpaces(ds)
    ensures Lexed(prior, a + ds) == Scanning(AfterRun(ls, DigitCount(ds), DecimalValue(ds)), depth)
    decreases |ds|
  {
    if ds == [] {
      assert a + ds == a;
    } else {
      var init, c := ds[..|ds| - 1], ds[|ds| - 1];
      assert ds == init + [c];
      assert a + ds == (a + init) + [c];
      DigitsAndSpacesPrefix(ds);
      LexDigitRun(prior, a, init, ls, depth);
      LexedSnoc(prior, a + init, c);
      RunSnoc(init, c, ls, depth, |a + init|);
    }
  }

  // ---------------------------------------------------------------------------
  // Printing lexemes back to text

  function DigitChar(d: nat): (c: char)
    requires d < 10
    ensures IsDigit(c) && DigitValue(c) == d
  {
    (('0' as int) + d) as char
  }

  /** The shortest decimal spelling of `v`. */
  function Digits(v: nat): string
    decreases v
  {
    if v < 10 then [DigitChar(v)] else Digits(v / 10) + [DigitChar(v % 10)]
  }

  lemma {:induction false} DigitsSpellValue(v: nat)
    ensures forall k | 0 <= k < |Digits(v)| :: IsDigit(Digits(v)[k])
    ensures DigitCount(Digits(v)) > 0 && DecimalValue(Digits(v)) == v
    decreases v
  {
    if v < 10 {
      DecimalSnoc([], DigitChar(v));
      assert [] + [DigitChar(v)] == Digits(v);
    } else {
      DigitsSpellValue(v / 10);
      DecimalSnoc(Digits(v / 10), DigitChar(v % 10));
      var ds, front := Digits(v), Digits(v / 10);
      assert ds == front + [DigitChar(v % 10)];
      forall k | 0 <= k < |ds| ensures IsDigit(ds[k]) {
        if k < |front| { assert ds[k] == front[k]; } else { assert ds[k] == DigitChar(v % 10); }
      }
    }
  }

  /** The text of one lexeme. */
  function Spelling(x: Lexeme): string {
    match x.kind
    case NUMBER => Digits(x.value)
    case PLUS => "+"
    case MINUS => "-"
    case MUL => "*"
    case DIV => "/"
    case LPAREN => "("
    case RPAREN => ")"
    case Nil => ""
  }

  /** The text of a lexeme sequence, with no separating whitespace. */
  function Render(ls: seq<Lexeme>): string {
    if ls == [] then [] else Render(ls[..|ls| - 1]) + Spelling(ls[|ls| - 1])
  }

  /** What one lexeme adds to the parenthesis balance. */
  function Delta(k: LexemeKind): int {
    if k.LPAREN? then 1 else if k.RPAREN? then -1 else 0
  }

  /** The number of LPAREN lexemes minus the number of RPAREN lexemes. */
  function Balance(ls: seq<Lexeme>): int {
    if ls == [] then 0 else Balance(ls[..|ls| - 1]) + Delta(ls[|ls| - 1].kind)
  }

  /** When `x` may follow `before` in the output of a fresh lexer. */
  predicate Fits(before: seq<Lexeme>, x: Lexeme) {
    match x.kind
    case NUMBER => |before| == 0 || !before[|before| - 1].kind.NUMBER?
    case LPAREN => x.value == Balance(before)
    case RPAREN => x.value + 1 == Balance(before)
    case Nil => false
    case _ => x.value == 0
  }

  /** The lexeme sequences a fresh lexer can produce: no Nil, no two adjacent
      NUMBERs, operators with value 0, each `(` carrying the number of unmatched
      `(` before it and each `)` that number minus one (so never below zero). */
  predicate Canonical(ls: seq<Lexeme>) {
    ls == [] || (Canonical(ls[..|ls| - 1]) && Fits(ls[..|ls| - 1], ls[|ls| - 1]))
  }

  lemma {:induction false} RenderSnoc(init: seq<Lexeme>, x: Lexeme)
    ensures Render(init + [x]) == Render(init) + Spelling(x)
  {
    assert (init + [x])[..|init|] == init;
  }

  lemma {:induction false} LexRenderNumber(init: seq<Lexeme>, x: Lexeme, depth: nat)
    requires Lexed([], Render(init)) == Scanning(init, depth)
    requires x.kind.NUMBER? && Fits(init, x)
    ensures Lexed([], Render(init + [x])) == Scanning(init + [x], depth)
  {
    var ds := Digits(x.value);
    DigitsSpellValue(x.value);
    assert DigitsAndSpaces(ds);
    calc {
      Lexed([], Render(init + [x]));
      { RenderSnoc(init, x); }
      Lexed([], Render(init) + ds);
      { LexDigitRun([], Render(init), ds, init, depth); }
      Scanning(AfterRun(init, DigitCount(ds), DecimalValue(ds)), depth);
      { assert Stem(init) == init && Base(init) == 0 && DecimalValue(ds) == x.value; }
      Scanning(init + [Lexeme(0 * Pow10(DigitCount(ds)) + x.value, LexemeKind.NUMBER)], depth);
    }
  }

  /** Lexing the one-character spelling of a symbol lexeme `x` that fits after `ls`
      pushes exactly `x`. */
  lemma {:induction false} StepSymbol(ls: seq<Lexeme>, x: Lexeme, i: nat)
    requires !x.kind.NUMBER? && Fits(ls, x) && Balance(ls) >= 0
    ensures |Spelling(x)| == 1 && Balance(ls) + Delta(x.kind) >= 0
    ensures Step(Scanning(ls, Balance(ls)), Spelling(x)[0], i) == Scanning(ls + [x], Balance(ls) + Delta(x.kind))
  {
    var st := Scanning(ls, Balance(ls));
    match x.kind {
      case PLUS => assert Step(st, '+', i) == Scanning(ls + [x], Balance(ls));
      case MINUS => assert Step(st, '-', i) == Scanning(ls + [x], Balance(ls));
      case MUL => assert Step(st, '*', i) == Scanning(ls + [x], Balance(ls));
      case DIV => assert Step(st, '/', i) == Scanning(ls + [x], Balance(ls));
      case LPAREN => assert Step(st, '(', i) == Scanning(ls + [x], Balance(ls) + 1);
      case RPAREN => assert Step(st, ')', i) == Scanning(ls + [x], Balance(ls) - 1);
    }
  }

  lemma {:induction false} LexRenderSymbol(init: seq<Lexeme>, x: Lexeme, depth: nat)
    requires Lexed([], Render(init)) == Scanning(init, depth) && depth == Balance(init)
    requires !x.kind.NUMBER? && Fits(init, x)
    ensures Balance(init + [x]) >= 0
    ensures Lexed([], Render(init + [x])) == Scanning(init + [x], Balance(init + [x]))
  {
    BalanceSnoc(init, x);
    StepSymbol(init, x, |Render(init)|);
    var c := Spelling(x)[0];
    assert Spelling(x) == [c];
    calc {
      Lexed([], Render(init + [x]));
      { RenderSnoc(init, x); }
      Lexed([], Render(init) + [c]);
      { LexedSnoc([], Render(init), c); }
      Step(Scanning(init, depth), c, |Render(init)|);
    }
  }

  /** Round trip: lexing the rendering of a canonical sequence gives it back,
      with the final depth equal to the number of unclosed parentheses. */
  lemma {:induction false} LexRender(ls: seq<Lexeme>)
    requires Canonical(ls)
    ensures Balance(ls) >= 0 && Lexed([], Render(ls)) == Scanning(ls, Balance(ls))
    decreases |ls|
  {
    if ls != [] {
      var init, x := ls[..|ls| - 1], ls[|ls| - 1];
      assert ls == init + [x];
      LexRender(init);
      if x.kind.NUMBER? {
        BalanceSnoc(init, x);
        LexRenderNumber(init, x, Balance(init));
      } else {
        LexRenderSymbol(init, x, Balance(init));
      }
    }
  }

  lemma {:induction false} BalanceSnoc(ls: seq<Lexeme>, x: Lexeme)
    ensures Balance(ls + [x]) == Balance(ls) + Delta(x.kind)
  {
    assert (ls + [x])[..|ls|] == ls;
  }

  lemma {:induction false} CanonicalSnoc(ls: seq<Lexeme>, x: Lexeme)
    requires Canonical(ls) && Fits(ls, x)
    ensures Canonical(ls + [x]) && Balance(ls + [x]) == Balance(ls) + Delta(x.kind)
  {
    assert (ls + [x])[..|ls|] == ls;
    BalanceSnoc(ls, x);
  }

  /** A step keeps the vector of a fresh lexer canonical and its depth equal to
      the number of unclosed parentheses. */
  predicate StepKeepsCanonical(ls: seq<Lexeme>, depth: nat, cls: CharClass, c: char, i: nat) {
    var r := StepOn(Scanning(ls, depth), cls, c, i);
    Canonical(r.lexemes) && (r.Scanning? ==> r.depth == Balance(r.lexemes))
  }

  lemma {:induction false} DigitCanonical(ls: seq<Lexeme>, depth: nat, d: nat, c: char, i: nat)
    requires Canonical(ls) && depth == Balance(ls)
    ensures StepKeepsCanonical(ls, depth, Digit(d), c, i)
  {
    PushDigitCanonical(ls, d);
  }

  lemma {:induction false} OpenCanonical(ls: seq<Lexeme>, depth: nat, c: char, i: nat)
    requires Canonical(ls) && depth == Balance(ls)
    ensures StepKeepsCanonical(ls, depth, Open, c, i)
  {
    CanonicalSnoc(ls, Lexeme(depth, LPAREN));
  }

  lemma {:induction false} CloseCanonical(ls: seq<Lexeme>, depth: nat, c: char, i: nat)
    requires Canonical(ls) && depth == Balance(ls)
    ensures StepKeepsCanonical(ls, depth, Close, c, i)
  {
    if depth > 0 {
      CanonicalSnoc(ls, Lexeme(depth - 1, RPAREN));
    }
  }

  lemma {:induction false} OperatorCanonical(ls: seq<Lexeme>, depth: nat, k: LexemeKind, c: char, i: nat)
    requires Canonical(ls) && depth == Balance(ls) && (IsAdditive(k) || IsMultiplicative(k))
    ensures StepKeepsCanonical(ls, depth, Operator(k), c, i)
  {
    var x := Lexeme(0, k);
    assert StepOn(Scanning(ls, depth), Operator(k), c, i) == Scanning(ls + [x], depth);
    CanonicalSnoc(ls, x);
  }

  lemma {:induction false} StepCanonical(ls: seq<Lexeme>, depth: nat, cls: CharClass, c: char, i: nat)
    requires Canonical(ls) && depth == Balance(ls)
    requires cls.Valid()
    ensures StepKeepsCanonical(ls, depth, cls, c, i)
  {
    match cls
    case Digit(d) => DigitCanonical(ls, depth, d, c, i);
    case Open => OpenCanonical(ls, depth, c, i);
    case Close => CloseCanonical(ls, depth, c, i);
    case Operator(k) => OperatorCanonical(ls, depth, k, c, i);
    case Space =>
    case Other =>
  }

  lemma {:induction false} PushDigitCanonical(ls: seq<Lexeme>, d: nat)
    requires Canonical(ls)
    ensures Canonical(PushDigit(ls, d)) && Balance(PushDigit(ls, d)) == Balance(ls)
  {
    if |ls| > 0 && ls[|ls| - 1].kind.NUMBER? {
      var stem, last := ls[..|ls| - 1], ls[|ls| - 1];
      var merged := Lexeme(last.value * 10 + d, LexemeKind.NUMBER);
      assert ls == stem + [last];
      assert Canonical(stem) && Fits(stem, last);
      assert PushDigit(ls, d) == stem + [merged];
      CanonicalSnoc(stem, merged);
      BalanceSnoc(stem, last);
    } else {
      assert PushDigit(ls, d) == ls + [Lexeme(d, LexemeKind.NUMBER)];
      CanonicalSnoc(ls, Lexeme(d, LexemeKind.NUMBER));
    }
  }

  /** Everything a fresh lexer produces is canonical, and while it scans its depth
      counter equals the number of unclosed parentheses. */
  lemma {:induction false} LexedIsCanonical(s: string)
    ensures Canonical(Lexed([], s).lexemes)
    ensures Lexed([], s).Scanning? ==> Lexed([], s).depth == Balance(Lexed([], s).lexemes)
    decreases |s|
  {
    if s != [] {
      var init := s[..|s| - 1];
      LexedIsCanonical(init);
      var st := Lexed([], init);
      if st.Scanning? {
        StepCanonical(st.lexemes, st.depth, Classify(s[|s| - 1]), s[|s| - 1], |init|);
      }
    }
  }

  /** Rendering a lexer's output and lexing it again reproduces the same state:
      the rendering is a normal form of the input text. */
  lemma {:induction false} LexNormalizes(s: string)
    requires Lexed([], s).Scanning?
    ensures Lexed([], Render(Lexed([], s).lexemes)) == Lexed([], s)
  {
    LexedIsCanonical(s);
    LexRender(Lexed([], s).lexemes);
  }

  // ---------------------------------------------------------------------------
  // Parenthesis depths

  lemma {:induction false} CanonicalAt(ls: seq<Lexeme>, i: nat)
    requires Canonical(ls) && i < |ls|
    ensures Canonical(ls[..i]) && Fits(ls[..i], ls[i])
    decreases |ls|
  {
    var init := ls[..|ls| - 1];
    if i < |init| {
      CanonicalAt(init, i);
      assert init[..i] == ls[..i];
    }
  }

  /** `ls[j]` is the `)` that closes the `(` at `ls[i]`: the balance never drops
      back to its level before `i` in between, and is back there after `j`. */
  predicate Matches(ls: seq<Lexeme>, i: nat, j: nat)
    requires i < j < |ls|
  {
    ls[i].kind.LPAREN? && ls[j].kind.RPAREN? &&
    Balance(ls[..j + 1]) == Balance(ls[..i]) &&
    forall k | i < k <= j :: Balance(ls[..k]) > Balance(ls[..i])
  }

  /** In the output of a fresh lexer every `(` records the depth before it and
      every `)` the depth after it, and a matched pair records the same depth. */
  lemma {:induction false} ParenDepths(ls: seq<Lexeme>, i: nat)
    requires Canonical(ls) && i < |ls|
    ensures ls[i].kind.LPAREN? ==> ls[i].value == Balance(ls[..i])
    ensures ls[i].kind.RPAREN? ==> ls[i].value == Balance(ls[..i + 1]) == Balance(ls[..i]) - 1
  {
    CanonicalAt(ls, i);
    BalanceSnoc(ls[..i], ls[i]);
    assert ls[..i + 1] == ls[..i] + [ls[i]];
  }

  lemma {:induction false} MatchedParensShareDepth(ls: seq<Lexeme>, i: nat, j: nat)
    requires Canonical(ls) && i < j < |ls| && Matches(ls, i, j)
    ensures ls[i].value == ls[j].value
  {
    ParenDepths(ls, i);
    ParenDepths(ls, j);
  }

  // ---------------------------------------------------------------------------
  // Lexing onto a non-empty vector

  /** `lex` never removes what the vector held before the call: everything but
      a final NUMBER stays in place, that NUMBER stays a NUMBER and only grows,
      and the vector never shrinks. */
  predicate Extends(prior: seq<Lexeme>, ls: seq<Lexeme>) {
    |ls| >= |prior| && ls[..|Stem(prior)|] == Stem(prior) &&
    (Stem(prior) != prior ==>
      ls[|prior| - 1].kind.NUMBER? && ls[|prior| - 1].value >= prior[|prior| - 1].value)
  }

  lemma {:induction false} StepExtends(prior: seq<Lexeme>, st: LexState, c: char, i: nat)
    requires Extends(prior, st.lexemes)
    ensures Extends(prior, Step(st, c, i).lexemes)
  {
    var ls, r := st.lexemes, Step(st, c, i).lexemes;
    if r != ls {
      if |r| == |ls| + 1 {
        assert r[..|ls|] == ls;
        assert r[..|Stem(prior)|] == ls[..|Stem(prior)|];
        assert Stem(prior) != prior ==> r[|prior| - 1] == ls[|prior| - 1];
      } else {
        assert r[..|ls| - 1] == ls[..|ls| - 1];
        assert |Stem(prior)| <= |ls| - 1;
        assert r[..|Stem(prior)|] == ls[..|Stem(prior)|];
      }
    }
  }

  lemma {:induction false} LexKeepsPrior(prior: seq<Lexeme>, s: string)
    ensures Extends(prior, Lexed(prior, s).lexemes)
    decreases |s|
  {
    if s == [] {
      assert prior[..|Stem(prior)|] == Stem(prior);
    } else {
      LexKeepsPrior(prior, s[..|s| - 1]);
      StepExtends(prior, Lexed(prior, s[..|s| - 1]), s[|s| - 1], |s| - 1);
    }
  }

  /** `prior` in front of the lexemes of a state. */
  function Prepend(prior: seq<Lexeme>, st: LexState): LexState {
    st.(lexemes := prior + st.lexemes)
  }

  lemma {:induction false} StepPrepend(prior: seq<Lexeme>, st: LexState, cls: CharClass, c: char, i: nat)
    requires prior == [] || !prior[|prior| - 1].kind.NUMBER?
    ensures StepOn(Prepend(prior, st), cls, c, i) == Prepend(prior, StepOn(st, cls, c, i))
  {
    if st.Scanning? {
      var ls := st.lexemes;
      match cls
      case Digit(d) =>
        if |ls| > 0 {
          assert (prior + ls)[..|prior + ls| - 1] == prior + ls[..|ls| - 1];
          assert (prior + ls)[|prior + ls| - 1] == ls[|ls| - 1];
        }
        assert prior + ls + [Lexeme(d, LexemeKind.NUMBER)] == prior + (ls + [Lexeme(d, LexemeKind.NUMBER)]);
      case Open => assert prior + ls + [Lexeme(st.depth, LPAREN)] == prior + (ls + [Lexeme(st.depth, LPAREN)]);
      case Close =>
        if st.depth > 0 {
          assert prior + ls + [Lexeme(st.depth - 1, RPAREN)] == prior + (ls + [Lexeme(st.depth - 1, RPAREN)]);
        }
      case Operator(k) => assert prior + ls + [Lexeme(0, k)] == prior + (ls + [Lexeme(0, k)]);
      case Space =>
      case Other =>
    }
  }

  /** When the vector does not end in a NUMBER, `lex` behaves exactly as on an
      empty vector, with the old lexemes kept in front. */
  lemma {:induction false} LexAfterNonNumber(prior: seq<Lexeme>, s: string)
    requires prior == [] || !prior[|prior| - 1].kind.NUMBER?
    ensures Lexed(prior, s) == Prepend(prior, Lexed([], s))
    decreases |s|
  {
    if s == [] {
      assert prior + [] == prior;
    } else {
      LexAfterNonNumber(prior, s[..|s| - 1]);
      StepPrepend(prior, Lexed([], s[..|s| - 1]), Classify(s[|s| - 1]), s[|s| - 1], |s| - 1);
    }
  }

  /** No Nil, and no NUMBER directly after a NUMBER. */
  predicate WellShaped(ls: seq<Lexeme>) {
    (forall k | 0 <= k < |ls| :: !ls[k].kind.Nil?) &&
    (forall k | 0 < k < |ls| :: !(ls[k - 1].kind.NUMBER? && ls[k].kind.NUMBER?))
  }

  lemma {:induction false} StepWellShaped(st: LexState, c: char, i: nat)
    requires WellShaped(st.lexemes)
    ensures WellShaped(Step(st, c, i).lexemes)
  {
    var ls, r := st.lexemes, Step(st, c, i).lexemes;
    if r != ls {
      if |r| == |ls| + 1 {
        assert r[..|ls|] == ls;
        assert !r[|ls|].kind.Nil?;
        assert r[|ls|].kind.NUMBER? ==> |ls| == 0 || !ls[|ls| - 1].kind.NUMBER?;
        forall k | 0 < k < |r| ensures !(r[k - 1].kind.NUMBER? && r[k].kind.NUMBER?) {
          if k < |ls| { assert r[k - 1] == ls[k - 1] && r[k] == ls[k]; }
        }
      } else {
        assert r[..|ls| - 1] == ls[..|ls| - 1];
        forall k | 0 < k < |r| ensures !(r[k - 1].kind.NUMBER? && r[k].kind.NUMBER?) {
          if k < |r| - 1 { assert r[k - 1] == ls[k - 1] && r[k] == ls[k]; }
          else { assert r[k - 1] == ls[k - 1]; }
        }
      }
    }
  }

  /** Whatever the vector held, `lex` pushes no Nil and never leaves two NUMBERs
      side by side. */
  lemma {:induction false} LexWellShaped(prior: seq<Lexeme>, s: string)
    requires WellShaped(prior)
    ensures WellShaped(Lexed(prior, s).lexemes)
    decreases |s|
  {
    if s != [] {
      LexWellShaped(prior, s[..|s| - 1]);
      StepWellShaped(Lexed(prior, s[..|s| - 1]), s[|s| - 1], |s| - 1);
    }
  }

  lemma {:induction false} CanonicalWellShaped(ls: seq<Lexeme>)
    requires Canonical(ls)
    ensures WellShaped(ls)
    ensures forall k | 0 <= k < |ls| :: IsAdditive(ls[k].kind) || IsMultiplicative(ls[k].kind) ==> ls[k].value == 0
    decreases |ls|
  {
    if ls != [] {
      var init := ls[..|ls| - 1];
      CanonicalWellShaped(init);
      assert forall k | 0 <= k < |init| :: ls[k] == init[k];
    }
  }

  // ---------------------------------------------------------------------------
  // Where `lex` stops

  /** The reported error is the first unacceptable character, at its index
      among all characters of the input, and the lexemes are those pushed before it. */
  lemma {:induction false} LexStopsAt(prior: seq<Lexeme>, s: string)
    ensures Lexed(prior, s).Rejected? ==>
      var p := Lexed(prior, s).error.position;
      p < |s| && s[p] == Lexed(prior, s).error.ch && !Acceptable(s[p]) &&
      Lexed(prior, s[..p]).Scanning? && Lexed(prior, s[..p]).lexemes == Lexed(prior, s).lexemes
    ensures Lexed(prior, s).Underflowed? ==>
      var p := Lexed(prior, s).position;
      p < |s| && s[p] == ')' && Lexed(prior, s[..p]) == Scanning(Lexed(prior, s).lexemes, 0)
    decreases |s|
  {
    if s != [] {
      var init := s[..|s| - 1];
      LexStopsAt(prior, init);
      var st := Lexed(prior, init);
      if !st.Scanning? {
        var p := if st.Rejected? then st.error.position else st.position;
        assert s[..p] == init[..p] && s[p] == init[p];
      } else {
        assert s[..|s| - 1] == init;
      }
    }
  }

  /** Conversely, an unacceptable character with only acceptable lexing before
      it is reported, and a `)` at depth 0 underflows. */
  lemma {:induction false} LexRejectsAt(prior: seq<Lexeme>, s: string, p: nat)
    requires p < |s| && Lexed(prior, s[..p]).Scanning? && !Acceptable(s[p])
    ensures Lexed(prior, s) == Rejected(Lexed(prior, s[..p]).lexemes, UnexpectedChar(s[p], p))
    ensures Lexed(prior, s).Error() == Some(UnexpectedChar(s[p], p))
  {
    LexedSnoc(prior, s[..p], s[p]);
    assert s[..p] + [s[p]] == s[..p + 1];
    LexedHalts(prior, s, p + 1);
  }

  lemma {:induction false} LexUnderflowsAt(prior: seq<Lexeme>, s: string, p: nat)
    requires p < |s| && s[p] == ')' && Lexed(prior, s[..p]).Scanning? && Lexed(prior, s[..p]).depth == 0
    ensures Lexed(prior, s) == Underflowed(Lexed(prior, s[..p]).lexemes, p)
  {
    LexedSnoc(prior, s[..p], s[p]);
    assert s[..p] + [s[p]] == s[..p + 1];
    LexedHalts(prior, s, p + 1);
  }

  /** On input made of acceptable characters only, `lex` reports no error. */
  lemma {:induction false} LexAcceptsAll(prior: seq<Lexeme>, s: string)
    requires forall k | 0 <= k < |s| :: Acceptable(s[k])
    ensures Lexed(prior, s).Error() == None
  {
    LexStopsAt(prior, s);
  }

  // ---------------------------------------------------------------------------
  // Examples

  lemma {:induction false} ExampleSpacedDigits()
    ensures Lexed([], "1 2") == Scanning([Lexeme(12, LexemeKind.NUMBER)], 0)
  {
    LexedSnoc([], "", '1');
    StepDigit(Scanning([], 0), '1', 0);
    assert Lexed([], "1") == Scanning([Lexeme(1, LexemeKind.NUMBER)], 0);
    LexedSnoc([], "1", ' ');
    StepSpace(Lexed([], "1"), ' ', 1);
    LexedSnoc([], "1 ", '2');
    StepDigit(Lexed([], "1 "), '2', 2);
  }

  lemma {:induction false} ExampleUnexpected()
    ensures Lexed([], "1@2") == Rejected([Lexeme(1, LexemeKind.NUMBER)], UnexpectedChar('@', 1))
  {
    LexedSnoc([], "", '1');
    LexedSnoc([], "1", '@');
    LexedSnoc([], "1@", '2');
  }

  lemma {:induction false} ExampleDepths()
    ensures Lexed([], "(()") == Scanning([Lexeme(0, LPAREN), Lexeme(1, LPAREN), Lexeme(1, RPAREN)], 1)
  {
    LexedSnoc([], "", '(');
    LexedSnoc([], "(", '(');
    LexedSnoc([], "((", ')');
  }

  lemma {:induction false} ExampleUnderflow()
    ensures Lexed([], "1)") == Underflowed([Lexeme(1, LexemeKind.NUMBER)], 1)
  {
    LexedSnoc([], "", '1');
    LexedSnoc([], "1", ')');
  }
}
