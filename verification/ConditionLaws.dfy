// The laws of conditions, stated on texts: what negation, disjunction, comparison, the
// status functions, the text functions and literals mean when a text is evaluated.
module ConditionLaws {
  import opened Text
  import opened Search
  import opened ConditionParser
  import opened ConditionLexer
  import opened ConditionMeaning
  import Lexical = ConditionTokens

  // ------------------------------------------------------------ building texts

  /** Two texts in parentheses with an operator between them. */
  function Infix(p: string, op: Token, c: string): string {
    "(" + p + ") " + Spell(op) + " (" + c + ")"
  }

  function Negated(p: string): string {
    "!(" + p + ")"
  }

  predicate IsOperator(op: Token) {
    op.And? || op.Or? || op.Compare?
  }

  function Joined(op: Token, x: Node, y: Node): Node
    requires IsOperator(op)
  {
    match op
    case And => Conjunction(x, y)
    case Or => Disjunction(x, y)
    case Compare(c) => Comparison(c, x, y)
  }

  // ---------------------------------------------------------- what they parse to

  lemma LexInfix(h: Host, p: string, op: Token, c: string)
    requires SoundClasses(h) && Lex(h, p).Tokens? && Lex(h, c).Tokens? && IsOperator(op)
    ensures Lex(h, Infix(p, op, c)) ==
            Tokens(([LeftParen] + BodyOf(Lex(h, p)) + [RightParen]) + [op] +
                ([LeftParen] + BodyOf(Lex(h, c)) + [RightParen]) + [EOF])
  {
    hide Lex, SoundClasses, BodyOf, Spell;
    var rest := ") " + (Spell(op) + " " + ("(" + c + ")"));
    assert Infix(p, op, c) == "(" + (p + rest);
    LexOpen(h, p + rest);
    LexAppend(h, p, rest);
    LexSecond(h, op, c);
    var bp, bc := BodyOf(Lex(h, p)), BodyOf(Lex(h, c));
    assert [LeftParen] + (bp + ([RightParen, op, LeftParen] + bc + [RightParen, EOF])) ==
           ([LeftParen] + bp + [RightParen]) + [op] + ([LeftParen] + bc + [RightParen]) + [EOF];
  }

  /** The text behind the first operand. */
  lemma LexSecond(h: Host, op: Token, c: string)
    requires SoundClasses(h) && Lex(h, c).Tokens? && IsOperator(op)
    ensures Lex(h, ") " + (Spell(op) + " " + ("(" + c + ")"))) ==
            Tokens([RightParen, op, LeftParen] + BodyOf(Lex(h, c)) + [RightParen, EOF])
  {
    hide Lex, SoundClasses, BodyOf, ReadsBack;
    LexGroup(h, c);
    FixedTokensReadBack(h, op);
    LexOne(h, op, "(" + c + ")");
    var tail := Spell(op) + " " + ("(" + c + ")");
    assert Spell(RightParen) + " " + tail == ") " + tail;
    FixedTokensReadBack(h, RightParen);
    LexOne(h, RightParen, tail);
    var bc := BodyOf(Lex(h, c));
    assert [RightParen] + ([op] + ([LeftParen] + bc + [RightParen, EOF])) == [RightParen, op, LeftParen] + bc +
        [RightParen, EOF];
  }

  lemma LexGroup(h: Host, c: string)
    requires SoundClasses(h) && Lex(h, c).Tokens?
    ensures Lex(h, "(" + c + ")") == Tokens([LeftParen] + BodyOf(Lex(h, c)) + [RightParen, EOF])
  {
    hide Lex, SoundClasses, BodyOf;
    assert "(" + c + ")" == "(" + (c + ")");
    LexOpen(h, c + ")");
    LexAppend(h, c, ")");
    LexClose(h);
    var bc := BodyOf(Lex(h, c));
    assert [LeftParen] + (bc + [RightParen, EOF]) == [LeftParen] + bc + [RightParen, EOF];
  }

  lemma JoinedDerives(h: Host, tp: Tree, op: Token, tc: Tree) returns (t: Tree)
    requires Derives(h, tp, Disjoined) && Derives(h, tc, Disjoined) && IsOperator(op)
    ensures Derives(h, t, Disjoined) && Ast(t) == Joined(op, Ast(tp), Ast(tc))
    ensures Yield(t) == ([LeftParen] + Yield(tp) + [RightParen]) + [op] + ([LeftParen] + Yield(tc) + [RightParen])
  {
    match op
    case And => t := Conj(Group(tp), Group(tc));
    case Or => t := Disj(Group(tp), Group(tc));
    case Compare(c) => t := Comp(c, Group(tp), Group(tc));
  }

  /** Every operator between two texts that parse parses to the operator between their trees. */
  lemma InfixParses(h: Host, p: string, op: Token, c: string)
    requires SoundClasses(h) && ParseText(h, p).Parsed? && ParseText(h, c).Parsed? && IsOperator(op)
    ensures ParseText(h, Infix(p, op, c)).Parsed?
    ensures ParseText(h, Infix(p, op, c)).node == Joined(op, ParseText(h, p).node, ParseText(h, c).node)
  {
    hide Lex, SoundClasses, ParseTokens, Derives, Yield, Ast;
    var tp := TextHasTree(h, p);
    var tc := TextHasTree(h, c);
    LexInfix(h, p, op, c);
    var t := JoinedDerives(h, tp, op, tc);
    ParsesDerivation(h, t);
  }

  lemma NegatedParses(h: Host, p: string)
    requires SoundClasses(h) && ParseText(h, p).Parsed?
    ensures ParseText(h, Negated(p)).Parsed? && ParseText(h, Negated(p)).node == Negation(ParseText(h, p).node)
  {
    hide Lex, SoundClasses, ParseTokens, Derives;
    var tp := TextHasTree(h, p);
    var rest := "(" + (p + ")");
    assert Negated(p) == "!" + rest;
    LexNot(h, rest);
    LexOpen(h, p + ")");
    LexAppend(h, p, ")");
    LexClose(h);
    var t := Neg(Group(tp));
    assert Derives(h, t, Disjoined) by { NegatedDerives(h, tp); }
    assert [Not] + ([LeftParen] + (Yield(tp) + [RightParen, EOF])) == Yield(t) + [EOF];
    ParsesDerivation(h, t);
  }

  lemma NegatedDerives(h: Host, t: Tree)
    requires Derives(h, t, Disjoined)
    ensures Derives(h, Neg(Group(t)), Disjoined)
  {
  }

  lemma LexNot(h: Host, s: string)
    requires s != "" && s[0] == '('
    ensures Lex(h, "!" + s) == Cons(Not, Lex(h, s))
  {
    var t := "!" + s;
    assert t[1..] == s;
    LexSymbol(h, t);
  }

  // ------------------------------------------------------------------- values

  /** What a text that is not empty evaluates to, before it is asked whether that is met. */
  function ValueOf(h: Host, m: Semantics, text: string, ctx: Context): Result<Value> {
    match ParseText(h, text)
    case Bad => Error
    case Parsed(node, _) => EvaluateNode(m, node, ctx)
  }

  /** The values that do not count as met. */
  const EMPTY_VALUES: set<Value> := {VNull, VBool(false), VString(""), VNumber(0.0)}

  /** A text is met by every value but null, false, the empty text and zero. */
  lemma MetExactly(h: Host, m: Semantics, text: string, ctx: Context)
    requires Normalize(text) != ""
    ensures var v := ValueOf(h, m, Normalize(text), ctx);
            Evaluate(h, m, text, ctx) == if v.Error? then Error else Ok(v.value !in EMPTY_VALUES)
  {
    hide ParseText, Normalize, EvaluateNode;
  }

  function NotOf(r: Result<bool>): Result<bool> {
    if r.Error? then Error else Ok(!r.value)
  }

  /** Short-circuit disjunction of two outcomes. */
  function OrElse(first: Result<bool>, second: Result<bool>): Result<bool> {
    if first.Error? then Error else if first.value then Ok(true) else second
  }

  lemma BareStays(p: string)
    requires Trimmed(p) && p != "" && !Wrapped(p)
    ensures Normalize(p) == p
  {
  }

  lemma InfixIsBare(p: string, op: Token, c: string)
    ensures Normalize(Infix(p, op, c)) == Infix(p, op, c) && Infix(p, op, c) != ""
  {
    hide Spell;
    var s := Infix(p, op, c);
    assert s[0] == '(' && s[|s| - 1] == ')';
    BareStays(s);
  }

  lemma NegatedIsBare(p: string)
    ensures Normalize(Negated(p)) == Negated(p) && Negated(p) != ""
  {
    var s := Negated(p);
    assert s[0] == '!' && s[|s| - 1] == ')';
    BareStays(s);
  }

  // ---------------------------------------------------------- the connectives

  /** The texts compile, to trees. */
  predicate Proper(h: Host, text: string) {
    Normalize(text) != "" && Compiles(h, text)
  }

  lemma NegationMeans(h: Host, m: Semantics, p: string, ctx: Context)
    requires SoundClasses(h) && Proper(h, p)
    ensures Evaluate(h, m, Negated(Normalize(p)), ctx) == NotOf(Evaluate(h, m, p, ctx))
  {
    hide ParseText, SoundClasses, Normalize;
    NegatedParses(h, Normalize(p));
    NegatedIsBare(Normalize(p));
  }

  lemma ConnectivesMean(h: Host, m: Semantics, p: string, c: string, ctx: Context)
    requires SoundClasses(h) && Proper(h, p) && Proper(h, c)
    ensures var a, b := Evaluate(h, m, p, ctx), Evaluate(h, m, c, ctx);
            && Evaluate(h, m, Infix(Normalize(p), And, Normalize(c)), ctx) == AndThen(a, b)
            && Evaluate(h, m, Infix(Normalize(p), Or, Normalize(c)), ctx) == OrElse(a, b)
  {
    hide ParseText, SoundClasses, Normalize, Infix;
    InfixParses(h, Normalize(p), And, Normalize(c));
    InfixParses(h, Normalize(p), Or, Normalize(c));
    InfixIsBare(Normalize(p), And, Normalize(c));
    InfixIsBare(Normalize(p), Or, Normalize(c));
  }

  // ------------------------------------------------------------- comparisons

  /** What a comparison of two texts comes to. */
  function Compared(h: Host, m: Semantics, p: string, op: CompareOp, c: string, ctx: Context): Result<bool> {
    Evaluate(h, m, Infix(Normalize(p), Compare(op), Normalize(c)), ctx)
  }

  /** What a comparison of two values comes to; the first failure counts. */
  function Verdict(m: Semantics, l: Result<Value>, op: CompareOp, r: Result<Value>, ci: bool): Result<bool> {
    if l.Error? || r.Error? then Error
    else
      var v := ConditionMeaning.Compare(m, op, l.value, r.value, ci);
      if v.Error? then Error else Ok(v.value == VBool(true))
  }

  lemma ComparedIs(h: Host, m: Semantics, p: string, op: CompareOp, c: string, ctx: Context)
    requires SoundClasses(h) && Proper(h, p) && Proper(h, c)
    ensures Compared(h, m, p, op, c, ctx) ==
            Verdict(m, ValueOf(h, m, Normalize(p), ctx), op, ValueOf(h, m, Normalize(c), ctx), ctx.caseInsensitive)
  {
    hide ParseText, SoundClasses, Normalize, SameValue, Order, Matches, Infix;
    InfixParses(h, Normalize(p), Compare(op), Normalize(c));
    InfixIsBare(Normalize(p), Compare(op), Normalize(c));
  }

  lemma VerdictLaws(m: Semantics, l: Result<Value>, r: Result<Value>, ci: bool)
    ensures Verdict(m, l, NotEqual, r, ci) == NotOf(Verdict(m, l, Equal, r, ci))
    ensures Verdict(m, l, NotMatch, r, ci) == NotOf(Verdict(m, l, Match, r, ci))
    ensures Verdict(m, l, LessEqual, r, ci) == NotOf(Verdict(m, l, GreaterThan, r, ci))
    ensures Verdict(m, l, GreaterEqual, r, ci) == NotOf(Verdict(m, l, LessThan, r, ci))
    ensures Verdict(m, l, GreaterThan, r, ci) == Verdict(m, r, LessThan, l, ci)
  {
    hide SameValue, Order, Matches;
    if l.Ok? && r.Ok? {
      OrderTurns(m, l.value, r.value, ci);
    }
  }

  /** != negates ==, !~ negates =~, <= negates >, >= negates <, and > is < the other way round. */
  lemma ComparisonLaws(h: Host, m: Semantics, p: string, c: string, ctx: Context)
    requires SoundClasses(h) && Proper(h, p) && Proper(h, c)
    ensures Compared(h, m, p, NotEqual, c, ctx) == NotOf(Compared(h, m, p, Equal, c, ctx))
    ensures Compared(h, m, p, NotMatch, c, ctx) == NotOf(Compared(h, m, p, Match, c, ctx))
    ensures Compared(h, m, p, LessEqual, c, ctx) == NotOf(Compared(h, m, p, GreaterThan, c, ctx))
    ensures Compared(h, m, p, GreaterEqual, c, ctx) == NotOf(Compared(h, m, p, LessThan, c, ctx))
    ensures Compared(h, m, p, GreaterThan, c, ctx) == Compared(h, m, c, LessThan, p, ctx)
  {
    hide SoundClasses, Proper, Compared, Verdict, ValueOf, Normalize, NotOf;
    forall op {
      ComparedIs(h, m, p, op, c, ctx);
    }
    ComparedIs(h, m, c, LessThan, p, ctx);
    VerdictLaws(m, ValueOf(h, m, Normalize(p), ctx), ValueOf(h, m, Normalize(c), ctx), ctx.caseInsensitive);
  }

  /** The comparison reads the same from both sides, with its sign turned. */
  lemma OrderTurns(m: Semantics, l: Value, r: Value, ci: bool)
    ensures Order(m, l, r, ci) == -Order(m, r, l, ci)
  {
    hide Less, Shown;
    var a := if ci then m.lower(Shown(m, l)) else Shown(m, l);
    var b := if ci then m.lower(Shown(m, r)) else Shown(m, r);
    LessTotal(a, b);
    LessIrreflexive(a);
    if Less(a, b) {
      LessAsymmetric(a, b);
    }
    if Less(b, a) {
      LessAsymmetric(b, a);
    }
  }

  /** How a value is shown for comparing it: in lower case where letter case does not count. */
  function Folded(m: Semantics, v: Value, ci: bool): string {
    if ci then m.lower(Shown(m, v)) else Shown(m, v)
  }

  /** The values of two texts are what ==, < and =~ look at: null equals null alone, numbers go by
      their size, and everything else by the text shown for it, in dictionary order; a pattern is
      one, or a text that is read as one. */
  lemma EqualAndLess(h: Host, m: Semantics, p: string, c: string, ctx: Context)
    requires SoundClasses(h) && Proper(h, p) && Proper(h, c)
    requires ValueOf(h, m, Normalize(p), ctx).Ok? && ValueOf(h, m, Normalize(c), ctx).Ok?
    ensures var l, r := ValueOf(h, m, Normalize(p), ctx).value, ValueOf(h, m, Normalize(c), ctx).value;
            var ci := ctx.caseInsensitive;
            && Compared(h, m, p, Equal, c, ctx) ==
               Ok(if l == VNull || r == VNull then l == r
                  else if l.VNumber? && r.VNumber? then l.n == r.n
                  else if ci then m.sameFold(Shown(m, l), Shown(m, r)) else Shown(m, l) == Shown(m, r))
            && (l.VNumber? && r.VNumber? ==> Compared(h, m, p, LessThan, c, ctx) == Ok(l.n < r.n))
            && (!(l.VNumber? && r.VNumber?) ==>
                  (Compared(h, m, p, LessThan, c, ctx) == Ok(true) <==> Precedes(Folded(m, l, ci), Folded(m, r, ci))))
            && Compared(h, m, p, Match, c, ctx) ==
               if r.VPattern? then m.matches(r.source, Shown(m, l))
               else if r.VString? then m.matches(r.s, Shown(m, l)) else Error
  {
    hide SoundClasses, Proper, Compared, ValueOf, Shown, Less, Precedes;
    ComparedIs(h, m, p, Equal, c, ctx);
    ComparedIs(h, m, p, LessThan, c, ctx);
    ComparedIs(h, m, p, Match, c, ctx);
    var l, r := ValueOf(h, m, Normalize(p), ctx).value, ValueOf(h, m, Normalize(c), ctx).value;
    LessIs(Folded(m, l, ctx.caseInsensitive), Folded(m, r, ctx.caseInsensitive));
  }

  // ---------------------------------------------------------------- functions

  /** ASCII letters. */
  predicate IsWord(word: string) {
    word != "" && forall c :: c in word ==> 'a' <= c <= 'z' || 'A' <= c <= 'Z'
  }

  lemma {:induction false} WordRun(h: Host, word: string, rest: string)
    requires SoundClasses(h) && forall c :: c in word ==> 'a' <= c <= 'z' || 'A' <= c <= 'Z'
    ensures NameRun(h, word + "(" + rest) == |word|
  {
    var s := word + "(" + rest;
    if word == "" {
      assert s[0] == '(';
    } else {
      assert s[0] == word[0] && word[0] in word && s[1..] == word[1..] + "(" + rest;
      assert forall c :: c in word[1..] ==> c in word;
      WordRun(h, word[1..], rest);
    }
  }

  lemma LexWord(h: Host, word: string, rest: string)
    requires SoundClasses(h) && IsWord(word)
    ensures Lex(h, word + "(" + rest) == Cons(WordToken(word), Cons(LeftParen, Lex(h, rest)))
  {
    hide WordToken;
    var s := word + "(" + rest;
    WordRun(h, word, rest);
    assert s[0] == word[0] && word[0] in word;
    assert s[..|word|] == word && s[|word|..] == "(" + rest;
    LexSymbol(h, s);
    LexOpen(h, rest);
  }

  predicate IsStatus(lower: string) {
    lower == "success" || lower == "failure" || lower == "cancelled" || lower == "always"
  }

  lemma StatusParses(h: Host, word: string)
    requires SoundClasses(h) && IsWord(word) && IsStatus(Lower(word))
    ensures ParseText(h, word + "()").Parsed? && ParseText(h, word + "()").node == Call(word, [])
  {
    hide Lex, SoundClasses, ParseTokens, Lower, Yield, Derives;
    assert word + "()" == word + "(" + ")";
    LexWord(h, word, ")");
    LexClose(h);
    StatusDerives(h, word);
    var t := Apply(word, []);
    assert [Identifier(word)] + ([LeftParen] + [RightParen, EOF]) == Yield(t) + [EOF];
    ParsesDerivation(h, t);
  }

  lemma StatusDerives(h: Host, word: string)
    requires IsStatus(Lower(word))
    ensures Derives(h, Apply(word, []), Disjoined) && Ast(Apply(word, [])) == Call(word, [])
    ensures Yield(Apply(word, [])) == [Identifier(word), LeftParen, RightParen] && WordToken(word) == Identifier(word)
  {
    hide Lower;
    var none: seq<Tree> := [];
    NothingYields(none);
    var t := Apply(word, none);
    assert t == Apply(word, []);
    assert Ast(t) == Call(word, AstAll(none));
    assert Yield(t) == [Identifier(word), LeftParen] + YieldAll(none) + [RightParen];
    assert |Lower(word)| >= 6;
  }

  lemma NothingYields(ts: seq<Tree>)
    requires ts == []
    ensures YieldAll(ts) == [] && AstAll(ts) == []
  {
  }

  lemma WordIsBare(word: string, rest: string)
    requires IsWord(word) && rest != "" && rest[|rest| - 1] == ')'
    ensures Normalize(word + rest) == word + rest && word + rest != ""
  {
    var s := word + rest;
    assert word[0] in word && s[0] == word[0] && s[|s| - 1] == ')';
    BareStays(s);
  }

  lemma StatusValue(m: Semantics, word: string, ctx: Context)
    requires IsStatus(Lower(word))
    ensures EvaluateNode(m, Call(word, []), ctx) ==
            Ok(VBool(if Lower(word) == "success" then ctx.success
                     else if Lower(word) == "failure" then ctx.failure
                     else if Lower(word) == "cancelled" then ctx.cancelled
                     else true))
  {
    hide Lower;
  }

  /** The status functions, in any letter case, are the flags of the context. */
  lemma StatusMeans(h: Host, m: Semantics, word: string, ctx: Context)
    requires SoundClasses(h) && IsWord(word) && IsStatus(Lower(word))
    ensures Evaluate(h, m, word + "()", ctx) ==
            Ok(if Lower(word) == "success" then ctx.success
               else if Lower(word) == "failure" then ctx.failure
               else if Lower(word) == "cancelled" then ctx.cancelled
               else true)
  {
    hide ParseText, SoundClasses, Lower, Normalize, EvaluateNode, IsWord;
    StatusParses(h, word);
    WordIsBare(word, "()");
    StatusValue(m, word, ctx);
  }

  // ------------------------------------------------------------ text functions

  /** A function of two texts. */
  function Applied(word: string, p: string, c: string): string {
    word + "((" + p + "), (" + c + "))"
  }

  predicate IsTextFunction(lower: string) {
    lower == "contains" || lower == "startswith" || lower == "endswith"
  }

  lemma LexComma(h: Host, s: string)
    ensures Lex(h, "), (" + s) == Cons(RightParen, Cons(Comma, Cons(LeftParen, Lex(h, s))))
  {
    var a, b, c := "), (" + s, ", (" + s, " (" + s;
    assert a[1..] == b && b[1..] == c && c[1..] == "(" + s;
    LexSymbol(h, a);
    LexSymbol(h, b);
    assert Lex(h, c) == Lex(h, "(" + s);
    LexOpen(h, s);
  }

  lemma LexCloses(h: Host)
    ensures Lex(h, "))") == Tokens([RightParen, RightParen, EOF])
  {
    assert "))"[1..] == ")";
    LexSymbol(h, "))");
    LexClose(h);
  }

  lemma LexArguments(h: Host, p: string, c: string)
    requires SoundClasses(h) && Lex(h, p).Tokens? && Lex(h, c).Tokens?
    ensures Lex(h, "(" + p + "), (" + c + "))") ==
            Tokens(([LeftParen] + BodyOf(Lex(h, p)) + [RightParen]) + [Comma] +
                ([LeftParen] + BodyOf(Lex(h, c)) + [RightParen]) + [RightParen, EOF])
  {
    hide Lex, SoundClasses, BodyOf;
    var rest := "), (" + (c + "))");
    assert "(" + p + "), (" + c + "))" == "(" + (p + rest);
    LexOpen(h, p + rest);
    LexAppend(h, p, rest);
    LexComma(h, c + "))");
    LexAppend(h, c, "))");
    LexCloses(h);
    var bp, bc := BodyOf(Lex(h, p)), BodyOf(Lex(h, c));
    assert [LeftParen] + (bp + ([RightParen] + ([Comma] + ([LeftParen] + (bc + [RightParen, RightParen, EOF]))))) ==
           ([LeftParen] + bp + [RightParen]) + [Comma] + ([LeftParen] + bc + [RightParen]) + [RightParen, EOF];
  }

  lemma AppliedDerives(h: Host, word: string, tp: Tree, tc: Tree)
    requires Derives(h, tp, Disjoined) && Derives(h, tc, Disjoined) && IsTextFunction(Lower(word))
    ensures var t := Apply(word, [Group(tp), Group(tc)]);
            && Derives(h, t, Disjoined) && Ast(t) == Call(word, [Ast(tp), Ast(tc)]) &&
                WordToken(word) == Identifier(word)
            && Yield(t) == [Identifier(word), LeftParen] +
               (([LeftParen] + Yield(tp) + [RightParen]) + [Comma] + ([LeftParen] + Yield(tc) + [RightParen])) +
                   [RightParen]
  {
    hide Lower;
    var args := [Group(tp), Group(tc)];
    assert args[1..] == [Group(tc)] && [Group(tc)][1..] == [];
    assert AstAll(args) == [Ast(Group(tp))] + AstAll([Group(tc)]);
    assert AstAll([Group(tc)]) == [Ast(Group(tc))] + AstAll([]);
    assert YieldAll(args) == Yield(Group(tp)) + [Comma] + YieldAll([Group(tc)]);
  }

  lemma AppliedParses(h: Host, word: string, p: string, c: string)
    requires SoundClasses(h) && IsWord(word) && IsTextFunction(Lower(word))
    requires ParseText(h, p).Parsed? && ParseText(h, c).Parsed?
    ensures ParseText(h, Applied(word, p, c)).Parsed?
    ensures ParseText(h, Applied(word, p, c)).node == Call(word, [ParseText(h, p).node, ParseText(h, c).node])
  {
    hide Lex, SoundClasses, ParseTokens, Lower, Yield, Derives, Ast, BodyOf, IsWord;
    var tp := TextHasTree(h, p);
    var tc := TextHasTree(h, c);
    var rest := "(" + p + "), (" + c + "))";
    assert Applied(word, p, c) == word + "(" + rest;
    LexWord(h, word, rest);
    LexArguments(h, p, c);
    AppliedDerives(h, word, tp, tc);
    var t := Apply(word, [Group(tp), Group(tc)]);
    var args := ([LeftParen] + Yield(tp) + [RightParen]) + [Comma] + ([LeftParen] + Yield(tc) + [RightParen]);
    assert [Identifier(word)] + ([LeftParen] + (args + [RightParen, EOF])) == Yield(t) + [EOF];
    ParsesDerivation(h, t);
  }

  lemma CallValue(m: Semantics, word: string, x: Node, y: Node, ctx: Context)
    requires IsTextFunction(Lower(word))
    ensures var l, r := EvaluateNode(m, x, ctx), EvaluateNode(m, y, ctx);
            EvaluateNode(m, Call(word, [x, y]), ctx) ==
            if l.Error? || r.Error? then Error
                else TextTest(Lower(word), Folded(m, l.value, ctx.caseInsensitive),
                Folded(m, r.value, ctx.caseInsensitive))
  {
    hide Lower, TextTest, Shown;
    var n := Call(word, [x, y]);
    assert n.arguments[0] == x && n.arguments[1] == y;
    assert EvaluateNode(m, n, ctx) == EvaluateCall(m, n, ctx);
  }

  /** contains, startsWith and endsWith, in any letter case, on the texts shown for two values. */
  lemma TextFunctionsMean(h: Host, m: Semantics, word: string, p: string, c: string, ctx: Context)
    requires SoundClasses(h) && IsWord(word) && IsTextFunction(Lower(word)) && Proper(h, p) && Proper(h, c)
    ensures var l, r := ValueOf(h, m, Normalize(p), ctx), ValueOf(h, m, Normalize(c), ctx);
            var result := Evaluate(h, m, Applied(word, Normalize(p), Normalize(c)), ctx);
            if l.Error? || r.Error? then result == Error
            else
              var a, b := Folded(m, l.value, ctx.caseInsensitive), Folded(m, r.value, ctx.caseInsensitive);
              && result.Ok?
              && (Lower(word) == "contains" ==> (result.value <==> exists x, y :: a == x + b + y))
              && (Lower(word) == "startswith" ==> (result.value <==> exists y :: a == b + y))
              && (Lower(word) == "endswith" ==> (result.value <==> exists x :: a == x + b))
  {
    hide ParseText, SoundClasses, Lower, Normalize, EvaluateNode, IsWord, Folded, Applied, TextTest;
    AppliedParses(h, word, Normalize(p), Normalize(c));
    AppliedIsBare(word, Normalize(p), Normalize(c));
    CallValue(m, word, ParseText(h, Normalize(p)).node, ParseText(h, Normalize(c)).node, ctx);
    var l, r := ValueOf(h, m, Normalize(p), ctx), ValueOf(h, m, Normalize(c), ctx);
    if l.Ok? && r.Ok? {
      TextTestIs(Lower(word), Folded(m, l.value, ctx.caseInsensitive), Folded(m, r.value, ctx.caseInsensitive));
    }
  }

  lemma AppliedIsBare(word: string, p: string, c: string)
    requires IsWord(word)
    ensures var s := Applied(word, p, c); Normalize(s) == s && s != ""
  {
    hide Normalize;
    var rest := "((" + p + "), (" + c + "))";
    WordIsBare(word, rest);
    assert Applied(word, p, c) == word + rest;
  }

  lemma TextTestIs(name: string, a: string, b: string)
    requires IsTextFunction(name)
    ensures var t := TextTest(name, a, b);
            && t.Ok? && t.value.VBool?
            && (name == "contains" ==> (t.value.b <==> exists x, y :: a == x + b + y))
            && (name == "startswith" ==> (t.value.b <==> exists y :: a == b + y))
            && (name == "endswith" ==> (t.value.b <==> exists x :: a == x + b))
  {
    hide OccursAt, Contains;
    ContainsIs(a, b);
    if b <= a {
      assert a == b + a[|b|..];
    }
    if |b| <= |a| && a[|a| - |b|..] == b {
      assert a == a[..|a| - |b|] + b;
    }
    if x :| a == x + b {
      assert a[|a| - |b|..] == b;
    }
  }

  lemma ContainsIs(a: string, b: string)
    ensures Contains(a, b) <==> exists x, y :: a == x + b + y
  {
    if Contains(a, b) {
      var i :| 0 <= i <= |a| && OccursAt(a, b, i);
      assert a[i..] == b + a[i..][|b|..];
      assert a == a[..i] + b + a[i..][|b|..];
    }
    if x, y :| a == x + b + y {
      assert a[|x|..] == b + y;
      assert OccursAt(a, b, |x|);
    }
  }

  // ----------------------------------------------------------------- literals

  /** A token that stands alone parses to its leaf. */
  lemma LeafParses(h: Host, token: Token)
    requires SoundClasses(h) && ReadsBack(h, token) && IsValue(h, token)
    ensures ParseText(h, Spell(token)).Parsed? && ParseText(h, Spell(token)).node == LeafNode(token)
  {
    hide ScanToken, SoundClasses, ParseTokens, Spell;
    var s := Spell(token);
    LexSymbol(h, s);
    assert s[|s|..] == "";
    LexEmpty(h);
    assert Yield(Leaf(token)) + [EOF] == [token, EOF];
    ParsesDerivation(h, Leaf(token));
  }

  /** null, true and false are themselves, a quoted text is that text with doubled quotes made
      single, a number is its numeral's value, and a name is looked up. */
  lemma LiteralsMean(h: Host, m: Semantics, token: Token, ctx: Context)
    requires SoundClasses(h) && ReadsBack(h, token) && IsValue(h, token)
    ensures ValueOf(h, m, Spell(token), ctx) ==
            match token
            case NullWord => Ok(VNull)
            case True => Ok(VBool(true))
            case False => Ok(VBool(false))
            case Str(value) => Ok(VString(value))
            case Number(text) => Ok(VNumber(m.numeral(text)))
            case Regex(source) => Ok(VPattern(source))
            case Identifier(name) => ctx.lookup(name)
            case _ => Error
  {
    hide ParseText, SoundClasses, ReadsBack, Spell;
    LeafParses(h, token);
  }

  // -------------------------------------------------------------- whole texts

  /** The tokens are those of a derivation of the tree. */
  ghost predicate Derivation(h: Host, ts: seq<Token>, node: Node) {
    exists t :: Derives(h, t, Disjoined) && Yield(t) == ts && Ast(t) == node
  }

  /** The functions there are, and how many arguments each takes. */
  lemma CallsExactly(name: string, arguments: nat)
    ensures ValidFunction(name, arguments) <==>
            (IsStatus(Lower(name)) && arguments == 0) || (IsTextFunction(Lower(name)) && arguments == 2)
  {
    hide Lower;
  }

  /** A text compiles to a tree exactly if, taken apart into tokens and white space, it is a
      sentence of the grammar with that tree. */
  lemma TextsExactly(h: Host, s: string, node: Node)
    requires SoundClasses(h)
    ensures (ParseText(h, s).Parsed? && ParseText(h, s).node == node) <==>
            exists ts :: Lexical.Spells(h, s, ts) && Derivation(h, ts, node)
  {
    hide Lex, ParseTokens, Derives, Yield, Ast, SoundClasses, Lexical.Spells;
    if ParseText(h, s).Parsed? {
      var t := TextHasTree(h, s);
      var ts := Yield(t);
      Lexical.LexExactly(h, s, ts);
      assert Derivation(h, ts, Ast(t));
    }
    if ts :| Lexical.Spells(h, s, ts) && Derivation(h, ts, node) {
      Lexical.LexExactly(h, s, ts);
      var t :| Derives(h, t, Disjoined) && Yield(t) == ts && Ast(t) == node;
      ParsesDerivation(h, t);
    }
  }

  /** A truth value is shown as the word that stands for it, and no value as a word of its own. */
  lemma WordsShown(h: Host, m: Semantics, p: string, c: string, ctx: Context, text: string)
    requires SoundClasses(h) && Proper(h, p) && Proper(h, c) && !ctx.caseInsensitive
    requires ValueOf(h, m, Normalize(p), ctx).Ok? && ValueOf(h, m, Normalize(c), ctx) == Ok(VString(text))
    ensures var v := ValueOf(h, m, Normalize(p), ctx).value; var equal := Compared(h, m, p, Equal, c, ctx);
            && (v == VBool(true) ==> equal == Ok(text == "true")) &&
                (v == VBool(false) ==> equal == Ok(text == "false"))
            && (v == VNull ==> equal == Ok(false))
            && (v.VString? ==> equal == Ok(text == v.s))
            && (v.VNumber? ==> equal == Ok(text == m.show(v.n)))
  {
    hide SoundClasses, Proper, Compared, ValueOf;
    EqualAndLess(h, m, p, c, ctx);
  }
}
