// The condition language of jobs and steps: tokens, syntax trees, the grammar, and the
// recursive descent parser, which is shown to accept exactly that grammar.
module ConditionParser {
  import opened Text

  // ---------------------------------------------------------------- syntax

  datatype CompareOp = Equal | NotEqual | LessThan | LessEqual | GreaterThan | GreaterEqual | Match | NotMatch

  /** A token; only those whose text matters carry it. */
  datatype Token =
    | EOF | Identifier(name: string) | Str(value: string) | Number(text: string) | Regex(source: string)
    | True | False | NullWord
    | LeftParen | RightParen | Comma | Not | And | Or | Compare(op: CompareOp)

  datatype Node =
    | Literal(value: string) | Numeral(text: string) | Boolean(b: bool) | Null | Pattern(source: string)
    | Variable(name: string) | Call(name: string, arguments: seq<Node>)
    | Negation(operand: Node)
    | Comparison(op: CompareOp, left: Node, right: Node)
    | Conjunction(left: Node, right: Node)
    | Disjunction(left: Node, right: Node)

  /** What is delegated to other libraries: character classes, number and regular
      expression syntax. */
  datatype Host = Host(letter: char -> bool, digit: char -> bool, number: string -> bool, regex: string -> bool)

  function LowerChar(c: char): char {
    if 'A' <= c <= 'Z' then (c as int + 32) as char
    else if c == '\U{130}' then 'i'
    else if c == '\U{212A}' then 'k'
    else c
  }

  /** strings.ToLower, exact for comparison with lower case ASCII words. */
  function Lower(s: string): string {
    if s == "" then "" else [LowerChar(s[0])] + Lower(s[1..])
  }

  /** validateFunction: the known functions and their argument counts. */
  predicate ValidFunction(name: string, arguments: nat) {
    var lower := Lower(name);
    if lower == "success" || lower == "failure" || lower == "cancelled" || lower == "always" then arguments == 0
    else (lower == "contains" || lower == "startswith" || lower == "endswith") && arguments == 2
  }

  // --------------------------------------------------------------- grammar

  /** A derivation: the syntax tree with its parentheses. */
  datatype Tree =
    | Leaf(token: Token)
    | Apply(name: string, arguments: seq<Tree>)
    | Group(inner: Tree)
    | Neg(operand: Tree)
    | Comp(op: CompareOp, left: Tree, right: Tree)
    | Conj(left: Tree, right: Tree)
    | Disj(left: Tree, right: Tree)

  /** Binding strength, loosest last. */
  datatype Level = Primary | Unary | Compared | Conjoined | Disjoined

  function Rank(level: Level): nat {
    match level
    case Primary => 0 case Unary => 1 case Compared => 2 case Conjoined => 3 case Disjoined => 4
  }

  predicate IsValue(h: Host, token: Token) {
    match token
    case Str(_) => true
    case Number(text) => h.number(text)
    case True => true
    case False => true
    case NullWord => true
    case Regex(source) => h.regex(source)
    case Identifier(_) => true
    case _ => false
  }

  /** The grammar: or below and below one comparison below not below values, calls and
      parentheses; and and or associate to the left, comparisons do not chain. */
  predicate Derives(h: Host, t: Tree, level: Level)
    decreases t
  {
    match t
    case Leaf(token) => IsValue(h, token)
    case Apply(name, arguments) => ValidFunction(name, |arguments|) && forall a :: a in arguments ==>
        Derives(h, a, Disjoined)
    case Group(inner) => Derives(h, inner, Disjoined)
    case Neg(operand) => Rank(level) >= 1 && Derives(h, operand, Unary)
    case Comp(_, left, right) => Rank(level) >= 2 && Derives(h, left, Unary) && Derives(h, right, Unary)
    case Conj(left, right) => Rank(level) >= 3 && Derives(h, left, Conjoined) && Derives(h, right, Compared)
    case Disj(left, right) => Rank(level) >= 4 && Derives(h, left, Disjoined) && Derives(h, right, Conjoined)
  }

  /** The tokens a derivation spells. */
  function Yield(t: Tree): seq<Token> {
    match t
    case Leaf(token) => [token]
    case Apply(name, arguments) => [Identifier(name), LeftParen] + YieldAll(arguments) + [RightParen]
    case Group(inner) => [LeftParen] + Yield(inner) + [RightParen]
    case Neg(operand) => [Not] + Yield(operand)
    case Comp(op, left, right) => Yield(left) + [Compare(op)] + Yield(right)
    case Conj(left, right) => Yield(left) + [And] + Yield(right)
    case Disj(left, right) => Yield(left) + [Or] + Yield(right)
  }

  function YieldAll(ts: seq<Tree>): seq<Token> {
    if ts == [] then []
    else if |ts| == 1 then Yield(ts[0])
    else Yield(ts[0]) + [Comma] + YieldAll(ts[1..])
  }

  function LeafNode(token: Token): Node {
    match token
    case Str(value) => Literal(value)
    case Number(text) => Numeral(text)
    case True => Boolean(true)
    case False => Boolean(false)
    case Regex(source) => Pattern(source)
    case Identifier(name) => Variable(name)
    case _ => Null
  }

  /** The syntax tree a derivation stands for. */
  function Ast(t: Tree): Node {
    match t
    case Leaf(token) => LeafNode(token)
    case Apply(name, arguments) => Call(name, AstAll(arguments))
    case Group(inner) => Ast(inner)
    case Neg(operand) => Negation(Ast(operand))
    case Comp(op, left, right) => Comparison(op, Ast(left), Ast(right))
    case Conj(left, right) => Conjunction(Ast(left), Ast(right))
    case Disj(left, right) => Disjunction(Ast(left), Ast(right))
  }

  function AstAll(ts: seq<Tree>): (r: seq<Node>)
    ensures |r| == |ts|
  {
    if ts == [] then [] else [Ast(ts[0])] + AstAll(ts[1..])
  }

  // ---------------------------------------------------------------- parser

  datatype Parse = Parsed(node: Node, next: nat) | Bad

  datatype ParseList = ParsedList(nodes: seq<Node>, next: nat) | BadList

  predicate Terminated(ts: seq<Token>) {
    ts != [] && ts[|ts| - 1] == EOF
  }

  /** A parse consumes something and never the final end marker. */
  predicate Advances(ts: seq<Token>, i: nat, r: Parse) {
    r.Parsed? ==> i < r.next < |ts|
  }

  function ParseOr(h: Host, ts: seq<Token>, i: nat): (r: Parse)
    requires Terminated(ts) && i < |ts|
    ensures Advances(ts, i, r)
    decreases |ts| - i, 6
  {
    var left := ParseAnd(h, ts, i);
    if left.Bad? then Bad else OrRest(h, ts, left.next, left.node)
  }

  function OrRest(h: Host, ts: seq<Token>, i: nat, left: Node): (r: Parse)
    requires Terminated(ts) && i < |ts|
    ensures r.Parsed? ==> i <= r.next < |ts|
    decreases |ts| - i, 5
  {
    if ts[i] != Or then Parsed(left, i)
    else
      var right := ParseAnd(h, ts, i + 1);
      if right.Bad? then Bad else OrRest(h, ts, right.next, Disjunction(left, right.node))
  }

  function ParseAnd(h: Host, ts: seq<Token>, i: nat): (r: Parse)
    requires Terminated(ts) && i < |ts|
    ensures Advances(ts, i, r)
    decreases |ts| - i, 4
  {
    var left := ParseComparison(h, ts, i);
    if left.Bad? then Bad else AndRest(h, ts, left.next, left.node)
  }

  function AndRest(h: Host, ts: seq<Token>, i: nat, left: Node): (r: Parse)
    requires Terminated(ts) && i < |ts|
    ensures r.Parsed? ==> i <= r.next < |ts|
    decreases |ts| - i, 3
  {
    if ts[i] != And then Parsed(left, i)
    else
      var right := ParseComparison(h, ts, i + 1);
      if right.Bad? then Bad else AndRest(h, ts, right.next, Conjunction(left, right.node))
  }

  function ParseComparison(h: Host, ts: seq<Token>, i: nat): (r: Parse)
    requires Terminated(ts) && i < |ts|
    ensures Advances(ts, i, r)
    decreases |ts| - i, 3
  {
    var left := ParseUnary(h, ts, i);
    if left.Bad? then Bad
    else if ts[left.next].Compare? then
      var right := ParseUnary(h, ts, left.next + 1);
      if right.Bad? then Bad else Parsed(Comparison(ts[left.next].op, left.node, right.node), right.next)
    else left
  }

  function ParseUnary(h: Host, ts: seq<Token>, i: nat): (r: Parse)
    requires Terminated(ts) && i < |ts|
    ensures Advances(ts, i, r)
    decreases |ts| - i, 2
  {
    if ts[i] == Not then
      var operand := ParseUnary(h, ts, i + 1);
      if operand.Bad? then Bad else Parsed(Negation(operand.node), operand.next)
    else ParsePrimary(h, ts, i)
  }

  function ParsePrimary(h: Host, ts: seq<Token>, i: nat): (r: Parse)
    requires Terminated(ts) && i < |ts|
    ensures Advances(ts, i, r)
    decreases |ts| - i, 1
  {
    if ts[i].Identifier? then
      if ts[i + 1] != LeftParen then Parsed(Variable(ts[i].name), i + 1)
      else
        var arguments := if ts[i + 2] == RightParen then ParsedList([], i + 2) else ParseArguments(h, ts, i + 2);
        if arguments.BadList? || ts[arguments.next] != RightParen || !ValidFunction(ts[i].name, |arguments.nodes|)
            then Bad
        else Parsed(Call(ts[i].name, arguments.nodes), arguments.next + 1)
    else if ts[i] == LeftParen then
      var inner := ParseOr(h, ts, i + 1);
      if inner.Bad? || ts[inner.next] != RightParen then Bad else Parsed(inner.node, inner.next + 1)
    else if IsValue(h, ts[i]) then Parsed(LeafNode(ts[i]), i + 1)
    else Bad
  }

  /** A non-empty list of arguments separated by commas. */
  function ParseArguments(h: Host, ts: seq<Token>, i: nat): (r: ParseList)
    requires Terminated(ts) && i < |ts|
    ensures r.ParsedList? ==> i < r.next < |ts|
    decreases |ts| - i, 7
  {
    var first := ParseOr(h, ts, i);
    if first.Bad? then BadList
    else if ts[first.next] != Comma then ParsedList([first.node], first.next)
    else
      var rest := ParseArguments(h, ts, first.next + 1);
      if rest.BadList? then BadList else ParsedList([first.node] + rest.nodes, rest.next)
  }

  /** parseCondition after scanning: everything up to the end marker must be consumed. */
  function ParseTokens(h: Host, ts: seq<Token>): Parse
    requires Terminated(ts)
  {
    var r := ParseOr(h, ts, 0);
    if r.Bad? || ts[r.next] != EOF then Bad else r
  }

  // ------------------------------------- the parser accepts every derivation

  /** The tokens y stand in ts from position i on. */
  predicate At(ts: seq<Token>, i: nat, y: seq<Token>) {
    i + |y| <= |ts| && ts[i..i + |y|] == y
  }

  lemma AtParts(ts: seq<Token>, i: nat, a: seq<Token>, b: seq<Token>)
    requires At(ts, i, a + b)
    ensures At(ts, i, a) && At(ts, i + |a|, b)
  {
    var s := ts[i..i + |a + b|];
    assert a == s[..|a|] && b == s[|a|..];
    assert ts[i..i + |a|] == s[..|a|];
    assert ts[i + |a|..i + |a| + |b|] == s[|a|..];
  }

  lemma AtFirst(ts: seq<Token>, i: nat, token: Token, rest: seq<Token>)
    requires At(ts, i, [token] + rest)
    ensures i < |ts| && ts[i] == token && At(ts, i + 1, rest)
  {
    AtParts(ts, i, [token], rest);
    assert ts[i..i + 1][0] == token;
  }

  /** x op y, split at the operator. */
  lemma AtInfix(ts: seq<Token>, i: nat, x: seq<Token>, op: Token, y: seq<Token>)
    requires At(ts, i, x + [op] + y)
    ensures At(ts, i, x) && i + |x| < |ts| && ts[i + |x|] == op && At(ts, i + |x| + 1, y)
  {
    assert x + [op] + y == x + ([op] + y);
    AtParts(ts, i, x, [op] + y);
    AtFirst(ts, i + |x|, op, y);
  }

  /** A token that cannot continue an operand of the given level. */
  predicate Stops(token: Token, level: Level) {
    && token != LeftParen
    && (Rank(level) >= 2 ==> !token.Compare?)
    && (Rank(level) >= 3 ==> token != And)
    && (Rank(level) >= 4 ==> token != Or)
  }

  function ParseAs(h: Host, ts: seq<Token>, i: nat, level: Level): Parse
    requires Terminated(ts) && i < |ts|
  {
    match level
    case Primary => ParsePrimary(h, ts, i)
    case Unary => ParseUnary(h, ts, i)
    case Compared => ParseComparison(h, ts, i)
    case Conjoined => ParseAnd(h, ts, i)
    case Disjoined => ParseOr(h, ts, i)
  }

  lemma YieldIsNotEmpty(t: Tree)
    ensures Yield(t) != []
  {
  }

  lemma {:induction false} NoRightParenFirst(h: Host, t: Tree, level: Level)
    requires Derives(h, t, level)
    ensures |Yield(t)| > 0 && Yield(t)[0] != RightParen
  {
    match t
    case Comp(_, left, _) => NoRightParenFirst(h, left, Unary);
    case Conj(left, _) => NoRightParenFirst(h, left, Conjoined);
    case Disj(left, _) => NoRightParenFirst(h, left, Disjoined);
    case _ =>
  }

  /** What parses at one level parses alike at every looser level that stops after it. */
  lemma Lift(h: Host, ts: seq<Token>, i: nat, from: Level, to: Level, n: Node, j: nat)
    requires Terminated(ts) && i < |ts| && ParseAs(h, ts, i, from) == Parsed(n, j) && j < |ts|
    requires Rank(from) <= Rank(to) && Stops(ts[j], to) && (from.Primary? ==> ts[i] != Not)
    ensures ParseAs(h, ts, i, to) == Parsed(n, j)
    decreases Rank(to)
  {
    if from != to {
      var below := if to.Disjoined? then Conjoined else if to.Conjoined? then Compared else if to.Compared? then Unary
          else Primary;
      Lift(h, ts, i, from, below, n, j);
      LiftOne(h, ts, i, below, to, n, j);
    }
  }

  lemma LiftOne(h: Host, ts: seq<Token>, i: nat, below: Level, to: Level, n: Node, j: nat)
    requires Terminated(ts) && i < |ts| && ParseAs(h, ts, i, below) == Parsed(n, j) && j < |ts|
    requires Rank(to) == Rank(below) + 1 && Stops(ts[j], to) && (below.Primary? ==> ts[i] != Not)
    ensures ParseAs(h, ts, i, to) == Parsed(n, j)
  {
    hide ParsePrimary, ParseUnary, ParseComparison, ParseAnd, ParseOr;
    match to
    case Unary => LiftToUnary(h, ts, i, n, j);
    case Compared => LiftToCompared(h, ts, i, n, j);
    case Conjoined => LiftToAnd(h, ts, i, n, j);
    case Disjoined => LiftToOr(h, ts, i, n, j);
    case Primary => assert false;
  }

  lemma LiftToUnary(h: Host, ts: seq<Token>, i: nat, n: Node, j: nat)
    requires Terminated(ts) && i < |ts| && ParsePrimary(h, ts, i) == Parsed(n, j) && ts[i] != Not
    ensures ParseUnary(h, ts, i) == Parsed(n, j)
  {
    hide ParsePrimary;
  }

  lemma LiftToCompared(h: Host, ts: seq<Token>, i: nat, n: Node, j: nat)
    requires Terminated(ts) && i < |ts| && ParseUnary(h, ts, i) == Parsed(n, j) && j < |ts| && !ts[j].Compare?
    ensures ParseComparison(h, ts, i) == Parsed(n, j)
  {
    hide ParseUnary;
  }

  lemma LiftToAnd(h: Host, ts: seq<Token>, i: nat, n: Node, j: nat)
    requires Terminated(ts) && i < |ts| && ParseComparison(h, ts, i) == Parsed(n, j) && j < |ts| && ts[j] != And
    ensures ParseAnd(h, ts, i) == Parsed(n, j)
  {
    hide ParseComparison;
  }

  lemma LiftToOr(h: Host, ts: seq<Token>, i: nat, n: Node, j: nat)
    requires Terminated(ts) && i < |ts| && ParseAnd(h, ts, i) == Parsed(n, j) && j < |ts| && ts[j] != Or
    ensures ParseOr(h, ts, i) == Parsed(n, j)
  {
    hide ParseAnd;
  }

  /** Completeness: the parser reads any derivation followed by a token that stops it. */
  lemma {:induction false} Complete(h: Host, ts: seq<Token>, i: nat, t: Tree, level: Level)
    requires Terminated(ts) && Derives(h, t, level) && At(ts, i, Yield(t))
    requires i + |Yield(t)| < |ts| && Stops(ts[i + |Yield(t)|], level)
    ensures i < |ts| && ParseAs(h, ts, i, level) == Parsed(Ast(t), i + |Yield(t)|)
    decreases t, 1
  {
    hide ParseOr, ParseAnd, ParseComparison, ParseUnary, ParsePrimary, At, Ast, Yield;
    var j := i + |Yield(t)|;
    match t
    case Leaf(token) =>
      CompleteLeaf(h, ts, i, t);
      Lift(h, ts, i, Primary, level, Ast(t), j);
    case Group(_) =>
      CompleteGroup(h, ts, i, t);
      Lift(h, ts, i, Primary, level, Ast(t), j);
    case Apply(_, _) =>
      CompleteCall(h, ts, i, t);
      Lift(h, ts, i, Primary, level, Ast(t), j);
    case Neg(_) =>
      CompleteNot(h, ts, i, t);
      Lift(h, ts, i, Unary, level, Ast(t), j);
    case Comp(_, _, _) =>
      CompleteComparison(h, ts, i, t);
      Lift(h, ts, i, Compared, level, Ast(t), j);
    case Conj(_, _) =>
      CompleteAnd(h, ts, i, t);
      AndStops(h, ts, j, Ast(t));
      Lift(h, ts, i, Conjoined, level, Ast(t), j);
    case Disj(_, _) =>
      CompleteOr(h, ts, i, t);
      OrStops(h, ts, j, Ast(t));
  }

  lemma CompleteLeaf(h: Host, ts: seq<Token>, i: nat, t: Tree)
    requires Terminated(ts) && t.Leaf? && IsValue(h, t.token) && At(ts, i, Yield(t))
    requires i + |Yield(t)| < |ts| && ts[i + |Yield(t)|] != LeftParen
    ensures i < |ts| && ts[i] != Not && ParsePrimary(h, ts, i) == Parsed(Ast(t), i + |Yield(t)|)
  {
    assert ts[i] == ts[i..i + 1][0];
  }

  lemma {:induction false} CompleteGroup(h: Host, ts: seq<Token>, i: nat, t: Tree)
    requires Terminated(ts) && t.Group? && Derives(h, t, Primary) && At(ts, i, Yield(t))
    ensures i < |ts| && ts[i] != Not && ParsePrimary(h, ts, i) == Parsed(Ast(t), i + |Yield(t)|)
    decreases t, 0
  {
    hide ParseOr, ParseArguments, At;
    assert Yield(t) == [LeftParen] + (Yield(t.inner) + [RightParen]);
    AtFirst(ts, i, LeftParen, Yield(t.inner) + [RightParen]);
    assert Yield(t.inner) + [RightParen] == Yield(t.inner) + [RightParen] + [];
    AtInfix(ts, i + 1, Yield(t.inner), RightParen, []);
    Complete(h, ts, i + 1, t.inner, Disjoined);
  }

  lemma {:induction false} CompleteNot(h: Host, ts: seq<Token>, i: nat, t: Tree)
    requires Terminated(ts) && t.Neg? && Derives(h, t, Unary) && At(ts, i, Yield(t))
    requires i + |Yield(t)| < |ts| && Stops(ts[i + |Yield(t)|], Unary)
    ensures i < |ts| && ParseUnary(h, ts, i) == Parsed(Ast(t), i + |Yield(t)|)
    decreases t, 0
  {
    hide ParsePrimary, At;
    AtFirst(ts, i, Not, Yield(t.operand));
    YieldIsNotEmpty(t.operand);
    Complete(h, ts, i + 1, t.operand, Unary);
  }

  lemma {:induction false} CompleteComparison(h: Host, ts: seq<Token>, i: nat, t: Tree)
    requires Terminated(ts) && t.Comp? && Derives(h, t, Compared) && At(ts, i, Yield(t))
    requires i + |Yield(t)| < |ts| && Stops(ts[i + |Yield(t)|], Compared)
    ensures i < |ts| && ParseComparison(h, ts, i) == Parsed(Ast(t), i + |Yield(t)|)
    decreases t, 0
  {
    hide ParseUnary, At;
    AtInfix(ts, i, Yield(t.left), Compare(t.op), Yield(t.right));
    YieldIsNotEmpty(t.left);
    YieldIsNotEmpty(t.right);
    Complete(h, ts, i, t.left, Unary);
    Complete(h, ts, i + |Yield(t.left)| + 1, t.right, Unary);
  }

  lemma AndStops(h: Host, ts: seq<Token>, j: nat, n: Node)
    requires Terminated(ts) && j < |ts| && ts[j] != And
    ensures AndRest(h, ts, j, n) == Parsed(n, j)
  {
    hide ParseComparison;
  }

  lemma OrStops(h: Host, ts: seq<Token>, j: nat, n: Node)
    requires Terminated(ts) && j < |ts| && ts[j] != Or
    ensures OrRest(h, ts, j, n) == Parsed(n, j)
  {
    hide ParseAnd;
  }

  lemma {:induction false} CompleteCall(h: Host, ts: seq<Token>, i: nat, t: Tree)
    requires Terminated(ts) && t.Apply? && Derives(h, t, Primary) && At(ts, i, Yield(t))
    ensures i < |ts| && ts[i] != Not && ParsePrimary(h, ts, i) == Parsed(Ast(t), i + |Yield(t)|)
    decreases t, 0
  {
    hide ParseOr, ParseArguments, At, Derives, Ast;
    CallParts(h, t);
    var args := YieldAll(t.arguments);
    assert Yield(t) == [Identifier(t.name)] + ([LeftParen] + (args + [RightParen]));
    AtFirst(ts, i, Identifier(t.name), [LeftParen] + (args + [RightParen]));
    AtFirst(ts, i + 1, LeftParen, args + [RightParen]);
    assert args + [RightParen] == args + [RightParen] + [];
    AtInfix(ts, i + 2, args, RightParen, []);
    if t.arguments != [] {
      CompleteArguments(h, ts, i + 2, t, t.arguments);
      FirstArgumentStart(h, t.arguments);
      FirstOf(ts, i + 2, args);
    }
  }

  lemma CallParts(h: Host, t: Tree)
    requires t.Apply? && Derives(h, t, Primary)
    ensures ValidFunction(t.name, |t.arguments|) && (forall a :: a in t.arguments ==> a < t && Derives(h, a, Disjoined))
    ensures Ast(t) == Call(t.name, AstAll(t.arguments))
    ensures t.arguments == [] ==> AstAll(t.arguments) == []
  {
  }

  lemma FirstOf(ts: seq<Token>, i: nat, y: seq<Token>)
    requires At(ts, i, y) && y != []
    ensures i < |ts| && ts[i] == y[0]
  {
    assert ts[i] == ts[i..i + |y|][0];
  }

  lemma FirstArgumentStart(h: Host, ts: seq<Tree>)
    requires ts != [] && Derives(h, ts[0], Disjoined)
    ensures YieldAll(ts) != [] && YieldAll(ts)[0] != RightParen
  {
    NoRightParenFirst(h, ts[0], Disjoined);
  }

  lemma {:induction false} CompleteArguments(h: Host, ts: seq<Token>, i: nat, t: Tree, arguments: seq<Tree>)
    requires Terminated(ts) && arguments != [] && (forall a :: a in arguments ==> a < t && Derives(h, a, Disjoined))
    requires At(ts, i, YieldAll(arguments)) && i + |YieldAll(arguments)| < |ts| &&
        ts[i + |YieldAll(arguments)|] == RightParen
    ensures i < |ts| && ParseArguments(h, ts, i) == ParsedList(AstAll(arguments), i + |YieldAll(arguments)|)
    decreases t, 0, |arguments|
  {
    hide ParseOr, At, Derives, Yield, Ast;
    var a := arguments[0];
    assert a in arguments;
    assert forall b :: b in arguments[1..] ==> b in arguments;
    YieldIsNotEmpty(a);
    if |arguments| == 1 {
      Complete(h, ts, i, a, Disjoined);
    } else {
      AtInfix(ts, i, Yield(a), Comma, YieldAll(arguments[1..]));
      Complete(h, ts, i, a, Disjoined);
      CompleteArguments(h, ts, i + |Yield(a)| + 1, t, arguments[1..]);
    }
  }

  lemma ConjParts(h: Host, t: Tree)
    requires t.Conj? && Derives(h, t, Conjoined)
    ensures Derives(h, t.left, Conjoined) && Derives(h, t.right, Compared)
    ensures Yield(t) == Yield(t.left) + [And] + Yield(t.right) && Ast(t) == Conjunction(Ast(t.left), Ast(t.right))
  {
  }

  lemma DisjParts(h: Host, t: Tree)
    requires t.Disj? && Derives(h, t, Disjoined)
    ensures Derives(h, t.left, Disjoined) && Derives(h, t.right, Conjoined)
    ensures Yield(t) == Yield(t.left) + [Or] + Yield(t.right) && Ast(t) == Disjunction(Ast(t.left), Ast(t.right))
  {
  }

  lemma Tighter(h: Host, t: Tree)
    ensures Derives(h, t, Conjoined) && !t.Conj? ==> Derives(h, t, Compared)
    ensures Derives(h, t, Disjoined) && !t.Disj? ==> Derives(h, t, Conjoined)
  {
  }

  /** Reading a conjunction leaves the and-loop with that conjunction in hand. */
  lemma {:induction false} CompleteAnd(h: Host, ts: seq<Token>, i: nat, t: Tree)
    requires Terminated(ts) && Derives(h, t, Conjoined) && At(ts, i, Yield(t))
    requires i + |Yield(t)| < |ts| && Stops(ts[i + |Yield(t)|], Compared)
    ensures i < |ts| && ParseAnd(h, ts, i) == AndRest(h, ts, i + |Yield(t)|, Ast(t))
    decreases t, if t.Conj? then 0 else 2
  {
    hide ParseComparison, At, Derives, Yield, Ast;
    if t.Conj? {
      ConjParts(h, t);
      var k := i + |Yield(t.left)|;
      AtInfix(ts, i, Yield(t.left), And, Yield(t.right));
      CompleteAnd(h, ts, i, t.left);
      Complete(h, ts, k + 1, t.right, Compared);
    } else {
      Tighter(h, t);
      Complete(h, ts, i, t, Compared);
    }
  }

  /** Reading a disjunction leaves the or-loop with that disjunction in hand. */
  lemma {:induction false} CompleteOr(h: Host, ts: seq<Token>, i: nat, t: Tree)
    requires Terminated(ts) && Derives(h, t, Disjoined) && At(ts, i, Yield(t))
    requires i + |Yield(t)| < |ts| && Stops(ts[i + |Yield(t)|], Conjoined)
    ensures i < |ts| && ParseOr(h, ts, i) == OrRest(h, ts, i + |Yield(t)|, Ast(t))
    decreases t, if t.Disj? then 0 else 2
  {
    hide ParseAnd, At, Derives, Yield, Ast;
    if t.Disj? {
      DisjParts(h, t);
      var k := i + |Yield(t.left)|;
      AtInfix(ts, i, Yield(t.left), Or, Yield(t.right));
      CompleteOr(h, ts, i, t.left);
      Complete(h, ts, k + 1, t.right, Conjoined);
    } else {
      Tighter(h, t);
      Complete(h, ts, i, t, Conjoined);
    }
  }

  // -------------------------------------- the parser accepts nothing else

  lemma SliceStep(ts: seq<Token>, i: nat, j: nat)
    requires i < j <= |ts|
    ensures ts[i..j] == [ts[i]] + ts[i + 1..j]
  {
  }

  lemma SliceInfix(ts: seq<Token>, i: nat, k: nat, j: nat)
    requires i <= k < j <= |ts|
    ensures ts[i..j] == ts[i..k] + [ts[k]] + ts[k + 1..j]
  {
  }

  /** t is a derivation of what was read. */
  ghost predicate Explains(h: Host, ts: seq<Token>, i: nat, level: Level, n: Node, j: nat, t: Tree)
    requires i <= j <= |ts|
  {
    Derives(h, t, level) && Yield(t) == ts[i..j] && Ast(t) == n
  }

  lemma {:induction false} Sound(h: Host, ts: seq<Token>, i: nat, level: Level) returns (t: Tree)
    requires Terminated(ts) && i < |ts| && ParseAs(h, ts, i, level).Parsed?
    ensures var r := ParseAs(h, ts, i, level);
            i < r.next < |ts| && Explains(h, ts, i, level, r.node, r.next, t)
    decreases |ts| - i, Rank(level), 1
  {
    match level
    case Primary => t := SoundPrimary(h, ts, i);
    case Unary => t := SoundUnary(h, ts, i);
    case Compared => t := SoundComparison(h, ts, i);
    case Conjoined => t := SoundAnd(h, ts, i);
    case Disjoined => t := SoundOr(h, ts, i);
  }

  lemma LooserDerives(h: Host, t: Tree, level: Level, looser: Level)
    requires Derives(h, t, level) && Rank(level) <= Rank(looser)
    ensures Derives(h, t, looser)
  {
  }

  lemma {:induction false} SoundUnary(h: Host, ts: seq<Token>, i: nat) returns (t: Tree)
    requires Terminated(ts) && i < |ts| && ParseUnary(h, ts, i).Parsed?
    ensures var r := ParseUnary(h, ts, i); Explains(h, ts, i, Unary, r.node, r.next, t)
    decreases |ts| - i, 1, 0
  {
    hide ParsePrimary;
    if ts[i] == Not {
      var x := Sound(h, ts, i + 1, Unary);
      t := Neg(x);
      SliceStep(ts, i, ParseUnary(h, ts, i).next);
    } else {
      t := Sound(h, ts, i, Primary);
      LooserDerives(h, t, Primary, Unary);
    }
  }

  lemma {:induction false} SoundComparison(h: Host, ts: seq<Token>, i: nat) returns (t: Tree)
    requires Terminated(ts) && i < |ts| && ParseComparison(h, ts, i).Parsed?
    ensures var r := ParseComparison(h, ts, i); Explains(h, ts, i, Compared, r.node, r.next, t)
    decreases |ts| - i, 2, 0
  {
    hide ParseUnary;
    var l := ParseUnary(h, ts, i);
    var x := Sound(h, ts, i, Unary);
    if ts[l.next].Compare? {
      var y := Sound(h, ts, l.next + 1, Unary);
      t := Comp(ts[l.next].op, x, y);
      SliceInfix(ts, i, l.next, ParseComparison(h, ts, i).next);
    } else {
      t := x;
      LooserDerives(h, t, Unary, Compared);
    }
  }

  lemma {:induction false} SoundAnd(h: Host, ts: seq<Token>, i: nat) returns (t: Tree)
    requires Terminated(ts) && i < |ts| && ParseAnd(h, ts, i).Parsed?
    ensures var r := ParseAnd(h, ts, i); Explains(h, ts, i, Conjoined, r.node, r.next, t)
    decreases |ts| - i, 3, 0
  {
    hide ParseComparison;
    var x := Sound(h, ts, i, Compared);
    LooserDerives(h, x, Compared, Conjoined);
    t := SoundAndRest(h, ts, i, ParseComparison(h, ts, i).next, x);
  }

  lemma {:induction false} SoundAndRest(h: Host, ts: seq<Token>, i: nat, k: nat, left: Tree) returns (t: Tree)
    requires Terminated(ts) && i < k < |ts| && Derives(h, left, Conjoined) && Yield(left) == ts[i..k]
    requires AndRest(h, ts, k, Ast(left)).Parsed?
    ensures var r := AndRest(h, ts, k, Ast(left)); i < r.next && Explains(h, ts, i, Conjoined, r.node, r.next, t)
    decreases |ts| - k, 3, 1
  {
    hide ParseComparison;
    if ts[k] != And {
      t := left;
    } else {
      var r := ParseComparison(h, ts, k + 1);
      var y := Sound(h, ts, k + 1, Compared);
      SliceInfix(ts, i, k, r.next);
      t := SoundAndRest(h, ts, i, r.next, Conj(left, y));
    }
  }

  lemma {:induction false} SoundOr(h: Host, ts: seq<Token>, i: nat) returns (t: Tree)
    requires Terminated(ts) && i < |ts| && ParseOr(h, ts, i).Parsed?
    ensures var r := ParseOr(h, ts, i); Explains(h, ts, i, Disjoined, r.node, r.next, t)
    decreases |ts| - i, 4, 0
  {
    hide ParseAnd;
    var x := Sound(h, ts, i, Conjoined);
    LooserDerives(h, x, Conjoined, Disjoined);
    t := SoundOrRest(h, ts, i, ParseAnd(h, ts, i).next, x);
  }

  lemma {:induction false} SoundOrRest(h: Host, ts: seq<Token>, i: nat, k: nat, left: Tree) returns (t: Tree)
    requires Terminated(ts) && i < k < |ts| && Derives(h, left, Disjoined) && Yield(left) == ts[i..k]
    requires OrRest(h, ts, k, Ast(left)).Parsed?
    ensures var r := OrRest(h, ts, k, Ast(left)); i < r.next && Explains(h, ts, i, Disjoined, r.node, r.next, t)
    decreases |ts| - k, 4, 1
  {
    hide ParseAnd;
    if ts[k] != Or {
      t := left;
    } else {
      var r := ParseAnd(h, ts, k + 1);
      var y := Sound(h, ts, k + 1, Conjoined);
      SliceInfix(ts, i, k, r.next);
      t := SoundOrRest(h, ts, i, r.next, Disj(left, y));
    }
  }

  lemma {:induction false} SoundPrimary(h: Host, ts: seq<Token>, i: nat) returns (t: Tree)
    requires Terminated(ts) && i < |ts| && ParsePrimary(h, ts, i).Parsed?
    ensures var r := ParsePrimary(h, ts, i); Explains(h, ts, i, Primary, r.node, r.next, t)
    decreases |ts| - i, 0, 0
  {
    hide ParseOr, ParseArguments, Derives, Yield, Ast, YieldAll, AstAll, IsValue;
    if ts[i].Identifier? && ts[i + 1] == LeftParen {
      t := SoundCall(h, ts, i);
    } else if ts[i] == LeftParen {
      var x := Sound(h, ts, i + 1, Disjoined);
      t := Group(x);
      GroupSlice(ts, i, ParsePrimary(h, ts, i).next);
      GroupExplained(h, x);
    } else {
      t := Leaf(ts[i]);
      OneSlice(ts, i);
      LeafExplained(h, ts[i]);
    }
  }

  lemma {:induction false} SoundCall(h: Host, ts: seq<Token>, i: nat) returns (t: Tree)
    requires Terminated(ts) && i + 1 < |ts| && ts[i].Identifier? && ts[i + 1] == LeftParen &&
        ParsePrimary(h, ts, i).Parsed?
    ensures var r := ParsePrimary(h, ts, i); Explains(h, ts, i, Primary, r.node, r.next, t)
    decreases |ts| - i, 0, 0, 0
  {
    hide ParseOr, ParseArguments, Derives, Yield, Ast, YieldAll, AstAll, IsValue, ValidFunction;
    var r := ParsePrimary(h, ts, i);
    var args := [];
    if ts[i + 2] != RightParen {
      args := SoundArguments(h, ts, i + 2);
    } else {
      NoArguments();
    }
    t := Apply(ts[i].name, args);
    CallSlice(ts, i, r.next);
    CallExplained(h, ts[i].name, args);
  }

  lemma NoArguments()
    ensures YieldAll([]) == [] && AstAll([]) == []
  {
  }

  lemma CallExplained(h: Host, name: string, args: seq<Tree>)
    requires ValidFunction(name, |args|) && forall a :: a in args ==> Derives(h, a, Disjoined)
    ensures Derives(h, Apply(name, args), Primary) && Ast(Apply(name, args)) == Call(name, AstAll(args))
    ensures Yield(Apply(name, args)) == [Identifier(name), LeftParen] + YieldAll(args) + [RightParen]
  {
  }

  lemma GroupExplained(h: Host, x: Tree)
    requires Derives(h, x, Disjoined)
    ensures Derives(h, Group(x), Primary) && Ast(Group(x)) == Ast(x) &&
        Yield(Group(x)) == [LeftParen] + Yield(x) + [RightParen]
  {
  }

  lemma LeafExplained(h: Host, token: Token)
    ensures IsValue(h, token) ==> Derives(h, Leaf(token), Primary)
    ensures token.Identifier? ==> IsValue(h, token)
    ensures Ast(Leaf(token)) == LeafNode(token) && Yield(Leaf(token)) == [token]
  {
  }

  lemma OneSlice(ts: seq<Token>, i: nat)
    requires i < |ts|
    ensures ts[i..i + 1] == [ts[i]]
  {
  }

  lemma EndPosition(body: seq<Token>, k: nat)
    requires EOF !in body && k <= |body| && (body + [EOF])[k] == EOF
    ensures k == |body|
  {
  }

  lemma CallSlice(ts: seq<Token>, i: nat, j: nat)
    requires i + 3 <= j <= |ts|
    ensures ts[i..j] == [ts[i], ts[i + 1]] + ts[i + 2..j - 1] + [ts[j - 1]]
  {
  }

  lemma GroupSlice(ts: seq<Token>, i: nat, j: nat)
    requires i + 2 <= j <= |ts|
    ensures ts[i..j] == [ts[i]] + ts[i + 1..j - 1] + [ts[j - 1]]
  {
  }

  lemma {:induction false} SoundArguments(h: Host, ts: seq<Token>, i: nat) returns (args: seq<Tree>)
    requires Terminated(ts) && i < |ts| && ParseArguments(h, ts, i).ParsedList?
    ensures var r := ParseArguments(h, ts, i);
            args != [] && (forall a :: a in args ==> Derives(h, a, Disjoined)) &&
            YieldAll(args) == ts[i..r.next] && AstAll(args) == r.nodes
    decreases |ts| - i, 5, 0
  {
    hide ParseOr;
    var first := ParseOr(h, ts, i);
    var x := Sound(h, ts, i, Disjoined);
    args := [x];
    if ts[first.next] == Comma {
      var rest := SoundArguments(h, ts, first.next + 1);
      args := [x] + rest;
      SliceInfix(ts, i, first.next, ParseArguments(h, ts, i).next);
      assert args[1..] == rest;
    }
  }

  // ------------------------------------------------------------ main results

  lemma {:induction false} YieldHasNoEnd(h: Host, t: Tree, level: Level)
    requires Derives(h, t, level)
    ensures EOF !in Yield(t)
    decreases t, 1
  {
    match t
    case Apply(_, arguments) => YieldAllHasNoEnd(h, t, arguments);
    case Group(x) => YieldHasNoEnd(h, x, Disjoined);
    case Neg(x) => YieldHasNoEnd(h, x, Unary);
    case Comp(_, x, y) => YieldHasNoEnd(h, x, Unary); YieldHasNoEnd(h, y, Unary);
    case Conj(x, y) => YieldHasNoEnd(h, x, Conjoined); YieldHasNoEnd(h, y, Compared);
    case Disj(x, y) => YieldHasNoEnd(h, x, Disjoined); YieldHasNoEnd(h, y, Conjoined);
    case Leaf(_) =>
  }

  lemma {:induction false} YieldAllHasNoEnd(h: Host, t: Tree, arguments: seq<Tree>)
    requires forall a :: a in arguments ==> a < t && Derives(h, a, Disjoined)
    ensures EOF !in YieldAll(arguments)
    decreases t, 0, |arguments|
  {
    if arguments != [] {
      assert arguments[0] in arguments;
      YieldHasNoEnd(h, arguments[0], Disjoined);
      assert forall a :: a in arguments[1..] ==> a in arguments;
      YieldAllHasNoEnd(h, t, arguments[1..]);
    }
  }

  /** The parser is exact: a list of tokens is accepted with tree n exactly when the
      grammar derives it with tree n. */
  lemma ParserIsExact(h: Host, body: seq<Token>, n: Node)
    requires EOF !in body
    ensures ParseTokens(h, body + [EOF]) == Parsed(n, |body|) <==>
            exists t :: Derives(h, t, Disjoined) && Yield(t) == body && Ast(t) == n
    ensures ParseTokens(h, body + [EOF]).Parsed? ==> ParseTokens(h, body + [EOF]).next == |body|
  {
    hide ParseOr, Derives, Yield, Ast;
    var ts := body + [EOF];
    var r := ParseOr(h, ts, 0);
    if ParseTokens(h, ts).Parsed? {
      var t := Sound(h, ts, 0, Disjoined);
      EndPosition(body, r.next);
      assert ts[0..r.next] == body;
    }
    if t :| Derives(h, t, Disjoined) && Yield(t) == body && Ast(t) == n {
      ParsesDerivation(h, t);
    }
  }

  lemma ParsesDerivation(h: Host, t: Tree)
    requires Derives(h, t, Disjoined)
    ensures ParseTokens(h, Yield(t) + [EOF]) == Parsed(Ast(t), |Yield(t)|)
  {
    hide ParseOr, Derives, Yield, Ast;
    var ts := Yield(t) + [EOF];
    assert ts[0..0 + |Yield(t)|] == Yield(t);
    Complete(h, ts, 0, t, Disjoined);
  }

  // ---------------------------------------------------------------- printing

  /** Numbers, patterns and calls that some text can denote. */
  predicate Printable(h: Host, n: Node)
    decreases n
  {
    match n
    case Numeral(text) => h.number(text)
    case Pattern(source) => h.regex(source)
    case Call(name, arguments) => ValidFunction(name, |arguments|) && forall a :: a in arguments ==> Printable(h, a)
    case Negation(x) => Printable(h, x)
    case Comparison(_, x, y) => Printable(h, x) && Printable(h, y)
    case Conjunction(x, y) => Printable(h, x) && Printable(h, y)
    case Disjunction(x, y) => Printable(h, x) && Printable(h, y)
    case _ => true
  }

  function Strength(t: Tree): nat {
    match t
    case Neg(_) => 1
    case Comp(_, _, _) => 2
    case Conj(_, _) => 3
    case Disj(_, _) => 4
    case _ => 0
  }

  /** Parentheses only where the operand binds too loosely for its place. */
  function Fit(t: Tree, level: Level): Tree {
    if Strength(t) <= Rank(level) then t else Group(t)
  }

  /** The derivation of a syntax tree with the fewest parentheses. */
  function Minimal(n: Node): Tree {
    match n
    case Literal(value) => Leaf(Str(value))
    case Numeral(text) => Leaf(Number(text))
    case Boolean(b) => Leaf(if b then True else False)
    case Null => Leaf(NullWord)
    case Pattern(source) => Leaf(Regex(source))
    case Variable(name) => Leaf(Identifier(name))
    case Call(name, arguments) => Apply(name, MinimalAll(arguments))
    case Negation(x) => Neg(Fit(Minimal(x), Unary))
    case Comparison(op, x, y) => Comp(op, Fit(Minimal(x), Unary), Fit(Minimal(y), Unary))
    case Conjunction(x, y) => Conj(Fit(Minimal(x), Conjoined), Fit(Minimal(y), Compared))
    case Disjunction(x, y) => Disj(Fit(Minimal(x), Disjoined), Fit(Minimal(y), Conjoined))
  }

  function MinimalAll(ns: seq<Node>): (r: seq<Tree>)
    ensures |r| == |ns|
  {
    if ns == [] then [] else [Minimal(ns[0])] + MinimalAll(ns[1..])
  }

  lemma FitDerives(h: Host, t: Tree, level: Level)
    requires Derives(h, t, Disjoined)
    ensures Derives(h, Fit(t, level), level) && Ast(Fit(t, level)) == Ast(t)
    ensures Fit(t, level) != t ==> !Derives(h, t, level)
  {
  }

  lemma {:induction false} MinimalDerives(h: Host, n: Node)
    requires Printable(h, n)
    ensures Derives(h, Minimal(n), Disjoined) && Ast(Minimal(n)) == n
    decreases n, 1
  {
    match n
    case Call(_, arguments) =>
      MinimalAllDerive(h, n, arguments);
    case Negation(x) =>
      MinimalDerives(h, x);
      FitDerives(h, Minimal(x), Unary);
    case Comparison(_, x, y) =>
      MinimalDerives(h, x);
      MinimalDerives(h, y);
      FitDerives(h, Minimal(x), Unary);
      FitDerives(h, Minimal(y), Unary);
    case Conjunction(x, y) =>
      MinimalDerives(h, x);
      MinimalDerives(h, y);
      FitDerives(h, Minimal(x), Conjoined);
      FitDerives(h, Minimal(y), Compared);
    case Disjunction(x, y) =>
      MinimalDerives(h, x);
      MinimalDerives(h, y);
      FitDerives(h, Minimal(x), Disjoined);
      FitDerives(h, Minimal(y), Conjoined);
    case _ =>
  }

  lemma {:induction false} MinimalAllDerive(h: Host, n: Node, arguments: seq<Node>)
    requires forall a :: a in arguments ==> a < n && Printable(h, a)
    ensures (forall t :: t in MinimalAll(arguments) ==> Derives(h, t, Disjoined)) &&
        AstAll(MinimalAll(arguments)) == arguments
    decreases n, 0, |arguments|
  {
    if arguments != [] {
      assert arguments[0] in arguments;
      MinimalDerives(h, arguments[0]);
      assert forall a :: a in arguments[1..] ==> a in arguments;
      MinimalAllDerive(h, n, arguments[1..]);
      assert MinimalAll(arguments)[1..] == MinimalAll(arguments[1..]);
      assert arguments == [arguments[0]] + arguments[1..];
    }
  }

  /** Printing with the fewest parentheses and parsing gives the same tree back. */
  lemma PrintThenParse(h: Host, n: Node)
    requires Printable(h, n)
    ensures ParseTokens(h, Yield(Minimal(n)) + [EOF]) == Parsed(n, |Yield(Minimal(n))|)
  {
    hide Derives, Minimal, Yield, Ast, ParseTokens;
    MinimalDerives(h, n);
    ParsesDerivation(h, Minimal(n));
  }

  // --------------------------------------------------------------- the program

  datatype MaybeNode = NoNode | SomeNode(node: Node)

  /** The recursive descent parser over a token list and a cursor. */
  class Parser {
    const h: Host
    const tokens: seq<Token>
    var index: nat

    constructor (h: Host, tokens: seq<Token>)
      ensures this.h == h && this.tokens == tokens && index == 0
    {
      this.h, this.tokens, index := h, tokens, 0;
    }

    ghost predicate Inside()
      reads this
    {
      Terminated(tokens) && index < |tokens|
    }

    /** The method read what the specification parses from where it started. */
    ghost predicate Reads(r: MaybeNode, p: Parse)
      reads this
    {
      match p
      case Bad => r == NoNode
      case Parsed(node, next) => r == SomeNode(node) && index == next
    }

    method ReadOr() returns (r: MaybeNode)
      requires Inside()
      modifies this
      ensures Reads(r, ParseOr(h, tokens, old(index)))
      decreases |tokens| - index, 5
    {
      ghost var start := index;
      r := ReadAnd();
      if r.NoNode? {
        return;
      }
      while tokens[index] == Or
        invariant Inside() && index > start && r.SomeNode?
        invariant OrRest(h, tokens, index, r.node) == ParseOr(h, tokens, start)
        decreases |tokens| - index
      {
        index := index + 1;
        var right := ReadAnd();
        if right.NoNode? {
          return NoNode;
        }
        r := SomeNode(Disjunction(r.node, right.node));
      }
    }

    method ReadAnd() returns (r: MaybeNode)
      requires Inside()
      modifies this
      ensures Reads(r, ParseAnd(h, tokens, old(index)))
      decreases |tokens| - index, 4
    {
      ghost var start := index;
      r := ReadComparison();
      if r.NoNode? {
        return;
      }
      while tokens[index] == And
        invariant Inside() && index > start && r.SomeNode?
        invariant AndRest(h, tokens, index, r.node) == ParseAnd(h, tokens, start)
        decreases |tokens| - index
      {
        index := index + 1;
        var right := ReadComparison();
        if right.NoNode? {
          return NoNode;
        }
        r := SomeNode(Conjunction(r.node, right.node));
      }
    }

    method ReadComparison() returns (r: MaybeNode)
      requires Inside()
      modifies this
      ensures Reads(r, ParseComparison(h, tokens, old(index)))
      decreases |tokens| - index, 3
    {
      r := ReadUnary();
      if r.SomeNode? && tokens[index].Compare? {
        var op := tokens[index].op;
        index := index + 1;
        var right := ReadUnary();
        if right.NoNode? {
          return NoNode;
        }
        r := SomeNode(Comparison(op, r.node, right.node));
      }
    }

    method ReadUnary() returns (r: MaybeNode)
      requires Inside()
      modifies this
      ensures Reads(r, ParseUnary(h, tokens, old(index)))
      decreases |tokens| - index, 2
    {
      if tokens[index] == Not {
        index := index + 1;
        r := ReadUnary();
        if r.SomeNode? {
          r := SomeNode(Negation(r.node));
        }
      } else {
        r := ReadPrimary();
      }
    }

    method ReadPrimary() returns (r: MaybeNode)
      requires Inside()
      modifies this
      ensures Reads(r, ParsePrimary(h, tokens, old(index)))
      decreases |tokens| - index, 1
    {
      hide ParseOr, ParseArguments;
      var token := tokens[index];
      index := index + 1;
      if token.Identifier? {
        if tokens[index] != LeftParen {
          return SomeNode(Variable(token.name));
        }
        index := index + 1;
        var nodes: seq<Node> := [];
        if tokens[index] != RightParen {
          var ok;
          ok, nodes := ReadArguments();
          if !ok {
            return NoNode;
          }
        }
        if tokens[index] != RightParen || !ValidFunction(token.name, |nodes|) {
          return NoNode;
        }
        index := index + 1;
        return SomeNode(Call(token.name, nodes));
      }
      if token == LeftParen {
        r := ReadOr();
        if r.NoNode? || tokens[index] != RightParen {
          return NoNode;
        }
        index := index + 1;
        return;
      }
      r := if IsValue(h, token) then SomeNode(LeafNode(token)) else NoNode;
    }

    /** The loop over the arguments of a call. */
    method ReadArguments() returns (ok: bool, nodes: seq<Node>)
      requires Inside()
      modifies this
      ensures var p := ParseArguments(h, tokens, old(index));
              if ok then p == ParsedList(nodes, index) else p == BadList
      decreases |tokens| - index, 6
    {
      hide ParseOr;
      ghost var start := index;
      nodes := [];
      while true
        invariant Inside() && index >= start
        invariant After(nodes, ParseArguments(h, tokens, index)) == ParseArguments(h, tokens, start)
        decreases |tokens| - index
      {
        var argument := ReadOr();
        if argument.NoNode? {
          return false, [];
        }
        nodes := nodes + [argument.node];
        if tokens[index] != Comma {
          return true, nodes;
        }
        index := index + 1;
      }
    }
  }

  ghost function After(nodes: seq<Node>, rest: ParseList): ParseList {
    match rest
    case BadList => BadList
    case ParsedList(more, next) => ParsedList(nodes + more, next)
  }

  /** parseCondition after scanning. */
  method ParseCondition(h: Host, tokens: seq<Token>) returns (r: MaybeNode)
    requires Terminated(tokens)
    ensures match ParseTokens(h, tokens)
            case Bad => r == NoNode
            case Parsed(node, _) => r == SomeNode(node)
  {
    var parser := new Parser(h, tokens);
    r := parser.ReadOr();
    if r.SomeNode? && tokens[parser.index] != EOF {
      r := NoNode;
    }
  }
}
