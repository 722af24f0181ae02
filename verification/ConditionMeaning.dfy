// What conditions mean, and what happens to the meaning when two conditions are pasted
// into one text, as composite actions and reusable workflows do.
module ConditionMeaning {
  import opened Text
  import opened Search
  import opened ConditionParser
  import opened ConditionLexer

  // -------------------------------------------------------------- evaluation

  datatype Value = VNull | VBool(b: bool) | VString(s: string) | VNumber(n: real) | VPattern(source: string)

  datatype Result<T> = Ok(value: T) | Error

  /** Evaluation delegated elsewhere: the values of numerals, how numbers and patterns are
      shown, letter case, and pattern matching, which fails on a text that is no pattern. */
  datatype Semantics = Semantics(
    numeral: string -> real,
    show: real -> string,
    showPattern: string -> string,
    lower: string -> string,
    sameFold: (string, string) -> bool,
    matches: (string, string) -> Result<bool>)

  /** lookup stands for the search of a variable among the values of the context. */
  datatype Context = Context(lookup: string -> Result<Value>, success: bool, failure: bool, cancelled: bool,
      caseInsensitive: bool)

  function Truthy(v: Value): bool {
    match v
    case VNull => false
    case VBool(b) => b
    case VString(s) => s != ""
    case VNumber(n) => n != 0.0
    case VPattern(_) => true
  }

  /** fmt.Sprint. */
  function Shown(m: Semantics, v: Value): string {
    match v
    case VNull => "<nil>"
    case VBool(b) => if b then "true" else "false"
    case VString(s) => s
    case VNumber(n) => m.show(n)
    case VPattern(source) => m.showPattern(source)
  }

  /** equalValues. */
  predicate SameValue(m: Semantics, l: Value, r: Value, ci: bool) {
    if l.VNull? || r.VNull? then l.VNull? && r.VNull?
    else if l.VNumber? && r.VNumber? then l.n == r.n
    else if ci then m.sameFold(Shown(m, l), Shown(m, r))
    else Shown(m, l) == Shown(m, r)
  }

  function OrderTexts(a: string, b: string): int {
    if Less(a, b) then -1 else if a == b then 0 else 1
  }

  /** compareValues. */
  function Order(m: Semantics, l: Value, r: Value, ci: bool): int {
    if l.VNumber? && r.VNumber? then
      if l.n < r.n then -1 else if l.n > r.n then 1 else 0
    else if ci then OrderTexts(m.lower(Shown(m, l)), m.lower(Shown(m, r)))
    else OrderTexts(Shown(m, l), Shown(m, r))
  }

  /** A pattern, or a text read as one, against the text shown for a value. */
  function Matches(m: Semantics, l: Value, r: Value): Result<bool> {
    match r
    case VPattern(source) => m.matches(source, Shown(m, l))
    case VString(source) => m.matches(source, Shown(m, l))
    case _ => Error
  }

  function Compare(m: Semantics, op: CompareOp, l: Value, r: Value, ci: bool): Result<Value> {
    match op
    case Equal => Ok(VBool(SameValue(m, l, r, ci)))
    case NotEqual => Ok(VBool(!SameValue(m, l, r, ci)))
    case LessThan => Ok(VBool(Order(m, l, r, ci) < 0))
    case LessEqual => Ok(VBool(Order(m, l, r, ci) <= 0))
    case GreaterThan => Ok(VBool(Order(m, l, r, ci) > 0))
    case GreaterEqual => Ok(VBool(Order(m, l, r, ci) >= 0))
    case Match => (match Matches(m, l, r) case Error => Error case Ok(b) => Ok(VBool(b)))
    case NotMatch => (match Matches(m, l, r) case Error => Error case Ok(b) => Ok(VBool(!b)))
  }

  /** contains, startsWith and endsWith. */
  function TextTest(name: string, a: string, b: string): Result<Value> {
    if name == "contains" then Ok(VBool(Contains(a, b)))
    else if name == "startswith" then Ok(VBool(b <= a))
    else if name == "endswith" then Ok(VBool(|b| <= |a| && a[|a| - |b|..] == b))
    else Error
  }

  function EvaluateNode(m: Semantics, n: Node, ctx: Context): Result<Value>
    decreases n, 1
  {
    match n
    case Literal(value) => Ok(VString(value))
    case Numeral(text) => Ok(VNumber(m.numeral(text)))
    case Boolean(b) => Ok(VBool(b))
    case Null => Ok(VNull)
    case Pattern(source) => Ok(VPattern(source))
    case Variable(name) => ctx.lookup(name)
    case Call(name, arguments) => EvaluateCall(m, n, ctx)
    case Negation(x) =>
      (match EvaluateNode(m, x, ctx)
       case Error => Error
       case Ok(v) => Ok(VBool(!Truthy(v))))
    case Comparison(op, x, y) =>
      (match EvaluateNode(m, x, ctx)
       case Error => Error
       case Ok(l) =>
         match EvaluateNode(m, y, ctx)
         case Error => Error
         case Ok(r) => Compare(m, op, l, r, ctx.caseInsensitive))
    case Conjunction(x, y) =>
      (match EvaluateNode(m, x, ctx)
       case Error => Error
       case Ok(l) =>
         if !Truthy(l) then Ok(VBool(false))
         else
           match EvaluateNode(m, y, ctx)
           case Error => Error
           case Ok(r) => Ok(VBool(Truthy(l) && Truthy(r))))
    case Disjunction(x, y) =>
      (match EvaluateNode(m, x, ctx)
       case Error => Error
       case Ok(l) =>
         if Truthy(l) then Ok(VBool(true))
         else
           match EvaluateNode(m, y, ctx)
           case Error => Error
           case Ok(r) => Ok(VBool(Truthy(l) || Truthy(r))))
  }

  function EvaluateCall(m: Semantics, n: Node, ctx: Context): Result<Value>
    requires n.Call?
    decreases n, 0
  {
    var lower := Lower(n.name);
    if lower == "success" then Ok(VBool(ctx.success))
    else if lower == "failure" then Ok(VBool(ctx.failure))
    else if lower == "cancelled" then Ok(VBool(ctx.cancelled))
    else if lower == "always" then Ok(VBool(true))
    else if |n.arguments| != 2 then Error
    else
      match EvaluateNode(m, n.arguments[0], ctx)
      case Error => Error
      case Ok(l) =>
        match EvaluateNode(m, n.arguments[1], ctx)
        case Error => Error
        case Ok(r) =>
          if ctx.caseInsensitive then TextTest(lower, m.lower(Shown(m, l)), m.lower(Shown(m, r)))
          else TextTest(lower, Shown(m, l), Shown(m, r))
  }

  // --------------------------------------------------------- conditions as text

  predicate Wrapped(s: string) {
    |s| >= 3 && s[0] == '$' && s[1] == '{' && s[2] == '{' && s[|s| - 2] == '}' && s[|s| - 1] == '}'
  }

  /** normalizeCondition, and the unwrapping of composite actions. */
  function Normalize(expression: string): string {
    var s := Trim(expression);
    if Wrapped(s) then Trim(s[3..|s| - 2]) else s
  }

  function ParseText(h: Host, s: string): Parse {
    match Lex(h, s)
    case LexError => Bad
    case Tokens(ts) => ParseTokens(h, ts)
  }

  /** CompileCondition accepts the text. */
  predicate Compiles(h: Host, expression: string) {
    var s := Normalize(expression);
    s == "" || ParseText(h, s).Parsed?
  }

  /** EvaluateCondition. */
  function Evaluate(h: Host, m: Semantics, expression: string, ctx: Context): Result<bool> {
    var s := Normalize(expression);
    if s == "" then Ok(true)
    else
      match ParseText(h, s)
      case Bad => Error
      case Parsed(node, _) =>
        match EvaluateNode(m, node, ctx)
        case Error => Error
        case Ok(v) => Ok(Truthy(v))
  }

  /** Short-circuit conjunction of two outcomes. */
  function AndThen(first: Result<bool>, second: Result<bool>): Result<bool> {
    match first
    case Error => Error
    case Ok(b) => if b then second else Ok(false)
  }

  // ----------------------------------------------------------------- pasting

  function Pasted(p: string, c: string): string {
    "(" + p + ") && (" + c + ")"
  }

  /** combineCompositeConditions. */
  function CombineComposite(parent: string, child: string): string {
    if Trim(parent) == "" then Trim(child)
    else if Trim(child) == "" then Trim(parent)
    else "${{ " + Pasted(Normalize(parent), Normalize(child)) + " }}"
  }

  /** combineReusableConditions. */
  function CombineReusable(caller: string, child: string): string {
    if Trim(caller) == "" then Trim(child)
    else if Trim(child) == "" then Trim(caller)
    else Pasted(Trim(caller), Trim(child))
  }

  // ------------------------------------------------------ scanning pasted text

  lemma LexSymbol(h: Host, s: string)
    requires s != "" && !IsSpace(s[0]) && ScanToken(h, s).One?
    ensures Lex(h, s) == Cons(ScanToken(h, s).token, Lex(h, s[ScanToken(h, s).length..]))
  {
  }

  lemma LexOpen(h: Host, s: string)
    ensures Lex(h, "(" + s) == Cons(LeftParen, Lex(h, s))
  {
    var t := "(" + s;
    assert t[1..] == s;
    LexSymbol(h, t);
  }

  /** The text between the two pasted conditions. */
  lemma LexMiddle(h: Host, s: string)
    ensures Lex(h, ") && (" + s) == Cons(RightParen, Cons(And, Cons(LeftParen, Lex(h, s))))
  {
    var a, b, c, d := ") && (" + s, " && (" + s, "&& (" + s, " (" + s;
    assert a[1..] == b && b[1..] == c && c[2..] == d && d[1..] == "(" + s;
    LexSymbol(h, a);
    assert Lex(h, b) == Lex(h, c);
    LexSymbol(h, c);
    assert Lex(h, d) == Lex(h, "(" + s);
    LexOpen(h, s);
  }

  lemma LexClose(h: Host)
    ensures Lex(h, ")") == Tokens([RightParen, EOF])
  {
    LexSymbol(h, ")");
    assert ")"[1..] == "";
    assert Lex(h, "") == Tokens([EOF]);
  }

  /** Scanning the pasted text once the first condition scans. */
  lemma LexPasted(h: Host, p: string, c: string)
    requires SoundClasses(h) && Lex(h, p).Tokens?
    ensures Lex(h, Pasted(p, c)) == Cons(LeftParen, Append(BodyOf(Lex(h, p)),
              Cons(RightParen, Cons(And, Cons(LeftParen, Lex(h, c + ")"))))))
  {
    hide Lex, SoundClasses;
    var rest := ") && (" + (c + ")");
    assert Pasted(p, c) == "(" + (p + rest);
    LexOpen(h, p + rest);
    LexAppend(h, p, rest);
    LexMiddle(h, c + ")");
  }

  lemma LexPastedBoth(h: Host, p: string, c: string)
    requires SoundClasses(h) && Lex(h, p).Tokens? && Lex(h, c).Tokens?
    ensures Lex(h, Pasted(p, c)) ==
            Tokens(([LeftParen] + BodyOf(Lex(h, p)) + [RightParen]) + [And] +
                ([LeftParen] + BodyOf(Lex(h, c)) + [RightParen]) + [EOF])
  {
    hide Lex, SoundClasses;
    LexPasted(h, p, c);
    LexAppend(h, c, ")");
    LexClose(h);
    var bp, bc := BodyOf(Lex(h, p)), BodyOf(Lex(h, c));
    assert [LeftParen] + (bp + ([RightParen] + ([And] + ([LeftParen] + (bc + [RightParen, EOF]))))) ==
           ([LeftParen] + bp + [RightParen]) + [And] + ([LeftParen] + bc + [RightParen]) + [EOF];
  }

  // ------------------------------------------------------ parsing pasted text

  lemma TextHasTree(h: Host, s: string) returns (t: Tree)
    requires ParseText(h, s).Parsed?
    ensures Lex(h, s).Tokens? && Derives(h, t, Disjoined) && Yield(t) == BodyOf(Lex(h, s)) &&
        Ast(t) == ParseText(h, s).node
  {
    hide ParseTokens, Derives, Yield, Ast;
    var ts := Lex(h, s).tokens;
    var body := BodyOf(Lex(h, s));
    assert ts == body + [EOF];
    ParserIsExact(h, body, ParseText(h, s).node);
    t :| Derives(h, t, Disjoined) && Yield(t) == body && Ast(t) == ParseText(h, s).node;
  }

  /** Two conditions that parse on their own parse, once pasted, to their conjunction. */
  lemma PastedParses(h: Host, p: string, c: string)
    requires SoundClasses(h) && ParseText(h, p).Parsed? && ParseText(h, c).Parsed?
    ensures ParseText(h, Pasted(p, c)).Parsed?
    ensures ParseText(h, Pasted(p, c)).node == Conjunction(ParseText(h, p).node, ParseText(h, c).node)
  {
    hide Lex, SoundClasses, ParseTokens;
    var tp := TextHasTree(h, p);
    var tc := TextHasTree(h, c);
    LexPastedBoth(h, p, c);
    var t := Conj(Group(tp), Group(tc));
    PairDerives(h, tp, tc);
    ParsesDerivation(h, t);
  }

  lemma PairDerives(h: Host, tp: Tree, tc: Tree)
    requires Derives(h, tp, Disjoined) && Derives(h, tc, Disjoined)
    ensures var t := Conj(Group(tp), Group(tc));
            && Derives(h, t, Disjoined) && Ast(t) == Conjunction(Ast(tp), Ast(tc))
            && Yield(t) == ([LeftParen] + Yield(tp) + [RightParen]) + [And] + ([LeftParen] + Yield(tc) + [RightParen])
  {
  }

  /** An empty pair of parentheses does not parse. */
  lemma EmptyGroupIsBad(h: Host, ts: seq<Token>, i: nat)
    requires Terminated(ts) && i + 1 < |ts| && ts[i] == LeftParen && ts[i + 1] == RightParen
    ensures ParseComparison(h, ts, i) == Bad && ParseOr(h, ts, i) == Bad
  {
    assert ParseUnary(h, ts, i + 1) == Bad;
    assert ParseComparison(h, ts, i + 1) == Bad;
    assert ParseOr(h, ts, i + 1) == Bad;
    assert ParseUnary(h, ts, i) == Bad;
  }

  lemma EmptyFirstIsBad(h: Host, c: string)
    requires SoundClasses(h)
    ensures ParseText(h, Pasted("", c)).Bad?
  {
    assert Lex(h, "") == Tokens([EOF]);
    LexPasted(h, "", c);
    var r := Lex(h, Pasted("", c));
    if r.Tokens? {
      assert r.tokens[0] == LeftParen && r.tokens[1] == RightParen;
      EmptyGroupIsBad(h, r.tokens, 0);
    }
  }

  lemma EmptySecondIsBad(h: Host, p: string)
    requires SoundClasses(h) && ParseText(h, p).Parsed?
    ensures ParseText(h, Pasted(p, "")).Bad?
  {
    hide Lex, SoundClasses;
    var tp := TextHasTree(h, p);
    LexEmpty(h);
    LexPastedBoth(h, p, "");
    var ts := Lex(h, Pasted(p, "")).tokens;
    var g := Group(tp);
    var k := |Yield(g)|;
    assert Yield(g) == [LeftParen] + Yield(tp) + [RightParen];
    assert ts == Yield(g) + [And, LeftParen, RightParen, EOF];
    assert ts[0..0 + k] == Yield(g);
    Complete(h, ts, 0, g, Compared);
    EmptyGroupIsBad(h, ts, k + 1);
    AndThenBad(h, ts, k, Ast(g));
  }

  lemma AndThenBad(h: Host, ts: seq<Token>, k: nat, n: Node)
    requires Terminated(ts) && 0 < k && k + 1 < |ts| && ParseComparison(h, ts, 0) == Parsed(n, k)
    requires ts[k] == And && ParseComparison(h, ts, k + 1) == Bad
    ensures ParseTokens(h, ts) == Bad
  {
    hide ParseComparison;
    assert AndRest(h, ts, k, n) == Bad;
    assert ParseAnd(h, ts, 0) == Bad;
  }

  // ------------------------------------------------------------ main results

  lemma TrimPadded(s: string)
    requires Trimmed(s) && s != ""
    ensures Trim(" " + s + " ") == s
  {
    var t := " " + s + " ";
    assert t[1..] == s + " ";
    assert (s + " ")[..|s|] == s;
    assert Trim(s + " ") == Trim(s);
  }

  lemma NormalizeWrapped(p: string, c: string)
    ensures Normalize("${{ " + Pasted(p, c) + " }}") == Pasted(p, c)
    ensures Normalize(Pasted(p, c)) == Pasted(p, c) && Pasted(p, c) != ""
  {
    var body := Pasted(p, c);
    var s := "${{ " + body + " }}";
    assert body[0] == '(' && body[|body| - 1] == ')';
    assert s[3..|s| - 2] == " " + body + " ";
    TrimPadded(body);
  }

  /** A text that parses to the conjunction of two others means their conjunction. */
  lemma ConjunctionMeans(h: Host, m: Semantics, text: string, p: string, c: string, ctx: Context)
    requires Normalize(text) != "" && Normalize(p) != "" && Normalize(c) != ""
    requires var (r, a, b) := (ParseText(h, Normalize(text)), ParseText(h, Normalize(p)), ParseText(h, Normalize(c)));
             r.Parsed? && a.Parsed? && b.Parsed? && r.node == Conjunction(a.node, b.node)
    ensures Evaluate(h, m, text, ctx) == AndThen(Evaluate(h, m, p, ctx), Evaluate(h, m, c, ctx))
  {
    hide ParseText, Normalize;
  }

  /** An empty condition is met, and changes nothing in front of another. */
  lemma EmptyMeans(h: Host, m: Semantics, p: string, c: string, ctx: Context)
    requires Normalize(p) == ""
    ensures Evaluate(h, m, p, ctx) == Ok(true)
    ensures AndThen(Evaluate(h, m, p, ctx), Evaluate(h, m, c, ctx)) == Evaluate(h, m, c, ctx)
    ensures AndThen(Evaluate(h, m, c, ctx), Evaluate(h, m, p, ctx)) == Evaluate(h, m, c, ctx)
  {
    hide ParseText, Normalize, EvaluateNode;
  }

  /** Evaluation looks at the normalised text only. */
  lemma NormalMeans(h: Host, m: Semantics, e: string, f: string, ctx: Context)
    requires Normalize(e) == Normalize(f)
    ensures Evaluate(h, m, e, ctx) == Evaluate(h, m, f, ctx) && Compiles(h, e) == Compiles(h, f)
  {
    hide ParseText, Normalize, EvaluateNode;
  }

  lemma CompiledParses(h: Host, e: string)
    ensures Compiles(h, e) <==> Normalize(e) == "" || ParseText(h, Normalize(e)).Parsed?
  {
    hide ParseText, Normalize;
  }

  /** The text composite actions paste: it compiles exactly when neither non-blank condition
      is an empty expression, and then means the short-circuit conjunction. */
  lemma CompositeMeansConjunction(h: Host, m: Semantics, p: string, c: string)
    requires SoundClasses(h) && Compiles(h, p) && Compiles(h, c)
    ensures Compiles(h, CombineComposite(p, c)) <==>
            Trim(p) == "" || Trim(c) == "" || (Normalize(p) != "" && Normalize(c) != "")
    ensures Compiles(h, CombineComposite(p, c)) ==> forall ctx ::
              Evaluate(h, m, CombineComposite(p, c), ctx) == AndThen(Evaluate(h, m, p, ctx), Evaluate(h, m, c, ctx))
  {
    hide ParseText, SoundClasses, Pasted, Evaluate, Compiles, Normalize, Trim, AndThen;
    NormalizeIsStable(p);
    NormalizeIsStable(c);
    CompiledParses(h, p);
    CompiledParses(h, c);
    var text := CombineComposite(p, c);
    CompiledParses(h, text);
    if Trim(p) != "" && Trim(c) != "" {
      NormalizeWrapped(Normalize(p), Normalize(c));
      if Normalize(p) == "" {
        EmptyFirstIsBad(h, Normalize(c));
      } else if Normalize(c) == "" {
        EmptySecondIsBad(h, Normalize(p));
      } else {
        PastedParses(h, Normalize(p), Normalize(c));
        forall ctx ensures Evaluate(h, m, text, ctx) == AndThen(Evaluate(h, m, p, ctx), Evaluate(h, m, c, ctx)) {
          ConjunctionMeans(h, m, text, p, c, ctx);
        }
      }
    } else {
      OneIsBlank(h, m, text, p, c);
    }
  }

  /** With one condition blank the other stands alone. */
  lemma OneIsBlank(h: Host, m: Semantics, text: string, p: string, c: string)
    requires (Normalize(p) == "" && Normalize(text) == Normalize(c)) ||
        (Normalize(c) == "" && Normalize(text) == Normalize(p))
    ensures Compiles(h, p) && Compiles(h, c) ==> Compiles(h, text)
    ensures forall ctx :: Evaluate(h, m, text, ctx) == AndThen(Evaluate(h, m, p, ctx), Evaluate(h, m, c, ctx))
  {
    hide ParseText, Normalize, Evaluate, Compiles, AndThen;
    forall ctx ensures Evaluate(h, m, text, ctx) == AndThen(Evaluate(h, m, p, ctx), Evaluate(h, m, c, ctx)) {
      OneIsBlankIn(h, m, text, p, c, ctx);
    }
    CompiledParses(h, p);
    CompiledParses(h, c);
    CompiledParses(h, text);
  }

  lemma OneIsBlankIn(h: Host, m: Semantics, text: string, p: string, c: string, ctx: Context)
    requires (Normalize(p) == "" && Normalize(text) == Normalize(c)) ||
        (Normalize(c) == "" && Normalize(text) == Normalize(p))
    ensures Evaluate(h, m, text, ctx) == AndThen(Evaluate(h, m, p, ctx), Evaluate(h, m, c, ctx))
  {
    hide ParseText, Normalize, Evaluate, Compiles, AndThen;
    if Normalize(p) == "" && Normalize(text) == Normalize(c) {
      EmptyMeans(h, m, p, c, ctx);
      NormalMeans(h, m, text, c, ctx);
    } else {
      EmptyMeans(h, m, c, p, ctx);
      NormalMeans(h, m, text, p, ctx);
    }
  }

  lemma NormalizeIsStable(s: string)
    ensures Normalize(Trim(s)) == Normalize(s)
    ensures Trim(s) == "" ==> Normalize(s) == ""
  {
  }

  /** The text reusable workflows paste is not unwrapped first: it compiles exactly when
      neither condition is written inside the expression delimiters. */
  lemma ReusableMeansConjunction(h: Host, m: Semantics, p: string, c: string)
    requires SoundClasses(h) && Compiles(h, p) && Compiles(h, c)
    ensures Compiles(h, CombineReusable(p, c)) <==>
            Trim(p) == "" || Trim(c) == "" || (!Wrapped(Trim(p)) && !Wrapped(Trim(c)))
    ensures Compiles(h, CombineReusable(p, c)) ==> forall ctx ::
              Evaluate(h, m, CombineReusable(p, c), ctx) == AndThen(Evaluate(h, m, p, ctx), Evaluate(h, m, c, ctx))
  {
    hide ParseText, SoundClasses, Pasted, Evaluate, Compiles, Trim, AndThen, Wrapped;
    NormalizeIsStable(p);
    NormalizeIsStable(c);
    CompiledParses(h, p);
    CompiledParses(h, c);
    var text := CombineReusable(p, c);
    CompiledParses(h, text);
    if Trim(p) != "" && Trim(c) != "" {
      NormalizeWrapped(Trim(p), Trim(c));
      if Wrapped(Trim(p)) {
        WrappedFirstIsBad(h, Trim(p), Trim(c));
      } else if Wrapped(Trim(c)) {
        WrappedSecondIsBad(h, Trim(p), Trim(c));
      } else {
        PastedParses(h, Trim(p), Trim(c));
        forall ctx ensures Evaluate(h, m, text, ctx) == AndThen(Evaluate(h, m, p, ctx), Evaluate(h, m, c, ctx)) {
          ConjunctionMeans(h, m, text, p, c, ctx);
        }
      }
    } else {
      OneIsBlank(h, m, text, p, c);
    }
  }

  /** A dollar sign scans as a name of its own, the brace after it does not scan. */
  lemma WrappedDoesNotLex(h: Host, s: string)
    requires SoundClasses(h) && |s| >= 2 && s[0] == '$' && s[1] == '{'
    ensures Lex(h, s) == LexError
  {
    assert NameRun(h, s[1..]) == 0;
    assert ScanToken(h, s).One? && ScanToken(h, s).length == 1;
    assert s[1..][0] == '{';
    assert ScanToken(h, s[1..]) == Fail;
    assert Lex(h, s[1..]) == LexError;
  }

  lemma WrappedFirstIsBad(h: Host, p: string, c: string)
    requires SoundClasses(h) && Wrapped(p)
    ensures ParseText(h, Pasted(p, c)).Bad?
  {
    hide ScanToken;
    var rest := p + (") && (" + c + ")");
    assert Pasted(p, c) == "(" + rest;
    LexOpen(h, rest);
    WrappedDoesNotLex(h, rest);
  }

  lemma WrappedSecondIsBad(h: Host, p: string, c: string)
    requires SoundClasses(h) && ParseText(h, p).Parsed? && Wrapped(c)
    ensures ParseText(h, Pasted(p, c)).Bad?
  {
    hide ScanToken;
    LexPasted(h, p, c);
    WrappedDoesNotLex(h, c + ")");
  }
}
