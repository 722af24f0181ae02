// The scanner of the condition language, how it behaves when text is appended, and the
// round trip through text.
module ConditionLexer {
  import opened Text
  import opened ConditionParser

  datatype Scan = One(token: Token, length: nat) | Fail

  datatype Lexed = Tokens(tokens: seq<Token>) | LexError

  // ----------------------------------------------------------- single tokens

  predicate NumberChar(h: Host, c: char) {
    h.digit(c) || c == '.' || c == 'e' || c == 'E' || c == '+' || c == '-'
  }

  predicate NameChar(h: Host, c: char) {
    h.letter(c) || h.digit(c) || c == '_' || c == '.' || c == '-'
  }

  /** Length of the longest prefix of characters of one kind. */
  function NumberRun(h: Host, s: string): (n: nat)
    ensures n <= |s|
  {
    if s != "" && NumberChar(h, s[0]) then 1 + NumberRun(h, s[1..]) else 0
  }

  function NameRun(h: Host, s: string): (n: nat)
    ensures n <= |s|
  {
    if s != "" && NameChar(h, s[0]) then 1 + NameRun(h, s[1..]) else 0
  }

  function LetterRun(h: Host, s: string): (n: nat)
    ensures n <= |s|
  {
    if s != "" && h.letter(s[0]) then 1 + LetterRun(h, s[1..]) else 0
  }

  datatype Body = Closed(value: string, length: nat) | Unclosed

  function Prepend(c: char, consumed: nat, body: Body): Body {
    match body
    case Unclosed => Unclosed
    case Closed(value, length) => Closed([c] + value, consumed + length)
  }

  /** The rest of a quoted string, up to and including the closing quote. */
  function StringBody(quote: char, s: string): (body: Body)
    ensures body.Closed? ==> 1 <= body.length <= |s|
  {
    if s == "" then Unclosed
    else if s[0] == quote then
      if quote == '\'' && |s| > 1 && s[1] == quote then Prepend(quote, 2, StringBody(quote, s[2..]))
      else Closed("", 1)
    else if s[0] == '\\' && quote == '"' && |s| > 1 then
      if s[1] == 'n' then Prepend('\n', 2, StringBody(quote, s[2..]))
      else if s[1] == 't' then Prepend('\t', 2, StringBody(quote, s[2..]))
      else if s[1] == '\\' || s[1] == '"' then Prepend(s[1], 2, StringBody(quote, s[2..]))
      else Unclosed
    else Prepend(s[0], 1, StringBody(quote, s[1..]))
  }

  /** Length of the rest of a regular expression, with its flags; 0 if it never closes. */
  function RegexBody(h: Host, s: string, escaped: bool): (n: nat)
    ensures n <= |s|
  {
    if s == "" then 0
    else if !escaped && s[0] == '/' then 1 + LetterRun(h, s[1..])
    else
      var rest := RegexBody(h, s[1..], !escaped && s[0] == '\\');
      if rest == 0 then 0 else 1 + rest
  }

  function WordToken(name: string): Token {
    var lower := Lower(name);
    if lower == "true" then True
    else if lower == "false" then False
    else if lower == "null" then NullWord
    else Identifier(name)
  }

  /** consume, for the two-character operators. */
  predicate Consumes(s: string, a: char, b: char) {
    |s| >= 2 && s[0] == a && s[1] == b
  }

  function ScanSymbol(s: string): Scan
    requires s != ""
  {
    match s[0]
    case '(' => One(LeftParen, 1)
    case ')' => One(RightParen, 1)
    case ',' => One(Comma, 1)
    case '&' => if Consumes(s, '&', '&') then One(And, 2) else Fail
    case '|' => if Consumes(s, '|', '|') then One(Or, 2) else Fail
    case '!' => if Consumes(s, '!', '~') then One(Compare(NotMatch), 2) else if Consumes(s, '!', '=')
        then One(Compare(NotEqual), 2) else One(Not, 1)
    case '=' => if Consumes(s, '=', '~') then One(Compare(Match), 2) else if Consumes(s, '=', '=')
        then One(Compare(Equal), 2) else Fail
    case '<' => if Consumes(s, '<', '=') then One(Compare(LessEqual), 2) else One(Compare(LessThan), 1)
    case '>' => if Consumes(s, '>', '=') then One(Compare(GreaterEqual), 2) else One(Compare(GreaterThan), 1)
    case _ => Fail
  }

  predicate IsSymbol(c: char) {
    c == '(' || c == ')' || c == ',' || c == '&' || c == '|' || c == '!' || c == '=' || c == '<' || c == '>'
  }

  predicate StartsNumber(h: Host, s: string)
    requires s != ""
  {
    h.digit(s[0]) || (s[0] == '-' && |s| > 1 && h.digit(s[1]))
  }

  predicate StartsName(h: Host, c: char) {
    h.letter(c) || c == '_' || c == '$'
  }

  function NameLength(h: Host, s: string): (n: nat)
    requires s != "" && StartsName(h, s[0])
    ensures 1 <= n <= |s|
  {
    if s[0] == '$' then 1 + NameRun(h, s[1..]) else NameRun(h, s)
  }

  /** The token at the start of a text that does not start with white space. */
  function ScanToken(h: Host, s: string): (r: Scan)
    requires s != ""
    ensures r.One? ==> 1 <= r.length <= |s| && r.token != EOF
  {
    if IsSymbol(s[0]) then ScanSymbol(s)
    else if s[0] == '/' then
      var n := RegexBody(h, s[1..], false);
      if n == 0 then Fail else One(Regex(s[..n + 1]), n + 1)
    else if s[0] == '\'' || s[0] == '"' then
      match StringBody(s[0], s[1..])
      case Unclosed => Fail
      case Closed(value, length) => One(Str(value), length + 1)
    else if StartsNumber(h, s) then One(Number(s[..NumberRun(h, s)]), NumberRun(h, s))
    else if StartsName(h, s[0]) then One(WordToken(s[..NameLength(h, s)]), NameLength(h, s))
    else Fail
  }

  function Cons(token: Token, rest: Lexed): Lexed {
    match rest
    case LexError => LexError
    case Tokens(ts) => Tokens([token] + ts)
  }

  function Lex(h: Host, s: string): (r: Lexed)
    ensures r.Tokens? ==> Terminated(r.tokens) && EOF !in r.tokens[..|r.tokens| - 1]
  {
    if s == "" then Tokens([EOF])
    else if IsSpace(s[0]) then Lex(h, s[1..])
    else
      match ScanToken(h, s)
      case Fail => LexError
      case One(token, n) =>
        var rest := Lex(h, s[n..]);
        assert rest.Tokens? ==> var ts := [token] + rest.tokens;
            ts[..|ts| - 1] == [token] + rest.tokens[..|rest.tokens| - 1];
        Cons(token, rest)
  }

  // -------------------------------------------------------- appending text

  /** The character classes agree with ASCII and do not overlap each other or white space. */
  ghost predicate SoundClasses(h: Host) {
    && (forall c :: c < '\U{80}' ==> (h.letter(c) <==> 'a' <= c <= 'z' || 'A' <= c <= 'Z'))
    && (forall c :: c < '\U{80}' ==> (h.digit(c) <==> '0' <= c <= '9'))
    && (forall c :: h.letter(c) ==> !h.digit(c) && !IsSpace(c))
    && (forall c :: h.digit(c) ==> !IsSpace(c))
  }

  /** A continuation that no token can run into. */
  predicate Breaks(rest: string) {
    rest == "" || rest[0] == ')' || rest[0] == ' '
  }

  lemma {:induction false} NumberRunAppend(h: Host, s: string, rest: string)
    requires SoundClasses(h) && Breaks(rest)
    ensures NumberRun(h, s + rest) == NumberRun(h, s)
  {
    if s == "" {
      assert s + rest == rest;
    } else {
      NumberRunAppend(h, s[1..], rest);
      assert (s + rest)[1..] == s[1..] + rest;
    }
  }

  lemma {:induction false} NameRunAppend(h: Host, s: string, rest: string)
    requires SoundClasses(h) && Breaks(rest)
    ensures NameRun(h, s + rest) == NameRun(h, s)
  {
    if s == "" {
      assert s + rest == rest;
    } else {
      NameRunAppend(h, s[1..], rest);
      assert (s + rest)[1..] == s[1..] + rest;
    }
  }

  lemma {:induction false} LetterRunAppend(h: Host, s: string, rest: string)
    requires SoundClasses(h) && Breaks(rest)
    ensures LetterRun(h, s + rest) == LetterRun(h, s)
  {
    if s == "" {
      assert s + rest == rest;
    } else {
      LetterRunAppend(h, s[1..], rest);
      assert (s + rest)[1..] == s[1..] + rest;
    }
  }

  lemma {:induction false} StringBodyAppend(quote: char, s: string, rest: string)
    requires Breaks(rest) && (quote == '\'' || quote == '"') && StringBody(quote, s).Closed?
    ensures StringBody(quote, s + rest) == StringBody(quote, s)
  {
    if s != "" {
      assert (s + rest)[1..] == s[1..] + rest;
      if |s| > 1 {
        assert (s + rest)[2..] == s[2..] + rest;
      }
      if s[0] == quote {
        if quote == '\'' && |s| > 1 && s[1] == quote {
          StringBodyAppend(quote, s[2..], rest);
        }
      } else if s[0] == '\\' && quote == '"' && |s| > 1 {
        if s[1] == 'n' || s[1] == 't' || s[1] == '\\' || s[1] == '"' {
          StringBodyAppend(quote, s[2..], rest);
        }
      } else {
        StringBodyAppend(quote, s[1..], rest);
      }
    }
  }

  lemma {:induction false} RegexBodyAppend(h: Host, s: string, escaped: bool, rest: string)
    requires SoundClasses(h) && Breaks(rest) && RegexBody(h, s, escaped) > 0
    ensures RegexBody(h, s + rest, escaped) == RegexBody(h, s, escaped)
  {
    if s != "" {
      assert (s + rest)[1..] == s[1..] + rest;
      if !escaped && s[0] == '/' {
        LetterRunAppend(h, s[1..], rest);
      } else {
        RegexBodyAppend(h, s[1..], !escaped && s[0] == '\\', rest);
      }
    }
  }

  lemma SymbolAppend(s: string, rest: string)
    requires s != "" && Breaks(rest) && ScanSymbol(s).One?
    ensures ScanSymbol(s + rest) == ScanSymbol(s)
  {
    assert |s| == 1 && rest != "" ==> (s + rest)[1] == rest[0];
  }

  /** A token is read alike whether the text ends or breaks after it. */
  lemma ScanAppend(h: Host, s: string, rest: string)
    requires SoundClasses(h) && s != "" && Breaks(rest) && ScanToken(h, s).One?
    ensures ScanToken(h, s + rest) == ScanToken(h, s)
  {
    assert (s + rest)[1..] == s[1..] + rest;
    assert forall k :: 0 <= k <= |s| ==> (s + rest)[..k] == s[..k];
    if IsSymbol(s[0]) {
      SymbolAppend(s, rest);
    } else if s[0] == '/' {
      RegexBodyAppend(h, s[1..], false, rest);
    } else if s[0] == '\'' || s[0] == '"' {
      StringBodyAppend(s[0], s[1..], rest);
    } else {
      NumberRunAppend(h, s, rest);
      NameRunAppend(h, s, rest);
      NameRunAppend(h, s[1..], rest);
    }
  }

  function Append(body: seq<Token>, rest: Lexed): Lexed {
    match rest
    case LexError => LexError
    case Tokens(ts) => Tokens(body + ts)
  }

  /** The tokens of a text without the end marker. */
  function BodyOf(r: Lexed): seq<Token>
    requires r.Tokens? && r.tokens != []
  {
    r.tokens[..|r.tokens| - 1]
  }

  /** Scanning splits at a break: first the tokens of the front, then those of the rest. */
  lemma {:induction false} LexAppend(h: Host, s: string, rest: string)
    requires SoundClasses(h) && Breaks(rest) && Lex(h, s).Tokens?
    ensures Lex(h, s + rest) == Append(BodyOf(Lex(h, s)), Lex(h, rest))
  {
    hide ScanToken;
    if s == "" {
      assert s + rest == rest;
    } else if IsSpace(s[0]) {
      assert (s + rest)[1..] == s[1..] + rest;
      LexAppend(h, s[1..], rest);
    } else {
      var r := ScanToken(h, s);
      ScanAppend(h, s, rest);
      assert (s + rest)[r.length..] == s[r.length..] + rest;
      LexAppend(h, s[r.length..], rest);
      BodyCons(r.token, Lex(h, s[r.length..]));
      AppendCons(r.token, BodyOf(Lex(h, s[r.length..])), Lex(h, rest));
    }
  }

  lemma BodyCons(token: Token, rest: Lexed)
    requires rest.Tokens? && rest.tokens != []
    ensures BodyOf(Cons(token, rest)) == [token] + BodyOf(rest)
  {
  }

  lemma AppendCons(token: Token, body: seq<Token>, rest: Lexed)
    ensures Cons(token, Append(body, rest)) == Append([token] + body, rest)
  {
    if rest.Tokens? {
      assert [token] + (body + rest.tokens) == [token] + body + rest.tokens;
    }
  }

  // -------------------------------------------------------------- spelling

  /** Single quotes are doubled inside a single-quoted string. */
  function Doubled(value: string): string {
    if value == "" then ""
    else (if value[0] == '\'' then "''" else [value[0]]) + Doubled(value[1..])
  }

  function SpellOp(op: CompareOp): string {
    match op
    case Equal => "==" case NotEqual => "!=" case LessThan => "<" case LessEqual => "<="
    case GreaterThan => ">" case GreaterEqual => ">=" case Match => "=~" case NotMatch => "!~"
  }

  function Spell(token: Token): string {
    match token
    case EOF => ""
    case Identifier(name) => name
    case Str(value) => "'" + Doubled(value) + "'"
    case Number(text) => text
    case Regex(source) => source
    case True => "true"
    case False => "false"
    case NullWord => "null"
    case LeftParen => "("
    case RightParen => ")"
    case Comma => ","
    case Not => "!"
    case And => "&&"
    case Or => "||"
    case Compare(op) => SpellOp(op)
  }

  function Print(ts: seq<Token>): string {
    if ts == [] then "" else Spell(ts[0]) + " " + Print(ts[1..])
  }

  /** The spelling of a token is read back as that token. */
  predicate ReadsBack(h: Host, token: Token) {
    var s := Spell(token);
    s != "" && !IsSpace(s[0]) && ScanToken(h, s) == One(token, |s|)
  }

  lemma {:induction false} QuotedReadsBack(value: string)
    ensures StringBody('\'', Doubled(value) + "'") == Closed(value, |Doubled(value)| + 1)
  {
    var s := Doubled(value) + "'";
    if value != "" {
      var rest := Doubled(value[1..]) + "'";
      QuotedReadsBack(value[1..]);
      assert value == [value[0]] + value[1..];
      if value[0] == '\'' {
        assert s[2..] == rest;
      } else {
        assert s[1..] == rest;
      }
    }
  }

  lemma {:induction false} PlainNameRun(h: Host, s: string)
    requires forall c :: c in s ==> NameChar(h, c)
    ensures NameRun(h, s) == |s|
  {
    if s != "" {
      assert s[0] in s && forall c :: c in s[1..] ==> c in s;
      PlainNameRun(h, s[1..]);
    }
  }

  /** Every token that is not a name, number or pattern has a spelling that reads back. */
  lemma FixedTokensReadBack(h: Host, token: Token)
    requires SoundClasses(h) && token != EOF && !token.Identifier? && !token.Number? && !token.Regex?
    ensures ReadsBack(h, token)
  {
    hide ScanToken, WordToken;
    ReservedWords();
    match token
    case Str(value) => StringsReadBack(h, value);
    case True => WordReadsBack(h, "true");
    case False => WordReadsBack(h, "false");
    case NullWord => WordReadsBack(h, "null");
    case _ => SymbolsReadBack(h, token);
  }

  lemma StringsReadBack(h: Host, value: string)
    ensures ReadsBack(h, Str(value))
  {
    QuotedReadsBack(value);
    assert Spell(Str(value))[1..] == Doubled(value) + "'";
  }

  lemma SymbolsReadBack(h: Host, token: Token)
    requires token.LeftParen? || token.RightParen? || token.Comma? || token.Not? || token.And? || token.Or? ||
        token.Compare?
    ensures ReadsBack(h, token)
  {
    hide StringBody, RegexBody, NumberRun, NameRun, Lower;
  }

  lemma {:induction false} LowerIsFixed(word: string)
    requires forall c :: c in word ==> 'a' <= c <= 'z'
    ensures Lower(word) == word
  {
    if word != "" {
      assert word[0] in word && forall c :: c in word[1..] ==> c in word;
      LowerIsFixed(word[1..]);
    }
  }

  lemma ReservedWords()
    ensures WordToken("true") == True && WordToken("false") == False && WordToken("null") == NullWord
  {
    hide Lower;
    LowerIsFixed("true");
    LowerIsFixed("false");
    LowerIsFixed("null");
  }

  /** A word of ASCII letters scans as one word. */
  lemma WordReadsBack(h: Host, word: string)
    requires SoundClasses(h) && word != "" && forall c :: c in word ==> 'a' <= c <= 'z'
    ensures !IsSpace(word[0]) && ScanToken(h, word) == One(WordToken(word), |word|)
  {
    hide WordToken;
    assert word[0] in word;
    PlainNameRun(h, word);
    assert word[..|word|] == word;
  }

  /** A name that starts with a letter, underscore or dollar sign, continues with name
      characters and is no reserved word reads back. */
  lemma NamesReadBack(h: Host, name: string)
    requires SoundClasses(h) && name != "" && StartsName(h, name[0])
    requires (forall c :: c in name[1..] ==> NameChar(h, c)) && WordToken(name) == Identifier(name)
    ensures ReadsBack(h, Identifier(name))
  {
    hide WordToken;
    PlainNameRun(h, name[1..]);
    assert name[..|name|] == name;
  }

  // ------------------------------------------- what was scanned reads back

  lemma {:induction false} NumberRunAlone(h: Host, s: string)
    ensures var n := NumberRun(h, s); NumberRun(h, s[..n]) == n
  {
    var n := NumberRun(h, s);
    if n > 0 {
      NumberRunAlone(h, s[1..]);
      assert s[..n][1..] == s[1..][..n - 1];
    }
  }

  lemma {:induction false} NameRunHolds(h: Host, s: string)
    ensures forall c :: c in s[..NameRun(h, s)] ==> NameChar(h, c)
  {
    var n := NameRun(h, s);
    if n > 0 {
      NameRunHolds(h, s[1..]);
      assert s[..n] == [s[0]] + s[1..][..n - 1];
    }
  }

  lemma {:induction false} LetterRunAlone(h: Host, s: string)
    ensures var n := LetterRun(h, s); LetterRun(h, s[..n]) == n
  {
    var n := LetterRun(h, s);
    if n > 0 {
      LetterRunAlone(h, s[1..]);
      assert s[..n][1..] == s[1..][..n - 1];
    }
  }

  lemma {:induction false} RegexBodyAlone(h: Host, s: string, escaped: bool)
    ensures var n := RegexBody(h, s, escaped); n > 0 ==> RegexBody(h, s[..n], escaped) == n
  {
    var n := RegexBody(h, s, escaped);
    if n > 0 {
      assert s[..n][1..] == s[1..][..n - 1];
      if !escaped && s[0] == '/' {
        LetterRunAlone(h, s[1..]);
      } else {
        RegexBodyAlone(h, s[1..], !escaped && s[0] == '\\');
      }
    }
  }

  lemma NumbersReadBack(h: Host, s: string)
    requires SoundClasses(h) && s != "" && StartsNumber(h, s)
    ensures ReadsBack(h, Number(s[..NumberRun(h, s)]))
  {
    var n := NumberRun(h, s);
    NumberRunAlone(h, s);
    var t := s[..n];
    assert n > 0 && t[0] == s[0];
    if !h.digit(s[0]) {
      assert NumberRun(h, s[1..]) > 0;
      assert t[1] == s[1];
    }
    assert t[..n] == t;
  }

  lemma PatternsReadBack(h: Host, s: string)
    requires s != "" && s[0] == '/' && RegexBody(h, s[1..], false) > 0
    ensures ReadsBack(h, Regex(s[..RegexBody(h, s[1..], false) + 1]))
  {
    var n := RegexBody(h, s[1..], false);
    RegexBodyAlone(h, s[1..], false);
    var t := s[..n + 1];
    assert t[1..] == s[1..][..n] && t[..n + 1] == t;
  }

  lemma ScannedNameReadsBack(h: Host, s: string)
    requires SoundClasses(h) && s != "" && StartsName(h, s[0])
    ensures ReadsBack(h, WordToken(s[..NameLength(h, s)]))
  {
    hide ReadsBack, Lower, NameRun, StartsName, NameChar;
    var name := s[..NameLength(h, s)];
    if WordToken(name).Identifier? {
      NameTail(h, s);
      NamesReadBack(h, name);
    } else {
      FixedTokensReadBack(h, WordToken(name));
    }
  }

  lemma NameTail(h: Host, s: string)
    requires s != "" && StartsName(h, s[0])
    ensures forall c :: c in s[..NameLength(h, s)][1..] ==> NameChar(h, c)
  {
    NameRunHolds(h, s[1..]);
    NameRunHolds(h, s);
    var n := NameLength(h, s);
    assert s[..n][1..] == s[1..][..n - 1];
  }

  /** Whatever the scanner reads, its spelling is read as the same token. */
  lemma ScannedReadsBack(h: Host, s: string)
    requires SoundClasses(h) && s != "" && ScanToken(h, s).One?
    ensures ReadsBack(h, ScanToken(h, s).token)
  {
    hide ReadsBack, NumberRun, NameLength, RegexBody, StringBody, WordToken;
    if IsSymbol(s[0]) {
      SymbolsReadBack(h, ScanToken(h, s).token);
    } else if s[0] == '/' {
      PatternsReadBack(h, s);
    } else if s[0] == '\'' || s[0] == '"' {
      StringsReadBack(h, StringBody(s[0], s[1..]).value);
    } else if StartsNumber(h, s) {
      NumbersReadBack(h, s);
    } else {
      ScannedNameReadsBack(h, s);
    }
  }

  lemma {:induction false} LexedReadsBack(h: Host, s: string)
    requires SoundClasses(h) && Lex(h, s).Tokens?
    ensures AllReadBack(h, BodyOf(Lex(h, s)))
    decreases |s|
  {
    hide ReadsBack, ScanToken, SoundClasses;
    if s == "" {
      LexEmpty(h);
    } else if IsSpace(s[0]) {
      LexedReadsBack(h, s[1..]);
    } else {
      var r := ScanToken(h, s);
      ScannedReadsBack(h, s);
      LexedReadsBack(h, s[r.length..]);
      BodyCons(r.token, Lex(h, s[r.length..]));
    }
  }

  lemma {:induction false} LexPrint(h: Host, ts: seq<Token>)
    requires SoundClasses(h) && forall t :: t in ts ==> ReadsBack(h, t)
    ensures Lex(h, Print(ts)) == Tokens(ts + [EOF])
  {
    hide ReadsBack, Lex, Spell, SoundClasses, Print;
    PrintFirst(ts);
    if ts == [] {
      assert ts + [EOF] == [EOF];
      LexEmpty(h);
    } else {
      var t := ts[0];
      assert t in ts && forall u :: u in ts[1..] ==> u in ts;
      LexPrint(h, ts[1..]);
      LexOne(h, t, Print(ts[1..]));
      assert [t] + (ts[1..] + [EOF]) == ts + [EOF];
    }
  }

  lemma PrintFirst(ts: seq<Token>)
    ensures Print(ts) == if ts == [] then "" else Spell(ts[0]) + " " + Print(ts[1..])
  {
  }

  lemma LexEmpty(h: Host)
    ensures Lex(h, "") == Tokens([EOF])
  {
  }

  lemma LexOne(h: Host, t: Token, rest: string)
    requires SoundClasses(h) && ReadsBack(h, t)
    ensures Lex(h, Spell(t) + " " + rest) == Cons(t, Lex(h, rest))
  {
    hide ScanToken, Spell;
    var s, tail := Spell(t), " " + rest;
    assert s + " " + rest == s + tail;
    ScanAppend(h, s, tail);
    assert (s + tail)[|s|..] == tail;
    assert tail[1..] == rest;
    assert Lex(h, tail) == Lex(h, rest);
  }

  // -------------------------------------------- trees through text and back

  /** Names, numbers and patterns occurring in a tree have spellings that read back. */
  predicate Writable(h: Host, n: Node)
    decreases n
  {
    match n
    case Numeral(text) => ReadsBack(h, Number(text))
    case Pattern(source) => ReadsBack(h, Regex(source))
    case Variable(name) => ReadsBack(h, Identifier(name))
    case Call(name, arguments) => ReadsBack(h, Identifier(name)) && forall a :: a in arguments ==> Writable(h, a)
    case Negation(x) => Writable(h, x)
    case Comparison(_, x, y) => Writable(h, x) && Writable(h, y)
    case Conjunction(x, y) => Writable(h, x) && Writable(h, y)
    case Disjunction(x, y) => Writable(h, x) && Writable(h, y)
    case _ => true
  }

  ghost predicate AllReadBack(h: Host, ts: seq<Token>) {
    forall t :: t in ts ==> ReadsBack(h, t)
  }

  lemma FitReadsBack(h: Host, t: Tree, level: Level)
    requires SoundClasses(h) && AllReadBack(h, Yield(t))
    ensures AllReadBack(h, Yield(Fit(t, level)))
  {
    hide ReadsBack;
    FixedTokensReadBack(h, LeftParen);
    FixedTokensReadBack(h, RightParen);
  }

  lemma InfixReadsBack(h: Host, x: Tree, lx: Level, op: Token, y: Tree, ly: Level)
    requires SoundClasses(h) && AllReadBack(h, Yield(x)) && AllReadBack(h, Yield(y))
    requires op.And? || op.Or? || op.Compare?
    ensures AllReadBack(h, Yield(Fit(x, lx)) + [op] + Yield(Fit(y, ly)))
  {
    hide ReadsBack, SoundClasses, Yield, Fit;
    FitReadsBack(h, x, lx);
    FitReadsBack(h, y, ly);
    FixedTokensReadBack(h, op);
  }

  lemma {:induction false} YieldReadsBack(h: Host, n: Node)
    requires SoundClasses(h) && Writable(h, n)
    ensures AllReadBack(h, Yield(Minimal(n)))
    decreases n, 1
  {
    hide ReadsBack, SoundClasses;
    match n
    case Call(name, arguments) =>
      CallReadsBack(h, n);
    case Negation(x) =>
      YieldReadsBack(h, x);
      FitReadsBack(h, Minimal(x), Unary);
      FixedTokensReadBack(h, Not);
    case Comparison(op, x, y) =>
      YieldReadsBack(h, x);
      YieldReadsBack(h, y);
      InfixReadsBack(h, Minimal(x), Unary, Compare(op), Minimal(y), Unary);
    case Conjunction(x, y) =>
      YieldReadsBack(h, x);
      YieldReadsBack(h, y);
      InfixReadsBack(h, Minimal(x), Conjoined, And, Minimal(y), Compared);
    case Disjunction(x, y) =>
      YieldReadsBack(h, x);
      YieldReadsBack(h, y);
      InfixReadsBack(h, Minimal(x), Disjoined, Or, Minimal(y), Conjoined);
    case Literal(value) => FixedTokensReadBack(h, Str(value));
    case Boolean(b) => FixedTokensReadBack(h, if b then True else False);
    case Null => FixedTokensReadBack(h, NullWord);
    case _ =>
  }

  lemma {:induction false} CallReadsBack(h: Host, n: Node)
    requires SoundClasses(h) && n.Call? && Writable(h, n)
    ensures AllReadBack(h, Yield(Minimal(n)))
    decreases n, 0
  {
    hide ReadsBack, SoundClasses;
    ArgumentsReadBack(h, n, n.arguments);
    FixedTokensReadBack(h, LeftParen);
    FixedTokensReadBack(h, RightParen);
  }

  lemma {:induction false} ArgumentsReadBack(h: Host, n: Node, arguments: seq<Node>)
    requires SoundClasses(h) && forall a :: a in arguments ==> a < n && Writable(h, a)
    ensures AllReadBack(h, YieldAll(MinimalAll(arguments)))
    decreases n, 0, |arguments|
  {
    hide ReadsBack, SoundClasses;
    if arguments != [] {
      assert arguments[0] in arguments && forall a :: a in arguments[1..] ==> a in arguments;
      YieldReadsBack(h, arguments[0]);
      ArgumentsReadBack(h, n, arguments[1..]);
      FixedTokensReadBack(h, Comma);
      assert MinimalAll(arguments)[1..] == MinimalAll(arguments[1..]);
    }
  }

  /** A condition printed with the fewest parentheses is scanned and parsed back to itself. */
  lemma PrintScanParse(h: Host, n: Node)
    requires SoundClasses(h) && Printable(h, n) && Writable(h, n)
    ensures ParsesTo(h, Print(Yield(Minimal(n))), n)
  {
    hide ReadsBack, SoundClasses, Printable, Writable, Minimal, Yield;
    YieldReadsBack(h, n);
    LexPrint(h, Yield(Minimal(n)));
    PrintThenParse(h, n);
  }

  /** The text scans and parses to the tree. */
  predicate ParsesTo(h: Host, text: string, n: Node) {
    && Lex(h, text).Tokens?
    && ParseTokens(h, Lex(h, text).tokens) == Parsed(n, |Lex(h, text).tokens| - 1)
  }

  /** The tree of a derivation over tokens that read back can be written. */
  lemma {:induction false} DerivedIsWritable(h: Host, t: Tree, level: Level)
    requires Derives(h, t, level) && AllReadBack(h, Yield(t))
    ensures Printable(h, Ast(t)) && Writable(h, Ast(t))
    decreases t, 1
  {
    hide ReadsBack;
    match t
    case Leaf(token) => assert token in Yield(t);
    case Apply(name, arguments) => DerivedCallIsWritable(h, t);
    case Group(inner) =>
      WithinReadsBack(h, [LeftParen], Yield(inner), [RightParen]);
      DerivedIsWritable(h, inner, Disjoined);
    case Neg(operand) =>
      WithinReadsBack(h, [Not], Yield(operand), []);
      DerivedIsWritable(h, operand, Unary);
    case Comp(op, x, y) =>
      SidesReadBack(h, Yield(x), Compare(op), Yield(y));
      DerivedIsWritable(h, x, Unary);
      DerivedIsWritable(h, y, Unary);
    case Conj(x, y) =>
      SidesReadBack(h, Yield(x), And, Yield(y));
      DerivedIsWritable(h, x, Conjoined);
      DerivedIsWritable(h, y, Compared);
    case Disj(x, y) =>
      SidesReadBack(h, Yield(x), Or, Yield(y));
      DerivedIsWritable(h, x, Disjoined);
      DerivedIsWritable(h, y, Conjoined);
  }

  lemma {:induction false} DerivedCallIsWritable(h: Host, t: Tree)
    requires t.Apply? && Derives(h, t, Primary) && AllReadBack(h, Yield(t))
    ensures Printable(h, Ast(t)) && Writable(h, Ast(t))
    decreases t, 0
  {
    hide ReadsBack;
    assert Yield(t)[0] == Identifier(t.name);
    WithinReadsBack(h, [Identifier(t.name), LeftParen], YieldAll(t.arguments), [RightParen]);
    DerivedAreWritable(h, t, t.arguments);
  }

  lemma {:induction false} DerivedAreWritable(h: Host, t: Tree, arguments: seq<Tree>)
    requires forall a :: a in arguments ==> a < t && Derives(h, a, Disjoined)
    requires AllReadBack(h, YieldAll(arguments))
    ensures forall n :: n in AstAll(arguments) ==> Printable(h, n) && Writable(h, n)
    decreases t, 0, |arguments|
  {
    hide ReadsBack, Derives, Printable, Writable, Yield, Ast;
    if arguments != [] {
      assert arguments[0] in arguments && forall a :: a in arguments[1..] ==> a in arguments;
      if |arguments| > 1 {
        SidesReadBack(h, Yield(arguments[0]), Comma, YieldAll(arguments[1..]));
      } else {
        assert YieldAll(arguments[1..]) == [];
      }
      DerivedIsWritable(h, arguments[0], Disjoined);
      DerivedAreWritable(h, t, arguments[1..]);
    }
  }

  lemma SidesReadBack(h: Host, a: seq<Token>, op: Token, b: seq<Token>)
    requires AllReadBack(h, a + [op] + b)
    ensures AllReadBack(h, a) && AllReadBack(h, b)
  {
    hide ReadsBack;
    assert forall t :: t in a || t in b ==> t in a + [op] + b;
  }

  lemma WithinReadsBack(h: Host, a: seq<Token>, b: seq<Token>, c: seq<Token>)
    requires AllReadBack(h, a + b + c) || (c == [] && AllReadBack(h, a + b))
    ensures AllReadBack(h, b)
  {
    hide ReadsBack;
    assert forall t :: t in b ==> t in a + b + c && t in a + b;
  }

  lemma ParsedIsWritable(h: Host, text: string, n: Node)
    requires SoundClasses(h) && ParsesTo(h, text, n)
    ensures Printable(h, n) && Writable(h, n)
  {
    hide SoundClasses, ReadsBack, Derives, Yield, Ast, ParseTokens, Lex, Printable, Writable, AllReadBack;
    var body := BodyOf(Lex(h, text));
    assert Lex(h, text).tokens == body + [EOF];
    ParserIsExact(h, body, n);
    var t :| Derives(h, t, Disjoined) && Yield(t) == body && Ast(t) == n;
    LexedReadsBack(h, text);
    DerivedIsWritable(h, t, Disjoined);
  }

  /** The trees that can be written are exactly those some text parses to. */
  lemma WritableExactly(h: Host, n: Node)
    requires SoundClasses(h)
    ensures (exists text :: ParsesTo(h, text, n)) <==> Printable(h, n) && Writable(h, n)
  {
    hide ParsesTo, SoundClasses, Printable, Writable;
    if text :| ParsesTo(h, text, n) {
      ParsedIsWritable(h, text, n);
    }
    if Printable(h, n) && Writable(h, n) {
      PrintScanParse(h, n);
    }
  }

  /** Every condition that parses survives being printed, scanned and parsed again. */
  lemma TextRoundTrip(h: Host, text: string, n: Node)
    requires SoundClasses(h) && ParsesTo(h, text, n)
    ensures ParsesTo(h, Print(Yield(Minimal(n))), n)
  {
    hide ParsesTo, SoundClasses, Printable, Writable;
    ParsedIsWritable(h, text, n);
    PrintScanParse(h, n);
  }

  // --------------------------------------------------------------- the program

  ghost function Resumed(output: string, consumed: nat, body: Body): Body {
    match body
    case Unclosed => Unclosed
    case Closed(value, length) => Closed(output + value, consumed + length)
  }

  ghost function BodyAt(quote: char, input: string, i: nat): Body
    requires i <= |input|
  {
    StringBody(quote, input[i..])
  }

  lemma BodyAtStep(quote: char, input: string, i: nat)
    requires i < |input|
    ensures var c := input[i]; var more := i + 1 < |input|;
            BodyAt(quote, input, i) ==
            if c == quote then
              if quote == '\'' && more && input[i + 1] == quote then Prepend(quote, 2, BodyAt(quote, input, i + 2))
                  else Closed("", 1)
            else if c == '\\' && quote == '"' && more then
              if input[i + 1] == 'n' then Prepend('\n', 2, BodyAt(quote, input, i + 2))
              else if input[i + 1] == 't' then Prepend('\t', 2, BodyAt(quote, input, i + 2))
              else if input[i + 1] == '\\' || input[i + 1] == '"'
                  then Prepend(input[i + 1], 2, BodyAt(quote, input, i + 2))
              else Unclosed
            else Prepend(c, 1, BodyAt(quote, input, i + 1))
  {
    assert input[i..][1..] == input[i + 1..];
    if i + 1 < |input| {
      assert input[i..][2..] == input[i + 2..];
    }
  }

  lemma NothingLeft(quote: char, input: string)
    ensures BodyAt(quote, input, |input|) == Unclosed
  {
  }

  lemma ResumedNothing(body: Body)
    ensures Resumed("", 0, body) == body
  {
    assert body.Closed? ==> "" + body.value == body.value;
  }

  lemma ResumedStep(output: string, consumed: nat, c: char, n: nat, body: Body)
    ensures Resumed(output, consumed, Prepend(c, n, body)) == Resumed(output + [c], consumed + n, body)
  {
    if body.Closed? {
      assert output + ([c] + body.value) == output + [c] + body.value;
    }
  }

  /** The scanner over a text and a cursor. */
  class Lexer {
    const h: Host
    const input: string
    var index: nat

    constructor (h: Host, input: string)
      ensures this.h == h && this.input == input && index == 0
    {
      this.h, this.input, index := h, input, 0;
    }

    method ReadAll() returns (r: Lexed)
      requires index == 0
      modifies this
      ensures r == Lex(h, input)
    {
      hide ScanToken;
      var tokens: seq<Token> := [];
      while index < |input|
        invariant index <= |input|
        invariant Append(tokens, Lex(h, input[index..])) == Lex(h, input)
        decreases |input| - index
      {
        ghost var rest := input[index..];
        if IsSpace(input[index]) {
          index := index + 1;
          assert rest[1..] == input[index..];
        } else {
          ghost var start := index;
          var token := ReadToken();
          if token.Fail? {
            return LexError;
          }
          assert rest[token.length..] == input[index..];
          AppendCons(token.token, tokens, Lex(h, input[index..]));
          AppendOne(tokens, token.token, Lex(h, input[index..]));
          tokens := tokens + [token.token];
        }
      }
      r := Tokens(tokens + [EOF]);
    }

    /** The switch on the next character. */
    method ReadToken() returns (r: Scan)
      requires index < |input| && !IsSpace(input[index])
      modifies this
      ensures r == ScanToken(h, input[old(index)..])
      ensures r.One? ==> index == old(index) + r.length
    {
      hide StringBody, RegexBody, NumberRun, NameRun;
      var c := input[index];
      if IsSymbol(c) {
        r := ReadSymbol();
      } else if c == '/' {
        r := ReadRegex();
      } else if c == '\'' || c == '"' {
        r := ReadString(c);
      } else if h.digit(c) || (c == '-' && index + 1 < |input| && h.digit(input[index + 1])) {
        r := ReadNumber();
      } else if h.letter(c) || c == '_' || c == '$' {
        r := ReadName();
      } else {
        r := Fail;
      }
    }

    method Consume(a: char, b: char) returns (ok: bool)
      requires index <= |input|
      modifies this
      ensures ok == Consumes(input[old(index)..], a, b)
      ensures index == if ok then old(index) + 2 else old(index)
    {
      ok := index + 2 <= |input| && input[index] == a && input[index + 1] == b;
      if ok {
        index := index + 2;
      }
    }

    method ReadSymbol() returns (r: Scan)
      requires index < |input| && IsSymbol(input[index])
      modifies this
      ensures r == ScanSymbol(input[old(index)..])
      ensures r.One? ==> index == old(index) + r.length
    {
      var c := input[index];
      var pair;
      if c == '(' || c == ')' || c == ',' {
        index := index + 1;
        return One(if c == '(' then LeftParen else if c == ')' then RightParen else Comma, 1);
      } else if c == '&' || c == '|' {
        pair := Consume(c, c);
        return if pair then One(if c == '&' then And else Or, 2) else Fail;
      } else if c == '!' || c == '=' {
        pair := Consume(c, '~');
        if pair {
          return One(Compare(if c == '!' then NotMatch else Match), 2);
        }
        pair := Consume(c, '=');
        if pair {
          return One(Compare(if c == '!' then NotEqual else Equal), 2);
        }
        if c == '=' {
          return Fail;
        }
        index := index + 1;
        return One(Not, 1);
      } else {
        pair := Consume(c, '=');
        if pair {
          return One(Compare(if c == '<' then LessEqual else GreaterEqual), 2);
        }
        index := index + 1;
        return One(Compare(if c == '<' then LessThan else GreaterThan), 1);
      }
    }

    method ReadString(quote: char) returns (r: Scan)
      requires index < |input| && input[index] == quote && (quote == '\'' || quote == '"')
      modifies this
      ensures match StringBody(quote, input[old(index)..][1..])
              case Unclosed => r == Fail
              case Closed(value, length) => r == One(Str(value), length + 1) && index == old(index) + length + 1
    {
      hide StringBody;
      var start := index;
      index := index + 1;
      assert input[start..][1..] == input[index..];
      var output := "";
      ResumedNothing(StringBody(quote, input[index..]));
      while index < |input|
        invariant start < index <= |input|
        invariant Resumed(output, index - start - 1, BodyAt(quote, input, index)) == BodyAt(quote, input, start + 1)
        decreases |input| - index
      {
        BodyAtStep(quote, input, index);
        var c := input[index];
        index := index + 1;
        if c == quote {
          if quote == '\'' && index < |input| && input[index] == quote {
            ResumedStep(output, index - start - 2, quote, 2, BodyAt(quote, input, index + 1));
            output := output + [quote];
            index := index + 1;
            continue;
          }
          assert output + "" == output;
          return One(Str(output), index - start);
        }
        if c == '\\' && quote == '"' && index < |input| {
          var escaped := input[index];
          index := index + 1;
          var written;
          if escaped == 'n' {
            written := '\n';
          } else if escaped == 't' {
            written := '\t';
          } else if escaped == '\\' || escaped == '"' {
            written := escaped;
          } else {
            return Fail;
          }
          ResumedStep(output, index - start - 3, written, 2, BodyAt(quote, input, index));
          output := output + [written];
          continue;
        }
        ResumedStep(output, index - start - 2, c, 1, BodyAt(quote, input, index));
        output := output + [c];
      }
      NothingLeft(quote, input);
      r := Fail;
    }

    method ReadNumber() returns (r: Scan)
      requires index < |input| && StartsNumber(h, input[index..])
      modifies this
      ensures var s := input[old(index)..]; var n := NumberRun(h, s);
          r == One(Number(s[..n]), n) && index == old(index) + n
    {
      var start := index;
      if input[index] == '-' {
        index := index + 1;
        assert input[start..][1..] == input[index..];
      }
      while index < |input| && NumberChar(h, input[index])
        invariant start <= index <= |input|
        invariant index - start + NumberRun(h, input[index..]) == NumberRun(h, input[start..])
        decreases |input| - index
      {
        assert input[index..][1..] == input[index + 1..];
        index := index + 1;
      }
      assert input[start..][..index - start] == input[start..index];
      r := One(Number(input[start..index]), index - start);
    }

    method ReadName() returns (r: Scan)
      requires index < |input| && StartsName(h, input[index])
      modifies this
      ensures var s := input[old(index)..]; var n := NameLength(h, s);
          r == One(WordToken(s[..n]), n) && index == old(index) + n
    {
      var start := index;
      if input[index] == '$' {
        index := index + 1;
        assert input[start..][1..] == input[index..];
      }
      while index < |input| && NameChar(h, input[index])
        invariant start <= index <= |input|
        invariant index - start + NameRun(h, input[index..]) == NameLength(h, input[start..])
        decreases |input| - index
      {
        assert input[index..][1..] == input[index + 1..];
        index := index + 1;
      }
      assert input[start..][..index - start] == input[start..index];
      r := One(WordToken(input[start..index]), index - start);
    }

    method SkipLetters()
      requires index <= |input|
      modifies this
      ensures index == old(index) + LetterRun(h, input[old(index)..])
    {
      ghost var start := index;
      while index < |input| && h.letter(input[index])
        invariant start <= index <= |input|
        invariant index - start + LetterRun(h, input[index..]) == LetterRun(h, input[start..])
        decreases |input| - index
      {
        assert input[index..][1..] == input[index + 1..];
        index := index + 1;
      }
    }

    method ReadRegex() returns (r: Scan)
      requires index < |input| && input[index] == '/'
      modifies this
      ensures var s := input[old(index)..]; var n := RegexBody(h, s[1..], false);
              if n == 0 then r == Fail else r == One(Regex(s[..n + 1]), n + 1) && index == old(index) + n + 1
    {
      var start := index;
      index := index + 1;
      assert input[start..][1..] == input[index..];
      var escaped := false;
      while index < |input|
        invariant start < index <= |input|
        invariant var rest := RegexBody(h, input[index..], escaped);
                  RegexBody(h, input[start + 1..], false) == if rest == 0 then 0 else index - start - 1 + rest
        decreases |input| - index
      {
        var c := input[index];
        assert input[index..][1..] == input[index + 1..];
        index := index + 1;
        if escaped {
          escaped := false;
          continue;
        }
        if c == '\\' {
          escaped := true;
          continue;
        }
        if c != '/' {
          continue;
        }
        SkipLetters();
        assert input[start..][..index - start] == input[start..index];
        return One(Regex(input[start..index]), index - start);
      }
      r := Fail;
    }
  }

  lemma AppendOne(tokens: seq<Token>, token: Token, rest: Lexed)
    ensures Append(tokens, Cons(token, rest)) == Append(tokens + [token], rest)
  {
    if rest.Tokens? {
      assert tokens + ([token] + rest.tokens) == tokens + [token] + rest.tokens;
    }
  }
}
