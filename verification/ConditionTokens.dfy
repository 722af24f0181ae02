// The lexical grammar of conditions: which texts are which tokens, and where a token ends.
module ConditionTokens {
  import opened Text
  import opened ConditionParser
  import opened ConditionLexer

  // ------------------------------------------------------------------ pieces

  function Flat(pieces: seq<string>): string {
    if pieces == [] then "" else pieces[0] + Flat(pieces[1..])
  }

  lemma FlatFirst(p: string, pieces: seq<string>)
    ensures Flat([p] + pieces) == p + Flat(pieces)
  {
    assert ([p] + pieces)[1..] == pieces;
  }

  /** The escapes of a double-quoted text. */
  predicate Escapes(p: string, c: char) {
    || (p == "\\n" && c == '\n') || (p == "\\t" && c == '\t')
    || (p == "\\\\" && c == '\\') || (p == "\\\"" && c == '"')
  }

  /** How a character is written inside quotes. */
  predicate Writes(quote: char, p: string, c: char) {
    || (p == [c] && c != quote && (quote == '"' ==> c != '\\'))
    || (quote == '\'' && p == "''" && c == '\'')
    || (quote == '"' && Escapes(p, c))
  }

  ghost predicate Written(quote: char, pieces: seq<string>, value: string) {
    |pieces| == |value| && forall k :: 0 <= k < |value| ==> Writes(quote, pieces[k], value[k])
  }

  /** s begins with the value as it is written, and the closing quote behind it at place n. */
  ghost predicate ClosesAt(quote: char, s: string, pieces: seq<string>, value: string, n: int) {
    && Written(quote, pieces, value) && 0 < n <= |s| && s[..n] == Flat(pieces) + [quote]
    && (quote == '\'' && n < |s| ==> s[n] != '\'')
  }

  ghost predicate Quotes(quote: char, s: string, value: string, n: int) {
    exists pieces :: ClosesAt(quote, s, pieces, value, n)
  }

  /** What the scanner does with the first piece. */
  lemma BodyStep(quote: char, s: string, p: string, c: char)
    requires quote == '\'' || quote == '"'
    requires Writes(quote, p, c) && p <= s
    ensures StringBody(quote, s) == Prepend(c, |p|, StringBody(quote, s[|p|..]))
  {
    assert s[0] == p[0];
    if |p| == 2 {
      assert s[1] == p[1];
    }
  }

  lemma BodyStops(quote: char, s: string)
    requires quote == '\'' || quote == '"'
    requires [quote] <= s && (quote == '\'' && |s| > 1 ==> s[1] != '\'')
    ensures StringBody(quote, s) == Closed("", 1)
  {
    assert s[0] == quote;
  }

  lemma {:induction false} QuotedCloses(quote: char, s: string, pieces: seq<string>, value: string, n: int)
    requires quote == '\'' || quote == '"'
    requires ClosesAt(quote, s, pieces, value, n)
    ensures StringBody(quote, s) == Closed(value, n)
    decreases |value|
  {
    hide StringBody, Writes;
    if value == "" {
      assert s[..n] == [quote];
      BodyStops(quote, s);
    } else {
      var p, c := pieces[0], value[0];
      assert Writes(quote, p, c);
      WritesSome(quote, p, c);
      assert s[..n] == p + (Flat(pieces[1..]) + [quote]);
      assert p <= s[..n] <= s;
      BodyStep(quote, s, p, c);
      var rest, m := s[|p|..], n - |p|;
      assert rest[..m] == s[..n][|p|..] == Flat(pieces[1..]) + [quote];
      QuotedCloses(quote, rest, pieces[1..], value[1..], m);
      assert value == [c] + value[1..];
    }
  }

  lemma WritesSome(quote: char, p: string, c: char)
    requires Writes(quote, p, c)
    ensures 1 <= |p| <= 2
  {
  }

  /** The first piece of a text that closes. */
  lemma BodyFirst(quote: char, s: string) returns (p: string, c: char)
    requires (quote == '\'' || quote == '"') && StringBody(quote, s).Closed?
    ensures || (StringBody(quote, s) == Closed("", 1) && [quote] <= s && (quote == '\'' && |s| > 1 ==> s[1] != '\''))
            || (Writes(quote, p, c) && p <= s && StringBody(quote, s) == Prepend(c, |p|, StringBody(quote, s[|p|..])))
  {
    if s[0] == quote {
      p, c := "''", '\'';
    } else if s[0] == '\\' && quote == '"' && |s| > 1 {
      p, c := s[..2], if s[1] == 'n' then '\n' else if s[1] == 't' then '\t' else s[1];
      assert p == [s[0], s[1]];
    } else {
      p, c := [s[0]], s[0];
    }
  }

  lemma {:induction false} BodyQuotes(quote: char, s: string)
    requires (quote == '\'' || quote == '"') && StringBody(quote, s).Closed?
    ensures var body := StringBody(quote, s); Quotes(quote, s, body.value, body.length)
    decreases |s|
  {
    hide StringBody, Writes;
    var body := StringBody(quote, s);
    var p, c := BodyFirst(quote, s);
    if body == Closed("", 1) && [quote] <= s && (quote == '\'' && |s| > 1 ==> s[1] != '\'') {
      var none: seq<string> := [];
      assert Flat(none) + [quote] == [quote] == s[..1];
      assert ClosesAt(quote, s, none, "", 1);
    } else {
      WritesSome(quote, p, c);
      var rest := s[|p|..];
      var later := StringBody(quote, rest);
      BodyQuotes(quote, rest);
      var pieces :| ClosesAt(quote, rest, pieces, later.value, later.length);
      FlatFirst(p, pieces);
      assert s[..body.length] == p + rest[..later.length];
      assert ClosesAt(quote, s, [p] + pieces, body.value, body.length);
    }
  }

  // ---------------------------------------------------------------- patterns

  /** A character of a pattern, or a backslash and the character behind it. */
  predicate PatternPiece(p: string) {
    (|p| == 1 && p[0] != '/' && p[0] != '\\') || (|p| == 2 && p[0] == '\\')
  }

  ghost predicate Letters(h: Host, s: string) {
    forall k :: 0 <= k < |s| ==> h.letter(s[k])
  }

  /** Behind its first slash a pattern has pieces, the closing slash and letters. */
  ghost predicate PatternAt(h: Host, s: string, pieces: seq<string>, flags: string) {
    && (forall k :: 0 <= k < |pieces| ==> PatternPiece(pieces[k]))
    && s == Flat(pieces) + ("/" + flags) && Letters(h, flags)
  }

  ghost predicate IsPatternRest(h: Host, s: string) {
    exists pieces, flags :: PatternAt(h, s, pieces, flags)
  }

  lemma {:induction false} LetterRunIs(h: Host, s: string)
    ensures var n := LetterRun(h, s); Letters(h, s[..n]) && (n < |s| ==> !h.letter(s[n]))
  {
    if s != "" && h.letter(s[0]) {
      LetterRunIs(h, s[1..]);
      var n := LetterRun(h, s);
      assert forall k :: 0 < k < n ==> s[k] == s[1..][k - 1];
    }
  }

  lemma {:induction false} LongestLetters(h: Host, s: string, n: nat)
    requires n <= |s| && Letters(h, s[..n]) && (n < |s| ==> !h.letter(s[n]))
    ensures LetterRun(h, s) == n
  {
    LetterRunIs(h, s);
    var m := LetterRun(h, s);
    assert forall k :: 0 <= k < n ==> s[k] == s[..n][k];
    assert forall k :: 0 <= k < m ==> s[k] == s[..m][k];
  }

  lemma CutTwice(s: string, k: nat, n: nat)
    requires k <= n <= |s|
    ensures s[k..][..n - k] == s[..n][k..]
  {
  }

  lemma {:induction false} PatternCloses(h: Host, s: string, n: nat, pieces: seq<string>, flags: string)
    requires n <= |s| && PatternAt(h, s[..n], pieces, flags) && (n < |s| ==> !h.letter(s[n]))
    ensures RegexBody(h, s, false) == n > 0
    decreases |pieces|
  {
    hide LetterRun;
    if pieces == [] {
      assert s[..n] == "/" + flags && s[0] == s[..n][0];
      assert s[1..][..n - 1] == s[..n][1..] == flags;
      LongestLetters(h, s[1..], n - 1);
    } else {
      var p := pieces[0];
      assert PatternPiece(p);
      assert s[..n] == p + (Flat(pieces[1..]) + ("/" + flags));
      var k := |p|;
      assert s[0] == s[..n][0] == p[0];
      CutTwice(s, k, n);
      assert forall j :: 0 <= j < |pieces[1..]| ==> pieces[1..][j] == pieces[j + 1];
      PatternCloses(h, s[k..], n - k, pieces[1..], flags);
      if k == 2 {
        assert s[1..][1..] == s[2..];
      }
    }
  }

  lemma {:induction false} BodyIsPattern(h: Host, s: string)
    requires RegexBody(h, s, false) > 0
    ensures var n := RegexBody(h, s, false); IsPatternRest(h, s[..n]) && (n < |s| ==> !h.letter(s[n]))
    decreases |s|
  {
    hide LetterRun;
    var n := RegexBody(h, s, false);
    if s[0] == '/' {
      LetterRunIs(h, s[1..]);
      var none: seq<string> := [];
      assert s[..n] == Flat(none) + ("/" + s[1..][..n - 1]);
      assert PatternAt(h, s[..n], none, s[1..][..n - 1]);
    } else {
      var k := if s[0] == '\\' then 2 else 1;
      if k == 2 {
        assert s[1..][1..] == s[2..];
      }
      BodyIsPattern(h, s[k..]);
      var pieces, flags :| PatternAt(h, s[k..][..n - k], pieces, flags);
      PatternGrows(h, s[..k], s[k..][..n - k], pieces, flags);
      assert s[..n] == s[..k] + s[k..][..n - k];
    }
  }

  lemma PatternGrows(h: Host, p: string, s: string, pieces: seq<string>, flags: string)
    requires PatternPiece(p) && PatternAt(h, s, pieces, flags)
    ensures IsPatternRest(h, p + s)
  {
    hide PatternPiece;
    FlatFirst(p, pieces);
    assert p + s == Flat([p] + pieces) + ("/" + flags);
    assert PatternAt(h, p + s, [p] + pieces, flags);
  }

  // ------------------------------------------------------- numbers and names

  ghost predicate NumberText(h: Host, s: string) {
    && s != "" && (h.digit(s[0]) || (s[0] == '-' && |s| > 1 && h.digit(s[1])))
    && forall k :: 0 <= k < |s| ==> h.digit(s[k]) || s[k] in ".eE+-"
  }

  ghost predicate NameText(h: Host, s: string) {
    && s != "" && (h.letter(s[0]) || s[0] == '_' || s[0] == '$')
    && forall k :: 0 < k < |s| ==> h.letter(s[k]) || h.digit(s[k]) || s[k] in "_.-"
  }

  lemma {:induction false} NumberRunIs(h: Host, s: string, n: nat)
    requires n <= |s|
    ensures n == NumberRun(h, s) <==>
            (forall k :: 0 <= k < n ==> NumberChar(h, s[k])) && (n < |s| ==> !NumberChar(h, s[n]))
  {
    hide NumberChar;
    if s != "" && NumberChar(h, s[0]) {
      if n > 0 {
        NumberRunIs(h, s[1..], n - 1);
        assert forall k :: 0 < k < |s| ==> s[k] == s[1..][k - 1];
      }
    }
  }

  lemma {:induction false} NameRunIs(h: Host, s: string, n: nat)
    requires n <= |s|
    ensures n == NameRun(h, s) <==>
            (forall k :: 0 <= k < n ==> NameChar(h, s[k])) && (n < |s| ==> !NameChar(h, s[n]))
  {
    hide NameChar;
    if s != "" && NameChar(h, s[0]) {
      if n > 0 {
        NameRunIs(h, s[1..], n - 1);
        assert forall k :: 0 < k < |s| ==> s[k] == s[1..][k - 1];
      }
    }
  }

  // -------------------------------------------------------------- letter case

  /** The character is the small letter, its capital, or one of the two characters beyond ASCII
      whose small letter it is. */
  predicate InAnyCase(c: char, small: char) {
    || c == small || c as int == small as int - 32
    || (small == 'k' && c == '\U{212A}') || (small == 'i' && c == '\U{130}')
  }

  /** Lowered, a text is a word of small letters exactly if it is that word in some letter case. */
  lemma {:induction false} LowerExactly(s: string, word: string)
    requires forall k :: 0 <= k < |word| ==> 'a' <= word[k] <= 'z'
    ensures Lower(s) == word <==> |s| == |word| && forall k :: 0 <= k < |s| ==> InAnyCase(s[k], word[k])
  {
    if s != "" && word != "" {
      assert forall k :: 0 <= k < |word[1..]| ==> word[1..][k] == word[k + 1];
      LowerExactly(s[1..], word[1..]);
      assert Lower(s) == word <==> LowerChar(s[0]) == word[0] && Lower(s[1..]) == word[1..] by {
        assert word == [word[0]] + word[1..];
      }
      CaseIs(s[0], word[0]);
      assert forall k :: 0 < k < |s| ==> s[k] == s[1..][k - 1];
    }
  }

  lemma CaseIs(c: char, small: char)
    requires 'a' <= small <= 'z'
    ensures LowerChar(c) == small <==> InAnyCase(c, small)
  {
  }

  // ------------------------------------------------------------------ tokens

  /** The text is this token. */
  ghost predicate IsToken(h: Host, text: string, token: Token) {
    match token
    case EOF => false
    case Str(value) =>
      text != "" && (text[0] == '\'' || text[0] == '"') && Quotes(text[0], text[1..], value, |text| - 1)
    case Regex(source) => source == text && text != "" && text[0] == '/' && IsPatternRest(h, text[1..])
    case Number(source) => source == text && NumberText(h, text)
    case Identifier(name) => name == text && NameText(h, text) && Lower(text) !in {"true", "false", "null"}
    case True => NameText(h, text) && Lower(text) == "true"
    case False => NameText(h, text) && Lower(text) == "false"
    case NullWord => NameText(h, text) && Lower(text) == "null"
    case _ => text == Spell(token)
  }

  /** What may not stand right behind a token, for it would belong to it. */
  ghost predicate Ends(h: Host, s: string, n: nat, token: Token)
    requires n <= |s|
  {
    n == |s| ||
      match token
      case Str(_) => s[0] != '\'' || s[n] != '\''
      case Regex(_) => !h.letter(s[n])
      case Number(_) => !(h.digit(s[n]) || s[n] in ".eE+-")
      case Identifier(_) => !(h.letter(s[n]) || h.digit(s[n]) || s[n] in "_.-")
      case True => !(h.letter(s[n]) || h.digit(s[n]) || s[n] in "_.-")
      case False => !(h.letter(s[n]) || h.digit(s[n]) || s[n] in "_.-")
      case NullWord => !(h.letter(s[n]) || h.digit(s[n]) || s[n] in "_.-")
      case Not => s[n] != '=' && s[n] != '~'
      case Compare(op) => (op == LessThan || op == GreaterThan) ==> s[n] != '='
      case _ => true
  }

  ghost predicate TokenAt(h: Host, s: string, token: Token, n: nat) {
    0 < n <= |s| && IsToken(h, s[..n], token) && Ends(h, s, n, token)
  }

  lemma StringTokens(h: Host, s: string, token: Token, n: nat)
    requires SoundClasses(h) && s != "" && (s[0] == '\'' || s[0] == '"')
    ensures ScanToken(h, s) == One(token, n) <==> TokenAt(h, s, token, n)
  {
    hide StringBody, NumberRun, NameRun, Lower;
    var quote, rest := s[0], s[1..];
    if 0 < n <= |s| {
      assert s[..n][0] == quote && s[..n][1..] == rest[..n - 1];
    }
    if StringBody(quote, rest).Closed? {
      BodyQuotes(quote, rest);
      QuotesCut(quote, rest, StringBody(quote, rest).value, StringBody(quote, rest).length);
    }
    if TokenAt(h, s, token, n) {
      OnlyString(h, s, token, n);
      QuotesCut(quote, rest, token.value, n - 1);
      var pieces :| ClosesAt(quote, rest, pieces, token.value, n - 1);
      QuotedCloses(quote, rest, pieces, token.value, n - 1);
    }
  }

  /** Closing is about the text up to the closing quote and the character behind it. */
  lemma QuotesCut(quote: char, s: string, value: string, n: int)
    requires 0 <= n <= |s|
    ensures Quotes(quote, s, value, n) <==>
            Quotes(quote, s[..n], value, n) && (quote == '\'' && n < |s| ==> s[n] != '\'')
  {
    hide Written;
    assert s[..n][..n] == s[..n];
    if pieces :| ClosesAt(quote, s, pieces, value, n) {
      assert ClosesAt(quote, s[..n], pieces, value, n);
    }
    if Quotes(quote, s[..n], value, n) && (quote == '\'' && n < |s| ==> s[n] != '\'') {
      var pieces :| ClosesAt(quote, s[..n], pieces, value, n);
      assert ClosesAt(quote, s, pieces, value, n);
    }
  }

  lemma OnlyString(h: Host, s: string, token: Token, n: nat)
    requires SoundClasses(h) && s != "" && (s[0] == '\'' || s[0] == '"') && TokenAt(h, s, token, n)
    ensures token.Str?
  {
    hide Lower, Quotes, IsPatternRest;
    assert s[..n][0] == s[0];
  }

  lemma PatternTokens(h: Host, s: string, token: Token, n: nat)
    requires SoundClasses(h) && s != "" && s[0] == '/'
    ensures ScanToken(h, s) == One(token, n) <==> TokenAt(h, s, token, n)
  {
    hide RegexBody, NumberRun, NameRun, Lower, PatternAt;
    var rest, m := s[1..], RegexBody(h, s[1..], false);
    if 0 < n <= |s| {
      assert s[..n][0] == s[0] && s[..n][1..] == rest[..n - 1];
    }
    if m > 0 {
      BodyIsPattern(h, rest);
      assert s[..m + 1][1..] == rest[..m] && s[..m + 1][0] == s[0];
    }
    if TokenAt(h, s, token, n) {
      assert token.Regex?;
      var pieces, flags :| PatternAt(h, rest[..n - 1], pieces, flags);
      PatternCloses(h, rest, n - 1, pieces, flags);
    }
  }

  lemma NumberTokens(h: Host, s: string, token: Token, n: nat)
    requires SoundClasses(h) && s != "" && StartsNumber(h, s) && !IsSymbol(s[0])
    ensures ScanToken(h, s) == One(token, n) <==> TokenAt(h, s, token, n)
  {
    hide NumberRun, NameRun, Lower, Quotes, IsPatternRest;
    if 0 < n <= |s| {
      NumberRunIs(h, s, n);
      assert forall k :: 0 <= k < n ==> s[..n][k] == s[k];
    }
    NumberRunIs(h, s, NumberRun(h, s));
  }

  /** A name is one of the three words or an identifier. */
  lemma NamedTokens(h: Host, text: string, token: Token)
    requires NameText(h, text) && (token == True || token == False || token == NullWord || token.Identifier?)
    ensures IsToken(h, text, token) <==> token == WordToken(text)
  {
    hide Lower, NameText;
  }

  lemma OnlyName(h: Host, text: string, token: Token)
    requires SoundClasses(h) && text != "" && StartsName(h, text[0]) && IsToken(h, text, token)
    ensures token == True || token == False || token == NullWord || token.Identifier?
    ensures NameText(h, text)
  {
    hide Lower, Quotes, IsPatternRest;
  }

  lemma NameEnds(h: Host, s: string, n: nat)
    requires s != "" && StartsName(h, s[0]) && 0 < n <= |s|
    requires h.letter(s[0]) || s[0] == '_' ==> NameChar(h, s[0])
    ensures n == NameLength(h, s) <==> NameText(h, s[..n]) && (n < |s| ==> !NameChar(h, s[n]))
  {
    hide NumberRun, NameRun;
    NameRunIs(h, s, n);
    NameRunIs(h, s[1..], n - 1);
    assert forall k :: 0 <= k < n ==> s[..n][k] == s[k];
    assert forall k :: 0 < k < |s| ==> s[k] == s[1..][k - 1];
  }

  lemma NameTokens(h: Host, s: string, token: Token, n: nat)
    requires SoundClasses(h) && s != "" && StartsName(h, s[0])
    ensures ScanToken(h, s) == One(token, n) <==> TokenAt(h, s, token, n)
  {
    hide NameLength, WordToken, IsToken, NumberRun, StringBody, RegexBody, NameText;
    var m := NameLength(h, s);
    NameEnds(h, s, m);
    WordsAreNames(s[..m]);
    NamedTokens(h, s[..m], WordToken(s[..m]));
    if TokenAt(h, s, token, n) {
      assert s[..n][0] == s[0];
      OnlyName(h, s[..n], token);
      NameEnds(h, s, n);
      NamedTokens(h, s[..n], token);
    }
  }

  lemma WordsAreNames(text: string)
    ensures var token := WordToken(text); token == True || token == False || token == NullWord || token.Identifier?
  {
    hide Lower;
  }

  lemma SymbolScans(h: Host, s: string, token: Token, n: nat)
    requires s != "" && IsSymbol(s[0]) && ScanToken(h, s) == One(token, n)
    ensures TokenAt(h, s, token, n)
  {
    hide Lower, Quotes, IsPatternRest;
    assert s[..n][0] == s[0];
  }

  lemma SymbolTokens(h: Host, s: string, token: Token, n: nat)
    requires SoundClasses(h) && s != "" && IsSymbol(s[0])
    ensures ScanToken(h, s) == One(token, n) <==> TokenAt(h, s, token, n)
  {
    hide Lower, Quotes, IsPatternRest, NumberText, NameText, StringBody, RegexBody, NumberRun, NameLength;
    if ScanToken(h, s) == One(token, n) {
      SymbolScans(h, s, token, n);
    }
    if TokenAt(h, s, token, n) {
      assert s[..n][0] == s[0];
      OnlySymbol(h, s[..n], token);
      assert s[..n] == Spell(token);
      assert n == 2 ==> s[..n][1] == s[1];
    }
  }

  lemma OnlySymbol(h: Host, text: string, token: Token)
    requires SoundClasses(h) && text != "" && IsSymbol(text[0]) && IsToken(h, text, token)
    ensures !token.Str? && !token.Regex? && !token.Number? && !token.Identifier?
    ensures token != True && token != False && token != NullWord
  {
    hide Lower, Quotes, IsPatternRest;
  }

  /** A text begins with a token of some length exactly if that part of it is the token and what
      stands behind it does not belong to it. */
  lemma TokensExactly(h: Host, s: string, token: Token, n: nat)
    requires SoundClasses(h) && s != ""
    ensures ScanToken(h, s) == One(token, n) <==> TokenAt(h, s, token, n)
  {
    hide ScanToken, TokenAt;
    if IsSymbol(s[0]) {
      SymbolTokens(h, s, token, n);
    } else if s[0] == '/' {
      PatternTokens(h, s, token, n);
    } else if s[0] == '\'' || s[0] == '"' {
      StringTokens(h, s, token, n);
    } else if StartsNumber(h, s) {
      NumberTokens(h, s, token, n);
    } else if StartsName(h, s[0]) {
      NameTokens(h, s, token, n);
    } else {
      NoTokens(h, s, token, n);
    }
  }

  lemma NoTokens(h: Host, s: string, token: Token, n: nat)
    requires s != "" && !IsSymbol(s[0]) && s[0] != '/' && s[0] != '\'' && s[0] != '"'
    requires !StartsNumber(h, s) && !StartsName(h, s[0])
    ensures ScanToken(h, s) != One(token, n) && !TokenAt(h, s, token, n)
  {
    hide Lower, Quotes, IsPatternRest;
    if 0 < n <= |s| {
      assert s[..n][0] == s[0];
      assert n > 1 ==> s[..n][1] == s[1];
    }
  }

  // ------------------------------------------------------------- whole texts

  ghost predicate Spaces(s: string) {
    forall k :: 0 <= k < |s| ==> IsSpace(s[k])
  }

  /** Behind some white space the text begins with the token. */
  ghost predicate FirstToken(h: Host, s: string, j: int, n: int, token: Token) {
    0 <= j < |s| && 0 < n && j + n <= |s| && Spaces(s[..j]) && !IsSpace(s[j]) && TokenAt(h, s[j..], token, n)
  }

  /** The text is these tokens, with white space around them. */
  ghost predicate Spells(h: Host, s: string, ts: seq<Token>)
    decreases |ts|
  {
    if ts == [] then Spaces(s)
    else exists j, n :: FirstToken(h, s, j, n, ts[0]) && Spells(h, s[j + n..], ts[1..])
  }

  lemma SpacesFirst(s: string)
    ensures Spaces(s) <==> s == "" || (IsSpace(s[0]) && Spaces(s[1..]))
  {
    if s != "" && IsSpace(s[0]) && Spaces(s[1..]) {
      assert forall k :: 0 < k < |s| ==> s[k] == s[1..][k - 1];
    }
  }

  /** White space in front does not matter. */
  lemma SpellsBehind(h: Host, s: string, ts: seq<Token>)
    requires s != "" && IsSpace(s[0])
    ensures Spells(h, s, ts) <==> Spells(h, s[1..], ts)
  {
    hide IsSpace, TokenAt;
    if ts == [] {
      SpacesFirst(s);
    } else {
      if j, n :| FirstToken(h, s, j, n, ts[0]) && Spells(h, s[j + n..], ts[1..]) {
        FirstBehind(h, s, j, n, ts[0]);
        assert s[1..][j - 1 + n..] == s[j + n..];
      }
      if j, n :| FirstToken(h, s[1..], j, n, ts[0]) && Spells(h, s[1..][j + n..], ts[1..]) {
        FirstBehind(h, s, j + 1, n, ts[0]);
        assert s[1..][j + n..] == s[j + 1 + n..];
      }
    }
  }

  lemma FirstBehind(h: Host, s: string, j: int, n: int, token: Token)
    requires s != "" && IsSpace(s[0])
    ensures FirstToken(h, s, j, n, token) <==> FirstToken(h, s[1..], j - 1, n, token)
  {
    hide TokenAt, IsSpace;
    if 0 < j < |s| {
      assert s[1..][j - 1..] == s[j..] && s[..j][1..] == s[1..][..j - 1];
      SpacesFirst(s[..j]);
    }
  }

  lemma FirstHere(h: Host, s: string, j: int, n: int, token: Token)
    requires s != "" && !IsSpace(s[0])
    ensures FirstToken(h, s, j, n, token) <==> j == 0 && 0 < n && TokenAt(h, s, token, n)
  {
    hide IsToken, Ends, IsSpace;
    assert s[0..] == s;
    if 0 < j < |s| {
      assert s[..j][0] == s[0];
    }
  }

  /** Scanning yields exactly the tokens that the text spells. */
  lemma {:induction false} LexExactly(h: Host, s: string, ts: seq<Token>)
    requires SoundClasses(h)
    ensures Lex(h, s) == Tokens(ts + [EOF]) <==> Spells(h, s, ts)
    decreases |s|
  {
    hide ScanToken, FirstToken, TokenAt, SoundClasses, IsSpace;
    if s == "" {
      NothingSpelled(h, ts);
      assert ts == [] ==> ts + [EOF] == [EOF];
    } else if IsSpace(s[0]) {
      SpellsBehind(h, s, ts);
      LexExactly(h, s[1..], ts);
    } else {
      SpacesFirst(s);
      if ts == [] {
        NothingLexed(h, s);
      } else {
        LexFirst(h, s, ts);
      }
    }
  }

  lemma NothingSpelled(h: Host, ts: seq<Token>)
    ensures Spells(h, "", ts) <==> ts == []
  {
  }

  lemma NothingLexed(h: Host, s: string)
    requires s != "" && !IsSpace(s[0])
    ensures Lex(h, s) != Tokens([] + [EOF])
  {
    hide ScanToken, IsSpace;
    assert [] + [EOF] == [EOF];
  }

  lemma LexFirst(h: Host, s: string, ts: seq<Token>)
    requires SoundClasses(h) && s != "" && !IsSpace(s[0]) && ts != []
    ensures Lex(h, s) == Tokens(ts + [EOF]) <==> Spells(h, s, ts)
    decreases |s|, 0
  {
    hide ScanToken, Lex, Spells, SoundClasses, IsSpace;
    LexedFirst(h, s, ts);
    SpelledFirst(h, s, ts);
    if ScanToken(h, s).One? {
      LexExactly(h, s[ScanToken(h, s).length..], ts[1..]);
    }
  }

  lemma LexedFirst(h: Host, s: string, ts: seq<Token>)
    requires s != "" && !IsSpace(s[0]) && ts != []
    ensures var r := ScanToken(h, s);
            Lex(h, s) == Tokens(ts + [EOF]) <==>
            r.One? && r.token == ts[0] && Lex(h, s[r.length..]) == Tokens(ts[1..] + [EOF])
  {
    hide ScanToken, IsSpace;
    assert ts + [EOF] == [ts[0]] + (ts[1..] + [EOF]);
    var r := ScanToken(h, s);
    if r.One? && Lex(h, s[r.length..]).Tokens? {
      var rest := Lex(h, s[r.length..]).tokens;
      assert ([r.token] + rest)[1..] == rest && (ts + [EOF])[1..] == ts[1..] + [EOF];
    }
  }

  lemma SpelledFirst(h: Host, s: string, ts: seq<Token>)
    requires SoundClasses(h) && s != "" && !IsSpace(s[0]) && ts != []
    ensures var r := ScanToken(h, s);
            Spells(h, s, ts) <==> r.One? && r.token == ts[0] && Spells(h, s[r.length..], ts[1..])
  {
    hide ScanToken, FirstToken, SoundClasses, IsSpace;
    forall j, n ensures FirstToken(h, s, j, n, ts[0]) <==> j == 0 && 0 < n && ScanToken(h, s) == One(ts[0], n) {
      OnlyFirst(h, s, j, n, ts[0]);
    }
    var r := ScanToken(h, s);
    if r.One? && r.token == ts[0] {
      assert FirstToken(h, s, 0, r.length, ts[0]);
      assert s[0 + r.length..] == s[r.length..];
    }
  }

  lemma OnlyFirst(h: Host, s: string, j: int, n: int, token: Token)
    requires SoundClasses(h) && s != "" && !IsSpace(s[0])
    ensures FirstToken(h, s, j, n, token) <==> j == 0 && 0 < n && ScanToken(h, s) == One(token, n)
  {
    hide ScanToken, FirstToken, TokenAt, SoundClasses, IsSpace;
    FirstHere(h, s, j, n, token);
    if n > 0 {
      TokensExactly(h, s, token, n);
    } else {
      NoEmptyToken(h, s, j, n, token);
    }
  }

  lemma NoEmptyToken(h: Host, s: string, j: int, n: int, token: Token)
    requires n <= 0
    ensures !FirstToken(h, s, j, n, token)
  {
  }
}
