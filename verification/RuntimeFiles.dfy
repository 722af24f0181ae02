// The files a step writes for the runner: NAME=value lines and NAME<<DELIMITER blocks, as the
// environment parser and the output parser read them.
module RuntimeFiles {
  import opened Search

  const MAX_ENTRIES: nat := 256
  const MAX_LINE_BYTES: nat := 4096

  type Values = map<string, string>

  datatype Error = LineTooLong | TooManyEntries | InvalidCommand | Unterminated

  datatype Option<T> = None | Some(value: T)

  datatype Result = Ok(values: Values) | Err(error: Error)

  // ------------------------------------------------------------------ lines

  /** strings.ReplaceAll(s, "\r\n", "\n"). */
  function DropReturns(s: string): string {
    if s == "" then ""
    else if "\r\n" <= s then "\n" + DropReturns(s[2..])
    else [s[0]] + DropReturns(s[1..])
  }

  /** strings.TrimSuffix(line, "\r"). */
  function TrimReturn(line: string): string {
    if line != "" && line[|line| - 1] == '\r' then line[..|line| - 1] else line
  }

  function TrimAll(lines: seq<string>): (r: seq<string>)
    ensures |r| == |lines|
  {
    seq(|lines|, i requires 0 <= i < |lines| => TrimReturn(lines[i]))
  }

  method RuntimeFileLines(contents: string) returns (lines: seq<string>)
    ensures lines == TrimAll(Split(DropReturns(contents), '\n'))
  {
    var split := Split(DropReturns(contents), '\n');
    lines := split;
    for index := 0 to |lines|
      invariant |lines| == |split|
      invariant forall i :: 0 <= i < |lines| ==> lines[i] == if i < index then TrimReturn(split[i]) else split[i]
    {
      lines := lines[index := TrimReturn(lines[index])];
    }
  }

  predicate PlainText(s: string) {
    '\r' !in s
  }

  lemma {:induction false} NothingDropped(s: string)
    requires PlainText(s)
    ensures DropReturns(s) == s
  {
    if s != "" {
      assert s[0] in s;
      NothingDropped(s[1..]);
    }
  }

  lemma NothingTrimmed(line: string)
    requires PlainText(line)
    ensures TrimReturn(line) == line
  {
  }

  lemma {:induction false} PlainLines(s: string, c: char)
    requires PlainText(s)
    ensures forall x :: x in Split(s, c) ==> PlainText(x)
  {
    if s != "" {
      PlainLines(s[1..], c);
      var rest := Split(s[1..], c);
      assert s[0] in s && rest[0] in rest;
      assert forall x :: x in rest[1..] ==> x in rest;
    }
  }

  // ------------------------------------------------------------------ names

  predicate Letter(c: char) {
    'A' <= c <= 'Z' || 'a' <= c <= 'z' || c == '_'
  }

  predicate Digit(c: char) {
    '0' <= c <= '9'
  }

  /** ^[A-Za-z_][A-Za-z0-9_]*$ */
  predicate EnvironmentName(s: string) {
    s != "" && Letter(s[0]) && forall i :: 0 <= i < |s| ==> Letter(s[i]) || Digit(s[i])
  }

  /** ^[A-Za-z_][A-Za-z0-9_-]*$ */
  predicate OutputName(s: string) {
    s != "" && Letter(s[0]) && forall i :: 0 <= i < |s| ==> Letter(s[i]) || Digit(s[i]) || s[i] == '-'
  }

  function Upper(s: string): string {
    if s == "" then ""
    else [if 'a' <= s[0] <= 'z' then (s[0] as int - 32) as char else s[0]] + Upper(s[1..])
  }

  /** validateRuntimeEnvironmentName. */
  predicate ValidName(s: string) {
    && EnvironmentName(s)
    && !("GITHUB_" <= Upper(s)) && !("RUNNER_" <= Upper(s)) && Upper(s) != "NODE_OPTIONS"
  }

  const CAPITALS := "ABCDEFGHIJKLMNOPQRSTUVWXYZ"
  const SMALL := "abcdefghijklmnopqrstuvwxyz"
  const DIGITS := "0123456789"

  ghost predicate OneOf(alphabet: string, c: char) {
    exists k :: 0 <= k < |alphabet| && alphabet[k] == c
  }

  /** Letters and underscores, and behind the first character digits and what more there may be. */
  ghost predicate Spelled(s: string, more: string) {
    && s != "" && !OneOf(DIGITS, s[0]) && !OneOf(more, s[0])
    && forall k :: 0 <= k < |s| ==> OneOf(CAPITALS, s[k]) || OneOf(SMALL, s[k]) || s[k] == '_' || OneOf(DIGITS, s[k])
                                    || OneOf(more, s[k])
  }

  /** The character is the capital, or its small letter. */
  predicate SameLetter(c: char, capital: char) {
    c == capital || ('A' <= capital <= 'Z' && c as int == capital as int + 32)
  }

  /** The name begins with the word in capitals, in any letter case. */
  ghost predicate BeginsWith(s: string, word: string) {
    |word| <= |s| && forall k :: 0 <= k < |word| ==> SameLetter(s[k], word[k])
  }

  lemma CapitalIs(c: char)
    ensures 'A' <= c <= 'Z' <==> OneOf(CAPITALS, c)
  {
    if 'A' <= c <= 'Z' {
      assert CAPITALS[c as int - 'A' as int] == c;
    }
  }

  lemma SmallIs(c: char)
    ensures 'a' <= c <= 'z' <==> OneOf(SMALL, c)
  {
    if 'a' <= c <= 'z' {
      assert SMALL[c as int - 'a' as int] == c;
    }
  }

  lemma DigitIs(c: char)
    ensures Digit(c) <==> OneOf(DIGITS, c)
  {
    if '0' <= c <= '9' {
      assert DIGITS[c as int - '0' as int] == c;
    }
  }

  lemma MoreIs(c: char)
    ensures !OneOf("", c) && (OneOf("-", c) <==> c == '-')
  {
    assert "-"[0] == '-';
  }

  lemma SameLetterIs(c: char, capital: char)
    requires 'A' <= capital <= 'Z' || capital == '_'
    ensures (if 'a' <= c <= 'z' then (c as int - 32) as char else c) == capital <==> SameLetter(c, capital)
  {
  }

  lemma {:induction false} UpperAt(s: string)
    ensures |Upper(s)| == |s|
    ensures forall k :: 0 <= k < |s| ==> Upper(s)[k] == if 'a' <= s[k] <= 'z' then (s[k] as int - 32) as char else s[k]
  {
    if s != "" {
      UpperAt(s[1..]);
    }
  }

  lemma BeginsIs(s: string, word: string)
    requires forall k :: 0 <= k < |word| ==> 'A' <= word[k] <= 'Z' || word[k] == '_'
    ensures word <= Upper(s) <==> BeginsWith(s, word)
  {
    hide SameLetter;
    UpperAt(s);
    if |word| <= |s| {
      forall k | 0 <= k < |word| ensures Upper(s)[k] == word[k] <==> SameLetter(s[k], word[k]) {
        SameLetterIs(s[k], word[k]);
      }
      assert word <= Upper(s) <==> forall k :: 0 <= k < |word| ==> word[k] == Upper(s)[k];
    }
  }

  /** A name of an output or a variable by its characters; a variable is not one of the runner's,
      whatever letters are capitals. */
  lemma NamesExactly(s: string)
    ensures EnvironmentName(s) <==> Spelled(s, "")
    ensures OutputName(s) <==> Spelled(s, "-")
    ensures ValidName(s) <==>
            && Spelled(s, "") && !BeginsWith(s, "GITHUB_") && !BeginsWith(s, "RUNNER_")
            && !(|s| == 12 && BeginsWith(s, "NODE_OPTIONS"))
  {
    hide OneOf, BeginsWith, Upper;
    forall c ensures Letter(c) <==> OneOf(CAPITALS, c) || OneOf(SMALL, c) || c == '_' {
      CapitalIs(c);
      SmallIs(c);
    }
    forall c ensures Digit(c) <==> OneOf(DIGITS, c) {
      DigitIs(c);
    }
    forall c ensures !OneOf("", c) && (OneOf("-", c) <==> c == '-') {
      MoreIs(c);
    }
    BeginsIs(s, "GITHUB_");
    BeginsIs(s, "RUNNER_");
    BeginsIs(s, "NODE_OPTIONS");
    UpperAt(s);
    assert Upper(s) == "NODE_OPTIONS" <==> |s| == 12 && "NODE_OPTIONS" <= Upper(s);
  }

  // ---------------------------------------------------------------- parsing

  /** The first line that is the delimiter, or the number of lines. */
  function FindLine(lines: seq<string>, delimiter: string): (k: nat)
    ensures k <= |lines| && (k < |lines| ==> lines[k] == delimiter)
    ensures forall i :: 0 <= i < k ==> lines[i] != delimiter
  {
    if lines == [] || lines[0] == delimiter then 0 else 1 + FindLine(lines[1..], delimiter)
  }

  /** Where NAME<<DELIMITER parts, or none. */
  function Marker(line: string): int
    ensures Marker(line) < |line|
    ensures Marker(line) >= 0 ==> Marker(line) > 0 && Marker(line) + 2 <= |line|
  {
    var m := IndexOf(line, "<<");
    if m > 0 && '=' !in line[..m] then m else -1
  }

  function Equals(line: string): (i: int)
    ensures -1 <= i < |line|
  {
    var i := IndexOf(line, "=");
    assert i >= 0 ==> "=" <= line[i..];
    i
  }

  /** What one command comes to: an error, or the lines behind it and the values so far. */
  datatype Step = Stop(error: Error) | More(rest: seq<string>, entries: nat, values: Values)

  function EnvStep(lines: seq<string>, entries: nat, values: Values): (s: Step)
    requires lines != []
    ensures s.More? ==> |s.rest| < |lines| && forall x :: x in s.rest ==> x in lines
  {
    var line := lines[0];
    if line == "" then More(lines[1..], entries, values)
    else if Size(line) > MAX_LINE_BYTES then Stop(LineTooLong)
    else if entries + 1 > MAX_ENTRIES then Stop(TooManyEntries)
    else
      var m := Marker(line);
      if m >= 0 then
        var name, delimiter := line[..m], line[m + 2..];
        var k := FindLine(lines[1..], delimiter);
        if !ValidName(name) || delimiter == "" then Stop(InvalidCommand)
        else if k + 1 >= |lines| then Stop(Unterminated)
        else More(lines[k + 2..], entries + 1, values[name := Join(lines[1..k + 1], '\n')])
      else
        var e := Equals(line);
        if e < 0 || !ValidName(line[..e]) then Stop(InvalidCommand)
        else More(lines[1..], entries + 1, values[line[..e] := line[e + 1..]])
  }

  function ParseEnv(lines: seq<string>, entries: nat, values: Values): Result
    decreases |lines|
  {
    if lines == [] then Ok(values)
    else
      match EnvStep(lines, entries, values)
      case Stop(error) => Err(error)
      case More(rest, n, v) => ParseEnv(rest, n, v)
  }

  lemma EnvUnfolds(lines: seq<string>, entries: nat, values: Values)
    ensures lines == [] ==> ParseEnv(lines, entries, values) == Ok(values)
    ensures lines != [] ==>
              var s := EnvStep(lines, entries, values);
              ParseEnv(lines, entries, values) == if s.Stop? then Err(s.error)
                  else ParseEnv(s.rest, s.entries, s.values)
  {
    hide EnvStep;
  }

  /** A block of lines seen from its header. */
  lemma BlockAt(lines: seq<string>, index: nat, end: nat)
    requires index < end <= |lines|
    ensures lines[index..][1..end - index] == lines[index + 1..end]
    ensures lines[index..][1..] == lines[index + 1..]
    ensures end < |lines| ==> lines[index..][end - index + 1..] == lines[end + 1..]
  {
  }

  /** One command, told by places in the whole list of lines. */
  lemma EnvCommandAt(lines: seq<string>, index: nat, entries: nat, before: Values)
    requires index < |lines| && lines[index] != "" && Size(lines[index]) <= MAX_LINE_BYTES && entries < MAX_ENTRIES
    ensures var line := lines[index]; var m, e := Marker(line), Equals(line);
            EnvStep(lines[index..], entries, before) ==
            if m >= 0 then
              var end := index + 1 + FindLine(lines[index + 1..], line[m + 2..]);
              if !ValidName(line[..m]) || line[m + 2..] == "" then Stop(InvalidCommand)
              else if end >= |lines| then Stop(Unterminated)
              else More(lines[end + 1..], entries + 1, before[line[..m] := Join(lines[index + 1..end], '\n')])
            else if e < 0 || !ValidName(line[..e]) then Stop(InvalidCommand)
            else More(lines[index + 1..], entries + 1, before[line[..e] := line[e + 1..]])
  {
    hide ValidName, Size, Join, Marker, Equals, FindLine;
    var line := lines[index];
    BlockAt(lines, index, index + 1);
    if Marker(line) >= 0 {
      BlockAt(lines, index, index + 1 + FindLine(lines[index + 1..], line[Marker(line) + 2..]));
    }
  }

  /** One command of the environment parser; next is the line behind it. */
  method ReadEnvCommand(lines: seq<string>, index: nat, entries: nat, before: Values)
    returns (error: Option<Error>, next: nat, values: Values)
    requires index < |lines| && lines[index] != "" && Size(lines[index]) <= MAX_LINE_BYTES && entries < MAX_ENTRIES
    ensures error.None? ==> index < next <= |lines|
    ensures EnvStep(lines[index..], entries, before) ==
            if error.Some? then Stop(error.value) else More(lines[next..], entries + 1, values)
  {
    hide ValidName, Size, Join, Marker, Equals, FindLine, EnvStep;
    var line := lines[index];
    EnvCommandAt(lines, index, entries, before);
    var marker := Marker(line);
    if marker >= 0 {
      var name, delimiter := line[..marker], line[marker + 2..];
      if !ValidName(name) || delimiter == "" {
        return Some(InvalidCommand), index, before;
      }
      var end := ScanTo(lines, index + 1, delimiter, false);
      if end >= |lines| {
        return Some(Unterminated), index, before;
      }
      return None, end + 1, before[name := Join(lines[index + 1..end], '\n')];
    }
    var e := Equals(line);
    if e < 0 || !ValidName(line[..e]) {
      return Some(InvalidCommand), index, before;
    }
    return None, index + 1, before[line[..e] := line[e + 1..]];
  }

  /** parseGitHubEnvironmentFile, on the contents of the file. */
  method ParseGitHubEnvironment(contents: string) returns (r: Result)
    ensures r == ParseEnv(TrimAll(Split(DropReturns(contents), '\n')), 0, map[])
  {
    hide *;
    var lines := RuntimeFileLines(contents);
    var values: Values, entries, index := map[], 0, 0;
    assert lines[0..] == lines;
    while index < |lines|
      invariant index <= |lines| && ParseEnv(lines[index..], entries, values) == ParseEnv(lines, 0, map[])
    {
      EnvUnfolds(lines[index..], entries, values);
      EnvSteps(lines, index, entries, values);
      if lines[index] == "" {
        index := index + 1;
        continue;
      }
      if Size(lines[index]) > MAX_LINE_BYTES {
        return Err(LineTooLong);
      }
      if entries + 1 > MAX_ENTRIES {
        return Err(TooManyEntries);
      }
      var error;
      error, index, values := ReadEnvCommand(lines, index, entries, values);
      entries := entries + 1;
      if error.Some? {
        return Err(error.value);
      }
    }
    EnvUnfolds(lines[index..], entries, values);
    return Ok(values);
  }

  /** What comes before a command is read. */
  lemma EnvSteps(lines: seq<string>, index: nat, entries: nat, values: Values)
    requires index < |lines|
    ensures var s := EnvStep(lines[index..], entries, values);
            && (lines[index] == "" ==> s == More(lines[index + 1..], entries, values))
            && (lines[index] != "" && Size(lines[index]) > MAX_LINE_BYTES ==> s == Stop(LineTooLong))
            && (lines[index] != "" && Size(lines[index]) <= MAX_LINE_BYTES && entries + 1 > MAX_ENTRIES ==>
                s == Stop(TooManyEntries))
  {
    hide ValidName, Size, Join, Marker, Equals, FindLine;
    BlockAt(lines, index, index + 1);
  }

  /** The inner loop of both parsers; the output parser trims each line before it compares. */
  method ScanTo(lines: seq<string>, start: nat, delimiter: string, trim: bool) returns (index: nat)
    requires start <= |lines|
    ensures start <= index <= |lines|
    ensures index - start == FindLine(if trim then TrimAll(lines[start..]) else lines[start..], delimiter)
  {
    index := start;
    ghost var seen := if trim then TrimAll(lines[start..]) else lines[start..];
    while index < |lines| && (if trim then TrimReturn(lines[index]) else lines[index]) != delimiter
      invariant start <= index <= |lines|
      invariant forall i :: 0 <= i < index - start ==> seen[i] != delimiter
    {
      assert seen[index - start] == if trim then TrimReturn(lines[index]) else lines[index];
      index := index + 1;
    }
    assert index < |lines| ==> seen[index - start] == delimiter;
  }

  function OutputStep(lines: seq<string>, outputs: Values): (s: Step)
    requires lines != []
    ensures s.More? ==> |s.rest| < |lines|
  {
    var line := TrimReturn(lines[0]);
    if line == "" then More(lines[1..], 0, outputs)
    else
      var m := Marker(line);
      if m >= 0 then
        var name, delimiter := line[..m], line[m + 2..];
        var k := FindLine(TrimAll(lines[1..]), delimiter);
        if !OutputName(name) || delimiter == "" then Stop(InvalidCommand)
        else if k + 1 >= |lines| then Stop(Unterminated)
        else More(lines[k + 2..], 0, outputs[name := Join(lines[1..k + 1], '\n')])
      else
        var e := Equals(line);
        if e < 0 || !OutputName(line[..e]) then Stop(InvalidCommand)
        else More(lines[1..], 0, outputs[line[..e] := line[e + 1..]])
  }

  function ParseOutput(lines: seq<string>, outputs: Values): Result
    decreases |lines|
  {
    if lines == [] then Ok(outputs)
    else
      match OutputStep(lines, outputs)
      case Stop(error) => Err(error)
      case More(rest, _, v) => ParseOutput(rest, v)
  }

  lemma OutputUnfolds(lines: seq<string>, outputs: Values)
    ensures lines == [] ==> ParseOutput(lines, outputs) == Ok(outputs)
    ensures lines != [] ==>
              var s := OutputStep(lines, outputs);
              ParseOutput(lines, outputs) == if s.Stop? then Err(s.error) else ParseOutput(s.rest, s.values)
  {
    hide OutputStep;
  }

  /** parseGitHubOutput, on the contents of the file. */
  method ParseGitHubOutput(contents: string) returns (r: Result)
    ensures r == ParseOutput(Split(DropReturns(contents), '\n'), map[])
  {
    hide OutputName, Join, TrimReturn, TrimAll, ParseOutput, Marker, Equals, FindLine;
    var lines := Split(DropReturns(contents), '\n');
    var outputs: Values, index := map[], 0;
    assert lines[0..] == lines;
    while index < |lines|
      invariant index <= |lines| && ParseOutput(lines[index..], outputs) == ParseOutput(lines, map[])
    {
      var line := TrimReturn(lines[index]);
      OutputUnfolds(lines[index..], outputs);
      BlockAt(lines, index, index + 1);
      if line == "" {
        index := index + 1;
        continue;
      }
      var marker := Marker(line);
      if marker >= 0 {
        var name, delimiter := line[..marker], line[marker + 2..];
        if !OutputName(name) || delimiter == "" {
          return Err(InvalidCommand);
        }
        var start := index + 1;
        index := ScanTo(lines, start, delimiter, true);
        if index >= |lines| {
          return Err(Unterminated);
        }
        BlockAt(lines, start - 1, index);
        outputs := outputs[name := Join(lines[start..index], '\n')];
        index := index + 1;
        continue;
      }
      var e := Equals(line);
      if e < 0 || !OutputName(line[..e]) {
        return Err(InvalidCommand);
      }
      outputs := outputs[line[..e] := line[e + 1..]];
      index := index + 1;
    }
    OutputUnfolds(lines[index..], outputs);
    return Ok(outputs);
  }

  // ------------------------------------------------------ the parsers agree

  lemma NothingTrimmedIn(lines: seq<string>)
    requires forall x :: x in lines ==> PlainText(x)
    ensures TrimAll(lines) == lines
  {
    forall i | 0 <= i < |lines| ensures TrimAll(lines)[i] == lines[i] {
      NothingTrimmed(lines[i]);
    }
  }

  lemma StepsAgree(lines: seq<string>, entries: nat, values: Values)
    requires lines != [] && (forall x :: x in lines ==> PlainText(x)) && EnvStep(lines, entries, values).More?
    ensures var s, t := EnvStep(lines, entries, values), OutputStep(lines, values);
            t.More? && t.rest == s.rest && t.values == s.values
  {
    hide Size, PlainText, Join, FindLine, Equals, Marker, TrimReturn, TrimAll, ValidName, OutputName;
    assert forall x :: x in lines[1..] ==> x in lines;
    NothingTrimmed(lines[0]);
    NothingTrimmedIn(lines[1..]);
    NamesAgree();
  }

  lemma NamesAgree()
    ensures forall x :: ValidName(x) ==> OutputName(x)
  {
  }

  lemma {:induction false} LinesAgree(lines: seq<string>, entries: nat, values: Values)
    requires (forall x :: x in lines ==> PlainText(x)) && ParseEnv(lines, entries, values).Ok?
    ensures ParseOutput(lines, values) == ParseEnv(lines, entries, values)
    decreases |lines|
  {
    hide PlainText, ParseEnv, ParseOutput, EnvStep, OutputStep;
    EnvUnfolds(lines, entries, values);
    OutputUnfolds(lines, values);
    if lines != [] {
      StepsAgree(lines, entries, values);
      var s := EnvStep(lines, entries, values);
      LinesAgree(s.rest, s.entries, s.values);
    }
  }

  /** Whatever file without carriage returns the environment parser accepts, the output parser
      reads the same. */
  lemma ParsersAgree(contents: string)
    requires PlainText(contents)
    requires ParseEnv(TrimAll(Split(DropReturns(contents), '\n')), 0, map[]).Ok?
    ensures ParseOutput(Split(DropReturns(contents), '\n'), map[]) ==
        ParseEnv(TrimAll(Split(DropReturns(contents), '\n')), 0, map[])
  {
    NothingDropped(contents);
    PlainLines(contents, '\n');
    NothingTrimmedIn(Split(contents, '\n'));
    LinesAgree(Split(contents, '\n'), 0, map[]);
  }

  // ------------------------------------------------------------ what is accepted

  /** What the lines of a file are: nothing, NAME=value, or a block closed by its delimiter. */
  datatype Entry = Blank | Line(name: string, value: string) | Block(name: string, body: seq<string>, delimiter: string)

  function Header(e: Entry): string {
    match e
    case Blank => ""
    case Line(name, value) => name + "=" + value
    case Block(name, _, delimiter) => name + "<<" + delimiter
  }

  /** A line as a parser looks at it. */
  function Looked(line: string, trim: bool): string {
    if trim then TrimReturn(line) else line
  }

  /** The lines an entry takes up. */
  function Height(e: Entry): nat {
    if e.Block? then |e.body| + 2 else 1
  }

  /** The entry stands at the start of the lines; a block ends with the first line that is its
      delimiter. */
  ghost predicate StandsAt(lines: seq<string>, e: Entry, trim: bool) {
    && Height(e) <= |lines| && Looked(lines[0], trim) == Header(e)
    && (e.Block? ==>
          && lines[1..|e.body| + 1] == e.body && Looked(lines[|e.body| + 1], trim) == e.delimiter
          && forall x :: x in e.body ==> Looked(x, trim) != e.delimiter)
  }

  /** The lines are these entries, one behind the other. */
  ghost predicate Spells(lines: seq<string>, entries: seq<Entry>, trim: bool)
    decreases |entries|
  {
    if entries == [] then lines == []
    else StandsAt(lines, entries[0], trim) && Spells(lines[Height(entries[0])..], entries[1..], trim)
  }

  predicate GoodEnv(e: Entry) {
    e.Blank? || (ValidName(e.name) && Size(Header(e)) <= MAX_LINE_BYTES && (e.Block? ==> e.delimiter != ""))
  }

  predicate GoodOutput(e: Entry) {
    e.Blank? || (OutputName(e.name) && (e.Block? ==> e.delimiter != ""))
  }

  function Commands(entries: seq<Entry>): nat {
    if entries == [] then 0 else (if entries[0].Blank? then 0 else 1) + Commands(entries[1..])
  }

  /** The assignments of the entries, from first to last. */
  function Assigned(entries: seq<Entry>, values: Values): Values
    decreases |entries|
  {
    if entries == [] then values else Assigned(entries[1..], Assign(entries[0], values))
  }

  function Assign(e: Entry, values: Values): Values {
    match e
    case Blank => values
    case Line(name, value) => values[name := value]
    case Block(name, body, _) => values[name := Join(body, '\n')]
  }

  predicate Clean(name: string) {
    name != "" && '<' !in name && '=' !in name
  }

  lemma NamesAreClean(name: string)
    ensures ValidName(name) ==> Clean(name) && PlainText(name) && '\n' !in name
    ensures OutputName(name) ==> Clean(name)
  {
    hide Upper;
  }

  lemma HeaderMarked(name: string, delimiter: string)
    requires Clean(name)
    ensures var line := name + "<<" + delimiter;
            Marker(line) == |name| && line[..|name|] == name && line[|name| + 2..] == delimiter && line != ""
  {
    IndexBehind(name, "<<", delimiter);
    assert (name + "<<" + delimiter)[..|name|] == name;
  }

  /** A line is cut at its first equals sign, whatever the value holds. */
  lemma LineCut(name: string, value: string)
    requires Clean(name)
    ensures var line := name + "=" + value;
            && Marker(line) == -1 && Equals(line) == |name| && line[..|name|] == name && line[|name| + 1..] == value
            && line != ""
  {
    hide IndexOf;
    var line := name + "=" + value;
    IndexBehind(name, "=", value);
    assert line[|name|] == '=' && forall i :: 0 <= i < |name| ==> line[i] == name[i] && name[i] in name;
    var m := IndexOf(line, "<<");
    if m > 0 {
      assert line[m..][0] == '<' == line[m];
      assert m != |name|;
      if m > |name| {
        assert line[..m][|name|] == '=';
      }
    }
  }

  lemma CutAround(line: string, sub: string, i: nat)
    requires OccursAt(line, sub, i)
    ensures i + |sub| <= |line| && line == line[..i] + sub + line[i + |sub|..]
  {
    assert line[i..] == sub + line[i..][|sub|..];
    assert line[i..][|sub|..] == line[i + |sub|..];
    assert line == line[..i] + line[i..];
  }

  lemma MarkedIs(line: string)
    ensures var m := Marker(line); m >= 0 ==> line == line[..m] + "<<" + line[m + 2..]
    ensures var e := Equals(line); e >= 0 ==> line == line[..e] + "=" + line[e + 1..]
  {
    hide IndexOf, OccursAt;
    var m, e := Marker(line), Equals(line);
    if m >= 0 {
      CutAround(line, "<<", m);
    }
    if e >= 0 {
      CutAround(line, "=", e);
    }
  }

  lemma DelimiterFound(lines: seq<string>, delimiter: string, k: nat)
    requires k < |lines| && lines[k] == delimiter && forall i :: 0 <= i < k ==> lines[i] != delimiter
    ensures FindLine(lines, delimiter) == k
  {
    var f := FindLine(lines, delimiter);
    assert f <= k;
  }

  lemma BlockFound(lines: seq<string>, e: Entry, trim: bool)
    requires e.Block? && StandsAt(lines, e, trim)
    ensures var seen := if trim then TrimAll(lines[1..]) else lines[1..]; FindLine(seen, e.delimiter) == |e.body|
  {
    var seen := if trim then TrimAll(lines[1..]) else lines[1..];
    forall i | 0 <= i < |e.body| ensures seen[i] != e.delimiter {
      assert lines[1..|e.body| + 1][i] == e.body[i] && e.body[i] in e.body;
    }
    DelimiterFound(seen, e.delimiter, |e.body|);
  }

  /** A good entry at the start of the lines is read as its assignment. */
  lemma EnvReadsEntry(lines: seq<string>, e: Entry, count: nat, values: Values)
    requires StandsAt(lines, e, false) && GoodEnv(e)
    ensures EnvStep(lines, count, values) ==
            if e.Blank? then More(lines[1..], count, values)
            else if count < MAX_ENTRIES then More(lines[Height(e)..], count + 1, Assign(e, values))
            else Stop(TooManyEntries)
  {
    hide ValidName, Size, Marker, Equals, FindLine, Join;
    if !e.Blank? {
      NamesAreClean(e.name);
      if e.Line? {
        LineCut(e.name, e.value);
      } else {
        HeaderMarked(e.name, e.delimiter);
        BlockFound(lines, e, false);
      }
    }
  }

  /** What is read is a good entry. */
  lemma EnvEntryRead(lines: seq<string>, count: nat, values: Values) returns (e: Entry)
    requires lines != [] && EnvStep(lines, count, values).More?
    ensures StandsAt(lines, e, false) && GoodEnv(e)
  {
    hide ValidName, Size, Marker, Equals, FindLine, Join;
    var line := lines[0];
    MarkedIs(line);
    if line == "" {
      e := Blank;
    } else if Marker(line) >= 0 {
      var m := Marker(line);
      var k := FindLine(lines[1..], line[m + 2..]);
      e := Block(line[..m], lines[1..k + 1], line[m + 2..]);
      forall x | x in e.body ensures x != e.delimiter {
        var i :| 0 <= i < k && lines[1..][i] == x;
      }
    } else {
      var c := Equals(line);
      e := Line(line[..c], line[c + 1..]);
    }
  }

  /** The environment parser accepts, with these values, exactly the lines of good entries that
      are no more than the limit and assign them. */
  lemma {:induction false} EnvAcceptsExactly(lines: seq<string>, count: nat, values: Values, result: Values)
    requires count <= MAX_ENTRIES
    ensures ParseEnv(lines, count, values) == Ok(result) <==>
            exists entries :: EnvMeans(lines, entries, count, values, result)
    decreases |lines|
  {
    hide EnvStep, ParseEnv, StandsAt, GoodEnv;
    EnvUnfolds(lines, count, values);
    if ParseEnv(lines, count, values) == Ok(result) {
      var entries := EnvEntries(lines, count, values);
      assert EnvMeans(lines, entries, count, values, result);
    }
    if entries :| EnvMeans(lines, entries, count, values, result) {
      EnvReadsAll(lines, entries, count, values);
    }
  }

  ghost predicate EnvMeans(lines: seq<string>, entries: seq<Entry>, count: nat, values: Values, result: Values) {
    && Spells(lines, entries, false) && (forall e :: e in entries ==> GoodEnv(e))
    && count + Commands(entries) <= MAX_ENTRIES && Assigned(entries, values) == result
  }

  lemma {:induction false} EnvReadsAll(lines: seq<string>, entries: seq<Entry>, count: nat, values: Values)
    requires count <= MAX_ENTRIES && Spells(lines, entries, false) && forall e :: e in entries ==> GoodEnv(e)
    ensures ParseEnv(lines, count, values) ==
            if count + Commands(entries) <= MAX_ENTRIES then Ok(Assigned(entries, values)) else Err(TooManyEntries)
    decreases |entries|
  {
    hide EnvStep, ParseEnv, GoodEnv;
    EnvUnfolds(lines, count, values);
    if entries != [] {
      var e := entries[0];
      assert e in entries && forall x :: x in entries[1..] ==> x in entries;
      EnvReadsEntry(lines, e, count, values);
      if e.Blank? {
        EnvReadsAll(lines[1..], entries[1..], count, values);
      } else if count < MAX_ENTRIES {
        EnvReadsAll(lines[Height(e)..], entries[1..], count + 1, Assign(e, values));
      }
    }
  }

  lemma {:induction false} EnvEntries(lines: seq<string>, count: nat, values: Values) returns (entries: seq<Entry>)
    requires count <= MAX_ENTRIES && ParseEnv(lines, count, values).Ok?
    ensures EnvMeans(lines, entries, count, values, ParseEnv(lines, count, values).values)
    decreases |lines|
  {
    hide EnvStep, ParseEnv, StandsAt, GoodEnv, Assign;
    EnvUnfolds(lines, count, values);
    if lines == [] {
      entries := [];
    } else {
      var e := EnvEntryRead(lines, count, values);
      EnvReadsEntry(lines, e, count, values);
      StandsIs(lines, e, false);
      var next := if e.Blank? then count else count + 1;
      var rest := EnvEntries(lines[Height(e)..], next, Assign(e, values));
      entries := [e] + rest;
      assert entries[1..] == rest;
    }
  }

  lemma StandsIs(lines: seq<string>, e: Entry, trim: bool)
    requires StandsAt(lines, e, trim)
    ensures 0 < Height(e) <= |lines| && (e.Blank? ==> Height(e) == 1 && forall v :: Assign(e, v) == v)
  {
  }

  lemma OutputReadsEntry(lines: seq<string>, e: Entry, values: Values)
    requires StandsAt(lines, e, true) && GoodOutput(e)
    ensures OutputStep(lines, values) == More(lines[Height(e)..], 0, Assign(e, values))
  {
    hide OutputName, Marker, Equals, FindLine, Join, TrimReturn, TrimAll;
    if !e.Blank? {
      NamesAreClean(e.name);
      if e.Line? {
        LineCut(e.name, e.value);
      } else {
        HeaderMarked(e.name, e.delimiter);
        BlockFound(lines, e, true);
      }
    }
  }

  lemma OutputEntryRead(lines: seq<string>, values: Values) returns (e: Entry)
    requires lines != [] && OutputStep(lines, values).More?
    ensures StandsAt(lines, e, true) && GoodOutput(e)
  {
    hide OutputName, Marker, Equals, FindLine, Join, TrimReturn;
    var line := TrimReturn(lines[0]);
    MarkedIs(line);
    if line == "" {
      e := Blank;
    } else if Marker(line) >= 0 {
      var m := Marker(line);
      var seen := TrimAll(lines[1..]);
      var k := FindLine(seen, line[m + 2..]);
      e := Block(line[..m], lines[1..k + 1], line[m + 2..]);
      forall x | x in e.body ensures TrimReturn(x) != e.delimiter {
        var i :| 0 <= i < k && lines[1..][i] == x;
        assert seen[i] == TrimReturn(x);
      }
      assert seen[k] == TrimReturn(lines[k + 1]);
    } else {
      var c := Equals(line);
      e := Line(line[..c], line[c + 1..]);
    }
  }

  ghost predicate OutputMeans(lines: seq<string>, entries: seq<Entry>, values: Values, result: Values) {
    && Spells(lines, entries, true) && (forall e :: e in entries ==> GoodOutput(e)) &&
        Assigned(entries, values) == result
  }

  /** The output parser accepts exactly the lines of good entries, each line trimmed of one
      carriage return when it is compared, and kept as it is inside a block. */
  lemma {:induction false} OutputAcceptsExactly(lines: seq<string>, values: Values, result: Values)
    ensures ParseOutput(lines, values) == Ok(result) <==> exists entries :: OutputMeans(lines, entries, values, result)
    decreases |lines|
  {
    hide OutputStep, ParseOutput, StandsAt, GoodOutput;
    if ParseOutput(lines, values) == Ok(result) {
      var entries := OutputEntries(lines, values);
      assert OutputMeans(lines, entries, values, result);
    }
    if entries :| OutputMeans(lines, entries, values, result) {
      OutputReadsAll(lines, entries, values);
    }
  }

  lemma {:induction false} OutputReadsAll(lines: seq<string>, entries: seq<Entry>, values: Values)
    requires Spells(lines, entries, true) && forall e :: e in entries ==> GoodOutput(e)
    ensures ParseOutput(lines, values) == Ok(Assigned(entries, values))
    decreases |entries|
  {
    hide OutputStep, ParseOutput, GoodOutput;
    OutputUnfolds(lines, values);
    if entries != [] {
      var e := entries[0];
      assert e in entries && forall x :: x in entries[1..] ==> x in entries;
      OutputReadsEntry(lines, e, values);
      OutputReadsAll(lines[Height(e)..], entries[1..], Assign(e, values));
    }
  }

  lemma {:induction false} OutputEntries(lines: seq<string>, values: Values) returns (entries: seq<Entry>)
    requires ParseOutput(lines, values).Ok?
    ensures OutputMeans(lines, entries, values, ParseOutput(lines, values).values)
    decreases |lines|
  {
    hide OutputStep, ParseOutput, StandsAt, GoodOutput, Assign;
    OutputUnfolds(lines, values);
    if lines == [] {
      entries := [];
    } else {
      var e := OutputEntryRead(lines, values);
      OutputReadsEntry(lines, e, values);
      StandsIs(lines, e, true);
      var rest := OutputEntries(lines[Height(e)..], Assign(e, values));
      entries := [e] + rest;
      assert entries[1..] == rest;
    }
  }

  // --------------------------------------------------------------- printing

  /** An entry that can be printed: each of its lines is one line of text, and no line of a
      block is its delimiter. */
  predicate Printable(e: Entry) {
    && GoodEnv(e) && OneLineOnly(Header(e))
    && (e.Block? ==> e.delimiter !in e.body && forall x :: x in e.body ==> OneLineOnly(x))
  }

  predicate OneLineOnly(s: string) {
    PlainText(s) && '\n' !in s
  }

  function LinesOf(e: Entry): seq<string> {
    [Header(e)] + if e.Block? then e.body + [e.delimiter] else []
  }

  function AllLines(entries: seq<Entry>): seq<string> {
    if entries == [] then [] else LinesOf(entries[0]) + AllLines(entries[1..])
  }

  /** Every line ended by a line feed. */
  function Ended(lines: seq<string>): string {
    if lines == [] then "" else lines[0] + "\n" + Ended(lines[1..])
  }

  function Print(entries: seq<Entry>): string {
    Ended(AllLines(entries))
  }

  lemma {:induction false} EndedSplits(lines: seq<string>)
    requires forall x :: x in lines ==> OneLineOnly(x)
    ensures Split(Ended(lines), '\n') == lines + [""] && PlainText(Ended(lines))
  {
    hide Split;
    if lines == [] {
      OneLine("");
    } else {
      assert lines[0] in lines && forall x :: x in lines[1..] ==> x in lines;
      EndedSplits(lines[1..]);
      SplitConcat(lines[0], Ended(lines[1..]), '\n');
      OneLine(lines[0]);
      assert [lines[0]] + (lines[1..] + [""]) == lines + [""];
    }
  }

  lemma OneLine(s: string)
    requires '\n' !in s
    ensures Split(s, '\n') == [s]
  {
    SplitPrefix(s, "", '\n');
    assert s + "" == s;
  }

  lemma {:induction false} LinesAreOneLine(entries: seq<Entry>)
    requires forall e :: e in entries ==> Printable(e)
    ensures forall x :: x in AllLines(entries) ==> OneLineOnly(x)
  {
    hide GoodEnv;
    if entries != [] {
      var e := entries[0];
      assert e in entries && forall x :: x in entries[1..] ==> x in entries;
      LinesAreOneLine(entries[1..]);
      if e.Block? {
        forall c | c in e.delimiter ensures c in Header(e) {
        }
      }
    }
  }

  /** The printed lines, and the empty one behind the last line feed, spell the entries. */
  lemma {:induction false} LinesSpell(entries: seq<Entry>)
    requires forall e :: e in entries ==> Printable(e)
    ensures Spells(AllLines(entries) + [""], entries + [Blank], false)
  {
    hide Printable, LinesOf, Spells, StandsAt, Height;
    if entries == [] {
      OneBlankLine();
      assert AllLines(entries) + [""] == [""] && entries + [Blank] == [Blank];
    } else {
      var e, rest := entries[0], AllLines(entries[1..]) + [""];
      assert e in entries && forall x :: x in entries[1..] ==> x in entries;
      LinesSpell(entries[1..]);
      assert AllLines(entries) + [""] == LinesOf(e) + rest;
      EntryStands(e, rest);
      assert entries + [Blank] == [e] + (entries[1..] + [Blank]);
      SpellsNext(LinesOf(e) + rest, e, entries[1..] + [Blank], rest);
    }
  }

  lemma OneBlankLine()
    ensures Spells([""], [Blank], false)
  {
    assert [Blank][1..] == [] && [""][1..] == [];
  }

  lemma SpellsNext(lines: seq<string>, e: Entry, entries: seq<Entry>, rest: seq<string>)
    requires StandsAt(lines, e, false) && lines[Height(e)..] == rest && Spells(rest, entries, false)
    ensures Spells(lines, [e] + entries, false)
  {
    hide StandsAt;
    assert ([e] + entries)[1..] == entries;
  }

  lemma EntryStands(e: Entry, rest: seq<string>)
    requires Printable(e)
    ensures StandsAt(LinesOf(e) + rest, e, false) && (LinesOf(e) + rest)[Height(e)..] == rest
  {
    hide GoodEnv, OneLineOnly;
    if e.Block? {
      assert (LinesOf(e) + rest)[1..|e.body| + 1] == e.body;
    }
  }

  lemma {:induction false} OneMoreBlank(entries: seq<Entry>, values: Values)
    ensures Commands(entries + [Blank]) == Commands(entries) &&
        Assigned(entries + [Blank], values) == Assigned(entries, values)
    decreases |entries|
  {
    if entries == [] {
      assert ([Blank] + [])[1..] == [];
      assert entries + [Blank] == [Blank];
    } else {
      assert (entries + [Blank])[1..] == entries[1..] + [Blank];
      OneMoreBlank(entries[1..], Assign(entries[0], values));
    }
  }

  /** Printed entries, NAME=value lines and blocks, read back as the assignments from first to
      last, by both parsers; more commands than the limit are refused by the environment parser. */
  lemma FileRoundTrip(entries: seq<Entry>)
    requires forall e :: e in entries ==> Printable(e)
    ensures var contents := Print(entries); var lines := Split(DropReturns(contents), '\n');
            && ParseEnv(TrimAll(lines), 0, map[]) ==
               (if Commands(entries) <= MAX_ENTRIES then Ok(Assigned(entries, map[])) else Err(TooManyEntries))
            && (Commands(entries) <= MAX_ENTRIES ==> ParseOutput(lines, map[]) == Ok(Assigned(entries, map[])))
  {
    hide Printable, Split, DropReturns, ParseEnv, ParseOutput, Spells, GoodEnv;
    var contents := Print(entries);
    LinesAreOneLine(entries);
    EndedSplits(AllLines(entries));
    NothingDropped(contents);
    PlainLines(contents, '\n');
    NothingTrimmedIn(Split(contents, '\n'));
    LinesSpell(entries);
    PrintableAreGood(entries);
    EnvReadsAll(AllLines(entries) + [""], entries + [Blank], 0, map[]);
    OneMoreBlank(entries, map[]);
    if Commands(entries) <= MAX_ENTRIES {
      ParsersAgree(contents);
    }
  }

  lemma PrintableAreGood(entries: seq<Entry>)
    requires forall e :: e in entries ==> Printable(e)
    ensures forall e :: e in entries + [Blank] ==> GoodEnv(e)
  {
    hide ValidName, Size;
  }
}
