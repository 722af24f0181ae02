// The line processor of a job: masks, stop tokens, annotations and nested log sections.
module WorkflowCommands {
  import opened Text
  import opened Search
  import opened Redaction
  import opened Decimal
  import Syntax = CommandSyntax

  const MAX_MASKS: nat := 100
  const MAX_ANNOTATIONS: nat := 50
  const MAX_SECTIONS: nat := 100
  const MAX_DEPTH: nat := 32
  const MAX_NAME_SIZE: nat := 1024
  const MAX_MESSAGE_SIZE: nat := 4096
  const MAX_FIELD_SIZE: nat := 1024

  datatype Option<T> = None | Some(value: T)

  datatype Provider = GitHub | GitLab

  /** What a line is as a GitLab section marker. */
  datatype Marker =
    | NoMarker | BadMarker | StartMarker(name: string, header: string, collapsed: bool) | EndMarker(name: string)

  datatype Host = Host(syntax: Syntax.Host, marker: string -> Marker, wordy: char -> bool,
      sameFold: (string, string) -> bool)

  datatype Section = Section(id: string, name: string, matchName: string, provider: Provider, depth: nat,
      collapsed: bool)

  datatype Event = Start(section: Section) | End(section: Section)

  datatype Annotation = Annotation(level: string, message: string, title: string, file: string)

  /** The logged line, and what else the line meant. */
  datatype Outcome = Outcome(line: string, annotation: Option<Annotation>, event: Option<Event>, diagnostic: string)

  datatype State = State(masks: seq<string>, dynamicMasks: nat, stopToken: string, counts: map<string, nat>,
                         sections: map<string, seq<Section>>, sectionCount: map<string, nat>)

  // ------------------------------------------------------------------ masks

  /** strings.FieldsFunc(s, unicode.IsSpace); word is the field being read. */
  function Fields(s: string, word: string): (r: seq<string>)
    ensures "" !in r
  {
    if s == "" then (if word == "" then [] else [word])
    else if IsSpace(s[0]) then (if word == "" then [] else [word]) + Fields(s[1..], "")
    else Fields(s[1..], word + [s[0]])
  }

  /** The masks and their dynamic count after some candidates; whole says that none was refused. */
  datatype Masking = Masking(masks: seq<string>, dynamicMasks: nat, accepted: bool, whole: bool)

  function AddCandidates(masks: seq<string>, count: nat, candidates: seq<string>, dynamic: bool,
      accepted: bool): Masking
    decreases |candidates|
  {
    if candidates == [] then Masking(masks, count, accepted, true)
    else if candidates[0] in masks then AddCandidates(masks, count, candidates[1..], dynamic, true)
    else if dynamic && count >= MAX_MASKS then Masking(masks, count, accepted, false)
    else AddCandidates(masks + [candidates[0]], if dynamic then count + 1 else count, candidates[1..], dynamic, true)
  }

  /** addMaskLocked: the masks are sorted only when no candidate was refused. */
  function AddMask(s: State, value: string, dynamic: bool): (State, bool) {
    if value == "" || Size(value) > Syntax.MAX_COMMAND_BYTES then (s, false)
    else
      var m := AddCandidates(s.masks, s.dynamicMasks, [value] + Fields(value, ""), dynamic, false);
      (s.(masks := if m.whole then SortBySize(m.masks) else m.masks, dynamicMasks := m.dynamicMasks), m.accepted)
  }

  // ------------------------------------------------------ the words of a value

  /** s[i..j] is a longest piece of s without white space. */
  ghost predicate IsPiece(s: string, i: nat, j: nat) {
    && i < j <= |s|
    && (forall k :: i <= k < j ==> !IsSpace(s[k]))
    && (i == 0 || IsSpace(s[i - 1])) && (j == |s| || IsSpace(s[j]))
  }

  ghost predicate IsWordOf(s: string, x: string) {
    exists i: nat, j: nat :: PieceAt(s, i, j, x)
  }

  ghost predicate PieceAt(s: string, i: nat, j: nat, x: string) {
    IsPiece(s, i, j) && x == s[i..j]
  }

  ghost predicate Blankless(s: string) {
    forall k :: 0 <= k < |s| ==> !IsSpace(s[k])
  }

  /** The fields are the longest pieces without white space, the one being read included. */
  lemma {:induction false} FieldsAreWords(word: string, s: string, x: string)
    requires Blankless(word)
    ensures x in Fields(s, word) <==> IsWordOf(word + s, x)
    decreases |s|
  {
    if s == "" {
      assert word + s == word;
      OneWord(word, x);
    } else if IsSpace(s[0]) {
      FieldsAreWords("", s[1..], x);
      assert "" + s[1..] == s[1..];
      WordsBehind(word, s, x);
    } else {
      FieldsAreWords(word + [s[0]], s[1..], x);
      assert word + [s[0]] + s[1..] == word + s;
    }
  }

  lemma PieceFacts(s: string, i: nat, j: nat, x: string)
    requires PieceAt(s, i, j, x)
    ensures i < j <= |s| && IsPiece(s, i, j) && x == s[i..j]
  {
  }

  lemma OneWord(word: string, x: string)
    requires Blankless(word)
    ensures IsWordOf(word, x) <==> word != "" && x == word
  {
    if i: nat, j: nat :| PieceAt(word, i, j, x) {
      assert i == 0 && j == |word|;
      assert word[0..|word|] == word;
    }
    if word != "" && x == word {
      assert PieceAt(word, 0, |word|, x);
    }
  }

  /** A piece of a text with a blank in it is the word before the blank, or stands behind it. */
  lemma PieceIs(word: string, s: string, i: nat, j: nat)
    requires Blankless(word) && s != "" && IsSpace(s[0]) && IsPiece(word + s, i, j)
    ensures if i <= |word| then word != "" && (word + s)[i..j] == word
            else var n := |word| + 1;
                i - n >= 0 && IsPiece(s[1..], i - n, j - n) && s[1..][i - n..j - n] == (word + s)[i..j]
  {
    var all, n := word + s, |word| + 1;
    assert all[|word|] == s[0];
    if i <= |word| {
      assert i == 0 && j == |word|;
      assert all[0..|word|] == word;
    } else {
      assert all[n..] == s[1..];
      assert s[1..][i - n..j - n] == all[i..j];
      assert forall k :: 0 <= k < |s[1..]| ==> s[1..][k] == all[k + n];
    }
  }

  lemma PieceBehind(word: string, s: string, i: nat, j: nat)
    requires s != "" && IsSpace(s[0]) && IsPiece(s[1..], i, j)
    ensures var n := |word| + 1; IsPiece(word + s, i + n, j + n) && (word + s)[i + n..j + n] == s[1..][i..j]
  {
    var all, n := word + s, |word| + 1;
    assert all[n..] == s[1..] && all[|word|] == s[0];
    assert forall k :: 0 <= k < |s[1..]| ==> s[1..][k] == all[k + n];
  }

  lemma PieceBefore(word: string, s: string)
    requires Blankless(word) && s != "" && IsSpace(s[0]) && word != ""
    ensures IsPiece(word + s, 0, |word|) && (word + s)[0..|word|] == word
  {
    assert (word + s)[|word|] == s[0];
  }

  /** A word in front of a blank, and what stands behind the blank. */
  lemma WordsBehind(word: string, s: string, x: string)
    requires Blankless(word) && s != "" && IsSpace(s[0])
    ensures IsWordOf(word + s, x) <==> (word != "" && x == word) || IsWordOf(s[1..], x)
  {
    hide IsPiece, Blankless;
    if i: nat, j: nat :| PieceAt(word + s, i, j, x) {
      PieceFacts(word + s, i, j, x);
      PieceIs(word, s, i, j);
      if i > |word| {
        assert PieceAt(s[1..], i - |word| - 1, j - |word| - 1, x);
      }
    }
    if word != "" && x == word {
      PieceBefore(word, s);
      assert PieceAt(word + s, 0, |word|, x);
    }
    if i: nat, j: nat :| PieceAt(s[1..], i, j, x) {
      PieceFacts(s[1..], i, j, x);
      PieceBehind(word, s, i, j);
      assert PieceAt(word + s, i + |word| + 1, j + |word| + 1, x);
    }
  }

  /** The value and its words: what an add is to mask. */
  ghost predicate IsMaskOf(value: string, x: string) {
    x == value || IsWordOf(value, x)
  }

  ghost predicate GoodMasks(masks: seq<string>, count: nat) {
    Distinct(masks) && "" !in masks && count <= MAX_MASKS
  }

  lemma {:induction false} CandidatesKeepMasksGood(masks: seq<string>, count: nat, candidates: seq<string>,
      dynamic: bool, accepted: bool)
    requires GoodMasks(masks, count) && "" !in candidates
    ensures var m := AddCandidates(masks, count, candidates, dynamic, accepted);
            && GoodMasks(m.masks, m.dynamicMasks) && masks <= m.masks
            && (m.whole ==> forall c :: c in candidates ==> c in m.masks)
            && (forall x :: x in m.masks ==> x in masks || x in candidates)
            && (!m.whole ==> dynamic && m.dynamicMasks == MAX_MASKS)
            && m.dynamicMasks - count == if dynamic then |m.masks| - |masks| else 0
    decreases |candidates|
  {
    if candidates != [] {
      var c := candidates[0];
      assert candidates == [c] + candidates[1..];
      if c in masks {
        CandidatesKeepMasksGood(masks, count, candidates[1..], dynamic, true);
      } else if !(dynamic && count >= MAX_MASKS) {
        CandidatesKeepMasksGood(masks + [c], if dynamic then count + 1 else count, candidates[1..], dynamic, true);
        var m := AddCandidates(masks, count, candidates, dynamic, accepted);
        assert m.masks[..|masks|] == m.masks[..|masks| + 1][..|masks|] == masks;
        assert m.masks[|masks|] == (masks + [c])[|masks|] == c;
      }
    }
  }

  lemma SortKeepsGood(masks: seq<string>, count: nat)
    requires GoodMasks(masks, count)
    ensures GoodMasks(SortBySize(masks), count)
    ensures forall x :: x in SortBySize(masks) <==> x in masks
  {
    var r := SortBySize(masks);
    assert forall x :: x in r <==> x in multiset(r);
    assert forall x :: x in masks <==> x in multiset(masks);
    forall i, j | 0 <= i < j < |r| ensures r[i] != r[j] {
      if r[i] == r[j] {
        CountedTwice(r, i, j);
        DistinctCounts(masks, r[i]);
      }
    }
  }

  /** The masks that an add would bring. */
  ghost function NewMasks(masks: seq<string>, value: string): set<string> {
    set x | x in [value] + Fields(value, "") && x !in masks
  }

  lemma NewMasksAre(masks: seq<string>, value: string, x: string)
    ensures x in NewMasks(masks, value) <==> IsMaskOf(value, x) && x !in masks
    ensures x in [value] + Fields(value, "") <==> IsMaskOf(value, x)
  {
    FieldsAreWords("", value, x);
    assert "" + value == value;
  }

  /** Candidates are all taken in exactly if there is room for those that are new. */
  lemma {:induction false} WholeExactly(masks: seq<string>, count: nat, candidates: seq<string>, dynamic: bool,
      accepted: bool)
    requires count <= MAX_MASKS
    ensures var unseen := set x | x in candidates && x !in masks;
            AddCandidates(masks, count, candidates, dynamic, accepted).whole <==>
            !dynamic || count + |unseen| <= MAX_MASKS
    decreases |candidates|
  {
    var unseen := set x | x in candidates && x !in masks;
    if candidates == [] {
      assert unseen == {};
    } else {
      var c, rest := candidates[0], candidates[1..];
      assert candidates == [c] + rest;
      if c in masks {
        assert unseen == set x | x in rest && x !in masks;
        WholeExactly(masks, count, rest, dynamic, true);
      } else {
        var later := set x | x in rest && x !in masks + [c];
        assert unseen == later + {c} && c !in later;
        if !(dynamic && count >= MAX_MASKS) {
          WholeExactly(masks + [c], if dynamic then count + 1 else count, rest, dynamic, true);
        }
      }
    }
  }

  predicate Maskable(value: string) {
    value != "" && Size(value) <= Syntax.MAX_COMMAND_BYTES
  }

  /** There is room for the value and its words. */
  ghost predicate Fits(s: State, value: string, dynamic: bool) {
    && Maskable(value)
    && (dynamic ==> s.dynamicMasks + |NewMasks(s.masks, value)| <= MAX_MASKS)
  }

  /** After an add there is room for, the masks are those before, the value and its words, each
      longest piece without white space; they are sorted by falling length. */
  lemma AddMaskExactly(s: State, value: string, dynamic: bool)
    requires GoodMasks(s.masks, s.dynamicMasks) && Fits(s, value, dynamic)
    ensures var (r, accepted) := AddMask(s, value, dynamic);
            && accepted && (forall x :: x in r.masks <==> x in s.masks || IsMaskOf(value, x)) && Descending(r.masks)
            && r.dynamicMasks == s.dynamicMasks + (if dynamic then |NewMasks(s.masks, value)| else 0)
            && r == s.(masks := r.masks, dynamicMasks := r.dynamicMasks)
  {
    hide Size, Fields, IsMaskOf;
    var candidates := [value] + Fields(value, "");
    forall x ensures x in candidates <==> IsMaskOf(value, x) {
      NewMasksAre(s.masks, value, x);
    }
    CandidatesKeepMasksGood(s.masks, s.dynamicMasks, candidates, dynamic, false);
    WholeExactly(s.masks, s.dynamicMasks, candidates, dynamic, false);
    var m := AddCandidates(s.masks, s.dynamicMasks, candidates, dynamic, false);
    CandidatesAccepted(s.masks, s.dynamicMasks, candidates, dynamic, false);
    SortKeepsGood(m.masks, m.dynamicMasks);
    SortDescends(m.masks);
    CountNew(s.masks, m.masks, NewMasks(s.masks, value));
  }

  lemma {:induction false} CandidatesAccepted(masks: seq<string>, count: nat, candidates: seq<string>, dynamic: bool,
      accepted: bool)
    requires candidates != [] || accepted
    ensures var m := AddCandidates(masks, count, candidates, dynamic, accepted); m.whole ==> m.accepted
    decreases |candidates|
  {
    if candidates != [] {
      var c := candidates[0];
      if c in masks {
        CandidatesAccepted(masks, count, candidates[1..], dynamic, true);
      } else if !(dynamic && count >= MAX_MASKS) {
        CandidatesAccepted(masks + [c], if dynamic then count + 1 else count, candidates[1..], dynamic, true);
      }
    }
  }

  lemma CountNew(masks: seq<string>, longer: seq<string>, unseen: set<string>)
    requires Distinct(longer) && masks <= longer
    requires forall x :: x in unseen <==> x in longer && x !in masks
    ensures |longer| - |masks| == |unseen|
  {
    var rest := longer[|masks|..];
    assert longer == masks + rest;
    forall x ensures x in rest <==> x in unseen {
      if x in rest {
        var j :| 0 <= j < |rest| && rest[j] == x;
        assert longer[j + |masks|] == x;
        assert x !in masks;
      }
    }
    DistinctSize(rest);
    assert Elements(rest) == unseen;
  }

  /** Masks stay distinct, and the dynamic ones few, also where there is no room. */
  lemma AddMaskKeepsGood(s: State, value: string, dynamic: bool)
    requires GoodMasks(s.masks, s.dynamicMasks)
    ensures var r := AddMask(s, value, dynamic).0;
            && GoodMasks(r.masks, r.dynamicMasks)
            && (forall x :: x in s.masks ==> x in r.masks)
            && (forall x :: x in r.masks ==> x in s.masks || IsMaskOf(value, x))
            && (!dynamic && value != "" && Size(value) <= Syntax.MAX_COMMAND_BYTES ==>
                value in r.masks && Descending(r.masks))
            && (r.dynamicMasks < MAX_MASKS && r != s ==> Descending(r.masks))
  {
    hide Size, Fields, IsMaskOf;
    if value != "" && Size(value) <= Syntax.MAX_COMMAND_BYTES {
      var candidates := [value] + Fields(value, "");
      forall x ensures x in candidates <==> IsMaskOf(value, x) {
        NewMasksAre(s.masks, value, x);
      }
      CandidatesKeepMasksGood(s.masks, s.dynamicMasks, candidates, dynamic, false);
      var m := AddCandidates(s.masks, s.dynamicMasks, candidates, dynamic, false);
      SortKeepsGood(m.masks, m.dynamicMasks);
      SortDescends(m.masks);
      assert value in candidates;
    }
  }

  // --------------------------------------------------------------- sections

  /** Behind the parameters of a control sequence and its final byte. */
  function AfterControl(s: string): string {
    if s == "" then "" else if '@' <= s[0] <= '~' then s[1..] else AfterControl(s[1..])
  }

  lemma {:induction false} AfterControlShrinks(s: string)
    ensures |AfterControl(s)| <= |s|
  {
    if s != "" && !('@' <= s[0] <= '~') {
      AfterControlShrinks(s[1..]);
    }
  }

  /** stripANSIControl. */
  function StripControl(s: string): string
    decreases |s|
  {
    if s == "" then ""
    else if s[0] == '\U{1B}' && |s| > 1 && s[1] == '[' then
      AfterControlShrinks(s[2..]);
      StripControl(AfterControl(s[2..]))
    else (if s[0] != '\r' && (s[0] >= ' ' || s[0] == '\t') then [s[0]] else "") + StripControl(s[1..])
  }

  function Stack(s: State, step: string): seq<Section> {
    if step in s.sections then s.sections[step] else []
  }

  function Count(counts: map<string, nat>, step: string): nat {
    if step in counts then counts[step] else 0
  }

  function SectionID(step: string, n: nat): string {
    step + ":section:" + Digits(n)
  }

  /** startSectionLocked; None for an error. */
  function StartSection(s: State, step: string, provider: Provider, matchName: string, displayName: string,
      collapsed: bool)
    : (State, Option<Event>)
  {
    var display := Trim(Redact(s.masks, StripControl(displayName)));
    var wanted := Trim(StripControl(matchName));
    var stack, n := Stack(s, step), Count(s.sectionCount, step);
    if display == "" || wanted == "" || Size(display) > MAX_NAME_SIZE || Size(wanted) > MAX_NAME_SIZE then (s, None)
    else if |stack| >= MAX_DEPTH || n >= MAX_SECTIONS then (s, None)
    else
      var section := Section(SectionID(step, n + 1), display, wanted, provider, |stack|, collapsed);
      (s.(sectionCount := s.sectionCount[step := n + 1], sections := s.sections[step := stack + [section]]),
          Some(Start(section)))
  }

  /** endSectionLocked. */
  function EndSection(s: State, step: string, provider: Provider, matchName: string): (State, Option<Event>) {
    var stack := Stack(s, step);
    if stack == [] then (s, None)
    else
      var section := stack[|stack| - 1];
      if section.provider != provider || (matchName != "" && section.matchName != matchName) then (s, None)
      else (s.(sections := s.sections[step := stack[..|stack| - 1]]), Some(End(section)))
  }

  // ------------------------------------------------------------ annotations

  function PropertyOf(c: Syntax.Command, key: string): string {
    if key in c.properties then c.properties[key] else ""
  }

  predicate PositionOk(h: Host, c: Syntax.Command, key: string) {
    Trim(PropertyOf(c, key)) == "" || h.syntax.position(Trim(PropertyOf(c, key)))
  }

  /** annotationLocked, without the numbers the positions come to. */
  function Annotate(h: Host, s: State, c: Syntax.Command): Option<Annotation> {
    var title, file := Redact(s.masks, PropertyOf(c, "title")), Redact(s.masks, PropertyOf(c, "file"));
    if Trim(c.data) == "" || Size(c.data) > MAX_MESSAGE_SIZE then None
    else if Size(title) > MAX_FIELD_SIZE || Size(file) > MAX_FIELD_SIZE then None
    else if !PositionOk(h, c, "line") || !PositionOk(h, c, "endline") || !PositionOk(h, c, "col") ||
        !PositionOk(h, c, "endcolumn") then None
    else Some(Annotation(c.name, Redact(s.masks, c.data), title, if file == "" then ".github" else file))
  }

  // ------------------------------------------------------------------ lines

  function Plain(line: string): Outcome {
    Outcome(line, None, None, "")
  }

  function Ignored(line: string, diagnostic: string): Outcome {
    Outcome(line, None, None, "workflow command ignored: " + diagnostic)
  }

  function Marked(event: Event): Outcome {
    Outcome(event.section.name, None, Some(event), "")
  }

  predicate Supported(name: string) {
    name in {"add-mask", "stop-commands", "notice", "warning", "error", "group", "endgroup"}
  }

  function NameEnd(s: string): (i: nat)
    ensures i <= |s|
  {
    if s == "" || s[0] == ' ' || s[0] == ':' || s[0] == '\t' then 0 else 1 + NameEnd(s[1..])
  }

  /** workflowCommandName of a line that starts with two colons. */
  function NameOf(h: Host, line: string): string
    requires "::" <= line
  {
    h.syntax.lower(Trim(line[2..][..NameEnd(line[2..])]))
  }

  predicate ValidStopToken(h: Host, token: string) {
    token != "" && Size(token) <= 128 && forall i :: 0 <= i < |token| ==>
        h.wordy(token[i]) || token[i] == '-' || token[i] == '_'
  }

  function ProcessMarker(s: State, step: string, marker: Marker, line: string): (State, Outcome) {
    if marker.BadMarker? then (s, Ignored("gitlab section marker ignored", "invalid GitLab log section marker"))
    else
      var (t, event) :=
        match marker
        case StartMarker(name, header, collapsed) => StartSection(s, step, GitLab, name, header, collapsed)
        case EndMarker(name) => EndSection(s, step, GitLab, name)
        case _ => (s, None);
      if event.None? then (s, Ignored("gitlab section marker ignored", "invalid GitLab log section nesting"))
      else (t, Marked(event.value))
  }

  function ProcessGroup(s: State, step: string, c: Syntax.Command): (State, Outcome) {
    if c.name == "group" then
      var (t, event) := StartSection(s, step, GitHub, c.data, c.data, false);
      if event.None? then (s, Ignored("github log group ignored", "invalid GitHub log group"))
          else (t, Marked(event.value))
    else
      var (t, event) := EndSection(s, step, GitHub, "");
      if event.None? then (s, Ignored("github log group ignored", "unmatched GitHub endgroup"))
          else (t, Marked(event.value))
  }

  function ProcessAnnotation(h: Host, s: State, step: string, c: Syntax.Command, redacted: string): (State, Outcome) {
    if Count(s.counts, step) >= MAX_ANNOTATIONS then (s, Ignored(redacted, "step annotation limit reached"))
    else
      var annotation := Annotate(h, s, c);
      if annotation.None? then (s, Ignored(redacted, "invalid annotation"))
      else (s.(counts := s.counts[step := Count(s.counts, step) + 1]), Outcome(redacted, annotation, None, ""))
  }

  function ProcessCommand(h: Host, s: State, step: string, c: Syntax.Command, redacted: string): (State, Outcome) {
    if c.name == "add-mask" then
      var (t, accepted) := AddMask(s, c.data, true);
      (t, if accepted then Plain("::add-mask::***")
          else Ignored("::add-mask::***", "mask is empty or the job mask limit was reached"))
    else if c.name == "stop-commands" then
      if !ValidStopToken(h, c.data) then (s, Ignored("::stop-commands::***", "invalid stop token"))
      else
        var t := s.(stopToken := c.data);
        (if Size(c.data) > 6 then AddMask(t, c.data, false).0 else t, Plain("::stop-commands::***"))
    else if c.name in {"notice", "warning", "error"} then ProcessAnnotation(h, s, step, c, redacted)
    else if c.name in {"group", "endgroup"} then ProcessGroup(s, step, c)
    else (s, Plain(redacted))
  }

  function ProcessMalformed(h: Host, line: string, redacted: string): Outcome
    requires "::" <= line
  {
    var name := NameOf(h, line);
    if !Supported(name) then Plain(redacted)
    else
      Ignored(if name == "add-mask" || name == "stop-commands" then "::" + name + "::***" else redacted,
              "malformed or oversized command")
  }

  /** process, one line of one step. */
  function Process(h: Host, s: State, step: string, stdout: bool, line: string): (State, Outcome) {
    var redacted := Redact(s.masks, line);
    if !stdout then (s, Plain(redacted))
    else if s.stopToken != "" then
      if h.sameFold(line, "::" + s.stopToken + "::") then (s.(stopToken := ""), Plain("::***::"))
          else (s, Plain(redacted))
    else if !h.marker(line).NoMarker? then ProcessMarker(s, step, h.marker(line), line)
    else
      match Syntax.Parse(h.syntax, line)
      case NoCommand => (s, Plain(redacted))
      case Malformed => (s, if "::" <= line then ProcessMalformed(h, line, redacted) else Plain(redacted))
      case Parsed(command) => ProcessCommand(h, s, step, command, redacted)
  }

  // -------------------------------------------------------------- invariant

  /** The open sections of a step: each at its depth, numbered upwards. */
  ghost predicate GoodStack(step: string, stack: seq<Section>, count: nat) {
    && |stack| <= MAX_DEPTH && count <= MAX_SECTIONS
    && (forall i :: 0 <= i < |stack| ==> stack[i].depth == i && Numbered(step, stack[i], count))
    && forall i, j :: 0 <= i < j < |stack| ==> stack[i].id != stack[j].id
  }

  ghost predicate Numbered(step: string, section: Section, count: nat) {
    exists n :: 1 <= n <= count && section.id == SectionID(step, n)
  }

  ghost predicate Valid(s: State) {
    && GoodMasks(s.masks, s.dynamicMasks)
    && (forall step :: step in s.counts ==> s.counts[step] <= MAX_ANNOTATIONS)
    && forall step :: GoodStack(step, Stack(s, step), Count(s.sectionCount, step))
  }

  lemma SectionIDInjective(step: string, n: nat, m: nat)
    requires SectionID(step, n) == SectionID(step, m)
    ensures n == m
  {
    var prefix := step + ":section:";
    assert Digits(n) == SectionID(step, n)[|prefix|..] && Digits(m) == SectionID(step, m)[|prefix|..];
    DigitsInjective(n, m);
  }

  /** A new number is the id of no section numbered before. */
  lemma FreshID(step: string, section: Section, count: nat, n: nat)
    requires Numbered(step, section, count) && n > count
    ensures section.id != SectionID(step, n)
  {
    var m :| 1 <= m <= count && section.id == SectionID(step, m);
    if section.id == SectionID(step, n) {
      SectionIDInjective(step, n, m);
    }
  }

  lemma StartKeepsValid(s: State, step: string, provider: Provider, matchName: string, displayName: string,
      collapsed: bool)
    requires Valid(s)
    ensures Valid(StartSection(s, step, provider, matchName, displayName, collapsed).0)
  {
    hide SectionID, StripControl, Redact, Trim, Size, GoodMasks;
    var t := StartSection(s, step, provider, matchName, displayName, collapsed).0;
    var stack, n := Stack(s, step), Count(s.sectionCount, step);
    assert GoodStack(step, stack, n);
    if t != s {
      forall i | 0 <= i < |stack| ensures stack[i].id != SectionID(step, n + 1) && Numbered(step, stack[i], n + 1) {
        FreshID(step, stack[i], n, n + 1);
      }
      assert Numbered(step, Stack(t, step)[|stack|], n + 1);
      assert GoodStack(step, Stack(t, step), n + 1);
      forall other ensures GoodStack(other, Stack(t, other), Count(t.sectionCount, other)) {
        assert GoodStack(other, Stack(s, other), Count(s.sectionCount, other));
      }
    }
  }

  lemma EndKeepsValid(s: State, step: string, provider: Provider, matchName: string)
    requires Valid(s)
    ensures Valid(EndSection(s, step, provider, matchName).0)
  {
    hide SectionID, GoodMasks, Numbered;
    var t := EndSection(s, step, provider, matchName).0;
    forall other ensures GoodStack(other, Stack(t, other), Count(t.sectionCount, other)) {
      assert GoodStack(other, Stack(s, other), Count(s.sectionCount, other));
    }
  }

  lemma MasksKeepValid(s: State, value: string, dynamic: bool)
    requires Valid(s)
    ensures Valid(AddMask(s, value, dynamic).0)
  {
    hide GoodStack, GoodMasks, AddCandidates, SortBySize, Fields, Size;
    AddMaskKeepsGood(s, value, dynamic);
    var t := AddMask(s, value, dynamic).0;
    forall other ensures GoodStack(other, Stack(t, other), Count(t.sectionCount, other)) {
      assert GoodStack(other, Stack(s, other), Count(s.sectionCount, other));
    }
  }

  lemma SameButToken(s: State, t: State)
    requires Valid(s) && t == s.(stopToken := t.stopToken, counts := t.counts)
    requires forall step :: step in t.counts ==> t.counts[step] <= MAX_ANNOTATIONS
    ensures Valid(t)
  {
    hide GoodStack, GoodMasks;
    forall other ensures GoodStack(other, Stack(t, other), Count(t.sectionCount, other)) {
      assert GoodStack(other, Stack(s, other), Count(s.sectionCount, other));
    }
  }

  lemma CountsBounded(s: State)
    requires Valid(s)
    ensures forall step :: step in s.counts ==> s.counts[step] <= MAX_ANNOTATIONS
  {
  }

  lemma MarkerKeepsValid(s: State, step: string, marker: Marker, line: string)
    requires Valid(s)
    ensures Valid(ProcessMarker(s, step, marker, line).0)
  {
    hide Valid, StartSection, EndSection;
    match marker
    case StartMarker(name, header, collapsed) => StartKeepsValid(s, step, GitLab, name, header, collapsed);
    case EndMarker(name) => EndKeepsValid(s, step, GitLab, name);
    case _ =>
  }

  lemma GroupKeepsValid(s: State, step: string, c: Syntax.Command)
    requires Valid(s)
    ensures Valid(ProcessGroup(s, step, c).0)
  {
    hide Valid, StartSection, EndSection;
    StartKeepsValid(s, step, GitHub, c.data, c.data, false);
    EndKeepsValid(s, step, GitHub, "");
  }

  lemma AnnotationKeepsValid(h: Host, s: State, step: string, c: Syntax.Command, redacted: string)
    requires Valid(s)
    ensures Valid(ProcessAnnotation(h, s, step, c, redacted).0)
  {
    hide Valid, Annotate;
    CountsBounded(s);
    var t := ProcessAnnotation(h, s, step, c, redacted).0;
    SameButToken(s, t);
  }

  lemma CommandKeepsValid(h: Host, s: State, step: string, c: Syntax.Command, redacted: string)
    requires Valid(s)
    ensures Valid(ProcessCommand(h, s, step, c, redacted).0)
  {
    hide Valid, ProcessGroup, ProcessAnnotation, AddMask, ValidStopToken, Size;
    CountsBounded(s);
    if c.name == "add-mask" {
      MasksKeepValid(s, c.data, true);
    } else if c.name == "stop-commands" {
      var t := s.(stopToken := c.data);
      SameButToken(s, t);
      MasksKeepValid(t, c.data, false);
    } else {
      AnnotationKeepsValid(h, s, step, c, redacted);
      GroupKeepsValid(s, step, c);
    }
  }

  /** Every line keeps the limits, the distinct masks and the well-formed stacks. */
  lemma ProcessKeepsValid(h: Host, s: State, step: string, stdout: bool, line: string)
    requires Valid(s)
    ensures Valid(Process(h, s, step, stdout, line).0)
  {
    hide Valid, ProcessMarker, ProcessCommand, ProcessMalformed, Redact, Syntax.Parse;
    CountsBounded(s);
    if stdout && s.stopToken != "" {
      SameButToken(s, s.(stopToken := ""));
    } else if stdout {
      MarkerKeepsValid(s, step, h.marker(line), line);
      var parsed := Syntax.Parse(h.syntax, line);
      if parsed.Parsed? {
        CommandKeepsValid(h, s, step, parsed.command, Redact(s.masks, line));
      }
    }
  }

  // -------------------------------------------------------------- whole runs

  datatype Input = Input(step: string, stdout: bool, line: string)

  /** The state after some lines of a job, and what each line came to. */
  function Run(h: Host, s: State, inputs: seq<Input>): (r: (State, seq<Outcome>))
    ensures |r.1| == |inputs|
  {
    if inputs == [] then (s, [])
    else
      var n := |inputs| - 1;
      var (t, outcomes) := Run(h, s, inputs[..n]);
      var (u, outcome) := Process(h, t, inputs[n].step, inputs[n].stdout, inputs[n].line);
      (u, outcomes + [outcome])
  }

  lemma {:induction false} RunKeepsValid(h: Host, s: State, inputs: seq<Input>)
    requires Valid(s)
    ensures Valid(Run(h, s, inputs).0)
  {
    hide Valid, Process;
    if inputs != [] {
      var n := |inputs| - 1;
      RunKeepsValid(h, s, inputs[..n]);
      ProcessKeepsValid(h, Run(h, s, inputs[..n]).0, inputs[n].step, inputs[n].stdout, inputs[n].line);
    }
  }

  /** Between a stop token and its return nothing is a command: the lines are logged, redacted,
      and nothing changes. */
  lemma {:induction false} StoppedLinesDoNothing(h: Host, s: State, inputs: seq<Input>)
    requires s.stopToken != ""
    requires forall i :: i in inputs && i.stdout ==> !h.sameFold(i.line, "::" + s.stopToken + "::")
    ensures Run(h, s, inputs).0 == s
    ensures forall n :: 0 <= n < |inputs| ==> Run(h, s, inputs).1[n] == Plain(Redact(s.masks, inputs[n].line))
  {
    hide Redact, ProcessMarker, ProcessCommand, ProcessMalformed, Syntax.Parse;
    if inputs != [] {
      var n := |inputs| - 1;
      assert inputs[n] in inputs;
      StoppedLinesDoNothing(h, s, inputs[..n]);
    }
  }

  /** A line stands in the log without any mask of the moment, unless it is one of the fixed
      texts, or closes a section, whose name was redacted when the section was opened. */
  predicate FixedLine(line: string) {
    line in {"::add-mask::***", "::stop-commands::***", "::***::", "gitlab section marker ignored",
        "github log group ignored"}
  }

  lemma {:induction false} TrimIsPiece(s: string) returns (lo: nat, hi: nat)
    ensures lo <= hi <= |s| && Trim(s) == s[lo..hi]
    decreases |s|
  {
    if s != "" && IsSpace(s[0]) {
      lo, hi := TrimIsPiece(s[1..]);
      assert s[1..][lo..hi] == s[lo + 1..hi + 1];
      lo, hi := lo + 1, hi + 1;
    } else if s != "" && IsSpace(s[|s| - 1]) {
      lo, hi := TrimIsPiece(s[..|s| - 1]);
      assert s[..|s| - 1][lo..hi] == s[lo..hi];
    } else {
      lo, hi := 0, |s|;
    }
  }

  lemma TrimmedContains(s: string, x: string)
    ensures Contains(Trim(s), x) ==> Contains(s, x)
  {
    var lo, hi := TrimIsPiece(s);
    if Contains(Trim(s), x) {
      PieceContains(s, lo, hi, x);
    }
  }

  predicate Redacted(o: Outcome, mask: string) {
    FixedLine(o.line) || (o.event.Some? && o.event.value.End?) || !Contains(o.line, mask)
  }

  /** No logged line shows a mask of the moment. */
  lemma LoggedLinesAreRedacted(h: Host, s: State, step: string, stdout: bool, line: string, mask: string)
    requires mask in s.masks && mask != "" && Firm(mask)
    ensures Redacted(Process(h, s, step, stdout, line).1, mask)
  {
    hide Redact, Contains, Syntax.Parse, ProcessMarker, ProcessCommand, ProcessMalformed;
    RedactionIsComplete(s.masks, line, mask);
    if stdout && s.stopToken == "" {
      if h.marker(line).NoMarker? {
        var parsed := Syntax.Parse(h.syntax, line);
        if parsed.Parsed? {
          CommandRedacted(h, s, step, parsed.command, Redact(s.masks, line), mask);
        } else if "::" <= line {
          MalformedRedacted(h, line, Redact(s.masks, line), mask);
        }
      } else {
        MarkerRedacted(s, step, h.marker(line), line, mask);
      }
    }
  }

  lemma MalformedRedacted(h: Host, line: string, redacted: string, mask: string)
    requires "::" <= line && !Contains(redacted, mask)
    ensures Redacted(ProcessMalformed(h, line, redacted), mask)
  {
    hide Contains;
    assert "::" + "add-mask" + "::***" == "::add-mask::***";
    assert "::" + "stop-commands" + "::***" == "::stop-commands::***";
  }

  lemma MarkerRedacted(s: State, step: string, marker: Marker, line: string, mask: string)
    requires mask in s.masks && mask != "" && Firm(mask) && !marker.NoMarker?
    ensures Redacted(ProcessMarker(s, step, marker, line).1, mask)
  {
    hide Contains, StartSection, EndSection;
    match marker
    case StartMarker(name, header, collapsed) => StartIsRedacted(s, step, GitLab, name, header, collapsed, mask);
    case EndMarker(name) => EndIsEnd(s, step, GitLab, name);
    case _ =>
  }

  lemma CommandRedacted(h: Host, s: State, step: string, c: Syntax.Command, redacted: string, mask: string)
    requires mask in s.masks && mask != "" && Firm(mask) && !Contains(redacted, mask)
    ensures Redacted(ProcessCommand(h, s, step, c, redacted).1, mask)
  {
    hide Contains, StartSection, EndSection, Annotate, AddMask, ValidStopToken, Size;
    if c.name in {"group", "endgroup"} {
      StartIsRedacted(s, step, GitHub, c.data, c.data, false, mask);
      EndIsEnd(s, step, GitHub, "");
    }
  }

  lemma StartIsRedacted(s: State, step: string, provider: Provider, matchName: string, displayName: string,
      collapsed: bool, mask: string)
    requires mask in s.masks && mask != "" && Firm(mask)
    ensures var event := StartSection(s, step, provider, matchName, displayName, collapsed).1;
            event.Some? ==> event.value.Start? && !Contains(event.value.section.name, mask)
  {
    hide Contains, Redact, Trim, StripControl, Size;
    RedactionIsComplete(s.masks, StripControl(displayName), mask);
    TrimmedContains(Redact(s.masks, StripControl(displayName)), mask);
  }

  lemma EndIsEnd(s: State, step: string, provider: Provider, matchName: string)
    ensures var event := EndSection(s, step, provider, matchName).1; event.Some? ==> event.value.End?
  {
  }

  // ----------------------------------------------- what a line does to the sections

  /** What one line does to the sections of its step and of every other. */
  ghost predicate SectionsMoved(s: State, t: State, step: string, o: Outcome) {
    var stack, n := Stack(s, step), Count(s.sectionCount, step);
    && (forall other :: other != step ==>
        Stack(t, other) == Stack(s, other) && Count(t.sectionCount, other) == Count(s.sectionCount, other))
    && (o.event.Some? ==> o.diagnostic == "" && o.line == o.event.value.section.name)
    && if o.event.None? then Stack(t, step) == stack && Count(t.sectionCount, step) == n
       else
         var section := o.event.value.section;
         if o.event.value.Start? then
           && Stack(t, step) == stack + [section] && Count(t.sectionCount, step) == n + 1
           && section.depth == |stack| && section.id == SectionID(step, n + 1)
         else
           && stack != [] && section == stack[|stack| - 1]
           && Stack(t, step) == stack[..|stack| - 1] && Count(t.sectionCount, step) == n
  }

  lemma StartMoves(s: State, step: string, provider: Provider, matchName: string, displayName: string, collapsed: bool)
    ensures var (t, event) := StartSection(s, step, provider, matchName, displayName, collapsed);
            if event.Some? then SectionsMoved(s, t, step, Marked(event.value)) else t == s
  {
    hide SectionID, Size, Trim, StripControl, Redact;
  }

  lemma EndMoves(s: State, step: string, provider: Provider, matchName: string)
    ensures var (t, event) := EndSection(s, step, provider, matchName);
            if event.Some? then SectionsMoved(s, t, step, Marked(event.value)) else t == s
  {
    hide SectionID;
  }

  lemma SameSections(s: State, t: State, step: string, o: Outcome)
    requires t.sections == s.sections && t.sectionCount == s.sectionCount && o.event.None?
    ensures SectionsMoved(s, t, step, o)
  {
    hide SectionID;
  }

  lemma MasksKeepSections(s: State, value: string, dynamic: bool)
    ensures var t := AddMask(s, value, dynamic).0; t.sections == s.sections && t.sectionCount == s.sectionCount
  {
    hide AddCandidates;
  }

  lemma MarkerMoves(s: State, step: string, marker: Marker, line: string)
    ensures var (t, o) := ProcessMarker(s, step, marker, line); SectionsMoved(s, t, step, o)
  {
    hide SectionsMoved, StartSection, EndSection;
    var (t, o) := ProcessMarker(s, step, marker, line);
    if o.event.None? {
      SameSections(s, t, step, o);
    } else if marker.StartMarker? {
      StartMoves(s, step, GitLab, marker.name, marker.header, marker.collapsed);
      assert o == Marked(StartSection(s, step, GitLab, marker.name, marker.header, marker.collapsed).1.value);
    } else {
      EndMoves(s, step, GitLab, marker.name);
      assert o == Marked(EndSection(s, step, GitLab, marker.name).1.value);
    }
  }

  lemma GroupMoves(s: State, step: string, c: Syntax.Command)
    ensures var (t, o) := ProcessGroup(s, step, c); SectionsMoved(s, t, step, o)
  {
    hide SectionsMoved, StartSection, EndSection;
    var (t, o) := ProcessGroup(s, step, c);
    if o.event.None? {
      SameSections(s, t, step, o);
    } else if c.name == "group" {
      StartMoves(s, step, GitHub, c.data, c.data, false);
      assert o == Marked(StartSection(s, step, GitHub, c.data, c.data, false).1.value);
    } else {
      EndMoves(s, step, GitHub, "");
      assert o == Marked(EndSection(s, step, GitHub, "").1.value);
    }
  }

  lemma CommandMoves(h: Host, s: State, step: string, c: Syntax.Command, redacted: string)
    ensures var (t, o) := ProcessCommand(h, s, step, c, redacted); SectionsMoved(s, t, step, o)
  {
    hide SectionsMoved, ProcessGroup, AddMask, Annotate, ValidStopToken;
    var (t, o) := ProcessCommand(h, s, step, c, redacted);
    MasksKeepSections(s, c.data, true);
    MasksKeepSections(s.(stopToken := c.data), c.data, false);
    GroupMoves(s, step, c);
    if !(c.name in {"group", "endgroup"}) {
      assert t.sections == s.sections && t.sectionCount == s.sectionCount;
      SameSections(s, t, step, o);
    }
  }

  lemma LineMoves(h: Host, s: State, step: string, stdout: bool, line: string)
    ensures var (t, o) := Process(h, s, step, stdout, line); SectionsMoved(s, t, step, o)
  {
    hide SectionsMoved, ProcessMarker, ProcessCommand, ProcessMalformed, Syntax.Parse;
    var (t, o) := Process(h, s, step, stdout, line);
    if stdout && s.stopToken == "" {
      var parsed := Syntax.Parse(h.syntax, line);
      if !h.marker(line).NoMarker? {
        MarkerMoves(s, step, h.marker(line), line);
      } else if parsed.Parsed? {
        CommandMoves(h, s, step, parsed.command, Redact(s.masks, line));
      } else {
        MalformedIsPlain(h, line, Redact(s.masks, line));
        SameSections(s, t, step, o);
      }
    } else {
      SameSections(s, t, step, o);
    }
  }

  lemma MalformedIsPlain(h: Host, line: string, redacted: string)
    ensures "::" <= line ==> ProcessMalformed(h, line, redacted).event.None?
  {
  }

  // -------------------------------------------------- redaction over whole runs

  /** Line n of the run, processed in the state the lines before it leave. */
  function LineAt(h: Host, s: State, inputs: seq<Input>, n: nat): Outcome
    requires n < |inputs|
  {
    Process(h, Run(h, s, inputs[..n]).0, inputs[n].step, inputs[n].stdout, inputs[n].line).1
  }

  lemma {:induction false} OutcomeIs(h: Host, s: State, inputs: seq<Input>, n: nat)
    requires n < |inputs|
    ensures Run(h, s, inputs).1[n] == LineAt(h, s, inputs, n)
  {
    hide Process;
    var last := |inputs| - 1;
    if n < last {
      OutcomeIs(h, s, inputs[..last], n);
      assert inputs[..last][..n] == inputs[..n];
    }
  }

  /** The line opened the section, whose name showed no firm mask present then. */
  ghost predicate OpenedAt(h: Host, s: State, inputs: seq<Input>, m: nat, step: string, section: Section)
    requires m < |inputs|
  {
    && inputs[m].step == step && LineAt(h, s, inputs, m).event == Some(Start(section))
    && Hides(Run(h, s, inputs[..m]).0.masks, section.name)
  }

  ghost predicate Hides(masks: seq<string>, line: string) {
    forall mask :: mask in masks && mask != "" && Firm(mask) ==> !Contains(line, mask)
  }

  ghost predicate OpenedBefore(h: Host, s: State, inputs: seq<Input>, n: nat, step: string, section: Section)
    requires n <= |inputs|
  {
    exists m: nat :: m < n && OpenedAt(h, s, inputs, m, step, section)
  }

  lemma EarlierPart(h: Host, s: State, inputs: seq<Input>, k: nat, step: string, section: Section)
    requires k <= |inputs| && OpenedBefore(h, s, inputs[..k], k, step, section)
    ensures OpenedBefore(h, s, inputs, k, step, section)
  {
    hide Process, Hides;
    var m: nat :| m < k && OpenedAt(h, s, inputs[..k], m, step, section);
    assert inputs[..k][..m] == inputs[..m];
    assert OpenedAt(h, s, inputs, m, step, section);
  }

  lemma LineHides(h: Host, s: State, step: string, stdout: bool, line: string)
    ensures var o := Process(h, s, step, stdout, line).1;
            !FixedLine(o.line) && (o.event.None? || o.event.value.Start?) ==> Hides(s.masks, o.line)
  {
    hide Process, Contains, Firm, FixedLine;
    var o := Process(h, s, step, stdout, line).1;
    forall mask | mask in s.masks && mask != "" && Firm(mask) ensures Redacted(o, mask) {
      LoggedLinesAreRedacted(h, s, step, stdout, line, mask);
    }
  }

  /** The name of a section that is opened shows no firm mask of the moment. */
  ghost predicate OpensHidden(masks: seq<string>, o: Outcome) {
    o.event.Some? && o.event.value.Start? ==> Hides(masks, o.event.value.section.name)
  }

  lemma StartHides(s: State, step: string, provider: Provider, matchName: string, displayName: string, collapsed: bool)
    ensures var event := StartSection(s, step, provider, matchName, displayName, collapsed).1;
            event.Some? ==> OpensHidden(s.masks, Marked(event.value))
  {
    hide Contains, Firm, StartSection;
    var event := StartSection(s, step, provider, matchName, displayName, collapsed).1;
    forall mask | mask in s.masks && mask != "" && Firm(mask) && event.Some?
      ensures !Contains(event.value.section.name, mask) {
      StartIsRedacted(s, step, provider, matchName, displayName, collapsed, mask);
    }
  }

  lemma MarkerOpensHidden(s: State, step: string, marker: Marker, line: string)
    ensures OpensHidden(s.masks, ProcessMarker(s, step, marker, line).1)
  {
    hide Hides, StartSection, EndSection;
    match marker
    case StartMarker(name, header, collapsed) => StartHides(s, step, GitLab, name, header, collapsed);
    case EndMarker(name) => EndIsEnd(s, step, GitLab, name);
    case _ =>
  }

  lemma CommandOpensHidden(h: Host, s: State, step: string, c: Syntax.Command, redacted: string)
    ensures OpensHidden(s.masks, ProcessCommand(h, s, step, c, redacted).1)
  {
    hide Hides, StartSection, EndSection, Annotate, AddMask, ValidStopToken, Size;
    StartHides(s, step, GitHub, c.data, c.data, false);
    EndIsEnd(s, step, GitHub, "");
  }

  lemma OpeningHides(h: Host, s: State, step: string, stdout: bool, line: string)
    ensures OpensHidden(s.masks, Process(h, s, step, stdout, line).1)
  {
    hide Hides, Syntax.Parse, ProcessMarker, ProcessCommand, ProcessMalformed, Redact;
    if stdout && s.stopToken == "" {
      MarkerOpensHidden(s, step, h.marker(line), line);
      var parsed := Syntax.Parse(h.syntax, line);
      if parsed.Parsed? {
        CommandOpensHidden(h, s, step, parsed.command, Redact(s.masks, line));
      } else {
        MalformedIsPlain(h, line, Redact(s.masks, line));
      }
    }
  }

  /** Every open section was opened by an earlier line. */
  lemma {:induction false} OpenSectionsWereOpened(h: Host, s: State, inputs: seq<Input>, step: string, section: Section)
    requires (forall other :: Stack(s, other) == []) && section in Stack(Run(h, s, inputs).0, step)
    ensures OpenedBefore(h, s, inputs, |inputs|, step, section)
  {
    hide Process, Stack, Hides, OpenedAt;
    if inputs != [] {
      var n := |inputs| - 1;
      var t, i := Run(h, s, inputs[..n]).0, inputs[n];
      LineMoves(h, t, i.step, i.stdout, i.line);
      var o := Process(h, t, i.step, i.stdout, i.line).1;
      if section in Stack(t, step) {
        OpenSectionsWereOpened(h, s, inputs[..n], step, section);
        EarlierPart(h, s, inputs, n, step, section);
      } else {
        OpeningHides(h, t, i.step, i.stdout, i.line);
        OpenedHere(h, s, inputs, n, section);
      }
    }
  }

  lemma OpenedHere(h: Host, s: State, inputs: seq<Input>, n: nat, section: Section)
    requires n < |inputs| && LineAt(h, s, inputs, n).event == Some(Start(section))
    requires Hides(Run(h, s, inputs[..n]).0.masks, section.name)
    ensures OpenedAt(h, s, inputs, n, inputs[n].step, section)
  {
    hide Process, Hides;
  }

  /** Over every run: a logged line is fixed text, or shows no firm mask present when it came,
      or closes a section and shows no firm mask that was present when that section opened. */
  lemma RunIsRedacted(h: Host, s: State, inputs: seq<Input>, n: nat)
    requires n < |inputs| && forall step :: Stack(s, step) == []
    ensures var o := Run(h, s, inputs).1[n];
            || FixedLine(o.line)
            || Hides(Run(h, s, inputs[..n]).0.masks, o.line)
            || (&& o.event.Some? && o.event.value.End? && o.line == o.event.value.section.name
                && exists m: nat :: m < n && OpenedAt(h, s, inputs, m, inputs[n].step, o.event.value.section)
                                    && Hides(Run(h, s, inputs[..m]).0.masks, o.line))
  {
    hide Process, Stack, Hides, FixedLine;
    OutcomeIs(h, s, inputs, n);
    var t, i := Run(h, s, inputs[..n]).0, inputs[n];
    var o := Process(h, t, i.step, i.stdout, i.line).1;
    LineMoves(h, t, i.step, i.stdout, i.line);
    LineHides(h, t, i.step, i.stdout, i.line);
    if o.event.Some? && o.event.value.End? {
      OpenSectionsWereOpened(h, s, inputs[..n], i.step, o.event.value.section);
      EarlierPart(h, s, inputs, n, i.step, o.event.value.section);
      var m: nat :| m < n && OpenedAt(h, s, inputs, m, i.step, o.event.value.section);
      assert Hides(Run(h, s, inputs[..m]).0.masks, o.line);
    }
  }

  // ------------------------------------------------------ masked from then on

  lemma CommandKeepsMasks(h: Host, s: State, step: string, c: Syntax.Command, redacted: string, x: string)
    requires Valid(s) && x in s.masks
    ensures x in ProcessCommand(h, s, step, c, redacted).0.masks
  {
    hide StartSection, EndSection, Annotate, ValidStopToken, Size, AddMask, IsMaskOf, GoodStack;
    AddMaskKeepsGood(s, c.data, true);
    AddMaskKeepsGood(s.(stopToken := c.data), c.data, false);
    StartKeepsMasks(s, step, GitHub, c.data, c.data, false);
  }

  lemma MarkerKeepsMasks(s: State, step: string, marker: Marker, line: string)
    ensures ProcessMarker(s, step, marker, line).0.masks == s.masks
  {
    hide StartSection, EndSection;
    match marker
    case StartMarker(name, header, collapsed) => StartKeepsMasks(s, step, GitLab, name, header, collapsed);
    case EndMarker(name) => StartKeepsMasks(s, step, GitLab, name, name, false);
    case _ =>
  }

  lemma StartKeepsMasks(s: State, step: string, provider: Provider, matchName: string, displayName: string,
      collapsed: bool)
    ensures StartSection(s, step, provider, matchName, displayName, collapsed).0.masks == s.masks
    ensures forall name :: EndSection(s, step, provider, name).0.masks == s.masks
  {
    hide Trim, StripControl, Redact, Size, SectionID;
  }

  lemma ProcessKeepsMasks(h: Host, s: State, step: string, stdout: bool, line: string, x: string)
    requires Valid(s) && x in s.masks
    ensures x in Process(h, s, step, stdout, line).0.masks
  {
    hide Redact, Syntax.Parse, ProcessMalformed, ProcessMarker, ProcessCommand, Valid;
    MarkerKeepsMasks(s, step, h.marker(line), line);
    var parsed := Syntax.Parse(h.syntax, line);
    if parsed.Parsed? {
      CommandKeepsMasks(h, s, step, parsed.command, Redact(s.masks, line), x);
    }
  }

  lemma {:induction false} RunKeepsMasks(h: Host, s: State, inputs: seq<Input>, m: nat, n: nat, x: string)
    requires Valid(s) && m <= n <= |inputs| && x in Run(h, s, inputs[..m]).0.masks
    ensures x in Run(h, s, inputs[..n]).0.masks
    decreases n
  {
    hide Process, Valid;
    if m < n {
      RunKeepsMasks(h, s, inputs, m, n - 1, x);
      RunKeepsValid(h, s, inputs[..n - 1]);
      assert inputs[..n][..n - 1] == inputs[..n - 1];
      var i := inputs[n - 1];
      ProcessKeepsMasks(h, Run(h, s, inputs[..n - 1]).0, i.step, i.stdout, i.line, x);
    }
  }

  /** The line is an add-mask command with this value that the state takes, with room for it. */
  ghost predicate Masks(h: Host, s: State, i: Input, value: string) {
    && i.stdout && s.stopToken == "" && h.marker(i.line).NoMarker?
    && Syntax.Parse(h.syntax, i.line).Parsed? && Syntax.Parse(h.syntax, i.line).command.name == "add-mask"
    && Syntax.Parse(h.syntax, i.line).command.data == value && Fits(s, value, true)
  }

  lemma MaskIsAdded(h: Host, s: State, i: Input, value: string, x: string)
    requires Valid(s) && Masks(h, s, i, value) && IsMaskOf(value, x)
    ensures x in Process(h, s, i.step, i.stdout, i.line).0.masks && x != ""
  {
    hide Redact, Syntax.Parse, AddMask, Size, IsPiece, GoodStack;
    AddMaskExactly(s, value, true);
    if x != value {
      var a: nat, b: nat :| PieceAt(value, a, b, x);
      PieceFacts(value, a, b, x);
    }
  }

  /** Over every run: from an accepted add-mask line on, the value and each of its words, if
      firm, is shown by no logged line that is not a fixed text, unless the line closes a section
      that was opened before the mask was added. */
  lemma MaskedFromThenOn(h: Host, s: State, inputs: seq<Input>, m: nat, n: nat, value: string, x: string)
    requires Valid(s) && m < n < |inputs| && forall step :: Stack(s, step) == []
    requires Masks(h, Run(h, s, inputs[..m]).0, inputs[m], value) && IsMaskOf(value, x) && Firm(x)
    ensures var o := Run(h, s, inputs).1[n];
            || FixedLine(o.line) || !Contains(o.line, x)
            || (&& o.event.Some? && o.event.value.End?
                && exists k: nat :: k < m && OpenedAt(h, s, inputs, k, inputs[n].step, o.event.value.section))
  {
    hide Process, Valid, Stack, FixedLine, Contains, Firm, IsMaskOf, Masks, OpenedAt;
    var t := Run(h, s, inputs[..m]).0;
    RunKeepsValid(h, s, inputs[..m]);
    MaskIsAdded(h, t, inputs[m], value, x);
    assert inputs[..m + 1][..m] == inputs[..m];
    RunKeepsMasks(h, s, inputs, m + 1, n, x);
    RunIsRedacted(h, s, inputs, n);
    var o := Run(h, s, inputs).1[n];
    if !FixedLine(o.line) && Contains(o.line, x) {
      var k: nat :| k < n && OpenedAt(h, s, inputs, k, inputs[n].step, o.event.value.section)
                    && Hides(Run(h, s, inputs[..k]).0.masks, o.line);
      if k > m {
        RunKeepsMasks(h, s, inputs, m + 1, k, x);
      } else if k == m {
        MaskingOpensNothing(h, s, inputs, m, value, inputs[n].step, o.event.value.section);
      }
    }
  }

  lemma MaskingOpensNothing(h: Host, s: State, inputs: seq<Input>, m: nat, value: string, step: string,
      section: Section)
    requires m < |inputs| && Masks(h, Run(h, s, inputs[..m]).0, inputs[m], value)
    ensures !OpenedAt(h, s, inputs, m, step, section)
  {
    hide Redact, Syntax.Parse, AddMask, Fits, Run, Hides;
  }

  lemma KeyIsPlain()
    ensures StripControl("key") == "key" && Trim("key") == "key" && Size("key") == 3 && Fields("key", "") == ["key"]
  {
    hide StripControl, Fields, Size;
    KeyIsStripped();
    KeyIsOneField();
    KeyIsSmall();
  }

  lemma KeyIsStripped()
    ensures StripControl("key") == "key"
  {
    assert "key"[1..] == "ey" && "ey"[1..] == "y" && "y"[1..] == "";
    assert StripControl("y") == "y" && StripControl("ey") == "ey";
  }

  lemma KeyIsOneField()
    ensures Fields("key", "") == ["key"]
  {
    assert "key"[1..] == "ey" && "ey"[1..] == "y" && "y"[1..] == "";
    assert "" + ['k'] == "k" && "k" + ['e'] == "ke" && "ke" + ['y'] == "key";
    assert Fields("", "key") == ["key"];
    assert Fields("y", "ke") == ["key"];
  }

  lemma KeyIsSmall()
    ensures Size("key") == 3
  {
    assert "key"[..2] == "ke" && "ke"[..1] == "k" && "k"[..0] == "";
  }

  /** The exception is needed: a section named "key" is opened, "key" is masked, and the line
      that closes the section is logged as "key". */
  lemma ClosingShowsLaterMask(h: Host, step: string)
    ensures var s0 := State([], 0, "", map[], map[], map[]);
            var s1 := ProcessCommand(h, s0, step, Syntax.Command("group", map[], "key"), "").0;
            var s2 := ProcessCommand(h, s1, step, Syntax.Command("add-mask", map[], "key"), "").0;
            var o := ProcessCommand(h, s2, step, Syntax.Command("endgroup", map[], ""), "").1;
            && "key" in s2.masks && Firm("key") && !FixedLine(o.line)
            && o.line == "key" && Contains(o.line, "key")
  {
    hide StripControl, Trim, Size, Fields, Annotate, ValidStopToken, Firm, SectionID, SortBySize;
    KeyIsPlain();
    StarlessIsFirm("key");
    var s0 := State([], 0, "", map[], map[], map[]);
    var s1 := ProcessCommand(h, s0, step, Syntax.Command("group", map[], "key"), "").0;
    assert Stack(s1, step) == [Section(SectionID(step, 1), "key", "key", GitHub, 0, false)];
    var s2 := ProcessCommand(h, s1, step, Syntax.Command("add-mask", map[], "key"), "").0;
    assert s2.sections == s1.sections;
    assert ["key"] + ["key"] == ["key", "key"] && ["key", "key"][1..] == ["key"];
    var m := AddCandidates([], 0, ["key", "key"], true, false);
    assert [] + ["key"] == ["key"];
    assert m.masks == AddCandidates(["key"], 1, ["key"], true, true).masks == ["key"];
    assert "key" in multiset(m.masks) && "key" in multiset(SortBySize(m.masks));
    assert "key"[0..] == "key" && OccursAt("key", "key", 0);
  }

  lemma SecretAdded(s: State, value: string)
    requires Valid(s)
    ensures var t := AddMask(s, value, false).0;
            && Valid(t) && t.sections == s.sections && (forall x :: x in s.masks ==> x in t.masks)
            && (Maskable(value) ==> forall x :: IsMaskOf(value, x) ==> x in t.masks)
  {
    hide Size, AddMask, IsMaskOf, GoodStack;
    MasksKeepValid(s, value, false);
    AddMaskKeepsGood(s, value, false);
    MasksKeepSections(s, value, false);
    if Maskable(value) {
      AddMaskExactly(s, value, false);
    }
  }

  // ------------------------------------------------------------- the object

  /** workflowCommandState; every method is atomic under its lock. */
  class WorkflowCommandState {
    var masks: seq<string>
    var dynamicMasks: nat
    var stopToken: string
    var counts: map<string, nat>
    var sections: map<string, seq<Section>>
    var sectionCount: map<string, nat>

    function Value(): State
      reads this
    {
      State(masks, dynamicMasks, stopToken, counts, sections, sectionCount)
    }

    constructor ()
      ensures Value() == State([], 0, "", map[], map[], map[]) && Valid(Value())
    {
      masks, dynamicMasks, stopToken := [], 0, "";
      counts, sections, sectionCount := map[], map[], map[];
    }

    /** newWorkflowCommandState: every secret that is not too long is masked from the start, and
        every word of one, in whatever order the secrets are taken. */
    constructor WithSecrets(secrets: map<string, string>)
      ensures Valid(Value()) && forall step :: Stack(Value(), step) == []
      ensures forall k, x :: k in secrets && Maskable(secrets[k]) && IsMaskOf(secrets[k], x) ==> x in Value().masks
    {
      masks, dynamicMasks, stopToken := [], 0, "";
      counts, sections, sectionCount := map[], map[], map[];
      new;
      hide Size, AddMask, IsMaskOf, GoodStack, GoodMasks;
      var remaining := secrets.Keys;
      while remaining != {}
        invariant remaining <= secrets.Keys && Valid(Value()) && sections == map[]
        invariant forall k, x ::
                    k in secrets && k !in remaining && Maskable(secrets[k]) && IsMaskOf(secrets[k], x) ==> x in masks
        decreases |remaining|
      {
        var k :| k in remaining;
        ghost var before := Value();
        SecretAdded(before, secrets[k]);
        var accepted := AddMaskLocked(secrets[k], false);
        remaining := remaining - {k};
      }
    }

    method AddMaskLocked(value: string, dynamic: bool) returns (accepted: bool)
      modifies this
      ensures (Value(), accepted) == old(AddMask(Value(), value, dynamic))
    {
      hide Size, Fields, SortBySize;
      if value == "" || Size(value) > Syntax.MAX_COMMAND_BYTES {
        return false;
      }
      var candidates := [value] + Fields(value, "");
      accepted := false;
      for n := 0 to |candidates|
        invariant AddCandidates(masks, dynamicMasks, candidates[n..], dynamic, accepted)
                  == old(AddCandidates(masks, dynamicMasks, candidates, dynamic, false))
        invariant Value() == old(Value()).(masks := masks, dynamicMasks := dynamicMasks)
      {
        var candidate := candidates[n];
        assert candidates[n..][0] == candidate && candidates[n..][1..] == candidates[n + 1..];
        if candidate in masks {
          accepted := true;
          continue;
        }
        if dynamic && dynamicMasks >= MAX_MASKS {
          return accepted;
        }
        masks := masks + [candidate];
        if dynamic {
          dynamicMasks := dynamicMasks + 1;
        }
        accepted := true;
      }
      masks := SortBySize(masks);
    }

    method RedactLocked(value: string) returns (r: string)
      ensures r == Redact(masks, value)
    {
      r := RedactInPlace(masks, value);
    }

    method StartSectionLocked(step: string, provider: Provider, matchName: string, displayName: string, collapsed: bool)
      returns (event: Option<Event>)
      modifies this
      ensures (Value(), event) == old(StartSection(Value(), step, provider, matchName, displayName, collapsed))
    {
      hide Size, Trim, StripControl, Redact, SectionID;
      var display := RedactLocked(StripControl(displayName));
      display := Trim(display);
      var wanted := Trim(StripControl(matchName));
      if display == "" || wanted == "" || Size(display) > MAX_NAME_SIZE || Size(wanted) > MAX_NAME_SIZE {
        return None;
      }
      var stack := if step in sections then sections[step] else [];
      if |stack| >= MAX_DEPTH || Count(sectionCount, step) >= MAX_SECTIONS {
        return None;
      }
      sectionCount := sectionCount[step := Count(sectionCount, step) + 1];
      var section := Section(SectionID(step, sectionCount[step]), display, wanted, provider, |stack|, collapsed);
      sections := sections[step := stack + [section]];
      return Some(Start(section));
    }

    method EndSectionLocked(step: string, provider: Provider, matchName: string) returns (event: Option<Event>)
      modifies this
      ensures (Value(), event) == old(EndSection(Value(), step, provider, matchName))
    {
      var stack := if step in sections then sections[step] else [];
      if |stack| == 0 {
        return None;
      }
      var section := stack[|stack| - 1];
      if section.provider != provider || (matchName != "" && section.matchName != matchName) {
        return None;
      }
      sections := sections[step := stack[..|stack| - 1]];
      return Some(End(section));
    }

    method ProcessAnnotationLocked(h: Host, step: string, c: Syntax.Command, redacted: string) returns (o: Outcome)
      modifies this
      ensures (Value(), o) == old(ProcessAnnotation(h, Value(), step, c, redacted))
    {
      hide Annotate;
      if Count(counts, step) >= MAX_ANNOTATIONS {
        return Ignored(redacted, "step annotation limit reached");
      }
      var annotation := Annotate(h, Value(), c);
      if annotation.None? {
        return Ignored(redacted, "invalid annotation");
      }
      counts := counts[step := Count(counts, step) + 1];
      return Outcome(redacted, annotation, None, "");
    }

    method ProcessMarkerLocked(step: string, marker: Marker, line: string) returns (o: Outcome)
      requires !marker.NoMarker?
      modifies this
      ensures (Value(), o) == old(ProcessMarker(Value(), step, marker, line))
    {
      hide StartSection, EndSection;
      StateUnchanged(Value(), step);
      var event: Option<Event>;
      match marker {
        case BadMarker =>
          return Ignored("gitlab section marker ignored", "invalid GitLab log section marker");
        case StartMarker(name, header, collapsed) =>
          event := StartSectionLocked(step, GitLab, name, header, collapsed);
        case EndMarker(name) =>
          event := EndSectionLocked(step, GitLab, name);
      }
      if event.None? {
        return Ignored("gitlab section marker ignored", "invalid GitLab log section nesting");
      }
      return Marked(event.value);
    }

    method ProcessGroupLocked(step: string, c: Syntax.Command) returns (o: Outcome)
      modifies this
      ensures (Value(), o) == old(ProcessGroup(Value(), step, c))
    {
      hide StartSection, EndSection;
      StateUnchanged(Value(), step);
      if c.name == "group" {
        var event := StartSectionLocked(step, GitHub, c.data, c.data, false);
        return if event.None? then Ignored("github log group ignored", "invalid GitHub log group")
            else Marked(event.value);
      }
      var event := EndSectionLocked(step, GitHub, "");
      return if event.None? then Ignored("github log group ignored", "unmatched GitHub endgroup")
          else Marked(event.value);
    }

    method ProcessCommandLocked(h: Host, step: string, c: Syntax.Command, redacted: string) returns (o: Outcome)
      modifies this
      ensures (Value(), o) == old(ProcessCommand(h, Value(), step, c, redacted))
    {
      hide AddMask, ProcessAnnotation, ProcessGroup, ValidStopToken, Size;
      if c.name == "add-mask" {
        var accepted := AddMaskLocked(c.data, true);
        return if accepted then Plain("::add-mask::***")
               else Ignored("::add-mask::***", "mask is empty or the job mask limit was reached");
      }
      if c.name == "stop-commands" {
        if !ValidStopToken(h, c.data) {
          return Ignored("::stop-commands::***", "invalid stop token");
        }
        stopToken := c.data;
        if Size(c.data) > 6 {
          var _ := AddMaskLocked(c.data, false);
        }
        return Plain("::stop-commands::***");
      }
      if c.name in {"notice", "warning", "error"} {
        o := ProcessAnnotationLocked(h, step, c, redacted);
        return;
      }
      if c.name in {"group", "endgroup"} {
        o := ProcessGroupLocked(step, c);
        return;
      }
      return Plain(redacted);
    }

    method ProcessLine(h: Host, step: string, stdout: bool, line: string) returns (o: Outcome)
      modifies this
      ensures (Value(), o) == old(Process(h, Value(), step, stdout, line))
    {
      hide Redact, ProcessMarker, ProcessCommand, ProcessMalformed, Syntax.Parse;
      var redacted := RedactLocked(line);
      if !stdout {
        return Plain(redacted);
      }
      if stopToken != "" {
        if h.sameFold(line, "::" + stopToken + "::") {
          stopToken := "";
          return Plain("::***::");
        }
        return Plain(redacted);
      }
      var marker := h.marker(line);
      if !marker.NoMarker? {
        o := ProcessMarkerLocked(step, marker, line);
        return;
      }
      var parsed := Syntax.ParseWorkflowCommand(h.syntax, line);
      match parsed
      case NoCommand => return Plain(redacted);
      case Malformed => return if "::" <= line then ProcessMalformed(h, line, redacted) else Plain(redacted);
      case Parsed(command) => o := ProcessCommandLocked(h, step, command, redacted);
    }
  }

  /** A refused start or end changes nothing. */
  lemma StateUnchanged(s: State, step: string)
    ensures forall provider, m, d, c :: var r := StartSection(s, step, provider, m, d, c); r.1.None? ==> r.0 == s
    ensures forall provider, m :: var r := EndSection(s, step, provider, m); r.1.None? ==> r.0 == s
  {
  }
}
