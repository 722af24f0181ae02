// What a log line does to the state of its job, told effect by effect and over whole runs.
module CommandLaws {
  import opened Text
  import opened Search
  import opened Redaction
  import opened WorkflowCommands
  import Syntax = CommandSyntax
  import Grammar = CommandGrammar

  /** Standard output while no stop token is set: such a line may be a command. */
  predicate Listening(s: State, stdout: bool) {
    stdout && s.stopToken == ""
  }

  /** The line is heard as this command. */
  ghost predicate Heard(h: Host, s: State, stdout: bool, line: string, c: Syntax.Command) {
    Listening(s, stdout) && h.marker(line).NoMarker? && Grammar.Spelled(h.syntax, line, c)
  }

  /** The line starts like a command and spells none. */
  ghost predicate Garbled(h: Host, s: State, stdout: bool, line: string) {
    && Listening(s, stdout) && h.marker(line).NoMarker? && "::" <= line
    && forall c :: !Grammar.Spelled(h.syntax, line, c)
  }

  lemma HeardIs(h: Host, s: State, stdout: bool, line: string, c: Syntax.Command)
    ensures Heard(h, s, stdout, line, c) <==>
            Listening(s, stdout) && h.marker(line).NoMarker? && Syntax.Parse(h.syntax, line) == Syntax.Parsed(c)
  {
    hide Syntax.Parse;
    Grammar.ParseExactly(h.syntax, line, c);
  }

  lemma GarbledIs(h: Host, s: State, stdout: bool, line: string)
    ensures Garbled(h, s, stdout, line) <==>
            Listening(s, stdout) && h.marker(line).NoMarker? && Syntax.Parse(h.syntax, line).Malformed?
    ensures Syntax.Parse(h.syntax, line).Malformed? ==> "::" <= line
  {
    hide Syntax.Parse, Grammar.Spelled;
    forall c ensures Syntax.Parse(h.syntax, line) == Syntax.Parsed(c) <==> Grammar.Spelled(h.syntax, line, c) {
      Grammar.ParseExactly(h.syntax, line, c);
    }
    Grammar.ParseExactly(h.syntax, line, Syntax.Command("", map[], ""));
    var parsed := Syntax.Parse(h.syntax, line);
    if parsed.Parsed? {
      assert Grammar.Spelled(h.syntax, line, parsed.command);
    }
  }

  /** A line whose marker is none, or whose listening is off, or that spells no command. */
  lemma Cases(h: Host, s: State, step: string, stdout: bool, line: string)
    ensures var (t, o) := Process(h, s, step, stdout, line); var redacted := Redact(s.masks, line);
            && (forall c :: Heard(h, s, stdout, line, c) ==> (t, o) == ProcessCommand(h, s, step, c, redacted))
            && (Garbled(h, s, stdout, line) ==> t == s && "::" <= line && o == ProcessMalformed(h, line, redacted))
            && (Listening(s, stdout) && !h.marker(line).NoMarker? ==>
                (t, o) == ProcessMarker(s, step, h.marker(line), line))
            && (Listening(s, stdout) && h.marker(line).NoMarker? && !("::" <= line) ==> t == s && o == Plain(redacted))
    ensures forall c, d :: Heard(h, s, stdout, line, c) && Heard(h, s, stdout, line, d) ==> c == d
    ensures Listening(s, stdout) && h.marker(line).NoMarker? && "::" <= line ==>
            Garbled(h, s, stdout, line) || exists c :: Heard(h, s, stdout, line, c)
  {
    hide Syntax.Parse, Redact, ProcessCommand, ProcessMalformed, ProcessMarker, Grammar.Spelled, Garbled, Heard;
    GarbledIs(h, s, stdout, line);
    forall c
      ensures Heard(h, s, stdout, line, c) <==>
              Listening(s, stdout) && h.marker(line).NoMarker? && Syntax.Parse(h.syntax, line) == Syntax.Parsed(c) {
      HeardIs(h, s, stdout, line, c);
    }
    Grammar.ParseExactly(h.syntax, line, Syntax.Command("", map[], ""));
    var parsed := Syntax.Parse(h.syntax, line);
    if parsed.Parsed? && Listening(s, stdout) && h.marker(line).NoMarker? {
      assert Heard(h, s, stdout, line, parsed.command);
    }
  }

  // ------------------------------------------------------------ annotations

  predicate Level(name: string) {
    name == "notice" || name == "warning" || name == "error"
  }

  ghost predicate AllSpace(x: string) {
    forall k :: 0 <= k < |x| ==> IsSpace(x[k])
  }

  lemma {:induction false} TrimNothing(x: string)
    ensures Trim(x) == "" <==> AllSpace(x)
  {
    TrimIs(x, "");
    if Trim(x) == "" {
      assert Cut(x, "");
    }
    if AllSpace(x) {
      assert CutTo(x, 0, 0, "");
    }
  }

  /** A property as it is shown, or nothing. */
  function Shown(s: State, c: Syntax.Command, key: string): string {
    if key in c.properties then Redact(s.masks, c.properties[key]) else ""
  }

  lemma {:induction false} NothingShown(masks: seq<string>)
    ensures Redact(masks, "") == ""
  {
    if masks != [] {
      NothingShown(masks[1..]);
    }
  }

  ghost predicate Placed(h: Host, c: Syntax.Command, key: string) {
    key in c.properties ==> AllSpace(c.properties[key]) || h.syntax.position(Trim(c.properties[key]))
  }

  /** The command annotates its step with this. */
  ghost predicate Annotates(h: Host, s: State, c: Syntax.Command, a: Annotation) {
    && Level(c.name) && a.level == c.name
    && !AllSpace(c.data) && Size(c.data) <= MAX_MESSAGE_SIZE && a.message == Redact(s.masks, c.data)
    && a.title == Shown(s, c, "title") && Size(a.title) <= MAX_FIELD_SIZE
    && Size(Shown(s, c, "file")) <= MAX_FIELD_SIZE
    && a.file == (if Shown(s, c, "file") == "" then ".github" else Shown(s, c, "file"))
    && Placed(h, c, "line") && Placed(h, c, "endline") && Placed(h, c, "col") && Placed(h, c, "endcolumn")
  }

  lemma PropertyShown(s: State, c: Syntax.Command, key: string)
    ensures Redact(s.masks, PropertyOf(c, key)) == Shown(s, c, key)
  {
    hide Redact;
    NothingShown(s.masks);
  }

  lemma PlacedIs(h: Host, c: Syntax.Command, key: string)
    ensures PositionOk(h, c, key) <==> Placed(h, c, key)
  {
    hide Trim, AllSpace;
    TrimNothing(PropertyOf(c, key));
    TrimNothing("");
    if key !in c.properties {
      assert AllSpace("") by {
        NoneInNothing();
      }
    }
  }

  lemma NoneInNothing()
    ensures AllSpace("")
  {
  }

  lemma AnnotatesIs(h: Host, s: State, c: Syntax.Command, a: Annotation)
    requires Level(c.name)
    ensures Annotate(h, s, c) == Some(a) <==> Annotates(h, s, c, a)
  {
    hide Redact, Trim, Size, PositionOk, Placed, AllSpace, PropertyOf, Shown;
    PropertyShown(s, c, "title");
    PropertyShown(s, c, "file");
    PlacedIs(h, c, "line");
    PlacedIs(h, c, "endline");
    PlacedIs(h, c, "col");
    PlacedIs(h, c, "endcolumn");
    TrimNothing(c.data);
  }

  lemma CommandAnnotates(h: Host, s: State, step: string, c: Syntax.Command, redacted: string, a: Annotation)
    ensures var (t, o) := ProcessCommand(h, s, step, c, redacted);
            && (o.annotation == Some(a) <==> Count(s.counts, step) < MAX_ANNOTATIONS && Annotates(h, s, c, a))
            && (t.counts == if o.annotation.Some? then s.counts[step := Count(s.counts, step) + 1] else s.counts)
            && (Level(c.name) ==> o.line == redacted)
  {
    hide Annotate, Annotates, ValidStopToken, Size, AddMask, ProcessGroup;
    if Level(c.name) {
      AnnotatesIs(h, s, c, a);
    } else {
      AnnotatesLevels(h, s, c, a);
      CommandFrame(h, s, step, c, redacted);
    }
  }

  lemma CommandFrame(h: Host, s: State, step: string, c: Syntax.Command, redacted: string)
    requires !Level(c.name)
    ensures var (t, o) := ProcessCommand(h, s, step, c, redacted); t.counts == s.counts && o.annotation.None?
  {
    hide ValidStopToken, Size, AddMask, ProcessGroup, ProcessAnnotation;
    AddMaskFrame(s, c.data, true);
    AddMaskFrame(s.(stopToken := c.data), c.data, false);
    GroupFrame(s, step, c);
  }

  lemma GroupFrame(s: State, step: string, c: Syntax.Command)
    ensures var (t, o) := ProcessGroup(s, step, c);
            t == s.(sections := t.sections, sectionCount := t.sectionCount) && o.annotation.None?
  {
    hide StartSection, EndSection;
    SectionFrame(s, step, GitHub, c.data, c.data, false);
    SectionFrame(s, step, GitHub, "", "", false);
  }

  lemma AnnotatesLevels(h: Host, s: State, c: Syntax.Command, a: Annotation)
    ensures Annotates(h, s, c, a) ==> Level(c.name)
  {
  }

  lemma AddMaskFrame(s: State, value: string, dynamic: bool)
    ensures var t := AddMask(s, value, dynamic).0; t == s.(masks := t.masks, dynamicMasks := t.dynamicMasks)
  {
    hide AddCandidates, SortBySize, Fields, Size;
  }

  lemma SectionFrame(s: State, step: string, provider: Provider, name: string, header: string, collapsed: bool)
    ensures var t := StartSection(s, step, provider, name, header, collapsed).0;
            t == s.(sections := t.sections, sectionCount := t.sectionCount)
    ensures var t := EndSection(s, step, provider, name).0; t == s.(sections := t.sections)
  {
    hide Trim, Redact, StripControl, Size, SectionID;
  }

  lemma MarkerFrame(s: State, step: string, marker: Marker, line: string)
    ensures var (t, o) := ProcessMarker(s, step, marker, line);
            t == s.(sections := t.sections, sectionCount := t.sectionCount) && o.annotation.None?
  {
    hide StartSection, EndSection;
    match marker
    case StartMarker(name, header, collapsed) => SectionFrame(s, step, GitLab, name, header, collapsed);
    case EndMarker(name) => SectionFrame(s, step, GitLab, name, name, false);
    case _ =>
  }

  /** A line annotates its step exactly if it is heard as a command that does, and the step has
      room; the counter of the step, and no other, goes up then and only then. */
  lemma AnnotationExactly(h: Host, s: State, step: string, stdout: bool, line: string, a: Annotation)
    ensures var (t, o) := Process(h, s, step, stdout, line);
            && (o.annotation == Some(a) <==>
                Count(s.counts, step) < MAX_ANNOTATIONS && exists c ::
                    Heard(h, s, stdout, line, c) && Annotates(h, s, c, a))
            && (t.counts == if o.annotation.Some? then s.counts[step := Count(s.counts, step) + 1] else s.counts)
  {
    hide Redact, ProcessCommand, ProcessMarker, Heard, Annotates, Garbled, Count;
    Cases(h, s, step, stdout, line);
    MarkerFrame(s, step, h.marker(line), line);
    if c :| Heard(h, s, stdout, line, c) {
      CommandAnnotates(h, s, step, c, Redact(s.masks, line), a);
    } else {
      MalformedNoAnnotation(h, line, Redact(s.masks, line));
      NotHeard(h, s, step, stdout, line);
    }
  }

  lemma MalformedNoAnnotation(h: Host, line: string, redacted: string)
    ensures "::" <= line ==> ProcessMalformed(h, line, redacted).annotation.None?
  {
  }

  /** A line that is not listened to is at most the return of the stop token. */
  lemma NotHeard(h: Host, s: State, step: string, stdout: bool, line: string)
    ensures var (t, o) := Process(h, s, step, stdout, line);
            !Listening(s, stdout) ==>
              if stdout && h.sameFold(line, "::" + s.stopToken + "::") then t == s.(stopToken := "") &&
                  o == Plain("::***::")
              else t == s && o == Plain(Redact(s.masks, line))
  {
    hide Redact;
  }

  // --------------------------------------------------------------- sections

  /** What is left of a text without the white space around it, if that is something and short. */
  ghost predicate NamedBy(text: string, name: string) {
    name != "" && Trimmed(name) && Cut(text, name) && Size(name) <= MAX_NAME_SIZE
  }

  lemma NamedByTrim(text: string, name: string)
    ensures NamedBy(text, name) <==> name == Trim(text) && name != "" && Size(name) <= MAX_NAME_SIZE
  {
    hide Trim, Trimmed, Cut, Size;
    TrimIs(text, name);
  }

  /** The line asks for a section: a start marker of GitLab, or a group command of GitHub. */
  ghost predicate Asks(h: Host, s: State, stdout: bool, line: string, provider: Provider, name: string, header: string,
      collapsed: bool)
  {
    || (&& provider == GitLab && Listening(s, stdout) && h.marker(line) == StartMarker(name, header, collapsed))
    || (&& provider == GitHub && !collapsed && header == name
        && exists c :: Heard(h, s, stdout, line, c) && c.name == "group" && c.data == name)
  }

  /** The section that is opened then: shown under the redacted header, closed by the name. */
  ghost predicate Opens(s: State, step: string, provider: Provider, name: string, header: string, collapsed: bool,
      section: Section)
  {
    && NamedBy(Redact(s.masks, StripControl(header)), section.name)
    && NamedBy(StripControl(name), section.matchName)
    && section.provider == provider && section.collapsed == collapsed
    && section.depth == |Stack(s, step)| < MAX_DEPTH && Count(s.sectionCount, step) < MAX_SECTIONS
    && section.id == SectionID(step, Count(s.sectionCount, step) + 1)
  }

  ghost predicate IsOpened(h: Host, s: State, step: string, stdout: bool, line: string, section: Section) {
    exists provider, name, header, collapsed ::
      Asks(h, s, stdout, line, provider, name, header, collapsed)
      && Opens(s, step, provider, name, header, collapsed, section)
  }

  /** The line closes the innermost section of its step: endgroup one of GitHub, an end marker
      one of GitLab, under its name or under none. */
  ghost predicate IsClosed(h: Host, s: State, step: string, stdout: bool, line: string, section: Section) {
    var stack := Stack(s, step);
    && stack != [] && section == stack[|stack| - 1]
    && match section.provider
       case GitHub => exists c :: Heard(h, s, stdout, line, c) && c.name == "endgroup"
       case GitLab => && Listening(s, stdout) && h.marker(line).EndMarker?
                      && (h.marker(line).name == "" || h.marker(line).name == section.matchName)
  }

  lemma StartOpens(s: State, step: string, provider: Provider, name: string, header: string, collapsed: bool,
      section: Section)
    ensures StartSection(s, step, provider, name, header, collapsed).1 == Some(Start(section)) <==>
            Opens(s, step, provider, name, header, collapsed, section)
    ensures StartSection(s, step, provider, name, header, collapsed).1 != Some(End(section))
  {
    hide Trim, Redact, StripControl, Size, SectionID, NamedBy;
    NamedByTrim(Redact(s.masks, StripControl(header)), section.name);
    NamedByTrim(StripControl(name), section.matchName);
  }

  lemma EndCloses(s: State, step: string, provider: Provider, name: string, section: Section)
    ensures EndSection(s, step, provider, name).1 == Some(End(section)) <==>
            && Stack(s, step) != [] && section == Stack(s, step)[|Stack(s, step)| - 1]
            && section.provider == provider && (name == "" || name == section.matchName)
    ensures EndSection(s, step, provider, name).1 != Some(Start(section))
  {
  }

  lemma MarkerEvents(h: Host, s: State, step: string, stdout: bool, line: string, section: Section)
    requires Listening(s, stdout) && !h.marker(line).NoMarker?
    ensures var o := ProcessMarker(s, step, h.marker(line), line).1;
            && (o.event == Some(Start(section)) <==> IsOpened(h, s, step, stdout, line, section))
            && (o.event == Some(End(section)) <==> IsClosed(h, s, step, stdout, line, section))
  {
    hide StartSection, EndSection, Opens, Grammar.Spelled;
    match h.marker(line)
    case StartMarker(name, header, collapsed) =>
      StartOpens(s, step, GitLab, name, header, collapsed, section);
      if Opens(s, step, GitLab, name, header, collapsed, section) {
        assert Asks(h, s, stdout, line, GitLab, name, header, collapsed);
      }
    case EndMarker(name) => EndCloses(s, step, GitLab, name, section);
    case _ =>
  }

  ghost predicate ClosesGroup(s: State, step: string, section: Section) {
    var stack := Stack(s, step);
    stack != [] && section == stack[|stack| - 1] && section.provider == GitHub
  }

  lemma GroupEvents(s: State, step: string, c: Syntax.Command, section: Section)
    ensures var o := ProcessGroup(s, step, c).1;
            && (o.event == Some(Start(section)) <==>
                c.name == "group" && Opens(s, step, GitHub, c.data, c.data, false, section))
            && (o.event == Some(End(section)) <==> c.name != "group" && ClosesGroup(s, step, section))
  {
    hide StartSection, EndSection, Opens;
    if c.name == "group" {
      StartOpens(s, step, GitHub, c.data, c.data, false, section);
    } else {
      EndCloses(s, step, GitHub, "", section);
    }
  }

  lemma CommandEvents(h: Host, s: State, step: string, c: Syntax.Command, redacted: string, section: Section)
    ensures var o := ProcessCommand(h, s, step, c, redacted).1;
            && (o.event == Some(Start(section)) <==>
                c.name == "group" && Opens(s, step, GitHub, c.data, c.data, false, section))
            && (o.event == Some(End(section)) <==> c.name == "endgroup" && ClosesGroup(s, step, section))
  {
    hide ProcessGroup, Opens, ClosesGroup, AddMask, Annotate, ValidStopToken, Size;
    GroupEvents(s, step, c, section);
  }

  lemma AsksHeard(h: Host, s: State, step: string, stdout: bool, line: string, c: Syntax.Command, section: Section)
    requires Heard(h, s, stdout, line, c)
    ensures IsOpened(h, s, step, stdout, line, section) <==>
            c.name == "group" && Opens(s, step, GitHub, c.data, c.data, false, section)
    ensures IsClosed(h, s, step, stdout, line, section) <==> c.name == "endgroup" && ClosesGroup(s, step, section)
  {
    hide Opens, Heard, Stack;
    assert Listening(s, stdout) && h.marker(line).NoMarker? by {
      HeardIs(h, s, stdout, line, c);
    }
    OneHeard(h, s, stdout, line, c);
    if c.name == "group" && Opens(s, step, GitHub, c.data, c.data, false, section) {
      assert Asks(h, s, stdout, line, GitHub, c.data, c.data, false);
    }
  }

  lemma OneHeard(h: Host, s: State, stdout: bool, line: string, c: Syntax.Command)
    requires Heard(h, s, stdout, line, c)
    ensures forall d :: Heard(h, s, stdout, line, d) ==> d == c
  {
    hide Syntax.Parse, Heard;
    forall d | Heard(h, s, stdout, line, d) ensures d == c {
      HeardIs(h, s, stdout, line, c);
      HeardIs(h, s, stdout, line, d);
    }
  }

  /** A line opens or closes a section exactly as it asks for, and as the open sections admit. */
  lemma SectionsExactly(h: Host, s: State, step: string, stdout: bool, line: string, section: Section)
    ensures var o := Process(h, s, step, stdout, line).1;
            && (o.event == Some(Start(section)) <==> IsOpened(h, s, step, stdout, line, section))
            && (o.event == Some(End(section)) <==> IsClosed(h, s, step, stdout, line, section))
  {
    hide Redact, ProcessCommand, ProcessMarker, Heard, Opens, Garbled;
    Cases(h, s, step, stdout, line);
    if c :| Heard(h, s, stdout, line, c) {
      CommandEvents(h, s, step, c, Redact(s.masks, line), section);
      AsksHeard(h, s, step, stdout, line, c, section);
    } else if Listening(s, stdout) && !h.marker(line).NoMarker? {
      MarkerEvents(h, s, step, stdout, line, section);
    } else {
      MalformedIsPlain(h, line, Redact(s.masks, line));
      NotHeard(h, s, step, stdout, line);
    }
  }

  // ------------------------------------------------------ control sequences

  predicate Final(c: char) {
    '@' <= c <= '~'
  }

  /** Escape, bracket and what follows, up to and with the first final byte. */
  ghost predicate ControlSequence(q: string) {
    && |q| > 2 && q[0] == '\U{1B}' && q[1] == '[' && Final(q[|q| - 1])
    && forall k :: 2 <= k < |q| - 1 ==> !Final(q[k])
  }

  ghost predicate Unfinished(q: string) {
    |q| > 1 && q[0] == '\U{1B}' && q[1] == '[' && forall k :: 2 <= k < |q| ==> !Final(q[k])
  }

  predicate Visible(c: char) {
    c == '\t' || c >= ' '
  }

  /** Stripping drops a control sequence as a whole, the rest of a text in which one is not
      finished, and every other character that is not visible; it keeps everything else. */
  lemma StripLaws(q: string, b: string, x: char)
    ensures StripControl("") == ""
    ensures ControlSequence(q) ==> StripControl(q + b) == StripControl(b)
    ensures Unfinished(q) ==> StripControl(q) == ""
    ensures !(x == '\U{1B}' && "[" <= b) ==>
            StripControl([x] + b) == (if Visible(x) then [x] else "") + StripControl(b)
  {
    hide StripControl;
    StripFirst(x, b);
    if ControlSequence(q) {
      assert (q + b)[2..] == q[2..] + b;
      BehindFinal(q[2..], b);
      StripSequence(q + b);
    }
    if Unfinished(q) {
      NeverFinal(q[2..]);
      StripSequence(q);
    }
  }

  lemma StripFirst(x: char, b: string)
    ensures StripControl("") == ""
    ensures !(x == '\U{1B}' && "[" <= b) ==>
            StripControl([x] + b) == (if Visible(x) then [x] else "") + StripControl(b)
  {
    assert ([x] + b)[1..] == b;
  }

  lemma StripSequence(s: string)
    requires |s| > 1 && s[0] == '\U{1B}' && s[1] == '['
    ensures StripControl(s) == StripControl(AfterControl(s[2..]))
    ensures AfterControl(s[2..]) == "" ==> StripControl(s) == ""
  {
  }

  lemma {:induction false} BehindFinal(p: string, b: string)
    requires p != "" && Final(p[|p| - 1]) && forall k :: 0 <= k < |p| - 1 ==> !Final(p[k])
    ensures AfterControl(p + b) == b
  {
    assert (p + b)[1..] == p[1..] + b;
    if |p| > 1 {
      BehindFinal(p[1..], b);
    } else {
      assert p[1..] + b == b;
    }
  }

  lemma {:induction false} NeverFinal(p: string)
    requires forall k :: 0 <= k < |p| ==> !Final(p[k])
    ensures AfterControl(p) == ""
  {
    if p != "" {
      NeverFinal(p[1..]);
    }
  }

  // ------------------------------------------------------------- stop tokens

  ghost predicate GoodToken(h: Host, token: string) {
    token != "" && Size(token) <= 128 && forall c :: c in token ==> h.wordy(c) || c == '-' || c == '_'
  }

  /** The line sets a stop token. */
  ghost predicate Stops(h: Host, s: State, stdout: bool, line: string, token: string) {
    GoodToken(h, token) && exists c :: Heard(h, s, stdout, line, c) && c.name == "stop-commands" && c.data == token
  }

  /** The line gives the stop token back. */
  predicate Returns(h: Host, s: State, stdout: bool, line: string) {
    s.stopToken != "" && stdout && h.sameFold(line, "::" + s.stopToken + "::")
  }

  /** The line asks to mask a value. */
  ghost predicate AsksMask(h: Host, s: State, stdout: bool, line: string, value: string) {
    exists c :: Heard(h, s, stdout, line, c) && c.name == "add-mask" && c.data == value
  }

  /** A stop token is set, and taken back, by the lines that do so and by no other; masks are
      added by add-mask with a limit, by a long stop token without one, and in no other way. */
  lemma TokenAndMasksExactly(h: Host, s: State, step: string, stdout: bool, line: string)
    ensures var t := Process(h, s, step, stdout, line).0;
            && (forall token :: Stops(h, s, stdout, line, token) ==>
                && t.stopToken == token
                && MaskFields(t) == if Size(token) > 6 then MaskFields(AddMask(s, token, false).0) else MaskFields(s))
            && (t.stopToken != s.stopToken ==>
                Stops(h, s, stdout, line, t.stopToken) || (t.stopToken == "" && Returns(h, s, stdout, line)))
            && (Returns(h, s, stdout, line) ==> t == s.(stopToken := ""))
            && (forall value :: AsksMask(h, s, stdout, line, value) ==> t == AddMask(s, value, true).0)
            && (MaskFields(t) != MaskFields(s) ==>
                Stops(h, s, stdout, line, t.stopToken) || exists value :: AsksMask(h, s, stdout, line, value))
  {
    hide Redact, ProcessCommand, ProcessMarker, Heard, Garbled, GoodToken, AddMask, Size;
    Cases(h, s, step, stdout, line);
    NotHeard(h, s, step, stdout, line);
    MarkerFrame(s, step, h.marker(line), line);
    if c :| Heard(h, s, stdout, line, c) {
      OneHeard(h, s, stdout, line, c);
      HeardListens(h, s, stdout, line, c);
      CommandToken(h, s, step, c, Redact(s.masks, line));
      assert AsksMask(h, s, stdout, line, c.data) <==> c.name == "add-mask";
    }
  }

  lemma HeardListens(h: Host, s: State, stdout: bool, line: string, c: Syntax.Command)
    requires Heard(h, s, stdout, line, c)
    ensures Listening(s, stdout) && h.marker(line).NoMarker?
  {
    HeardIs(h, s, stdout, line, c);
  }

  function MaskFields(s: State): (seq<string>, nat) {
    (s.masks, s.dynamicMasks)
  }

  lemma TokenIs(h: Host, token: string)
    ensures ValidStopToken(h, token) <==> GoodToken(h, token)
  {
    hide Size;
    if ValidStopToken(h, token) {
      forall c | c in token ensures h.wordy(c) || c == '-' || c == '_' {
        var i :| 0 <= i < |token| && token[i] == c;
      }
    }
  }

  lemma CommandToken(h: Host, s: State, step: string, c: Syntax.Command, redacted: string)
    ensures var t := ProcessCommand(h, s, step, c, redacted).0;
            && (c.name == "add-mask" ==> t == AddMask(s, c.data, true).0 && t.stopToken == s.stopToken)
            && (c.name == "stop-commands" && GoodToken(h, c.data) ==>
                && t.stopToken == c.data
                && MaskFields(t) == if Size(c.data) > 6 then MaskFields(AddMask(s, c.data, false).0) else MaskFields(s))
            && (c.name != "add-mask" && !(c.name == "stop-commands" && GoodToken(h, c.data)) ==>
                t.stopToken == s.stopToken && MaskFields(t) == MaskFields(s))
  {
    hide ProcessGroup, ValidStopToken, GoodToken, Size, AddMask, Annotate;
    TokenIs(h, c.data);
    GroupFrame(s, step, c);
    AddMaskFrame(s, c.data, true);
    AddMaskFrame(s.(stopToken := c.data), c.data, false);
    MaskApart(s, s.(stopToken := c.data), c.data, false);
  }

  lemma MaskApart(s: State, t: State, value: string, dynamic: bool)
    requires MaskFields(s) == MaskFields(t)
    ensures MaskFields(AddMask(s, value, dynamic).0) == MaskFields(AddMask(t, value, dynamic).0)
  {
    hide AddCandidates, SortBySize, Fields, Size;
  }

  // ------------------------------------------------------ what is logged instead

  /** The line names the command: the text between the two colons and the next blank or colon. */
  ghost predicate NamesAt(h: Host, line: string, i: int, name: string) {
    && "::" <= line && 2 <= i <= |line| && name == h.syntax.lower(Trim(line[2..i]))
    && (forall k :: 2 <= k < i ==> line[k] != ' ' && line[k] != ':' && line[k] != '\t')
    && (i < |line| ==> line[i] == ' ' || line[i] == ':' || line[i] == '\t')
  }

  ghost predicate Names(h: Host, line: string, name: string) {
    exists i :: NamesAt(h, line, i, name)
  }

  lemma {:induction false} NameEnds(s: string)
    ensures var i := NameEnd(s);
            && (forall k :: 0 <= k < i ==> s[k] != ' ' && s[k] != ':' && s[k] != '\t')
            && (i < |s| ==> s[i] == ' ' || s[i] == ':' || s[i] == '\t')
  {
    if s != "" && s[0] != ' ' && s[0] != ':' && s[0] != '\t' {
      NameEnds(s[1..]);
    }
  }

  lemma NamesIs(h: Host, line: string, name: string)
    requires "::" <= line
    ensures Names(h, line, name) <==> name == NameOf(h, line)
  {
    hide Trim, NameEnd;
    var i := NameEnd(line[2..]) + 2;
    NameEnds(line[2..]);
    assert line[2..][..i - 2] == line[2..i];
    assert forall k :: 2 <= k < |line| ==> line[k] == line[2..][k - 2];
    if name == NameOf(h, line) {
      assert NamesAt(h, line, i, name);
    }
    if j :| NamesAt(h, line, j, name) {
      assert j == i;
    }
  }

  predicate Masking(name: string) {
    name == "add-mask" || name == "stop-commands"
  }

  predicate Known(name: string) {
    Masking(name) || Level(name) || name == "group" || name == "endgroup"
  }

  /** The line is a masking command, well formed or not. */
  ghost predicate Masked(h: Host, s: State, stdout: bool, line: string, name: string) {
    && Masking(name)
    && (|| (exists c :: Heard(h, s, stdout, line, c) && c.name == name)
        || (Garbled(h, s, stdout, line) && Names(h, line, name)))
  }

  /** The line asks for a section to be opened or closed. */
  ghost predicate Sections(h: Host, s: State, stdout: bool, line: string, provider: Provider) {
    match provider
    case GitLab => Listening(s, stdout) && !h.marker(line).NoMarker?
    case GitHub => exists c :: Heard(h, s, stdout, line, c) && (c.name == "group" || c.name == "endgroup")
  }

  /** What stands in the log for a line: the name of the section it opens or closes; a notice that
      it does neither; the bare name of a masking command, whatever it was to mask; stars for the
      return of a stop token; and for every other line the line itself, redacted. */
  lemma LoggedExactly(h: Host, s: State, step: string, stdout: bool, line: string, name: string)
    ensures var o := Process(h, s, step, stdout, line).1;
            && (o.event.Some? ==> o.line == o.event.value.section.name)
            && (o.event.None? && Sections(h, s, stdout, line, GitLab) ==> o.line == "gitlab section marker ignored")
            && (o.event.None? && Sections(h, s, stdout, line, GitHub) ==> o.line == "github log group ignored")
            && (Masked(h, s, stdout, line, name) ==> o.line == "::" + name + "::***")
            && (Returns(h, s, stdout, line) ==> o.line == "::***::")
            && (o.line == Redact(s.masks, line) || o.event.Some? || Sections(h, s, stdout, line, GitLab)
                || Sections(h, s, stdout, line, GitHub) || Returns(h, s, stdout, line)
                || exists n :: Masked(h, s, stdout, line, n))
  {
    hide Redact, ProcessCommand, ProcessMarker, ProcessMalformed, Heard, Garbled, SectionsMoved, Names;
    Cases(h, s, step, stdout, line);
    NotHeard(h, s, step, stdout, line);
    EventLine(h, s, step, stdout, line);
    if c :| Heard(h, s, stdout, line, c) {
      OneHeard(h, s, stdout, line, c);
      HeardListens(h, s, stdout, line, c);
      HeardIsNotGarbled(h, s, stdout, line, c);
      CommandLine(h, s, step, c, Redact(s.masks, line));
      assert Masking(c.name) ==> Masked(h, s, stdout, line, c.name);
    } else if Garbled(h, s, stdout, line) {
      GarbledListens(h, s, stdout, line);
      GarbledLine(h, s, stdout, line, name);
    } else if Listening(s, stdout) && !h.marker(line).NoMarker? {
      MarkerLine(s, step, h.marker(line), line);
    }
  }

  lemma EventLine(h: Host, s: State, step: string, stdout: bool, line: string)
    ensures var o := Process(h, s, step, stdout, line).1;
            o.event.Some? ==> o.line == o.event.value.section.name && o.diagnostic == ""
  {
    hide Process, SectionID;
    LineMoves(h, s, step, stdout, line);
  }

  lemma GarbledListens(h: Host, s: State, stdout: bool, line: string)
    requires Garbled(h, s, stdout, line)
    ensures Listening(s, stdout) && h.marker(line).NoMarker? && forall c :: !Heard(h, s, stdout, line, c)
  {
  }

  lemma HeardIsNotGarbled(h: Host, s: State, stdout: bool, line: string, c: Syntax.Command)
    requires Heard(h, s, stdout, line, c)
    ensures !Garbled(h, s, stdout, line)
  {
  }

  lemma CommandLine(h: Host, s: State, step: string, c: Syntax.Command, redacted: string)
    ensures var o := ProcessCommand(h, s, step, c, redacted).1;
            && (Masking(c.name) ==> o.line == "::" + c.name + "::***")
            && ((c.name == "group" || c.name == "endgroup") && o.event.None? ==> o.line == "github log group ignored")
            && (!Masking(c.name) && c.name != "group" && c.name != "endgroup" ==> o.line == redacted)
  {
    hide AddMask, Annotate, ValidStopToken, Size, StartSection, EndSection;
    assert "::" + "add-mask" + "::***" == "::add-mask::***";
    assert "::" + "stop-commands" + "::***" == "::stop-commands::***";
  }

  lemma GarbledLine(h: Host, s: State, stdout: bool, line: string, name: string)
    requires Garbled(h, s, stdout, line) && "::" <= line
    ensures var o := ProcessMalformed(h, line, Redact(s.masks, line));
            && (Names(h, line, name) && Masking(name) ==> o.line == "::" + name + "::***")
            && (o.line == Redact(s.masks, line) || exists n :: Masked(h, s, stdout, line, n))
            && o.event.None?
  {
    hide Redact, Names, Garbled, NameOf;
    NamesIs(h, line, name);
    var n := NameOf(h, line);
    NamesIs(h, line, n);
    if Masking(n) {
      assert Masked(h, s, stdout, line, n);
    }
  }

  lemma MarkerLine(s: State, step: string, marker: Marker, line: string)
    ensures var o := ProcessMarker(s, step, marker, line).1;
            o.event.None? ==> o.line == "gitlab section marker ignored" && o.diagnostic != ""
  {
    hide StartSection, EndSection;
  }

  // -------------------------------------------------------------- diagnostics

  /** Why a line is refused, if it is. */
  datatype Refusal = NotRefused | BadMarkerText | BadNesting | BadMask | BadToken | TooManyAnnotations
    | BadAnnotation | BadGroup | BadEnd | BadCommand

  function Reason(r: Refusal): string {
    match r
    case NotRefused => ""
    case BadMarkerText => "invalid GitLab log section marker"
    case BadNesting => "invalid GitLab log section nesting"
    case BadMask => "mask is empty or the job mask limit was reached"
    case BadToken => "invalid stop token"
    case TooManyAnnotations => "step annotation limit reached"
    case BadAnnotation => "invalid annotation"
    case BadGroup => "invalid GitHub log group"
    case BadEnd => "unmatched GitHub endgroup"
    case BadCommand => "malformed or oversized command"
  }

  function Told(r: Refusal): string {
    if r == NotRefused then "" else "workflow command ignored: " + Reason(r)
  }

  /** A value is taken, as a mask already there or a new one, unless it is empty, too long, or
      new when all dynamic masks are used up. */
  ghost predicate Taken(s: State, value: string) {
    Maskable(value) && (value in s.masks || s.dynamicMasks < MAX_MASKS)
  }

  lemma {:induction false} AcceptedStays(masks: seq<string>, count: nat, candidates: seq<string>)
    ensures AddCandidates(masks, count, candidates, true, true).accepted
    decreases |candidates|
  {
    if candidates != [] {
      if candidates[0] in masks {
        AcceptedStays(masks, count, candidates[1..]);
      } else if count < MAX_MASKS {
        AcceptedStays(masks + [candidates[0]], count + 1, candidates[1..]);
      }
    }
  }

  /** An add without room says whether it took the value; it takes the value before its words. */
  lemma AddMaskAccepts(s: State, value: string)
    ensures AddMask(s, value, true).1 <==> Taken(s, value)
    ensures Taken(s, value) ==> value in AddMask(s, value, true).0.masks
  {
    hide SortBySize, Fields, Size;
    if Maskable(value) {
      var candidates := [value] + Fields(value, "");
      assert candidates[0] == value && candidates[1..] == Fields(value, "");
      var m := AddCandidates(s.masks, s.dynamicMasks, candidates, true, false);
      SortHolds(m.masks);
      if value in s.masks {
        AcceptedStays(s.masks, s.dynamicMasks, candidates[1..]);
        CandidatesStay(s.masks, s.dynamicMasks, candidates, value);
      } else if s.dynamicMasks < MAX_MASKS {
        AcceptedStays(s.masks + [value], s.dynamicMasks + 1, candidates[1..]);
        CandidatesStay(s.masks + [value], s.dynamicMasks + 1, candidates[1..], value);
      }
    }
  }

  lemma SortHolds(masks: seq<string>)
    ensures forall x :: x in SortBySize(masks) <==> x in masks
  {
    assert forall x :: x in SortBySize(masks) <==> x in multiset(SortBySize(masks));
    assert forall x :: x in masks <==> x in multiset(masks);
  }

  lemma {:induction false} CandidatesStay(masks: seq<string>, count: nat, candidates: seq<string>, x: string)
    requires x in masks
    ensures forall accepted :: x in AddCandidates(masks, count, candidates, true, accepted).masks
    decreases |candidates|
  {
    if candidates != [] {
      if candidates[0] in masks {
        CandidatesStay(masks, count, candidates[1..], x);
      } else if count < MAX_MASKS {
        CandidatesStay(masks + [candidates[0]], count + 1, candidates[1..], x);
      }
    }
  }

  /** The line is refused for this reason. */
  ghost predicate Refused(h: Host, s: State, step: string, stdout: bool, line: string, r: Refusal) {
    var event := Process(h, s, step, stdout, line).1.event;
    match r
    case BadMarkerText => Listening(s, stdout) && h.marker(line).BadMarker?
    case BadNesting => && Listening(s, stdout) && (h.marker(line).StartMarker? || h.marker(line).EndMarker?)
                       && event.None?
    case BadMask => exists c :: Heard(h, s, stdout, line, c) && c.name == "add-mask" && !Taken(s, c.data)
    case BadToken => exists c :: Heard(h, s, stdout, line, c) && c.name == "stop-commands" && !GoodToken(h, c.data)
    case TooManyAnnotations =>
      && Count(s.counts, step) >= MAX_ANNOTATIONS && exists c :: Heard(h, s, stdout, line, c) && Level(c.name)
    case BadAnnotation =>
      && Count(s.counts, step) < MAX_ANNOTATIONS
      && exists c :: Heard(h, s, stdout, line, c) && Level(c.name) && forall a :: !Annotates(h, s, c, a)
    case BadGroup => event.None? && exists c :: Heard(h, s, stdout, line, c) && c.name == "group"
    case BadEnd => event.None? && exists c :: Heard(h, s, stdout, line, c) && c.name == "endgroup"
    case BadCommand => Garbled(h, s, stdout, line) && exists name :: Names(h, line, name) && Known(name)
    case NotRefused => false
  }

  /** A line has a diagnostic exactly if it is refused, and the diagnostic tells why. */
  lemma DiagnosticExactly(h: Host, s: State, step: string, stdout: bool, line: string, r: Refusal)
    ensures var o := Process(h, s, step, stdout, line).1;
            && (Refused(h, s, step, stdout, line, r) ==> o.diagnostic == Told(r))
            && (o.diagnostic != "" ==> exists why :: Refused(h, s, step, stdout, line, why))
  {
    hide Redact, ProcessCommand, ProcessMarker, ProcessMalformed, Heard, Garbled, Names, Annotates, Taken, GoodToken;
    Cases(h, s, step, stdout, line);
    NotHeard(h, s, step, stdout, line);
    var (t, o) := Process(h, s, step, stdout, line);
    if c :| Heard(h, s, stdout, line, c) {
      OneHeard(h, s, stdout, line, c);
      HeardListens(h, s, stdout, line, c);
      HeardIsNotGarbled(h, s, stdout, line, c);
      CommandTold(h, s, step, c, Redact(s.masks, line));
      var why := CommandRefusal(h, s, step, c, o.event.Some?);
      HeardRefused(h, s, step, stdout, line, c, r);
      HeardRefused(h, s, step, stdout, line, c, why);
    } else if Garbled(h, s, stdout, line) {
      GarbledListens(h, s, stdout, line);
      GarbledTold(h, s, step, stdout, line, r);
    } else if Listening(s, stdout) && !h.marker(line).NoMarker? {
      MarkerTold(h, s, step, stdout, line, r);
    }
  }

  /** Why a command is refused. */
  ghost function CommandRefusal(h: Host, s: State, step: string, c: Syntax.Command, moved: bool): Refusal {
    if c.name == "add-mask" then if Taken(s, c.data) then NotRefused else BadMask
    else if c.name == "stop-commands" then if GoodToken(h, c.data) then NotRefused else BadToken
    else if Level(c.name) then
      if Count(s.counts, step) >= MAX_ANNOTATIONS then TooManyAnnotations
      else if exists a :: Annotates(h, s, c, a) then NotRefused
      else BadAnnotation
    else if c.name == "group" && !moved then BadGroup
    else if c.name == "endgroup" && !moved then BadEnd
    else NotRefused
  }

  lemma CommandTold(h: Host, s: State, step: string, c: Syntax.Command, redacted: string)
    ensures var o := ProcessCommand(h, s, step, c, redacted).1;
            o.diagnostic == Told(CommandRefusal(h, s, step, c, o.event.Some?))
  {
    hide AddMask, Annotates, ValidStopToken, GoodToken, Taken, Size, ProcessGroup, ProcessAnnotation, Reason;
    GroupTold(s, step, c);
    if Level(c.name) {
      AnnotationTold(h, s, step, c, redacted);
    } else if Masking(c.name) {
      MaskingTold(h, s, step, c, redacted);
    }
  }

  lemma MaskingTold(h: Host, s: State, step: string, c: Syntax.Command, redacted: string)
    requires Masking(c.name)
    ensures var o := ProcessCommand(h, s, step, c, redacted).1;
            o.diagnostic == Told(CommandRefusal(h, s, step, c, o.event.Some?))
  {
    hide AddMask, ValidStopToken, GoodToken, Taken, Size;
    AddMaskAccepts(s, c.data);
    TokenIs(h, c.data);
  }

  lemma AnnotationTold(h: Host, s: State, step: string, c: Syntax.Command, redacted: string)
    requires Level(c.name)
    ensures var o := ProcessAnnotation(h, s, step, c, redacted).1;
            o.diagnostic == Told(CommandRefusal(h, s, step, c, o.event.Some?))
  {
    hide Annotate, Annotates, GoodToken, Taken;
    forall a ensures Annotate(h, s, c) == Some(a) <==> Annotates(h, s, c, a) {
      AnnotatesIs(h, s, c, a);
    }
    if Annotate(h, s, c).Some? {
      assert Annotates(h, s, c, Annotate(h, s, c).value);
    }
  }

  lemma GroupTold(s: State, step: string, c: Syntax.Command)
    ensures var o := ProcessGroup(s, step, c).1;
            o.diagnostic == Told(if o.event.Some? then NotRefused else if c.name == "group" then BadGroup else BadEnd)
  {
    hide StartSection, EndSection;
  }

  lemma HeardRefused(h: Host, s: State, step: string, stdout: bool, line: string, c: Syntax.Command, r: Refusal)
    requires Heard(h, s, stdout, line, c)
    ensures Refused(h, s, step, stdout, line, r) <==>
            r != NotRefused && r == CommandRefusal(h, s, step, c, Process(h, s, step, stdout, line).1.event.Some?)
  {
    hide Process, Heard, Garbled, Names, Annotates, Taken, GoodToken;
    OneHeard(h, s, stdout, line, c);
    HeardListens(h, s, stdout, line, c);
    HeardIsNotGarbled(h, s, stdout, line, c);
  }

  lemma GarbledTold(h: Host, s: State, step: string, stdout: bool, line: string, r: Refusal)
    requires Garbled(h, s, stdout, line) && "::" <= line
    requires Process(h, s, step, stdout, line).1 == ProcessMalformed(h, line, Redact(s.masks, line))
    ensures var o := ProcessMalformed(h, line, Redact(s.masks, line));
            && (Refused(h, s, step, stdout, line, r) ==> o.diagnostic == Told(r))
            && (o.diagnostic != "" ==> Refused(h, s, step, stdout, line, BadCommand))
  {
    hide Process, Redact, Heard, Garbled, Names, NameOf, Annotates, Taken, GoodToken, Count;
    GarbledListens(h, s, stdout, line);
    var n := NameOf(h, line);
    forall name ensures Names(h, line, name) <==> name == n {
      NamesIs(h, line, name);
    }
    if Supported(n) {
      assert Names(h, line, n) && Known(n);
    }
  }

  lemma MarkerTold(h: Host, s: State, step: string, stdout: bool, line: string, r: Refusal)
    requires Listening(s, stdout) && !h.marker(line).NoMarker?
    requires Process(h, s, step, stdout, line) == ProcessMarker(s, step, h.marker(line), line)
    ensures var o := ProcessMarker(s, step, h.marker(line), line).1;
            && (Refused(h, s, step, stdout, line, r) ==> o.diagnostic == Told(r))
            && (o.diagnostic != "" ==> exists why :: Refused(h, s, step, stdout, line, why))
  {
    hide Process, ProcessMarker, Annotates, Taken, GoodToken, Heard, Garbled, Names, Reason;
    forall c ensures !Heard(h, s, stdout, line, c) {
      if Heard(h, s, stdout, line, c) {
        HeardListens(h, s, stdout, line, c);
      }
    }
    if Garbled(h, s, stdout, line) {
      GarbledListens(h, s, stdout, line);
    }
    var why := if h.marker(line).BadMarker? then BadMarkerText else BadNesting;
    MarkerReason(s, step, h.marker(line), line);
    if ProcessMarker(s, step, h.marker(line), line).1.diagnostic != "" {
      assert Refused(h, s, step, stdout, line, why);
    }
  }

  lemma MarkerReason(s: State, step: string, marker: Marker, line: string)
    requires !marker.NoMarker?
    ensures var o := ProcessMarker(s, step, marker, line).1;
            && o.diagnostic == Told(if marker.BadMarker? then BadMarkerText
                                    else if o.event.None? then BadNesting else NotRefused)
            && (marker.BadMarker? ==> o.event.None?)
  {
    hide StartSection, EndSection;
  }

  // -------------------------------------------------------------- whole runs

  /** The annotations of a step among the outcomes. */
  ghost function Annotated(step: string, inputs: seq<Input>, outcomes: seq<Outcome>): nat
    requires |inputs| == |outcomes|
  {
    |set n | 0 <= n < |inputs| && inputs[n].step == step && outcomes[n].annotation.Some?|
  }

  lemma AnnotatedStep(step: string, inputs: seq<Input>, outcomes: seq<Outcome>, i: Input, o: Outcome)
    requires |inputs| == |outcomes|
    ensures Annotated(step, inputs + [i], outcomes + [o]) ==
            Annotated(step, inputs, outcomes) + if i.step == step && o.annotation.Some? then 1 else 0
  {
    var n := |inputs|;
    var before := set k | 0 <= k < n && inputs[k].step == step && outcomes[k].annotation.Some?;
    var all := inputs + [i];
    var after := set k | 0 <= k < n + 1 && all[k].step == step && (outcomes + [o])[k].annotation.Some?;
    assert after == before + if i.step == step && o.annotation.Some? then {n} else {};
  }

  /** Over every run, the counter of a step is the number of lines that annotated it so far, so
      that an annotation comes exactly from a command that gives one while there were fewer than 50. */
  lemma {:induction false} AnnotationsAreCounted(h: Host, s: State, inputs: seq<Input>, step: string)
    requires Count(s.counts, step) == 0
    ensures var (t, outcomes) := Run(h, s, inputs);
            Count(t.counts, step) == Annotated(step, inputs, outcomes) <= MAX_ANNOTATIONS
  {
    hide Process, Annotated;
    if inputs == [] {
      NoneAnnotated(step);
    } else {
      var n := |inputs| - 1;
      var (t, outcomes) := Run(h, s, inputs[..n]);
      var i := inputs[n];
      AnnotationsAreCounted(h, s, inputs[..n], step);
      var o := Process(h, t, i.step, i.stdout, i.line).1;
      assert inputs == inputs[..n] + [i];
      AnnotatedStep(step, inputs[..n], outcomes, i, o);
      AnnotationExactly(h, t, i.step, i.stdout, i.line, if o.annotation.Some? then o.annotation.value else NOTHING);
    }
  }

  const NOTHING := Annotation("", "", "", "")

  lemma NoneAnnotated(step: string)
    ensures Annotated(step, [], []) == 0
  {
  }

  /** Over every run, an annotation comes exactly from a command that gives one while fewer than
      fifty lines annotated the step. */
  lemma RunAnnotatesExactly(h: Host, s: State, inputs: seq<Input>, n: nat, a: Annotation)
    requires n < |inputs| && Count(s.counts, inputs[n].step) == 0
    ensures var (t, before) := Run(h, s, inputs[..n]); var i := inputs[n];
            Run(h, s, inputs).1[n].annotation == Some(a) <==>
            && Annotated(i.step, inputs[..n], before) < MAX_ANNOTATIONS
            && exists c :: Heard(h, t, i.stdout, i.line, c) && Annotates(h, t, c, a)
  {
    hide Process, Annotated, Heard, Annotates, Count;
    var i := inputs[n];
    OutcomeIs(h, s, inputs, n);
    AnnotationsAreCounted(h, s, inputs[..n], i.step);
    AnnotationExactly(h, Run(h, s, inputs[..n]).0, i.step, i.stdout, i.line, a);
  }

  /** Over every run, a section is closed by a line that may close it, behind a line of the same
      step that asked for it: under the name that line gave it. */
  lemma ClosedAsOpened(h: Host, s: State, inputs: seq<Input>, n: nat, section: Section)
    requires n < |inputs| && forall step :: Stack(s, step) == []
    requires Run(h, s, inputs).1[n].event == Some(End(section))
    ensures IsClosed(h, Run(h, s, inputs[..n]).0, inputs[n].step, inputs[n].stdout, inputs[n].line, section)
    ensures exists m: nat :: m < n && OpenedBy(h, s, inputs, m, inputs[n].step, section)
  {
    hide Process, Stack, Hides, IsOpened, IsClosed, OpenedAt;
    var i, t := inputs[n], Run(h, s, inputs[..n]).0;
    OutcomeIs(h, s, inputs, n);
    SectionsExactly(h, t, i.step, i.stdout, i.line, section);
    LineMoves(h, t, i.step, i.stdout, i.line);
    OpenSectionsWereOpened(h, s, inputs[..n], i.step, section);
    EarlierPart(h, s, inputs, n, i.step, section);
    var m: nat :| m < n && OpenedAt(h, s, inputs, m, i.step, section);
    OpenedIsAsked(h, s, inputs, m, i.step, section);
  }

  ghost predicate OpenedBy(h: Host, s: State, inputs: seq<Input>, m: nat, step: string, section: Section)
    requires m < |inputs|
  {
    inputs[m].step == step && IsOpened(h, Run(h, s, inputs[..m]).0, step, inputs[m].stdout, inputs[m].line, section)
  }

  lemma OpenedIsAsked(h: Host, s: State, inputs: seq<Input>, m: nat, step: string, section: Section)
    requires m < |inputs| && OpenedAt(h, s, inputs, m, step, section)
    ensures OpenedBy(h, s, inputs, m, step, section)
  {
    hide Process, Hides, IsOpened;
    SectionsExactly(h, Run(h, s, inputs[..m]).0, step, inputs[m].stdout, inputs[m].line, section);
  }
}
