// From the lines of a run to the stored log of one of its steps, and back to the page.
module LogCapture {
  import opened Text
  import opened Search
  import opened Redaction
  import Syntax = CommandSyntax
  import opened WorkflowCommands
  import opened LogSections

  // ------------------------------------------------------ what a line records

  function FirstItem(line: string, event: Option<Event>): Item {
    if event.None? then Text(line)
    else if event.value.Start? then Open(event.value.section)
    else Close(event.value.section)
  }

  function ItemsOf(o: Outcome): seq<Item> {
    [FirstItem(o.line, o.event)] + if o.diagnostic != "" then [LogSections.Text(o.diagnostic)] else []
  }

  /** What the lines of one step record, other steps running in between. */
  function StepItems(step: string, inputs: seq<Input>, outcomes: seq<Outcome>): seq<Item>
    requires |inputs| == |outcomes|
  {
    if inputs == [] then []
    else
      var n := |inputs| - 1;
      StepItems(step, inputs[..n], outcomes[..n]) + if inputs[n].step == step then ItemsOf(outcomes[n]) else []
  }

  // ------------------------------------------------------ the items are nested

  /** The items recorded so far match the open sections and the ids given out. */
  ghost predicate Recorded(step: string, items: seq<Item>, s: State) {
    && Replay(items) == Some(Stack(s, step))
    && |OpenedIDs(items)| == Count(s.sectionCount, step)
    && forall k :: 0 <= k < |OpenedIDs(items)| ==> OpenedIDs(items)[k] == SectionID(step, k + 1)
  }

  lemma OneMoreItem(items: seq<Item>, item: Item)
    ensures OpenedIDs(items + [item]) == OpenedIDs(items) + (if item.Open? then [item.section.id] else [])
    ensures item.Text? ==> Replay(items + [item]) == Replay(items)
    ensures Replay(items).Some? ==>
              var stack := Replay(items).value;
              && (item.Open? && item.section.depth == |stack| ==>
                  Replay(items + [item]) == Some(stack + [item.section]))
              && (item.Close? && stack != [] && stack[|stack| - 1] == item.section ==>
                  Replay(items + [item]) == Some(stack[..|stack| - 1]))
  {
    assert (items + [item])[..|items|] == items;
  }

  lemma LineRecorded(step: string, items: seq<Item>, s: State, t: State, o: Outcome)
    requires Recorded(step, items, s) && SectionsMoved(s, t, step, o)
    ensures Recorded(step, items + ItemsOf(o), t)
  {
    hide SectionID, Replay, OpenedIDs;
    var first := ItemsOf(o)[0];
    OneMoreItem(items, first);
    if o.diagnostic == "" {
      assert ItemsOf(o) == [first];
    } else {
      OneMoreItem(items + [first], Text(o.diagnostic));
      assert items + [first] + [LogSections.Text(o.diagnostic)] == items + ItemsOf(o);
    }
  }

  lemma {:induction false} RunRecorded(h: Host, s: State, inputs: seq<Input>, step: string)
    requires Stack(s, step) == [] && Count(s.sectionCount, step) == 0
    ensures var (t, outcomes) := Run(h, s, inputs); Recorded(step, StepItems(step, inputs, outcomes), t)
  {
    hide Process, SectionID, ItemsOf;
    if inputs == [] {
    } else {
      var n := |inputs| - 1;
      RunRecorded(h, s, inputs[..n], step);
      var (u, before) := Run(h, s, inputs[..n]);
      var (t, outcomes) := Run(h, s, inputs);
      assert outcomes[..n] == before;
      LineMoves(h, u, inputs[n].step, inputs[n].stdout, inputs[n].line);
      if inputs[n].step == step {
        LineRecorded(step, StepItems(step, inputs[..n], before), u, t, outcomes[n]);
      } else {
        assert StepItems(step, inputs[..n], before) + [] == StepItems(step, inputs[..n], before);
      }
    }
  }

  /** The events of a step are well nested: each section is opened at the depth of the stack,
      under an id of its own, and only the innermost one is ever closed. */
  lemma EventsAreNested(h: Host, s: State, inputs: seq<Input>, step: string)
    requires Stack(s, step) == [] && Count(s.sectionCount, step) == 0
    ensures WellNested(StepItems(step, inputs, Run(h, s, inputs).1))
  {
    hide SectionID, Run, StepItems, OpenedIDs, Replay;
    var items := StepItems(step, inputs, Run(h, s, inputs).1);
    var ids := OpenedIDs(items);
    RunRecorded(h, s, inputs, step);
    forall i, j | 0 <= i < j < |ids| ensures ids[i] != ids[j] {
      if ids[i] == ids[j] {
        SectionIDInjective(step, i + 1, j + 1);
      }
    }
  }

  /** The page of a step is the forest its lines meant, whatever the lines of the job were. */
  lemma StepLogRoundTrip(h: Host, s: State, inputs: seq<Input>, step: string, seqs: seq<nat>)
    requires Stack(s, step) == [] && Count(s.sectionCount, step) == 0
    requires |seqs| == |StepItems(step, inputs, Run(h, s, inputs).1)| && Rising(seqs)
    ensures var items := StepItems(step, inputs, Run(h, s, inputs).1); var n := |items|;
            && WellNested(items)
            && BuildTrees(LinesOf(items, seqs), RowsOf(items, seqs)) == Forest(items, seqs)
            && Flatten(Forest(items, seqs)) == PlainLines(items, seqs, 0, n)
  {
    EventsAreNested(h, s, inputs, step);
    BuildsTheForest(StepItems(step, inputs, Run(h, s, inputs).1), seqs);
  }

  // ------------------------------------------------------------------ storing

  lemma OneMoreLogged(items: seq<Item>, seqs: seq<nat>, item: Item, q: nat)
    requires |items| == |seqs|
    ensures LinesOf(items + [item], seqs + [q]) == LinesOf(items, seqs) + [LogLine(q, ItemText(item))]
    ensures RowsOf(items + [item], seqs + [q]) ==
            if item.Text? then RowsOf(items, seqs)
            else if item.Open? then RowsOf(items, seqs) + [SectionRow(item.section, q)]
            else Ended(RowsOf(items, seqs), item.section.id, q)
  {
    assert (items + [item])[..|items|] == items && (seqs + [q])[..|items|] == seqs;
  }

  /** The log of one step in the store. */
  class StepLog {
    var lines: seq<LogLine>
    var rows: seq<Row>
    var next: nat
    ghost var items: seq<Item>
    ghost var seqs: seq<nat>

    ghost predicate Valid()
      reads this
    {
      && |items| == |seqs| && Rising(seqs) && (forall i :: 0 <= i < |seqs| ==> seqs[i] < next)
      && lines == LinesOf(items, seqs) && rows == RowsOf(items, seqs)
    }

    constructor ()
      ensures Valid() && items == []
    {
      lines, rows, next := [], [], 1;
      items, seqs := [], [];
    }

    method AppendLogLine(text: string) returns (sequence: nat)
      modifies this
      ensures lines == old(lines) + [LogLine(sequence, text)] && sequence == old(next) && next == sequence + 1
      ensures rows == old(rows) && items == old(items) && seqs == old(seqs)
    {
      sequence := next;
      lines, next := lines + [LogLine(sequence, text)], next + 1;
    }

    method StartStepLogSection(section: Section, start: nat)
      modifies this`rows
      ensures rows == old(rows) + [SectionRow(section, start)]
    {
      rows := rows + [SectionRow(section, start)];
    }

    method FinishStepLogSection(id: string, end: nat)
      modifies this`rows
      ensures rows == Ended(old(rows), id, end)
    {
      rows := Ended(rows, id, end);
    }

    /** One line and the section it opens or closes. */
    method RecordItem(text: string, event: Option<Event>)
      requires Valid() && ItemText(FirstItem(text, event)) == text
      modifies this
      ensures Valid() && items == old(items) + [FirstItem(text, event)]
    {
      hide Ended, RowsOf, LinesOf;
      ghost var item := FirstItem(text, event);
      var q := AppendLogLine(text);
      if event.Some? {
        if event.value.Start? {
          StartStepLogSection(event.value.section, q);
        } else {
          FinishStepLogSection(event.value.section.id, q);
        }
      }
      OneMoreLogged(items, seqs, item, q);
      items, seqs := items + [item], seqs + [q];
    }

    /** The loop of captureLines: every line is processed, logged, and its section stored. */
    method CaptureLines(h: Host, state: WorkflowCommandState, step: string, stdout: bool, texts: seq<string>)
      returns (ghost outcomes: seq<Outcome>)
      requires Valid()
      modifies this, state
      ensures Valid()
      ensures (state.Value(), outcomes) == Run(h, old(state.Value()), LineInputs(step, stdout, texts))
      ensures items == old(items) + StepItems(step, LineInputs(step, stdout, texts), outcomes)
    {
      hide Process, Valid, ItemsOf, LineInputs, Run, StepItems, SectionsMoved;
      outcomes := [];
      assert texts[..0] == [];
      NothingRun(h, state.Value(), step, stdout);
      for n := 0 to |texts|
        invariant Valid()
        invariant (state.Value(), outcomes) == Run(h, old(state.Value()), LineInputs(step, stdout, texts[..n]))
        invariant items == old(items) + StepItems(step, LineInputs(step, stdout, texts[..n]), outcomes)
      {
        LineIsSection(h, state.Value(), step, stdout, texts[n]);
        InputsNext(step, stdout, texts, n);
        RunNext(h, old(state.Value()), LineInputs(step, stdout, texts[..n]), Input(step, stdout, texts[n]));
        var o := state.ProcessLine(h, step, stdout, texts[n]);
        RecordOutcome(o);
        ItemsNext(step, LineInputs(step, stdout, texts[..n]), Input(step, stdout, texts[n]), outcomes, o);
        MoreItems(old(items), StepItems(step, LineInputs(step, stdout, texts[..n]), outcomes), ItemsOf(o));
        outcomes := outcomes + [o];
      }
      assert texts[..|texts|] == texts;
    }

    method RecordOutcome(o: Outcome)
      requires Valid() && (o.event.Some? ==> o.line == o.event.value.section.name)
      modifies this
      ensures Valid() && items == old(items) + ItemsOf(o)
    {
      hide Valid;
      RecordItem(o.line, o.event);
      if o.diagnostic != "" {
        RecordItem(o.diagnostic, None);
      }
    }
  }

  lemma NothingRun(h: Host, s: State, step: string, stdout: bool)
    ensures LineInputs(step, stdout, []) == []
    ensures Run(h, s, []) == (s, []) && StepItems(step, [], []) == []
  {
  }

  lemma RunNext(h: Host, s: State, inputs: seq<Input>, i: Input)
    ensures var (t, outcomes) := Run(h, s, inputs); var (u, o) := Process(h, t, i.step, i.stdout, i.line);
            Run(h, s, inputs + [i]) == (u, outcomes + [o])
  {
    hide Process;
    assert (inputs + [i])[..|inputs|] == inputs;
  }

  lemma ItemsNext(step: string, inputs: seq<Input>, i: Input, outcomes: seq<Outcome>, o: Outcome)
    requires |inputs| == |outcomes| && i.step == step
    ensures StepItems(step, inputs + [i], outcomes + [o]) == StepItems(step, inputs, outcomes) + ItemsOf(o)
  {
    hide ItemsOf;
    assert (inputs + [i])[..|inputs|] == inputs && (outcomes + [o])[..|outcomes|] == outcomes;
  }

  lemma MoreItems(a: seq<Item>, b: seq<Item>, c: seq<Item>)
    ensures a + b + c == a + (b + c)
  {
  }

  lemma LineIsSection(h: Host, s: State, step: string, stdout: bool, line: string)
    ensures var o := Process(h, s, step, stdout, line).1; o.event.Some? ==> o.line == o.event.value.section.name
  {
    hide Process;
    LineMoves(h, s, step, stdout, line);
  }

  lemma InputsNext(step: string, stdout: bool, texts: seq<string>, n: nat)
    requires n < |texts|
    ensures LineInputs(step, stdout, texts[..n + 1]) == LineInputs(step, stdout, texts[..n]) +
        [Input(step, stdout, texts[n])]
  {
  }

  function LineInputs(step: string, stdout: bool, texts: seq<string>): (r: seq<Input>)
    ensures |r| == |texts|
  {
    seq(|texts|, i requires 0 <= i < |texts| => Input(step, stdout, texts[i]))
  }
}
