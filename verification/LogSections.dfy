// The log tree of a step: how sections and lines are laid out as nested groups, and what
// the recorded events of a step make of it.
module LogSections {
  import opened WorkflowCommands

  // ------------------------------------------------------------------- rows

  datatype LogLine = LogLine(sequence: nat, text: string)

  /** A stored section. */
  datatype Row = Row(id: string, name: string, provider: Provider, depth: nat, collapsed: bool, start: nat,
      end: Option<nat>)

  datatype Head = Head(id: string, provider: Provider, name: string, dot: string, expanded: bool)

  function HeadOf(row: Row): Head {
    Head(row.id, row.provider, row.name, if row.provider == GitLab then "green" else "blue", !row.collapsed)
  }

  datatype Tree =
    | Leaf(line: LogLine)
    | Group(head: Head, entries: seq<Tree>, lineCount: nat)

  // ---------------------------------------------------------------- the page

  predicate RowLess(a: Row, b: Row) {
    if a.start == b.start then a.depth < b.depth else a.start < b.start
  }

  function InsertRow(rows: seq<Row>, row: Row): seq<Row> {
    if rows == [] || !RowLess(row, rows[|rows| - 1]) then rows + [row]
    else InsertRow(rows[..|rows| - 1], row) + [rows[|rows| - 1]]
  }

  /** sort.SliceStable by start and depth. */
  function SortRows(rows: seq<Row>): seq<Row> {
    if rows == [] then [] else InsertRow(SortRows(rows[..|rows| - 1]), rows[|rows| - 1])
  }

  function StartsAt(rows: seq<Row>, q: nat): seq<Row> {
    if rows == [] then []
    else
      var n := |rows| - 1;
      StartsAt(rows[..n], q) + if rows[n].start == q then [rows[n]] else []
  }

  function EndsAt(rows: seq<Row>, q: nat): seq<Row> {
    if rows == [] then []
    else
      var n := |rows| - 1;
      EndsAt(rows[..n], q) + if rows[n].end == Some(q) then [rows[n]] else []
  }

  /** A group that is still open, with what it holds so far. */
  datatype Frame = Frame(head: Head, done: seq<Tree>, lineCount: nat)

  /** The tree so far: what is done at the top level, and the open groups from outside in. */
  datatype Page = Page(done: seq<Tree>, frames: seq<Frame>)

  function AddTree(p: Page, t: Tree): Page {
    if p.frames == [] then p.(done := p.done + [t])
    else
      var n := |p.frames| - 1;
      p.(frames := p.frames[n := p.frames[n].(done := p.frames[n].done + [t])])
  }

  function Counted(frames: seq<Frame>, more: nat): (r: seq<Frame>)
    ensures |r| == |frames|
  {
    seq(|frames|, i requires 0 <= i < |frames| => frames[i].(lineCount := frames[i].lineCount + more))
  }

  function AddLine(p: Page, line: LogLine): Page {
    var q := AddTree(p, Leaf(line));
    q.(frames := Counted(q.frames, 1))
  }

  function OpenGroup(p: Page, row: Row): Page {
    p.(frames := p.frames + [Frame(HeadOf(row), [], 0)])
  }

  function OpenGroups(p: Page, rows: seq<Row>): Page
    decreases |rows|
  {
    if rows == [] then p else OpenGroups(OpenGroup(p, rows[0]), rows[1..])
  }

  function CloseTop(p: Page): Page
    requires p.frames != []
  {
    var n := |p.frames| - 1;
    AddTree(p.(frames := p.frames[..n]), Group(p.frames[n].head, p.frames[n].done, p.frames[n].lineCount))
  }

  /** Close groups from the inside until height are left. */
  function CloseTo(p: Page, height: nat): (r: Page)
    requires height <= |p.frames|
    ensures |r.frames| == height
    decreases |p.frames|
  {
    if |p.frames| == height then p else CloseTo(CloseTop(p), height)
  }

  /** The height of the innermost open group with an id, or none. */
  function HeightOf(frames: seq<Frame>, id: string): (h: int)
    ensures -1 <= h < |frames|
    ensures h >= 0 ==> frames[h].head.id == id && forall i :: h < i < |frames| ==> frames[i].head.id != id
    ensures h < 0 ==> forall i :: 0 <= i < |frames| ==> frames[i].head.id != id
  {
    if frames == [] then -1
    else if frames[|frames| - 1].head.id == id then |frames| - 1
    else HeightOf(frames[..|frames| - 1], id)
  }

  function CloseGroup(p: Page, row: Row): Page {
    var h := HeightOf(p.frames, row.id);
    if h < 0 then p else CloseTo(p, h)
  }

  function CloseGroups(p: Page, rows: seq<Row>): Page
    decreases |rows|
  {
    if rows == [] then p else CloseGroups(CloseGroup(p, rows[0]), rows[1..])
  }

  /** One line of buildStepLogEntries. */
  function PutLine(p: Page, line: LogLine, starts: seq<Row>, ends: seq<Row>): Page {
    var q := OpenGroups(p, starts);
    CloseGroups(if starts == [] && ends == [] then AddLine(q, line) else q, ends)
  }

  function PutLines(p: Page, lines: seq<LogLine>, rows: seq<Row>): Page {
    if lines == [] then p
    else
      var n := |lines| - 1;
      var q := lines[n].sequence;
      PutLine(PutLines(p, lines[..n], rows), lines[n], StartsAt(rows, q), EndsAt(rows, q))
  }

  function Finished(p: Page): seq<Tree> {
    CloseTo(p, 0).done
  }

  /** buildStepLogEntries as a value. */
  function BuildTrees(lines: seq<LogLine>, rows: seq<Row>): seq<Tree> {
    Finished(PutLines(Page([], []), lines, SortRows(rows)))
  }

  // ------------------------------------------------------------ what was said

  /** What one line of the log was recorded as. */
  datatype Item = Text(text: string) | Open(section: Section) | Close(section: Section)

  function ItemText(item: Item): string {
    match item
    case Text(text) => text
    case Open(section) => section.name
    case Close(section) => section.name
  }

  /** Log lines get rising sequence numbers. */
  predicate Rising(seqs: seq<nat>) {
    forall i, j :: 0 <= i < j < |seqs| ==> seqs[i] < seqs[j]
  }

  function LinesOf(items: seq<Item>, seqs: seq<nat>): (r: seq<LogLine>)
    requires |items| == |seqs|
    ensures |r| == |items|
  {
    seq(|items|, i requires 0 <= i < |items| => LogLine(seqs[i], ItemText(items[i])))
  }

  function SectionRow(section: Section, start: nat): Row {
    Row(section.id, section.name, section.provider, section.depth, section.collapsed, start, None)
  }

  /** FinishStepLogSection. */
  function Ended(rows: seq<Row>, id: string, end: nat): (r: seq<Row>)
    ensures |r| == |rows|
  {
    seq(|rows|, i requires 0 <= i < |rows| => if rows[i].id == id then rows[i].(end := Some(end)) else rows[i])
  }

  /** The sections the store holds after some items. */
  function RowsOf(items: seq<Item>, seqs: seq<nat>): seq<Row>
    requires |items| == |seqs|
  {
    if items == [] then []
    else
      var n := |items| - 1;
      var before := RowsOf(items[..n], seqs[..n]);
      match items[n]
      case Text(_) => before
      case Open(section) => before + [SectionRow(section, seqs[n])]
      case Close(section) => Ended(before, section.id, seqs[n])
  }

  /** The open sections after some items, if every close was that of the innermost one and
      every section was opened at its depth. */
  function Replay(items: seq<Item>): Option<seq<Section>> {
    if items == [] then Some([])
    else
      var n := |items| - 1;
      match Replay(items[..n])
      case None => None
      case Some(stack) =>
        match items[n]
        case Text(_) => Some(stack)
        case Open(section) => if section.depth == |stack| then Some(stack + [section]) else None
        case Close(section) => if stack != [] && stack[|stack| - 1] == section then Some(stack[..|stack| - 1]) else None
  }

  function OpenedIDs(items: seq<Item>): seq<string> {
    if items == [] then []
    else
      var n := |items| - 1;
      OpenedIDs(items[..n]) + if items[n].Open? then [items[n].section.id] else []
  }

  /** Well nested, with ids used once. */
  ghost predicate WellNested(items: seq<Item>) {
    Replay(items).Some? && forall i, j :: 0 <= i < j < |OpenedIDs(items)| ==> OpenedIDs(items)[i] != OpenedIDs(items)[j]
  }

  // -------------------------------------------------------- the forest it means

  /** The lines of some trees, in order. */
  function Flatten(trees: seq<Tree>): seq<LogLine> {
    if trees == [] then []
    else (match trees[0] case Leaf(line) => [line] case Group(_, entries, _) => Flatten(entries)) + Flatten(trees[1..])
  }

  /** How a section is shown: open unless it is collapsed, with a dot in the colour of its provider. */
  function HeadSaid(section: Section): Head {
    match section.provider
    case GitHub => Head(section.id, GitHub, section.name, "blue", !section.collapsed)
    case GitLab => Head(section.id, GitLab, section.name, "green", !section.collapsed)
  }

  lemma HeadIsSaid(section: Section, start: nat)
    ensures HeadOf(SectionRow(section, start)) == HeadSaid(section)
  {
  }

  function LeafCount(trees: seq<Tree>): nat {
    |Flatten(trees)|
  }

  /** The entries from item i to the close of the group they are in, or to the end. */
  function Parse(items: seq<Item>, seqs: seq<nat>, i: nat): (r: (seq<Tree>, nat))
    requires i <= |items| == |seqs|
    ensures i <= r.1 <= |items| && (r.1 < |items| ==> items[r.1].Close?)
    decreases |items| - i
  {
    if i == |items| || items[i].Close? then ([], i)
    else
      match items[i]
      case Text(text) =>
        var (rest, k) := Parse(items, seqs, i + 1);
        ([Leaf(LogLine(seqs[i], text))] + rest, k)
      case Open(section) =>
        var (inside, j) := Parse(items, seqs, i + 1);
        var (rest, k) := Parse(items, seqs, if j < |items| then j + 1 else j);
        ([Group(HeadSaid(section), inside, LeafCount(inside))] + rest, k)
  }

  function Forest(items: seq<Item>, seqs: seq<nat>): seq<Tree>
    requires |items| == |seqs|
  {
    Parse(items, seqs, 0).0
  }

  /** The lines that open or close nothing, from i to j. */
  function PlainLines(items: seq<Item>, seqs: seq<nat>, i: nat, j: nat): seq<LogLine>
    requires i <= j <= |items| == |seqs|
    decreases j - i
  {
    if i == j then []
    else (if items[i].Text? then [LogLine(seqs[i], items[i].text)] else []) + PlainLines(items, seqs, i + 1, j)
  }

  lemma {:induction false} FlattenConcat(a: seq<Tree>, b: seq<Tree>)
    ensures Flatten(a + b) == Flatten(a) + Flatten(b)
  {
    if a == [] {
      assert a + b == b;
    } else {
      assert (a + b)[1..] == a[1..] + b;
      FlattenConcat(a[1..], b);
    }
  }

  lemma FlattenNone()
    ensures Flatten([]) == []
  {
  }

  lemma FlattenFirst(t: Tree, rest: seq<Tree>)
    ensures Flatten([t] + rest) == (match t case Leaf(line) => [line] case Group(_, entries, _) => Flatten(entries)) +
        Flatten(rest)
  {
    assert ([t] + rest)[1..] == rest;
  }

  /** Flattened, the entries are the plain lines they span, each once and in order; so each
      group holds what lay between its markers. */
  lemma {:induction false} ParseFlattens(items: seq<Item>, seqs: seq<nat>, i: nat)
    requires i <= |items| == |seqs|
    ensures var (entries, j) := Parse(items, seqs, i); Flatten(entries) == PlainLines(items, seqs, i, j)
    decreases |items| - i
  {
    hide Flatten, HeadSaid, LeafCount;
    if i < |items| && !items[i].Close? {
      var (inside, j) := Parse(items, seqs, i + 1);
      ParseFlattens(items, seqs, i + 1);
      if items[i].Open? {
        var next := if j < |items| then j + 1 else j;
        var (rest, k) := Parse(items, seqs, next);
        ParseFlattens(items, seqs, next);
        FlattenFirst(Group(HeadSaid(items[i].section), inside, LeafCount(inside)), rest);
        PlainAcross(items, seqs, i + 1, j, k);
      } else {
        FlattenFirst(Leaf(LogLine(seqs[i], items[i].text)), inside);
      }
    } else {
      FlattenNone();
    }
  }

  /** The plain lines up to a close, and those behind it. */
  lemma {:induction false} PlainAcross(items: seq<Item>, seqs: seq<nat>, i: nat, j: nat, k: nat)
    requires i <= j <= k <= |items| == |seqs|
    requires j < |items| ==> j < k && items[j].Close?
    ensures var next := if j < |items| then j + 1 else j;
            PlainLines(items, seqs, i, k) == PlainLines(items, seqs, i, j) + PlainLines(items, seqs, next, k)
    decreases j - i
  {
    if i < j {
      PlainAcross(items, seqs, i + 1, j, k);
    }
  }

  // ------------------------------------------------------ the stack as it goes

  lemma {:induction false} ReplayPrefix(items: seq<Item>, n: nat)
    requires n <= |items| && Replay(items).Some?
    ensures Replay(items[..n]).Some?
    decreases |items|
  {
    if n < |items| {
      ReplayPrefix(items[..|items| - 1], n);
      assert items[..|items| - 1][..n] == items[..n];
    } else {
      assert items[..n] == items;
    }
  }

  function StackAt(items: seq<Item>, n: nat): seq<Section>
    requires n <= |items| && Replay(items).Some?
  {
    ReplayPrefix(items, n);
    Replay(items[..n]).value
  }

  lemma StackStep(items: seq<Item>, n: nat)
    requires n < |items| && Replay(items).Some?
    ensures var before, after := StackAt(items, n), StackAt(items, n + 1);
            match items[n]
            case Text(_) => after == before
            case Open(section) => section.depth == |before| && after == before + [section]
            case Close(section) => before != [] && before[|before| - 1] == section && after == before[..|before| - 1]
  {
    ReplayPrefix(items, n + 1);
    ReplayPrefix(items, n);
    assert items[..n + 1][..n] == items[..n];
  }

  /** Entries that end at a close leave the stack as it was, so the close is that of the
      section opened before them. */
  lemma {:induction false} ParseKeepsStack(items: seq<Item>, seqs: seq<nat>, i: nat)
    requires i <= |items| == |seqs| && Replay(items).Some?
    ensures var j := Parse(items, seqs, i).1; j < |items| ==> StackAt(items, j) == StackAt(items, i)
    decreases |items| - i
  {
    hide StackAt, Replay, HeadSaid, LeafCount;
    if i < |items| && !items[i].Close? {
      StackStep(items, i);
      ParseKeepsStack(items, seqs, i + 1);
      if items[i].Open? {
        var j := Parse(items, seqs, i + 1).1;
        if j < |items| {
          StackStep(items, j);
          ParseKeepsStack(items, seqs, j + 1);
        }
      }
    }
  }

  lemma GroupEndsWithItsClose(items: seq<Item>, seqs: seq<nat>, i: nat)
    requires i < |items| == |seqs| && Replay(items).Some? && items[i].Open?
    ensures var j := Parse(items, seqs, i + 1).1; j < |items| ==> items[j] == Close(items[i].section)
  {
    hide StackAt;
    var j := Parse(items, seqs, i + 1).1;
    StackStep(items, i);
    ParseKeepsStack(items, seqs, i + 1);
    if j < |items| {
      StackStep(items, j);
    }
  }

  // ------------------------------------------------------- the page as it goes

  /** What an item does to the page. */
  function PutItem(p: Page, item: Item, q: nat): Page {
    match item
    case Text(text) => AddLine(p, LogLine(q, text))
    case Open(section) => OpenGroup(p, SectionRow(section, q))
    case Close(_) => if p.frames == [] then p else CloseTop(p)
  }

  function PutItems(p: Page, items: seq<Item>, seqs: seq<nat>, i: nat, j: nat): Page
    requires i <= j <= |items| == |seqs|
    decreases j - i
  {
    if i == j then p else PutItems(PutItem(p, items[i], seqs[i]), items, seqs, i + 1, j)
  }

  lemma {:induction false} PutItemsSplit(p: Page, items: seq<Item>, seqs: seq<nat>, i: nat, j: nat, k: nat)
    requires i <= j <= k <= |items| == |seqs|
    ensures PutItems(p, items, seqs, i, k) == PutItems(PutItems(p, items, seqs, i, j), items, seqs, j, k)
    decreases j - i
  {
    hide PutItem;
    if i < j {
      PutItemsSplit(PutItem(p, items[i], seqs[i]), items, seqs, i + 1, j, k);
    }
  }

  function AddAll(p: Page, trees: seq<Tree>): Page {
    var n := |p.frames| - 1;
    if n < 0 then p.(done := p.done + trees)
    else Page(p.done, Counted(p.frames[n := p.frames[n].(done := p.frames[n].done + trees)], LeafCount(trees)))
  }

  lemma AddNothing(p: Page)
    ensures AddAll(p, []) == p
  {
    var q := AddAll(p, []);
    if p.frames != [] {
      assert p.frames[|p.frames| - 1].done + [] == p.frames[|p.frames| - 1].done;
      assert forall i :: 0 <= i < |p.frames| ==> q.frames[i] == p.frames[i];
      assert q.frames == p.frames;
    } else {
      assert q.done == p.done;
    }
  }

  lemma AddMore(p: Page, a: seq<Tree>, b: seq<Tree>)
    ensures AddAll(AddAll(p, a), b) == AddAll(p, a + b)
  {
    hide Flatten;
    FlattenConcat(a, b);
    if p.frames == [] {
      assert p.done + (a + b) == p.done + a + b;
    } else {
      var n := |p.frames| - 1;
      assert p.frames[n].done + (a + b) == p.frames[n].done + a + b;
      assert AddAll(AddAll(p, a), b).frames == AddAll(p, a + b).frames;
    }
  }

  lemma AddOneLine(p: Page, line: LogLine)
    ensures AddLine(p, line) == AddAll(p, [Leaf(line)])
  {
    assert Flatten([Leaf(line)]) == [line] + Flatten([]);
    assert AddLine(p, line).frames == AddAll(p, [Leaf(line)]).frames;
  }

  lemma AddOneGroup(p: Page, row: Row, inside: seq<Tree>)
    ensures var q := AddAll(OpenGroup(p, row), inside);
            q.frames != [] && CloseTop(q) == AddAll(p, [Group(HeadOf(row), inside, LeafCount(inside))])
  {
    var group := Group(HeadOf(row), inside, LeafCount(inside));
    assert Flatten([group]) == Flatten(inside) + Flatten([]);
    hide Flatten, HeadOf;
    var q := AddAll(OpenGroup(p, row), inside);
    assert q.frames[|p.frames|] == Frame(HeadOf(row), [] + inside, LeafCount(inside));
    assert q.frames[..|p.frames|] == Counted(p.frames, LeafCount(inside));
    var r, t := CloseTop(q), AddAll(p, [group]);
    assert r == AddTree(q.(frames := Counted(p.frames, LeafCount(inside))),
        Group(HeadOf(row), [] + inside, LeafCount(inside)));
    assert [] + inside == inside;
    if p.frames != [] {
      assert r.frames == t.frames;
    }
  }

  lemma FinishOneMore(p: Page)
    requires p.frames != []
    ensures Finished(CloseTop(p)) == Finished(p)
  {
    hide CloseTop;
    assert CloseTo(CloseTop(p), 0) == CloseTo(p, 0);
  }

  // ------------------------------------------------- the page is the forest

  /** Putting the items of some entries on a page adds the entries; entries that run to the end
      may leave groups open, which finishing closes. */
  lemma {:induction false} ParsedPage(p: Page, items: seq<Item>, seqs: seq<nat>, i: nat)
    requires i <= |items| == |seqs|
    ensures var (entries, j) := Parse(items, seqs, i);
            if j < |items| then PutItems(p, items, seqs, i, j) == AddAll(p, entries)
            else Finished(PutItems(p, items, seqs, i, j)) == Finished(AddAll(p, entries))
    decreases |items| - i
  {
    hide AddAll, Finished, CloseTop, OpenGroup, AddLine;
    if i == |items| || items[i].Close? {
      AddNothing(p);
    } else if items[i].Text? {
      AddOneLine(p, LogLine(seqs[i], items[i].text));
      var rest := Parse(items, seqs, i + 1).0;
      ParsedPage(PutItem(p, items[i], seqs[i]), items, seqs, i + 1);
      AddMore(p, [Leaf(LogLine(seqs[i], items[i].text))], rest);
    } else {
      ParsedGroup(p, items, seqs, i);
    }
  }

  lemma {:induction false} ParsedGroup(p: Page, items: seq<Item>, seqs: seq<nat>, i: nat)
    requires i < |items| == |seqs| && items[i].Open?
    ensures var (entries, j) := Parse(items, seqs, i);
            if j < |items| then PutItems(p, items, seqs, i, j) == AddAll(p, entries)
            else Finished(PutItems(p, items, seqs, i, j)) == Finished(AddAll(p, entries))
    decreases |items| - i, 0
  {
    hide AddAll, Finished, CloseTop, OpenGroup, HeadOf, HeadSaid, SectionRow, Flatten;
    HeadIsSaid(items[i].section, seqs[i]);
    var row := SectionRow(items[i].section, seqs[i]);
    var (inside, j) := Parse(items, seqs, i + 1);
    var group := Group(HeadOf(row), inside, LeafCount(inside));
    var begun := OpenGroup(p, row);
    ParsedPage(begun, items, seqs, i + 1);
    AddOneGroup(p, row, inside);
    if j < |items| {
      var closed := AddAll(p, [group]);
      var (rest, k) := Parse(items, seqs, j + 1);
      PutItemsSplit(begun, items, seqs, i + 1, j, k);
      assert PutItem(AddAll(begun, inside), items[j], seqs[j]) == closed;
      ParsedPage(closed, items, seqs, j + 1);
      AddMore(p, [group], rest);
    } else {
      assert [group] + [] == [group];
      FinishOneMore(AddAll(begun, inside));
    }
  }

  /** The ids of the open groups are those of the open sections. */
  ghost predicate InStep(p: Page, stack: seq<Section>) {
    |p.frames| == |stack| && forall i :: 0 <= i < |stack| ==> p.frames[i].head.id == stack[i].id
  }

  lemma {:induction false} PageInStep(items: seq<Item>, seqs: seq<nat>, n: nat)
    requires n <= |items| == |seqs| && Replay(items).Some?
    ensures InStep(PutItems(Page([], []), items, seqs, 0, n), StackAt(items, n))
  {
    hide StackAt;
    if n == 0 {
      NoStackYet(items);
    } else {
      var p := PutItems(Page([], []), items, seqs, 0, n - 1);
      PageInStep(items, seqs, n - 1);
      PutItemsSplit(Page([], []), items, seqs, 0, n - 1, n);
      assert PutItems(p, items, seqs, n - 1, n) == PutItem(p, items[n - 1], seqs[n - 1]);
      StackStep(items, n - 1);
      ItemInStep(p, items[n - 1], seqs[n - 1], StackAt(items, n - 1), StackAt(items, n));
    }
  }

  lemma NoStackYet(items: seq<Item>)
    requires Replay(items).Some?
    ensures StackAt(items, 0) == []
  {
    ReplayPrefix(items, 0);
  }

  lemma ItemInStep(p: Page, item: Item, q: nat, before: seq<Section>, after: seq<Section>)
    requires InStep(p, before)
    requires match item
             case Text(_) => after == before
             case Open(section) => after == before + [section]
             case Close(section) => before != [] && after == before[..|before| - 1]
    ensures InStep(PutItem(p, item, q), after)
  {
  }

  /** Items that replay end in no unmatched close, so the entries reach the end. */
  lemma ParseReachesEnd(items: seq<Item>, seqs: seq<nat>)
    requires |items| == |seqs| && Replay(items).Some?
    ensures Parse(items, seqs, 0).1 == |items|
  {
    hide StackAt, Parse;
    var j := Parse(items, seqs, 0).1;
    if j < |items| {
      ParseKeepsStack(items, seqs, 0);
      NoStackYet(items);
      StackStep(items, j);
    }
  }

  lemma PageIsForest(items: seq<Item>, seqs: seq<nat>)
    requires |items| == |seqs| && Replay(items).Some?
    ensures Finished(PutItems(Page([], []), items, seqs, 0, |items|)) == Forest(items, seqs)
  {
    var p := Page([], []);
    ParseReachesEnd(items, seqs);
    ParsedPage(p, items, seqs, 0);
    assert AddAll(p, Forest(items, seqs)).done == [] + Forest(items, seqs) == Forest(items, seqs);
  }

  // ------------------------------------------------------- the stored sections

  ghost predicate Before(rows: seq<Row>, q: nat) {
    forall k :: 0 <= k < |rows| ==> rows[k].start < q && (rows[k].end.Some? ==> rows[k].end.value < q)
  }

  ghost predicate RisingRows(rows: seq<Row>) {
    forall j, k :: 0 <= j < k < |rows| ==> rows[j].start < rows[k].start
  }

  /** What the stored sections say of the log line of an item. */
  ghost predicate RowsSay(rows: seq<Row>, item: Item, q: nat) {
    var starts, ends := StartsAt(rows, q), EndsAt(rows, q);
    match item
    case Text(_) => starts == [] && ends == []
    case Open(section) => |starts| == 1 && HeadOf(starts[0]) == HeadOf(SectionRow(section, q)) && ends == []
    case Close(section) => starts == [] && |ends| == 1 && ends[0].id == section.id
  }

  lemma {:induction false} NothingLater(rows: seq<Row>, q: nat, r: nat)
    requires Before(rows, q) && q <= r
    ensures StartsAt(rows, r) == [] && EndsAt(rows, r) == []
  {
    if rows != [] {
      NothingLater(rows[..|rows| - 1], q, r);
    }
  }

  lemma OneMoreRow(rows: seq<Row>, row: Row, q: nat)
    ensures StartsAt(rows + [row], q) == StartsAt(rows, q) + (if row.start == q then [row] else [])
    ensures EndsAt(rows + [row], q) == EndsAt(rows, q) + (if row.end == Some(q) then [row] else [])
  {
    assert (rows + [row])[..|rows|] == rows;
  }

  /** Ending one row that had no end. */
  lemma {:induction false} EndedRow(rows: seq<Row>, k: nat, end: nat, q: nat)
    requires k < |rows| && rows[k].end == None
    ensures var after := rows[k := rows[k].(end := Some(end))];
            && |StartsAt(after, q)| == |StartsAt(rows, q)|
            && (forall i :: 0 <= i < |StartsAt(rows, q)| ==>
                HeadOf(StartsAt(after, q)[i]) == HeadOf(StartsAt(rows, q)[i]))
            && (q != end ==> EndsAt(after, q) == EndsAt(rows, q))
            && (EndsAt(rows, end) == [] ==> EndsAt(after, end) == [rows[k].(end := Some(end))])
  {
    var n := |rows| - 1;
    var after := rows[k := rows[k].(end := Some(end))];
    if k < n {
      EndedRow(rows[..n], k, end, q);
      assert after[..n] == rows[..n][k := rows[k].(end := Some(end))];
    } else {
      assert after[..n] == rows[..n];
    }
  }

  ghost predicate Unused(ids: seq<string>) {
    forall i, j :: 0 <= i < j < |ids| ==> ids[i] != ids[j]
  }

  ghost predicate HasOpenRow(rows: seq<Row>, id: string) {
    exists k :: 0 <= k < |rows| && rows[k].id == id && rows[k].end == None
  }

  ghost predicate SameIDs(rows: seq<Row>, ids: seq<string>) {
    |rows| == |ids| && forall k :: 0 <= k < |rows| ==> rows[k].id == ids[k]
  }

  ghost predicate StackStored(rows: seq<Row>, stack: seq<Section>) {
    && (forall i :: 0 <= i < |stack| ==> HasOpenRow(rows, stack[i].id))
    && forall i, j :: 0 <= i < j < |stack| ==> stack[i].id != stack[j].id
  }

  /** The stored sections after n items. */
  ghost predicate Stored(items: seq<Item>, seqs: seq<nat>, n: nat, rows: seq<Row>)
    requires n <= |items| == |seqs| && Replay(items).Some?
  {
    && SameIDs(rows, OpenedIDs(items[..n])) && RisingRows(rows)
    && (n < |items| ==> Before(rows, seqs[n]))
    && StackStored(rows, StackAt(items, n))
    && AllSay(rows, items, seqs, n)
  }

  ghost predicate AllSay(rows: seq<Row>, items: seq<Item>, seqs: seq<nat>, n: nat)
    requires n <= |items| == |seqs|
  {
    forall i :: 0 <= i < n ==> RowsSay(rows, items[i], seqs[i])
  }

  lemma {:induction false} OpenedPrefix(items: seq<Item>, n: nat)
    requires n <= |items|
    ensures OpenedIDs(items[..n]) <= OpenedIDs(items)
    decreases |items|
  {
    if n < |items| {
      OpenedPrefix(items[..|items| - 1], n);
      assert items[..|items| - 1][..n] == items[..n];
    } else {
      assert items[..n] == items;
    }
  }

  lemma OpenedNext(items: seq<Item>, n: nat)
    requires n < |items|
    ensures OpenedIDs(items[..n + 1]) == OpenedIDs(items[..n]) + (if items[n].Open? then [items[n].section.id] else [])
    ensures Unused(OpenedIDs(items)) ==> Unused(OpenedIDs(items[..n + 1]))
  {
    assert items[..n + 1][..n] == items[..n];
    OpenedPrefix(items, n + 1);
  }

  lemma RowsNext(items: seq<Item>, seqs: seq<nat>, n: nat)
    requires n < |items| == |seqs|
    ensures var before := RowsOf(items[..n], seqs[..n]);
            RowsOf(items[..n + 1], seqs[..n + 1]) ==
            match items[n]
            case Text(_) => before
            case Open(section) => before + [SectionRow(section, seqs[n])]
            case Close(section) => Ended(before, section.id, seqs[n])
  {
    assert items[..n + 1][..n] == items[..n] && seqs[..n + 1][..n] == seqs[..n];
  }

  lemma BeforeNext(rows: seq<Row>, seqs: seq<nat>, n: nat)
    requires n < |seqs| && Rising(seqs) && Before(rows, seqs[n])
    ensures n + 1 < |seqs| ==> Before(rows, seqs[n + 1])
  {
  }

  lemma StoredText(items: seq<Item>, seqs: seq<nat>, n: nat, rows: seq<Row>)
    requires n < |items| == |seqs| && Replay(items).Some? && Rising(seqs) && Stored(items, seqs, n, rows) &&
        items[n].Text?
    ensures Stored(items, seqs, n + 1, rows)
  {
    hide StackAt, StartsAt, EndsAt, StackStored, OpenedIDs, SameIDs, RisingRows, Before, Rising;
    NothingLater(rows, seqs[n], seqs[n]);
    BeforeNext(rows, seqs, n);
    OpenedNext(items, n);
    assert OpenedIDs(items[..n + 1]) == OpenedIDs(items[..n]);
    StackStep(items, n);
  }

  lemma NewID(ids: seq<string>, id: string, rows: seq<Row>)
    requires Unused(ids + [id]) && SameIDs(rows, ids)
    ensures forall k :: 0 <= k < |rows| ==> rows[k].id != id
  {
    forall k | 0 <= k < |rows| ensures rows[k].id != id {
      assert (ids + [id])[k] == ids[k] && (ids + [id])[|ids|] == id;
    }
  }

  lemma RowAppended(rows: seq<Row>, row: Row, ids: seq<string>)
    requires SameIDs(rows, ids) && RisingRows(rows) && Before(rows, row.start) && row.end == None
    ensures SameIDs(rows + [row], ids + [row.id]) && RisingRows(rows + [row])
    ensures forall q :: q > row.start ==> Before(rows + [row], q)
  {
  }

  lemma SayAppended(rows: seq<Row>, items: seq<Item>, seqs: seq<nat>, n: nat)
    requires n < |items| == |seqs| && Rising(seqs) && AllSay(rows, items, seqs, n) && items[n].Open? &&
        Before(rows, seqs[n])
    ensures AllSay(rows + [SectionRow(items[n].section, seqs[n])], items, seqs, n + 1)
  {
    hide StartsAt, EndsAt, HeadOf;
    var row := SectionRow(items[n].section, seqs[n]);
    NothingLater(rows, seqs[n], seqs[n]);
    OneMoreRow(rows, row, seqs[n]);
    forall i | 0 <= i < n ensures RowsSay(rows + [row], items[i], seqs[i]) {
      OneMoreRow(rows, row, seqs[i]);
      assert RowsSay(rows, items[i], seqs[i]);
    }
  }

  lemma StoredOpen(items: seq<Item>, seqs: seq<nat>, n: nat, rows: seq<Row>)
    requires n < |items| == |seqs| && Replay(items).Some? && Rising(seqs) && Stored(items, seqs, n, rows) &&
        items[n].Open?
    requires Unused(OpenedIDs(items))
    ensures Stored(items, seqs, n + 1, rows + [SectionRow(items[n].section, seqs[n])])
  {
    hide StackAt, OpenedIDs, StackStored, SameIDs, RisingRows, Before, AllSay, Unused;
    var row, ids := SectionRow(items[n].section, seqs[n]), OpenedIDs(items[..n]);
    OpenedNext(items, n);
    StackStep(items, n);
    assert n + 1 < |items| ==> seqs[n] < seqs[n + 1];
    NewID(ids, row.id, rows);
    RowAppended(rows, row, ids);
    SayAppended(rows, items, seqs, n);
    StackStoredOpen(rows, row, StackAt(items, n), items[n].section);
  }

  lemma StackStoredOpen(rows: seq<Row>, row: Row, stack: seq<Section>, section: Section)
    requires StackStored(rows, stack) && row.id == section.id && row.end == None
    requires forall k :: 0 <= k < |rows| ==> rows[k].id != row.id
    ensures StackStored(rows + [row], stack + [section])
  {
    var after := rows + [row];
    forall i | 0 <= i < |stack| ensures HasOpenRow(after, stack[i].id) && stack[i].id != section.id {
      assert HasOpenRow(rows, stack[i].id);
      var k :| 0 <= k < |rows| && rows[k].id == stack[i].id && rows[k].end == None;
      assert after[k] == rows[k];
    }
    assert after[|rows|] == row;
    assert HasOpenRow(after, section.id);
  }

  lemma RowEnded(rows: seq<Row>, k: nat, end: nat, ids: seq<string>)
    requires k < |rows| && SameIDs(rows, ids) && RisingRows(rows) && Before(rows, end)
    ensures var after := rows[k := rows[k].(end := Some(end))];
            SameIDs(after, ids) && RisingRows(after) && forall q :: q > end ==> Before(after, q)
  {
  }

  lemma SayEnded(rows: seq<Row>, k: nat, items: seq<Item>, seqs: seq<nat>, n: nat)
    requires n < |items| == |seqs| && Rising(seqs) && AllSay(rows, items, seqs, n) && Before(rows, seqs[n])
    requires items[n].Close? && k < |rows| && rows[k].end == None && rows[k].id == items[n].section.id
    ensures AllSay(rows[k := rows[k].(end := Some(seqs[n]))], items, seqs, n + 1)
  {
    hide RowsSay, StartsAt, EndsAt;
    NothingLater(rows, seqs[n], seqs[n]);
    var after := rows[k := rows[k].(end := Some(seqs[n]))];
    forall i | 0 <= i < n ensures RowsSay(after, items[i], seqs[i]) {
      SaysSame(rows, k, seqs[n], items[i], seqs[i]);
    }
    SaysClosed(rows, k, items[n], seqs[n]);
  }

  lemma OpenRowOf(rows: seq<Row>, stack: seq<Section>, ids: seq<string>) returns (k: nat)
    requires StackStored(rows, stack) && stack != [] && SameIDs(rows, ids) && Unused(ids)
    ensures k < |rows| && rows[k].id == stack[|stack| - 1].id && rows[k].end == None
    ensures forall j :: 0 <= j < |rows| && j != k ==> rows[j].id != rows[k].id
  {
    assert HasOpenRow(rows, stack[|stack| - 1].id);
    k :| 0 <= k < |rows| && rows[k].id == stack[|stack| - 1].id && rows[k].end == None;
  }

  lemma StoredClose(items: seq<Item>, seqs: seq<nat>, n: nat, rows: seq<Row>)
    requires n < |items| == |seqs| && Replay(items).Some? && Rising(seqs) && Stored(items, seqs, n, rows) &&
        items[n].Close?
    requires Unused(OpenedIDs(items))
    ensures Stored(items, seqs, n + 1, Ended(rows, items[n].section.id, seqs[n]))
  {
    hide StackAt, OpenedIDs, StackStored, SameIDs, RisingRows, Before, AllSay, Unused;
    var stack, ids := StackAt(items, n), OpenedIDs(items[..n]);
    OpenedNext(items, n);
    StackStep(items, n);
    assert n + 1 < |items| ==> seqs[n] < seqs[n + 1];
    assert ids + [] == ids;
    var k := OpenRowOf(rows, stack, ids);
    EndedIsOne(rows, k, seqs[n]);
    RowEnded(rows, k, seqs[n], ids);
    SayEnded(rows, k, items, seqs, n);
    StackStoredClose(rows, k, seqs[n], stack);
  }

  lemma EndedIsOne(rows: seq<Row>, k: nat, end: nat)
    requires k < |rows| && forall j :: 0 <= j < |rows| && j != k ==> rows[j].id != rows[k].id
    ensures Ended(rows, rows[k].id, end) == rows[k := rows[k].(end := Some(end))]
  {
  }

  lemma SaysSame(rows: seq<Row>, k: nat, end: nat, item: Item, q: nat)
    requires k < |rows| && rows[k].end == None && q < end && RowsSay(rows, item, q)
    ensures RowsSay(rows[k := rows[k].(end := Some(end))], item, q)
  {
    hide StartsAt, EndsAt, HeadOf;
    EndedRow(rows, k, end, q);
  }

  lemma SaysClosed(rows: seq<Row>, k: nat, item: Item, q: nat)
    requires k < |rows| && rows[k].end == None && item.Close? && rows[k].id == item.section.id
    requires StartsAt(rows, q) == [] && EndsAt(rows, q) == []
    ensures RowsSay(rows[k := rows[k].(end := Some(q))], item, q)
  {
    hide StartsAt, EndsAt, HeadOf;
    EndedRow(rows, k, q, q);
  }

  lemma StackStoredClose(rows: seq<Row>, k: nat, end: nat, stack: seq<Section>)
    requires StackStored(rows, stack) && stack != [] && k < |rows| && rows[k].id == stack[|stack| - 1].id
    ensures StackStored(rows[k := rows[k].(end := Some(end))], stack[..|stack| - 1])
  {
    var after := rows[k := rows[k].(end := Some(end))];
    forall i | 0 <= i < |stack| - 1 ensures HasOpenRow(after, stack[i].id) {
      assert HasOpenRow(rows, stack[i].id);
      var j :| 0 <= j < |rows| && rows[j].id == stack[i].id && rows[j].end == None;
      assert after[j] == rows[j];
    }
  }

  lemma {:induction false} AllStored(items: seq<Item>, seqs: seq<nat>, n: nat)
    requires n <= |items| == |seqs| && Replay(items).Some? && Rising(seqs) && Unused(OpenedIDs(items))
    ensures Stored(items, seqs, n, RowsOf(items[..n], seqs[..n]))
  {
    hide Stored, Rising, Unused, Ended;
    if n == 0 {
      NothingStored(items, seqs);
    } else {
      AllStored(items, seqs, n - 1);
      RowsNext(items, seqs, n - 1);
      var rows := RowsOf(items[..n - 1], seqs[..n - 1]);
      match items[n - 1]
      case Text(_) => StoredText(items, seqs, n - 1, rows);
      case Open(_) => StoredOpen(items, seqs, n - 1, rows);
      case Close(_) => StoredClose(items, seqs, n - 1, rows);
    }
  }

  lemma NothingStored(items: seq<Item>, seqs: seq<nat>)
    requires |items| == |seqs| && Replay(items).Some?
    ensures Stored(items, seqs, 0, RowsOf(items[..0], seqs[..0]))
  {
    NoStackYet(items);
  }

  // ------------------------------------------------------------ the theorem

  lemma InsertLast(rows: seq<Row>, row: Row)
    requires rows != [] ==> rows[|rows| - 1].start < row.start
    ensures InsertRow(rows, row) == rows + [row]
  {
  }

  lemma {:induction false} RisingRowsSorted(rows: seq<Row>)
    requires RisingRows(rows)
    ensures SortRows(rows) == rows
  {
    hide InsertRow;
    if rows != [] {
      var n := |rows| - 1;
      RisingRowsSorted(rows[..n]);
      InsertLast(rows[..n], rows[n]);
      assert rows == rows[..n] + [rows[n]];
    }
  }

  lemma CloseOne(p: Page)
    requires p.frames != []
    ensures CloseTo(p, |p.frames| - 1) == CloseTop(p)
  {
    assert |CloseTop(p).frames| == |p.frames| - 1;
  }

  /** One line of the page builder does what its item means. */
  lemma PutLineIsItem(p: Page, item: Item, q: nat, rows: seq<Row>, stack: seq<Section>)
    requires RowsSay(rows, item, q) && InStep(p, stack)
    requires item.Close? ==> stack != [] && stack[|stack| - 1] == item.section
    ensures PutLine(p, LogLine(q, ItemText(item)), StartsAt(rows, q), EndsAt(rows, q)) == PutItem(p, item, q)
  {
    hide HeadOf, SectionRow, AddLine, CloseTop;
    var starts, ends := StartsAt(rows, q), EndsAt(rows, q);
    match item
    case Text(_) =>
    case Open(section) =>
      assert starts[1..] == [];
      assert OpenGroups(p, starts) == OpenGroup(p, starts[0]);
    case Close(section) =>
      assert ends[1..] == [];
      assert CloseGroups(p, ends) == CloseGroup(p, ends[0]);
      assert HeightOf(p.frames, section.id) == |p.frames| - 1;
      CloseOne(p);
  }

  lemma {:induction false} PutLinesIsItems(items: seq<Item>, seqs: seq<nat>, rows: seq<Row>, n: nat)
    requires n <= |items| == |seqs| && Replay(items).Some?
    requires AllSay(rows, items, seqs, n)
    ensures PutLines(Page([], []), LinesOf(items, seqs)[..n], rows) == PutItems(Page([], []), items, seqs, 0, n)
  {
    hide StackAt, PutLine, PutItem, RowsSay, StartsAt, EndsAt, InStep;
    if n > 0 {
      var m, lines := n - 1, LinesOf(items, seqs);
      var p := PutItems(Page([], []), items, seqs, 0, m);
      PutLinesIsItems(items, seqs, rows, m);
      assert lines[..n][..m] == lines[..m];
      PageInStep(items, seqs, m);
      StackStep(items, m);
      PutLineIsItem(p, items[m], seqs[m], rows, StackAt(items, m));
      PutItemsSplit(Page([], []), items, seqs, 0, m, n);
      assert PutItems(p, items, seqs, m, n) == PutItem(p, items[m], seqs[m]);
    }
  }

  /** The page built from the stored lines and sections is the forest the items mean: its groups
      hold what lay between their markers, or ran to the end, and its leaves are the plain lines,
      once each and in order. */
  lemma BuildsTheForest(items: seq<Item>, seqs: seq<nat>)
    requires |items| == |seqs| && Rising(seqs) && WellNested(items)
    ensures BuildTrees(LinesOf(items, seqs), RowsOf(items, seqs)) == Forest(items, seqs)
    ensures Flatten(Forest(items, seqs)) == PlainLines(items, seqs, 0, |items|)
  {
    hide AllSay, PutLines, Finished, Parse, Flatten, PlainLines, SortRows, StackStored, SameIDs, RisingRows;
    var n, rows, lines := |items|, RowsOf(items, seqs), LinesOf(items, seqs);
    assert items[..n] == items && seqs[..n] == seqs && lines[..n] == lines;
    AllStored(items, seqs, n);
    RisingRowsSorted(rows);
    PutLinesIsItems(items, seqs, rows, n);
    PageIsForest(items, seqs);
    ParseReachesEnd(items, seqs);
    ParseFlattens(items, seqs, 0);
  }
}
