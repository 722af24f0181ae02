// What the page of a step shows, whatever lines and sections the store holds.
module PageLaws {
  import opened WorkflowCommands
  import opened LogSections

  /** Reading a page from top to bottom: headings and lines. */
  datatype Mark = Heading(head: Head) | Shown(line: LogLine)

  function Trace(trees: seq<Tree>): seq<Mark> {
    if trees == [] then [] else TraceOne(trees[0]) + Trace(trees[1..])
  }

  function TraceOne(tree: Tree): seq<Mark> {
    match tree
    case Leaf(line) => [Shown(line)]
    case Group(head, entries, _) => [Heading(head)] + Trace(entries)
  }

  lemma {:induction false} TraceConcat(a: seq<Tree>, b: seq<Tree>)
    ensures Trace(a + b) == Trace(a) + Trace(b)
  {
    if a == [] {
      assert a + b == b;
    } else {
      assert (a + b)[1..] == a[1..] + b;
      TraceConcat(a[1..], b);
    }
  }

  lemma TraceMore(a: seq<Tree>, t: Tree)
    ensures Trace(a + [t]) == Trace(a) + TraceOne(t)
  {
    TraceConcat(a, [t]);
    assert [t][1..] == [];
  }

  /** The groups of the trees count the lines in them, those of inner groups included. */
  ghost predicate CountsRight(trees: seq<Tree>) {
    trees == [] || (CountRight(trees[0]) && CountsRight(trees[1..]))
  }

  ghost predicate CountRight(tree: Tree) {
    tree.Leaf? || (tree.lineCount == |Lines(Trace(tree.entries))| && CountsRight(tree.entries))
  }

  lemma {:induction false} CountsMore(a: seq<Tree>, t: Tree)
    requires CountsRight(a) && CountRight(t)
    ensures CountsRight(a + [t])
  {
    if a != [] {
      assert (a + [t])[1..] == a[1..] + [t];
      CountsMore(a[1..], t);
    } else {
      assert a + [t] == [t] && [t][1..] == [];
    }
  }

  function Lines(marks: seq<Mark>): seq<LogLine> {
    if marks == [] then []
    else
      var n := |marks| - 1;
      Lines(marks[..n]) + if marks[n].Shown? then [marks[n].line] else []
  }

  lemma {:induction false} LinesConcat(a: seq<Mark>, b: seq<Mark>)
    ensures Lines(a + b) == Lines(a) + Lines(b)
  {
    if b == [] {
      assert a + b == a;
    } else {
      var n := |b| - 1;
      assert (a + b)[..|a| + n] == a + b[..n];
      LinesConcat(a, b[..n]);
    }
  }

  lemma LinesMore(a: seq<Mark>, m: Mark)
    ensures Lines(a + [m]) == Lines(a) + if m.Shown? then [m.line] else []
  {
    assert (a + [m])[..|a|] == a;
  }

  // ------------------------------------------------------ the page as it grows

  /** What the open groups read out. */
  function FrameTrace(frames: seq<Frame>): seq<Mark> {
    if frames == [] then []
    else
      var n := |frames| - 1;
      FrameTrace(frames[..n]) + ([Heading(frames[n].head)] + Trace(frames[n].done))
  }

  function PageTrace(p: Page): seq<Mark> {
    Trace(p.done) + FrameTrace(p.frames)
  }

  /** Each open group counts the lines that came since it was opened. */
  ghost predicate FramesRight(frames: seq<Frame>) {
    forall i :: 0 <= i < |frames| ==> FrameRight(frames, i)
  }

  ghost predicate FrameRight(frames: seq<Frame>, i: nat)
    requires i < |frames|
  {
    && CountsRight(frames[i].done)
    && frames[i].lineCount == |Lines(FrameTrace(frames))| - |Lines(FrameTrace(frames[..i]))|
  }

  ghost predicate PageRight(p: Page) {
    CountsRight(p.done) && FramesRight(p.frames)
  }

  lemma FrameMore(frames: seq<Frame>, f: Frame)
    ensures FrameTrace(frames + [f]) == FrameTrace(frames) + ([Heading(f.head)] + Trace(f.done))
  {
    assert (frames + [f])[..|frames|] == frames;
  }

  /** Numbers of lines are read out nowhere. */
  lemma {:induction false} CountedTrace(frames: seq<Frame>, more: nat)
    ensures FrameTrace(Counted(frames, more)) == FrameTrace(frames)
  {
    if frames != [] {
      var n := |frames| - 1;
      assert Counted(frames, more)[..n] == Counted(frames[..n], more);
      CountedTrace(frames[..n], more);
    }
  }

  /** The page with a tree added: it reads out the tree behind everything else. */
  lemma AddedTrace(p: Page, t: Tree)
    ensures PageTrace(AddTree(p, t)) == PageTrace(p) + TraceOne(t)
    ensures p.frames != [] ==> FrameTrace(AddTree(p, t).frames) == FrameTrace(p.frames) + TraceOne(t)
  {
    hide Trace, TraceOne;
    if p.frames == [] {
      TraceMore(p.done, t);
    } else {
      var n := |p.frames| - 1;
      var f := p.frames[n];
      var g := f.(done := f.done + [t]);
      TraceMore(f.done, t);
      assert p.frames == p.frames[..n] + [f] && AddTree(p, t).frames == p.frames[..n] + [g];
      FrameMore(p.frames[..n], f);
      FrameMore(p.frames[..n], g);
      hide FrameTrace;
      assert [Heading(f.head)] + (Trace(f.done) + TraceOne(t)) == ([Heading(f.head)] + Trace(f.done)) + TraceOne(t);
    }
  }

  lemma AddedLine(p: Page, line: LogLine)
    requires PageRight(p)
    ensures PageRight(AddLine(p, line)) && PageTrace(AddLine(p, line)) == PageTrace(p) + [Shown(line)]
  {
    hide Lines, FrameTrace, Trace, CountsRight;
    var t := Leaf(line);
    var q, r := AddTree(p, t), AddLine(p, line);
    AddedTrace(p, t);
    CountedTrace(q.frames, 1);
    if p.frames == [] {
      CountsMore(p.done, t);
      assert r.frames == [];
    } else {
      var n := |p.frames| - 1;
      assert FrameRight(p.frames, n);
      CountsMore(p.frames[n].done, t);
      LinesMore(FrameTrace(p.frames), Shown(line));
      forall i | 0 <= i < |r.frames| ensures FrameRight(r.frames, i) {
        assert FrameRight(p.frames, i);
        assert r.frames[..i] == Counted(p.frames[..i], 1);
        CountedTrace(p.frames[..i], 1);
      }
    }
  }

  lemma OpenedGroup(p: Page, row: Row)
    requires PageRight(p)
    ensures PageRight(OpenGroup(p, row)) && PageTrace(OpenGroup(p, row)) == PageTrace(p) + [Heading(HeadOf(row))]
  {
    hide HeadOf, Lines, FrameTrace;
    var f := Frame(HeadOf(row), [], 0);
    var frames := p.frames + [f];
    FrameMore(p.frames, f);
    assert [Heading(f.head)] + Trace([]) == [Heading(f.head)];
    LinesMore(FrameTrace(p.frames), Heading(f.head));
    forall i | 0 <= i < |frames| ensures FrameRight(frames, i) {
      if i < |p.frames| {
        assert FrameRight(p.frames, i);
        assert frames[..i] == p.frames[..i];
      } else {
        assert frames[..i] == p.frames;
      }
    }
    assert Trace(p.done) + (FrameTrace(p.frames) + [Heading(f.head)]) == PageTrace(p) + [Heading(f.head)];
  }

  /** Closing a group moves it, and reads out the same. */
  lemma ClosedTop(p: Page)
    requires PageRight(p) && p.frames != []
    ensures PageRight(CloseTop(p)) && PageTrace(CloseTop(p)) == PageTrace(p)
  {
    hide Lines, FrameTrace, CountsRight, Trace;
    var n := |p.frames| - 1;
    var f := p.frames[n];
    var t, below := Group(f.head, f.done, f.lineCount), p.(frames := p.frames[..n]);
    assert p.frames == p.frames[..n] + [f];
    FrameMore(p.frames[..n], f);
    AddedTrace(below, t);
    assert FrameRight(p.frames, n);
    LinesConcat(FrameTrace(p.frames[..n]), TraceOne(t));
    LinesConcat([Heading(f.head)], Trace(f.done));
    HeadingIsNoLine(f.head);
    assert CountRight(t);
    ClosedBelow(p, t);
  }

  lemma HeadingIsNoLine(head: Head)
    ensures Lines([Heading(head)]) == []
  {
    assert Lines([Heading(head)][..0]) == [];
  }

  lemma ClosedBelow(p: Page, t: Tree)
    requires p.frames != [] && PageRight(p) && CountRight(t)
    requires var n := |p.frames| - 1; FrameTrace(p.frames) == FrameTrace(p.frames[..n]) + TraceOne(t)
    ensures PageRight(AddTree(p.(frames := p.frames[..|p.frames| - 1]), t))
  {
    hide Lines, FrameTrace, CountsRight, TraceOne;
    var n := |p.frames| - 1;
    var below := p.(frames := p.frames[..n]);
    var q := AddTree(below, t);
    AddedTrace(below, t);
    if n == 0 {
      CountsMore(p.done, t);
    } else {
      assert FrameRight(p.frames, n - 1);
      CountsMore(p.frames[n - 1].done, t);
      forall i | 0 <= i < n ensures FrameRight(q.frames, i) {
        assert FrameRight(p.frames, i);
        assert q.frames[..i] == p.frames[..i];
      }
    }
  }

  lemma {:induction false} ClosedTo(p: Page, height: nat)
    requires PageRight(p) && height <= |p.frames|
    ensures PageRight(CloseTo(p, height)) && PageTrace(CloseTo(p, height)) == PageTrace(p)
    decreases |p.frames|
  {
    hide PageRight, PageTrace;
    if |p.frames| > height {
      ClosedTop(p);
      ClosedTo(CloseTop(p), height);
    }
  }

  lemma {:induction false} ClosedGroups(p: Page, rows: seq<Row>)
    requires PageRight(p)
    ensures PageRight(CloseGroups(p, rows)) && PageTrace(CloseGroups(p, rows)) == PageTrace(p)
    decreases |rows|
  {
    hide PageRight, PageTrace, CloseTo, HeightOf;
    if rows != [] {
      var h := HeightOf(p.frames, rows[0].id);
      if h >= 0 {
        ClosedTo(p, h);
      }
      ClosedGroups(CloseGroup(p, rows[0]), rows[1..]);
    }
  }

  function Headings(rows: seq<Row>): seq<Mark> {
    seq(|rows|, i requires 0 <= i < |rows| => Heading(HeadOf(rows[i])))
  }

  lemma {:induction false} OpenedGroups(p: Page, rows: seq<Row>)
    requires PageRight(p)
    ensures PageRight(OpenGroups(p, rows)) && PageTrace(OpenGroups(p, rows)) == PageTrace(p) + Headings(rows)
    decreases |rows|
  {
    hide PageRight, PageTrace, HeadOf;
    if rows != [] {
      OpenedGroup(p, rows[0]);
      OpenedGroups(OpenGroup(p, rows[0]), rows[1..]);
      assert Headings(rows) == [Heading(HeadOf(rows[0]))] + Headings(rows[1..]);
    }
  }

  // --------------------------------------------------------------- the laws

  /** A section starts or ends at a line. */
  ghost predicate Marks(rows: seq<Row>, q: nat) {
    exists i :: 0 <= i < |rows| && (rows[i].start == q || rows[i].end == Some(q))
  }

  /** What a page is to read out: for each line the headings of the sections that start there, or
      the line itself if none starts or ends there. */
  ghost function Reading(lines: seq<LogLine>, rows: seq<Row>): seq<Mark> {
    if lines == [] then []
    else
      var n := |lines| - 1;
      Reading(lines[..n], rows) + Headings(StartsAt(rows, lines[n].sequence))
      + if Marks(rows, lines[n].sequence) then [] else [Shown(lines[n])]
  }

  lemma {:induction false} MarksIs(rows: seq<Row>, q: nat)
    ensures Marks(rows, q) <==> StartsAt(rows, q) != [] || EndsAt(rows, q) != []
  {
    if rows != [] {
      var n := |rows| - 1;
      MarksIs(rows[..n], q);
      if i :| 0 <= i < |rows| && (rows[i].start == q || rows[i].end == Some(q)) {
        assert i < n ==> rows[..n][i] == rows[i];
      }
      if i :| 0 <= i < n && (rows[..n][i].start == q || rows[..n][i].end == Some(q)) {
        assert rows[i] == rows[..n][i];
      }
    }
  }

  lemma {:induction false} PutLinesRead(lines: seq<LogLine>, rows: seq<Row>)
    ensures var p := PutLines(Page([], []), lines, rows); PageRight(p) && PageTrace(p) == Reading(lines, rows)
  {
    hide PageRight, PageTrace, StartsAt, EndsAt, Headings, CloseGroups, OpenGroups, AddLine, Marks;
    if lines == [] {
      NothingRead();
    } else {
      var n := |lines| - 1;
      var q := lines[n].sequence;
      var p := PutLines(Page([], []), lines[..n], rows);
      PutLinesRead(lines[..n], rows);
      MarksIs(rows, q);
      var starts, ends := StartsAt(rows, q), EndsAt(rows, q);
      OpenedGroups(p, starts);
      var o := OpenGroups(p, starts);
      AddedLine(o, lines[n]);
      ClosedGroups(if starts == [] && ends == [] then AddLine(o, lines[n]) else o, ends);
    }
  }

  lemma NothingRead()
    ensures PageRight(Page([], [])) && PageTrace(Page([], [])) == []
  {
  }

  /** Whatever the store holds, the page reads out the headings and the lines of the log in their
      order, each once, and every group counts the lines in it. */
  lemma PageReadsOut(lines: seq<LogLine>, rows: seq<Row>)
    ensures Trace(BuildTrees(lines, rows)) == Reading(lines, SortRows(rows)) && CountsRight(BuildTrees(lines, rows))
  {
    hide PutLines, CloseTo, SortRows, Trace, Reading;
    var p := PutLines(Page([], []), lines, SortRows(rows));
    PutLinesRead(lines, SortRows(rows));
    ClosedTo(p, 0);
    assert CloseTo(p, 0).frames == [];
  }

  /** The rows with one start and one depth, in the order they stand in. */
  function Alike(rows: seq<Row>, start: nat, depth: nat): seq<Row> {
    if rows == [] then []
    else
      var n := |rows| - 1;
      Alike(rows[..n], start, depth) + if rows[n].start == start && rows[n].depth == depth then [rows[n]] else []
  }

  ghost predicate Ordered(rows: seq<Row>) {
    forall i, j :: 0 <= i < j < |rows| ==> NotAfter(rows[i], rows[j])
  }

  predicate NotAfter(a: Row, b: Row) {
    a.start < b.start || (a.start == b.start && a.depth <= b.depth)
  }

  lemma AlikeMore(rows: seq<Row>, row: Row, start: nat, depth: nat)
    ensures Alike(rows + [row], start, depth) ==
            Alike(rows, start, depth) + if row.start == start && row.depth == depth then [row] else []
  {
    assert (rows + [row])[..|rows|] == rows;
  }

  lemma {:induction false} InsertKeeps(rows: seq<Row>, row: Row, start: nat, depth: nat)
    requires Ordered(rows)
    ensures Ordered(InsertRow(rows, row))
    ensures Alike(InsertRow(rows, row), start, depth) == Alike(rows + [row], start, depth)
    ensures forall r :: r in InsertRow(rows, row) ==> r in rows || r == row
  {
    hide Alike;
    if rows != [] && RowLess(row, rows[|rows| - 1]) {
      var n := |rows| - 1;
      var less, last := InsertRow(rows[..n], row), rows[n];
      assert rows == rows[..n] + [last];
      InsertKeeps(rows[..n], row, start, depth);
      AlikeMore(less, last, start, depth);
      AlikeMore(rows[..n], row, start, depth);
      AlikeMore(rows[..n], last, start, depth);
      AlikeMore(rows, row, start, depth);
      forall r | r in less ensures NotAfter(r, last) {
      }
    }
  }

  /** Sections come in the order of their starts, at one start in that of their depths, and where
      both are the same in the order of the store. */
  lemma {:induction false} SortRowsExactly(rows: seq<Row>, start: nat, depth: nat)
    ensures Ordered(SortRows(rows)) && Alike(SortRows(rows), start, depth) == Alike(rows, start, depth)
  {
    if rows != [] {
      var n := |rows| - 1;
      SortRowsExactly(rows[..n], start, depth);
      InsertKeeps(SortRows(rows[..n]), rows[n], start, depth);
      AlikeMore(SortRows(rows[..n]), rows[n], start, depth);
    }
  }
}
