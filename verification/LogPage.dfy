// buildStepLogEntries on the heap: groups are objects that are filled while they are open.
module LogPage {
  import opened WorkflowCommands
  import opened LogSections

  datatype Entry = LineEntry(line: LogLine) | GroupEntry(group: LogGroup)

  class LogGroup {
    const head: Head
    var entries: seq<Entry>
    var lineCount: nat

    constructor (head: Head)
      ensures this.head == head && entries == [] && lineCount == 0
    {
      this.head, entries, lineCount := head, [], 0;
    }
  }

  // ------------------------------------------------------- objects and trees

  /** An entry is a tree, its groups among those that are closed. */
  ghost predicate Represents(e: Entry, t: Tree, closed: set<LogGroup>)
    reads closed
    decreases t
  {
    match t
    case Leaf(line) => e == LineEntry(line)
    case Group(head, entries, lineCount) =>
      && e.GroupEntry? && e.group in closed
      && e.group.head == head && e.group.lineCount == lineCount && |e.group.entries| == |entries|
      && forall i :: 0 <= i < |entries| ==> Represents(e.group.entries[i], entries[i], closed)
  }

  ghost predicate RepresentAll(es: seq<Entry>, ts: seq<Tree>, closed: set<LogGroup>)
    reads closed
  {
    |es| == |ts| && forall i :: 0 <= i < |ts| ==> Represents(es[i], ts[i], closed)
  }

  lemma {:induction false} MoreClosed(e: Entry, t: Tree, closed: set<LogGroup>, more: set<LogGroup>)
    requires Represents(e, t, closed) && closed <= more
    ensures Represents(e, t, more)
    decreases t
  {
    if t.Group? {
      forall i | 0 <= i < |t.entries| ensures Represents(e.group.entries[i], t.entries[i], more) {
        MoreClosed(e.group.entries[i], t.entries[i], closed, more);
      }
    }
  }

  lemma AllMoreClosed(es: seq<Entry>, ts: seq<Tree>, closed: set<LogGroup>, more: set<LogGroup>)
    requires RepresentAll(es, ts, closed) && closed <= more
    ensures RepresentAll(es, ts, more)
  {
    forall i | 0 <= i < |ts| ensures Represents(es[i], ts[i], more) {
      MoreClosed(es[i], ts[i], closed, more);
    }
  }

  // ---------------------------------------------------------------- the page

  /** The entry for the group that is open inside, if any. */
  function Inner(stack: seq<LogGroup>, i: nat): seq<Entry> {
    if i < |stack| then [GroupEntry(stack[i])] else []
  }

  /** Entries that are done, and behind them the group that is open inside. */
  ghost predicate Holds(es: seq<Entry>, done: seq<Tree>, inner: seq<Entry>, closed: set<LogGroup>)
    reads closed
  {
    |es| == |done| + |inner| && es[|done|..] == inner && RepresentAll(es[..|done|], done, closed)
  }

  /** An open group is its frame. */
  ghost predicate Mirrors(g: LogGroup, f: Frame, inner: seq<Entry>, closed: set<LogGroup>)
    reads g, closed
  {
    g.head == f.head && g.lineCount == f.lineCount && Holds(g.entries, f.done, inner, closed)
  }

  lemma HoldsMore(es: seq<Entry>, done: seq<Tree>, inner: seq<Entry>, closed: set<LogGroup>, more: set<LogGroup>)
    requires Holds(es, done, inner, closed) && closed <= more
    ensures Holds(es, done, inner, more)
  {
    AllMoreClosed(es[..|done|], done, closed, more);
  }

  /** One more entry behind those that are done. */
  lemma HoldsNext(es: seq<Entry>, done: seq<Tree>, e: Entry, t: Tree, closed: set<LogGroup>)
    requires Holds(es, done, [], closed) && Represents(e, t, closed)
    ensures Holds(es + [e], done + [t], [], closed)
  {
    hide Represents;
    var all, trees := es + [e], done + [t];
    assert es == es[..|done|];
    forall i | 0 <= i < |trees| ensures Represents(all[..|trees|][i], trees[i], closed) {
      assert i < |done| ==> es[..|done|][i] == es[i];
    }
  }

  /** The group that was open inside is closed: it becomes the next entry. */
  lemma HoldsClosed(es: seq<Entry>, done: seq<Tree>, e: Entry, t: Tree, closed: set<LogGroup>)
    requires Holds(es, done, [e], closed) && Represents(e, t, closed)
    ensures Holds(es, done + [t], [], closed)
  {
    hide Represents;
    var trees := done + [t];
    assert es == es[..|done|] + [e];
    forall i | 0 <= i < |trees| ensures Represents(es[..|trees|][i], trees[i], closed) {
      assert i < |done| ==> es[..|done|][i] == es[i];
    }
  }

  ghost predicate Apart(stack: seq<LogGroup>, closed: set<LogGroup>) {
    && (forall i :: 0 <= i < |stack| ==> stack[i] !in closed)
    && forall i, j :: 0 <= i < j < |stack| ==> stack[i] != stack[j]
  }

  /** The open groups from lo to hi are their frames. */
  ghost predicate MirrorRange(stack: seq<LogGroup>, frames: seq<Frame>, lo: nat, hi: nat, closed: set<LogGroup>)
    requires lo <= hi <= |stack| == |frames|
    reads (set i | lo <= i < hi :: stack[i]), closed
  {
    forall i :: lo <= i < hi ==> Mirrors(stack[i], frames[i], Inner(stack, i + 1), closed)
  }

  /** The objects are the page. */
  ghost predicate Shows(roots: seq<Entry>, stack: seq<LogGroup>, page: Page, closed: set<LogGroup>)
    reads stack, closed
  {
    && |stack| == |page.frames| && Apart(stack, closed)
    && Holds(roots, page.done, Inner(stack, 0), closed)
    && MirrorRange(stack, page.frames, 0, |stack|, closed)
  }

  lemma RangeSplit(stack: seq<LogGroup>, frames: seq<Frame>, n: nat, closed: set<LogGroup>)
    requires n < |stack| == |frames|
    ensures MirrorRange(stack, frames, 0, |stack|, closed) <==>
            && MirrorRange(stack, frames, 0, n, closed)
            && Mirrors(stack[n], frames[n], Inner(stack, n + 1), closed)
            && MirrorRange(stack, frames, n + 1, |stack|, closed)
  {
    hide Mirrors;
  }

  /** A range depends on nothing outside it. */
  lemma RangeSame(stack: seq<LogGroup>, frames: seq<Frame>, other: seq<LogGroup>, others: seq<Frame>, lo: nat,
      hi: nat, closed: set<LogGroup>)
    requires lo <= hi <= |stack| == |frames| && hi <= |other| == |others|
    requires forall i :: lo <= i < hi ==>
        stack[i] == other[i] && frames[i] == others[i] && Inner(stack, i + 1) == Inner(other, i + 1)
    requires MirrorRange(stack, frames, lo, hi, closed)
    ensures MirrorRange(other, others, lo, hi, closed)
  {
    hide Mirrors;
    forall i | lo <= i < hi ensures Mirrors(other[i], others[i], Inner(other, i + 1), closed) {
      assert Mirrors(stack[i], frames[i], Inner(stack, i + 1), closed);
    }
  }

  lemma RangeMore(stack: seq<LogGroup>, frames: seq<Frame>, lo: nat, hi: nat, closed: set<LogGroup>,
      more: set<LogGroup>)
    requires lo <= hi <= |stack| == |frames| && closed <= more && MirrorRange(stack, frames, lo, hi, closed)
    ensures MirrorRange(stack, frames, lo, hi, more)
  {
    forall i | lo <= i < hi ensures Mirrors(stack[i], frames[i], Inner(stack, i + 1), more) {
      MirrorsMore(stack[i], frames[i], Inner(stack, i + 1), closed, more);
    }
  }

  lemma Matched(roots: seq<Entry>, stack: seq<LogGroup>, page: Page, closed: set<LogGroup>)
    requires Shows(roots, stack, page, closed)
    ensures |stack| == |page.frames|
  {
  }

  lemma LeafRepresented(line: LogLine, closed: set<LogGroup>)
    ensures Represents(LineEntry(line), Leaf(line), closed)
  {
  }

  lemma HoldsNothing(closed: set<LogGroup>)
    ensures Holds([], [], [], closed)
  {
  }

  lemma HoldsOpened(es: seq<Entry>, done: seq<Tree>, e: Entry, closed: set<LogGroup>)
    requires Holds(es, done, [], closed)
    ensures Holds(es + [e], done, [e], closed)
  {
    hide Represents;
    assert (es + [e])[..|done|] == es[..|done|];
  }

  /** A group whose entries are all done, once closed, represents its tree. */
  lemma GroupRepresented(g: LogGroup, f: Frame, closed: set<LogGroup>)
    requires Mirrors(g, f, [], closed) && g in closed
    ensures Represents(GroupEntry(g), Group(f.head, f.done, f.lineCount), closed)
  {
    assert g.entries == g.entries[..|f.done|];
  }

  lemma MirrorsMore(g: LogGroup, f: Frame, inner: seq<Entry>, closed: set<LogGroup>, more: set<LogGroup>)
    requires Mirrors(g, f, inner, closed) && closed <= more
    ensures Mirrors(g, f, inner, more)
  {
    HoldsMore(g.entries, f.done, inner, closed, more);
  }

  /** Taking the innermost group off the stack closes it. */
  lemma ShowsCloseTop(roots: seq<Entry>, stack: seq<LogGroup>, page: Page, closed: set<LogGroup>)
    requires Shows(roots, stack, page, closed) && stack != []
    ensures var n := |stack| - 1; Shows(roots, stack[..n], CloseTop(page), closed + {stack[n]})
  {
    hide Holds, Represents, MirrorRange;
    var n := |stack| - 1;
    var rest, more, f := stack[..n], closed + {stack[n]}, page.frames[n];
    var t := Group(f.head, f.done, f.lineCount);
    RangeSplit(stack, page.frames, n, closed);
    MirrorsMore(stack[n], f, [], closed, more);
    GroupRepresented(stack[n], f, more);
    HoldsMore(roots, page.done, Inner(stack, 0), closed, more);
    RangeMore(stack, page.frames, 0, n, closed, more);
    if n == 0 {
      HoldsClosed(roots, page.done, GroupEntry(stack[0]), t, more);
      EmptyRange(rest, [], more);
    } else {
      CloseInto(stack, page, t, more);
    }
  }

  lemma EmptyRange(stack: seq<LogGroup>, frames: seq<Frame>, closed: set<LogGroup>)
    requires stack == [] && frames == []
    ensures MirrorRange(stack, frames, 0, 0, closed)
  {
  }

  lemma CloseInto(stack: seq<LogGroup>, page: Page, t: Tree, closed: set<LogGroup>)
    requires |stack| == |page.frames| > 1 && MirrorRange(stack, page.frames, 0, |stack| - 1, closed)
    requires Represents(GroupEntry(stack[|stack| - 1]), t, closed)
    ensures var n := |stack| - 1;
            MirrorRange(stack[..n], AddTree(page.(frames := page.frames[..n]), t).frames, 0, n, closed)
  {
    hide Represents, Holds;
    var n := |stack| - 1;
    var rest, frames, g := stack[..n], page.frames[..n], stack[n - 1];
    var after := AddTree(page.(frames := frames), t).frames;
    assert Mirrors(g, frames[n - 1], [GroupEntry(stack[n])], closed);
    HoldsClosed(g.entries, frames[n - 1].done, GroupEntry(stack[n]), t, closed);
    assert Mirrors(g, after[n - 1], [], closed);
    hide Mirrors;
    forall i | 0 <= i < n ensures Mirrors(rest[i], after[i], Inner(rest, i + 1), closed) {
      assert rest[i] == stack[i];
      assert Mirrors(stack[i], page.frames[i], Inner(stack, i + 1), closed);
    }
  }

  ghost function Groups(stack: seq<LogGroup>): set<LogGroup> {
    set g | g in stack
  }

  lemma GroupsFrom(stack: seq<LogGroup>, n: nat)
    requires n <= |stack|
    ensures n < |stack| ==> Groups(stack[n..]) == {stack[n]} + Groups(stack[n + 1..])
    ensures Groups(stack[|stack|..]) == {}
    ensures Groups(stack) == Groups(stack[..n]) + Groups(stack[n..])
  {
    if n < |stack| {
      assert stack[n..] == [stack[n]] + stack[n + 1..];
    }
    assert stack == stack[..n] + stack[n..];
  }

  lemma TopClosed(page: Page)
    requires page.frames != []
    ensures |CloseTop(page).frames| == |page.frames| - 1
  {
  }

  /** Closing to a height is closing one more than to the height above. */
  lemma {:induction false} CloseOneMore(page: Page, height: nat)
    requires height < |page.frames|
    ensures CloseTo(page, height) == CloseTop(CloseTo(page, height + 1))
    decreases |page.frames|
  {
    hide CloseTop;
    TopClosed(page);
    if height + 1 < |page.frames| {
      CloseOneMore(CloseTop(page), height);
    }
  }

  lemma {:induction false} ShowsCloseTo(roots: seq<Entry>, stack: seq<LogGroup>, page: Page, closed: set<LogGroup>,
      height: nat)
    requires Shows(roots, stack, page, closed) && height <= |page.frames| == |stack|
    ensures Shows(roots, stack[..height], CloseTo(page, height), closed + Groups(stack[height..]))
    decreases |stack| - height
  {
    hide Shows, CloseTop, CloseTo, Groups;
    GroupsFrom(stack, height);
    if height < |stack| {
      ShowsCloseTo(roots, stack, page, closed, height + 1);
      var shorter, more := stack[..height + 1], closed + Groups(stack[height + 1..]);
      ShowsCloseTop(roots, shorter, CloseTo(page, height + 1), more);
      CloseOneMore(page, height);
      assert shorter[..height] == stack[..height] && more + {shorter[height]} == closed + Groups(stack[height..]);
    } else {
      AllOpen(page);
      assert stack[..height] == stack && closed + Groups(stack[height..]) == closed;
    }
  }

  lemma AllOpen(page: Page)
    ensures CloseTo(page, |page.frames|) == page
  {
  }

  function OneCounted(frames: seq<Frame>, n: nat): (r: seq<Frame>)
    requires n < |frames|
    ensures |r| == |frames| && forall i :: 0 <= i < |frames| && i != n ==> r[i] == frames[i]
  {
    frames[n := frames[n].(lineCount := frames[n].lineCount + 1)]
  }

  /** The first n open groups counted one line more. */
  function CountedFirst(frames: seq<Frame>, n: nat): (r: seq<Frame>)
    requires n <= |frames|
    ensures |r| == |frames|
  {
    Counted(frames[..n], 1) + frames[n..]
  }

  lemma CountedNone(frames: seq<Frame>)
    ensures CountedFirst(frames, 0) == frames
  {
  }

  lemma CountedNext(frames: seq<Frame>, n: nat)
    requires n < |frames|
    ensures OneCounted(CountedFirst(frames, n), n) == CountedFirst(frames, n + 1)
  {
  }

  lemma CountedWhole(frames: seq<Frame>)
    ensures CountedFirst(frames, |frames|) == Counted(frames, 1)
  {
    assert frames[..|frames|] == frames;
  }

  class PageBuilder {
    var roots: seq<Entry>
    var stack: seq<LogGroup>
    ghost var page: Page
    ghost var closed: set<LogGroup>

    ghost predicate Valid()
      reads this, stack, closed
    {
      Shows(roots, stack, page, closed)
    }

    constructor ()
      ensures Valid() && page == Page([], []) && stack == [] && closed == {}
    {
      roots, stack, page, closed := [], [], Page([], []), {};
    }

    ghost function Top(): set<LogGroup>
      reads this
    {
      if stack == [] then {} else {stack[|stack| - 1]}
    }

    /** Append to the innermost open group, or to the top level. */
    method AppendEntry(e: Entry)
      modifies this`roots, Top()
      ensures stack == [] ==> roots == old(roots) + [e]
      ensures stack != [] ==>
                && roots == old(roots) && stack[|stack| - 1].entries == old(stack[|stack| - 1].entries) + [e]
                && stack[|stack| - 1].lineCount == old(stack[|stack| - 1].lineCount)
    {
      if |stack| == 0 {
        roots := roots + [e];
        return;
      }
      var parent := stack[|stack| - 1];
      parent.entries := parent.entries + [e];
    }

    method AppendLeaf(line: LogLine)
      requires Valid()
      modifies this, Groups(stack)
      ensures Valid() && page == AddTree(old(page), Leaf(line)) && stack == old(stack) && closed == old(closed)
    {
      hide Represents, Holds, MirrorRange;
      var e, t, n := LineEntry(line), Leaf(line), |stack| - 1;
      ghost var frames := page.frames;
      LeafRepresented(line, closed);
      if n < 0 {
        HoldsNext(roots, page.done, e, t, closed);
        AppendEntry(e);
        page := AddTree(page, t);
        return;
      }
      RangeSplit(stack, frames, n, closed);
      HoldsNext(stack[n].entries, frames[n].done, e, t, closed);
      AppendEntry(e);
      page := AddTree(page, t);
      assert MirrorRange(stack, frames, 0, n, closed);
      RangeSame(stack, frames, stack, page.frames, 0, n, closed);
      NoRange(stack, page.frames, closed);
      RangeSplit(stack, page.frames, n, closed);
    }

    /** One more line in one open group. */
    method CountIn(n: nat)
      requires Valid() && n < |stack|
      modifies this`page, {stack[n]}
      ensures Valid() && |stack| == |old(page).frames| && page == old(page).(frames := OneCounted(old(page).frames, n))
    {
      hide Represents, Holds, MirrorRange;
      ghost var frames := page.frames;
      var g := stack[n];
      RangeSplit(stack, frames, n, closed);
      g.lineCount := g.lineCount + 1;
      page := page.(frames := OneCounted(frames, n));
      assert MirrorRange(stack, frames, 0, n, closed) && MirrorRange(stack, frames, n + 1, |stack|, closed);
      RangeSame(stack, frames, stack, page.frames, 0, n, closed);
      RangeSame(stack, frames, stack, page.frames, n + 1, |stack|, closed);
      RangeSplit(stack, page.frames, n, closed);
    }

    /** One more line in every open group. */
    method CountLine()
      requires Valid()
      modifies this`page, Groups(stack)
      ensures Valid() && page == old(page).(frames := Counted(old(page).frames, 1))
      ensures stack == old(stack) && closed == old(closed)
    {
      hide Shows, CountedFirst, OneCounted, Counted;
      ghost var frames := page.frames;
      CountedNone(frames);
      Matched(roots, stack, page, closed);
      for n := 0 to |stack|
        invariant |stack| == |frames| && page == old(page).(frames := CountedFirst(frames, n))
        invariant Valid()
      {
        CountIn(n);
        CountedNext(frames, n);
      }
      CountedWhole(frames);
    }

    method OpenSection(row: Row)
      requires Valid()
      modifies this, Groups(stack)
      ensures Valid() && page == OpenGroup(old(page), row) && closed == old(closed)
      ensures |stack| == |old(stack)| + 1 && stack[..|old(stack)|] == old(stack) && fresh(stack[|old(stack)|])
    {
      hide Represents, HeadOf, MirrorRange, Holds;
      var g := new LogGroup(HeadOf(row));
      var e, n := GroupEntry(g), |stack| - 1;
      ghost var before, frames := stack, page.frames;
      HoldsNothing(closed);
      if n < 0 {
        HoldsOpened(roots, page.done, e, closed);
      } else {
        RangeSplit(stack, frames, n, closed);
        HoldsOpened(stack[n].entries, frames[n].done, e, closed);
      }
      AppendEntry(e);
      assert n >= 0 ==> MirrorRange(before, frames, 0, n, closed);
      stack := stack + [g];
      page := OpenGroup(page, row);
      assert Mirrors(g, page.frames[n + 1], Inner(stack, n + 2), closed);
      PushedRange(before, frames, g, page.frames[n + 1], closed);
    }

    /** The innermost open group with the id of the section is taken off, with all inside it. */
    method CloseSection(row: Row)
      requires Valid()
      modifies this`stack, this`page, this`closed
      ensures Valid() && page == CloseGroup(old(page), row)
      ensures stack <= old(stack) && closed <= old(closed) + Groups(old(stack))
    {
      hide Holds, CloseTo, CloseTop, Groups, MirrorRange;
      var index := |stack| - 1;
      while index >= 0
        invariant -1 <= index < |stack|
        invariant forall i :: index < i < |stack| ==> page.frames[i].head.id != row.id
      {
        assert stack[index].head == page.frames[index].head by { HeadAt(stack, page.frames, index, closed); }
        if stack[index].head.id == row.id {
          ShowsCloseTo(roots, stack, page, closed, index);
          GroupsFrom(stack, index);
          assert HeightOf(page.frames, row.id) == index;
          page, closed := CloseTo(page, index), closed + Groups(stack[index..]);
          stack := stack[..index];
          return;
        }
        index := index - 1;
      }
    }
  }

  lemma HeadAt(stack: seq<LogGroup>, frames: seq<Frame>, i: nat, closed: set<LogGroup>)
    requires i < |stack| == |frames| && MirrorRange(stack, frames, 0, |stack|, closed)
    ensures stack[i].head == frames[i].head
  {
    assert Mirrors(stack[i], frames[i], Inner(stack, i + 1), closed);
  }

  lemma NoRange(stack: seq<LogGroup>, frames: seq<Frame>, closed: set<LogGroup>)
    requires |stack| == |frames|
    ensures MirrorRange(stack, frames, |stack|, |stack|, closed)
  {
  }

  /** The range grows with a group that was pushed on top. */
  lemma PushedRange(before: seq<LogGroup>, frames: seq<Frame>, g: LogGroup, f: Frame, closed: set<LogGroup>)
    requires |before| == |frames| && Mirrors(g, f, [], closed)
    requires var n := |before| - 1;
             n >= 0 ==>
                 MirrorRange(before, frames, 0, n, closed) && Mirrors(before[n], frames[n], [GroupEntry(g)], closed)
    ensures MirrorRange(before + [g], frames + [f], 0, |before| + 1, closed)
  {
    hide Mirrors;
    var stack := before + [g];
    forall i | 0 <= i < |stack| ensures Mirrors(stack[i], (frames + [f])[i], Inner(stack, i + 1), closed) {
      assert i < |before| - 1 ==> Mirrors(before[i], frames[i], Inner(before, i + 1), closed);
    }
  }

  // ------------------------------------------------------------ the function

  /** The sections that start, and those that end, at each sequence number. */
  method IndexSections(ordered: seq<Row>) returns (starts: map<nat, seq<Row>>, ends: map<nat, seq<Row>>)
    ensures forall q :: At(starts, q) == StartsAt(ordered, q) && At(ends, q) == EndsAt(ordered, q)
  {
    hide StartsAt, EndsAt;
    starts, ends := map[], map[];
    IndexedNone(ordered);
    for n := 0 to |ordered|
      invariant forall q :: At(starts, q) == StartsAt(ordered[..n], q) && At(ends, q) == EndsAt(ordered[..n], q)
    {
      var section := ordered[n];
      ghost var starting, ending := starts, ends;
      starts := starts[section.start := At(starts, section.start) + [section]];
      if section.end.Some? {
        ends := ends[section.end.value := At(ends, section.end.value) + [section]];
      }
      forall q ensures At(starts, q) == StartsAt(ordered[..n + 1], q) && At(ends, q) == EndsAt(ordered[..n + 1], q) {
        IndexedNext(ordered, n, q);
        assert At(starting, q) == StartsAt(ordered[..n], q) && At(ending, q) == EndsAt(ordered[..n], q);
      }
    }
    assert ordered[..|ordered|] == ordered;
  }

  lemma IndexedNone(rows: seq<Row>)
    ensures forall q :: StartsAt(rows[..0], q) == [] && EndsAt(rows[..0], q) == []
  {
  }

  lemma IndexedNext(rows: seq<Row>, n: nat, q: nat)
    requires n < |rows|
    ensures StartsAt(rows[..n + 1], q) == if rows[n].start == q then StartsAt(rows[..n], q) + [rows[n]]
        else StartsAt(rows[..n], q)
    ensures EndsAt(rows[..n + 1], q) == if rows[n].end == Some(q) then EndsAt(rows[..n], q) + [rows[n]]
        else EndsAt(rows[..n], q)
  {
    assert rows[..n + 1][..n] == rows[..n];
  }

  /** A missing key reads as the empty list. */
  function At(index: map<nat, seq<Row>>, q: nat): seq<Row> {
    if q in index then index[q] else []
  }

  method OpenSections(b: PageBuilder, starts: seq<Row>)
    requires b.Valid()
    modifies b, Groups(b.stack)
    ensures b.Valid() && b.page == OpenGroups(old(b.page), starts)
    ensures forall g :: g in b.stack ==> g in old(b.stack) || fresh(g)
    ensures b.closed == old(b.closed)
  {
    hide Shows, OpenGroup;
    for n := 0 to |starts|
      invariant b.Valid() && OpenGroups(b.page, starts[n..]) == OpenGroups(old(b.page), starts)
      invariant forall g :: g in b.stack ==> g in old(b.stack) || fresh(g)
      invariant b.closed == old(b.closed)
    {
      assert starts[n..][0] == starts[n] && starts[n..][1..] == starts[n + 1..];
      label Open:
      b.OpenSection(starts[n]);
      assert b.stack == old@Open(b.stack) + [b.stack[|b.stack| - 1]];
    }
  }

  method CloseSections(b: PageBuilder, ends: seq<Row>)
    requires b.Valid()
    modifies b`stack, b`page, b`closed
    ensures b.Valid() && b.page == CloseGroups(old(b.page), ends)
    ensures b.stack <= old(b.stack) && b.closed <= old(b.closed) + Groups(old(b.stack))
  {
    hide Shows, CloseGroup;
    for n := 0 to |ends|
      invariant b.Valid() && CloseGroups(b.page, ends[n..]) == CloseGroups(old(b.page), ends)
      invariant b.stack <= old(b.stack) && b.closed <= old(b.closed) + Groups(old(b.stack))
    {
      assert ends[n..][0] == ends[n] && ends[n..][1..] == ends[n + 1..];
      label Close:
      b.CloseSection(ends[n]);
      PrefixGroups(old@Close(b.stack), old(b.stack));
      PrefixOfPrefix(b.stack, old@Close(b.stack), old(b.stack));
    }
  }

  lemma PrefixOfPrefix(a: seq<LogGroup>, b: seq<LogGroup>, c: seq<LogGroup>)
    requires a <= b && b <= c
    ensures a <= c
  {
    assert a == b[..|a|] == c[..|b|][..|a|] == c[..|a|];
  }

  lemma PrefixGroups(a: seq<LogGroup>, b: seq<LogGroup>)
    requires a <= b
    ensures Groups(a) <= Groups(b)
  {
    assert forall g :: g in a ==> g in b[..|a|];
  }

  method PutLogLine(b: PageBuilder, line: LogLine, starts: seq<Row>, ends: seq<Row>)
    requires b.Valid()
    modifies b, Groups(b.stack)
    ensures b.Valid() && b.page == PutLine(old(b.page), line, starts, ends)
    ensures fresh(Groups(b.stack) - old(Groups(b.stack))) && fresh(b.closed - old(b.closed) - old(Groups(b.stack)))
  {
    hide Shows, OpenGroups, CloseGroups;
    OpenSections(b, starts);
    if |starts| == 0 && |ends| == 0 {
      b.AppendLeaf(line);
      b.CountLine();
    }
    label Put:
    CloseSections(b, ends);
    assert forall g :: g in b.stack ==> g in old@Put(b.stack)[..|b.stack|];
  }

  /** The page of a step: objects that represent the trees the lines and the sections make. */
  method BuildStepLogEntries(lines: seq<LogLine>, sections: seq<Row>)
    returns (roots: seq<Entry>, ghost closed: set<LogGroup>)
    ensures fresh(closed) && RepresentAll(roots, BuildTrees(lines, sections), closed)
  {
    hide Shows, PutLine, SortRows;
    var ordered := SortRows(sections);
    var starts, ends := IndexSections(ordered);
    var b := new PageBuilder();
    for n := 0 to |lines|
      invariant b.Valid() && b.page == PutLines(Page([], []), lines[..n], ordered)
      invariant fresh(b) && fresh(Groups(b.stack)) && fresh(b.closed)
    {
      assert lines[..n + 1][..n] == lines[..n];
      PutLogLine(b, lines[n], At(starts, lines[n].sequence), At(ends, lines[n].sequence));
    }
    assert lines[..|lines|] == lines;
    roots, closed := b.roots, b.closed + Groups(b.stack);
    EndsOnFinish(roots, b.stack, b.page, b.closed);
  }

  lemma EndsOnFinish(roots: seq<Entry>, stack: seq<LogGroup>, page: Page, closed: set<LogGroup>)
    requires Shows(roots, stack, page, closed)
    ensures RepresentAll(roots, Finished(page), closed + Groups(stack))
  {
    hide RepresentAll, MirrorRange;
    ShowsCloseTo(roots, stack, page, closed, 0);
    assert stack[0..] == stack && stack[..0] == [];
    var done := Finished(page);
    assert Holds(roots, done, [], closed + Groups(stack)) && roots[..|done|] == roots;
  }
}
