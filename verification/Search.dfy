// Substring search, splitting at a character, and joining.
module Search {

  /** The bytes of a character in UTF-8. */
  function Width(c: char): nat {
    if c as int < 0x80 then 1 else if c as int < 0x800 then 2 else if c as int < 0x10000 then 3 else 4
  }

  /** What n bytes of UTF-8 can hold: 7 bits, or 6 from each continuation and 7 - n from the first. */
  function Capacity(n: nat): nat {
    match n case 1 => 0x80 case 2 => 0x20 * 0x40 case 3 => 0x10 * 0x40 * 0x40 case _ => 0x8 * 0x40 * 0x40 * 0x40
  }

  /** A character takes the fewest bytes that can hold it. */
  lemma WidthIsLeast(c: char)
    ensures 1 <= Width(c) <= 4 && c as int < Capacity(Width(c))
    ensures forall n :: 1 <= n < Width(c) ==> Capacity(n) <= c as int
  {
  }

  /** len of a Go string. */
  function Size(s: string): nat {
    if s == "" then 0 else Size(s[..|s| - 1]) + Width(s[|s| - 1])
  }

  /** sub stands in s at place i. */
  predicate OccursAt(s: string, sub: string, i: nat) {
    i <= |s| && sub <= s[i..]
  }

  predicate Contains(s: string, sub: string) {
    exists i :: 0 <= i <= |s| && OccursAt(s, sub, i)
  }

  /** strings.Index: the first place, or none. */
  function IndexOf(s: string, sub: string): (r: int)
    ensures -1 <= r <= |s|
    ensures r >= 0 ==> OccursAt(s, sub, r) && forall i :: 0 <= i < r ==> !OccursAt(s, sub, i)
    ensures r < 0 ==> forall i :: 0 <= i <= |s| ==> !OccursAt(s, sub, i)
  {
    if sub <= s then
      assert s[0..] == s;
      0
    else if s == "" then
      assert s[0..] == s;
      -1
    else
      var r := IndexOf(s[1..], sub);
      assert s[0..] == s;
      assert forall i :: 0 < i <= |s| ==> s[i..] == s[1..][i - 1..];
      assert forall i :: 0 < i <= |s| ==> OccursAt(s, sub, i) == OccursAt(s[1..], sub, i - 1);
      if r < 0 then -1 else r + 1
  }

  lemma OccursLater(s: string, x: string, n: nat)
    requires n <= |s| && Contains(s[n..], x)
    ensures Contains(s, x)
  {
    var i :| 0 <= i <= |s[n..]| && OccursAt(s[n..], x, i);
    assert s[n..][i..] == s[n + i..];
    assert OccursAt(s, x, n + i);
  }

  lemma PieceContains(s: string, lo: nat, hi: nat, x: string)
    requires lo <= hi <= |s| && Contains(s[lo..hi], x)
    ensures Contains(s, x)
  {
    var i :| 0 <= i <= |s[lo..hi]| && OccursAt(s[lo..hi], x, i);
    assert x == s[lo..hi][i..][..|x|] == s[lo + i..][..|x|];
    assert OccursAt(s, x, lo + i);
  }

  // ------------------------------------------------------- splitting, joining

  /** strings.Split(s, c) for one character c. */
  function Split(s: string, c: char): (r: seq<string>)
    ensures r != []
  {
    if s == "" then [""]
    else
      var rest := Split(s[1..], c);
      if s[0] == c then [""] + rest else [[s[0]] + rest[0]] + rest[1..]
  }

  /** strings.Join(items, c). */
  function Join(items: seq<string>, c: char): string {
    if items == [] then ""
    else if |items| == 1 then items[0]
    else items[0] + [c] + Join(items[1..], c)
  }

  lemma {:induction false} SplitPrefix(a: string, s: string, c: char)
    requires c !in a
    ensures Split(a + s, c) == [a + Split(s, c)[0]] + Split(s, c)[1..]
  {
    if a == "" {
      assert a + s == s && Split(s, c) == [Split(s, c)[0]] + Split(s, c)[1..];
      assert a + Split(s, c)[0] == Split(s, c)[0];
    } else {
      assert (a + s)[1..] == a[1..] + s;
      SplitPrefix(a[1..], s, c);
      assert a[0] in a && (a + s)[0] == a[0];
      assert [a[0]] + (a[1..] + Split(s, c)[0]) == a + Split(s, c)[0];
    }
  }

  lemma SplitFirst(s: string, c: char)
    requires s != ""
    ensures var rest := Split(s[1..], c);
            Split(s, c) == if s[0] == c then [""] + rest else [[s[0]] + rest[0]] + rest[1..]
  {
  }

  /** Splitting at a separator splits both sides. */
  lemma {:induction false} SplitConcat(a: string, b: string, c: char)
    ensures Split(a + [c] + b, c) == Split(a, c) + Split(b, c)
  {
    if a == "" {
      assert a + [c] + b == [c] + b && ([c] + b)[1..] == b;
    } else {
      var t, x := a[1..] + [c] + b, a[0];
      assert a + [c] + b == [x] + t && ([x] + t)[1..] == t;
      SplitConcat(a[1..], b, c);
      SplitFirst(a, c);
      SplitFirst([x] + t, c);
      hide Split;
      FirstConcat(Split(a[1..], c), Split(b, c), x);
    }
  }

  lemma FirstConcat(rest: seq<string>, more: seq<string>, x: char)
    requires rest != []
    ensures [""] + (rest + more) == ([""] + rest) + more
    ensures [[x] + (rest + more)[0]] + (rest + more)[1..] == ([[x] + rest[0]] + rest[1..]) + more
  {
    assert (rest + more)[1..] == rest[1..] + more;
  }

  /** Splitting takes apart what joining put together. */
  lemma {:induction false} SplitJoin(items: seq<string>, c: char)
    requires items != [] && forall x :: x in items ==> c !in x
    ensures Split(Join(items, c), c) == items
  {
    if |items| == 1 {
      assert items[0] + "" == items[0];
      SplitPrefix(items[0], "", c);
    } else {
      var rest := [c] + Join(items[1..], c);
      SplitPrefix(items[0], rest, c);
      assert rest[1..] == Join(items[1..], c) && items[0] in items;
      SplitJoin(items[1..], c);
      assert Split(rest, c) == [""] + items[1..];
      assert items[0] + "" == items[0] && items == [items[0]] + items[1..];
      assert items[0] + rest == Join(items, c);
    }
  }

  /** Joining puts together what splitting took apart. */
  lemma {:induction false} JoinSplit(s: string, c: char)
    ensures Join(Split(s, c), c) == s
  {
    if s != "" {
      JoinSplit(s[1..], c);
      var rest := Split(s[1..], c);
      if s[0] == c {
        assert Split(s, c)[1..] == rest;
      } else {
        assert Split(s, c)[1..] == rest[1..];
      }
    }
  }

  /** The first place of a text behind a prefix that holds none of its first character. */
  lemma {:induction false} IndexBehind(a: string, sub: string, s: string)
    requires sub != "" && sub[0] !in a
    ensures IndexOf(a + sub + s, sub) == |a|
  {
    var t := a + sub + s;
    assert t[|a|..] == sub + s && OccursAt(t, sub, |a|);
    forall i | 0 <= i < |a| ensures !OccursAt(t, sub, i) {
      assert t[i..][0] == a[i] && a[i] in a;
    }
  }

  /** The index is the first place, and there is none if there is no place. */
  lemma FirstPlace(s: string, sub: string, i: nat)
    requires i <= |s| && OccursAt(s, sub, i) && forall j :: 0 <= j < i ==> !OccursAt(s, sub, j)
    ensures IndexOf(s, sub) == i
  {
    hide OccursAt, IndexOf;
  }

  lemma NoPlace(s: string, sub: string)
    requires forall j :: 0 <= j <= |s| ==> !OccursAt(s, sub, j)
    ensures IndexOf(s, sub) == -1
  {
    hide OccursAt, IndexOf;
  }

  lemma NotFound(s: string, sub: string)
    requires sub != "" && sub[0] !in s
    ensures IndexOf(s, sub) == -1
  {
    forall i | 0 <= i <= |s| ensures !OccursAt(s, sub, i) {
      if i < |s| {
        assert s[i..][0] == s[i] && s[i] in s;
      }
    }
  }
}
