// Strings as the Go sources use them: byte order, sorted lists, white space trimming.
module Text {

  // ---------------------------------------------------------------- order

  /** The order of sort.Strings: byte order, which for UTF-8 is code point order. */
  predicate Less(a: string, b: string)
  {
    |b| > 0 && (|a| == 0 || a[0] < b[0] || (a[0] == b[0] && Less(a[1..], b[1..])))
  }

  /** The texts agree before place i and differ there, the first having the smaller character. */
  predicate SmallerAt(a: string, b: string, i: nat) {
    i < |a| && i < |b| && a[..i] == b[..i] && a[i] < b[i]
  }

  /** Dictionary order: a proper prefix, or the smaller character at the first difference. */
  ghost predicate Precedes(a: string, b: string) {
    (a <= b && a != b) || exists i :: SmallerAt(a, b, i)
  }

  lemma {:induction false} LessIs(a: string, b: string)
    ensures Less(a, b) <==> Precedes(a, b)
  {
    if a == "" {
      assert a <= b;
    } else if b != "" {
      LessIs(a[1..], b[1..]);
      if a[0] < b[0] {
        assert SmallerAt(a, b, 0);
      } else if a[0] == b[0] {
        PrecedesFirst(a, b);
      } else {
        forall i: nat ensures !SmallerAt(a, b, i) {
          assert 0 < i < |a| ==> a[..i][0] == a[0];
          assert 0 < i < |b| ==> b[..i][0] == b[0];
        }
      }
    }
  }

  lemma PrecedesFirst(a: string, b: string)
    requires a != "" && b != "" && a[0] == b[0]
    ensures Precedes(a, b) <==> Precedes(a[1..], b[1..])
  {
    assert a == [a[0]] + a[1..] && b == [b[0]] + b[1..];
    if i: nat :| SmallerAt(a, b, i) {
      assert a[1..][..i - 1] == a[..i][1..] && b[1..][..i - 1] == b[..i][1..];
      assert SmallerAt(a[1..], b[1..], i - 1);
    }
    if i: nat :| SmallerAt(a[1..], b[1..], i) {
      assert a[..i + 1] == [a[0]] + a[1..][..i] && b[..i + 1] == [b[0]] + b[1..][..i];
      assert SmallerAt(a, b, i + 1);
    }
  }

  lemma {:induction false} LessTotal(a: string, b: string)
    ensures Less(a, b) || Less(b, a) || a == b
  {
    if |a| > 0 && |b| > 0 && a[0] == b[0] {
      LessTotal(a[1..], b[1..]);
      if a[1..] == b[1..] {
        assert a == [a[0]] + a[1..] && b == [b[0]] + b[1..];
      }
    }
  }

  lemma {:induction false} LessIrreflexive(a: string)
    ensures !Less(a, a)
  {
    if |a| > 0 {
      LessIrreflexive(a[1..]);
    }
  }

  lemma {:induction false} LessTransitive(a: string, b: string, c: string)
    requires Less(a, b) && Less(b, c)
    ensures Less(a, c)
  {
    if |a| > 0 && a[0] == b[0] && b[0] == c[0] {
      LessTransitive(a[1..], b[1..], c[1..]);
    }
  }

  lemma LessAsymmetric(a: string, b: string)
    requires Less(a, b)
    ensures !Less(b, a)
  {
    if Less(b, a) {
      LessTransitive(a, b, a);
      LessIrreflexive(a);
    }
  }

  /** A proper prefix comes first. */
  lemma {:induction false} PrefixLess(a: string, b: string)
    requires a <= b && a != b
    ensures Less(a, b)
  {
    if |a| > 0 {
      PrefixLess(a[1..], b[1..]);
    }
  }

  // --------------------------------------------------------- sorted lists

  ghost predicate Ascending(s: seq<string>) {
    forall i, j :: 0 <= i < j < |s| ==> Precedes(s[i], s[j])
  }

  /** Ascending lists in terms of the comparison. */
  lemma AscendingIs(s: seq<string>)
    ensures Ascending(s) <==> forall i, j :: 0 <= i < j < |s| ==> Less(s[i], s[j])
  {
    hide Less, Precedes;
    forall i, j | 0 <= i < j < |s| ensures Less(s[i], s[j]) <==> Precedes(s[i], s[j]) {
      LessIs(s[i], s[j]);
    }
  }

  ghost predicate Distinct<T>(s: seq<T>) {
    forall i, j :: 0 <= i < j < |s| ==> s[i] != s[j]
  }

  ghost function Elements<T>(s: seq<T>): set<T> {
    set x | x in s
  }

  lemma AscendingIsDistinct(s: seq<string>)
    requires Ascending(s)
    ensures Distinct(s)
  {
    AscendingIs(s);
    forall i, j | 0 <= i < j < |s| ensures s[i] != s[j] {
      LessIrreflexive(s[i]);
    }
  }

  lemma {:induction false} DistinctSize<T>(s: seq<T>)
    requires Distinct(s)
    ensures |Elements(s)| == |s|
  {
    if |s| > 0 {
      var n := |s| - 1;
      DistinctSize(s[..n]);
      assert Elements(s) == Elements(s[..n]) + {s[n]};
      assert s[n] !in Elements(s[..n]);
    } else {
      assert Elements(s) == {};
    }
  }

  lemma {:induction false} DistinctCounts<T>(s: seq<T>, x: T)
    requires Distinct(s)
    ensures multiset(s)[x] == if x in s then 1 else 0
  {
    if s != [] {
      var n := |s| - 1;
      DistinctCounts(s[..n], x);
      assert s == s[..n] + [s[n]];
    }
  }

  lemma CountedTwice<T>(s: seq<T>, i: nat, j: nat)
    requires i < j < |s| && s[i] == s[j]
    ensures multiset(s)[s[i]] >= 2
  {
    assert s == s[..i] + [s[i]] + s[i + 1..j] + [s[j]] + s[j + 1..];
  }

  /** sort.SearchStrings on an ascending list: the first index not below the value. */
  function SearchStrings(values: seq<string>, value: string): (index: nat)
    ensures index <= |values|
    ensures forall i :: 0 <= i < index ==> Less(values[i], value)
    ensures index < |values| ==> !Less(values[index], value)
  {
    if values == [] || !Less(values[0], value) then 0
    else 1 + SearchStrings(values[1..], value)
  }

  /** Where an ascending list keeps (or lacks) a value. */
  lemma SearchFinds(values: seq<string>, value: string)
    requires Ascending(values)
    ensures var i := SearchStrings(values, value);
            && (value in values <==> i < |values| && values[i] == value)
            && (value !in values ==> forall j :: i <= j < |values| ==> Less(value, values[j]))
  {
    var i := SearchStrings(values, value);
    AscendingIs(values);
    LessIrreflexive(value);
    if i < |values| && values[i] != value {
      LessTotal(values[i], value);
      forall j | i < j < |values| ensures Less(value, values[j]) {
        LessTransitive(value, values[i], values[j]);
      }
    }
  }

  lemma InsertElements<T>(values: seq<T>, i: nat, value: T)
    requires i <= |values|
    ensures Elements(values[..i] + [value] + values[i..]) == Elements(values) + {value}
  {
    var r := values[..i] + [value] + values[i..];
    assert values == values[..i] + values[i..];
    assert r[i] == value;
    forall x ensures x in r <==> x in values || x == value {
      assert x in values <==> x in values[..i] || x in values[i..];
    }
  }

  lemma InsertAscending(values: seq<string>, i: nat, value: string)
    requires Ascending(values) && i <= |values|
    requires forall j :: 0 <= j < i ==> Less(values[j], value)
    requires forall j :: i <= j < |values| ==> Less(value, values[j])
    ensures Ascending(values[..i] + [value] + values[i..])
  {
    var r := values[..i] + [value] + values[i..];
    AscendingIs(values);
    AscendingIs(r);
    forall a, b | 0 <= a < b < |r| ensures Less(r[a], r[b]) {
      var x := if a < i then a else a - 1;
      var y := if b < i then b else b - 1;
      if a != i && b != i {
        assert r[a] == values[x] && r[b] == values[y] && x < y;
      }
    }
  }

  /** Insertion into an ascending list; a value already present is not repeated. */
  function InsertUnique(values: seq<string>, value: string): (r: seq<string>)
    requires Ascending(values)
    ensures Ascending(r) && Elements(r) == Elements(values) + {value}
    ensures |r| == if value in values then |values| else |values| + 1
  {
    var i := SearchStrings(values, value);
    SearchFinds(values, value);
    if i < |values| && values[i] == value then
      assert Elements(values) == Elements(values) + {value};
      values
    else
      InsertElements(values, i, value);
      InsertAscending(values, i, value);
      values[..i] + [value] + values[i..]
  }

  /** sort.Strings applied to the keys of a map: the ascending list of a set of strings. */
  function SortUnique(values: seq<string>): (r: seq<string>)
    ensures Ascending(r) && Elements(r) == Elements(values)
  {
    if values == [] then []
    else
      var n := |values| - 1;
      assert Elements(values) == Elements(values[..n]) + {values[n]};
      InsertUnique(SortUnique(values[..n]), values[n])
  }

  lemma NonEmptyElements<T>(s: seq<T>)
    ensures s == [] <==> Elements(s) == {}
  {
    if s != [] {
      assert s[0] in Elements(s);
    }
  }

  lemma AscendingHeadIsLeast(s: seq<string>, x: string)
    requires Ascending(s) && x in s
    ensures x == s[0] || Less(s[0], x)
  {
    AscendingIs(s);
  }

  lemma AscendingTail(s: seq<string>)
    requires Ascending(s) && s != []
    ensures Ascending(s[1..]) && Elements(s[1..]) == Elements(s) - {s[0]}
  {
    AscendingIsDistinct(s);
    assert s == [s[0]] + s[1..];
    assert s[0] !in s[1..];
    forall i, j | 0 <= i < j < |s[1..]| ensures Precedes(s[1..][i], s[1..][j]) {
      assert Precedes(s[i + 1], s[j + 1]);
    }
  }

  lemma AscendingAppend(s: seq<string>, x: string)
    requires Ascending(s) && forall y :: y in s ==> Less(y, x)
    ensures Ascending(s + [x])
  {
    AscendingIs(s);
    AscendingIs(s + [x]);
  }

  /** An ascending list is determined by its elements. */
  lemma {:induction false} AscendingUnique(a: seq<string>, b: seq<string>)
    requires Ascending(a) && Ascending(b) && Elements(a) == Elements(b)
    ensures a == b
  {
    NonEmptyElements(a);
    NonEmptyElements(b);
    if a != [] {
      assert a[0] in Elements(a);
      assert b[0] in Elements(b);
      AscendingHeadIsLeast(a, b[0]);
      AscendingHeadIsLeast(b, a[0]);
      if a[0] != b[0] {
        LessAsymmetric(a[0], b[0]);
      }
      AscendingTail(a);
      AscendingTail(b);
      AscendingUnique(a[1..], b[1..]);
      assert a == [a[0]] + a[1..] && b == [b[0]] + b[1..];
    }
  }

  /** The ascending list of a set of strings. */
  ghost function SortSet(s: set<string>): (r: seq<string>)
    ensures Ascending(r) && Elements(r) == s
  {
    if s == {} then []
    else
      var x :| x in s;
      var rest := SortSet(s - {x});
      assert s == (s - {x}) + {x};
      InsertUnique(rest, x)
  }

  // ----------------------------------------------------------- white space

  /** unicode.IsSpace. */
  predicate IsSpace(c: char) {
    || '\t' <= c <= '\r' || c == ' ' || c == '\U{85}' || c == '\U{A0}'
    || c == '\U{1680}' || '\U{2000}' <= c <= '\U{200A}' || c == '\U{2028}' || c == '\U{2029}'
    || c == '\U{202F}' || c == '\U{205F}' || c == '\U{3000}'
  }

  predicate Trimmed(s: string) {
    s == "" || (!IsSpace(s[0]) && !IsSpace(s[|s| - 1]))
  }

  /** strings.TrimSpace. */
  function Trim(s: string): (r: string)
    ensures Trimmed(r) && |r| <= |s|
    ensures Trimmed(s) ==> r == s
  {
    if s == "" then s
    else if IsSpace(s[0]) then Trim(s[1..])
    else if IsSpace(s[|s| - 1]) then Trim(s[..|s| - 1])
    else s
  }

  /** The part between places i and j, with nothing but white space around it. */
  ghost predicate CutTo(s: string, i: int, j: int, r: string) {
    && 0 <= i <= j <= |s| && r == s[i..j]
    && (forall k :: 0 <= k < i ==> IsSpace(s[k]))
    && forall k :: j <= k < |s| ==> IsSpace(s[k])
  }

  ghost predicate Cut(s: string, r: string) {
    exists i, j :: CutTo(s, i, j, r)
  }

  /** Trimming takes away white space at the ends, all of it and nothing else. */
  lemma TrimIs(s: string, r: string)
    ensures r == Trim(s) <==> Trimmed(r) && Cut(s, r)
  {
    hide Trim, IsSpace, Trimmed, CutTo;
    TrimCuts(s);
    var i, j :| CutTo(s, i, j, Trim(s));
    assert Trimmed(Trim(s));
    if Trimmed(r) && Cut(s, r) {
      var k, l :| CutTo(s, k, l, r);
      CutsAgree(s, i, j, Trim(s), k, l, r);
    }
  }

  lemma {:induction false} TrimCuts(s: string)
    ensures Cut(s, Trim(s))
  {
    hide IsSpace;
    if s != "" && IsSpace(s[0]) {
      TrimCuts(s[1..]);
      var k, l :| CutTo(s[1..], k, l, Trim(s[1..]));
      assert forall m :: 0 < m < |s| ==> s[m] == s[1..][m - 1];
      assert CutTo(s, k + 1, l + 1, Trim(s));
    } else if s != "" && IsSpace(s[|s| - 1]) {
      var n := |s| - 1;
      TrimCuts(s[..n]);
      var k, l :| CutTo(s[..n], k, l, Trim(s[..n]));
      assert forall m :: 0 <= m < n ==> s[m] == s[..n][m];
      assert CutTo(s, k, l, Trim(s));
    } else {
      assert CutTo(s, 0, |s|, Trim(s));
    }
  }

  /** What a cut leaves, begun and ended by no white space, lies in every other cut. */
  lemma CutInside(s: string, i: int, j: int, a: string, k: int, l: int, b: string)
    requires CutTo(s, i, j, a) && Trimmed(a) && a != "" && CutTo(s, k, l, b)
    ensures k <= i && j <= l
  {
    hide IsSpace;
    assert !IsSpace(s[i]) by {
      assert a[0] == s[i];
    }
    assert !IsSpace(s[j - 1]) by {
      assert a[|a| - 1] == s[j - 1];
    }
  }

  lemma CutsAgree(s: string, i: int, j: int, a: string, k: int, l: int, b: string)
    requires CutTo(s, i, j, a) && Trimmed(a) && CutTo(s, k, l, b) && Trimmed(b)
    ensures a == b
  {
    hide IsSpace, Trimmed;
    if a != "" {
      CutInside(s, i, j, a, k, l, b);
    }
    if b != "" {
      CutInside(s, k, l, b, i, j, a);
    }
  }
}
