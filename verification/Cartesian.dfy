// The bounded Cartesian product of matrix dimensions: names trimmed and sorted, values
// resolved, and combinations multiplied out one dimension at a time under a guard.
module Cartesian {
  import opened Text

  const MAX_DIMENSIONS := 8
  const MAX_VARIANTS := 64

  type Coordinates = map<string, string>

  /** A decoded value: NotScalar stands for a list or an object where text is expected. */
  datatype Scalar = Scalar(text: string) | NotScalar

  datatype Dimension = Many(items: seq<Scalar>) | One(item: Scalar)

  type Dimensions = map<string, Dimension>

  datatype Error = TooManyDimensions | EmptyName | NoScalar | NoValues | LimitExceeded | NoVariants | Duplicate

  datatype Result<T> = Ok(value: T) | Err(error: Error)

  // ------------------------------------------------------------------ names

  predicate LessEq(a: string, b: string) {
    a == b || Less(a, b)
  }

  ghost predicate Ordered(s: seq<string>) {
    forall i, j :: 0 <= i < j < |s| ==> LessEq(s[i], s[j])
  }

  function TrimAll(names: seq<string>): (r: seq<string>)
    ensures |r| == |names|
  {
    seq(|names|, i requires 0 <= i < |names| => Trim(names[i]))
  }

  /** The names of the dimensions, each trimmed, in some order. */
  ghost predicate TrimmedNames(dims: Dimensions, names: seq<string>) {
    exists order :: Enumeration(dims, order) && multiset(names) == multiset(TrimAll(order))
  }

  ghost predicate Enumeration(dims: Dimensions, order: seq<string>) {
    Distinct(order) && Elements(order) == dims.Keys
  }

  /** The dimension names as the product uses them. */
  ghost predicate SortedNames(dims: Dimensions, names: seq<string>) {
    Ordered(names) && TrimmedNames(dims, names)
  }

  /** Names without surrounding blanks are used as they are, in ascending order. */
  lemma CleanNames(dims: Dimensions, names: seq<string>)
    requires SortedNames(dims, names) && forall k :: k in dims ==> Trimmed(k)
    ensures names == SortSet(dims.Keys)
  {
    var order :| Enumeration(dims, order) && multiset(names) == multiset(TrimAll(order));
    assert TrimAll(order) == order by {
      forall i | 0 <= i < |order| ensures TrimAll(order)[i] == order[i] {
        assert order[i] in Elements(order);
      }
    }
    forall x ensures x in names <==> x in dims {
      assert x in names <==> x in multiset(names);
      assert x in order <==> x in multiset(order);
      assert x in order <==> x in Elements(order);
    }
    forall i, j | 0 <= i < j < |names| ensures Less(names[i], names[j]) {
      if names[i] == names[j] {
        DistinctCounts(order, names[i]);
        CountedTwice(names, i, j);
      }
      assert LessEq(names[i], names[j]);
    }
    AscendingIs(names);
    assert Elements(names) == dims.Keys;
    AscendingUnique(names, SortSet(dims.Keys));
  }

  /** sort.Strings. */
  method SortStrings(names: seq<string>) returns (r: seq<string>)
    ensures Ordered(r) && multiset(r) == multiset(names)
  {
    r := [];
    for n := 0 to |names|
      invariant Ordered(r) && multiset(r) == multiset(names[..n])
    {
      var i := 0;
      while i < |r| && Less(r[i], names[n])
        invariant i <= |r| && forall j :: 0 <= j < i ==> Less(r[j], names[n])
      {
        i := i + 1;
      }
      InsertOrdered(r, i, names[n]);
      assert names[..n + 1] == names[..n] + [names[n]];
      assert r == r[..i] + r[i..];
      r := r[..i] + [names[n]] + r[i..];
    }
    assert names[..|names|] == names;
  }

  lemma InsertOrdered(s: seq<string>, i: nat, x: string)
    requires Ordered(s) && i <= |s| && (forall j :: 0 <= j < i ==> Less(s[j], x))
    requires i < |s| ==> !Less(s[i], x)
    ensures Ordered(s[..i] + [x] + s[i..])
  {
    var r := s[..i] + [x] + s[i..];
    forall j | i <= j < |s| ensures LessEq(x, s[j]) {
      LessTotal(s[i], x);
      assert LessEq(s[i], s[j]) || i == j;
      if i < j && x != s[i] && s[i] != s[j] {
        LessTransitive(x, s[i], s[j]);
      }
    }
    forall a, b | 0 <= a < b < |r| ensures LessEq(r[a], r[b]) {
      var y, z := if a < i then a else a - 1, if b < i then b else b - 1;
      if a != i && b != i {
        assert r[a] == s[y] && r[b] == s[z] && y < z;
      }
    }
  }

  /** The names collected while some keys remain. */
  ghost predicate Collected(dims: Dimensions, remaining: set<string>, order: seq<string>, names: seq<string>) {
    && remaining <= dims.Keys && Distinct(order) && Elements(order) == dims.Keys - remaining
    && names == TrimAll(order) && forall k :: k in dims && k !in remaining ==> Trim(k) != ""
  }

  lemma CollectedOne(dims: Dimensions, remaining: set<string>, order: seq<string>, names: seq<string>, k: string)
    requires Collected(dims, remaining, order, names) && k in remaining && Trim(k) != ""
    ensures Collected(dims, remaining - {k}, order + [k], names + [Trim(k)])
  {
    assert k !in order by {
      assert k in order ==> k in Elements(order);
    }
    assert Elements(order + [k]) == Elements(order) + {k};
    assert dims.Keys - (remaining - {k}) == (dims.Keys - remaining) + {k};
  }

  method CollectNames(dims: Dimensions) returns (r: Result<seq<string>>)
    ensures r.Ok? <==> forall k :: k in dims ==> Trim(k) != ""
    ensures r.Err? ==> r.error == EmptyName
    ensures r.Ok? ==> TrimmedNames(dims, r.value)
  {
    var names, remaining := [], dims.Keys;
    ghost var order := [];
    assert Elements(order) == {};
    assert Collected(dims, remaining, order, names);
    hide Collected;
    while remaining != {}
      invariant Collected(dims, remaining, order, names)
      decreases |remaining|
    {
      var k :| k in remaining;
      assert k in dims by { CollectedSoFar(dims, remaining, order, names); }
      if Trim(k) == "" {
        return Err(EmptyName);
      }
      CollectedOne(dims, remaining, order, names, k);
      order, names, remaining := order + [k], names + [Trim(k)], remaining - {k};
    }
    CollectedSoFar(dims, remaining, order, names);
    return Ok(names);
  }

  lemma CollectedSoFar(dims: Dimensions, remaining: set<string>, order: seq<string>, names: seq<string>)
    requires Collected(dims, remaining, order, names)
    ensures remaining <= dims.Keys
    ensures remaining == {} ==> TrimmedNames(dims, names) && forall k :: k in dims ==> Trim(k) != ""
  {
    if remaining == {} {
      assert Enumeration(dims, order) && multiset(names) == multiset(TrimAll(order));
    }
  }

  // ----------------------------------------------------------------- values

  function Items(d: Dimension): seq<Scalar> {
    if d.Many? then d.items else [d.item]
  }

  /** The dimension found under a trimmed name; a name that was not trimmed is not found and
      then stands for one empty value. */
  function Lookup(dims: Dimensions, name: string): Dimension {
    if name in dims then dims[name] else One(Scalar(""))
  }

  predicate Usable(d: Dimension) {
    Items(d) != [] && forall x :: x in Items(d) ==> x.Scalar?
  }

  function Texts(items: seq<Scalar>): (r: seq<string>)
    ensures |r| == |items|
  {
    seq(|items|, i requires 0 <= i < |items| => if items[i].Scalar? then items[i].text else "")
  }

  function Values(dims: Dimensions, names: seq<string>): (r: seq<seq<string>>)
    ensures |r| == |names|
  {
    seq(|names|, i requires 0 <= i < |names| => Texts(Items(Lookup(dims, names[i]))))
  }

  method DimensionValues(d: Dimension) returns (r: Result<seq<string>>)
    ensures r.Ok? <==> forall x :: x in Items(d) ==> x.Scalar?
    ensures r.Ok? ==> r.value == Texts(Items(d))
    ensures r.Err? ==> r.error == NoScalar
  {
    var items, texts := Items(d), [];
    for i := 0 to |items|
      invariant forall j :: 0 <= j < i ==> items[j].Scalar?
      invariant texts == Texts(items[..i])
    {
      if items[i].NotScalar? {
        assert items[i] in Items(d);
        return Err(NoScalar);
      }
      texts := texts + [items[i].text];
    }
    assert items[..|items|] == items;
    return Ok(texts);
  }

  // ---------------------------------------------------------------- choices

  /** One value index for each dimension. */
  predicate Choice(values: seq<seq<string>>, t: seq<nat>) {
    |t| == |values| && forall i :: 0 <= i < |t| ==> t[i] < |values[i]|
  }

  /** The coordinates of a choice; of equal names the later one counts. */
  function Pick(names: seq<string>, values: seq<seq<string>>, t: seq<nat>): Coordinates
    requires |names| == |values| && Choice(values, t)
  {
    if names == [] then map[]
    else
      var n := |names| - 1;
      Pick(names[..n], values[..n], t[..n])[names[n] := values[n][t[n]]]
  }

  /** With distinct names a choice has exactly the chosen value under every name. */
  lemma {:induction false} PickedCoordinates(names: seq<string>, values: seq<seq<string>>, t: seq<nat>)
    requires |names| == |values| && Choice(values, t) && Distinct(names)
    ensures Pick(names, values, t).Keys == Elements(names)
    ensures forall i :: 0 <= i < |names| ==>
        names[i] in Pick(names, values, t) && Pick(names, values, t)[names[i]] == values[i][t[i]]
  {
    if names != [] {
      var n := |names| - 1;
      PickedCoordinates(names[..n], values[..n], t[..n]);
      assert Elements(names) == Elements(names[..n]) + {names[n]};
    }
  }

  function Product(values: seq<seq<string>>): nat {
    if values == [] then 1 else Product(values[..|values| - 1]) * |values[|values| - 1]|
  }

  /** The place of a choice when the last dimension varies fastest. */
  function Rank(values: seq<seq<string>>, t: seq<nat>): nat
    requires Choice(values, t)
  {
    if values == [] then 0
    else
      var n := |values| - 1;
      Rank(values[..n], t[..n]) * |values[n]| + t[n]
  }

  lemma Scaled(a: nat, b: nat, m: nat, x: nat)
    requires a < b && x < m
    ensures a * m + x < b * m
  {
    assert a * m + m == (a + 1) * m <= b * m;
  }

  lemma {:induction false} RankInRange(values: seq<seq<string>>, t: seq<nat>)
    requires Choice(values, t)
    ensures Rank(values, t) < Product(values)
  {
    if values != [] {
      var n := |values| - 1;
      RankInRange(values[..n], t[..n]);
      Scaled(Rank(values[..n], t[..n]), Product(values[..n]), |values[n]|, t[n]);
    }
  }

  predicate Before(t: seq<nat>, u: seq<nat>)
    requires |t| == |u|
  {
    t != [] && (t[0] < u[0] || (t[0] == u[0] && Before(t[1..], u[1..])))
  }

  lemma {:induction false} BeforeByPrefix(t: seq<nat>, u: seq<nat>)
    requires |t| == |u| > 0
    ensures var n := |t| - 1; Before(t, u) <==> Before(t[..n], u[..n]) || (t[..n] == u[..n] && t[n] < u[n])
  {
    var n := |t| - 1;
    if n > 0 {
      BeforeByPrefix(t[1..], u[1..]);
      assert t[1..][..n - 1] == t[..n][1..] && u[1..][..n - 1] == u[..n][1..];
      assert t[..n] == [t[0]] + t[..n][1..] && u[..n] == [u[0]] + u[..n][1..];
    }
  }

  /** Choices are ranked in lexicographic order, so no two share a rank. */
  lemma {:induction false} RankIsLexicographic(values: seq<seq<string>>, t: seq<nat>, u: seq<nat>)
    requires Choice(values, t) && Choice(values, u)
    ensures Before(t, u) ==> Rank(values, t) < Rank(values, u)
  {
    if values != [] && Before(t, u) {
      var n := |values| - 1;
      BeforeByPrefix(t, u);
      RankIsLexicographic(values[..n], t[..n], u[..n]);
      if Before(t[..n], u[..n]) {
        Scaled(Rank(values[..n], t[..n]), Rank(values[..n], u[..n]), |values[n]|, t[n]);
      }
    }
  }

  lemma {:induction false} BeforeTotal(t: seq<nat>, u: seq<nat>)
    requires |t| == |u|
    ensures t == u || Before(t, u) || Before(u, t)
  {
    if t != [] && t[0] == u[0] {
      BeforeTotal(t[1..], u[1..]);
      if t[1..] == u[1..] {
        assert t == [t[0]] + t[1..] && u == [u[0]] + u[1..];
      }
    }
  }

  lemma RankInjective(values: seq<seq<string>>, t: seq<nat>, u: seq<nat>)
    requires Choice(values, t) && Choice(values, u) && Rank(values, t) == Rank(values, u)
    ensures t == u
  {
    BeforeTotal(t, u);
    RankIsLexicographic(values, t, u);
    RankIsLexicographic(values, u, t);
  }

  lemma {:induction false} RankOnto(values: seq<seq<string>>, r: nat) returns (t: seq<nat>)
    requires r < Product(values)
    ensures Choice(values, t) && Rank(values, t) == r
  {
    if values == [] {
      t := [];
    } else {
      var n := |values| - 1;
      var m := |values[n]|;
      DividedBelow(r, Product(values[..n]), m);
      var prefix := RankOnto(values[..n], r / m);
      t := prefix + [r % m];
      assert t[..n] == prefix;
      assert Rank(values, t) == (r / m) * m + r % m;
    }
  }

  ghost predicate RankedAt(values: seq<seq<string>>, t: seq<nat>, r: nat) {
    Choice(values, t) && Rank(values, t) == r
  }

  ghost predicate HasChoice(values: seq<seq<string>>, r: nat) {
    exists t :: RankedAt(values, t, r)
  }

  /** Each of the first n places is the rank of one choice, and of no other. */
  ghost predicate EachOnce(values: seq<seq<string>>, n: nat) {
    && (forall r: nat :: r < n ==> HasChoice(values, r))
    && (forall r: nat, t, u :: RankedAt(values, t, r) && RankedAt(values, u, r) ==> t == u)
  }

  lemma RanksAreOnce(values: seq<seq<string>>)
    ensures EachOnce(values, Product(values))
  {
    hide Choice, Rank, Product;
    forall r: nat | r < Product(values) ensures HasChoice(values, r) {
      var t := RankOnto(values, r);
      assert RankedAt(values, t, r);
    }
    forall r: nat, t, u | RankedAt(values, t, r) && RankedAt(values, u, r) ensures t == u {
      RankInjective(values, t, u);
    }
  }

  lemma Multiplied(a: nat, b: nat, m: nat)
    ensures a <= b ==> a * m <= b * m
  {
  }

  lemma DividedBelow(r: nat, p: nat, m: nat)
    requires r < p * m
    ensures m > 0 && r / m < p && (r / m) * m + r % m == r
  {
    assert m != 0;
    assert r / m >= p ==> (r / m) * m >= p * m by { Multiplied(p, r / m, m); }
  }

  // ------------------------------------------------------------- the product

  /** Every choice, each at its rank. */
  ghost predicate Enumerates(names: seq<string>, values: seq<seq<string>>, combos: seq<Coordinates>) {
    && |names| == |values| && |combos| == Product(values)
    && forall t :: Choice(values, t) ==> PickedAt(names, values, combos, t)
  }

  ghost predicate PickedAt(names: seq<string>, values: seq<seq<string>>, combos: seq<Coordinates>, t: seq<nat>)
    requires |names| == |values| && Choice(values, t)
  {
    var r := Rank(values, t);
    r < |combos| && combos[r] == Pick(names, values, t)
  }

  function Row(combo: Coordinates, key: string, values: seq<string>): (r: seq<Coordinates>)
    ensures |r| == |values|
  {
    seq(|values|, i requires 0 <= i < |values| => combo[key := values[i]])
  }

  function Cross(combos: seq<Coordinates>, key: string, values: seq<string>): (r: seq<Coordinates>)
    ensures |r| == |combos| * |values|
  {
    if combos == [] then []
    else
      var n := |combos| - 1;
      Cross(combos[..n], key, values) + Row(combos[n], key, values)
  }

  lemma {:induction false} CrossAt(combos: seq<Coordinates>, key: string, values: seq<string>, a: nat, b: nat)
    requires a < |combos| && b < |values|
    ensures a * |values| + b < |combos| * |values|
    ensures Cross(combos, key, values)[a * |values| + b] == combos[a][key := values[b]]
  {
    var n := |combos| - 1;
    Scaled(a, |combos|, |values|, b);
    if a < n {
      Scaled(a, n, |values|, b);
      CrossAt(combos[..n], key, values, a, b);
    }
  }

  lemma CrossEnumerates(names: seq<string>, values: seq<seq<string>>, combos: seq<Coordinates>, key: string,
      more: seq<string>)
    requires Enumerates(names, values, combos)
    ensures Enumerates(names + [key], values + [more], Cross(combos, key, more))
  {
    var n := |names|;
    var names', values', combos' := names + [key], values + [more], Cross(combos, key, more);
    assert names'[..n] == names && values'[..n] == values;
    forall t | Choice(values', t) ensures PickedAt(names', values', combos', t) {
      assert Choice(values, t[..n]);
      assert PickedAt(names, values, combos, t[..n]);
      CrossAt(combos, key, more, Rank(values, t[..n]), t[n]);
    }
  }

  lemma {:induction false} ProductGrows(values: seq<seq<string>>, n: nat)
    requires n <= |values| && forall i :: 0 <= i < |values| ==> values[i] != []
    ensures 1 <= Product(values[..n]) <= Product(values)
    decreases |values|
  {
    if n < |values| {
      var m := |values| - 1;
      ProductGrows(values[..m], n);
      assert values[..m][..n] == values[..n];
      assert Product(values[..m]) * |values[m]| >= Product(values[..m]) * 1;
    } else {
      assert values[..n] == values;
      if n > 0 {
        ProductGrows(values[..n - 1], n - 1);
        assert values[..n - 1][..n - 1] == values[..n - 1];
        assert Product(values[..n - 1]) * |values[n - 1]| >= 1 * 1;
      }
    }
  }

  /** The guard that divides instead of multiplying. */
  lemma GuardIsExact(count: nat, more: nat)
    requires more > 0
    ensures count > MAX_VARIANTS / more <==> count * more > MAX_VARIANTS
  {
    var q := MAX_VARIANTS / more;
    assert q * more <= MAX_VARIANTS < (q + 1) * more;
    if count > q {
      assert count * more >= (q + 1) * more;
    } else {
      assert count * more <= q * more;
    }
  }

  /** Every dimension has values and all of them are scalars. */
  predicate AllUsable(dims: Dimensions, names: seq<string>) {
    forall k :: k in names ==> Usable(Lookup(dims, k))
  }

  /** What the expansion of non-empty dimensions comes to, for its names in sorted order. */
  ghost predicate Expanded(dims: Dimensions, names: seq<string>, r: Result<seq<Coordinates>>) {
    && (r.Ok? <==> AllUsable(dims, names) && Product(Values(dims, names)) <= MAX_VARIANTS)
    && (r.Ok? ==> Enumerates(names, Values(dims, names), r.value) && EachOnce(Values(dims, names), |r.value|))
    && (r.Err? && AllUsable(dims, names) ==> r.error == LimitExceeded)
  }

  method CartesianValues(dims: Dimensions) returns (r: Result<seq<Coordinates>>)
    ensures |dims| == 0 ==> r == Ok([])
    ensures |dims| > MAX_DIMENSIONS ==> r == Err(TooManyDimensions)
    ensures 0 < |dims| <= MAX_DIMENSIONS && (exists k :: k in dims && Trim(k) == "") ==> r == Err(EmptyName)
    ensures 0 < |dims| <= MAX_DIMENSIONS && (forall k :: k in dims ==> Trim(k) != "") ==>
              exists names :: SortedNames(dims, names) && Expanded(dims, names, r)
    ensures r.Ok? ==> |r.value| <= MAX_VARIANTS
  {
    if |dims| == 0 {
      return Ok([]);
    }
    if |dims| > MAX_DIMENSIONS {
      return Err(TooManyDimensions);
    }
    var collected := CollectNames(dims);
    if collected.Err? {
      return Err(collected.error);
    }
    var names := SortStrings(collected.value);
    assert SortedNames(dims, names);
    r := Multiply(dims, names);
  }

  method Multiply(dims: Dimensions, names: seq<string>) returns (r: Result<seq<Coordinates>>)
    ensures Expanded(dims, names, r) && (r.Ok? ==> |r.value| <= MAX_VARIANTS)
  {
    hide Product, Usable, Enumerates, EachOnce;
    var combos: seq<Coordinates> := [map[]];
    assert Enumerates([], [], combos) by { EmptyEnumerates(); }
    for i := 0 to |names|
      invariant AllUsable(dims, names[..i])
      invariant Enumerates(names[..i], Values(dims, names[..i]), combos) && |combos| <= MAX_VARIANTS
    {
      var name := names[i];
      var resolved := DimensionValues(Lookup(dims, name));
      if resolved.Err? || resolved.value == [] {
        UnusableStops(dims, names, name);
        return Err(if resolved.Err? then resolved.error else NoValues);
      }
      var values := resolved.value;
      assert Usable(Lookup(dims, name)) by { UsableOnes(Lookup(dims, name), values); }
      var prefix := Values(dims, names[..i]);
      assert names[..i + 1] == names[..i] + [name] && Values(dims, names[..i + 1]) == prefix + [values];
      CrossEnumerates(names[..i], prefix, combos, name, values);
      EnumeratedSize(names[..i], prefix, combos);
      GuardIsExact(|combos|, |values|);
      if |combos| > MAX_VARIANTS / |values| {
        TooMany(dims, names, i + 1, prefix, values);
        return Err(LimitExceeded);
      }
      combos := MultiplyOut(combos, name, values);
    }
    assert names[..|names|] == names;
    EnumeratedSize(names, Values(dims, names), combos);
    RanksAreOnce(Values(dims, names));
    return Ok(combos);
  }

  lemma EmptyEnumerates()
    ensures Enumerates([], [], [map[]])
  {
    forall t | Choice([], t) ensures PickedAt([], [], [map[]], t) {
      assert t == [];
    }
  }

  lemma EnumeratedSize(names: seq<string>, values: seq<seq<string>>, combos: seq<Coordinates>)
    requires Enumerates(names, values, combos)
    ensures |combos| == Product(values)
  {
  }

  lemma UsableOnes(d: Dimension, values: seq<string>)
    requires values == Texts(Items(d)) && values != [] && forall x :: x in Items(d) ==> x.Scalar?
    ensures Usable(d)
  {
  }

  lemma UnusableStops(dims: Dimensions, names: seq<string>, name: string)
    requires name in names &&
        !((forall x :: x in Items(Lookup(dims, name)) ==> x.Scalar?) && Texts(Items(Lookup(dims, name))) != [])
    ensures !AllUsable(dims, names)
  {
    assert !Usable(Lookup(dims, name));
  }

  lemma TooMany(dims: Dimensions, names: seq<string>, n: nat, prefix: seq<seq<string>>, more: seq<string>)
    requires n <= |names| && Values(dims, names[..n]) == prefix + [more] && Product(prefix) * |more| > MAX_VARIANTS
    ensures AllUsable(dims, names) ==> Product(Values(dims, names)) > MAX_VARIANTS
  {
    if AllUsable(dims, names) {
      var values := Values(dims, names);
      forall i | 0 <= i < |values| ensures values[i] != [] {
        assert Usable(Lookup(dims, names[i]));
      }
      ProductGrows(values, n);
      assert values[..n] == prefix + [more];
      assert (prefix + [more])[..|prefix|] == prefix;
    }
  }

  method MultiplyOut(combos: seq<Coordinates>, key: string, values: seq<string>) returns (next: seq<Coordinates>)
    ensures next == Cross(combos, key, values)
  {
    next := [];
    for i := 0 to |combos|
      invariant next == Cross(combos[..i], key, values)
    {
      ghost var before := next;
      for j := 0 to |values|
        invariant next == before + Row(combos[i], key, values[..j])
      {
        next := next + [combos[i][key := values[j]]];
      }
      assert values[..|values|] == values;
      assert combos[..i + 1][..i] == combos[..i];
    }
    assert combos[..|combos|] == combos;
  }
}
