// Matrix expansion: the product, exclude, include, and the numbered variants.
module Matrix {
  import opened Text
  import opened Decimal
  import opened Quoting
  import opened Cartesian

  type Entries = map<string, Scalar>

  datatype Strategy = Strategy(matrix: map<string, seq<Scalar>>, includes: seq<Entries>, excludes: seq<Entries>)

  datatype Job = Job(strategy: Strategy, groups: seq<Dimensions>, total: int, matrix: map<string, seq<Scalar>>)

  datatype Variant = Variant(index: nat, total: nat, values: Coordinates, name: string)

  // ----------------------------------------------------------------- filters

  function Kept<T>(s: seq<T>, keep: T -> bool): (r: seq<T>)
    ensures |r| <= |s|
  {
    if s == [] then []
    else
      var n := |s| - 1;
      Kept(s[..n], keep) + if keep(s[n]) then [s[n]] else []
  }

  /** Where the kept items stand. */
  function KeptPlaces<T>(s: seq<T>, keep: T -> bool): (places: seq<nat>)
    ensures |places| == |Kept(s, keep)|
    ensures forall i :: 0 <= i < |places| ==> places[i] < |s|
  {
    if s == [] then []
    else
      var n := |s| - 1;
      KeptPlaces(s[..n], keep) + if keep(s[n]) then [n] else []
  }

  /** The kept items stand in their order, each at its place. */
  lemma {:induction false} KeptInOrder<T>(s: seq<T>, keep: T -> bool, i: nat)
    requires i < |Kept(s, keep)|
    ensures var places := KeptPlaces(s, keep);
            Kept(s, keep)[i] == s[places[i]] && (i > 0 ==> places[i - 1] < places[i])
  {
    var n := |s| - 1;
    if i < |Kept(s[..n], keep)| {
      KeptInOrder(s[..n], keep, i);
    }
  }

  lemma {:induction false} KeptExactly<T>(s: seq<T>, keep: T -> bool, p: nat)
    requires p < |s|
    ensures p in KeptPlaces(s, keep) <==> keep(s[p])
  {
    var n := |s| - 1;
    if p < n {
      KeptExactly(s[..n], keep, p);
    }
  }

  lemma {:induction false} KeptGrows<T>(s: seq<T>, keep: T -> bool, n: nat)
    requires n <= |s|
    ensures |Kept(s[..n], keep)| <= |Kept(s, keep)|
    decreases |s|
  {
    if n < |s| {
      KeptGrows(s[..|s| - 1], keep, n);
      assert s[..|s| - 1][..n] == s[..n];
    } else {
      assert s[..n] == s;
    }
  }

  // ------------------------------------------------------------ object lists

  predicate AllScalar(item: Entries) {
    forall k :: k in item ==> item[k].Scalar?
  }

  predicate Scalars(items: seq<Entries>) {
    forall item :: item in items ==> AllScalar(item)
  }

  function PlainEntries(item: Entries): Coordinates {
    map k | k in item && item[k].Scalar? :: item[k].text
  }

  function PlainAll(items: seq<Entries>): (r: seq<Coordinates>)
    ensures |r| == |items|
  {
    seq(|items|, i requires 0 <= i < |items| => PlainEntries(items[i]))
  }

  method NormalizeObject(item: Entries) returns (r: Result<Coordinates>)
    ensures r == if AllScalar(item) then Ok(PlainEntries(item)) else Err(NoScalar)
  {
    var plain: Coordinates, remaining := map[], item.Keys;
    while remaining != {}
      invariant remaining <= item.Keys
      invariant forall k :: k in item && k !in remaining ==> item[k].Scalar?
      invariant plain == map k | k in item && k !in remaining && item[k].Scalar? :: item[k].text
      decreases |remaining|
    {
      var k :| k in remaining;
      if item[k].NotScalar? {
        return Err(NoScalar);
      }
      plain, remaining := plain[k := item[k].text], remaining - {k};
    }
    assert plain == PlainEntries(item);
    return Ok(plain);
  }

  method NormalizeObjectList(items: seq<Entries>) returns (r: Result<seq<Coordinates>>)
    ensures r == if Scalars(items) then Ok(PlainAll(items)) else Err(NoScalar)
  {
    hide AllScalar, PlainEntries;
    var result := [];
    for i := 0 to |items|
      invariant forall j :: 0 <= j < i ==> AllScalar(items[j])
      invariant result == PlainAll(items[..i])
    {
      var normalized := NormalizeObject(items[i]);
      if normalized.Err? {
        assert items[i] in items;
        return Err(NoScalar);
      }
      result := result + [normalized.value];
    }
    assert items[..|items|] == items;
    return Ok(result);
  }

  // ---------------------------------------------------------------- exclude

  /** A coordinate that is missing reads as the empty text. */
  function At(values: Coordinates, key: string): string {
    if key in values then values[key] else ""
  }

  predicate Matches(values: Coordinates, filter: Coordinates) {
    forall k :: k in filter ==> At(values, k) == filter[k]
  }

  method PartialMatch(values: Coordinates, filter: Coordinates) returns (r: bool)
    ensures r == Matches(values, filter)
  {
    var remaining := filter.Keys;
    while remaining != {}
      invariant remaining <= filter.Keys
      invariant forall k :: k in filter && k !in remaining ==> At(values, k) == filter[k]
      decreases |remaining|
    {
      var k :| k in remaining;
      if At(values, k) != filter[k] {
        return false;
      }
      remaining := remaining - {k};
    }
    return true;
  }

  predicate Excluded(values: Coordinates, excludes: seq<Coordinates>) {
    exists e :: e in excludes && Matches(values, e)
  }

  /** The combinations no exclude matches. */
  function Surviving(combos: seq<Coordinates>, excludes: seq<Coordinates>): seq<Coordinates> {
    Kept(combos, c => !Excluded(c, excludes))
  }

  method AnyMatch(values: Coordinates, excludes: seq<Coordinates>) returns (excluded: bool)
    ensures excluded == Excluded(values, excludes)
  {
    hide Matches;
    for j := 0 to |excludes|
      invariant forall e :: 0 <= e < j ==> !Matches(values, excludes[e])
    {
      var matched := PartialMatch(values, excludes[j]);
      if matched {
        return true;
      }
    }
    return false;
  }

  method FilterExcluded(combos: seq<Coordinates>, excludes: seq<Coordinates>) returns (filtered: seq<Coordinates>)
    ensures filtered == Surviving(combos, excludes) && |filtered| <= |combos|
  {
    hide Excluded;
    filtered := [];
    for i := 0 to |combos|
      invariant filtered == Surviving(combos[..i], excludes)
    {
      var excluded := AnyMatch(combos[i], excludes);
      assert combos[..i + 1][..i] == combos[..i];
      if !excluded {
        filtered := filtered + [combos[i]];
      }
    }
    assert combos[..|combos|] == combos;
  }

  /** An item that differs from the combination somewhere, what is missing reading as empty. */
  predicate Differs(values: Coordinates, filter: Coordinates) {
    exists k :: k in filter && filter[k] != if k in values then values[k] else ""
  }

  /** A combination stays exactly if it differs from every exclude. */
  lemma {:induction false} SurvivesExactly(combos: seq<Coordinates>, excludes: seq<Coordinates>, c: Coordinates)
    ensures c in Surviving(combos, excludes) <==> c in combos && forall e :: e in excludes ==> Differs(c, e)
  {
    if combos != [] {
      var n := |combos| - 1;
      SurvivesExactly(combos[..n], excludes, c);
      assert combos == combos[..n] + [combos[n]];
      forall e ensures Differs(combos[n], e) <==> !Matches(combos[n], e) {
      }
    }
  }

  // ---------------------------------------------------------------- include

  predicate Compatible(original: Coordinates, extra: Coordinates) {
    forall k :: k in extra && k in original ==> original[k] == extra[k]
  }

  method CompatibleInclude(original: Coordinates, extra: Coordinates) returns (r: bool)
    ensures r == Compatible(original, extra)
  {
    var remaining := extra.Keys;
    while remaining != {}
      invariant remaining <= extra.Keys
      invariant forall k :: k in extra && k !in remaining && k in original ==> original[k] == extra[k]
      decreases |remaining|
    {
      var k :| k in remaining;
      if k in original && original[k] != extra[k] {
        return false;
      }
      remaining := remaining - {k};
    }
    return true;
  }

  method OverlayOnto(values: Coordinates, extra: Coordinates) returns (r: Coordinates)
    ensures r == values + extra
  {
    r := values;
    var remaining := extra.Keys;
    while remaining != {}
      invariant remaining <= extra.Keys
      invariant r.Keys == values.Keys + (extra.Keys - remaining)
      invariant forall k :: k in r ==> r[k] == if k in extra && k !in remaining then extra[k] else values[k]
      decreases |remaining|
    {
      var k :| k in remaining;
      r, remaining := r[k := extra[k]], remaining - {k};
    }
  }

  /** An original under the includes compatible with it, in the order of the list. */
  function Overlaid(original: Coordinates, includes: seq<Coordinates>): Coordinates {
    if includes == [] then original
    else
      var n := |includes| - 1;
      var before := Overlaid(original, includes[..n]);
      if Compatible(original, includes[n]) then before + includes[n] else before
  }

  predicate Unmatched(originals: seq<Coordinates>, extra: Coordinates) {
    forall o :: o in originals ==> !Compatible(o, extra)
  }

  /** The includes no original is compatible with. */
  function Appended(originals: seq<Coordinates>, includes: seq<Coordinates>): seq<Coordinates> {
    Kept(includes, i => Unmatched(originals, i))
  }

  /** An include stands alone exactly if every original has another value under a key of it. */
  lemma {:induction false} AppendedExactly(originals: seq<Coordinates>, includes: seq<Coordinates>, x: Coordinates)
    ensures x in Appended(originals, includes) <==>
            x in includes && forall o :: o in originals ==> exists k :: k in o && k in x && o[k] != x[k]
  {
    if includes != [] {
      var n := |includes| - 1;
      AppendedExactly(originals, includes[..n], x);
      assert includes == includes[..n] + [includes[n]];
    }
  }

  function OverlaidAll(originals: seq<Coordinates>, includes: seq<Coordinates>): (r: seq<Coordinates>)
    ensures |r| == |originals|
  {
    seq(|originals|, i requires 0 <= i < |originals| => Overlaid(originals[i], includes))
  }

  function Included(originals: seq<Coordinates>, includes: seq<Coordinates>): (r: seq<Coordinates>)
    ensures |r| == |originals| + |Appended(originals, includes)|
  {
    OverlaidAll(originals, includes) + Appended(originals, includes)
  }

  /** The results are the originals in their places under their includes, and behind them the
      includes that stand alone, in their order. */
  lemma IncludedInOrder(originals: seq<Coordinates>, includes: seq<Coordinates>)
    ensures var r := Included(originals, includes); var n := |originals|;
            && (forall i :: 0 <= i < n ==> r[i] == Overlaid(originals[i], includes))
            && (forall j :: 0 <= j < |Appended(originals, includes)| ==> r[n + j] == Appended(originals, includes)[j])
  {
  }

  /** A coordinate of a result: the original's own, which no include changes, or else that of
      the last compatible include that has the key. */
  lemma {:induction false} OverlaidCoordinate(original: Coordinates, includes: seq<Coordinates>, key: string)
    ensures key in original ==>
        key in Overlaid(original, includes) && Overlaid(original, includes)[key] == original[key]
    ensures key in Overlaid(original, includes) && key !in original ==>
              exists n :: 0 <= n < |includes| && LastGiving(original, includes, key, n) &&
                  Overlaid(original, includes)[key] == includes[n][key]
    ensures (exists n :: 0 <= n < |includes| && Gives(original, includes, key, n)) ==>
        key in Overlaid(original, includes)
  {
    if includes != [] {
      var m := |includes| - 1;
      var before := includes[..m];
      OverlaidCoordinate(original, before, key);
      assert forall n :: 0 <= n < m ==> Gives(original, before, key, n) == Gives(original, includes, key, n);
      if Gives(original, includes, key, m) {
        assert LastGiving(original, includes, key, m);
      } else if key in Overlaid(original, before) && key !in original {
        var n :| 0 <= n < m && LastGiving(original, before, key, n) &&
            Overlaid(original, before)[key] == before[n][key];
        assert LastGiving(original, includes, key, n);
      }
    }
  }

  predicate Gives(original: Coordinates, includes: seq<Coordinates>, key: string, n: nat)
    requires n < |includes|
  {
    key in includes[n] && forall k :: k in includes[n] && k in original ==> includes[n][k] == original[k]
  }

  predicate LastGiving(original: Coordinates, includes: seq<Coordinates>, key: string, n: nat)
    requires n < |includes|
  {
    Gives(original, includes, key, n) && forall m :: n < m < |includes| ==> !Gives(original, includes, key, m)
  }

  /** One include laid over every compatible original; the results behind them stay. */
  method ApplyInclude(originals: seq<Coordinates>, before: seq<Coordinates>, extra: Coordinates)
    returns (results: seq<Coordinates>, applied: bool)
    requires |originals| <= |before|
    ensures |results| == |before| && results[|originals|..] == before[|originals|..]
    ensures forall i :: 0 <= i < |originals| ==>
              results[i] == if Compatible(originals[i], extra) then before[i] + extra else before[i]
    ensures applied == !Unmatched(originals, extra)
  {
    hide Compatible;
    results, applied := before, false;
    for index := 0 to |originals|
      invariant |results| == |before| && results[index..] == before[index..]
      invariant forall i :: 0 <= i < index ==>
                  results[i] == if Compatible(originals[i], extra) then before[i] + extra else before[i]
      invariant applied == exists i :: 0 <= i < index && Compatible(originals[i], extra)
    {
      assert results[index] == results[index..][0] == before[index];
      var compatible := CompatibleInclude(originals[index], extra);
      if compatible {
        var overlaid := OverlayOnto(results[index], extra);
        assert results[index..][1..] == before[index..][1..];
        results, applied := results[index := overlaid], true;
      }
      assert results[index + 1..] == before[index + 1..];
    }
  }

  method ApplyIncludes(originals: seq<Coordinates>, includes: seq<Coordinates>) returns (r: Result<seq<Coordinates>>)
    requires |originals| <= MAX_VARIANTS
    ensures r == if |Included(originals, includes)| <= MAX_VARIANTS then Ok(Included(originals, includes))
        else Err(LimitExceeded)
  {
    hide Compatible, Unmatched;
    var results := originals;
    assert results == Included(originals, []);
    for n := 0 to |includes|
      invariant results == Included(originals, includes[..n]) && |results| <= MAX_VARIANTS
    {
      var extra, applied := includes[n], false;
      ghost var before := results;
      assert includes[..n + 1][..n] == includes[..n];
      results, applied := ApplyInclude(originals, results, extra);
      assert results[..|originals|] == OverlaidAll(originals, includes[..n + 1]);
      assert results == results[..|originals|] + results[|originals|..];
      if !applied {
        results := results + [extra];
      }
      assert results == Included(originals, includes[..n + 1]);
      if |results| > MAX_VARIANTS {
        KeptGrows(includes, i => Unmatched(originals, i), n + 1);
        return Err(LimitExceeded);
      }
    }
    assert includes[..|includes|] == includes;
    return Ok(results);
  }

  // ----------------------------------------------------------------- sources

  function Listed(matrix: map<string, seq<Scalar>>): Dimensions {
    map k | k in matrix :: Many(matrix[k])
  }

  /** What the product of some dimensions may come to. */
  ghost predicate ProductOf(dims: Dimensions, r: Result<seq<Coordinates>>) {
    if dims == map[] then r == Ok([])
    else if |dims| > MAX_DIMENSIONS then r == Err(TooManyDimensions)
    else if exists k :: k in dims && Trim(k) == "" then r == Err(EmptyName)
    else exists names :: SortedNames(dims, names) && Expanded(dims, names, r)
  }

  /** The matrix and the lists of a strategy, given the product of its matrix. */
  ghost predicate Selected(s: Strategy, product: Result<seq<Coordinates>>, r: Result<seq<Coordinates>>) {
    if s.matrix == map[] then r == if Scalars(s.includes) then Ok(PlainAll(s.includes)) else Err(NoScalar)
    else if product.Err? then r == product
    else
      var originals := Surviving(product.value, PlainAll(s.excludes));
      var included := Included(originals, PlainAll(s.includes));
      r == if !Scalars(s.excludes) || !Scalars(s.includes) then Err(NoScalar)
           else if |included| > MAX_VARIANTS then Err(LimitExceeded)
           else Ok(included)
  }

  method ExpandGitHubMatrix(s: Strategy) returns (r: Result<seq<Coordinates>>)
    ensures exists product :: ProductOf(Listed(s.matrix), product) && Selected(s, product, r)
  {
    hide Scalars, Surviving, Included, PlainAll;
    if |s.matrix| == 0 {
      assert ProductOf(Listed(s.matrix), Ok([]));
      r := NormalizeObjectList(s.includes);
      return;
    }
    var product := ProductOfDimensions(Listed(s.matrix));
    if product.Err? {
      return product;
    }
    assert ProductOf(Listed(s.matrix), product);
    var excludes := NormalizeObjectList(s.excludes);
    if excludes.Err? {
      return Err(excludes.error);
    }
    var filtered := FilterExcluded(product.value, excludes.value);
    var includes := NormalizeObjectList(s.includes);
    if includes.Err? {
      return Err(includes.error);
    }
    r := ApplyIncludes(filtered, includes.value);
  }

  method ProductOfDimensions(dims: Dimensions) returns (r: Result<seq<Coordinates>>)
    ensures ProductOf(dims, r) && (r.Ok? ==> |r.value| <= MAX_VARIANTS)
  {
    hide Expanded, SortedNames;
    r := CartesianValues(dims);
    assert |dims| == 0 <==> dims == map[];
  }

  function Node(index: nat, total: nat): Coordinates {
    map["CI_NODE_INDEX" := Digits(index), "CI_NODE_TOTAL" := Digits(total)]
  }

  function Nodes(total: nat): (r: seq<Coordinates>)
    ensures |r| == total
  {
    seq(total, i requires 0 <= i < total => Node(i + 1, total))
  }

  /** The products of some groups, one behind the other. */
  ghost predicate Grouped(groups: seq<Dimensions>, products: seq<seq<Coordinates>>) {
    |products| == |groups| && forall i :: 0 <= i < |groups| ==> ProductOf(groups[i], Ok(products[i]))
  }

  function Concat(products: seq<seq<Coordinates>>): seq<Coordinates> {
    if products == [] then [] else Concat(products[..|products| - 1]) + products[|products| - 1]
  }

  /** Each product stands behind those before it, and nothing stands in front of them. */
  lemma {:induction false} ConcatInOrder(products: seq<seq<Coordinates>>, n: nat)
    requires n < |products|
    ensures Concat(products[..n]) + products[n] <= Concat(products)
  {
    var last := |products| - 1;
    if n < last {
      ConcatInOrder(products[..last], n);
      assert products[..last][..n] == products[..n];
    }
  }

  /** A group whose own product is refused, or is too many on top of those before. */
  ghost predicate RefusedAt(dims: Dimensions, before: seq<Coordinates>, e: Error) {
    ProductOf(dims, Err(e)) ||
        (e == LimitExceeded && exists p :: ProductOf(dims, Ok(p)) && |before| + |p| > MAX_VARIANTS)
  }

  ghost predicate GroupedOrRefused(groups: seq<Dimensions>, c: Result<seq<Coordinates>>) {
    match c
    case Ok(combos) => exists products :: Grouped(groups, products) && combos == Concat(products)
    case Err(e) =>
      exists n, products ::
          0 <= n < |groups| && Grouped(groups[..n], products) && RefusedAt(groups[n], Concat(products), e)
  }

  method ExpandGitLabMatrix(groups: seq<Dimensions>) returns (r: Result<seq<Coordinates>>)
    ensures GroupedOrRefused(groups, r)
    ensures r.Ok? ==> |r.value| <= MAX_VARIANTS
  {
    hide ProductOf;
    var combos: seq<Coordinates> := [];
    ghost var products: seq<seq<Coordinates>> := [];
    for n := 0 to |groups|
      invariant Grouped(groups[..n], products) && combos == Concat(products) && |combos| <= MAX_VARIANTS
    {
      var product := ProductOfDimensions(groups[n]);
      if product.Err? {
        assert RefusedAt(groups[n], combos, product.error);
        return Err(product.error);
      }
      if |combos + product.value| > MAX_VARIANTS {
        assert ProductOf(groups[n], Ok(product.value));
        assert RefusedAt(groups[n], combos, LimitExceeded);
        return Err(LimitExceeded);
      }
      assert (products + [product.value])[..n] == products;
      combos, products := combos + product.value, products + [product.value];
    }
    assert groups[..|groups|] == groups;
    return Ok(combos);
  }

  // ---------------------------------------------------------------- variants

  ghost function Joined(values: Coordinates, keys: seq<string>): string
    requires forall k :: k in keys ==> k in values
  {
    if keys == [] then ""
    else
      var n := |keys| - 1;
      (if n == 0 then "" else Joined(values, keys[..n]) + ", ") + keys[n] + "=" + values[keys[n]]
  }

  ghost function Label(values: Coordinates): string {
    KeysAre(values);
    Joined(values, SortSet(values.Keys))
  }

  lemma NothingJoined(values: Coordinates)
    ensures Joined(values, []) == ""
  {
  }

  lemma JoinedMore(values: Coordinates, keys: seq<string>, i: nat)
    requires i < |keys| && forall k :: k in keys ==> k in values
    ensures Joined(values, keys[..i + 1]) ==
            (if i == 0 then "" else Joined(values, keys[..i]) + ", ") + keys[i] + "=" + values[keys[i]]
  {
    assert keys[..i + 1][..i] == keys[..i];
  }

  method CoordinateLabel(values: Coordinates) returns (r: string)
    ensures r == Label(values)
  {
    hide SortSet, Joined, Ascending, Elements;
    var keys := SortedCoordinateKeys(values);
    KeysAre(values);
    NothingJoined(values);
    r := "";
    for i := 0 to |keys|
      invariant r == if i == 0 then "" else Joined(values, keys[..i])
    {
      JoinedMore(values, keys, i);
      r := (if i == 0 then "" else r + ", ") + keys[i] + "=" + values[keys[i]];
    }
    assert keys[..|keys|] == keys;
  }

  ghost predicate Numbered(combos: seq<Coordinates>, variants: seq<Variant>) {
    |variants| == |combos| && forall i :: 0 <= i < |combos| ==>
        variants[i] == Variant(i + 1, |combos|, combos[i], Label(combos[i]))
  }

  /** What numbering some combinations comes to: they must be there, few and pairwise distinct. */
  ghost predicate NumberedOrRefused(combos: seq<Coordinates>, r: Result<seq<Variant>>) {
    if combos == [] then r == Err(NoVariants)
    else if |combos| > MAX_VARIANTS then r == Err(LimitExceeded)
    else if !Distinct(combos) then r == Err(Duplicate)
    else r.Ok? && Numbered(combos, r.value)
  }

  method NumberVariants(h: Host, combos: seq<Coordinates>) returns (r: Result<seq<Variant>>)
    ensures NumberedOrRefused(combos, r)
  {
    hide Label, Canonical;
    if combos == [] {
      return Err(NoVariants);
    }
    if |combos| > MAX_VARIANTS {
      return Err(LimitExceeded);
    }
    var seen: set<string>, variants: seq<Variant> := {}, [];
    for i := 0 to |combos|
      invariant Distinct(combos[..i]) && |variants| == i
      invariant seen == set j | 0 <= j < i :: Canonical(h, combos[j])
      invariant forall j :: 0 <= j < i ==> variants[j] == Variant(j + 1, |combos|, combos[j], Label(combos[j]))
    {
      var canonical := CanonicalCoordinates(h, combos[i]);
      forall j | 0 <= j < i ensures Canonical(h, combos[j]) == canonical <==> combos[j] == combos[i] {
        CanonicalInjective(h, combos[j], combos[i]);
      }
      if canonical in seen {
        return Err(Duplicate);
      }
      var name := CoordinateLabel(combos[i]);
      seen, variants := seen + {canonical}, variants + [Variant(i + 1, |combos|, combos[i], name)];
    }
    assert combos[..|combos|] == combos;
    return Ok(variants);
  }

  /** The combinations a job asks for. */
  ghost predicate Combinations(job: Job, c: Result<seq<Coordinates>>) {
    if job.strategy.matrix != map[] || job.strategy.includes != [] then
      exists product :: ProductOf(Listed(job.strategy.matrix), product) && Selected(job.strategy, product, c)
    else if job.groups != [] then
      GroupedOrRefused(job.groups, c)
    else if job.total > 0 then
      c == if job.total > MAX_VARIANTS then Err(LimitExceeded) else Ok(Nodes(job.total))
    else if job.matrix != map[] then ProductOf(Listed(job.matrix), c)
    else c == Ok([map[]])
  }

  method ExpandMatrix(h: Host, job: Job) returns (r: Result<seq<Variant>>)
    ensures exists c :: Combinations(job, c) && if c.Err? then r == Err(c.error) else NumberedOrRefused(c.value, r)
  {
    hide ProductOf, Selected, GroupedOrRefused, NumberedOrRefused;
    assert |job.strategy.matrix| == 0 <==> job.strategy.matrix == map[];
    assert |job.matrix| == 0 <==> job.matrix == map[];
    var c: Result<seq<Coordinates>>;
    if |job.strategy.matrix| > 0 || |job.strategy.includes| > 0 {
      c := ExpandGitHubMatrix(job.strategy);
    } else if |job.groups| > 0 {
      c := ExpandGitLabMatrix(job.groups);
    } else if job.total > 0 {
      if job.total > MAX_VARIANTS {
        assert Combinations(job, Err(LimitExceeded));
        return Err(LimitExceeded);
      }
      c := Ok(Nodes(job.total));
    } else if |job.matrix| > 0 {
      c := ProductOfDimensions(Listed(job.matrix));
    } else {
      c := Ok([map[]]);
    }
    assert Combinations(job, c);
    if c.Err? {
      return Err(c.error);
    }
    r := NumberVariants(h, c.value);
  }

  // --------------------------------------------------------------- job keys

  /** fmt.Sprintf("[%02d]"). */
  function Suffix(index: nat): string {
    "[" + (if index < 10 then "0" else "") + Digits(index) + "]"
  }

  function JobKey(prefix: string, v: Variant): string {
    if v.total <= 1 && v.values == map[] then prefix else prefix + Suffix(v.index)
  }

  /** Every node of a parallel total is told its own number, from one on, and the total. */
  lemma NodesAreTold(total: nat, i: nat)
    requires i < total
    ensures var node := Nodes(total)[i];
            && node.Keys == {"CI_NODE_INDEX", "CI_NODE_TOTAL"}
            && (forall n: nat :: node["CI_NODE_INDEX"] == Digits(n) <==> n == i + 1)
            && (forall n: nat :: node["CI_NODE_TOTAL"] == Digits(n) <==> n == total)
  {
    forall n: nat ensures (Digits(i + 1) == Digits(n) <==> n == i + 1) && (Digits(total) == Digits(n) <==> n == total) {
      if Digits(i + 1) == Digits(n) {
        DigitsInjective(i + 1, n);
      }
      if Digits(total) == Digits(n) {
        DigitsInjective(total, n);
      }
    }
  }

  /** parallel: N is never refused within the limit: its N nodes are pairwise distinct. */
  lemma ParallelIsDistinct(total: nat)
    ensures Distinct(Nodes(total))
  {
    forall i, j | 0 <= i < j < total ensures Nodes(total)[i] != Nodes(total)[j] {
      if Digits(i + 1) == Digits(j + 1) {
        DigitsInjective(i + 1, j + 1);
      }
      assert Node(i + 1, total)["CI_NODE_INDEX"] != Node(j + 1, total)["CI_NODE_INDEX"];
    }
  }

  /** The variants of one job have pairwise distinct keys. */
  lemma VariantKeysDistinct(prefix: string, combos: seq<Coordinates>, variants: seq<Variant>, i: nat, j: nat)
    requires Numbered(combos, variants) && i < j < |variants|
    ensures JobKey(prefix, variants[i]) != JobKey(prefix, variants[j])
  {
    hide Label;
    var s, t := Suffix(i + 1), Suffix(j + 1);
    if prefix + s == prefix + t {
      assert s == (prefix + s)[|prefix|..] == (prefix + t)[|prefix|..] == t;
      SuffixInjective(i + 1, j + 1);
    }
  }

  predicate Bare(v: Variant) {
    v.total <= 1 && v.values == map[]
  }

  /** Jobs of different names share a key exactly if one stands alone under the name that the
      other, a matrix job, gives to the variant. */
  lemma KeysCollide(a: string, v: Variant, b: string, u: Variant)
    requires a != b
    ensures JobKey(a, v) == JobKey(b, u) <==>
            || (Bare(v) && !Bare(u) && a == b + Suffix(u.index))
            || (!Bare(v) && Bare(u) && b == a + Suffix(v.index))
  {
    hide Suffix;
    if !Bare(v) && !Bare(u) && a + Suffix(v.index) == b + Suffix(u.index) {
      SuffixOpensOnce(v.index);
      SuffixOpensOnce(u.index);
      LastOpening(a, Suffix(v.index), b, Suffix(u.index));
    }
  }

  lemma SuffixOpensOnce(n: nat)
    ensures var s := Suffix(n); s != "" && s[0] == '[' && forall i :: 0 < i < |s| ==> s[i] != '['
  {
    var s, d := Suffix(n), Digits(n);
    forall i | 0 < i < |s| ensures s[i] != '[' {
      if s[i] in d {
        DigitsAreNumerals(n, s[i]);
      }
    }
  }

  lemma LastOpening(a: string, s: string, b: string, t: string)
    requires s != "" && s[0] == '[' && forall i :: 0 < i < |s| ==> s[i] != '['
    requires t != "" && t[0] == '[' && forall i :: 0 < i < |t| ==> t[i] != '['
    requires a + s == b + t
    ensures a == b
  {
    OnlyOpening(a, s);
    OnlyOpening(b, t);
    assert |a| == |b|;
    assert a == (a + s)[..|a|] && b == (b + t)[..|b|];
  }

  lemma OnlyOpening(a: string, s: string)
    requires s != "" && s[0] == '[' && forall i :: 0 < i < |s| ==> s[i] != '['
    ensures (a + s)[|a|] == '[' && forall k :: |a| < k < |a + s| ==> (a + s)[k] != '['
  {
  }

  lemma SuffixInjective(a: nat, b: nat)
    requires Suffix(a) == Suffix(b)
    ensures a == b
  {
    var s, t := Suffix(a), Suffix(b);
    assert Digits(a) == s[if a < 10 then 2 else 1..|s| - 1];
    assert Digits(b) == t[if b < 10 then 2 else 1..|t| - 1];
    assert a < 10 ==> s[1] == '0';
    assert b < 10 ==> t[1] == '0';
    NoLeadingZero(a);
    NoLeadingZero(b);
    assert a >= 10 ==> s[1] == Digits(a)[0];
    assert b >= 10 ==> t[1] == Digits(b)[0];
    DigitsInjective(a, b);
  }
}
