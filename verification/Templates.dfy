// Templates with ${{ name }} openings: the single pass of the matrix code and the loop of the
// concurrency code, which scans its own output again.
module Templates {
  import opened Text
  import opened Search

  type Context = map<string, string>

  datatype Result = Ok(text: string) | Unclosed | Unavailable(name: string)

  const OPEN := "${{"
  const CLOSE := "}}"

  /** An opening cut out of a template: the text before it, its name, and the text behind it. */
  datatype Cut = Nothing | Broken | Piece(before: string, name: string, behind: string)

  function CutFirst(value: string): (c: Cut)
    ensures c.Piece? ==> |c.behind| < |value|
  {
    var start := IndexOf(value, OPEN);
    if start < 0 then Nothing
    else
      assert OPEN <= value[start..];
      var inner := value[start + 3..];
      var end := IndexOf(inner, CLOSE);
      if end < 0 then Broken
      else
        assert CLOSE <= inner[end..];
        Piece(value[..start], Trim(inner[..end]), inner[end + 2..])
  }

  // --------------------------------------------------------- the single pass

  /** lookupString: the name itself, then its lower case form. */
  function Lookup(lower: string -> string, context: Context, name: string): Result {
    if name in context then Ok(context[name])
    else if lower(name) in context then Ok(context[lower(name)])
    else Unavailable(name)
  }

  function Prefixed(before: string, r: Result): Result {
    if r.Ok? then Ok(before + r.text) else r
  }

  function Resolve(lower: string -> string, context: Context, value: string): Result
    decreases |value|
  {
    match CutFirst(value)
    case Nothing => Ok(value)
    case Broken => Unclosed
    case Piece(before, name, behind) =>
      var replacement := Lookup(lower, context, name);
      if replacement.Ok? then Prefixed(before + replacement.text, Resolve(lower, context, behind)) else replacement
  }

  lemma ResolveCut(lower: string -> string, context: Context, value: string)
    ensures var c := CutFirst(value);
            Resolve(lower, context, value) ==
            if c.Nothing? then Ok(value)
            else if c.Broken? then Unclosed
            else if !Lookup(lower, context, c.name).Ok? then Lookup(lower, context, c.name)
            else Prefixed(c.before + Lookup(lower, context, c.name).text, Resolve(lower, context, c.behind))
  {
    hide CutFirst, Lookup;
  }

  method ResolveStaticTemplate(lower: string -> string, context: Context, value: string) returns (r: Result)
    ensures r == Resolve(lower, context, value)
  {
    hide CutFirst, Lookup, Resolve;
    var output, rest := "", value;
    assert Resolve(lower, context, value).Ok? ==>
        "" + Resolve(lower, context, value).text == Resolve(lower, context, value).text;
    while true
      invariant Prefixed(output, Resolve(lower, context, rest)) == Resolve(lower, context, value)
      decreases |rest|
    {
      ResolveCut(lower, context, rest);
      match CutFirst(rest)
      case Nothing => return Ok(output + rest);
      case Broken => return Unclosed;
      case Piece(before, name, behind) =>
        var replacement := Lookup(lower, context, name);
        if !replacement.Ok? {
          return replacement;
        }
        Regrouped(output, before, replacement.text, Resolve(lower, context, behind));
        output, rest := output + before + replacement.text, behind;
    }
  }

  lemma PrefixedTwice(a: string, b: string, r: Result)
    ensures Prefixed(a, Prefixed(b, r)) == Prefixed(a + b, r)
  {
    if r.Ok? {
      assert a + (b + r.text) == a + b + r.text;
    }
  }

  // --------------------------------------------------------------- rescanning

  /** The text in front of the first opening; all of it if there is none. */
  function Before(value: string): (r: string)
    ensures r <= value
  {
    var start := IndexOf(value, OPEN);
    if start < 0 then value else value[..start]
  }

  /** A loop that has not ended, or the text in front of the opening it ended at, and its result. */
  datatype Rounds = Unfinished | Finished(before: string, result: Result)

  /** The template loop of resolveConcurrencyGroup, cut off after some rounds: every round
      looks at the whole text again, names are looked up as they are. */
  function Rescan(context: Context, group: string, rounds: nat): Rounds
    decreases rounds
  {
    if rounds == 0 then Unfinished
    else
      match CutFirst(group)
      case Nothing => Finished(group, Ok(group))
      case Broken => Finished(Before(group), Unclosed)
      case Piece(before, name, behind) =>
        if name in context then Rescan(context, before + context[name] + behind, rounds - 1)
        else Finished(before, Unavailable(name))
  }

  /** What the single pass has written when it ends. */
  function Written(lower: string -> string, context: Context, value: string): string
    decreases |value|
  {
    match CutFirst(value)
    case Nothing => value
    case Broken => Before(value)
    case Piece(before, name, behind) =>
      var replacement := Lookup(lower, context, name);
      if replacement.Ok? then before + replacement.text + Written(lower, context, behind) else before
  }

  /** No name the single pass comes to needs its lower case form. */
  predicate AsWritten(lower: string -> string, context: Context, value: string)
    decreases |value|
  {
    match CutFirst(value)
    case Piece(_, name, behind) =>
      if name in context then AsWritten(lower, context, behind) else lower(name) !in context
    case _ => true
  }

  /** The openings the single pass replaces before a name is not there as written. */
  function Openings(context: Context, value: string): nat
    decreases |value|
  {
    match CutFirst(value)
    case Piece(_, name, behind) => if name in context then 1 + Openings(context, behind) else 0
    case _ => 0
  }

  ghost predicate NoOpening(s: string) {
    forall i :: 0 <= i <= |s| ==> !OccursAt(s, OPEN, i)
  }

  lemma OpenAt(s: string, i: nat)
    ensures OccursAt(s, OPEN, i) <==> i + 3 <= |s| && s[i] == '$' && s[i + 1] == '{' && s[i + 2] == '{'
  {
    if i + 3 <= |s| {
      assert s[i..][0] == s[i] && s[i..][1] == s[i + 1] && s[i..][2] == s[i + 2];
    }
  }

  lemma NoOpeningInFront(a: string, b: string)
    requires NoOpening(a + b)
    ensures NoOpening(a)
  {
    forall i | 0 <= i <= |a| ensures !OccursAt(a, OPEN, i) {
      OpenAt(a, i);
      OpenAt(a + b, i);
    }
  }

  /** The text in front of the first opening has none. */
  lemma NothingBefore(value: string)
    ensures NoOpening(Before(value))
  {
    hide IndexOf;
    forall i | 0 <= i <= |Before(value)| ensures !OccursAt(Before(value), OPEN, i) {
      OpenAt(Before(value), i);
      OpenAt(value, i);
    }
  }

  /** Behind text without an opening the first opening is the first of the rest, if nothing
      in front of it makes one: no opening overlaps another. */
  lemma IndexBehindPlain(plain: string, rest: string)
    requires NoOpening(plain + Before(rest))
    ensures IndexOf(plain + rest, OPEN) == if IndexOf(rest, OPEN) < 0 then -1 else |plain| + IndexOf(rest, OPEN)
  {
    hide OccursAt, IndexOf, Before, NoOpening;
    var all, r, front := plain + rest, IndexOf(rest, OPEN), plain + Before(rest);
    FrontOf(plain, rest);
    if r < 0 {
      NothingIn(all);
      NoPlace(all, OPEN);
    } else {
      OpenBehind(plain, rest, r);
      forall i | 0 <= i < |plain| + r ensures !OccursAt(all, OPEN, i) {
        PlainStarts(front, all, i);
      }
      FirstPlace(all, OPEN, |plain| + r);
    }
  }

  lemma FrontOf(plain: string, rest: string)
    ensures plain + Before(rest) <= plain + rest
    ensures var r := IndexOf(rest, OPEN);
            if r < 0 then Before(rest) == rest else |Before(rest)| == r && OccursAt(rest, OPEN, r)
  {
    hide OccursAt, IndexOf;
  }

  lemma NothingIn(s: string)
    requires NoOpening(s)
    ensures forall i :: 0 <= i <= |s| ==> !OccursAt(s, OPEN, i)
  {
  }

  lemma OpenBehind(done: string, rest: string, i: nat)
    ensures OccursAt(done + rest, OPEN, |done| + i) <==> OccursAt(rest, OPEN, i)
  {
    OpenAt(done + rest, |done| + i);
    OpenAt(rest, i);
  }

  lemma PlainStarts(front: string, all: string, i: nat)
    requires NoOpening(front) && front <= all && OccursAt(all, OPEN, |front|) && i < |front|
    ensures !OccursAt(all, OPEN, i)
  {
    OpenAt(all, i);
    OpenAt(all, |front|);
    OpenAt(front, i);
  }

  function CutInner(before: string, inner: string): Cut {
    var end := IndexOf(inner, CLOSE);
    if end < 0 || end + 2 > |inner| then Broken else Piece(before, Trim(inner[..end]), inner[end + 2..])
  }

  lemma CutAt(value: string)
    ensures var start := IndexOf(value, OPEN);
            if start < 0 then CutFirst(value) == Nothing && Before(value) == value
            else
              && start + 3 <= |value| && Before(value) == value[..start]
              && CutFirst(value) == CutInner(value[..start], value[start + 3..])
  {
    hide Trim, IndexOf, OccursAt;
    var start := IndexOf(value, OPEN);
    if start >= 0 {
      OpenAt(value, start);
      CloseFits(value[start + 3..]);
    }
  }

  lemma CloseFits(inner: string)
    ensures IndexOf(inner, CLOSE) >= 0 ==> IndexOf(inner, CLOSE) + 2 <= |inner|
  {
    hide IndexOf;
    var end := IndexOf(inner, CLOSE);
    if end >= 0 {
      assert CLOSE <= inner[end..];
    }
  }

  lemma InnerShifts(done: string, before: string, inner: string)
    ensures var c := CutInner(before, inner);
            && !c.Nothing? && (c.Piece? ==> c.before == before)
            && CutInner(done + before, inner) == if c.Piece? then Piece(done + before, c.name, c.behind) else c
  {
    hide Trim, IndexOf;
  }

  lemma ShiftedSlices(done: string, rest: string, lo: nat, hi: nat)
    requires lo <= hi <= |rest|
    ensures (done + rest)[..|done| + lo] == done + rest[..lo] && (done + rest)[|done| + hi..] == rest[hi..]
  {
  }

  lemma CutBefore(value: string)
    ensures CutFirst(value).Piece? ==> CutFirst(value).before == Before(value)
    ensures CutFirst(value).Nothing? ==> Before(value) == value
  {
  }

  /** What a round finds behind plain text is what the single pass finds. */
  lemma CutBehindPlain(plain: string, rest: string)
    requires NoOpening(plain + Before(rest))
    ensures var c := CutFirst(rest);
            CutFirst(plain + rest) == if c.Piece? then Piece(plain + c.before, c.name, c.behind) else c
    ensures Before(plain + rest) == plain + Before(rest)
  {
    hide CutFirst, CutInner, Trim, IndexOf, NoOpening, Before;
    IndexBehindPlain(plain, rest);
    CutAt(rest);
    CutAt(plain + rest);
    var start := IndexOf(rest, OPEN);
    if start >= 0 {
      ShiftedSlices(plain, rest, start, start + 3);
      InnerShifts(plain, rest[..start], rest[start + 3..]);
    }
  }

  lemma RescanOnce(context: Context, group: string, rounds: nat)
    requires rounds > 0
    ensures var c := CutFirst(group);
            Rescan(context, group, rounds) ==
            if c.Nothing? then Finished(Before(group), Ok(group))
            else if c.Broken? then Finished(Before(group), Unclosed)
            else if c.name in context then Rescan(context, c.before + context[c.name] + c.behind, rounds - 1)
            else Finished(Before(group), Unavailable(c.name))
  {
    hide CutFirst, Before;
    CutBefore(group);
  }

  /** One step of the single pass, with what it has written. */
  lemma WrittenOnce(lower: string -> string, context: Context, value: string)
    ensures var c := CutFirst(value);
            if c.Piece? && Lookup(lower, context, c.name).Ok? then
              var text := Lookup(lower, context, c.name).text;
              && Written(lower, context, value) == Before(value) + text + Written(lower, context, c.behind)
              && Resolve(lower, context, value) == Prefixed(Before(value) + text, Resolve(lower, context, c.behind))
            else
              && Written(lower, context, value) == Before(value)
              && Resolve(lower, context, value) ==
                 if c.Nothing? then Ok(value) else if c.Broken? then Unclosed else Unavailable(c.name)
  {
    hide CutFirst, Before;
    CutBefore(value);
  }

  lemma AsWrittenOnce(lower: string -> string, context: Context, value: string)
    ensures var c := CutFirst(value);
            AsWritten(lower, context, value) ==
            (c.Piece? ==> if c.name in context then AsWritten(lower, context, c.behind) else lower(c.name) !in context)
    ensures var c := CutFirst(value);
            Openings(context, value) ==
            if c.Piece? && c.name in context then 1 + Openings(context, c.behind) else 0
  {
    hide CutFirst;
  }

  /** A successful single pass has written its result. */
  lemma {:induction false} OkIsWritten(lower: string -> string, context: Context, value: string)
    requires Resolve(lower, context, value).Ok?
    ensures Written(lower, context, value) == Resolve(lower, context, value).text
    decreases |value|
  {
    hide CutFirst, Lookup, Before;
    CutBefore(value);
    var c := CutFirst(value);
    if c.Piece? {
      OkIsWritten(lower, context, c.behind);
    }
  }

  /** Where rescanning ends there is no opening in front, and a success is all text in front. */
  lemma {:induction false} EndsAtFirstOpening(context: Context, group: string, rounds: nat)
    requires Rescan(context, group, rounds).Finished?
    ensures var f := Rescan(context, group, rounds);
            NoOpening(f.before) && (f.result.Ok? ==> f.result.text == f.before)
    decreases rounds
  {
    hide CutFirst, Before, NoOpening;
    RescanOnce(context, group, rounds);
    NothingBefore(group);
    CutBefore(group);
    var c := CutFirst(group);
    if c.Piece? && c.name in context {
      EndsAtFirstOpening(context, c.before + context[c.name] + c.behind, rounds - 1);
    }
  }

  /** Once finished, further rounds change nothing. */
  lemma {:induction false} RescanSettles(context: Context, group: string, rounds: nat, more: nat)
    requires Rescan(context, group, rounds).Finished?
    ensures Rescan(context, group, rounds + more) == Rescan(context, group, rounds)
    decreases rounds
  {
    hide CutFirst, Before;
    RescanOnce(context, group, rounds);
    RescanOnce(context, group, rounds + more);
    var c := CutFirst(group);
    if c.Piece? && c.name in context {
      RescanSettles(context, c.before + context[c.name] + c.behind, rounds - 1, more);
    }
  }

  lemma OneEnd(context: Context, group: string, m: nat, n: nat)
    requires Rescan(context, group, m).Finished? && Rescan(context, group, n).Finished?
    ensures Rescan(context, group, m) == Rescan(context, group, n)
  {
    hide Rescan;
    if m <= n {
      RescanSettles(context, group, m, n - m);
    } else {
      RescanSettles(context, group, n, m - n);
    }
  }

  lemma Regrouped(done: string, before: string, value: string, r: Result)
    ensures Prefixed(done + before + value, r) == Prefixed(done, Prefixed(before + value, r))
  {
    PrefixedTwice(done, before + value, r);
    assert done + before + value == done + (before + value);
  }

  lemma PrefixedPlain(done: string, rest: string)
    ensures Prefixed(done, Ok(rest)) == Ok(done + rest)
    ensures Prefixed(done, Unclosed) == Unclosed
    ensures forall name :: Prefixed(done, Unavailable(name)) == Unavailable(name)
  {
  }

  lemma RegroupedTexts(done: string, before: string, value: string, after: string)
    ensures done + (before + value + after) == (done + before + value) + after
    ensures done + (before + value + after) == (done + before) + (value + after)
  {
  }

  /** One round behind plain text is one step of the single pass. */
  lemma RoundIsStep(lower: string -> string, context: Context, done: string, rest: string, rounds: nat)
    returns (next: string)
    requires NoOpening(done + Written(lower, context, rest)) && rounds > 0
    ensures var c := CutFirst(rest);
            if c.Piece? && c.name in context then
              && next == done + Before(rest) + context[c.name] && NoOpening(next + Written(lower, context, c.behind))
              && Rescan(context, done + rest, rounds) == Rescan(context, next + c.behind, rounds - 1)
              && next + Written(lower, context, c.behind) == done + Written(lower, context, rest)
              && Prefixed(next, Resolve(lower, context, c.behind)) == Prefixed(done, Resolve(lower, context, rest))
            else
              && Rescan(context, done + rest, rounds).Finished?
              && Rescan(context, done + rest, rounds).before == done + Before(rest)
              && Rescan(context, done + rest, rounds).result ==
                 if c.Nothing? then Ok(done + rest) else if c.Broken? then Unclosed else Unavailable(c.name)
  {
    hide CutFirst, NoOpening, Rescan, Resolve, Written, Prefixed, Before;
    WrittenOnce(lower, context, rest);
    var c, front := CutFirst(rest), Before(rest);
    CutBefore(rest);
    next := done;
    if c.Piece? && Lookup(lower, context, c.name).Ok? {
      var value, after := Lookup(lower, context, c.name).text, Written(lower, context, c.behind);
      RegroupedTexts(done, front, value, after);
      NoOpeningInFront(done + front, value + after);
      Regrouped(done, front, value, Resolve(lower, context, c.behind));
      next := done + front + value;
    }
    CutBehindPlain(done, rest);
    RescanOnce(context, done + rest, rounds);
  }

  /** As long as no opening is ever written, rescanning is the single pass: it needs one round
      more than there are openings. */
  lemma {:induction false} RescanBehind(lower: string -> string, context: Context, done: string, rest: string,
      rounds: nat)
    requires AsWritten(lower, context, rest) && rounds > Openings(context, rest)
    requires NoOpening(done + Written(lower, context, rest))
    ensures Rescan(context, done + rest, rounds) ==
            Finished(done + Written(lower, context, rest), Prefixed(done, Resolve(lower, context, rest)))
    decreases |rest|
  {
    hide CutFirst, NoOpening, Rescan, Resolve, Written, Prefixed, Before, AsWritten, Openings;
    AsWrittenOnce(lower, context, rest);
    WrittenOnce(lower, context, rest);
    PrefixedPlain(done, rest);
    var next := RoundIsStep(lower, context, done, rest, rounds);
    var c := CutFirst(rest);
    if c.Piece? && c.name in context {
      RescanBehind(lower, context, next, c.behind, rounds - 1);
    }
  }

  /** A name that needs its lower case form ends the loop, and not the single pass. */
  lemma {:induction false} RescanMisses(lower: string -> string, context: Context, done: string, rest: string)
    returns (rounds: nat)
    requires !AsWritten(lower, context, rest) && NoOpening(done + Written(lower, context, rest))
    ensures Rescan(context, done + rest, rounds).Finished?
    ensures Rescan(context, done + rest, rounds).result != Prefixed(done, Resolve(lower, context, rest))
    decreases |rest|
  {
    hide CutFirst, NoOpening, Rescan, Resolve, Written, Prefixed, Before, AsWritten, Openings;
    AsWrittenOnce(lower, context, rest);
    var c := CutFirst(rest);
    if c.name in context {
      var next := RoundIsStep(lower, context, done, rest, 1);
      rounds := RescanMisses(lower, context, next, c.behind);
      rounds := rounds + 1;
      next := RoundIsStep(lower, context, done, rest, rounds);
    } else {
      rounds := 1;
      var next := RoundIsStep(lower, context, done, rest, rounds);
      WrittenOnce(lower, context, rest);
      NamesMissed(lower, context, rest);
      PrefixedFails(done, Resolve(lower, context, rest));
    }
  }

  lemma PrefixedFails(done: string, r: Result)
    ensures Prefixed(done, r).Unavailable? ==> Prefixed(done, r) == r
  {
  }

  /** The names the single pass misses have no lower case form either. */
  lemma {:induction false} NamesMissed(lower: string -> string, context: Context, value: string)
    ensures var r := Resolve(lower, context, value);
            r.Unavailable? ==> r.name !in context && lower(r.name) !in context
    decreases |value|
  {
    hide CutFirst;
    var c := CutFirst(value);
    if c.Piece? && Lookup(lower, context, c.name).Ok? {
      NamesMissed(lower, context, c.behind);
    }
  }

  /** The loop ends where the single pass ends, with its result. */
  ghost predicate EndsAlike(lower: string -> string, context: Context, group: string, rounds: nat) {
    Rescan(context, group, rounds) == Finished(Written(lower, context, group), Resolve(lower, context, group))
  }

  lemma NothingDone(lower: string -> string, context: Context, value: string)
    ensures "" + value == value && "" + Written(lower, context, value) == Written(lower, context, value)
    ensures Prefixed("", Resolve(lower, context, value)) == Resolve(lower, context, value)
  {
    hide Resolve, Written;
    var r := Resolve(lower, context, value);
    assert r.Ok? ==> "" + r.text == r.text;
  }

  /** Over all templates and values, successes and failures: rescanning ends where the single
      pass ends and as it ends exactly if every name is there as written and the text the pass
      writes has no opening. It then takes one round more than there are openings. */
  lemma RescanIsOnePass(lower: string -> string, context: Context, group: string)
    ensures (exists rounds: nat :: EndsAlike(lower, context, group, rounds)) <==>
            AsWritten(lower, context, group) && NoOpening(Written(lower, context, group))
    ensures (exists rounds: nat :: EndsAlike(lower, context, group, rounds)) ==>
            forall rounds: nat :: rounds > Openings(context, group) ==> EndsAlike(lower, context, group, rounds)
  {
    hide CutFirst, NoOpening, Rescan, Resolve, Written, Prefixed, AsWritten, Openings;
    NothingDone(lower, context, group);
    if AsWritten(lower, context, group) && NoOpening(Written(lower, context, group)) {
      forall rounds: nat | rounds > Openings(context, group) ensures EndsAlike(lower, context, group, rounds) {
        RescanBehind(lower, context, "", group, rounds);
      }
      assert EndsAlike(lower, context, group, Openings(context, group) + 1);
    } else if rounds: nat :| EndsAlike(lower, context, group, rounds) {
      EndsAtFirstOpening(context, group, rounds);
      var other := RescanMisses(lower, context, "", group);
      OneEnd(context, group, rounds, other);
      assert false;
    }
  }

  lemma ResultIsOnePass(lower: string -> string, context: Context, group: string, rounds: nat)
    requires AsWritten(lower, context, group) && NoOpening(Written(lower, context, group))
    requires Rescan(context, group, rounds).Finished?
    ensures EndsAlike(lower, context, group, rounds)
  {
    hide CutFirst, NoOpening, Rescan, Resolve, Written, AsWritten, Openings;
    RescanIsOnePass(lower, context, group);
    var enough := Openings(context, group) + 1;
    assert EndsAlike(lower, context, group, enough);
    OneEnd(context, group, rounds, enough);
  }

  ghost predicate SameResult(lower: string -> string, context: Context, group: string, rounds: nat) {
    Rescan(context, group, rounds).Finished? && Rescan(context, group, rounds).result == Resolve(lower, context, group)
  }

  /** Where the single pass succeeds, so does rescanning, with that text, exactly if every name
      is there as written and the text has no opening. */
  lemma RescanSucceedsExactly(lower: string -> string, context: Context, group: string)
    requires Resolve(lower, context, group).Ok?
    ensures (exists rounds: nat :: SameResult(lower, context, group, rounds)) <==>
            AsWritten(lower, context, group) && NoOpening(Resolve(lower, context, group).text)
  {
    hide CutFirst, NoOpening, Rescan, Resolve, Written, AsWritten;
    RescanIsOnePass(lower, context, group);
    OkIsWritten(lower, context, group);
    if rounds: nat :| SameResult(lower, context, group, rounds) {
      EndsAtFirstOpening(context, group, rounds);
      assert EndsAlike(lower, context, group, rounds);
    } else if rounds: nat :| EndsAlike(lower, context, group, rounds) {
      assert SameResult(lower, context, group, rounds);
    }
  }

  // ---------------------------------------------- values that are sure to do

  /** Text an opening can neither start in nor run through. */
  predicate Inert(s: string) {
    s != "" && '$' !in s && '{' !in s
  }

  /** Along the single pass, every value put in is inert and no name needs its lower case form. */
  predicate Straight(lower: string -> string, context: Context, value: string)
    decreases |value|
  {
    match CutFirst(value)
    case Nothing => true
    case Broken => true
    case Piece(_, name, behind) =>
      if name in context then Inert(context[name]) && Straight(lower, context, behind) else lower(name) !in context
  }

  /** No opening in the text, and none that starts in it and ends behind it. */
  ghost predicate Sealed(s: string) {
    && NoOpening(s)
    && (s == "" || (s[|s| - 1] != '$' && s[|s| - 1] != '{'))
  }

  /** Behind sealed text only an opening of its own makes one. */
  lemma SealedBehind(done: string, rest: string)
    requires Sealed(done) && NoOpening(rest)
    ensures NoOpening(done + rest)
  {
    var all := done + rest;
    forall i | 0 <= i <= |all| ensures !OccursAt(all, OPEN, i) {
      OpenAt(all, i);
      if i >= |done| {
        OpenAt(rest, i - |done|);
      } else {
        OpenAt(done, i);
        assert all[|done| - 1] == done[|done| - 1];
      }
    }
  }

  lemma SealedNext(plain: string, replacement: string)
    requires NoOpening(plain) && Inert(replacement)
    ensures Sealed(plain + replacement)
  {
    var s := plain + replacement;
    assert s[|s| - 1] == replacement[|replacement| - 1] && replacement[|replacement| - 1] in replacement;
    forall i | 0 <= i <= |s| ensures !OccursAt(s, OPEN, i) {
      OpenAt(s, i);
      if i + 3 <= |plain| {
        OpenAt(plain, i);
      } else if i + 3 <= |s| {
        assert s[i + 2] == replacement[i + 2 - |plain|] && s[i + 2] in replacement;
      }
    }
  }

  /** Inert values never write an opening. */
  lemma {:induction false} StraightWrites(lower: string -> string, context: Context, value: string)
    requires Straight(lower, context, value)
    ensures AsWritten(lower, context, value) && NoOpening(Written(lower, context, value))
    decreases |value|
  {
    hide CutFirst, NoOpening, Written, Before, Inert, Sealed, Resolve;
    WrittenOnce(lower, context, value);
    NothingBefore(value);
    var c := CutFirst(value);
    if c.Piece? && c.name in context {
      StraightWrites(lower, context, c.behind);
      SealedNext(Before(value), context[c.name]);
      SealedBehind(Before(value) + context[c.name], Written(lower, context, c.behind));
    }
  }

  lemma StraightIsOnePass(lower: string -> string, context: Context, group: string, rounds: nat)
    requires Straight(lower, context, group) && rounds > Openings(context, group)
    ensures EndsAlike(lower, context, group, rounds)
  {
    hide *;
    StraightWrites(lower, context, group);
    RescanIsOnePass(lower, context, group);
  }

  // ------------------------------------------------------------ the loop itself

  ghost predicate Ends(context: Context, template: string) {
    exists rounds: nat :: Rescan(context, template, rounds).Finished?
  }

  /** The loop, on every template for which it ends; where the single pass writes no opening it
      does end, with the result of the single pass. */
  method ResolveConcurrencyTemplate(context: Context, template: string) returns (r: Result)
    requires Ends(context, template)
    ensures exists rounds: nat ::
        Rescan(context, template, rounds).Finished? && Rescan(context, template, rounds).result == r
    ensures forall lower: string -> string ::
              AsWritten(lower, context, template) && NoOpening(Written(lower, context, template)) ==>
                r == Resolve(lower, context, template)
  {
    hide CutFirst, Rescan, Resolve, Written, AsWritten, NoOpening, Openings;
    var group := template;
    ghost var rounds: nat :| Rescan(context, template, rounds).Finished?;
    ghost var left := rounds;
    while true
      invariant Rescan(context, group, left).Finished?
      invariant Rescan(context, group, left) == Rescan(context, template, rounds)
      decreases left
    {
      NoRounds(context, group);
      RescanOnce(context, group, left);
      match CutFirst(group)
      case Nothing =>
        r := Ok(group);
        break;
      case Broken =>
        r := Unclosed;
        break;
      case Piece(before, name, behind) =>
        if name !in context {
          r := Unavailable(name);
          break;
        }
        group, left := before + context[name] + behind, left - 1;
    }
    forall lower: string -> string | AsWritten(lower, context, template) && NoOpening(Written(lower, context, template))
      ensures r == Resolve(lower, context, template)
    {
      ResultIsOnePass(lower, context, template, rounds);
    }
  }

  lemma NoRounds(context: Context, group: string)
    ensures Rescan(context, group, 0) == Unfinished
  {
  }

  /** A value that opens a template again is never done with. */
  lemma {:induction false} RescanNeverEnds(rounds: nat)
    ensures Rescan(map["x" := "${{x}}"], "${{x}}", rounds) == Unfinished
  {
    if rounds > 0 {
      var s := "${{x}}";
      assert OccursAt(s, OPEN, 0) by { OpenAt(s, 0); }
      assert IndexOf(s, OPEN) == 0;
      assert s[3..] == "x}}" && OccursAt("x}}", CLOSE, 1) by { assert "x}}"[1..] == CLOSE; }
      assert !OccursAt("x}}", CLOSE, 0) by { assert "x}}"[0..][0] == 'x'; }
      assert IndexOf("x}}", CLOSE) == 1;
      assert CutFirst(s) == Piece("", "x", "");
      assert "" + s + "" == s;
      RescanNeverEnds(rounds - 1);
    }
  }

  /** On a failure the condition is about where the loop gives up: with an opening among the
      values it can give up earlier than the single pass, and with the same error. */
  lemma SameFailureElsewhere(lower: string -> string)
    ensures var c, t := map["x" := "${{"], "${{x}}${{y";
            && Resolve(lower, c, t) == Unclosed && !NoOpening(Written(lower, c, t))
            && Rescan(c, t, 2) == Finished("", Unclosed)
  {
    hide CutFirst, NoOpening, Rescan, Resolve, Written, Before;
    var c, t := map["x" := "${{"], "${{x}}${{y";
    OneCut();
    UnclosedAlone("${{y", "y");
    UnclosedAlone("${{${{y", "${{y");
    CutBefore(t);
    RescanOnce(c, t, 2);
    RescanOnce(c, "${{${{y", 1);
    WrittenOnce(lower, c, t);
    WrittenOnce(lower, c, "${{y");
    assert "" + "${{" + "${{y" == "${{${{y" && "" + "${{" + "" == "${{";
    OneOpening();
  }

  lemma OneOpening()
    ensures !NoOpening("${{")
  {
    OpenAt("${{", 0);
  }

  lemma OneCut()
    ensures CutFirst("${{x}}${{y") == Piece("", "x", "${{y")
  {
    hide IndexOf, OccursAt;
    var t := "${{x}}${{y";
    IndexBehind("", OPEN, "x}}${{y");
    assert "" + OPEN + "x}}${{y" == t;
    IndexBehind("x", CLOSE, "${{y");
    assert "x" + CLOSE + "${{y" == t[3..];
    assert t[3..][..1] == "x" && t[3..][3..] == "${{y" && t[..0] == "";
  }

  lemma UnclosedAlone(t: string, inner: string)
    requires t == OPEN + inner && '}' !in inner
    ensures CutFirst(t) == Broken && Before(t) == ""
  {
    IndexBehind("", OPEN, inner);
    assert "" + OPEN + inner == t && t[3..] == inner;
    NotFound(inner, CLOSE);
  }
}
