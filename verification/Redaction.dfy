// Replacing every occurrence of a text, and why replacing all masks leaves none of them.
module Redaction {
  import opened Search

  const STARS := "***"

  /** strings.ReplaceAll(s, mask, "***") for a mask that is not empty. */
  function ReplaceAll(s: string, mask: string): string
    requires mask != ""
  {
    if s == "" then ""
    else if mask <= s then STARS + ReplaceAll(s[|mask|..], mask)
    else [s[0]] + ReplaceAll(s[1..], mask)
  }

  /** redactLocked. */
  function Redact(masks: seq<string>, value: string): string {
    if masks == [] then value
    else Redact(masks[1..], if masks[0] != "" then ReplaceAll(value, masks[0]) else value)
  }

  /** The loop of redactLocked; redactSecrets runs the same loop over sorted secrets. */
  method RedactInPlace(masks: seq<string>, value: string) returns (r: string)
    ensures r == Redact(masks, value)
  {
    r := value;
    for i := 0 to |masks|
      invariant Redact(masks[i..], r) == Redact(masks, value)
    {
      assert masks[i..][0] == masks[i] && masks[i..][1..] == masks[i + 1..];
      if masks[i] != "" {
        r := ReplaceAll(r, masks[i]);
      }
    }
  }

  predicate Starless(x: string) {
    '*' !in x
  }

  /** Text no replacement can complete: no star at either end, no three stars in a row. */
  predicate Firm(x: string) {
    (x == "" || x[0] != '*') && FirmTail(x)
  }

  predicate FirmTail(x: string) {
    (x == "" || x[|x| - 1] != '*') && !Contains(x, STARS)
  }

  lemma CharAt(s: string, x: string, i: nat, k: nat)
    requires OccursAt(s, x, i) && k < |x|
    ensures i + |x| <= |s| && s[i + k] == x[k]
  {
    assert s[i..][k] == x[k];
  }

  lemma StarlessIsFirm(x: string)
    requires Starless(x)
    ensures Firm(x)
  {
    assert x != "" ==> x[0] in x && x[|x| - 1] in x;
    if Contains(x, STARS) {
      var i :| 0 <= i <= |x| && OccursAt(x, STARS, i);
      CharAt(x, STARS, i, 0);
    }
  }

  lemma FirmTailRest(x: string)
    requires FirmTail(x) && x != ""
    ensures FirmTail(x[1..])
  {
    if Contains(x[1..], STARS) {
      OccursLater(x, STARS, 1);
    }
  }

  /** What begins with what a replacement puts in is not firm. */
  lemma OverStars(x: string, rest: string)
    requires x != "" && x <= STARS + rest
    ensures x[|x| - 1] == '*' || Contains(x, STARS)
  {
    var r := STARS + rest;
    assert r[0] == '*' && r[1] == '*' && r[2] == '*';
    if |x| > 3 {
      assert x[0..] == x && x[..3] == STARS;
      assert OccursAt(x, STARS, 0);
    }
  }

  lemma {:induction false} StartsReplaced(s: string, mask: string, x: string)
    requires mask != "" && FirmTail(x) && x <= ReplaceAll(s, mask)
    ensures x <= s && (x != "" ==> !(mask <= s))
  {
    if x != "" {
      if mask <= s && s != "" {
        OverStars(x, ReplaceAll(s[|mask|..], mask));
      } else {
        assert ReplaceAll(s, mask)[1..] == ReplaceAll(s[1..], mask);
        assert x[1..] <= ReplaceAll(s, mask)[1..];
        FirmTailRest(x);
        StartsReplaced(s[1..], mask, x[1..]);
      }
    }
  }

  /** Replacing a mask creates no firm text, and removes the mask itself if it is firm. */
  lemma {:induction false} ReplacedOccurrence(s: string, mask: string, x: string, i: nat)
    requires mask != "" && x != "" && Firm(x) && OccursAt(ReplaceAll(s, mask), x, i)
    ensures Contains(s, x) && x != mask
    decreases |s|
  {
    var r := ReplaceAll(s, mask);
    assert x[0] == r[i..][0] == r[i];
    if i == 0 {
      assert r[0..] == r;
      StartsReplaced(s, mask, x);
      assert s[0..] == s && OccursAt(s, x, 0);
    } else if mask <= s {
      var rest := ReplaceAll(s[|mask|..], mask);
      if i >= 3 {
        assert r[i..] == rest[i - 3..];
        ReplacedOccurrence(s[|mask|..], mask, x, i - 3);
        OccursLater(s, x, |mask|);
      }
    } else {
      assert r[i..] == ReplaceAll(s[1..], mask)[i - 1..];
      ReplacedOccurrence(s[1..], mask, x, i - 1);
      OccursLater(s, x, 1);
    }
  }

  lemma ReplacedContains(s: string, mask: string, x: string)
    requires mask != "" && x != "" && Firm(x) && Contains(ReplaceAll(s, mask), x)
    ensures Contains(s, x) && x != mask
  {
    var i :| 0 <= i <= |ReplaceAll(s, mask)| && OccursAt(ReplaceAll(s, mask), x, i);
    ReplacedOccurrence(s, mask, x, i);
  }

  lemma {:induction false} RedactedContains(masks: seq<string>, value: string, x: string)
    requires x != "" && Firm(x) && Contains(Redact(masks, value), x)
    ensures Contains(value, x) && x !in masks
  {
    hide Contains, ReplaceAll;
    if masks != [] {
      var next := if masks[0] != "" then ReplaceAll(value, masks[0]) else value;
      RedactedContains(masks[1..], next, x);
      assert masks == [masks[0]] + masks[1..];
      if masks[0] != "" {
        ReplacedContains(value, masks[0], x);
      }
    }
  }

  /** Redaction is complete, whatever the order of the masks: no firm mask is left in the
      output, since no later replacement brings an earlier mask back. */
  lemma RedactionIsComplete(masks: seq<string>, value: string, mask: string)
    requires mask in masks && mask != "" && Firm(mask)
    ensures !Contains(Redact(masks, value), mask)
  {
    if Contains(Redact(masks, value), mask) {
      RedactedContains(masks, value, mask);
    }
  }

  /** Text that contains no mask is left as it is, so redacting twice is redacting once. */
  lemma {:induction false} NothingToReplace(s: string, mask: string)
    requires mask != "" && !Contains(s, mask)
    ensures ReplaceAll(s, mask) == s
  {
    if s != "" {
      assert s[0..] == s;
      if mask <= s {
        assert OccursAt(s, mask, 0);
      }
      if Contains(s[1..], mask) {
        OccursLater(s, mask, 1);
      }
      NothingToReplace(s[1..], mask);
    }
  }

  lemma {:induction false} NothingToRedact(masks: seq<string>, value: string)
    requires forall m :: m in masks && m != "" ==> !Contains(value, m)
    ensures Redact(masks, value) == value
  {
    if masks != [] {
      if masks[0] != "" {
        NothingToReplace(value, masks[0]);
      }
      NothingToRedact(masks[1..], value);
    }
  }

  lemma RedactionIsIdempotent(masks: seq<string>, value: string)
    requires forall m :: m in masks ==> Firm(m)
    ensures Redact(masks, Redact(masks, value)) == Redact(masks, value)
  {
    forall m | m in masks && m != "" ensures !Contains(Redact(masks, value), m) {
      RedactionIsComplete(masks, value, m);
    }
    NothingToRedact(masks, Redact(masks, value));
  }

  // ----------------------------------------------------- which masks are safe

  /** The mask is left in no output, whatever the other masks and the text. */
  ghost predicate Safe(mask: string) {
    forall masks: seq<string>, value: string :: HiddenIn(masks, value, mask)
  }

  predicate HiddenIn(masks: seq<string>, value: string, mask: string) {
    mask in masks ==> !Contains(Redact(masks, value), mask)
  }

  function Filler(c: char, n: nat): (r: string)
    ensures |r| == n && forall i :: 0 <= i < n ==> r[i] == c
  {
    seq(n, _ => c)
  }

  /** A mask in whose place a later replacement can put one of its stars comes back. */
  lemma BroughtBack(a: string, stars: string, b: string)
    requires stars == STARS || (stars == "*" && (a == "" || b == ""))
    ensures !Safe(a + stars + b)
  {
    hide Contains, ReplaceAll, Safe;
    var mask := a + stars + b;
    var c := if a != "" && a[|a| - 1] == 'a' then 'b' else 'a';
    var filler := Filler(c, |a| + |b| + 1);
    var value := a + filler + b;
    StarNotInFiller(a, stars, b, filler);
    NothingToReplace(value, mask);
    FillerReplaced(a, filler, b, c);
    var masks := [mask, filler];
    assert masks[0] == mask && masks[1..] == [filler] && [filler][1..] == [] && mask != "" && filler != "";
    assert Redact(masks, value) == Redact([filler], value);
    assert Redact([filler], value) == Redact([], ReplaceAll(value, filler)) == a + STARS + b;
    StarsHold(a, stars, b);
    UnsafeBy(masks, value, mask);
  }

  lemma UnsafeBy(masks: seq<string>, value: string, mask: string)
    requires !HiddenIn(masks, value, mask)
    ensures !Safe(mask)
  {
    hide HiddenIn;
  }

  /** The mask has a star where the text has the filler, and the text behind it is too short. */
  lemma StarNotInFiller(a: string, stars: string, b: string, filler: string)
    requires 0 < |stars| && stars[0] == '*' && |filler| > |a| + |b| && forall i :: 0 <= i < |filler| ==>
        filler[i] != '*'
    ensures !Contains(a + filler + b, a + stars + b)
  {
    var value, mask := a + filler + b, a + stars + b;
    assert forall k :: 0 <= k < |filler| ==> value[k + |a|] == filler[k];
    assert mask[|a|] == '*';
    if Contains(value, mask) {
      var i :| 0 <= i <= |value| && OccursAt(value, mask, i);
      CharAt(value, mask, i, |a|);
      assert false;
    }
  }

  lemma {:induction false} FillerReplaced(a: string, filler: string, b: string, c: char)
    requires |filler| > |a| + |b| && (forall i :: 0 <= i < |filler| ==> filler[i] == c)
    requires a != "" ==> a[|a| - 1] != c
    ensures ReplaceAll(a + filler + b, filler) == a + STARS + b
    decreases |a|
  {
    var value := a + filler + b;
    if a == "" {
      assert value == filler + b && value[|filler|..] == b;
      assert !Contains(b, filler);
      NothingToReplace(b, filler);
      assert "" + STARS + b == STARS + b;
    } else {
      assert value[|a| - 1] == a[|a| - 1];
      assert !(filler <= value);
      assert value[1..] == a[1..] + filler + b;
      FillerReplaced(a[1..], filler, b, c);
      assert [a[0]] + (a[1..] + STARS + b) == a + STARS + b;
    }
  }

  lemma StarsHold(a: string, stars: string, b: string)
    requires stars == STARS || (stars == "*" && (a == "" || b == ""))
    ensures Contains(a + STARS + b, a + stars + b)
  {
    var s, x := a + STARS + b, a + stars + b;
    if stars == STARS || b == "" {
      assert s[0..] == s && x <= s;
      assert OccursAt(s, x, 0);
    } else {
      assert s[2..] == x;
      assert OccursAt(s, x, 2);
    }
  }

  /** A mask is safe exactly if it is firm. */
  lemma SafeExactly(mask: string)
    requires mask != ""
    ensures Safe(mask) <==> Firm(mask)
  {
    hide Redact;
    if Firm(mask) {
      forall masks: seq<string>, value: string ensures HiddenIn(masks, value, mask) {
        if mask in masks {
          RedactionIsComplete(masks, value, mask);
        }
      }
    } else if mask[0] == '*' {
      BroughtBack("", "*", mask[1..]);
      assert "" + "*" + mask[1..] == mask;
    } else if mask[|mask| - 1] == '*' {
      BroughtBack(mask[..|mask| - 1], "*", "");
      assert mask[..|mask| - 1] + "*" + "" == mask;
    } else {
      var i :| 0 <= i <= |mask| && OccursAt(mask, STARS, i);
      BroughtBack(mask[..i], STARS, mask[i + 3..]);
      assert mask[i..] == STARS + mask[i + 3..];
      assert mask[..i] + STARS + mask[i + 3..] == mask;
    }
  }

  // ---------------------------------------------------------------- by length

  ghost predicate Descending(masks: seq<string>) {
    forall i, j :: 0 <= i < j < |masks| ==> Size(masks[i]) >= Size(masks[j])
  }

  /** Behind the last mask that is at least as long. */
  function InsertBySize(masks: seq<string>, mask: string): (r: seq<string>)
    ensures multiset(r) == multiset(masks) + multiset{mask}
  {
    if masks == [] then [mask]
    else
      var n := |masks| - 1;
      assert masks == masks[..n] + [masks[n]];
      if Size(masks[n]) >= Size(mask) then masks + [mask] else InsertBySize(masks[..n], mask) + [masks[n]]
  }

  /** sort.SliceStable by falling length. */
  function SortBySize(masks: seq<string>): (r: seq<string>)
    ensures multiset(r) == multiset(masks)
  {
    if masks == [] then []
    else
      var n := |masks| - 1;
      assert masks == masks[..n] + [masks[n]];
      InsertBySize(SortBySize(masks[..n]), masks[n])
  }

  lemma InsertedFrom(masks: seq<string>, mask: string, x: string)
    requires x in InsertBySize(masks, mask)
    ensures x in masks || x == mask
  {
    assert x in multiset(InsertBySize(masks, mask));
  }

  lemma {:induction false} InsertDescending(masks: seq<string>, mask: string)
    requires Descending(masks)
    ensures Descending(InsertBySize(masks, mask))
  {
    hide Size;
    if masks == [] {
    } else {
      var n := |masks| - 1;
      if Size(masks[n]) < Size(mask) {
        InsertDescending(masks[..n], mask);
        var r := InsertBySize(masks[..n], mask);
        forall i | 0 <= i < |r| ensures Size(r[i]) >= Size(masks[n]) {
          InsertedFrom(masks[..n], mask, r[i]);
        }
      }
    }
  }

  lemma {:induction false} SortDescends(masks: seq<string>)
    ensures Descending(SortBySize(masks))
  {
    if masks != [] {
      SortDescends(masks[..|masks| - 1]);
      InsertDescending(SortBySize(masks[..|masks| - 1]), masks[|masks| - 1]);
    }
  }

  /** redactSecrets: the secrets by falling length, and no secret is left in the output. */
  method RedactSecrets(value: string, secretValues: map<string, string>) returns (r: string)
    ensures forall k :: k in secretValues && secretValues[k] != "" && Firm(secretValues[k]) ==>
        !Contains(r, secretValues[k])
    ensures (forall k :: k in secretValues && secretValues[k] != "" ==> !Contains(value, secretValues[k])) ==>
        r == value
  {
    hide Contains, Firm;
    var secrets: seq<string>, remaining := [], secretValues.Keys;
    while remaining != {}
      invariant remaining <= secretValues.Keys
      invariant forall k :: k in secretValues && k !in remaining && secretValues[k] != "" ==> secretValues[k] in secrets
      invariant forall x :: x in secrets ==> x != "" && IsValue(secretValues, x)
      decreases |remaining|
    {
      var k :| k in remaining;
      if secretValues[k] != "" {
        assert IsValue(secretValues, secretValues[k]);
        secrets := secrets + [secretValues[k]];
      }
      remaining := remaining - {k};
    }
    var sorted := SortBySize(secrets);
    assert forall x :: x in secrets <==> x in multiset(secrets);
    assert forall x :: x in sorted <==> x in multiset(sorted);
    r := RedactInPlace(sorted, value);
    forall k | k in secretValues && secretValues[k] != "" && Firm(secretValues[k])
      ensures !Contains(r, secretValues[k]) {
      RedactionIsComplete(sorted, value, secretValues[k]);
    }
    if forall k :: k in secretValues && secretValues[k] != "" ==> !Contains(value, secretValues[k]) {
      NothingToRedact(sorted, value);
    }
  }

  predicate IsValue(secretValues: map<string, string>, x: string) {
    exists k :: k in secretValues && secretValues[k] == x
  }
}
