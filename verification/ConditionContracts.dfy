// Conditions as a run freezes and evaluates them, with the success they ask for implicitly,
// and what pasting two of them does to that.
module ConditionContracts {
  import opened Text
  import opened Search
  import opened ConditionParser
  import opened ConditionLexer
  import opened ConditionMeaning
  import Machine = RunMachine

  /** CompileCondition. */
  function Compiled(h: Host, expression: string): Machine.Contract {
    Machine.Contract(Normalize(expression), Compiles(h, expression))
  }

  /** A world in which conditions mean what the condition language says; contextOf adds the
      variables to what a condition may read of the run. */
  function Interpreted(h: Host, m: Semantics, contextOf: Machine.View -> Context,
      execute: Machine.Key -> Machine.Outcome)
    : Machine.World
  {
    Machine.World((expression: string, view: Machine.View) =>
                    match Evaluate(h, m, expression, contextOf(view))
                    case Error => Machine.None
                    case Ok(b) => Machine.Some(b),
                  execute)
  }

  /** A compiled condition holds. */
  ghost predicate Holds(h: Host, m: Semantics, contextOf: Machine.View -> Context,
      execute: Machine.Key -> Machine.Outcome,
                        expression: string, view: Machine.View)
  {
    Machine.ContractHolds(Interpreted(h, m, contextOf, execute), Compiled(h, expression), view)
  }

  /** Whether the condition waives the success of what came before. */
  predicate Waives(expression: string) {
    Machine.UsesStatusFunction(Normalize(expression))
  }

  predicate Met(h: Host, m: Semantics, expression: string, ctx: Context) {
    Evaluate(h, m, expression, ctx) == Ok(true)
  }

  // ---------------------------------------------------------- one condition

  /** What compiles was unwrapped for good. */
  lemma NormalizedOnce(h: Host, expression: string)
    requires SoundClasses(h) && Compiles(h, expression)
    ensures Normalize(Normalize(expression)) == Normalize(expression)
    ensures Compiles(h, Normalize(expression))
  {
    hide Lex, SoundClasses, ParseTokens;
    var s := Normalize(expression);
    if Wrapped(s) {
      WrappedDoesNotLex(h, s);
      assert false;
    }
    NormalizeIsTrimmed(expression);
  }

  lemma NormalizeIsTrimmed(expression: string)
    ensures Trim(Normalize(expression)) == Normalize(expression)
  {
  }

  lemma NoWordNoStatus()
    ensures !Machine.UsesStatusFunction("")
  {
    assert Lower(Machine.WithoutSpaces("")) == "";
  }

  /** A condition that compiles holds if it is met, and success is there or waived. */
  lemma HoldsIs(h: Host, m: Semantics, contextOf: Machine.View -> Context, execute: Machine.Key -> Machine.Outcome,
                expression: string, view: Machine.View)
    requires SoundClasses(h) && Compiles(h, expression)
    ensures Holds(h, m, contextOf, execute, expression, view) <==>
            Met(h, m, expression, contextOf(view)) && (view.success || Waives(expression))
  {
    hide Lex, SoundClasses, ParseTokens, Normalize, ParseText, Machine.UsesStatusFunction, EvaluateNode, Compiles;
    var s := Normalize(expression);
    NormalizedOnce(h, expression);
    NormalMeans(h, m, expression, s, contextOf(view));
    NoWordNoStatus();
  }

  // ------------------------------------------------------- status words in pasted text

  function Squeezed(s: string): string {
    Lower(Machine.WithoutSpaces(s))
  }

  lemma {:induction false} SqueezedConcat(a: string, b: string)
    ensures Squeezed(a + b) == Squeezed(a) + Squeezed(b)
  {
    hide Squeezed;
    if a == "" {
      assert a + b == b && Squeezed("") == "" by { NothingSqueezed(); }
      assert "" + Squeezed(b) == Squeezed(b);
    } else {
      var first := if a[0] == ' ' then "" else [LowerChar(a[0])];
      assert (a + b)[1..] == a[1..] + b;
      SqueezedConcat(a[1..], b);
      LowerFirst(a);
      LowerFirst(a + b);
      assert first + (Squeezed(a[1..]) + Squeezed(b)) == first + Squeezed(a[1..]) + Squeezed(b);
    }
  }

  lemma NothingSqueezed()
    ensures Squeezed("") == ""
  {
  }

  lemma LowerFirst(s: string)
    requires s != ""
    ensures Squeezed(s) == (if s[0] == ' ' then "" else [LowerChar(s[0])]) + Squeezed(s[1..])
  {
    if s[0] != ' ' {
      var t := Machine.WithoutSpaces(s);
      assert t == [s[0]] + Machine.WithoutSpaces(s[1..]);
      assert t[1..] == Machine.WithoutSpaces(s[1..]);
    } else {
      assert Machine.WithoutSpaces(s) == Machine.WithoutSpaces(s[1..]);
    }
  }

  lemma SqueezedMarks()
    ensures Squeezed("(") == "(" && Squeezed(") && (") == ")&&(" && Squeezed(")") == ")"
  {
    var a, b, c, d, e, f := ") && (", " && (", "&& (", "& (", " (", "(";
    assert a[1..] == b && b[1..] == c && c[1..] == d && d[1..] == e && e[1..] == f && f[1..] == "";
    LowerFirst(a);
    LowerFirst(b);
    LowerFirst(c);
    LowerFirst(d);
    LowerFirst(e);
    LowerFirst(f);
    LowerFirst(")");
    assert ")"[1..] == "" && Squeezed("") == "";
  }

  /** The name of a status function and its parenthesis. */
  predicate IsWord(word: string) {
    |word| >= 2 && word[|word| - 1] == '(' && forall i :: 0 <= i < |word| - 1 ==> 'a' <= word[i] <= 'z'
  }

  lemma WordAt(s: string, word: string, i: nat, k: nat)
    requires OccursAt(s, word, i) && k < |word|
    ensures i + |word| <= |s| && s[i + k] == word[k]
  {
    assert s[i..][k] == word[k];
  }

  /** A word in pasted text stands in one of the two conditions. */
  lemma WordInPasted(p: string, c: string, word: string)
    requires IsWord(word)
    ensures Contains("(" + p + ")&&(" + c + ")", word) <==> Contains(p, word) || Contains(c, word)
  {
    hide OccursAt;
    var all := "(" + p + ")&&(" + c + ")";
    var from := |p| + 5;
    assert all[1..1 + |p|] == p && all[from..from + |c|] == c;
    if Contains(p, word) {
      PieceContains(all, 1, 1 + |p|, word);
    }
    if Contains(c, word) {
      PieceContains(all, from, from + |c|, word);
    }
    if Contains(all, word) {
      var i :| 0 <= i <= |all| && OccursAt(all, word, i);
      WordAt(all, word, i, 0);
      if i <= |p| {
        if i + |word| > 1 + |p| {
          WordAt(all, word, i, |p| + 1 - i);
          assert false;
        }
        Within(all, 1, 1 + |p|, word, i);
      } else {
        assert i >= from;
        WordAt(all, word, i, |word| - 1);
        Within(all, from, from + |c|, word, i);
      }
    }
  }

  lemma Within(s: string, lo: nat, hi: nat, word: string, i: nat)
    requires lo <= i && i + |word| <= hi <= |s| && OccursAt(s, word, i)
    ensures Contains(s[lo..hi], word)
  {
    var piece := s[lo..hi];
    assert piece[i - lo..] == s[i..hi];
    assert word == s[i..][..|word|] == piece[i - lo..][..|word|];
    assert OccursAt(piece, word, i - lo);
  }

  /** Pasted text names a status function exactly if one of the two conditions does. */
  lemma PastedStatus(p: string, c: string)
    ensures Machine.UsesStatusFunction(Pasted(p, c)) <==> Machine.UsesStatusFunction(p) || Machine.UsesStatusFunction(c)
  {
    hide Contains, Squeezed;
    SqueezedConcat("(" + p + ") && (" + c, ")");
    SqueezedConcat("(" + p + ") && (", c);
    SqueezedConcat("(" + p, ") && (");
    SqueezedConcat("(", p);
    SqueezedMarks();
    StatusIs(p);
    StatusIs(c);
    StatusIs(Pasted(p, c));
    assert Squeezed(Pasted(p, c)) == "(" + Squeezed(p) + ")&&(" + Squeezed(c) + ")";
    WordInPasted(Squeezed(p), Squeezed(c), "success(");
    WordInPasted(Squeezed(p), Squeezed(c), "failure(");
    WordInPasted(Squeezed(p), Squeezed(c), "cancelled(");
    WordInPasted(Squeezed(p), Squeezed(c), "always(");
  }

  lemma StatusIs(s: string)
    ensures Machine.UsesStatusFunction(s) <==>
            || Contains(Squeezed(s), "success(") || Contains(Squeezed(s), "failure(")
            || Contains(Squeezed(s), "cancelled(") || Contains(Squeezed(s), "always(")
  {
    hide Contains;
  }

  // ------------------------------------------------------------ main results

  lemma CompositeWaives(h: Host, p: string, c: string)
    requires SoundClasses(h) && Compiles(h, p) && Compiles(h, c)
    ensures Waives(CombineComposite(p, c)) <==> Waives(p) || Waives(c)
  {
    hide Machine.UsesStatusFunction, Pasted;
    NormalizeIsStable(p);
    NormalizeIsStable(c);
    NoWordNoStatus();
    NormalizeWrapped(Normalize(p), Normalize(c));
    PastedStatus(Normalize(p), Normalize(c));
  }

  lemma ReusableWaives(h: Host, p: string, c: string)
    requires SoundClasses(h) && Compiles(h, p) && Compiles(h, c) && Compiles(h, CombineReusable(p, c))
    ensures Waives(CombineReusable(p, c)) <==> Waives(p) || Waives(c)
  {
    hide Machine.UsesStatusFunction, Pasted, Compiles, SoundClasses;
    NormalizeIsStable(p);
    NormalizeIsStable(c);
    NoWordNoStatus();
    if Trim(p) != "" && Trim(c) != "" {
      BareIsTrimmed(h, p, c);
      NormalizeWrapped(Trim(p), Trim(c));
      PastedStatus(Trim(p), Trim(c));
    }
  }

  lemma BareIsTrimmed(h: Host, p: string, c: string)
    requires SoundClasses(h) && Compiles(h, p) && Compiles(h, c) && Compiles(h, CombineReusable(p, c))
    requires Trim(p) != "" && Trim(c) != ""
    ensures Normalize(p) == Trim(p) && Normalize(c) == Trim(c)
  {
    hide Compiles, SoundClasses;
    var m := Semantics(_ => 0.0, _ => "", _ => "", s => s, (_, _) => false, (_, _) => Error);
    ReusableMeansConjunction(h, m, p, c);
  }

  /** A combined composite condition, as a run evaluates it, is the conjunction of the two,
      as a run evaluates them, exactly if success is there, both or neither waive it, or one
      of the two is not met. One that waives success waives it for both. */
  lemma CompositeContract(h: Host, m: Semantics, contextOf: Machine.View -> Context,
      execute: Machine.Key -> Machine.Outcome,
                          p: string, c: string, view: Machine.View)
    requires SoundClasses(h) && Compiles(h, p) && Compiles(h, c) && Compiles(h, CombineComposite(p, c))
    ensures var both := Holds(h, m, contextOf, execute, p, view) && Holds(h, m, contextOf, execute, c, view);
            var pasted := Holds(h, m, contextOf, execute, CombineComposite(p, c), view);
            && (both ==> pasted)
            && (pasted == both <==>
                  || view.success || Waives(p) == Waives(c)
                  || !Met(h, m, p, contextOf(view)) || !Met(h, m, c, contextOf(view)))
  {
    hide Holds, Waives, Evaluate, Compiles, SoundClasses, CombineComposite;
    HoldsIs(h, m, contextOf, execute, p, view);
    HoldsIs(h, m, contextOf, execute, c, view);
    HoldsIs(h, m, contextOf, execute, CombineComposite(p, c), view);
    CompositeWaives(h, p, c);
    CompositeMeansConjunction(h, m, p, c);
  }

  /** The same for conditions combined for a reusable workflow. */
  lemma ReusableContract(h: Host, m: Semantics, contextOf: Machine.View -> Context,
      execute: Machine.Key -> Machine.Outcome,
                         p: string, c: string, view: Machine.View)
    requires SoundClasses(h) && Compiles(h, p) && Compiles(h, c) && Compiles(h, CombineReusable(p, c))
    ensures var both := Holds(h, m, contextOf, execute, p, view) && Holds(h, m, contextOf, execute, c, view);
            var pasted := Holds(h, m, contextOf, execute, CombineReusable(p, c), view);
            && (both ==> pasted)
            && (pasted == both <==>
                  || view.success || Waives(p) == Waives(c)
                  || !Met(h, m, p, contextOf(view)) || !Met(h, m, c, contextOf(view)))
  {
    hide Holds, Waives, Evaluate, Compiles, SoundClasses, CombineReusable;
    HoldsIs(h, m, contextOf, execute, p, view);
    HoldsIs(h, m, contextOf, execute, c, view);
    HoldsIs(h, m, contextOf, execute, CombineReusable(p, c), view);
    ReusableWaives(h, p, c);
    ReusableMeansConjunction(h, m, p, c);
  }
}
