/**
 * The ContextFree grammar class: START is the implicit start symbol, `AddProduction` refuses START and
 * ε on a right side, FIRST of a sequence is computed by the class's own loop, and sentences are
 * generated by repeatedly substituting one nonterminal.
 */
module CfGrammar {
  import opened Wrappers
  import opened Symbols
  import opened GrammarSets
  import opened Grammar

  /** A new grammar: `$` as its only terminal, START as its only nonterminal, no productions, no caches. */
  function NewGrammar(): (g: Grammar)
    ensures Valid(g) && Clean(g)
    ensures EndOfInput in g.terminals && Start in g.nonterminals && Productions(g) == {}
    ensures g.start == Some(Start)
  {
    Grammar(Some(Start), {EndOfInput}, {Start}, map[], None, None, None)
  }

  /**
   * The ContextFree `AddProduction`: START or ε on the right side raises an argument error, after the
   * production itself and the symbols before the offending one have already been recorded.
   */
  function AddProduction(g: Grammar, p: Production): (r: Outcome)
    requires WellFiled(g)
    ensures Valid(r.grammar) && r.grammar.start == g.start
    ensures Productions(r.grammar) == Productions(g) + {p}
    ensures r.error.Some? <==> Nonterminal(Start) in p.right || Epsilon in p.right
    ensures r.error.None? ==>
              && r.grammar.terminals == g.terminals + TerminalsIn(p.right)
              && r.grammar.nonterminals == g.nonterminals + {p.left} + NonterminalsIn(p.right)
    ensures r.error.Some? ==> r.error.value == ArgumentError && p.left in r.grammar.nonterminals
  {
    var r := AddProductionWith(g, p, true);
    assert r.error.None? ==> p.right[..|p.right|] == p.right;
    assert r.error.Some? ==> Nonterminal(Start) in p.right || Epsilon in p.right;
    assert (Nonterminal(Start) in p.right || Epsilon in p.right) ==> r.error.Some? by {
      if Nonterminal(Start) in p.right || Epsilon in p.right {
        var i :| 0 <= i < |p.right| && (p.right[i] == Nonterminal(Start) || p.right[i] == Epsilon);
        assert Refused(p.right[i], true);
      }
    }
    r
  }

  /**
   * The ContextFree `FirstSet(sequence)`: union the whole FIRST set of each symbol while the symbols
   * derive ε, then add ε if all did and remove it otherwise. The empty sequence gives {ε} without
   * consulting FIRST at all.
   */
  method FirstSetOfSequence(g: Grammar, s: seq<Symbol>) returns (r: Result<set<Symbol>>, g': Grammar)
    requires Valid(g)
    ensures Valid(g') && SameContent(g, g')
    ensures s == [] ==> r == Success({Epsilon})
    ensures r.Success? ==> forall f :: IsFirstSets(Productions(g), g.terminals, g.nonterminals, f) ==> r == FirstOfSequence(f, s)
    ensures Clean(g) ==> forall f :: IsFirstSets(Productions(g), g.terminals, g.nonterminals, f) ==> r == FirstOfSequence(f, s)
  {
    if s == [] {
      return Success({Epsilon}), g;
    }
    if s[0].Epsilon? {
      return Failure(ArgumentOutOfRange), g;
    }
    var firstSets;
    firstSets, g' := FirstSets(g);
    if firstSets.Failure? {
      return Failure(firstSets.error), g';
    }
    var first := firstSets.value;
    var acc: set<Symbol> := {};
    var derivesEpsilon := true;
    var i := 0;
    while i < |s| && derivesEpsilon
      invariant 0 <= i <= |s|
      invariant derivesEpsilon ==> PrefixNullable(first, s, i)
      invariant !derivesEpsilon ==> 0 < i && PrefixNullable(first, s, i - 1) && Known(first, s[i - 1]) && Epsilon !in first[s[i - 1]]
      invariant forall j :: 0 <= j < i ==> Known(first, s[j])
      invariant forall x :: x in acc <==> exists j :: 0 <= j < i && x in first[s[j]]
    {
      var symFirst := FirstOfSymbol(first, s[i]);
      if symFirst.Failure? {
        r := Failure(symFirst.error);
        assert r == FirstOfSequence(first, s);
        FirstSetsAgree(g, first);
        return r, g';
      }
      acc := acc + symFirst.value;
      if Epsilon !in symFirst.value {
        derivesEpsilon := false;
      }
      i := i + 1;
    }
    r := Success(if derivesEpsilon then acc + {Epsilon} else acc - {Epsilon});
    SequenceResultMatches(first, s, i, derivesEpsilon, acc, g);
    FirstSetsAgree(g, first);
  }

  lemma FirstSetsAgree(g: Grammar, first: FirstMap)
    requires IsFirstSets(Productions(g), g.terminals, g.nonterminals, first)
    ensures forall f :: IsFirstSets(Productions(g), g.terminals, g.nonterminals, f) ==> f == first
  {
    forall f | IsFirstSets(Productions(g), g.terminals, g.nonterminals, f)
      ensures f == first
    {
      FirstSetsUnique(Productions(g), g.terminals, g.nonterminals, f, first);
    }
  }

  lemma SequenceResultMatches(first: FirstMap, s: seq<Symbol>, i: int, derivesEpsilon: bool, acc: set<Symbol>, g: Grammar)
    requires IsFirstSets(Productions(g), g.terminals, g.nonterminals, first)
    requires 0 <= i <= |s|
    requires derivesEpsilon ==> i == |s| && PrefixNullable(first, s, i)
    requires !derivesEpsilon ==> 0 < i && PrefixNullable(first, s, i - 1) && Known(first, s[i - 1]) && Epsilon !in first[s[i - 1]]
    requires forall j :: 0 <= j < i ==> Known(first, s[j])
    requires forall x :: x in acc <==> exists j :: 0 <= j < i && x in first[s[j]]
    ensures FirstOfSequence(first, s).Success?
    ensures FirstOfSequence(first, s).value == (if derivesEpsilon then acc + {Epsilon} else acc - {Epsilon})
  {
    var want := FirstOfSequence(first, s);
    var got := if derivesEpsilon then acc + {Epsilon} else acc - {Epsilon};
    assert !derivesEpsilon ==> forall k :: i <= k <= |s| ==> !PrefixNullable(first, s, k) by {
      if !derivesEpsilon {
        forall k | i <= k <= |s|
          ensures !PrefixNullable(first, s, k)
        {
          assert Epsilon !in first[s[i - 1]];
        }
      }
    }
    assert want.Success?;
    assert forall j :: 0 <= j < i ==> first[s[j]] <= FirstUniverse(g.terminals);
    forall x
      ensures x in want.value <==> x in got
    {
      if x.Terminal? {
        if x in got {
          var j :| 0 <= j < i && x in first[s[j]];
          assert PrefixNullable(first, s, j);
        }
        if x in want.value {
          var j :| 0 <= j < |s| && PrefixNullable(first, s, j) && Known(first, s[j]) && x in first[s[j]];
          assert x in acc;
        }
      }
    }
  }

  // ------------------------------------------------------------------ sentence generation

  function NonterminalCount(s: seq<Symbol>): nat
  {
    if s == [] then 0 else (if s[0].Nonterminal? then 1 else 0) + NonterminalCount(s[1..])
  }

  predicate AllTerminals(s: seq<Symbol>)
  {
    forall i :: 0 <= i < |s| ==> s[i].Terminal?
  }

  /** `form` with its symbol at index `i` replaced by `right`. */
  function Substitute(form: seq<Symbol>, i: int, right: seq<Symbol>): seq<Symbol>
    requires 0 <= i < |form|
  {
    form[..i] + right + form[i + 1..]
  }

  /** The sentential forms derivable from `form` in one step using productions of `prods`. */
  function OneStep(prods: set<Production>, form: seq<Symbol>, upTo: int): set<seq<Symbol>>
    requires 0 <= upTo <= |form|
  {
    set i, p | 0 <= i < upTo && p in prods && form[i] == Nonterminal(p.left) :: Substitute(form, i, p.right)
  }

  function TerminalIds(s: seq<Symbol>): (r: seq<TermId>)
    requires AllTerminals(s)
    ensures |r| == |s| && forall i :: 0 <= i < |s| ==> s[i] == Terminal(r[i])
  {
    if s == [] then [] else [s[0].t] + TerminalIds(s[1..])
  }

  function FormsOf(queue: seq<(seq<Symbol>, int)>): set<seq<Symbol>>
  {
    set k | 0 <= k < |queue| :: queue[k].0
  }

  lemma FormsOfAppend(queue: seq<(seq<Symbol>, int)>, e: (seq<Symbol>, int))
    ensures FormsOf(queue + [e]) == FormsOf(queue) + {e.0}
  {
    var q := queue + [e];
    assert q[|queue|].0 == e.0;
    forall x | x in FormsOf(queue)
      ensures x in FormsOf(q)
    {
      var k :| 0 <= k < |queue| && queue[k].0 == x;
      assert q[k] == queue[k];
    }
  }

  /** `e` is a one-step substitution of `form` queued with the priority the source gives it. */
  ghost predicate ExpandsTo(prods: set<Production>, form: seq<Symbol>, prio: int, e: (seq<Symbol>, int))
  {
    exists i, p :: 0 <= i < |form| && p in prods && form[i] == Nonterminal(p.left) &&
      e == (Substitute(form, i, p.right), prio + NonterminalCount(p.right))
  }

  /** The START productions' right sides, each queued with its nonterminal count as priority. */
  method InitialForms(g: Grammar) returns (touched: set<seq<Symbol>>, queued: seq<(seq<Symbol>, int)>)
    requires WellFiled(g)
    ensures touched == set p | p in GetProductions(g, Start) :: p.right
    ensures FormsOf(queued) == touched
    ensures forall k :: 0 <= k < |queued| ==> queued[k].1 == NonterminalCount(queued[k].0)
  {
    touched := set p | p in GetProductions(g, Start) :: p.right;
    queued := [];
    var rest := touched;
    while rest != {}
      invariant rest <= touched
      invariant FormsOf(queued) == touched - rest
      invariant forall k :: 0 <= k < |queued| ==> queued[k].1 == NonterminalCount(queued[k].0)
      decreases rest
    {
      var t :| t in rest;
      rest := rest - {t};
      FormsOfAppend(queued, (t, NonterminalCount(t)));
      queued := queued + [(t, NonterminalCount(t))];
    }
  }

  /** What processing one dequeued sentential form produces. */
  datatype Step = Yield(sentence: seq<TermId>) | Expand(touched: set<seq<Symbol>>, queued: seq<(seq<Symbol>, int)>)

  /** The forms queued so far: exactly those seen but not touched before, each once, each a one-step substitution. */
  ghost predicate QueueState(prods: set<Production>, form: seq<Symbol>, prio: int, touched: set<seq<Symbol>>,
                             seen: set<seq<Symbol>>, queued: seq<(seq<Symbol>, int)>)
  {
    && FormsOf(queued) == seen - touched
    && (forall j, k :: 0 <= j < k < |queued| ==> queued[j].0 != queued[k].0)
    && (forall k :: 0 <= k < |queued| ==> ExpandsTo(prods, form, prio, queued[k]))
  }

  /** Substitute every production of the nonterminal at index `i`, queueing each new form once. */
  method ExpandAt(g: Grammar, touched: set<seq<Symbol>>, form: seq<Symbol>, prio: int, i: int,
                  seen: set<seq<Symbol>>, queued: seq<(seq<Symbol>, int)>)
    returns (seen': set<seq<Symbol>>, queued': seq<(seq<Symbol>, int)>)
    requires WellFiled(g) && 0 <= i < |form| && form[i].Nonterminal?
    requires touched <= seen && QueueState(Productions(g), form, prio, touched, seen, queued)
    ensures seen' == seen + (set p | p in GetProductions(g, form[i].n) :: Substitute(form, i, p.right))
    ensures QueueState(Productions(g), form, prio, touched, seen', queued')
  {
    var prods := GetProductions(g, form[i].n);
    var rest := prods;
    seen', queued' := seen, queued;
    while rest != {}
      invariant rest <= prods
      invariant seen' == seen + (set p | p in prods - rest :: Substitute(form, i, p.right))
      invariant QueueState(Productions(g), form, prio, touched, seen', queued')
      decreases rest
    {
      var p :| p in rest;
      rest := rest - {p};
      var copy := Substitute(form, i, p.right);
      if copy !in seen' {
        var e := (copy, prio + NonterminalCount(p.right));
        assert ExpandsTo(Productions(g), form, prio, e);
        FormsOfAppend(queued', e);
        seen' := seen' + {copy};
        queued' := queued' + [e];
      }
    }
  }

  /** The one-step substitutions up to index `i + 1`: those below `i`, and those at `i` when it holds a nonterminal. */
  lemma OneStepNext(g: Grammar, form: seq<Symbol>, i: int)
    requires WellFiled(g) && 0 <= i < |form|
    ensures form[i].Nonterminal? ==>
              OneStep(Productions(g), form, i + 1) ==
              OneStep(Productions(g), form, i) + (set p | p in GetProductions(g, form[i].n) :: Substitute(form, i, p.right))
    ensures !form[i].Nonterminal? ==> OneStep(Productions(g), form, i + 1) == OneStep(Productions(g), form, i)
  {
    var prods := Productions(g);
    if form[i].Nonterminal? {
      var at := set p | p in GetProductions(g, form[i].n) :: Substitute(form, i, p.right);
      forall x | x in OneStep(prods, form, i + 1)
        ensures x in OneStep(prods, form, i) + at
      {
        var j, p :| 0 <= j < i + 1 && p in prods && form[j] == Nonterminal(p.left) && x == Substitute(form, j, p.right);
        if j == i {
          assert p in GetProductions(g, form[i].n);
        }
      }
    }
  }

  /**
   * One round of `GenerateSentences`: an all-terminal form is yielded as a sentence; otherwise every
   * one-step substitution not yet touched is touched and queued, its priority raised by the number
   * of nonterminals the substituted right side brings in.
   */
  method ProcessForm(g: Grammar, touched: set<seq<Symbol>>, form: seq<Symbol>, prio: int) returns (r: Step)
    requires WellFiled(g)
    ensures AllTerminals(form) <==> r.Yield?
    ensures r.Yield? ==> |r.sentence| == |form| && forall i :: 0 <= i < |form| ==> form[i] == Terminal(r.sentence[i])
    ensures r.Expand? ==> r.touched == touched + OneStep(Productions(g), form, |form|)
    ensures r.Expand? ==> FormsOf(r.queued) == OneStep(Productions(g), form, |form|) - touched
    ensures r.Expand? ==> forall j, k :: 0 <= j < k < |r.queued| ==> r.queued[j].0 != r.queued[k].0
    ensures r.Expand? ==> forall k :: 0 <= k < |r.queued| ==> ExpandsTo(Productions(g), form, prio, r.queued[k])
  {
    if AllTerminals(form) {
      return Yield(TerminalIds(form));
    }
    var seen := touched;
    var queued: seq<(seq<Symbol>, int)> := [];
    var i := 0;
    while i < |form|
      invariant 0 <= i <= |form|
      invariant seen == touched + OneStep(Productions(g), form, i)
      invariant QueueState(Productions(g), form, prio, touched, seen, queued)
    {
      OneStepNext(g, form, i);
      if form[i].Nonterminal? {
        seen, queued := ExpandAt(g, touched, form, prio, i, seen, queued);
      }
      i := i + 1;
    }
    assert OneStep(Productions(g), form, |form|) - touched == seen - touched;
    return Expand(seen, queued);
  }
}
