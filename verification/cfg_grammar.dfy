/**
 * The Cfg grammar class: an explicit, optional and settable start symbol, `AddProduction` that only
 * refuses ε, start-symbol augmentation, and its own FIRST-of-sequence that collects terminals only.
 */
module Cfg {
  import opened Wrappers
  import opened Symbols
  import opened GrammarSets
  import opened Grammar

  /** A new grammar: `$` as its only terminal, no nonterminals, no start symbol, no caches. */
  function NewGrammar(): (g: Grammar)
    ensures Valid(g) && Clean(g)
    ensures g.terminals == {EndOfInput} && g.nonterminals == {} && Productions(g) == {}
    ensures g.start.None?
  {
    Grammar(None, {EndOfInput}, {}, map[], None, None, None)
  }

  /** The `StartSymbol` setter: every cache is dropped along with the old start symbol. */
  function SetStartSymbol(g: Grammar, start: Option<NtId>): (r: Grammar)
    requires WellFiled(g)
    ensures Valid(r)
    ensures r.start == start && r.nullables.None? && r.firstSets.None? && r.followSets.None?
    ensures r.terminals == g.terminals && r.nonterminals == g.nonterminals && Productions(r) == Productions(g)
  {
    InvalidateCache(g).(start := start)
  }

  /** The Cfg `AddProduction`: only ε on the right side is refused; the start symbol may appear there. */
  function AddProduction(g: Grammar, p: Production): (r: Outcome)
    requires WellFiled(g)
    ensures Valid(r.grammar) && r.grammar.start == g.start
    ensures Productions(r.grammar) == Productions(g) + {p}
    ensures r.error.Some? <==> Epsilon in p.right
    ensures r.error.None? ==>
              && r.grammar.terminals == g.terminals + TerminalsIn(p.right)
              && r.grammar.nonterminals == g.nonterminals + {p.left} + NonterminalsIn(p.right)
    ensures r.error.Some? ==> r.error.value == ArgumentError && p.left in r.grammar.nonterminals
  {
    var r := AddProductionWith(g, p, false);
    assert r.error.None? ==> p.right[..|p.right|] == p.right;
    assert Epsilon in p.right ==> r.error.Some? by {
      if Epsilon in p.right {
        var i :| 0 <= i < |p.right| && p.right[i] == Epsilon;
        assert Refused(p.right[i], false);
      }
    }
    r
  }

  /**
   * `AugmentStartSymbol`: without a start symbol it raises; otherwise the start becomes a fresh
   * nonterminal S' and the production S' -> S is added. Freshness of the marker object is modelled by
   * the serial number `serial`: when no production mentions `Fresh(S, serial)` and every right-side
   * nonterminal is recorded, the new start symbol appears on no right side.
   */
  function AugmentStartSymbol(g: Grammar, serial: nat): (r: Result<Grammar>)
    requires WellFiled(g)
    ensures g.start.None? <==> r.Failure?
    ensures r.Failure? ==> r.error == InvalidOperation
    ensures r.Success? ==>
              var old_start := g.start.value;
              var new_start := Fresh(old_start, serial);
              && Valid(r.value)
              && r.value.start == Some(new_start)
              && Productions(r.value) == Productions(g) + {Production(new_start, [Nonterminal(old_start)])}
              && r.value.nonterminals == g.nonterminals + {new_start, old_start}
              && r.value.terminals == g.terminals
    ensures r.Success? && Fresh(g.start.value, serial) !in g.nonterminals && Clean(g) ==>
              forall p :: p in Productions(r.value) ==> Nonterminal(r.value.start.value) !in p.right
  {
    if g.start.None? then Failure(InvalidOperation)
    else
      var old_start := g.start.value;
      var h := SetStartSymbol(g, Some(Fresh(old_start, serial)));
      var added := AddProduction(h, Production(Fresh(old_start, serial), [Nonterminal(old_start)]));
      assert NonterminalsIn([Nonterminal(old_start)]) == {old_start};
      assert TerminalsIn([Nonterminal(old_start)]) == {};
      FreshStartNotOnRight(g, serial, added.grammar);
      Success(added.grammar)
  }

  lemma FreshStartNotOnRight(g: Grammar, serial: nat, r: Grammar)
    requires WellFiled(g) && g.start.Some?
    requires Productions(r) == Productions(g) + {Production(Fresh(g.start.value, serial), [Nonterminal(g.start.value)])}
    ensures Fresh(g.start.value, serial) !in g.nonterminals && Clean(g) ==>
              forall p :: p in Productions(r) ==> Nonterminal(Fresh(g.start.value, serial)) !in p.right
  {
    var n := Fresh(g.start.value, serial);
    if n !in g.nonterminals && Clean(g) {
      forall p | p in Productions(r)
        ensures Nonterminal(n) !in p.right
      {
        if p in Productions(g) {
          assert KnownProduction(p, g.terminals, g.nonterminals);
        } else {
          assert p.right == [Nonterminal(g.start.value)];
          assert g.start.value != n;
        }
      }
    }
  }

  /**
   * The Cfg `FirstSet(sequence)`: only terminals are collected, and ε is added when every symbol derives
   * it. This is `FirstOfSequence`; the empty sequence gives {ε} without consulting FIRST.
   */
  method FirstSetOfSequence(g: Grammar, s: seq<Symbol>) returns (r: Result<set<Symbol>>, g': Grammar)
    requires Valid(g)
    ensures Valid(g') && SameContent(g, g')
    ensures s == [] ==> r == Success({Epsilon})
    ensures r.Success? ==> forall x :: x in r.value ==> x.Terminal? || x == Epsilon
    ensures r.Success? ==> forall f :: IsFirstSets(Productions(g), g.terminals, g.nonterminals, f) ==> r == FirstOfSequence(f, s)
    ensures Clean(g) ==> forall f :: IsFirstSets(Productions(g), g.terminals, g.nonterminals, f) ==> r == FirstOfSequence(f, s)
  {
    if s == [] {
      return Success({Epsilon}), g;
    }
    if s[0].Epsilon? {
      return Failure(ArgumentOutOfRange), g;
    }
    var firstSets;
    firstSets, g' := FirstSets(g);
    if firstSets.Failure? {
      return Failure(firstSets.error), g';
    }
    r := FirstOfSequence(firstSets.value, s);
    forall f | IsFirstSets(Productions(g), g.terminals, g.nonterminals, f)
      ensures f == firstSets.value
    {
      FirstSetsUnique(Productions(g), g.terminals, g.nonterminals, f, firstSets.value);
    }
  }
}
