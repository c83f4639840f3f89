/**
 * The nullable, FIRST and FOLLOW fixpoint computations. Both grammar variants run the same three loops
 * over their production set, so they are modelled once here over the grammar's raw parts. The order in
 * which a pass visits the productions is the hash order of the source's collections and is left open
 * (`:|`); every result is characterised as the LEAST solution of its equations, which no order changes.
 */
module GrammarSets {
  import opened Wrappers
  import opened Symbols

  type FirstMap = map<Symbol, set<Symbol>>
  type FollowMap = map<NtId, set<TermId>>

  function Pairs<A, B>(a: set<A>, b: set<B>): set<(A, B)>
  {
    set x, y {:trigger x in a, y in b} | x in a && y in b :: (x, y)
  }

  // ------------------------------------------------------------------ nullable

  /** Every symbol of `right` is a nonterminal already known to be nullable. */
  predicate AllNullable(right: seq<Symbol>, nullable: set<NtId>)
  {
    forall i :: 0 <= i < |right| ==> right[i].Nonterminal? && right[i].n in nullable
  }

  ghost predicate NullableClosed(prods: set<Production>, nullable: set<NtId>)
  {
    forall p :: p in prods && AllNullable(p.right, nullable) ==> p.left in nullable
  }

  /** `nullable` is the least set closed under "a production of nullables makes its left side nullable". */
  ghost predicate IsNullableSet(prods: set<Production>, nullable: set<NtId>)
  {
    NullableClosed(prods, nullable) && forall x :: NullableClosed(prods, x) ==> nullable <= x
  }

  method CalculateNullables(prods: set<Production>) returns (nullable: set<NtId>)
    ensures IsNullableSet(prods, nullable)
    ensures nullable <= Lefts(prods)
  {
    nullable := set p | p in prods && p.right == [] :: p.left;
    while true
      invariant nullable <= Lefts(prods)
      invariant forall x :: NullableClosed(prods, x) ==> nullable <= x
      decreases |Lefts(prods)| - |nullable|
    {
      ghost var before := nullable;
      var change := false;
      var rest := prods;
      while rest != {}
        invariant rest <= prods
        invariant before <= nullable <= Lefts(prods)
        invariant change <==> nullable != before
        invariant forall x :: NullableClosed(prods, x) ==> nullable <= x
        invariant !change ==> forall p :: p in prods - rest && AllNullable(p.right, nullable) ==> p.left in nullable
        decreases rest
      {
        var p :| p in rest;
        rest := rest - {p};
        if AllNullable(p.right, nullable) {
          change := p.left !in nullable || change;
          nullable := nullable + {p.left};
        }
      }
      SubsetCard(before, nullable);
      SubsetCard(nullable, Lefts(prods));
      if !change {
        return;
      }
    }
  }

  // ------------------------------------------------------------------ FIRST

  /** A symbol with an entry in the FIRST map; ε never has one (asking for it raises). */
  predicate Known(first: FirstMap, x: Symbol)
  {
    !x.Epsilon? && x in first
  }

  /** The first `i` symbols of `s` all have FIRST sets, each containing ε. */
  predicate PrefixNullable(first: FirstMap, s: seq<Symbol>, i: int)
    requires 0 <= i <= |s|
  {
    forall j :: 0 <= j < i ==> Known(first, s[j]) && Epsilon in first[s[j]]
  }

  function TerminalPart(s: set<Symbol>): (r: set<Symbol>)
    ensures forall x :: x in r <==> x in s && x.Terminal?
  {
    set x | x in s && x.Terminal?
  }

  /** The keys of the FIRST map: `#`, every terminal and every nonterminal. */
  function FirstKeys(terminals: set<TermId>, nonterminals: set<NtId>): (r: set<Symbol>)
    ensures forall x :: x in r <==> x == SentinelSym || (x.Terminal? && x.t in terminals) || (x.Nonterminal? && x.n in nonterminals)
  {
    {SentinelSym} + (set t | t in terminals :: Terminal(t)) + (set n | n in nonterminals :: Nonterminal(n))
  }

  /** Everything a FIRST set may hold. */
  function FirstUniverse(terminals: set<TermId>): (r: set<Symbol>)
    ensures forall x :: x in r <==> x == SentinelSym || x == Epsilon || (x.Terminal? && x.t in terminals)
  {
    {SentinelSym, Epsilon} + (set t | t in terminals :: Terminal(t))
  }

  /** The FIRST equations contributed by one production. */
  ghost predicate ProductionFirstClosed(first: FirstMap, p: Production)
  {
    && Nonterminal(p.left) in first
    && (forall i :: 0 <= i < |p.right| && PrefixNullable(first, p.right, i) && Known(first, p.right[i]) ==>
          TerminalPart(first[p.right[i]]) <= first[Nonterminal(p.left)])
    && (PrefixNullable(first, p.right, |p.right|) ==> Epsilon in first[Nonterminal(p.left)])
  }

  /** A map over the FIRST keys that satisfies every FIRST equation. */
  ghost predicate FirstSolution(prods: set<Production>, terminals: set<TermId>, nonterminals: set<NtId>, first: FirstMap)
  {
    && first.Keys == FirstKeys(terminals, nonterminals)
    && (forall x :: x in first && x.Terminal? ==> x in first[x])
    && forall p :: p in prods ==> ProductionFirstClosed(first, p)
  }

  ghost predicate Below(a: FirstMap, b: FirstMap)
  {
    forall x :: x in a ==> x in b && a[x] <= b[x]
  }

  predicate FirstShape(terminals: set<TermId>, nonterminals: set<NtId>, first: FirstMap)
  {
    && first.Keys == FirstKeys(terminals, nonterminals)
    && (forall x :: x in first && x.Terminal? ==> first[x] == {x})
    && (forall x :: x in first ==> first[x] <= FirstUniverse(terminals))
  }

  /** `first` is the least solution of the FIRST equations. */
  ghost predicate IsFirstSets(prods: set<Production>, terminals: set<TermId>, nonterminals: set<NtId>, first: FirstMap)
  {
    && FirstShape(terminals, nonterminals, first)
    && FirstSolution(prods, terminals, nonterminals, first)
    && forall other :: FirstSolution(prods, terminals, nonterminals, other) ==> Below(first, other)
  }

  /** A production whose left side and every right-side symbol the grammar knows (no ε). */
  predicate KnownProduction(p: Production, terminals: set<TermId>, nonterminals: set<NtId>)
  {
    p.left in nonterminals && KnownSymbols(p.right, terminals, nonterminals)
  }

  function FilledFirst(first: FirstMap, nonterminals: set<NtId>, universe: set<Symbol>): set<(NtId, Symbol)>
  {
    set n, x | n in nonterminals && x in universe && Nonterminal(n) in first && x in first[Nonterminal(n)] :: (n, x)
  }

  /** `first` lies below every solution of the FIRST equations. */
  ghost predicate FirstSound(prods: set<Production>, terminals: set<TermId>, nonterminals: set<NtId>, first: FirstMap)
  {
    forall other :: FirstSolution(prods, terminals, nonterminals, other) ==> Below(first, other)
  }

  /** Adding to a FIRST entry what every solution also holds keeps the map sound. */
  lemma AddKeepsSound(prods: set<Production>, terminals: set<TermId>, nonterminals: set<NtId>,
                      first: FirstMap, key: Symbol, extra: set<Symbol>)
    requires key in first
    requires FirstSound(prods, terminals, nonterminals, first)
    requires forall other :: FirstSolution(prods, terminals, nonterminals, other) ==> key in other && extra <= other[key]
    ensures FirstSound(prods, terminals, nonterminals, first[key := first[key] + extra])
  {
  }

  /** One walk step of the FIRST pass adds nothing beyond what every solution holds. */
  lemma AddStep(prods: set<Production>, terminals: set<TermId>, nonterminals: set<NtId>,
                first: FirstMap, p: Production, i: int)
    requires p in prods && Nonterminal(p.left) in first
    requires 0 <= i < |p.right| && PrefixNullable(first, p.right, i) && Known(first, p.right[i])
    requires FirstSound(prods, terminals, nonterminals, first)
    ensures FirstSound(prods, terminals, nonterminals,
              first[Nonterminal(p.left) := first[Nonterminal(p.left)] + TerminalPart(first[p.right[i]])])
  {
    forall other | FirstSolution(prods, terminals, nonterminals, other)
      ensures Nonterminal(p.left) in other && TerminalPart(first[p.right[i]]) <= other[Nonterminal(p.left)]
    {
      assert Below(first, other);
      assert ProductionFirstClosed(other, p);
      assert PrefixNullable(other, p.right, i);
    }
    AddKeepsSound(prods, terminals, nonterminals, first, Nonterminal(p.left), TerminalPart(first[p.right[i]]));
  }

  /** Adding ε after a walk through nullable symbols stays below every solution. */
  lemma EpsilonStep(prods: set<Production>, terminals: set<TermId>, nonterminals: set<NtId>,
                    first: FirstMap, p: Production)
    requires p in prods && Nonterminal(p.left) in first
    requires PrefixNullable(first, p.right, |p.right|)
    requires FirstSound(prods, terminals, nonterminals, first)
    ensures FirstSound(prods, terminals, nonterminals, first[Nonterminal(p.left) := first[Nonterminal(p.left)] + {Epsilon}])
  {
    forall other | FirstSolution(prods, terminals, nonterminals, other)
      ensures Nonterminal(p.left) in other && {Epsilon} <= other[Nonterminal(p.left)]
    {
      assert Below(first, other);
      assert ProductionFirstClosed(other, p);
      assert PrefixNullable(other, p.right, |p.right|);
    }
    AddKeepsSound(prods, terminals, nonterminals, first, Nonterminal(p.left), {Epsilon});
  }

  /** Growing one nonterminal entry by `extra` grows the filled pairs, strictly when `extra` is new. */
  lemma GrowFilled(first: FirstMap, nonterminals: set<NtId>, universe: set<Symbol>, n: NtId, extra: set<Symbol>)
    requires n in nonterminals && Nonterminal(n) in first && extra <= universe
    ensures FilledFirst(first, nonterminals, universe) <= FilledFirst(first[Nonterminal(n) := first[Nonterminal(n)] + extra], nonterminals, universe)
    ensures !(extra <= first[Nonterminal(n)]) ==>
      FilledFirst(first, nonterminals, universe) < FilledFirst(first[Nonterminal(n) := first[Nonterminal(n)] + extra], nonterminals, universe)
  {
    if !(extra <= first[Nonterminal(n)]) {
      var x :| x in extra && x !in first[Nonterminal(n)];
      assert (n, x) in FilledFirst(first[Nonterminal(n) := first[Nonterminal(n)] + extra], nonterminals, universe);
    }
  }

  /** A walk that added nothing new leaves the production's FIRST equation satisfied. */
  lemma WalkClosed(first: FirstMap, p: Production, i: int, stopped: bool)
    requires Nonterminal(p.left) in first
    requires 0 <= i <= |p.right| && PrefixNullable(first, p.right, i)
    requires forall j :: 0 <= j < i ==> TerminalPart(first[p.right[j]]) <= first[Nonterminal(p.left)]
    requires stopped ==> i < |p.right| && Known(first, p.right[i]) && Epsilon !in first[p.right[i]] &&
                         TerminalPart(first[p.right[i]]) <= first[Nonterminal(p.left)]
    requires !stopped ==> i == |p.right| && Epsilon in first[Nonterminal(p.left)]
    ensures ProductionFirstClosed(first, p)
  {
    if stopped {
      assert !PrefixNullable(first, p.right, |p.right|);
      forall k | i < k < |p.right|
        ensures !PrefixNullable(first, p.right, k)
      {
        assert p.right[i] == p.right[i];
      }
    }
  }

  /**
   * The state of the FIRST walk along `p.right` after `i` symbols: `cur` grows `first` soundly, the
   * walked prefix derives ε, and when nothing changed yet the walked symbols' terminals were already in
   * FIRST(left). `stopped` says the walk halted at symbol `i`, which does not derive ε.
   */
  ghost predicate WalkState(prods: set<Production>, terminals: set<TermId>, nonterminals: set<NtId>,
                            first: FirstMap, p: Production, cur: FirstMap, changed: bool, i: int, stopped: bool)
  {
    && Nonterminal(p.left) in cur && p in prods
    && 0 <= i <= |p.right|
    && FirstShape(terminals, nonterminals, cur) && FirstSound(prods, terminals, nonterminals, cur)
    && Below(first, cur)
    && (!changed ==> cur == first)
    && (changed ==> FilledFirst(first, nonterminals, FirstUniverse(terminals)) < FilledFirst(cur, nonterminals, FirstUniverse(terminals)))
    && PrefixNullable(cur, p.right, i)
    && (!changed ==> forall j :: 0 <= j < i ==> TerminalPart(cur[p.right[j]]) <= cur[Nonterminal(p.left)])
    && (stopped ==>
          i < |p.right| && Known(cur, p.right[i]) && Epsilon !in cur[p.right[i]] &&
          (!changed ==> TerminalPart(cur[p.right[i]]) <= cur[Nonterminal(p.left)]))
  }

  /** Adding the terminals of the next known symbol to FIRST(left) advances the walk. */
  lemma WalkStep(prods: set<Production>, terminals: set<TermId>, nonterminals: set<NtId>,
                 first: FirstMap, p: Production, cur: FirstMap, changed: bool, i: int)
    requires WalkState(prods, terminals, nonterminals, first, p, cur, changed, i, false)
    requires i < |p.right| && p.right[i] in cur
    ensures var left := Nonterminal(p.left);
            var symFirst := cur[p.right[i]];
            WalkState(prods, terminals, nonterminals, first, p,
                      cur[left := cur[left] + TerminalPart(symFirst)],
                      !(TerminalPart(symFirst) <= cur[left]) || changed,
                      if Epsilon in symFirst then i + 1 else i, Epsilon !in symFirst)
  {
    var left := Nonterminal(p.left);
    var symFirst := cur[p.right[i]];
    var cur' := cur[left := cur[left] + TerminalPart(symFirst)];
    assert Known(cur, p.right[i]);
    AddStep(prods, terminals, nonterminals, cur, p, i);
    GrowFilled(cur, nonterminals, FirstUniverse(terminals), p.left, TerminalPart(symFirst));
    if TerminalPart(symFirst) <= cur[left] {
      assert cur[left] + TerminalPart(symFirst) == cur[left];
      assert cur' == cur;
    }
    assert Below(cur, cur');
  }

  /** Adding ε to FIRST(left) after walking the whole right side keeps the walk state. */
  lemma WalkEpsilon(prods: set<Production>, terminals: set<TermId>, nonterminals: set<NtId>,
                    first: FirstMap, p: Production, cur: FirstMap, changed: bool)
    requires WalkState(prods, terminals, nonterminals, first, p, cur, changed, |p.right|, false)
    ensures var left := Nonterminal(p.left);
            var cur' := cur[left := cur[left] + {Epsilon}];
            && WalkState(prods, terminals, nonterminals, first, p, cur', Epsilon !in cur[left] || changed, |p.right|, false)
            && Epsilon in cur'[left]
  {
    var left := Nonterminal(p.left);
    EpsilonStep(prods, terminals, nonterminals, cur, p);
    GrowFilled(cur, nonterminals, FirstUniverse(terminals), p.left, {Epsilon});
    if Epsilon in cur[left] {
      assert cur[left] + {Epsilon} == cur[left];
      assert cur[left := cur[left]] == cur;
    }
  }

  /**
   * The body of one FIRST pass for one production: walk the right side while it derives ε, adding the
   * terminals met to FIRST(left), then ε if the whole side derives ε.
   */
  method FirstWalk(prods: set<Production>, terminals: set<TermId>, nonterminals: set<NtId>, first: FirstMap, p: Production)
    returns (r: Result<FirstMap>, changed: bool)
    requires p in prods
    requires FirstShape(terminals, nonterminals, first) && FirstSound(prods, terminals, nonterminals, first)
    ensures r.Failure? ==> r.error == KeyNotFound && !KnownProduction(p, terminals, nonterminals)
    ensures r.Success? ==> FirstShape(terminals, nonterminals, r.value) && FirstSound(prods, terminals, nonterminals, r.value)
    ensures r.Success? ==> Below(first, r.value)
    ensures r.Success? && !changed ==> r.value == first && ProductionFirstClosed(first, p)
    ensures r.Success? && changed ==>
      FilledFirst(first, nonterminals, FirstUniverse(terminals)) < FilledFirst(r.value, nonterminals, FirstUniverse(terminals))
  {
    var cur := first;
    changed := false;
    var left := Nonterminal(p.left);
    if left !in cur {
      return Failure(KeyNotFound), false;
    }
    var i := 0;
    var derivesEpsilon := true;
    while i < |p.right| && derivesEpsilon
      invariant WalkState(prods, terminals, nonterminals, first, p, cur, changed, i, !derivesEpsilon)
      decreases |p.right| - i, derivesEpsilon
    {
      var sym := p.right[i];
      if sym !in cur {
        assert !KnownSymbols(p.right, terminals, nonterminals);
        return Failure(KeyNotFound), false;
      }
      var symFirst := cur[sym];
      WalkStep(prods, terminals, nonterminals, first, p, cur, changed, i);
      changed := !(TerminalPart(symFirst) <= cur[left]) || changed;
      cur := cur[left := cur[left] + TerminalPart(symFirst)];
      if Epsilon !in symFirst {
        derivesEpsilon := false;
      } else {
        i := i + 1;
      }
    }
    if derivesEpsilon {
      WalkEpsilon(prods, terminals, nonterminals, first, p, cur, changed);
      changed := Epsilon !in cur[left] || changed;
      cur := cur[left := cur[left] + {Epsilon}];
    }
    if !changed {
      WalkClosed(first, p, i, !derivesEpsilon);
    }
    return Success(cur), changed;
  }

  method CalculateFirstSets(prods: set<Production>, terminals: set<TermId>, nonterminals: set<NtId>)
    returns (r: Result<FirstMap>)
    ensures r.Success? ==> IsFirstSets(prods, terminals, nonterminals, r.value)
    ensures r.Failure? ==> r.error == KeyNotFound
    ensures r.Failure? ==> exists p :: p in prods && !KnownProduction(p, terminals, nonterminals)
    ensures (forall p :: p in prods ==> KnownProduction(p, terminals, nonterminals)) ==> r.Success?
  {
    var keys := FirstKeys(terminals, nonterminals);
    ghost var universe := FirstUniverse(terminals);
    var first: FirstMap := map x | x in keys :: if x.Terminal? then {x} else {};
    while true
      invariant FirstShape(terminals, nonterminals, first) && FirstSound(prods, terminals, nonterminals, first)
      invariant FilledFirst(first, nonterminals, universe) <= Pairs(nonterminals, universe)
      decreases |Pairs(nonterminals, universe)| - |FilledFirst(first, nonterminals, universe)|
    {
      ghost var before := first;
      var change := false;
      var rest := prods;
      while rest != {}
        invariant rest <= prods
        invariant FirstShape(terminals, nonterminals, first) && FirstSound(prods, terminals, nonterminals, first)
        invariant Below(before, first)
        invariant !change ==> first == before
        invariant change ==> FilledFirst(before, nonterminals, universe) < FilledFirst(first, nonterminals, universe)
        invariant !change ==> forall p :: p in prods - rest ==> ProductionFirstClosed(first, p)
        decreases rest
      {
        var p :| p in rest;
        rest := rest - {p};
        var step, changed := FirstWalk(prods, terminals, nonterminals, first, p);
        if step.Failure? {
          return Failure(step.error);
        }
        assert FilledFirst(first, nonterminals, universe) <= FilledFirst(step.value, nonterminals, universe);
        first := step.value;
        change := changed || change;
      }
      SubsetCard(FilledFirst(before, nonterminals, universe), FilledFirst(first, nonterminals, universe));
      SubsetCard(FilledFirst(first, nonterminals, universe), Pairs(nonterminals, universe));
      if !change {
        return Success(first);
      }
    }
  }

  // ------------------------------------------------------------------ FIRST of a sequence

  /** FIRST of one symbol: ε has none (ArgumentOutOfRange), a symbol missing from the map raises KeyNotFound. */
  function FirstOfSymbol(first: FirstMap, x: Symbol): (r: Result<set<Symbol>>)
    ensures r.Success? <==> Known(first, x)
    ensures r.Success? ==> r.value == first[x]
    ensures r.Failure? ==> (r.error == ArgumentOutOfRange <==> x.Epsilon?)
  {
    if x.Epsilon? then Failure(ArgumentOutOfRange)
    else if x !in first then Failure(KeyNotFound)
    else Success(first[x])
  }

  lemma PrefixNullableTail(first: FirstMap, s: seq<Symbol>, i: int)
    requires |s| > 0 && 0 <= i < |s|
    ensures PrefixNullable(first, s, i + 1) <==> (Known(first, s[0]) && Epsilon in first[s[0]] && PrefixNullable(first, s[1..], i))
  {
    if Known(first, s[0]) && Epsilon in first[s[0]] && PrefixNullable(first, s[1..], i) {
      forall j | 0 <= j < i + 1
        ensures Known(first, s[j]) && Epsilon in first[s[j]]
      {
        if j > 0 {
          assert s[j] == s[1..][j - 1];
        }
      }
    }
    if PrefixNullable(first, s, i + 1) {
      forall j | 0 <= j < i
        ensures Known(first, s[1..][j]) && Epsilon in first[s[1..][j]]
      {
        assert s[1..][j] == s[j + 1];
      }
    }
  }

  /**
   * FIRST of a symbol sequence: the terminals of each symbol's FIRST set, walking left to right while
   * the symbols derive ε, plus ε exactly when every symbol does. Fails when the walk reaches ε or a
   * symbol without a FIRST set.
   */
  function FirstOfSequence(first: FirstMap, s: seq<Symbol>): (r: Result<set<Symbol>>)
    ensures r.Success? <==> forall i :: 0 <= i < |s| && PrefixNullable(first, s, i) ==> Known(first, s[i])
    ensures r.Success? ==> (Epsilon in r.value <==> PrefixNullable(first, s, |s|))
    ensures r.Success? ==> forall x: Symbol :: x.Terminal? ==>
              (x in r.value <==> exists i :: 0 <= i < |s| && PrefixNullable(first, s, i) && Known(first, s[i]) && x in first[s[i]])
    ensures r.Success? ==> forall x: Symbol :: x in r.value ==> x.Terminal? || x == Epsilon
    ensures r.Failure? ==> forall i :: 0 <= i < |s| && PrefixNullable(first, s, i) && !Known(first, s[i]) ==>
              r.error == FirstOfSymbol(first, s[i]).error
    ensures r.Failure? ==> r.error == ArgumentOutOfRange || r.error == KeyNotFound
    decreases |s|
  {
    if s == [] then Success({Epsilon})
    else
      var head :- FirstOfSymbol(first, s[0]);
      if Epsilon in head then
        var rest := FirstOfSequence(first, s[1..]);
        if rest.Failure? then
          FirstOfSequenceFailure(first, s, rest.error);
          Failure(rest.error)
        else
        var tail := rest.value;
        FirstOfSequenceCons(first, s, tail);
        Success(TerminalPart(head) + tail)
      else
        FirstOfSequenceStop(first, s);
        Success(TerminalPart(head))
  }

  lemma FirstOfSequenceFailure(first: FirstMap, s: seq<Symbol>, e: Exception)
    requires |s| > 0 && Known(first, s[0]) && Epsilon in first[s[0]]
    requires forall i :: 0 <= i < |s| - 1 && PrefixNullable(first, s[1..], i) && !Known(first, s[1..][i]) ==>
               e == FirstOfSymbol(first, s[1..][i]).error
    ensures forall i :: 0 <= i < |s| && PrefixNullable(first, s, i) && !Known(first, s[i]) ==>
              e == FirstOfSymbol(first, s[i]).error
  {
    forall i | 0 <= i < |s| && PrefixNullable(first, s, i) && !Known(first, s[i])
      ensures e == FirstOfSymbol(first, s[i]).error
    {
      assert i > 0;
      PrefixNullableTail(first, s, i - 1);
      assert s[1..][i - 1] == s[i];
    }
  }

  lemma FirstOfSequenceStop(first: FirstMap, s: seq<Symbol>)
    requires |s| > 0 && Known(first, s[0]) && Epsilon !in first[s[0]]
    ensures forall i :: 0 < i <= |s| ==> !PrefixNullable(first, s, i)
  {
  }

  lemma FirstOfSequenceCons(first: FirstMap, s: seq<Symbol>, tail: set<Symbol>)
    requires |s| > 0 && Known(first, s[0]) && Epsilon in first[s[0]]
    requires forall i :: 0 <= i < |s| - 1 && PrefixNullable(first, s[1..], i) ==> Known(first, s[1..][i])
    requires Epsilon in tail <==> PrefixNullable(first, s[1..], |s| - 1)
    requires forall x: Symbol :: x.Terminal? ==>
      (x in tail <==> exists i :: 0 <= i < |s| - 1 && PrefixNullable(first, s[1..], i) && Known(first, s[1..][i]) && x in first[s[1..][i]])
    ensures forall i :: 0 <= i < |s| && PrefixNullable(first, s, i) ==> Known(first, s[i])
    ensures Epsilon in tail <==> PrefixNullable(first, s, |s|)
    ensures forall x: Symbol :: x.Terminal? ==>
      (x in TerminalPart(first[s[0]]) + tail <==> exists i :: 0 <= i < |s| && PrefixNullable(first, s, i) && Known(first, s[i]) && x in first[s[i]])
  {
    forall i | 0 <= i < |s| && PrefixNullable(first, s, i)
      ensures Known(first, s[i])
    {
      if i > 0 {
        PrefixNullableTail(first, s, i - 1);
        assert s[1..][i - 1] == s[i];
      }
    }
    PrefixNullableTail(first, s, |s| - 1);
    forall x: Symbol | x.Terminal?
      ensures x in TerminalPart(first[s[0]]) + tail <==>
              exists i :: 0 <= i < |s| && PrefixNullable(first, s, i) && Known(first, s[i]) && x in first[s[i]]
    {
      if x in tail && x !in first[s[0]] {
        var i :| 0 <= i < |s| - 1 && PrefixNullable(first, s[1..], i) && Known(first, s[1..][i]) && x in first[s[1..][i]];
        PrefixNullableTail(first, s, i);
        assert s[1..][i] == s[i + 1];
      }
      if exists i :: 0 <= i < |s| && PrefixNullable(first, s, i) && Known(first, s[i]) && x in first[s[i]] {
        var i :| 0 <= i < |s| && PrefixNullable(first, s, i) && Known(first, s[i]) && x in first[s[i]];
        if i > 0 {
          PrefixNullableTail(first, s, i - 1);
          assert s[1..][i - 1] == s[i];
        }
      }
    }
  }

  /** The FIRST map when its computation succeeded, and the empty map (no symbol answered) when it raised. */
  function FirstOrEmpty(fs: Result<FirstMap>): FirstMap
  {
    if fs.Success? then fs.value else map[]
  }

  /**
   * FIRST of a sequence with FIRST itself computed on first use: the empty sequence and a leading ε are
   * answered before FIRST is needed; otherwise the outcome `fs` of computing FIRST decides, and its
   * failure is what the lookup raises.
   */
  function LazyFirstOfSequence(fs: Result<FirstMap>, s: seq<Symbol>): (r: Result<set<Symbol>>)
    ensures s == [] ==> r == Success({Epsilon})
    ensures s != [] && s[0].Epsilon? ==> r == Failure(ArgumentOutOfRange)
    ensures fs.Success? ==> r == FirstOfSequence(fs.value, s)
    ensures r.Failure? ==> r.error == ArgumentOutOfRange || r.error == KeyNotFound || (fs.Failure? && r.error == fs.error)
  {
    if s != [] && s[0].Epsilon? then Failure(ArgumentOutOfRange)
    else if s != [] && fs.Failure? then Failure(fs.error)
    else FirstOfSequence(FirstOrEmpty(fs), s)
  }

  /**
   * When computing FIRST raises KeyNotFound, the lazy lookup behaves as the eager one over the empty
   * map: every lookup that would need FIRST raises KeyNotFound, the others are unaffected.
   */
  lemma LazyFirstWithoutFirst(s: seq<Symbol>)
    ensures LazyFirstOfSequence(Failure(KeyNotFound), s) == FirstOfSequence(map[], s)
  {
    if s != [] && !s[0].Epsilon? {
      assert FirstOfSymbol(map[], s[0]) == Failure(KeyNotFound);
    }
  }

  /** A sequence whose every symbol has a FIRST set has a FIRST set. */
  lemma KnownSequenceFirst(first: FirstMap, s: seq<Symbol>)
    requires forall i :: 0 <= i < |s| ==> Known(first, s[i])
    ensures FirstOfSequence(first, s).Success?
  {
  }

  /** Symbols the grammar records all have FIRST sets. */
  lemma KnownSymbolsKnown(first: FirstMap, terminals: set<TermId>, nonterminals: set<NtId>, s: seq<Symbol>)
    requires FirstShape(terminals, nonterminals, first)
    requires KnownSymbols(s, terminals, nonterminals)
    ensures forall i :: 0 <= i < |s| ==> Known(first, s[i])
  {
    forall i | 0 <= i < |s|
      ensures Known(first, s[i])
    {
      assert s[i] in FirstKeys(terminals, nonterminals);
    }
  }

  /** Every terminal a FIRST set holds has a FIRST set itself. */
  lemma FirstTerminalsKnown(first: FirstMap, terminals: set<TermId>, nonterminals: set<NtId>, t: TermId)
    requires FirstShape(terminals, nonterminals, first)
    requires t in FirstTerminals(first)
    ensures Known(first, Terminal(t))
  {
    var x :| x in first && Terminal(t) in first[x];
    assert Terminal(t) in FirstUniverse(terminals);
  }

  // ------------------------------------------------------------------ FOLLOW

  /** The FOLLOW equations contributed by the occurrence of a nonterminal at index `i` of `p`. */
  ghost predicate OccurrenceFollowClosed(first: FirstMap, follow: FollowMap, p: Production, i: int)
    requires 0 <= i < |p.right| && p.right[i].Nonterminal?
  {
    && p.left in follow
    && p.right[i].n in follow
    && FirstOfSequence(first, p.right[i + 1..]).Success?
    && TerminalsOf(FirstOfSequence(first, p.right[i + 1..]).value) <= follow[p.right[i].n]
    && (Epsilon in FirstOfSequence(first, p.right[i + 1..]).value ==> follow[p.left] <= follow[p.right[i].n])
  }

  ghost predicate ProductionFollowClosed(first: FirstMap, follow: FollowMap, p: Production)
  {
    && p.left in follow
    && forall i :: 0 <= i < |p.right| && p.right[i].Nonterminal? ==> OccurrenceFollowClosed(first, follow, p, i)
  }

  /** A map over the nonterminals with `$` in FOLLOW(start) satisfying every FOLLOW equation. */
  ghost predicate FollowSolution(prods: set<Production>, nonterminals: set<NtId>, first: FirstMap, start: NtId, follow: FollowMap)
  {
    && follow.Keys == nonterminals
    && start in follow && EndOfInput in follow[start]
    && forall p :: p in prods ==> ProductionFollowClosed(first, follow, p)
  }

  ghost predicate FollowBelow(a: FollowMap, b: FollowMap)
  {
    forall n :: n in a ==> n in b && a[n] <= b[n]
  }

  ghost predicate FollowSound(prods: set<Production>, nonterminals: set<NtId>, first: FirstMap, start: NtId, follow: FollowMap)
  {
    forall other :: FollowSolution(prods, nonterminals, first, start, other) ==> FollowBelow(follow, other)
  }

  /** Every terminal appearing in some FIRST set. */
  function FirstTerminals(first: FirstMap): (r: set<TermId>)
    ensures forall t :: t in r <==> exists x :: x in first && Terminal(t) in first[x]
  {
    set x, y {:trigger y in first[x]} | x in first && y in first[x] && y.Terminal? :: y.t
  }

  /** Everything a FOLLOW set may hold: `$` and the terminals of the FIRST sets. */
  function FollowUniverse(first: FirstMap): set<TermId>
  {
    {EndOfInput} + FirstTerminals(first)
  }

  predicate FollowShape(nonterminals: set<NtId>, first: FirstMap, follow: FollowMap)
  {
    follow.Keys == nonterminals && forall n :: n in follow ==> follow[n] <= FollowUniverse(first)
  }

  /** `follow` is the least solution of the FOLLOW equations. */
  ghost predicate IsFollowSets(prods: set<Production>, nonterminals: set<NtId>, first: FirstMap, start: NtId, follow: FollowMap)
  {
    && FollowShape(nonterminals, first, follow)
    && FollowSolution(prods, nonterminals, first, start, follow)
    && FollowSound(prods, nonterminals, first, start, follow)
  }

  /** Every lookup the FOLLOW pass makes for `p` succeeds. */
  predicate FollowDefined(p: Production, nonterminals: set<NtId>, first: FirstMap)
  {
    && p.left in nonterminals
    && forall i :: 0 <= i < |p.right| && p.right[i].Nonterminal? ==>
         p.right[i].n in nonterminals && FirstOfSequence(first, p.right[i + 1..]).Success?
  }

  /** Every lookup the FOLLOW pass makes succeeds for a production over recorded symbols. */
  lemma KnownFollowDefined(p: Production, terminals: set<TermId>, nonterminals: set<NtId>, first: FirstMap)
    requires FirstShape(terminals, nonterminals, first)
    requires KnownProduction(p, terminals, nonterminals)
    ensures FollowDefined(p, nonterminals, first)
  {
    KnownSymbolsKnown(first, terminals, nonterminals, p.right);
    forall i | 0 <= i < |p.right| && p.right[i].Nonterminal?
      ensures p.right[i].n in nonterminals && FirstOfSequence(first, p.right[i + 1..]).Success?
    {
      var rest := p.right[i + 1..];
      forall j | 0 <= j < |rest|
        ensures Known(first, rest[j])
      {
        assert rest[j] == p.right[i + 1 + j];
      }
      KnownSequenceFirst(first, rest);
    }
  }

  /** With every FOLLOW lookup defined over the empty FIRST map, no nonterminal has anything after it. */
  lemma NothingAfterNonterminals(p: Production, nonterminals: set<NtId>, i: int)
    requires FollowDefined(p, nonterminals, map[])
    requires 0 <= i < |p.right| && p.right[i].Nonterminal?
    ensures p.right[i + 1..] == []
  {
  }

  /** The FOLLOW equations of a grammar whose nonterminals have nothing after them do not read FIRST. */
  lemma FollowEquationsWithoutFirst(prods: set<Production>, nonterminals: set<NtId>, first: FirstMap, start: NtId, other: FollowMap)
    requires forall p :: p in prods ==> FollowDefined(p, nonterminals, map[])
    ensures FollowSolution(prods, nonterminals, first, start, other) <==> FollowSolution(prods, nonterminals, map[], start, other)
  {
    forall p, i | p in prods && 0 <= i < |p.right| && p.right[i].Nonterminal?
      ensures OccurrenceFollowClosed(first, other, p, i) <==> OccurrenceFollowClosed(map[], other, p, i)
    {
      NothingAfterNonterminals(p, nonterminals, i);
    }
  }

  /**
   * A FOLLOW map computed without FIRST, because no lookup needed it, is the least FOLLOW map for
   * every FIRST map: filling the FIRST cache later keeps a cached FOLLOW map correct.
   */
  lemma FollowWithoutFirst(prods: set<Production>, nonterminals: set<NtId>, first: FirstMap, start: NtId, follow: FollowMap)
    requires forall p :: p in prods ==> FollowDefined(p, nonterminals, map[])
    requires IsFollowSets(prods, nonterminals, map[], start, follow)
    ensures IsFollowSets(prods, nonterminals, first, start, follow)
  {
    FollowEquationsWithoutFirst(prods, nonterminals, first, start, follow);
    forall other | FollowSolution(prods, nonterminals, first, start, other)
      ensures FollowBelow(follow, other)
    {
      FollowEquationsWithoutFirst(prods, nonterminals, first, start, other);
    }
  }

  function FilledFollow(follow: FollowMap, nonterminals: set<NtId>, universe: set<TermId>): set<(NtId, TermId)>
  {
    set n, x | n in nonterminals && x in universe && n in follow && x in follow[n] :: (n, x)
  }

  lemma GrowFollow(follow: FollowMap, nonterminals: set<NtId>, universe: set<TermId>, n: NtId, extra: set<TermId>)
    requires n in nonterminals && n in follow && extra <= universe
    ensures FilledFollow(follow, nonterminals, universe) <= FilledFollow(follow[n := follow[n] + extra], nonterminals, universe)
    ensures !(extra <= follow[n]) ==>
      FilledFollow(follow, nonterminals, universe) < FilledFollow(follow[n := follow[n] + extra], nonterminals, universe)
  {
    if !(extra <= follow[n]) {
      var x :| x in extra && x !in follow[n];
      assert (n, x) in FilledFollow(follow[n := follow[n] + extra], nonterminals, universe);
    }
  }

  lemma FollowAddKeepsSound(prods: set<Production>, nonterminals: set<NtId>, first: FirstMap, start: NtId,
                            follow: FollowMap, key: NtId, extra: set<TermId>)
    requires key in follow
    requires FollowSound(prods, nonterminals, first, start, follow)
    requires forall other :: FollowSolution(prods, nonterminals, first, start, other) ==> key in other && extra <= other[key]
    ensures FollowSound(prods, nonterminals, first, start, follow[key := follow[key] + extra])
  {
  }

  lemma TerminalsOfFirstInUniverse(first: FirstMap, s: seq<Symbol>)
    requires FirstOfSequence(first, s).Success?
    ensures TerminalsOf(FirstOfSequence(first, s).value) <= FollowUniverse(first)
  {
    var rem := FirstOfSequence(first, s).value;
    forall t | t in TerminalsOf(rem)
      ensures t in FollowUniverse(first)
    {
      var i :| 0 <= i < |s| && PrefixNullable(first, s, i) && Known(first, s[i]) && Terminal(t) in first[s[i]];
      assert t == Terminal(t).t;
    }
  }

  /**
   * The FOLLOW update for the nonterminal at index `i` of `p`: FOLLOW(nt) gains the terminals of
   * FIRST(rest of the right side), and FOLLOW(left) as it stands when that rest derives ε.
   */
  method FollowOccurrence(prods: set<Production>, nonterminals: set<NtId>, first: FirstMap, start: NtId,
                          cur: FollowMap, p: Production, i: int)
    returns (next: FollowMap, changed: bool)
    requires p in prods && 0 <= i < |p.right| && p.right[i].Nonterminal?
    requires p.left in cur && p.right[i].n in cur && FirstOfSequence(first, p.right[i + 1..]).Success?
    requires FollowShape(nonterminals, first, cur) && FollowSound(prods, nonterminals, first, start, cur)
    ensures FollowShape(nonterminals, first, next) && FollowSound(prods, nonterminals, first, start, next)
    ensures FollowBelow(cur, next)
    ensures !changed ==> next == cur && OccurrenceFollowClosed(first, cur, p, i)
    ensures changed ==> FilledFollow(cur, nonterminals, FollowUniverse(first)) < FilledFollow(next, nonterminals, FollowUniverse(first))
  {
    ghost var universe := FollowUniverse(first);
    var nt := p.right[i].n;
    var remaining := FirstOfSequence(first, p.right[i + 1..]).value;
    var terms := TerminalsOf(remaining);
    TerminalsOfFirstInUniverse(first, p.right[i + 1..]);
    forall other | FollowSolution(prods, nonterminals, first, start, other)
      ensures nt in other && terms <= other[nt]
    {
      assert ProductionFollowClosed(first, other, p);
      assert OccurrenceFollowClosed(first, other, p, i);
    }
    FollowAddKeepsSound(prods, nonterminals, first, start, cur, nt, terms);
    GrowFollow(cur, nonterminals, universe, nt, terms);
    changed := !(terms <= cur[nt]);
    next := cur[nt := cur[nt] + terms];
    if !changed {
      assert cur[nt] + terms == cur[nt];
      assert next == cur;
    }
    if Epsilon in remaining {
      var leftSet := next[p.left];
      forall other | FollowSolution(prods, nonterminals, first, start, other)
        ensures nt in other && leftSet <= other[nt]
      {
        assert FollowBelow(next, other);
        assert ProductionFollowClosed(first, other, p);
        assert OccurrenceFollowClosed(first, other, p, i);
      }
      FollowAddKeepsSound(prods, nonterminals, first, start, next, nt, leftSet);
      GrowFollow(next, nonterminals, universe, nt, leftSet);
      var isNewLeft := !(leftSet <= next[nt]);
      ghost var mid := next;
      next := next[nt := next[nt] + leftSet];
      if !isNewLeft {
        assert mid[nt] + leftSet == mid[nt];
        assert next == mid;
      }
      changed := isNewLeft || changed;
    }
  }

  /** The maps of the FOLLOW pass over one production: well shaped, sound, and grown from where it started. */
  ghost predicate FollowWalkMaps(prods: set<Production>, nonterminals: set<NtId>, first: FirstMap, start: NtId,
                           follow: FollowMap, cur: FollowMap)
  {
    FollowShape(nonterminals, first, cur) && FollowSound(prods, nonterminals, first, start, cur) && FollowBelow(follow, cur)
  }

  /** Whether the pass changed anything, told by a strictly larger filling. */
  ghost predicate FollowWalkProgress(nonterminals: set<NtId>, first: FirstMap, follow: FollowMap, cur: FollowMap, changed: bool)
  {
    && (!changed ==> cur == follow)
    && (changed ==> FilledFollow(follow, nonterminals, FollowUniverse(first)) < FilledFollow(cur, nonterminals, FollowUniverse(first)))
  }

  /** The lookups for the nonterminals below index `i` of the right side succeed. */
  ghost predicate FollowWalkLookups(nonterminals: set<NtId>, first: FirstMap, p: Production, i: int)
  {
    forall j :: 0 <= j < i && j < |p.right| && p.right[j].Nonterminal? ==>
      p.right[j].n in nonterminals && FirstOfSequence(first, p.right[j + 1..]).Success?
  }

  /** Unless something changed, the occurrences below index `i` already satisfy their FOLLOW equations. */
  ghost predicate FollowWalkClosed(first: FirstMap, p: Production, i: int, cur: FollowMap, changed: bool)
  {
    !changed ==> forall j :: 0 <= j < i && j < |p.right| && p.right[j].Nonterminal? ==> OccurrenceFollowClosed(first, cur, p, j)
  }

  /** Where the FOLLOW pass over `p` stands after the right-side positions below `i`. */
  ghost predicate FollowWalkState(prods: set<Production>, nonterminals: set<NtId>, first: FirstMap, start: NtId,
                                  follow: FollowMap, p: Production, i: int, cur: FollowMap, changed: bool)
  {
    && 0 <= i <= |p.right|
    && FollowWalkMaps(prods, nonterminals, first, start, follow, cur)
    && FollowWalkProgress(nonterminals, first, follow, cur, changed)
    && FollowWalkLookups(nonterminals, first, p, i)
    && FollowWalkClosed(first, p, i, cur, changed)
  }

  lemma FollowBelowTrans(a: FollowMap, b: FollowMap, c: FollowMap)
    requires FollowBelow(a, b) && FollowBelow(b, c)
    ensures FollowBelow(a, c)
  {
  }

  lemma StrictGrowth<T>(a: set<T>, b: set<T>, c: set<T>, ab: bool, bc: bool)
    requires !ab ==> a == b
    requires ab ==> a < b
    requires !bc ==> b == c
    requires bc ==> b < c
    ensures !(ab || bc) ==> a == c
    ensures ab || bc ==> a < c
  {
  }

  lemma FollowWalkLookupsNext(nonterminals: set<NtId>, first: FirstMap, p: Production, i: int)
    requires FollowWalkLookups(nonterminals, first, p, i) && 0 <= i < |p.right|
    requires p.right[i].Nonterminal? ==> p.right[i].n in nonterminals && FirstOfSequence(first, p.right[i + 1..]).Success?
    ensures FollowWalkLookups(nonterminals, first, p, i + 1)
  {
  }

  lemma FollowWalkClosedNext(first: FirstMap, p: Production, i: int, cur: FollowMap, changed: bool, next: FollowMap, isNew: bool)
    requires FollowWalkClosed(first, p, i, cur, changed) && 0 <= i < |p.right|
    requires p.right[i].Nonterminal? && !isNew ==> next == cur && OccurrenceFollowClosed(first, cur, p, i)
    requires !p.right[i].Nonterminal? ==> next == cur
    ensures FollowWalkClosed(first, p, i + 1, next, isNew || changed)
  {
  }

  /** One position of the FOLLOW pass over `p`: fails on a missing lookup, else updates a nonterminal's set. */
  method FollowWalkStep(prods: set<Production>, nonterminals: set<NtId>, first: FirstMap, start: NtId,
                        follow: FollowMap, p: Production, i: int, cur: FollowMap, changed: bool)
    returns (r: Result<FollowMap>, changed': bool)
    requires p in prods && p.left in cur && i < |p.right|
    requires FollowWalkState(prods, nonterminals, first, start, follow, p, i, cur, changed)
    ensures r.Success? <==> (p.right[i].Nonterminal? ==>
              p.right[i].n in nonterminals && FirstOfSequence(first, p.right[i + 1..]).Success?)
    ensures r.Success? ==> FollowWalkState(prods, nonterminals, first, start, follow, p, i + 1, r.value, changed')
  {
    if p.right[i].Nonterminal? {
      if p.right[i].n !in cur {
        return Failure(KeyNotFound), changed;
      }
      var remaining := FirstOfSequence(first, p.right[i + 1..]);
      if remaining.Failure? {
        return Failure(remaining.error), changed;
      }
      var next, isNew := FollowOccurrence(prods, nonterminals, first, start, cur, p, i);
      ghost var universe := FollowUniverse(first);
      FollowBelowTrans(follow, cur, next);
      StrictGrowth(FilledFollow(follow, nonterminals, universe), FilledFollow(cur, nonterminals, universe),
                   FilledFollow(next, nonterminals, universe), changed, isNew);
      FollowWalkLookupsNext(nonterminals, first, p, i);
      FollowWalkClosedNext(first, p, i, cur, changed, next, isNew);
      return Success(next), isNew || changed;
    }
    FollowWalkLookupsNext(nonterminals, first, p, i);
    FollowWalkClosedNext(first, p, i, cur, changed, cur, false);
    return Success(cur), changed;
  }

  method FollowWalk(prods: set<Production>, nonterminals: set<NtId>, first: FirstMap, start: NtId,
                    follow: FollowMap, p: Production)
    returns (r: Result<FollowMap>, changed: bool)
    requires p in prods
    requires FollowShape(nonterminals, first, follow) && FollowSound(prods, nonterminals, first, start, follow)
    ensures r.Success? <==> FollowDefined(p, nonterminals, first)
    ensures r.Success? ==> FollowShape(nonterminals, first, r.value) && FollowSound(prods, nonterminals, first, start, r.value)
    ensures r.Success? ==> FollowBelow(follow, r.value)
    ensures r.Success? && !changed ==> r.value == follow && ProductionFollowClosed(first, follow, p)
    ensures r.Success? && changed ==>
      FilledFollow(follow, nonterminals, FollowUniverse(first)) < FilledFollow(r.value, nonterminals, FollowUniverse(first))
  {
    var cur := follow;
    changed := false;
    if p.left !in cur {
      return Failure(KeyNotFound), false;
    }
    var i := 0;
    while i < |p.right|
      invariant FollowWalkState(prods, nonterminals, first, start, follow, p, i, cur, changed)
    {
      var step;
      step, changed := FollowWalkStep(prods, nonterminals, first, start, follow, p, i, cur, changed);
      if step.Failure? {
        return Failure(step.error), false;
      }
      cur := step.value;
      i := i + 1;
    }
    return Success(cur), changed;
  }

  /**
   * One pass of `CalculateFollowSets` over every production: fails exactly when some production's
   * walk fails; otherwise the map only grows, it grows strictly exactly when a change is reported,
   * and an unchanged pass means every production's FOLLOW equations hold.
   */
  method FollowPass(prods: set<Production>, nonterminals: set<NtId>, first: FirstMap, start: NtId, follow: FollowMap)
    returns (r: Result<FollowMap>, change: bool)
    requires FollowShape(nonterminals, first, follow) && FollowSound(prods, nonterminals, first, start, follow)
    requires start in follow && EndOfInput in follow[start]
    ensures r.Success? <==> forall p :: p in prods ==> FollowDefined(p, nonterminals, first)
    ensures r.Success? ==> FollowShape(nonterminals, first, r.value) && FollowSound(prods, nonterminals, first, start, r.value)
    ensures r.Success? ==> start in r.value && EndOfInput in r.value[start]
    ensures r.Success? ==> FollowBelow(follow, r.value)
    ensures r.Success? && !change ==> r.value == follow && forall p :: p in prods ==> ProductionFollowClosed(first, follow, p)
    ensures r.Success? && change ==>
              FilledFollow(follow, nonterminals, FollowUniverse(first)) < FilledFollow(r.value, nonterminals, FollowUniverse(first))
  {
    ghost var universe := FollowUniverse(first);
    var cur := follow;
    change := false;
    var rest := prods;
    while rest != {}
      invariant rest <= prods
      invariant FollowShape(nonterminals, first, cur) && FollowSound(prods, nonterminals, first, start, cur)
      invariant start in cur && EndOfInput in cur[start]
      invariant FollowBelow(follow, cur)
      invariant !change ==> cur == follow
      invariant change ==> FilledFollow(follow, nonterminals, universe) < FilledFollow(cur, nonterminals, universe)
      invariant forall p :: p in prods - rest ==> FollowDefined(p, nonterminals, first)
      invariant !change ==> forall p :: p in prods - rest ==> ProductionFollowClosed(first, cur, p)
      decreases rest
    {
      var p :| p in rest;
      rest := rest - {p};
      var step, changed := FollowWalk(prods, nonterminals, first, start, cur, p);
      if step.Failure? {
        return Failure(step.error), change;
      }
      assert FilledFollow(cur, nonterminals, universe) <= FilledFollow(step.value, nonterminals, universe);
      cur := step.value;
      change := changed || change;
    }
    r := Success(cur);
  }

  method CalculateFollowSets(prods: set<Production>, nonterminals: set<NtId>, first: FirstMap, start: NtId)
    returns (r: Result<FollowMap>)
    ensures r.Success? <==> start in nonterminals && forall p :: p in prods ==> FollowDefined(p, nonterminals, first)
    ensures r.Success? ==> IsFollowSets(prods, nonterminals, first, start, r.value)
  {
    ghost var universe := FollowUniverse(first);
    var follow: FollowMap := map n | n in nonterminals :: {};
    if start !in follow {
      return Failure(KeyNotFound);
    }
    follow := follow[start := follow[start] + {EndOfInput}];
    while true
      invariant FollowShape(nonterminals, first, follow) && FollowSound(prods, nonterminals, first, start, follow)
      invariant start in follow && EndOfInput in follow[start]
      invariant FilledFollow(follow, nonterminals, universe) <= Pairs(nonterminals, universe)
      decreases |Pairs(nonterminals, universe)| - |FilledFollow(follow, nonterminals, universe)|
    {
      var step, change := FollowPass(prods, nonterminals, first, start, follow);
      if step.Failure? {
        return Failure(step.error);
      }
      SubsetCard(FilledFollow(follow, nonterminals, universe), FilledFollow(step.value, nonterminals, universe));
      SubsetCard(FilledFollow(step.value, nonterminals, universe), Pairs(nonterminals, universe));
      if !change {
        return Success(follow);
      }
      follow := step.value;
    }
  }

  // ------------------------------------------------------------------ agreement of the analyses

  /** Every nullable nonterminal has ε in its FIRST set: those that do form a nullable-closed set. */
  lemma NullableHasEpsilon(prods: set<Production>, nonterminals: set<NtId>, nullable: set<NtId>, first: FirstMap)
    requires Lefts(prods) <= nonterminals
    requires IsNullableSet(prods, nullable)
    requires forall p :: p in prods ==> ProductionFirstClosed(first, p)
    ensures forall n :: n in nullable ==> n in nonterminals && Nonterminal(n) in first && Epsilon in first[Nonterminal(n)]
  {
    var e := set n | n in nonterminals && Nonterminal(n) in first && Epsilon in first[Nonterminal(n)];
    forall p | p in prods && AllNullable(p.right, e)
      ensures p.left in e
    {
      assert ProductionFirstClosed(first, p);
      assert PrefixNullable(first, p.right, |p.right|);
    }
    assert NullableClosed(prods, e);
  }

  /** The FIRST map with ε kept only for the nullable nonterminals. */
  ghost function EpsilonTrimmed(first: FirstMap, nullable: set<NtId>): FirstMap
  {
    map k | k in first :: if k.Nonterminal? then TerminalPart(first[k]) + (if k.n in nullable then {Epsilon} else {}) else first[k]
  }

  /** A nullable prefix under the trimmed map is nullable under the original one. */
  lemma TrimmedPrefix(first: FirstMap, nullable: set<NtId>, s: seq<Symbol>, i: int)
    requires 0 <= i <= |s|
    requires forall n :: n in nullable && Nonterminal(n) in first ==> Epsilon in first[Nonterminal(n)]
    requires forall k :: k in first && k.Terminal? ==> Epsilon !in first[k]
    requires PrefixNullable(EpsilonTrimmed(first, nullable), s, i)
    ensures PrefixNullable(first, s, i)
    ensures forall j :: 0 <= j < i ==> s[j].Nonterminal? && s[j].n in nullable
  {
    var x := EpsilonTrimmed(first, nullable);
    forall j | 0 <= j < i
      ensures Known(first, s[j]) && Epsilon in first[s[j]]
      ensures s[j].Nonterminal? && s[j].n in nullable
    {
      assert Known(x, s[j]) && Epsilon in x[s[j]];
    }
  }

  /** Trimming keeps a production's FIRST equation, when ε was only in nullable nonterminals' sets. */
  lemma TrimmedClosed(first: FirstMap, nullable: set<NtId>, p: Production)
    requires forall n :: n in nullable && Nonterminal(n) in first ==> Epsilon in first[Nonterminal(n)]
    requires forall k :: k in first && k.Terminal? ==> Epsilon !in first[k]
    requires ProductionFirstClosed(first, p)
    requires NullableClosed({p}, nullable)
    ensures ProductionFirstClosed(EpsilonTrimmed(first, nullable), p)
  {
    var x := EpsilonTrimmed(first, nullable);
    forall i | 0 <= i < |p.right| && PrefixNullable(x, p.right, i) && Known(x, p.right[i])
      ensures TerminalPart(x[p.right[i]]) <= x[Nonterminal(p.left)]
    {
      TrimmedPrefix(first, nullable, p.right, i);
    }
    if PrefixNullable(x, p.right, |p.right|) {
      TrimmedPrefix(first, nullable, p.right, |p.right|);
      assert AllNullable(p.right, nullable);
    }
  }

  /** The nullable nonterminals are exactly those whose FIRST set holds ε. */
  lemma NullableIffFirstHasEpsilon(prods: set<Production>, terminals: set<TermId>, nonterminals: set<NtId>,
                                   nullable: set<NtId>, first: FirstMap)
    requires Lefts(prods) <= nonterminals
    requires IsNullableSet(prods, nullable)
    requires IsFirstSets(prods, terminals, nonterminals, first)
    ensures forall n :: n in nonterminals ==> (n in nullable <==> Epsilon in first[Nonterminal(n)])
  {
    NullableHasEpsilon(prods, nonterminals, nullable, first);
    var x := EpsilonTrimmed(first, nullable);
    forall p | p in prods
      ensures ProductionFirstClosed(x, p)
    {
      assert NullableClosed({p}, nullable);
      TrimmedClosed(first, nullable, p);
    }
    assert FirstSolution(prods, terminals, nonterminals, x);
    assert Below(first, x);
  }
}
