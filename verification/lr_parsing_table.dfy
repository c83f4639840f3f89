/**
 * The LR(0), SLR, canonical LR(1) and LALR table builders. All four run the shared worklist
 * construction; they differ in the closure, in what a state is interned by, and in where reductions
 * go. LALR explores the LR(0) automaton interned by kernel, then computes lookaheads by spontaneous
 * generation and propagation, and places its reductions afterwards.
 */
module LrParsingTable {
  import opened Wrappers
  import opened Symbols
  import opened GrammarSets
  import opened Grammar
  import opened LrItems
  import opened LrTables
  import opened LrStateAllocator
  import opened LrClosures
  import opened GraphSearch
  import opened LrAutomaton
  import opened LalrLookaheads
  import opened LalrPropagation
  import opened LalrStates

  /** A finished table: the grammar's symbols, the interned states with their item sets, and the two tables. */
  datatype ParsingTable<L(==)> = ParsingTable(
    terminals: set<TermId>,
    nonterminals: set<NtId>,
    states: Allocator<set<Item<L>>>,
    action: ActionTable,
    goto: GotoTable)

  // ------------------------------------------------------------------ the builders' parameters

  function Lr0Close(prods: set<Production>): set<Lr0Item> -> set<Lr0Item>
  {
    s => Lr0ClosureOf(prods, s)
  }

  /** States interned by their whole item set. */
  function Whole<L(==)>(): set<Item<L>> -> set<Item<L>>
  {
    s => s
  }

  function FollowOf(follow: FollowMap, n: NtId): set<TermId>
  {
    if n in follow then follow[n] else {}
  }

  /** LR(0): a final item reduces on every terminal of the grammar. */
  function Lr0Params(prods: set<Production>, terminals: set<TermId>): Params<()>
  {
    Params(Lr0Close(prods), Whole(), s => Reductions(s, (it: Lr0Item) => terminals))
  }

  /** SLR: a final item reduces on FOLLOW of its left side. */
  function SlrParams(prods: set<Production>, follow: FollowMap): Params<()>
  {
    Params(Lr0Close(prods), Whole(), s => Reductions(s, (it: Lr0Item) => FollowOf(follow, it.prod.left)))
  }

  /** Canonical LR(1): a final item reduces on its own lookahead. */
  function ClrParams(prods: set<Production>, first: FirstMap): Params<TermId>
  {
    Params(s => ClrClosureOf(prods, first, s), Whole(), s => Reductions(s, (it: ClrItem) => {it.la}))
  }

  /** The LALR exploration: LR(0) closures interned by their kernel items, no reductions yet. */
  function LalrKernelParams(prods: set<Production>): Params<()>
  {
    Params(Lr0Close(prods), s => KernelItems(s), s => {})
  }

  /** The reachable LR(0) item sets do not depend on interning or reductions; this is their reference shape. */
  function Lr0Shape(prods: set<Production>): Params<()>
  {
    Params(Lr0Close(prods), Whole(), s => {})
  }

  function Lr0Initial(prods: set<Production>): set<Lr0Item>
  {
    Lr0ClosureOf(prods, StartItems(prods, ()))
  }

  function ClrLookaheads(first: FirstMap): set<TermId>
  {
    FirstTerminals(first) + {EndOfInput}
  }

  function ClrInitial(prods: set<Production>, first: FirstMap): set<ClrItem>
  {
    ClrClosureOf(prods, first, StartItems(prods, EndOfInput))
  }

  // ------------------------------------------------------------------ item universes

  lemma Lr0Setting(p: Params<()>, prods: set<Production>)
    requires p.close == Lr0Close(prods)
    requires forall s :: p.key(s) <= s
    ensures Setting(p, AllItems(prods, {()}), Lr0Initial(prods))
  {
    var u := AllItems(prods, {()});
    forall s | s <= u
      ensures p.close(s) <= u
    {
      assert p.close(s) == Lr0ClosureOf(prods, s);
    }
    assert StartItems(prods, ()) <= u;
  }

  lemma ClrSetting(prods: set<Production>, first: FirstMap)
    ensures Setting(ClrParams(prods, first), AllItems(prods, ClrLookaheads(first)), ClrInitial(prods, first))
  {
    var p := ClrParams(prods, first);
    var u := AllItems(prods, ClrLookaheads(first));
    forall s | s <= u
      ensures p.close(s) <= u
    {
      assert p.close(s) == ClrClosureOf(prods, first, s);
    }
    assert StartItems(prods, EndOfInput) <= u;
  }

  /** The item sets of the LR(0) automaton: the least family holding the initial set and closed under moves. */
  ghost function Lr0ItemSets(prods: set<Production>): (r: set<set<Lr0Item>>)
    ensures Lr0Initial(prods) in r
    ensures IsLeastClosure({Lr0Initial(prods)}, SuccessorStep(Lr0Shape(prods)), r)
    ensures forall m :: m in r ==> m <= AllItems(prods, {()})
  {
    Lr0Setting(Lr0Shape(prods), prods);
    Reach(Lr0Shape(prods), AllItems(prods, {()}), Lr0Initial(prods))
  }

  /** The item sets of the canonical LR(1) automaton. */
  ghost function ClrItemSets(prods: set<Production>, first: FirstMap): (r: set<set<ClrItem>>)
    ensures ClrInitial(prods, first) in r
    ensures IsLeastClosure({ClrInitial(prods, first)}, SuccessorStep(ClrParams(prods, first)), r)
    ensures forall m :: m in r ==> m <= AllItems(prods, ClrLookaheads(first))
  {
    ClrSetting(prods, first);
    Reach(ClrParams(prods, first), AllItems(prods, ClrLookaheads(first)), ClrInitial(prods, first))
  }

  /** The reachable item sets depend only on the closure. */
  lemma ReachSameClose<L(!new)>(p1: Params<L>, p2: Params<L>, itemsU: set<Item<L>>, i0: set<Item<L>>)
    requires Setting(p1, itemsU, i0) && Setting(p2, itemsU, i0)
    requires p1.close == p2.close
    ensures Reach(p1, itemsU, i0) == Reach(p2, itemsU, i0)
  {
    var r1 := Reach(p1, itemsU, i0);
    var r2 := Reach(p2, itemsU, i0);
    forall s ensures SuccessorStep(p1)(s) == SuccessorStep(p2)(s) {
      assert SuccessorSets(p1, s) == SuccessorSets(p2, s);
    }
    forall x | ClosedUnder(x, SuccessorStep(p1)) ensures ClosedUnder(x, SuccessorStep(p2)) {
      forall y | y in x ensures SuccessorStep(p2)(y) <= x {
        assert SuccessorStep(p1)(y) <= x;
      }
    }
    assert ClosedUnder(r2, SuccessorStep(p1)) by {
      forall y | y in r2 ensures SuccessorStep(p1)(y) <= r2 {
        assert SuccessorStep(p2)(y) <= r2;
      }
    }
    assert IsLeastClosure({i0}, SuccessorStep(p1), r2);
    LeastClosureUnique({i0}, SuccessorStep(p1), r1, r2);
  }

  // ------------------------------------------------------------------ the automaton a builder produces

  /**
   * `states` interns exactly the item sets `sets`, one state each, with state 0 the initial set; each
   * state's action and goto rows are exactly its shifts, gotos and reductions; no other row is touched.
   */
  ghost predicate Automaton<L(!new)>(p: Params<L>, sets: set<set<Item<L>>>, i0: set<Item<L>>,
                                     states: Allocator<set<Item<L>>>, action: ActionTable, goto: GotoTable)
  {
    && AllocatorValid(states)
    && 0 in states.toSet && states.toSet[0] == i0
    && states.toSet.Values == sets
    && Count(states) == |sets|
    && (forall s :: s in states.toSet ==> Done(p, s, states.toSet[s], states.toState, action, goto))
    && (forall s :: s !in states.toSet ==> Untouched(action, goto, s))
  }

  /** With whole-set interning the explored states are the reachable item sets themselves. */
  lemma WholeAutomaton<L(!new)>(p: Params<L>, itemsU: set<Item<L>>, i0: set<Item<L>>,
                                alloc: Allocator<set<Item<L>>>, action: ActionTable, goto: GotoTable,
                                fullOf: map<LrState, set<Item<L>>>)
    requires Setting(p, itemsU, i0)
    requires forall s :: p.key(s) == s
    requires Consistent(p, i0, Reach(p, itemsU, i0), alloc, fullOf)
    requires forall s :: s in fullOf ==> Done(p, s, fullOf[s], alloc.toState, action, goto)
    requires forall s :: s !in fullOf ==> Untouched(action, goto, s)
    ensures Automaton(p, Reach(p, itemsU, i0), i0, alloc, action, goto)
  {
    assert fullOf == alloc.toSet by {
      forall s | s in fullOf ensures fullOf[s] == alloc.toSet[s] {
        assert p.key(fullOf[s]) == fullOf[s];
      }
    }
    StatesAreReach(p, itemsU, i0, alloc, action, goto, fullOf);
  }

  /** The shared construction with whole-set interning. */
  method ExploreWhole<L(==,!new)>(p: Params<L>, ghost itemsU: set<Item<L>>, i0: set<Item<L>>)
    returns (alloc: Allocator<set<Item<L>>>, action: ActionTable, goto: GotoTable)
    requires Setting(p, itemsU, i0)
    requires forall s :: p.key(s) == s
    ensures Automaton(p, Reach(p, itemsU, i0), i0, alloc, action, goto)
  {
    ghost var fullOf;
    alloc, action, goto, fullOf := Explore(p, itemsU, i0);
    WholeAutomaton(p, itemsU, i0, alloc, action, goto, fullOf);
  }

  // ------------------------------------------------------------------ LR(0), SLR, CLR

  /** `Lr0`: the LR(0) automaton, reducing every final item on every terminal. */
  method Lr0(g: Grammar) returns (r: ParsingTable<()>)
    requires WellFiled(g)
    ensures r.terminals == g.terminals && r.nonterminals == g.nonterminals
    ensures Automaton(Lr0Params(Productions(g), g.terminals), Lr0ItemSets(Productions(g)), Lr0Initial(Productions(g)),
                      r.states, r.action, r.goto)
  {
    var prods := Productions(g);
    var p := Lr0Params(prods, g.terminals);
    ghost var u := AllItems(prods, {()});
    Lr0Setting(p, prods);
    var i0 := Lr0ClosureOf(prods, StartItems(GetProductions(g, Start), ()));
    assert StartItems(GetProductions(g, Start), ()) == StartItems(prods, ());
    var alloc, action, goto := ExploreWhole(p, u, i0);
    Lr0Setting(Lr0Shape(prods), prods);
    ReachSameClose(p, Lr0Shape(prods), u, i0);
    r := ParsingTable(g.terminals, g.nonterminals, alloc, action, goto);
  }

  /** Some reachable LR(0) item set holds a final item of a non-START production: SLR asks for FOLLOW. */
  ghost predicate NeedsFollow(prods: set<Production>)
  {
    exists m, it :: m in Lr0ItemSets(prods) && it in m && IsFinal(it) && it.prod.left != Start
  }

  /**
   * `Slr`: the LR(0) automaton, reducing each final item on FOLLOW of its left side. FOLLOW is asked
   * for only at such a final item, so a grammar whose FOLLOW cannot be computed still builds, with
   * Accept as its only reduction, when no reachable state has one.
   */
  method Slr(g: Grammar) returns (r: Result<ParsingTable<()>>, g': Grammar)
    requires Valid(g) && g.start == Some(Start)
    ensures Valid(g') && SameContent(g, g')
    ensures r.Failure? ==> g'.followSets.None? && NeedsFollow(Productions(g))
    ensures Clean(g) && Start in g.nonterminals ==> r.Success?
    ensures r.Success? ==> r.value.terminals == g.terminals && r.value.nonterminals == g.nonterminals
    ensures r.Success? ==> g'.followSets.Some? || !NeedsFollow(Productions(g))
    ensures r.Success? ==> Automaton(SlrParams(Productions(g), CachedFollow(g')), Lr0ItemSets(Productions(g)),
                                     Lr0Initial(Productions(g)), r.value.states, r.value.action, r.value.goto)
  {
    var follow;
    follow, g' := FollowSets(g);
    var prods := Productions(g);
    var p := SlrParams(prods, CachedFollow(g'));
    ghost var u := AllItems(prods, {()});
    Lr0Setting(p, prods);
    var i0 := Lr0ClosureOf(prods, StartItems(GetProductions(g, Start), ()));
    assert StartItems(GetProductions(g, Start), ()) == StartItems(prods, ());
    var alloc, action, goto := ExploreWhole(p, u, i0);
    Lr0Setting(Lr0Shape(prods), prods);
    ReachSameClose(p, Lr0Shape(prods), u, i0);
    if follow.Failure? {
      var needed := exists m, it :: m in alloc.toSet.Values && it in m && IsFinal(it) && it.prod.left != Start;
      assert alloc.toSet.Values == Lr0ItemSets(prods);
      if needed {
        return Failure(follow.error), g';
      }
    }
    r := Success(ParsingTable(g.terminals, g.nonterminals, alloc, action, goto));
  }

  /** The lookaheads a CLR item can carry all have FIRST sets. */
  lemma ClrLookaheadKnown(terminals: set<TermId>, nonterminals: set<NtId>, first: FirstMap, t: TermId)
    requires EndOfInput in terminals && FirstShape(terminals, nonterminals, first)
    requires t in ClrLookaheads(first)
    ensures Known(first, Terminal(t))
  {
    if t in FirstTerminals(first) {
      FirstTerminalsKnown(first, terminals, nonterminals, t);
    } else {
      assert Terminal(EndOfInput) in FirstKeys(terminals, nonterminals);
    }
  }

  /** In a clean grammar no item of the canonical LR(1) automaton is stuck. */
  lemma CleanClrNotStuck(g: Grammar, first: FirstMap, m: set<ClrItem>, it: ClrItem)
    requires WellFiled(g) && Clean(g) && FirstShape(g.terminals, g.nonterminals, first)
    requires m in ClrItemSets(Productions(g), first) && it in m
    ensures !Stuck(Productions(g), Success(first), it)
  {
    assert it in AllItems(Productions(g), ClrLookaheads(first));
    assert KnownProduction(it.prod, g.terminals, g.nonterminals);
    ClrLookaheadKnown(g.terminals, g.nonterminals, first, it.la);
    KnownItemNotStuck(Productions(g), g.terminals, g.nonterminals, first, it);
  }

  lemma CleanClrNoneStuck(g: Grammar, first: FirstMap)
    requires WellFiled(g) && Clean(g) && FirstShape(g.terminals, g.nonterminals, first)
    ensures NoneStuck(Productions(g), Success(first), ClrItemSets(Productions(g), first))
  {
    forall m, it | m in ClrItemSets(Productions(g), first) && it in m
      ensures !Stuck(Productions(g), Success(first), it)
    {
      CleanClrNotStuck(g, first, m, it);
    }
  }

  /** The canonical LR(1) automaton over a FIRST lookup that may have failed, unless a reachable item set holds a stuck item. */
  method ClrBuild(prods: set<Production>, fs: Result<FirstMap>, i0: set<ClrItem>)
    returns (r: Result<(Allocator<set<ClrItem>>, ActionTable, GotoTable)>)
    requires i0 == ClrInitial(prods, FirstOrEmpty(fs))
    ensures r.Failure? <==> !NoneStuck(prods, fs, ClrItemSets(prods, FirstOrEmpty(fs)))
    ensures r.Failure? ==> StuckWith(prods, fs, ClrItemSets(prods, FirstOrEmpty(fs)), r.error)
    ensures r.Success? ==> Automaton(ClrParams(prods, FirstOrEmpty(fs)), ClrItemSets(prods, FirstOrEmpty(fs)),
                                     i0, r.value.0, r.value.1, r.value.2)
  {
    var fm := FirstOrEmpty(fs);
    var p := ClrParams(prods, fm);
    ghost var u := AllItems(prods, ClrLookaheads(fm));
    ClrSetting(prods, fm);
    var alloc, action, goto := ExploreWhole(p, u, i0);
    var found := FindStuck(prods, fs, alloc.toSet.Values);
    if found.Some? {
      return Failure(LookaheadFirst(fs, found.value).error);
    }
    r := Success((alloc, action, goto));
  }

  /**
   * `Clr`: the canonical LR(1) automaton from the START items with lookahead `$`. FIRST is asked for
   * only inside the closures, so the build raises exactly when some reachable item set holds a stuck
   * item, and then with that item's error. A grammar whose FIRST cannot be computed still builds when
   * no closure needs it.
   */
  method Clr(g: Grammar) returns (r: Result<ParsingTable<TermId>>, g': Grammar)
    requires Valid(g) && g.start == Some(Start)
    ensures Valid(g') && SameContent(g, g')
    ensures r.Failure? ==> (r.error == KeyNotFound || r.error == ArgumentOutOfRange) && !Clean(g)
    ensures r.Failure? <==> !NoneStuck(Productions(g), CachedFirst(g'), ClrItemSets(Productions(g), FirstOrEmpty(CachedFirst(g'))))
    ensures r.Failure? ==> StuckWith(Productions(g), CachedFirst(g'), ClrItemSets(Productions(g), FirstOrEmpty(CachedFirst(g'))), r.error)
    ensures r.Success? ==> r.value.terminals == g.terminals && r.value.nonterminals == g.nonterminals
    ensures r.Success? ==> Automaton(ClrParams(Productions(g), FirstOrEmpty(CachedFirst(g'))),
                                     ClrItemSets(Productions(g), FirstOrEmpty(CachedFirst(g'))),
                                     ClrInitial(Productions(g), FirstOrEmpty(CachedFirst(g'))), r.value.states, r.value.action, r.value.goto)
  {
    var first;
    first, g' := FirstSets(g);
    assert CachedFirst(g') == first;
    var fm := FirstOrEmpty(first);
    var prods := Productions(g);
    var i0 := ClrClosureOf(prods, fm, StartItems(GetProductions(g, Start), EndOfInput));
    assert StartItems(GetProductions(g, Start), EndOfInput) == StartItems(prods, EndOfInput);
    var built := ClrBuild(prods, first, i0);
    if Clean(g) {
      CleanClrNoneStuck(g, first.value);
    }
    if built.Failure? {
      return Failure(built.error), g';
    }
    r := Success(ParsingTable(g.terminals, g.nonterminals, built.value.0, built.value.1, built.value.2));
  }

  // ------------------------------------------------------------------ LALR: the LR(0) automaton by kernel

  /** A successor under LR(0) closure is the closure of its own kernel. */
  lemma SuccessorShaped(p: Params<()>, prods: set<Production>, m: set<Lr0Item>, x: Symbol)
    requires p.close == Lr0Close(prods)
    ensures Lr0ClosureOf(prods, KernelItems(Successor(p, m, x))) == Successor(p, m, x)
  {
    forall it | it in Advance(m, x)
      ensures IsKernel(it)
    {
      var src :| src in Group(m, x) && it == Next(src);
    }
    Lr0ClosureOfKernel(prods, Advance(m, x));
  }

  /** Every item set reached with LR(0) closures is the closure of its own kernel. */
  lemma KernelShaped(p: Params<()>, prods: set<Production>)
    requires p.close == Lr0Close(prods)
    requires Setting(p, AllItems(prods, {()}), Lr0Initial(prods))
    ensures forall m :: m in Reach(p, AllItems(prods, {()}), Lr0Initial(prods)) ==> Lr0ClosureOf(prods, KernelItems(m)) == m
  {
    var reach := Reach(p, AllItems(prods, {()}), Lr0Initial(prods));
    var shaped := set m | m in reach && Lr0ClosureOf(prods, KernelItems(m)) == m;
    assert {Lr0Initial(prods)} <= shaped by {
      Lr0ClosureOfKernel(prods, StartItems(prods, ()));
    }
    assert ClosedUnder(shaped, SuccessorStep(p)) by {
      forall m | m in shaped
        ensures SuccessorStep(p)(m) <= shaped
      {
        assert SuccessorStep(p)(m) <= reach;
        forall y | y in SuccessorSets(p, m)
          ensures y in shaped
        {
          var x :| x in Moves(m) && y == Successor(p, m, x);
          SuccessorShaped(p, prods, m, x);
        }
      }
    }
  }

  /** The exploration tables of the LR(0) automaton by kernel: each state's shifts and gotos, no reductions. */
  ghost predicate KernelTables(prods: set<Production>, kernels: Allocator<set<Lr0Item>>, action: ActionTable, goto: GotoTable)
  {
    && AllocatorValid(kernels)
    && (forall s {:trigger KernelDone(prods, kernels, action, goto, s)} :: s in kernels.toSet ==> KernelDone(prods, kernels, action, goto, s))
    && (forall s :: s !in kernels.toSet ==> Untouched(action, goto, s))
  }

  /**
   * State `s` of the automaton by kernel is processed, with the closure of its kernel as its item set.
   * Kept apart so that a fact about one state does not bring in the facts about its successors.
   */
  ghost predicate KernelDone(prods: set<Production>, kernels: Allocator<set<Lr0Item>>, action: ActionTable, goto: GotoTable, s: LrState)
    requires s in kernels.toSet
  {
    Done(LalrKernelParams(prods), s, Lr0ClosureOf(prods, kernels.toSet[s]), kernels.toState, action, goto)
  }

  /**
   * The LR(0) automaton interned by kernel, as the LALR construction explores it: the states are the
   * kernels of the LR(0) item sets, one state per set, state 0 that of the initial set; each state's
   * shifts and gotos lead to the kernels of its successors, and no state has a reduction yet.
   */
  ghost predicate KernelAutomaton(prods: set<Production>, kernels: Allocator<set<Lr0Item>>, action: ActionTable, goto: GotoTable)
  {
    && KernelTables(prods, kernels, action, goto)
    && 0 in kernels.toSet && kernels.toSet[0] == KernelItems(Lr0Initial(prods))
    && KernelsAreLr0(prods, kernels)
    && KernelsCoverLr0(prods, kernels)
  }

  /** Each state's closure is an LR(0) item set whose kernel is the state's key; there are as many states as sets. */
  ghost predicate KernelsAreLr0(prods: set<Production>, kernels: Allocator<set<Lr0Item>>)
  {
    && Count(kernels) == |Lr0ItemSets(prods)|
    && (forall s :: s in kernels.toSet ==>
          && Lr0ClosureOf(prods, kernels.toSet[s]) in Lr0ItemSets(prods)
          && KernelItems(Lr0ClosureOf(prods, kernels.toSet[s])) == kernels.toSet[s])
  }

  /** Every LR(0) item set is the closure of some state's kernel. */
  ghost predicate KernelsCoverLr0(prods: set<Production>, kernels: Allocator<set<Lr0Item>>)
  {
    forall m :: m in Lr0ItemSets(prods) ==> exists s :: s in kernels.toSet && Lr0ClosureOf(prods, kernels.toSet[s]) == m
  }

  lemma KernelAutomatonFromExplore(prods: set<Production>, alloc: Allocator<set<Lr0Item>>, action: ActionTable, goto: GotoTable,
                                   fullOf: map<LrState, set<Lr0Item>>)
    requires Setting(LalrKernelParams(prods), AllItems(prods, {()}), Lr0Initial(prods))
    requires Consistent(LalrKernelParams(prods), Lr0Initial(prods), Reach(LalrKernelParams(prods), AllItems(prods, {()}), Lr0Initial(prods)), alloc, fullOf)
    requires forall s :: s in fullOf ==> Done(LalrKernelParams(prods), s, fullOf[s], alloc.toState, action, goto)
    requires forall s :: s !in fullOf ==> Untouched(action, goto, s)
    ensures KernelAutomaton(prods, alloc, action, goto)
  {
    var p := LalrKernelParams(prods);
    var u := AllItems(prods, {()});
    var i0 := Lr0Initial(prods);
    var reach := Reach(p, u, i0);
    KernelShaped(p, prods);
    assert KeyInjective(p, reach) by {
      forall a, b | a in reach && b in reach && p.key(a) == p.key(b)
        ensures a == b
      {
        assert KernelItems(a) == KernelItems(b);
      }
    }
    StatesAreReach(p, u, i0, alloc, action, goto, fullOf);
    Lr0Setting(Lr0Shape(prods), prods);
    ReachSameClose(p, Lr0Shape(prods), u, i0);
    forall s | s in alloc.toSet
      ensures Lr0ClosureOf(prods, alloc.toSet[s]) == fullOf[s]
      ensures KernelDone(prods, alloc, action, goto, s)
    {
      assert p.key(fullOf[s]) == alloc.toSet[s] && fullOf[s] in reach;
    }
    forall m | m in Lr0ItemSets(prods)
      ensures exists s :: s in alloc.toSet && Lr0ClosureOf(prods, alloc.toSet[s]) == m
    {
      var s :| s in fullOf && fullOf[s] == m;
      assert Lr0ClosureOf(prods, alloc.toSet[s]) == m;
    }
  }

  /** The LALR exploration: the LR(0) automaton with states interned by their kernel items. */
  method ExploreKernels(prods: set<Production>, i0: set<Lr0Item>)
    returns (alloc: Allocator<set<Lr0Item>>, action: ActionTable, goto: GotoTable)
    requires i0 == Lr0Initial(prods)
    ensures KernelAutomaton(prods, alloc, action, goto)
  {
    var p := LalrKernelParams(prods);
    ghost var u := AllItems(prods, {()});
    Lr0Setting(p, prods);
    ghost var fullOf;
    alloc, action, goto, fullOf := Explore(p, u, i0);
    KernelAutomatonFromExplore(prods, alloc, action, goto, fullOf);
  }

  /** The items of every explored state, kernel and closure, are items of the grammar's productions. */
  ghost predicate KernelItemsKnown(prods: set<Production>, kernels: Allocator<set<Lr0Item>>)
  {
    && (forall s, k :: s in kernels.toSet && k in Lr0ClosureOf(prods, kernels.toSet[s]) ==> k.prod in prods && ValidItem(k))
    && (forall s, k :: s in kernels.toSet && k in kernels.toSet[s] ==> k.prod in prods && ValidItem(k))
  }

  lemma KernelItemProductions(prods: set<Production>, kernels: Allocator<set<Lr0Item>>, s: LrState)
    requires KernelItemsKnown(prods, kernels) && s in kernels.toSet
    ensures forall k :: k in kernels.toSet[s] ==> k.prod in prods
  {
  }

  /** The states of the automaton by kernel hold items of the grammar's productions only. */
  lemma KernelItemsValid(prods: set<Production>, kernels: Allocator<set<Lr0Item>>)
    requires KernelsAreLr0(prods, kernels)
    ensures KernelItemsKnown(prods, kernels)
  {
    forall s, k | s in kernels.toSet && k in Lr0ClosureOf(prods, kernels.toSet[s])
      ensures k.prod in prods && ValidItem(k)
    {
      assert Lr0ClosureOf(prods, kernels.toSet[s]) in Lr0ItemSets(prods);
    }
    forall s, k | s in kernels.toSet && k in kernels.toSet[s]
      ensures k in Lr0ClosureOf(prods, kernels.toSet[s])
    {
    }
  }

  /** An exploration table never holds two shifts in one cell. */
  lemma KernelSingleShifts(prods: set<Production>, kernels: Allocator<set<Lr0Item>>, action: ActionTable, goto: GotoTable)
    requires KernelTables(prods, kernels, action, goto)
    ensures SingleShifts(action)
  {
    forall s: LrState, t: TermId, a: LrState, b: LrState | Shift(a) in Cell(action, s, t) && Shift(b) in Cell(action, s, t)
      ensures a == b
    {
      assert s in kernels.toSet;
      assert KernelDone(prods, kernels, action, goto, s);
      assert ReducePart(LalrKernelParams(prods).reduce(Lr0ClosureOf(prods, kernels.toSet[s])), t) == {};
    }
  }

  /** A state's moves are exactly where the exploration tables give it a successor. */
  lemma MovesHaveTargets(prods: set<Production>, kernels: Allocator<set<Lr0Item>>, action: ActionTable, goto: GotoTable,
                         s: LrState, x: Symbol)
    requires KernelTables(prods, kernels, action, goto) && s in kernels.toSet
    ensures x in Moves(Lr0ClosureOf(prods, kernels.toSet[s])) ==> HasTarget(action, goto, s, Some(x))
  {
    var p := LalrKernelParams(prods);
    var full := Lr0ClosureOf(prods, kernels.toSet[s]);
    if x in Moves(full) {
      assert KernelDone(prods, kernels, action, goto, s);
      assert Target(p, full, x) in kernels.toState;
      var target := kernels.toState[Target(p, full, x)];
      match x
      case Terminal(t) =>
        assert Cell(action, s, t) == ExpectedCell(p, full, kernels.toState, t);
        assert Shift(target) in Cell(action, s, t);
      case Nonterminal(n) =>
        assert GotoGet(goto, s, n) == ExpectedGoto(p, full, kernels.toState, n);
      case Epsilon =>
    }
  }

  /**
   * A lookup of the lookahead pass finds no successor only for a closure item whose production is not
   * one the grammar accepts: its right side has ε, or a symbol the grammar never declared.
   */
  lemma NoTargetMeansUnknown(prods: set<Production>, first: FirstMap, terminals: set<TermId>, nonterminals: set<NtId>,
                             kernels: Allocator<set<Lr0Item>>, action: ActionTable, goto: GotoTable, e: Entry)
    requires KernelTables(prods, kernels, action, goto) && KernelItemsKnown(prods, kernels)
    requires e in ClosureEntries(prods, first, kernels.toSet)
    requires !HasTarget(action, goto, e.0, AfterCursor(e.2))
    ensures Core(e.2).prod in prods && !KnownProduction(Core(e.2).prod, terminals, nonterminals)
  {
    var full := Lr0ClosureOf(prods, kernels.toSet[e.0]);
    LalrClosureValid(prods, first, e.1);
    LalrClosureCoreIn(prods, first, kernels.toSet[e.0], e.1, e.2);
    var c := Core(e.2);
    CoreNext(e.2);
    var x := AfterCursor(e.2).value;
    assert AfterCursor(c) == Some(x) && c.prod.right[c.cursor] == x;
    assert x in AfterSymbols(full);
    MovesHaveTargets(prods, kernels, action, goto, e.0, x);
  }

  /** Some closure entry without a successor means some production the grammar does not accept. */
  lemma SomeProductionUnknown(prods: set<Production>, first: FirstMap, terminals: set<TermId>, nonterminals: set<NtId>,
                              kernels: Allocator<set<Lr0Item>>, action: ActionTable, goto: GotoTable)
    requires KernelTables(prods, kernels, action, goto) && KernelItemsKnown(prods, kernels)
    requires !forall e :: e in ClosureEntries(prods, first, kernels.toSet) ==> HasTarget(action, goto, e.0, AfterCursor(e.2))
    ensures exists q :: q in prods && !KnownProduction(q, terminals, nonterminals)
  {
    var e :| e in ClosureEntries(prods, first, kernels.toSet) && !HasTarget(action, goto, e.0, AfterCursor(e.2));
    NoTargetMeansUnknown(prods, first, terminals, nonterminals, kernels, action, goto, e);
  }

  /** Where the exploration tables lead from a state on a symbol: to the kernel of its successor. */
  lemma TargetIsSuccessorKernel(prods: set<Production>, kernels: Allocator<set<Lr0Item>>, action: ActionTable, goto: GotoTable,
                                s: LrState, x: Symbol, target: LrState)
    requires KernelTables(prods, kernels, action, goto)
    requires TargetOf(action, goto, s, Some(x), target)
    ensures s in kernels.toSet && x in Moves(Lr0ClosureOf(prods, kernels.toSet[s]))
    ensures target in kernels.toSet
    ensures kernels.toSet[target] == Target(LalrKernelParams(prods), Lr0ClosureOf(prods, kernels.toSet[s]), x)
  {
    assert s in kernels.toSet;
    var p := LalrKernelParams(prods);
    var full := Lr0ClosureOf(prods, kernels.toSet[s]);
    assert KernelDone(prods, kernels, action, goto, s);
    if x.Terminal? {
      assert ReducePart(p.reduce(full), x.t) == {};
    }
    assert x in Moves(full);
    assert Target(p, full, x) in kernels.toState && kernels.toState[Target(p, full, x)] == target;
  }

  /** The successor of an entry's closure item is a kernel item of the state the tables lead to. */
  lemma EntryReachesKernel(prods: set<Production>, first: FirstMap, kernels: Allocator<set<Lr0Item>>,
                           action: ActionTable, goto: GotoTable, e: Entry, target: LrState)
    requires KernelTables(prods, kernels, action, goto) && KernelItemsKnown(prods, kernels)
    requires e in ClosureEntries(prods, first, kernels.toSet)
    requires TargetOf(action, goto, e.0, AfterCursor(e.2), target)
    ensures Destination(e, target) in KernelKeys(kernels.toSet)
  {
    var full := Lr0ClosureOf(prods, kernels.toSet[e.0]);
    LalrClosureValid(prods, first, e.1);
    LalrClosureCoreIn(prods, first, kernels.toSet[e.0], e.1, e.2);
    CoreNext(e.2);
    var x := AfterCursor(e.2).value;
    TargetIsSuccessorKernel(prods, kernels, action, goto, e.0, x, target);
    var c := Core(e.2);
    assert c in Group(full, x);
    assert Next(c) in Advance(full, x);
    assert Next(c) in kernels.toSet[target];
  }

  /** Every propagation edge runs between kernel items of explored states. */
  lemma PropagationWithinKernels(prods: set<Production>, first: FirstMap, kernels: Allocator<set<Lr0Item>>,
                                 action: ActionTable, goto: GotoTable, edges: set<Edge>)
    requires KernelTables(prods, kernels, action, goto) && KernelItemsKnown(prods, kernels)
    requires forall edge :: edge in edges ==> Propagated(ClosureEntries(prods, first, kernels.toSet), action, goto, edge)
    ensures forall edge :: edge in edges ==> edge.0 in KernelKeys(kernels.toSet) && edge.1 in KernelKeys(kernels.toSet)
  {
    forall edge | edge in edges
      ensures edge.0 in KernelKeys(kernels.toSet) && edge.1 in KernelKeys(kernels.toSet)
    {
      EdgeWithinKernels(prods, first, kernels, action, goto, edge);
    }
  }

  lemma EdgeWithinKernels(prods: set<Production>, first: FirstMap, kernels: Allocator<set<Lr0Item>>,
                          action: ActionTable, goto: GotoTable, edge: Edge)
    requires KernelTables(prods, kernels, action, goto) && KernelItemsKnown(prods, kernels)
    requires Propagated(ClosureEntries(prods, first, kernels.toSet), action, goto, edge)
    ensures edge.0 in KernelKeys(kernels.toSet) && edge.1 in KernelKeys(kernels.toSet)
  {
    var e, s :| e in ClosureEntries(prods, first, kernels.toSet) && TargetOf(action, goto, e.0, AfterCursor(e.2), s) &&
                NotInGrammar in e.2.la && edge == ((e.0, e.1), Destination(e, s));
    EntryReachesKernel(prods, first, kernels, action, goto, e, s);
  }

  // ------------------------------------------------------------------ LALR: the result

  /** The lookahead facts the closure items declare: spontaneous lookaheads and propagation edges, exactly. */
  ghost predicate LookaheadFacts(prods: set<Production>, first: FirstMap, kernels: Allocator<set<Lr0Item>>,
                                 action0: ActionTable, goto: GotoTable, info: LookaheadInfo)
  {
    && (forall key, t :: t in Get(info.generates, key) <==>
          Generated(prods, ClosureEntries(prods, first, kernels.toSet), action0, goto, key, t))
    && (forall edge :: edge in info.propagates <==> Propagated(ClosureEntries(prods, first, kernels.toSet), action0, goto, edge))
  }

  /**
   * The lookahead half of the LALR tables over explored kernels: the lookahead facts the closure items
   * declare (spontaneous lookaheads and propagation edges, exactly); lookaheads per kernel item that
   * are the least solution of propagation from the spontaneous ones; the LALR states, each the kernel
   * of the LR(0) state with the same id with those lookaheads; and each action row the LR(0) shifts
   * plus the reductions read off the state's canonical LR(1) closure.
   */
  ghost predicate LalrLookaheadTables(prods: set<Production>, first: FirstMap, kernels: Allocator<set<Lr0Item>>,
                                      action0: ActionTable, goto: GotoTable, info: LookaheadInfo, las: LookaheadMap,
                                      states: Allocator<set<LalrItem>>, action: ActionTable)
  {
    && LookaheadFacts(prods, first, kernels, action0, goto, info)
    && IsLeastPropagation(InitialLookaheads(kernels.toSet, info.generates), info.propagates, las)
    && KernelKeys(kernels.toSet) <= las.Keys
    && AllocatorValid(states) && states.toSet.Keys == kernels.toSet.Keys
    && (forall s :: s in states.toSet ==> states.toSet[s] == LalrItemSet(s, kernels.toSet[s], las))
    && (forall s, t :: Cell(action, s, t) == Cell(action0, s, t) +
          (if s in states.toSet then ReducePart(LalrReductions(prods, first, states.toSet[s]), t) else {}))
  }

  /** The LALR tables: the LR(0) automaton by kernel with its shifts and gotos, and their lookahead half. */
  ghost predicate LalrTables(prods: set<Production>, first: FirstMap, kernels: Allocator<set<Lr0Item>>, action0: ActionTable,
                             info: LookaheadInfo, las: LookaheadMap,
                             states: Allocator<set<LalrItem>>, action: ActionTable, goto: GotoTable)
  {
    && KernelAutomaton(prods, kernels, action0, goto)
    && LalrLookaheadTables(prods, first, kernels, action0, goto, info, las, states, action)
  }

  /**
   * How collecting the lookahead facts can fail: a stuck item in the `#` closure of some kernel item;
   * otherwise a closure item without a successor in the tables, which takes a production the grammar
   * does not accept.
   */
  ghost predicate FactsFailure(prods: set<Production>, fs: Result<FirstMap>, terminals: set<TermId>, nonterminals: set<NtId>,
                               kernels: map<LrState, set<Lr0Item>>, e: Exception)
  {
    || StuckWith(prods, fs, KernelClosures(prods, FirstOrEmpty(fs), kernels), e)
    || (&& NoneStuck(prods, fs, KernelClosures(prods, FirstOrEmpty(fs), kernels))
        && (e == InvalidOperation || e == InvalidCast)
        && exists q :: q in prods && !KnownProduction(q, terminals, nonterminals))
  }

  /**
   * How the lookahead half can fail: as collecting the facts does; otherwise a stuck item in the
   * closure some LALR state's reductions are read from.
   */
  ghost predicate LalrFailure(prods: set<Production>, fs: Result<FirstMap>, terminals: set<TermId>, nonterminals: set<NtId>,
                              kernels: map<LrState, set<Lr0Item>>, las: LookaheadMap, e: Exception)
  {
    || FactsFailure(prods, fs, terminals, nonterminals, kernels, e)
    || (&& NoneStuck(prods, fs, KernelClosures(prods, FirstOrEmpty(fs), kernels))
        && StuckWith(prods, fs, ReductionClosures(prods, FirstOrEmpty(fs), LalrItemSets(kernels, las)), e))
  }

  /** The productions and FIRST sets of a clean grammar: every production known, every FIRST set computed. */
  predicate KnownSetting(prods: set<Production>, fs: Result<FirstMap>, terminals: set<TermId>, nonterminals: set<NtId>)
  {
    && fs.Success? && FirstShape(terminals, nonterminals, fs.value) && EndOfInput in terminals
    && forall q :: q in prods ==> KnownProduction(q, terminals, nonterminals)
  }

  /** Over known productions and FIRST sets no item of a kernel item's `#` closure is stuck. */
  lemma KnownKernelClosuresNotStuck(prods: set<Production>, fs: Result<FirstMap>, terminals: set<TermId>, nonterminals: set<NtId>,
                                    kernels: Allocator<set<Lr0Item>>)
    requires KnownSetting(prods, fs, terminals, nonterminals) && KernelItemsKnown(prods, kernels)
    ensures NoneStuck(prods, fs, KernelClosures(prods, fs.value, kernels.toSet))
  {
    var first := fs.value;
    forall m, it | m in KernelClosures(prods, first, kernels.toSet) && it in m
      ensures !Stuck(prods, fs, it)
    {
      var s, k :| s in kernels.toSet && k in kernels.toSet[s] && m == ClrClosureOf(prods, first, {Item(k.prod, k.cursor, NotInGrammar)});
      if it == Item(k.prod, k.cursor, NotInGrammar) {
        assert SentinelSym in FirstKeys(terminals, nonterminals);
      } else {
        assert it in InitialItems(prods, FirstTerminals(first));
        FirstTerminalsKnown(first, terminals, nonterminals, it.la);
      }
      KnownItemNotStuck(prods, terminals, nonterminals, first, it);
    }
  }

  /** An item an LALR state stands for comes from one of its kernel items, with one of its lookaheads. */
  lemma ExpandedFromKernel(s: LrState, kernel: set<Lr0Item>, las: LookaheadMap, it: ClrItem)
    requires it in Expand(LalrItemSet(s, kernel, las))
    ensures exists k :: k in kernel && (s, k) in las && it.prod == k.prod && it.la in las[(s, k)]
  {
    var x :| x in LalrItemSet(s, kernel, las) && Core(x) == Core(it) && it.la in x.la;
    var k :| k in kernel && (s, k) in las && x == Item(k.prod, k.cursor, las[(s, k)]);
  }

  /** Over known productions and lookaheads no item of an LALR state's reduction closure is stuck. */
  lemma KnownReductionItemNotStuck(prods: set<Production>, fs: Result<FirstMap>, terminals: set<TermId>, nonterminals: set<NtId>,
                                   kernel: set<Lr0Item>, s: LrState, las: LookaheadMap, it: ClrItem)
    requires KnownSetting(prods, fs, terminals, nonterminals)
    requires forall k :: k in kernel ==> k.prod in prods
    requires forall k :: k in las ==> las[k] <= ClrLookaheads(fs.value)
    requires it in ClrClosureOf(prods, fs.value, Expand(LalrItemSet(s, kernel, las)))
    ensures !Stuck(prods, fs, it)
  {
    var first := fs.value;
    if it in Expand(LalrItemSet(s, kernel, las)) {
      ExpandedFromKernel(s, kernel, las, it);
      var k :| k in kernel && (s, k) in las && it.prod == k.prod && it.la in las[(s, k)];
      ClrLookaheadKnown(terminals, nonterminals, first, it.la);
    } else {
      assert it in InitialItems(prods, FirstTerminals(first));
      FirstTerminalsKnown(first, terminals, nonterminals, it.la);
    }
    KnownItemNotStuck(prods, terminals, nonterminals, first, it);
  }

  /** Over known productions and lookaheads no item of a state's reduction closure is stuck. */
  lemma KnownReductionClosuresNotStuck(prods: set<Production>, fs: Result<FirstMap>, terminals: set<TermId>, nonterminals: set<NtId>,
                                       kernels: Allocator<set<Lr0Item>>, las: LookaheadMap)
    requires KnownSetting(prods, fs, terminals, nonterminals) && KernelItemsKnown(prods, kernels)
    requires forall k :: k in las ==> las[k] <= ClrLookaheads(fs.value)
    ensures NoneStuck(prods, fs, ReductionClosures(prods, fs.value, LalrItemSets(kernels.toSet, las)))
  {
    var states := LalrItemSets(kernels.toSet, las);
    forall m, it | m in ReductionClosures(prods, fs.value, states) && it in m
      ensures !Stuck(prods, fs, it)
    {
      var s :| s in states && m == ClrClosureOf(prods, fs.value, Expand(states[s]));
      var kernel := kernels.toSet[s];
      assert states[s] == LalrItemSet(s, kernel, las);
      KernelItemProductions(prods, kernels, s);
      KnownReductionItemNotStuck(prods, fs, terminals, nonterminals, kernel, s, las, it);
    }
  }

  /**
   * The facts read off the LALR closures once none of them is stuck: the successor lookups fail only
   * for a production the grammar does not accept.
   */
  method KernelFacts(prods: set<Production>, first: FirstMap, terminals: set<TermId>, nonterminals: set<NtId>,
                     kernels: Allocator<set<Lr0Item>>, action: ActionTable, goto: GotoTable)
    returns (r: Result<LookaheadInfo>)
    requires KernelTables(prods, kernels, action, goto) && KernelItemsKnown(prods, kernels)
    ensures r.Failure? ==> (r.error == InvalidOperation || r.error == InvalidCast) &&
                           exists q :: q in prods && !KnownProduction(q, terminals, nonterminals)
    ensures r.Success? ==> LookaheadFacts(prods, first, kernels, action, goto, r.value)
    ensures r.Success? ==> forall edge :: edge in r.value.propagates ==>
              edge.0 in KernelKeys(kernels.toSet) && edge.1 in KernelKeys(kernels.toSet)
  {
    KernelSingleShifts(prods, kernels, action, goto);
    r := GenerateLookaheadInfo(prods, first, kernels.toSet, action, goto);
    if r.Failure? {
      SomeProductionUnknown(prods, first, terminals, nonterminals, kernels, action, goto);
      return;
    }
    PropagationWithinKernels(prods, first, kernels, action, goto, r.value.propagates);
  }

  /**
   * Collecting the lookahead facts: the LALR closure of every kernel item, and for each of its items
   * the successor in the tables. FIRST is consulted only inside the closures, so a stuck closure item
   * raises there; a closure item with no successor raises as well. Over known productions and FIRST
   * sets nothing raises.
   */
  method CollectFacts(prods: set<Production>, fs: Result<FirstMap>, terminals: set<TermId>, nonterminals: set<NtId>,
                      kernels: Allocator<set<Lr0Item>>, action: ActionTable, goto: GotoTable)
    returns (r: Result<LookaheadInfo>)
    requires KernelTables(prods, kernels, action, goto) && KernelItemsKnown(prods, kernels)
    ensures r.Failure? ==> FactsFailure(prods, fs, terminals, nonterminals, kernels.toSet, r.error)
    ensures KnownSetting(prods, fs, terminals, nonterminals) ==> r.Success?
    ensures r.Success? ==> NoneStuck(prods, fs, KernelClosures(prods, FirstOrEmpty(fs), kernels.toSet))
    ensures r.Success? ==> LookaheadFacts(prods, FirstOrEmpty(fs), kernels, action, goto, r.value)
    ensures r.Success? ==> forall edge :: edge in r.value.propagates ==>
              edge.0 in KernelKeys(kernels.toSet) && edge.1 in KernelKeys(kernels.toSet)
  {
    var first := FirstOrEmpty(fs);
    if KnownSetting(prods, fs, terminals, nonterminals) {
      KnownKernelClosuresNotStuck(prods, fs, terminals, nonterminals, kernels);
    }
    var stuck := FindStuck(prods, fs, KernelClosures(prods, first, kernels.toSet));
    if stuck.Some? {
      return Failure(LookaheadFirst(fs, stuck.value).error);
    }
    r := KernelFacts(prods, first, terminals, nonterminals, kernels, action, goto);
  }

  /** Over known productions and FIRST sets, the least propagation leaves no reduction closure item stuck. */
  lemma KnownPlacementNotStuck(prods: set<Production>, fs: Result<FirstMap>, terminals: set<TermId>, nonterminals: set<NtId>,
                               kernels: Allocator<set<Lr0Item>>, action: ActionTable, goto: GotoTable,
                               info: LookaheadInfo, las: LookaheadMap)
    requires KnownSetting(prods, fs, terminals, nonterminals) && KernelItemsKnown(prods, kernels)
    requires LookaheadFacts(prods, fs.value, kernels, action, goto, info)
    requires IsLeastPropagation(InitialLookaheads(kernels.toSet, info.generates), info.propagates, las)
    ensures NoneStuck(prods, fs, ReductionClosures(prods, fs.value, LalrItemSets(kernels.toSet, las)))
  {
    PropagatedLookaheadsKnown(prods, fs.value, kernels.toSet, action, goto, info, las);
    KnownReductionClosuresNotStuck(prods, fs, terminals, nonterminals, kernels, las);
  }

  /**
   * Placing the lookaheads and the reductions, then reading each state's reductions off its canonical
   * LR(1) closure, which consults FIRST and raises at a stuck item. Over known productions and FIRST
   * sets nothing raises.
   */
  method PlaceChecked(prods: set<Production>, fs: Result<FirstMap>, terminals: set<TermId>, nonterminals: set<NtId>,
                      kernels: Allocator<set<Lr0Item>>, action: ActionTable, goto: GotoTable, info: LookaheadInfo)
    returns (r: Result<(Allocator<set<LalrItem>>, ActionTable)>, ghost las: LookaheadMap)
    requires KernelItemsKnown(prods, kernels) && AllocatorValid(kernels)
    requires LookaheadFacts(prods, FirstOrEmpty(fs), kernels, action, goto, info)
    requires forall edge :: edge in info.propagates ==> edge.0 in KernelKeys(kernels.toSet) && edge.1 in KernelKeys(kernels.toSet)
    ensures r.Failure? ==> StuckWith(prods, fs, ReductionClosures(prods, FirstOrEmpty(fs), LalrItemSets(kernels.toSet, las)), r.error)
    ensures KnownSetting(prods, fs, terminals, nonterminals) ==> r.Success?
    ensures r.Success? ==> NoneStuck(prods, fs, ReductionClosures(prods, FirstOrEmpty(fs), r.value.0.toSet))
    ensures r.Success? ==> LalrLookaheadTables(prods, FirstOrEmpty(fs), kernels, action, goto, info, las, r.value.0, r.value.1)
  {
    var first := FirstOrEmpty(fs);
    var states, action', found;
    states, action', found := PlaceLookaheads(prods, first, kernels, action, info);
    las := found;
    if KnownSetting(prods, fs, terminals, nonterminals) {
      KnownPlacementNotStuck(prods, fs, terminals, nonterminals, kernels, action, goto, info, las);
    }
    var stuck := FindStuck(prods, fs, ReductionClosures(prods, first, states.toSet));
    if stuck.Some? {
      return Failure(LookaheadFirst(fs, stuck.value).error), las;
    }
    r := Success((states, action'));
  }

  /**
   * Everything after the exploration: collect spontaneous lookaheads and propagation edges from the
   * LALR closure of every kernel item; propagate to a fixpoint; re-intern every kernel with its
   * lookaheads under the same id; then add each state's reductions.
   */
  method LalrFromKernels(prods: set<Production>, fs: Result<FirstMap>, terminals: set<TermId>, nonterminals: set<NtId>,
                         kernels: Allocator<set<Lr0Item>>, action: ActionTable, goto: GotoTable)
    returns (r: Result<(Allocator<set<LalrItem>>, ActionTable)>, ghost info: LookaheadInfo, ghost las: LookaheadMap)
    requires KernelTables(prods, kernels, action, goto) && KernelItemsKnown(prods, kernels)
    ensures r.Failure? ==> LalrFailure(prods, fs, terminals, nonterminals, kernels.toSet, las, r.error)
    ensures KnownSetting(prods, fs, terminals, nonterminals) ==> r.Success?
    ensures r.Success? ==> && NoneStuck(prods, fs, KernelClosures(prods, FirstOrEmpty(fs), kernels.toSet))
                           && NoneStuck(prods, fs, ReductionClosures(prods, FirstOrEmpty(fs), r.value.0.toSet))
    ensures r.Success? ==> LalrLookaheadTables(prods, FirstOrEmpty(fs), kernels, action, goto, info, las, r.value.0, r.value.1)
  {
    var facts := CollectFacts(prods, fs, terminals, nonterminals, kernels, action, goto);
    if facts.Failure? {
      return Failure(facts.error), LookaheadInfo(map[], {}), map[];
    }
    info := facts.value;
    r, las := PlaceChecked(prods, fs, terminals, nonterminals, kernels, action, goto, facts.value);
  }

  /**
   * The lookahead half once the facts are collected: seed each kernel item with its generated
   * lookaheads, propagate to the least fixpoint, re-intern the kernels with their lookaheads and add
   * each state's reductions.
   */
  method PlaceLookaheads(prods: set<Production>, first: FirstMap, kernels: Allocator<set<Lr0Item>>,
                         action: ActionTable, info: LookaheadInfo)
    returns (states: Allocator<set<LalrItem>>, action': ActionTable, las: LookaheadMap)
    requires AllocatorValid(kernels)
    requires forall edge :: edge in info.propagates ==> edge.0 in KernelKeys(kernels.toSet) && edge.1 in KernelKeys(kernels.toSet)
    ensures IsLeastPropagation(InitialLookaheads(kernels.toSet, info.generates), info.propagates, las)
    ensures KernelKeys(kernels.toSet) <= las.Keys
    ensures AllocatorValid(states) && states.toSet.Keys == kernels.toSet.Keys
    ensures forall s :: s in states.toSet ==> states.toSet[s] == LalrItemSet(s, kernels.toSet[s], las)
    ensures states.toSet == LalrItemSets(kernels.toSet, las)
    ensures forall s, t :: Cell(action', s, t) == Cell(action, s, t) +
              (if s in states.toSet then ReducePart(LalrReductions(prods, first, states.toSet[s]), t) else {})
  {
    var start := InitialLookaheads(kernels.toSet, info.generates);
    las := Propagate(start, info.propagates);
    states := Reallocate(kernels, las);
    action' := PlaceReductions(prods, first, states, action);
  }

  /** A stuck item's error is one the on-demand FIRST lookup raises; a failed FIRST computation raises KeyNotFound. */
  lemma StuckErrors(prods: set<Production>, fs: Result<FirstMap>, family: set<set<ClrItem>>, e: Exception)
    requires fs.Failure? ==> fs.error == KeyNotFound
    requires StuckWith(prods, fs, family, e)
    ensures e == ArgumentOutOfRange || e == KeyNotFound
  {
  }

  /** The errors `Lalr` can raise: those of a stuck item, or those of the missing successor lookup. */
  lemma LalrFailureErrors(prods: set<Production>, fs: Result<FirstMap>, terminals: set<TermId>, nonterminals: set<NtId>,
                          kernels: map<LrState, set<Lr0Item>>, las: LookaheadMap, e: Exception)
    requires fs.Failure? ==> fs.error == KeyNotFound
    requires LalrFailure(prods, fs, terminals, nonterminals, kernels, las, e)
    ensures e == ArgumentOutOfRange || e == KeyNotFound || e == InvalidOperation || e == InvalidCast
  {
    if StuckWith(prods, fs, KernelClosures(prods, FirstOrEmpty(fs), kernels), e) {
      StuckErrors(prods, fs, KernelClosures(prods, FirstOrEmpty(fs), kernels), e);
    } else if StuckWith(prods, fs, ReductionClosures(prods, FirstOrEmpty(fs), LalrItemSets(kernels, las)), e) {
      StuckErrors(prods, fs, ReductionClosures(prods, FirstOrEmpty(fs), LalrItemSets(kernels, las)), e);
    }
  }

  /** The LALR builder over a production set and an on-demand FIRST map: kernels first, then lookaheads. */
  method LalrBuild(prods: set<Production>, fs: Result<FirstMap>, terminals: set<TermId>, nonterminals: set<NtId>,
                   i0: set<Lr0Item>)
    returns (r: Result<(Allocator<set<LalrItem>>, ActionTable, GotoTable)>,
             ghost kernels: Allocator<set<Lr0Item>>, ghost action0: ActionTable,
             ghost info: LookaheadInfo, ghost las: LookaheadMap)
    requires i0 == Lr0Initial(prods)
    ensures r.Failure? ==> LalrFailure(prods, fs, terminals, nonterminals, kernels.toSet, las, r.error)
    ensures KnownSetting(prods, fs, terminals, nonterminals) ==> r.Success?
    ensures r.Success? ==> && NoneStuck(prods, fs, KernelClosures(prods, FirstOrEmpty(fs), kernels.toSet))
                           && NoneStuck(prods, fs, ReductionClosures(prods, FirstOrEmpty(fs), r.value.0.toSet))
    ensures r.Success? ==> LalrTables(prods, FirstOrEmpty(fs), kernels, action0, info, las, r.value.0, r.value.1, r.value.2)
  {
    var alloc, action, goto := ExploreKernels(prods, i0);
    KernelItemsValid(prods, alloc);
    var lookaheads;
    lookaheads, info, las := LalrFromKernels(prods, fs, terminals, nonterminals, alloc, action, goto);
    kernels, action0 := alloc, action;
    if lookaheads.Failure? {
      return Failure(lookaheads.error), kernels, action0, info, las;
    }
    r := Success((lookaheads.value.0, lookaheads.value.1, goto));
  }

  /**
   * `Lalr`: explore the LR(0) automaton interned by kernel, then compute and place the lookaheads.
   * FIRST is computed up front but consulted only inside the closures of the lookahead half, so a
   * grammar whose FIRST cannot be computed fails only where such a closure needs it.
   */
  method Lalr(g: Grammar) returns (r: Result<ParsingTable<set<TermId>>>, g': Grammar,
                                   ghost kernels: Allocator<set<Lr0Item>>, ghost action0: ActionTable,
                                   ghost info: LookaheadInfo, ghost las: LookaheadMap)
    requires Valid(g) && g.start == Some(Start)
    ensures Valid(g') && SameContent(g, g')
    ensures r.Failure? ==> !Clean(g)
    ensures r.Failure? ==> r.error == ArgumentOutOfRange || r.error == KeyNotFound ||
                           r.error == InvalidOperation || r.error == InvalidCast
    ensures r.Failure? ==> LalrFailure(Productions(g), CachedFirst(g'), g.terminals, g.nonterminals, kernels.toSet, las, r.error)
    ensures r.Success? ==> r.value.terminals == g.terminals && r.value.nonterminals == g.nonterminals
    ensures r.Success? ==> && NoneStuck(Productions(g), CachedFirst(g'), KernelClosures(Productions(g), FirstOrEmpty(CachedFirst(g')), kernels.toSet))
                           && NoneStuck(Productions(g), CachedFirst(g'), ReductionClosures(Productions(g), FirstOrEmpty(CachedFirst(g')), r.value.states.toSet))
    ensures r.Success? ==> LalrTables(Productions(g), FirstOrEmpty(CachedFirst(g')), kernels, action0, info, las,
                                      r.value.states, r.value.action, r.value.goto)
  {
    var first;
    first, g' := FirstSets(g);
    assert CachedFirst(g') == first;
    var prods := Productions(g);
    var i0 := Lr0ClosureOf(prods, StartItems(GetProductions(g, Start), ()));
    assert StartItems(GetProductions(g, Start), ()) == StartItems(prods, ());
    var built;
    built, kernels, action0, info, las := LalrBuild(prods, first, g.terminals, g.nonterminals, i0);
    if Clean(g) {
      assert KnownSetting(prods, first, g.terminals, g.nonterminals);
    }
    if built.Failure? {
      LalrFailureErrors(prods, first, g.terminals, g.nonterminals, kernels.toSet, las, built.error);
      return Failure(built.error), g', kernels, action0, info, las;
    }
    r := Success(ParsingTable(g.terminals, g.nonterminals, built.value.0, built.value.1, built.value.2));
  }
}
