/**
 * The last two steps of the LALR construction: re-interning every LR(0) kernel with the lookaheads
 * its items ended up with, which keeps every state id, and placing the reductions of each LALR state,
 * read off the canonical LR(1) closure of its items.
 */
module LalrStates {
  import opened Symbols
  import opened GrammarSets
  import opened LrItems
  import opened LrTables
  import opened LrStateAllocator
  import opened LrClosures
  import opened GraphSearch
  import opened LrAutomaton
  import opened LalrLookaheads
  import opened LalrPropagation

  /** The lookaheads each kernel item starts from: those generated for it spontaneously, or none. */
  function InitialLookaheads(kernels: map<LrState, set<Lr0Item>>, generates: map<Key, set<TermId>>): (r: LookaheadMap)
    ensures r.Keys == KernelKeys(kernels)
    ensures forall k :: k in r ==> r[k] == Get(generates, k)
  {
    map k | k in KernelKeys(kernels) :: Get(generates, k)
  }

  /** A spontaneous lookahead is `$` or one of the lookaheads other than `#` the closure items carry. */
  lemma GeneratedWithin(prods: set<Production>, entries: set<Entry>, action: ActionTable, goto: GotoTable,
                        key: Key, t: TermId, terms: set<TermId>)
    requires Generated(prods, entries, action, goto, key, t)
    requires forall e, u :: e in entries && u in e.2.la && u != NotInGrammar ==> u in terms
    ensures t == EndOfInput || t in terms
  {
  }

  /** Every lookahead the propagation settles on is `$` or a terminal of some FIRST set. */
  lemma PropagatedLookaheadsKnown(prods: set<Production>, first: FirstMap, kernels: map<LrState, set<Lr0Item>>,
                                  action: ActionTable, goto: GotoTable, info: LookaheadInfo, las: LookaheadMap)
    requires forall key, t :: t in Get(info.generates, key) ==> Generated(prods, ClosureEntries(prods, first, kernels), action, goto, key, t)
    requires IsLeastPropagation(InitialLookaheads(kernels, info.generates), info.propagates, las)
    ensures forall k :: k in las ==> las[k] <= FirstTerminals(first) + {EndOfInput}
  {
    var base := InitialLookaheads(kernels, info.generates);
    var entries := ClosureEntries(prods, first, kernels);
    var terms := FirstTerminals(first);
    forall e, u | e in entries && u in e.2.la && u != NotInGrammar
      ensures u in terms
    {
      EntryLookaheadKnown(prods, first, kernels, e, u);
    }
    forall k | k in base
      ensures base[k] <= terms + {EndOfInput}
    {
      forall t | t in base[k]
        ensures t in terms + {EndOfInput}
      {
        assert t in Get(info.generates, k);
        GeneratedWithin(prods, entries, action, goto, k, t, terms);
      }
    }
    LeastPropagationBounded(base, info.propagates, las, terms + {EndOfInput});
  }

  // ------------------------------------------------------------------ re-interning

  /** The LALR items of state `s`: its kernel items, each with the lookaheads it ended up with. */
  function LalrItemSet(s: LrState, kernel: set<Lr0Item>, las: LookaheadMap): set<LalrItem>
  {
    set it | it in kernel && (s, it) in las :: Item(it.prod, it.cursor, las[(s, it)])
  }

  /** Every state's LALR item set, under the ids of the LR(0) states. */
  function LalrItemSets(kernels: map<LrState, set<Lr0Item>>, las: LookaheadMap): (r: map<LrState, set<LalrItem>>)
    ensures r.Keys == kernels.Keys
    ensures forall s :: s in r ==> r[s] == LalrItemSet(s, kernels[s], las)
  {
    map s | s in kernels :: LalrItemSet(s, kernels[s], las)
  }

  /**
   * An LALR item set holds one item per kernel item, with that item's lookaheads: dropping the
   * lookaheads gives the kernel back.
   */
  lemma LalrItemSetCores(s: LrState, kernel: set<Lr0Item>, las: LookaheadMap)
    requires forall it :: it in kernel ==> (s, it) in las
    ensures Cores(LalrItemSet(s, kernel, las)) == kernel
    ensures forall x :: x in LalrItemSet(s, kernel, las) ==> Core(x) in kernel && x.la == las[(s, Core(x))]
    ensures forall it :: it in kernel ==> Item(it.prod, it.cursor, las[(s, it)]) in LalrItemSet(s, kernel, las)
  {
    var items := LalrItemSet(s, kernel, las);
    forall it | it in kernel
      ensures it in Cores(items)
    {
      Lr0ItemIsCore(it);
      assert Core(Item(it.prod, it.cursor, las[(s, it)])) == it;
    }
  }

  /** Distinct kernels give distinct LALR item sets, whatever the lookaheads. */
  lemma LalrItemSetsDistinct(s1: LrState, k1: set<Lr0Item>, s2: LrState, k2: set<Lr0Item>, las: LookaheadMap)
    requires forall it :: it in k1 ==> (s1, it) in las
    requires forall it :: it in k2 ==> (s2, it) in las
    requires k1 != k2
    ensures LalrItemSet(s1, k1, las) != LalrItemSet(s2, k2, las)
  {
    LalrItemSetCores(s1, k1, las);
    LalrItemSetCores(s2, k2, las);
  }

  /** The re-interning loop after `s` states: states `0..s-1` hold their LALR item sets. */
  ghost predicate ReallocState(lr0: Allocator<set<Lr0Item>>, las: LookaheadMap, s: nat, r: Allocator<set<LalrItem>>)
  {
    && AllocatorValid(lr0) && KernelKeys(lr0.toSet) <= las.Keys
    && s <= Count(lr0)
    && AllocatorValid(r)
    && (forall s': LrState :: s' in r.toSet <==> s' < s)
    && (forall s' :: s' in r.toSet ==> s' in lr0.toSet && r.toSet[s'] == LalrItemSet(s', lr0.toSet[s'], las))
  }

  /** The next LALR item set is new, so interning it yields the next id. */
  lemma ReallocStep(lr0: Allocator<set<Lr0Item>>, las: LookaheadMap, s: nat, r: Allocator<set<LalrItem>>)
    requires ReallocState(lr0, las, s, r) && s < Count(lr0)
    ensures s in lr0.toSet
    ensures var key := LalrItemSet(s, lr0.toSet[s], las);
            var a := Allocate(r, key);
            a.0 && a.1 == s && ReallocState(lr0, las, s + 1, a.2)
  {
    var key := LalrItemSet(s, lr0.toSet[s], las);
    forall k | k in r.toState
      ensures k != key
    {
      var s' := r.toState[k];
      assert s' in r.toSet && r.toSet[s'] == k;
      assert lr0.toSet[s'] != lr0.toSet[s] by {
        assert lr0.toState[lr0.toSet[s']] == s' && lr0.toState[lr0.toSet[s]] == s;
      }
      LalrItemSetsDistinct(s', lr0.toSet[s'], s, lr0.toSet[s], las);
    }
  }

  /**
   * Reallocation: interns, in state order, each LR(0) kernel with its lookaheads. Every state keeps its
   * id, which the construction relies on (the tables built for the LR(0) kernels are reused as they are).
   */
  method Reallocate(lr0: Allocator<set<Lr0Item>>, las: LookaheadMap) returns (r: Allocator<set<LalrItem>>)
    requires AllocatorValid(lr0)
    requires KernelKeys(lr0.toSet) <= las.Keys
    ensures AllocatorValid(r)
    ensures r.toSet.Keys == lr0.toSet.Keys
    ensures forall s :: s in r.toSet ==> r.toSet[s] == LalrItemSet(s, lr0.toSet[s], las)
  {
    r := EmptyAllocator();
    EmptyAllocatorValid<set<LalrItem>>();
    var s := 0;
    while s < Count(lr0)
      invariant ReallocState(lr0, las, s, r)
    {
      ReallocStep(lr0, las, s, r);
      var interned := Allocate(r, LalrItemSet(s, lr0.toSet[s], las));
      assert interned.0 && interned.1 == s;
      r := interned.2;
      s := s + 1;
    }
  }

  // ------------------------------------------------------------------ reductions

  /** The canonical LR(1) items an LALR item set stands for: one per item and lookahead. */
  function Expand(items: set<LalrItem>): (r: set<ClrItem>)
    ensures forall c :: c in r <==> exists it :: it in items && Core(it) == Core(c) && c.la in it.la
  {
    var r := set it, l | it in items && l in it.la :: Item(it.prod, it.cursor, l);
    forall c | c in r
      ensures exists it :: it in items && Core(it) == Core(c) && c.la in it.la
    {
      var it, l :| it in items && l in it.la && c == Item(it.prod, it.cursor, l);
    }
    forall c | exists it :: it in items && Core(it) == Core(c) && c.la in it.la
      ensures c in r
    {
      var it :| it in items && Core(it) == Core(c) && c.la in it.la;
      assert c == Item(it.prod, it.cursor, c.la);
    }
    r
  }

  /** The canonical LR(1) closure every state's reductions are read from. */
  function ReductionClosures(prods: set<Production>, first: FirstMap, states: map<LrState, set<LalrItem>>): (r: set<set<ClrItem>>)
    ensures forall m :: m in r <==> exists s :: s in states && m == ClrClosureOf(prods, first, Expand(states[s]))
  {
    set s | s in states :: ClrClosureOf(prods, first, Expand(states[s]))
  }

  /**
   * The reductions of an LALR state: close its items, taken one lookahead at a time, as canonical
   * LR(1) items; accept on `$` for a final START item and reduce every other final item on its lookahead.
   */
  function LalrReductions(prods: set<Production>, first: FirstMap, items: set<LalrItem>): set<(TermId, LrAction)>
  {
    Reductions(ClrClosureOf(prods, first, Expand(items)), (it: ClrItem) => {it.la})
  }

  /**
   * A final kernel item reduces by its production on each of its lookaheads (accepts on `$` for
   * START); and each reduction comes from a final item of the closure with that lookahead.
   */
  lemma LalrReductionsOfItems(prods: set<Production>, first: FirstMap, items: set<LalrItem>)
    ensures forall x, t :: x in items && IsFinal(x) && x.prod.left != Start && t in x.la ==>
              (t, Reduce(x.prod)) in LalrReductions(prods, first, items)
    ensures forall x :: x in items && IsFinal(x) && x.prod.left == Start && x.la != {} ==>
              (EndOfInput, Accept) in LalrReductions(prods, first, items)
    ensures forall t, q :: (t, Reduce(q)) in LalrReductions(prods, first, items) ==>
              q.left != Start && exists c :: c in ClrClosureOf(prods, first, Expand(items)) && IsFinal(c) && c.prod == q && c.la == t
  {
    var closure := ClrClosureOf(prods, first, Expand(items));
    forall x, t | x in items && IsFinal(x) && t in x.la
      ensures Item(x.prod, x.cursor, t) in closure
    {
      assert Item(x.prod, x.cursor, t) in Expand(items) by {
        assert Core(x) == Core(Item(x.prod, x.cursor, t));
      }
    }
    forall x | x in items && IsFinal(x) && x.prod.left == Start && x.la != {}
      ensures (EndOfInput, Accept) in LalrReductions(prods, first, items)
    {
      var t :| t in x.la;
      assert IsFinal(Item(x.prod, x.cursor, t));
    }
  }

  /**
   * Placing the reductions: for each LALR state in order, add the actions of its final closure items
   * to its row. Every other row is left as it was.
   */
  method PlaceReductions(prods: set<Production>, first: FirstMap, states: Allocator<set<LalrItem>>, action: ActionTable)
    returns (action': ActionTable)
    requires AllocatorValid(states)
    ensures forall s, t :: s in states.toSet ==>
              Cell(action', s, t) == Cell(action, s, t) + ReducePart(LalrReductions(prods, first, states.toSet[s]), t)
    ensures forall s, t :: s !in states.toSet ==> Cell(action', s, t) == Cell(action, s, t)
  {
    action' := action;
    var s := 0;
    while s < Count(states)
      invariant 0 <= s <= Count(states)
      invariant forall s': LrState, t :: s' < s ==>
                  Cell(action', s', t) == Cell(action, s', t) + ReducePart(LalrReductions(prods, first, states.toSet[s']), t)
      invariant forall s': LrState, t :: s' >= s ==> Cell(action', s', t) == Cell(action, s', t)
    {
      var pairs := Enumerate(LalrReductions(prods, first, states.toSet[s]));
      assert (set q | q in pairs) == LalrReductions(prods, first, states.toSet[s]);
      action' := ProcessReductions(action', s, pairs);
      s := s + 1;
    }
  }
}
