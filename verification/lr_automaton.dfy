/**
 * The worklist construction shared by the four table builders: starting from the initial item set,
 * pop a state, advance each terminal and nonterminal group, intern the closure of the advanced items
 * and record a shift or goto to it, then record the state's reductions. The builders differ only in
 * the closure, in what is interned (the whole set, or its kernel for LALR) and in the reductions.
 */
module LrAutomaton {
  import opened Wrappers
  import opened Symbols
  import opened LrItems
  import opened LrTables
  import opened LrStateAllocator
  import opened GraphSearch
  import Enumerables

  /** The items of `s` with `x` after the cursor, each advanced past it. */
  function Advance<L(==,!new)>(s: set<Item<L>>, x: Symbol): (r: set<Item<L>>)
    ensures forall it :: it in Group(s, x) ==> Next(it) in r
    ensures forall y :: y in r ==> exists it :: it in Group(s, x) && y == Next(it)
  {
    set it {:trigger it in Group(s, x)} | it in Group(s, x) :: Next(it)
  }

  /** The symbols a state moves on: terminals and nonterminals after some cursor. */
  function Moves<L(==,!new)>(s: set<Item<L>>): (r: set<Symbol>)
    ensures forall x :: x in r <==> x in AfterSymbols(s) && !x.Epsilon?
  {
    set x | x in AfterSymbols(s) && !x.Epsilon?
  }

  /**
   * What distinguishes the builders: the closure, the interning key (identity, or the kernel items
   * for LALR) and the reductions of a state as (terminal, action) pairs.
   */
  datatype Params<!L(==)> = Params(
    close: set<Item<L>> -> set<Item<L>>,
    key: set<Item<L>> -> set<Item<L>>,
    reduce: set<Item<L>> -> set<(TermId, LrAction)>)

  /** The full item set reached from `s` on `x`. */
  function Successor<L(==,!new)>(p: Params<L>, s: set<Item<L>>, x: Symbol): set<Item<L>>
  {
    p.close(Advance(s, x))
  }

  /** The interning key of the state reached from `s` on `x`. */
  function Target<L(==,!new)>(p: Params<L>, s: set<Item<L>>, x: Symbol): set<Item<L>>
  {
    p.key(Successor(p, s, x))
  }

  /** A finite item universe containing the initial set and closed under advancing and closing. */
  ghost predicate Setting<L(!new)>(p: Params<L>, itemsU: set<Item<L>>, i0: set<Item<L>>)
  {
    && i0 <= itemsU
    && (forall it {:trigger Next(it)} :: it in itemsU ==> Next(it) in itemsU)
    && (forall s {:trigger p.close(s)} :: s <= itemsU ==> p.close(s) <= itemsU)
    && (forall s {:trigger p.key(s)} :: p.key(s) <= s)
  }

  function ReducePart(pairs: set<(TermId, LrAction)>, t: TermId): (r: set<LrAction>)
    ensures forall a :: a in r <==> (t, a) in pairs
  {
    set q {:trigger q in pairs} | q in pairs && q.0 == t :: q.1
  }

  /**
   * The reductions of an item set: `Accept` on `$` for a final START item, and for every other final
   * item a reduction by its production on each terminal `on` gives it.
   */
  function Reductions<L(==,!new)>(s: set<Item<L>>, on: Item<L> -> set<TermId>): (r: set<(TermId, LrAction)>)
    ensures forall t, a :: (t, a) in r ==> a.Accept? || a.Reduce?
    ensures forall t :: (t, Accept) in r <==> t == EndOfInput && exists it :: it in s && IsFinal(it) && it.prod.left == Start
    ensures forall t, q :: (t, Reduce(q)) in r <==>
              exists it :: it in s && IsFinal(it) && it.prod == q && q.left != Start && t in on(it)
  {
    var accepts: set<(TermId, LrAction)> :=
      if exists it :: it in ReductionItems(s) && it.prod.left == Start then {(EndOfInput, Accept)} else {};
    var r := accepts + set it, t | it in ReductionItems(s) && it.prod.left != Start && t in on(it) :: (t, Reduce(it.prod));
    assert forall t, q :: (t, Reduce(q)) in r ==> exists it :: it in s && IsFinal(it) && it.prod == q && q.left != Start && t in on(it);
    r
  }

  /** The actions cell (s, t) must hold once state s with item set `full` is processed. */
  ghost function ExpectedCell<L(!new)>(p: Params<L>, full: set<Item<L>>, toState: map<set<Item<L>>, LrState>, t: TermId): set<LrAction>
    requires Terminal(t) in Moves(full) ==> Target(p, full, Terminal(t)) in toState
  {
    (if Terminal(t) in Moves(full) then {Shift(toState[Target(p, full, Terminal(t))])} else {})
    + ReducePart(p.reduce(full), t)
  }

  /** The goto entry (s, n) once state s with item set `full` is processed. */
  ghost function ExpectedGoto<L(!new)>(p: Params<L>, full: set<Item<L>>, toState: map<set<Item<L>>, LrState>, n: NtId): Option<LrState>
    requires Nonterminal(n) in Moves(full) ==> Target(p, full, Nonterminal(n)) in toState
  {
    if Nonterminal(n) in Moves(full) then Some(toState[Target(p, full, Nonterminal(n))]) else None
  }

  /** Every successor of `full` is interned. */
  ghost predicate SuccessorsAllocated<L(!new)>(p: Params<L>, full: set<Item<L>>, toState: map<set<Item<L>>, LrState>)
  {
    forall x :: x in Moves(full) ==> Target(p, full, x) in toState
  }

  /** State `s` is processed: its action row and goto row are exactly the expected ones. */
  ghost predicate Done<L(!new)>(p: Params<L>, s: LrState, full: set<Item<L>>, toState: map<set<Item<L>>, LrState>,
                                   action: ActionTable, goto: GotoTable)
  {
    && SuccessorsAllocated(p, full, toState)
    && (forall t :: Cell(action, s, t) == ExpectedCell(p, full, toState, t))
    && (forall n :: GotoGet(goto, s, n) == ExpectedGoto(p, full, toState, n))
  }

  ghost predicate Untouched(action: ActionTable, goto: GotoTable, s: LrState)
  {
    && (forall t :: Cell(action, s, t) == {})
    && (forall n :: GotoGet(goto, s, n) == None)
  }

  /** All subsets of a finite set; bounds the number of distinct item sets. */
  ghost function PowerSet<T(!new)>(u: set<T>): (r: set<set<T>>)
    ensures forall s :: s in r <==> s <= u
    decreases u
  {
    if u == {} then
      assert forall s: set<T> :: s <= u ==> s == {} by {
        forall s: set<T> | s <= u ensures s == {} {
          assert forall y :: y !in s;
        }
      }
      {{}}
    else
      var x :| x in u;
      var rest := PowerSet(u - {x});
      var r := rest + set s | s in rest :: s + {x};
      PowerSetStep(u, x, rest, r);
      r
  }

  lemma PowerSetStep<T(!new)>(u: set<T>, x: T, rest: set<set<T>>, r: set<set<T>>)
    requires x in u
    requires forall s :: s in rest <==> s <= u - {x}
    requires r == rest + set s | s in rest :: s + {x}
    ensures forall s :: s in r <==> s <= u
  {
    forall s | s <= u
      ensures s in r
    {
      if x in s {
        assert s - {x} in rest;
        assert s == (s - {x}) + {x};
      }
    }
  }

  // ------------------------------------------------------------------ reachable item sets

  /** The item sets one move away from `s`. */
  ghost function SuccessorSets<L(!new)>(p: Params<L>, s: set<Item<L>>): (r: set<set<Item<L>>>)
    ensures forall x :: x in Moves(s) ==> Successor(p, s, x) in r
    ensures forall t :: t in r ==> exists x :: x in Moves(s) && t == Successor(p, s, x)
  {
    set x {:trigger x in Moves(s)} | x in Moves(s) :: Successor(p, s, x)
  }

  ghost function SuccessorStep<L(!new)>(p: Params<L>): set<Item<L>> -> set<set<Item<L>>>
  {
    s => SuccessorSets(p, s)
  }

  lemma SuccessorInside<L(!new)>(p: Params<L>, itemsU: set<Item<L>>, i0: set<Item<L>>, s: set<Item<L>>, x: Symbol)
    requires Setting(p, itemsU, i0) && s <= itemsU
    ensures Advance(s, x) <= itemsU && Successor(p, s, x) <= itemsU
  {
    forall y | y in Advance(s, x) ensures y in itemsU {
      var it :| it in Group(s, x) && y == Next(it);
    }
  }

  /**
   * The item sets the construction can reach: the least family containing the initial set and
   * closed under taking successors. It is finite because every member is a subset of `itemsU`.
   */
  ghost function Reach<L(!new)>(p: Params<L>, itemsU: set<Item<L>>, i0: set<Item<L>>): (r: set<set<Item<L>>>)
    requires Setting(p, itemsU, i0)
    ensures IsLeastClosure({i0}, SuccessorStep(p), r)
    ensures forall s :: s in r ==> s <= itemsU
  {
    var u := PowerSet(itemsU);
    assert ClosedUnder(u, SuccessorStep(p)) by {
      forall s | s in u ensures SuccessorSets(p, s) <= u {
        forall t | t in SuccessorSets(p, s) ensures t in u {
          var x :| x in Moves(s) && t == Successor(p, s, x);
          SuccessorInside(p, itemsU, i0, s, x);
        }
      }
    }
    Closure(u, {i0}, SuccessorStep(p))
  }

  // ------------------------------------------------------------------ the exploration invariant

  /**
   * The interned states and the full item set each was first reached with: state 0 is the initial
   * set, each state's interning key is the key of its set, and every set lies in `reach`.
   */
  ghost predicate Consistent<L(!new)>(p: Params<L>, i0: set<Item<L>>, reach: set<set<Item<L>>>,
                                         alloc: Allocator<set<Item<L>>>, fullOf: map<LrState, set<Item<L>>>)
  {
    && AllocatorValid(alloc) && Count(alloc) >= 1
    && fullOf.Keys == alloc.toSet.Keys
    && 0 in fullOf && fullOf[0] == i0
    && (forall s :: s in fullOf ==> p.key(fullOf[s]) == alloc.toSet[s] && fullOf[s] in reach)
  }

  function StackStates<K>(stack: seq<(K, LrState)>): (r: set<LrState>)
    ensures forall s :: s in r <==> exists i :: 0 <= i < |stack| && stack[i].1 == s
  {
    set i | 0 <= i < |stack| :: stack[i].1
  }

  /** Every interned state is either handled or waiting on the stack with its full set, never both. */
  ghost predicate StackOk<L(!new)>(stack: seq<(set<Item<L>>, LrState)>, fullOf: map<LrState, set<Item<L>>>, handled: set<LrState>)
  {
    && (forall i :: 0 <= i < |stack| ==> stack[i].1 in fullOf && fullOf[stack[i].1] == stack[i].0 && stack[i].1 !in handled)
    && (forall i, j :: 0 <= i < j < |stack| ==> stack[i].1 != stack[j].1)
    && handled <= fullOf.Keys
    && (forall s :: s in fullOf ==> s in handled || s in StackStates(stack))
  }

  lemma StackOkPush<L(!new)>(stack: seq<(set<Item<L>>, LrState)>, fullOf: map<LrState, set<Item<L>>>, handled: set<LrState>,
                             n: LrState, next: set<Item<L>>)
    requires StackOk(stack, fullOf, handled) && n !in fullOf
    ensures StackOk(stack + [(next, n)], fullOf[n := next], handled)
    ensures StackStates(stack + [(next, n)]) == StackStates(stack) + {n}
  {
    var stack' := stack + [(next, n)];
    forall i | 0 <= i < |stack'| ensures stack'[i].1 in fullOf[n := next] && fullOf[n := next][stack'[i].1] == stack'[i].0 {
      if i < |stack| { assert stack'[i] == stack[i]; }
    }
    forall s | s in fullOf[n := next] ensures s in handled || s in StackStates(stack') {
      if s != n && s !in handled {
        var i :| 0 <= i < |stack| && stack[i].1 == s;
        assert stack'[i] == stack[i];
      } else if s == n {
        assert stack'[|stack|].1 == n;
      }
    }
  }

  lemma StackOkPop<L(!new)>(stack: seq<(set<Item<L>>, LrState)>, fullOf: map<LrState, set<Item<L>>>, handled: set<LrState>)
    requires StackOk(stack, fullOf, handled) && stack != []
    ensures var top := stack[|stack| - 1];
            && top.1 in fullOf && fullOf[top.1] == top.0 && top.1 !in handled
            && StackOk(stack[..|stack| - 1], fullOf, handled + {top.1})
            && top.1 !in StackStates(stack[..|stack| - 1])
  {
    var top := stack[|stack| - 1];
    var rest := stack[..|stack| - 1];
    forall s | s in fullOf ensures s in handled + {top.1} || s in StackStates(rest) {
      if s !in handled && s != top.1 {
        var i :| 0 <= i < |stack| && stack[i].1 == s;
        assert i < |rest| && rest[i] == stack[i];
      }
    }
  }

  /** Interning never forgets or renumbers a key. */
  ghost predicate Extends<K>(a: map<K, LrState>, b: map<K, LrState>)
  {
    forall k :: k in a ==> k in b && b[k] == a[k]
  }

  /** Interning a new successor keeps the states consistent. */
  lemma ConsistentAdd<L(!new)>(p: Params<L>, i0: set<Item<L>>, reach: set<set<Item<L>>>, alloc: Allocator<set<Item<L>>>,
                               fullOf: map<LrState, set<Item<L>>>, next: set<Item<L>>, alloc': Allocator<set<Item<L>>>)
    requires Consistent(p, i0, reach, alloc, fullOf)
    requires next in reach
    requires AllocatorValid(alloc')
    requires alloc'.toSet == alloc.toSet[Count(alloc) := p.key(next)]
    requires Count(alloc') == Count(alloc) + 1
    ensures Consistent(p, i0, reach, alloc', fullOf[Count(alloc) := next])
  {
    var n := Count(alloc);
    assert n !in alloc.toSet;
    var fullOf' := fullOf[n := next];
    assert fullOf'.Keys == alloc'.toSet.Keys by {
      assert fullOf'.Keys == fullOf.Keys + {n};
      assert alloc'.toSet.Keys == alloc.toSet.Keys + {n};
    }
    assert 0 in fullOf && 0 != n;
    forall t | t in fullOf'
      ensures p.key(fullOf'[t]) == alloc'.toSet[t] && fullOf'[t] in reach
    {
      if t != n {
        assert fullOf'[t] == fullOf[t] && alloc'.toSet[t] == alloc.toSet[t];
      }
    }
  }

  /**
   * Interns the successor of state `s` on `x`; a newly interned set gets a fresh state, which is
   * pushed onto the stack with the full successor set.
   */
  method Transition<L(==,!new)>(p: Params<L>, ghost i0: set<Item<L>>, ghost reach: set<set<Item<L>>>,
                                full: set<Item<L>>, s: LrState, x: Symbol,
                                alloc: Allocator<set<Item<L>>>, stack: seq<(set<Item<L>>, LrState)>,
                                ghost fullOf: map<LrState, set<Item<L>>>, ghost handled: set<LrState>)
    returns (target: LrState, alloc': Allocator<set<Item<L>>>, stack': seq<(set<Item<L>>, LrState)>,
             ghost fullOf': map<LrState, set<Item<L>>>)
    requires Consistent(p, i0, reach, alloc, fullOf)
    requires StackOk(stack, fullOf, handled)
    requires s in fullOf && fullOf[s] == full && s !in StackStates(stack)
    requires x in Moves(full) && Successor(p, full, x) in reach
    ensures Consistent(p, i0, reach, alloc', fullOf')
    ensures StackOk(stack', fullOf', handled) && s !in StackStates(stack')
    ensures Extends(alloc.toState, alloc'.toState)
    ensures forall t :: t in fullOf ==> t in fullOf' && fullOf'[t] == fullOf[t]
    ensures Target(p, full, x) in alloc'.toState && target == alloc'.toState[Target(p, full, x)]
    ensures |stack| <= |stack'| && Count(alloc') == Count(alloc) + (|stack'| - |stack|)
  {
    var next := Successor(p, full, x);
    var interned := Allocate(alloc, p.key(next));
    target, alloc' := interned.1, interned.2;
    if interned.0 {
      ConsistentAdd(p, i0, reach, alloc, fullOf, next, alloc');
      assert target !in fullOf;
      StackOkPush(stack, fullOf, handled, target, next);
      fullOf' := fullOf[target := next];
      stack' := stack + [(next, target)];
    } else {
      fullOf' := fullOf;
      stack' := stack;
    }
  }

  // ------------------------------------------------------------------ processing one state

  /** The shift and goto entries of state `s` for the moves in `done`, and nothing else in its rows. */
  ghost predicate MovesRecorded<L(!new)>(p: Params<L>, s: LrState, full: set<Item<L>>, toState: map<set<Item<L>>, LrState>,
                                         done: set<Symbol>, action: ActionTable, goto: GotoTable)
  {
    && (forall x :: x in done ==> Target(p, full, x) in toState)
    && (forall t :: Cell(action, s, t) ==
          if Terminal(t) in done then {Shift(toState[Target(p, full, Terminal(t))])} else {})
    && (forall n :: GotoGet(goto, s, n) ==
          if Nonterminal(n) in done then Some(toState[Target(p, full, Nonterminal(n))]) else None)
  }

  /** Only the rows of state `s` differ. */
  ghost predicate SameOtherRows(s: LrState, action: ActionTable, goto: GotoTable, action': ActionTable, goto': GotoTable)
  {
    && (forall s': LrState, t :: s' != s ==> Cell(action', s', t) == Cell(action, s', t))
    && (forall s': LrState, n :: s' != s ==> GotoGet(goto', s', n) == GotoGet(goto, s', n))
  }

  lemma MovesRecordedExtends<L(!new)>(p: Params<L>, s: LrState, full: set<Item<L>>, a: map<set<Item<L>>, LrState>,
                                      b: map<set<Item<L>>, LrState>, done: set<Symbol>, action: ActionTable, goto: GotoTable)
    requires MovesRecorded(p, s, full, a, done, action, goto) && Extends(a, b)
    ensures MovesRecorded(p, s, full, b, done, action, goto)
  {
    forall t ensures Cell(action, s, t) == if Terminal(t) in done then {Shift(b[Target(p, full, Terminal(t))])} else {} {
    }
    forall n ensures GotoGet(goto, s, n) == if Nonterminal(n) in done then Some(b[Target(p, full, Nonterminal(n))]) else None {
    }
  }

  /** Recording the move on `x` to `target` extends the recorded moves by `x`. */
  lemma MovesRecordedStep<L(!new)>(p: Params<L>, s: LrState, full: set<Item<L>>, toState: map<set<Item<L>>, LrState>,
                                   done: set<Symbol>, action: ActionTable, goto: GotoTable, x: Symbol, target: LrState,
                                   action': ActionTable, goto': GotoTable)
    requires MovesRecorded(p, s, full, toState, done, action, goto)
    requires Target(p, full, x) in toState && target == toState[Target(p, full, x)]
    requires x.Terminal? ==> goto' == goto && action' == AddAction(action, s, x.t, Shift(target))
    requires x.Nonterminal? ==> action' == action && goto' == GotoSet(goto, s, x.n, Some(target))
    requires !x.Epsilon?
    ensures MovesRecorded(p, s, full, toState, done + {x}, action', goto')
    ensures SameOtherRows(s, action, goto, action', goto')
  {
  }

  /** Interns the successor of state `s` on `x` and records the shift or goto to it. */
  method RecordMove<L(==,!new)>(p: Params<L>, ghost i0: set<Item<L>>, ghost reach: set<set<Item<L>>>,
                                full: set<Item<L>>, s: LrState, x: Symbol,
                                alloc: Allocator<set<Item<L>>>, stack: seq<(set<Item<L>>, LrState)>,
                                action: ActionTable, goto: GotoTable,
                                ghost fullOf: map<LrState, set<Item<L>>>, ghost handled: set<LrState>, ghost done: set<Symbol>)
    returns (alloc': Allocator<set<Item<L>>>, stack': seq<(set<Item<L>>, LrState)>,
             action': ActionTable, goto': GotoTable, ghost fullOf': map<LrState, set<Item<L>>>)
    requires Consistent(p, i0, reach, alloc, fullOf)
    requires StackOk(stack, fullOf, handled)
    requires s in fullOf && fullOf[s] == full && s !in StackStates(stack)
    requires x in Moves(full) && Successor(p, full, x) in reach
    requires MovesRecorded(p, s, full, alloc.toState, done, action, goto)
    ensures Consistent(p, i0, reach, alloc', fullOf')
    ensures StackOk(stack', fullOf', handled) && s !in StackStates(stack')
    ensures Extends(alloc.toState, alloc'.toState)
    ensures forall t :: t in fullOf ==> t in fullOf' && fullOf'[t] == fullOf[t]
    ensures |stack| <= |stack'| && Count(alloc') == Count(alloc) + (|stack'| - |stack|)
    ensures MovesRecorded(p, s, full, alloc'.toState, done + {x}, action', goto')
    ensures SameOtherRows(s, action, goto, action', goto')
  {
    var target;
    target, alloc', stack', fullOf' := Transition(p, i0, reach, full, s, x, alloc, stack, fullOf, handled);
    MovesRecordedExtends(p, s, full, alloc.toState, alloc'.toState, done, action, goto);
    action', goto' := AddMove(p, s, full, alloc'.toState, done, action, goto, x, target);
  }

  /** Records the shift (on a terminal) or the goto (on a nonterminal) from `s` to `target`. */
  method AddMove<L(!new)>(p: Params<L>, s: LrState, full: set<Item<L>>, ghost toState: map<set<Item<L>>, LrState>,
                          ghost done: set<Symbol>, action: ActionTable, goto: GotoTable, x: Symbol, target: LrState)
    returns (action': ActionTable, goto': GotoTable)
    requires MovesRecorded(p, s, full, toState, done, action, goto)
    requires Target(p, full, x) in toState && target == toState[Target(p, full, x)]
    requires !x.Epsilon?
    ensures MovesRecorded(p, s, full, toState, done + {x}, action', goto')
    ensures SameOtherRows(s, action, goto, action', goto')
  {
    action', goto' := action, goto;
    if x.Terminal? {
      action' := AddAction(action, s, x.t, Shift(target));
    } else {
      goto' := GotoSet(goto, s, x.n, Some(target));
    }
    MovesRecordedStep(p, s, full, toState, done, action, goto, x, target, action', goto');
  }

  lemma ExtendsTrans<K>(a: map<K, LrState>, b: map<K, LrState>, c: map<K, LrState>)
    requires Extends(a, b) && Extends(b, c)
    ensures Extends(a, c)
  {
  }

  lemma SameOtherRowsTrans(s: LrState, a1: ActionTable, g1: GotoTable, a2: ActionTable, g2: GotoTable,
                           a3: ActionTable, g3: GotoTable)
    requires SameOtherRows(s, a1, g1, a2, g2) && SameOtherRows(s, a2, g2, a3, g3)
    ensures SameOtherRows(s, a1, g1, a3, g3)
  {
  }

  lemma KeepsTrans<V>(a: map<LrState, V>, b: map<LrState, V>, c: map<LrState, V>)
    requires forall t :: t in a ==> t in b && b[t] == a[t]
    requires forall t :: t in b ==> t in c && c[t] == b[t]
    ensures forall t :: t in a ==> t in c && c[t] == a[t]
  {
  }

  /** Interns the successor on every move in `moves` and records the shift or goto to it. */
  method ProcessMoves<L(==,!new)>(p: Params<L>, ghost i0: set<Item<L>>, ghost reach: set<set<Item<L>>>,
                                  full: set<Item<L>>, s: LrState, moves: seq<Symbol>,
                                  alloc: Allocator<set<Item<L>>>, stack: seq<(set<Item<L>>, LrState)>,
                                  action: ActionTable, goto: GotoTable,
                                  ghost fullOf: map<LrState, set<Item<L>>>, ghost handled: set<LrState>)
    returns (alloc': Allocator<set<Item<L>>>, stack': seq<(set<Item<L>>, LrState)>,
             action': ActionTable, goto': GotoTable, ghost fullOf': map<LrState, set<Item<L>>>, ghost done: set<Symbol>)
    requires Consistent(p, i0, reach, alloc, fullOf)
    requires StackOk(stack, fullOf, handled)
    requires s in fullOf && fullOf[s] == full && s !in StackStates(stack)
    requires SuccessorSets(p, full) <= reach
    requires forall x :: x in moves ==> x in Moves(full)
    requires Untouched(action, goto, s)
    ensures Consistent(p, i0, reach, alloc', fullOf')
    ensures StackOk(stack', fullOf', handled) && s !in StackStates(stack')
    ensures Extends(alloc.toState, alloc'.toState)
    ensures forall t :: t in fullOf ==> t in fullOf' && fullOf'[t] == fullOf[t]
    ensures |stack| <= |stack'| && Count(alloc') == Count(alloc) + (|stack'| - |stack|)
    ensures done == set x | x in moves
    ensures MovesRecorded(p, s, full, alloc'.toState, done, action', goto')
    ensures SameOtherRows(s, action, goto, action', goto')
  {
    alloc', stack', action', goto', fullOf' := alloc, stack, action, goto, fullOf;
    done := {};
    var i := 0;
    while i < |moves|
      invariant 0 <= i <= |moves|
      invariant forall x :: x in done <==> x in moves[..i]
      invariant Consistent(p, i0, reach, alloc', fullOf')
      invariant StackOk(stack', fullOf', handled) && s !in StackStates(stack')
      invariant Extends(alloc.toState, alloc'.toState)
      invariant forall t :: t in fullOf ==> t in fullOf' && fullOf'[t] == fullOf[t]
      invariant |stack| <= |stack'| && Count(alloc') == Count(alloc) + (|stack'| - |stack|)
      invariant MovesRecorded(p, s, full, alloc'.toState, done, action', goto')
      invariant SameOtherRows(s, action, goto, action', goto')
    {
      var x := moves[i];
      Enumerables.TakeNext(moves, i);
      assert Successor(p, full, x) in SuccessorSets(p, full);
      ghost var (alloc0, action0, goto0, fullOf0) := (alloc', action', goto', fullOf');
      alloc', stack', action', goto', fullOf' :=
        RecordMove(p, i0, reach, full, s, x, alloc', stack', action', goto', fullOf', handled, done);
      ExtendsTrans(alloc.toState, alloc0.toState, alloc'.toState);
      SameOtherRowsTrans(s, action, goto, action0, goto0, action', goto');
      KeepsTrans(fullOf, fullOf0, fullOf');
      done := done + {x};
      i := i + 1;
    }
    assert moves[..i] == moves;
    ElementsOf(moves, done);
  }

  /** Adds every (terminal, action) pair to the row of state `s`. */
  method ProcessReductions(action: ActionTable, s: LrState, pairs: seq<(TermId, LrAction)>) returns (action': ActionTable)
    ensures forall t :: Cell(action', s, t) == Cell(action, s, t) + ReducePart((set q | q in pairs), t)
    ensures forall s': LrState, t :: s' != s ==> Cell(action', s', t) == Cell(action, s', t)
  {
    action' := action;
    ghost var done: set<(TermId, LrAction)> := {};
    var i := 0;
    while i < |pairs|
      invariant 0 <= i <= |pairs|
      invariant forall q :: q in done <==> q in pairs[..i]
      invariant RowReduced(action, action', s, done)
    {
      ReducedAdd(action, action', s, done, pairs[i]);
      action' := AddAction(action', s, pairs[i].0, pairs[i].1);
      Enumerables.TakeNext(pairs, i);
      done := done + {pairs[i]};
      i := i + 1;
    }
    assert pairs[..i] == pairs;
    ElementsOf(pairs, done);
  }

  /** Row `s` of `action'` is that of `action` plus the reductions `done`; the other rows are unchanged. */
  ghost predicate RowReduced(action: ActionTable, action': ActionTable, s: LrState, done: set<(TermId, LrAction)>)
  {
    && (forall t :: Cell(action', s, t) == Cell(action, s, t) + ReducePart(done, t))
    && (forall s': LrState, t :: s' != s ==> Cell(action', s', t) == Cell(action, s', t))
  }

  lemma ReducedAdd(action: ActionTable, action': ActionTable, s: LrState, done: set<(TermId, LrAction)>, q: (TermId, LrAction))
    requires RowReduced(action, action', s, done)
    ensures RowReduced(action, AddAction(action', s, q.0, q.1), s, done + {q})
  {
    ReducePartAdd(action', s, done, q);
  }

  lemma ReducePartAdd(action: ActionTable, s: LrState, done: set<(TermId, LrAction)>, q: (TermId, LrAction))
    ensures forall t :: ReducePart(done + {q}, t) == ReducePart(done, t) + (if t == q.0 then {q.1} else {})
    ensures forall t :: Cell(AddAction(action, s, q.0, q.1), s, t) == Cell(action, s, t) + (if t == q.0 then {q.1} else {})
  {
    forall t ensures ReducePart(done + {q}, t) == ReducePart(done, t) + (if t == q.0 then {q.1} else {}) {
      forall a ensures a in ReducePart(done + {q}, t) <==> a in ReducePart(done, t) + (if t == q.0 then {q.1} else {}) {
      }
    }
  }

  /** The moves of a state, listed as the shift groups' terminals followed by the goto groups' nonterminals. */
  method ListMoves<L(==,!new)>(full: set<Item<L>>) returns (moves: seq<Symbol>)
    ensures forall x :: x in moves <==> x in Moves(full)
  {
    var terms := Enumerate(set t | t in ShiftItems(full) :: Terminal(t));
    var nts := Enumerate(set n | n in ProductionItems(full) :: Nonterminal(n));
    moves := terms + nts;
    forall x ensures x in moves <==> x in Moves(full) {
      if x in Moves(full) {
        var it :| it in full && AfterCursor(it) == Some(x);
        if x.Terminal? {
          assert x.t in ShiftItems(full);
        } else {
          assert x.n in ProductionItems(full);
        }
      }
    }
  }

  /**
   * Processes state `s`: its shifts and gotos to the interned successors, then its reductions. The
   * rows of state `s` end up exactly as expected, and no other row changes.
   */
  method ProcessState<L(==,!new)>(p: Params<L>, ghost i0: set<Item<L>>, ghost reach: set<set<Item<L>>>,
                                  full: set<Item<L>>, s: LrState,
                                  alloc: Allocator<set<Item<L>>>, stack: seq<(set<Item<L>>, LrState)>,
                                  action: ActionTable, goto: GotoTable,
                                  ghost fullOf: map<LrState, set<Item<L>>>, ghost handled: set<LrState>)
    returns (alloc': Allocator<set<Item<L>>>, stack': seq<(set<Item<L>>, LrState)>,
             action': ActionTable, goto': GotoTable, ghost fullOf': map<LrState, set<Item<L>>>)
    requires Consistent(p, i0, reach, alloc, fullOf)
    requires StackOk(stack, fullOf, handled)
    requires s in fullOf && fullOf[s] == full && s !in StackStates(stack)
    requires SuccessorSets(p, full) <= reach
    requires Untouched(action, goto, s)
    ensures Consistent(p, i0, reach, alloc', fullOf')
    ensures StackOk(stack', fullOf', handled)
    ensures Extends(alloc.toState, alloc'.toState)
    ensures forall t :: t in fullOf ==> t in fullOf' && fullOf'[t] == fullOf[t]
    ensures |stack| <= |stack'| && Count(alloc') == Count(alloc) + (|stack'| - |stack|)
    ensures Done(p, s, full, alloc'.toState, action', goto')
    ensures SameOtherRows(s, action, goto, action', goto')
  {
    var moves := ListMoves(full);
    var shifted;
    ghost var done;
    alloc', stack', shifted, goto', fullOf', done := ProcessMoves(p, i0, reach, full, s, moves, alloc, stack, action, goto, fullOf, handled);
    ElementsOf(moves, Moves(full));
    action' := AddReductions(p, full, s, alloc'.toState, action, goto, shifted, goto');
  }

  /** The reductions of state `s` added to its row once its moves are recorded; that completes the state. */
  method AddReductions<L(!new)>(p: Params<L>, full: set<Item<L>>, s: LrState, ghost toState: map<set<Item<L>>, LrState>,
                                ghost action: ActionTable, ghost goto: GotoTable, shifted: ActionTable, goto': GotoTable)
    returns (action': ActionTable)
    requires MovesRecorded(p, s, full, toState, Moves(full), shifted, goto')
    requires SameOtherRows(s, action, goto, shifted, goto')
    ensures Done(p, s, full, toState, action', goto')
    ensures SameOtherRows(s, action, goto, action', goto')
  {
    var pairs := Enumerate(p.reduce(full));
    action' := ProcessReductions(shifted, s, pairs);
    ElementsOf(pairs, p.reduce(full));
    DoneFromParts(p, s, full, toState, shifted, action', goto');
    assert SameOtherRows(s, shifted, goto', action', goto');
    SameOtherRowsTrans(s, action, goto, shifted, goto', action', goto');
  }

  lemma DoneFromParts<L(!new)>(p: Params<L>, s: LrState, full: set<Item<L>>, toState: map<set<Item<L>>, LrState>,
                               shifted: ActionTable, action: ActionTable, goto: GotoTable)
    requires MovesRecorded(p, s, full, toState, Moves(full), shifted, goto)
    requires forall t :: Cell(action, s, t) == Cell(shifted, s, t) + ReducePart(p.reduce(full), t)
    ensures Done(p, s, full, toState, action, goto)
  {
    forall t ensures Cell(action, s, t) == ExpectedCell(p, full, toState, t) {
    }
  }

  // ------------------------------------------------------------------ the whole exploration

  lemma ReachFacts<L(!new)>(p: Params<L>, itemsU: set<Item<L>>, i0: set<Item<L>>)
    requires Setting(p, itemsU, i0)
    ensures i0 in Reach(p, itemsU, i0)
    ensures ClosedUnder(Reach(p, itemsU, i0), SuccessorStep(p))
    ensures forall s :: s in Reach(p, itemsU, i0) ==> s <= itemsU
  {
  }

  lemma ExploreStart<L(!new)>(p: Params<L>, i0: set<Item<L>>, reach: set<set<Item<L>>>,
                              first: (bool, LrState, Allocator<set<Item<L>>>),
                              fullOf: map<LrState, set<Item<L>>>, stack: seq<(set<Item<L>>, LrState)>)
    requires i0 in reach
    requires first == Allocate(EmptyAllocator(), p.key(i0))
    requires fullOf == map[0 := i0] && stack == [(i0, 0)]
    ensures Consistent(p, i0, reach, first.2, fullOf)
    ensures StackOk(stack, fullOf, {})
  {
    FirstAllocation(p.key(i0));
    EmptyAllocatorValid<set<Item<L>>>();
    var e := EmptyAllocator<set<Item<L>>>();
    assert e.toSet == map[];
    assert first.0 && first.1 == 0;
    assert first.2.toSet == e.toSet[0 := p.key(i0)];
    assert first.2.toSet == map[0 := p.key(i0)];
    assert stack[0].1 == 0;
  }

  /** There are never more states than subsets of the item universe. */
  lemma CountBounded<L(!new)>(p: Params<L>, itemsU: set<Item<L>>, i0: set<Item<L>>, reach: set<set<Item<L>>>,
                              alloc: Allocator<set<Item<L>>>, fullOf: map<LrState, set<Item<L>>>)
    requires Setting(p, itemsU, i0)
    requires Consistent(p, i0, reach, alloc, fullOf)
    requires forall s :: s in reach ==> s <= itemsU
    ensures Count(alloc) <= |PowerSet(itemsU)|
  {
    forall k | k in alloc.toState ensures k in PowerSet(itemsU) {
      var st := alloc.toState[k];
      assert alloc.toSet[st] == k;
      assert p.key(fullOf[st]) == k;
    }
    SubsetCard(alloc.toState.Keys, PowerSet(itemsU));
  }

  /** A processed state stays processed while other rows are written and more keys are interned. */
  lemma DoneFrame<L(!new)>(p: Params<L>, s: LrState, full: set<Item<L>>, a: map<set<Item<L>>, LrState>,
                           b: map<set<Item<L>>, LrState>, action: ActionTable, goto: GotoTable,
                           changed: LrState, action': ActionTable, goto': GotoTable)
    requires Done(p, s, full, a, action, goto) && Extends(a, b)
    requires s != changed && SameOtherRows(changed, action, goto, action', goto')
    ensures Done(p, s, full, b, action', goto')
  {
    forall t ensures Cell(action', s, t) == ExpectedCell(p, full, b, t) {
      assert ExpectedCell(p, full, a, t) == ExpectedCell(p, full, b, t);
    }
    forall n ensures GotoGet(goto', s, n) == ExpectedGoto(p, full, b, n) {
      assert ExpectedGoto(p, full, a, n) == ExpectedGoto(p, full, b, n);
    }
  }

  /** The loop invariant of the construction. */
  ghost predicate ExploreInv<L(!new)>(p: Params<L>, itemsU: set<Item<L>>, i0: set<Item<L>>, reach: set<set<Item<L>>>,
                                      alloc: Allocator<set<Item<L>>>, fullOf: map<LrState, set<Item<L>>>,
                                      stack: seq<(set<Item<L>>, LrState)>, processed: set<LrState>,
                                      action: ActionTable, goto: GotoTable)
  {
    && Setting(p, itemsU, i0)
    && reach == Reach(p, itemsU, i0)
    && Consistent(p, i0, reach, alloc, fullOf)
    && StackOk(stack, fullOf, processed)
    && (forall s :: s in processed ==> Done(p, s, fullOf[s], alloc.toState, action, goto))
    && (forall s :: s !in processed ==> Untouched(action, goto, s))
    && Count(alloc) <= |PowerSet(itemsU)|
  }

  /** `ExploreInv` from its parts, so that a caller proves it as a whole. */
  lemma ExploreInvIntro<L(!new)>(p: Params<L>, itemsU: set<Item<L>>, i0: set<Item<L>>, reach: set<set<Item<L>>>,
                                 alloc: Allocator<set<Item<L>>>, fullOf: map<LrState, set<Item<L>>>,
                                 stack: seq<(set<Item<L>>, LrState)>, processed: set<LrState>,
                                 action: ActionTable, goto: GotoTable)
    requires Setting(p, itemsU, i0) && reach == Reach(p, itemsU, i0)
    requires Consistent(p, i0, reach, alloc, fullOf)
    requires StackOk(stack, fullOf, processed)
    requires forall s :: s in processed ==> Done(p, s, fullOf[s], alloc.toState, action, goto)
    requires forall s :: s !in processed ==> Untouched(action, goto, s)
    requires Count(alloc) <= |PowerSet(itemsU)|
    ensures ExploreInv(p, itemsU, i0, reach, alloc, fullOf, stack, processed, action, goto)
  {
  }

  lemma StepFrame<L(!new)>(p: Params<L>, s: LrState, processed: set<LrState>,
                           a: map<set<Item<L>>, LrState>, b: map<set<Item<L>>, LrState>,
                           fullOf: map<LrState, set<Item<L>>>, fullOf': map<LrState, set<Item<L>>>,
                           action: ActionTable, goto: GotoTable, action': ActionTable, goto': GotoTable)
    requires forall q :: q in processed ==> q in fullOf && Done(p, q, fullOf[q], a, action, goto)
    requires forall q :: q !in processed ==> Untouched(action, goto, q)
    requires Extends(a, b) && forall t :: t in fullOf ==> t in fullOf' && fullOf'[t] == fullOf[t]
    requires s !in processed && s in fullOf'
    requires SameOtherRows(s, action, goto, action', goto')
    requires Done(p, s, fullOf'[s], b, action', goto')
    ensures forall q :: q in processed + {s} ==> Done(p, q, fullOf'[q], b, action', goto')
    ensures forall q :: q !in processed + {s} ==> Untouched(action', goto', q)
  {
    forall q | q in processed ensures Done(p, q, fullOf'[q], b, action', goto') {
      DoneFrame(p, q, fullOf[q], a, b, action, goto, s, action', goto');
    }
    forall q | q !in processed + {s} ensures Untouched(action', goto', q) {
      assert Untouched(action, goto, q);
    }
  }

  /** With the stack empty, every interned state has been processed. */
  lemma ExploreEnd<L(!new)>(p: Params<L>, itemsU: set<Item<L>>, i0: set<Item<L>>, reach: set<set<Item<L>>>,
                            alloc: Allocator<set<Item<L>>>, fullOf: map<LrState, set<Item<L>>>,
                            processed: set<LrState>, action: ActionTable, goto: GotoTable)
    requires ExploreInv(p, itemsU, i0, reach, alloc, fullOf, [], processed, action, goto)
    ensures Consistent(p, i0, Reach(p, itemsU, i0), alloc, fullOf)
    ensures forall s :: s in fullOf ==> Done(p, s, fullOf[s], alloc.toState, action, goto)
    ensures forall s :: s !in fullOf ==> Untouched(action, goto, s)
  {
    assert processed == fullOf.Keys;
  }

  /** Pops one state off the stack and processes it. */
  method ExploreStep<L(==,!new)>(p: Params<L>, ghost itemsU: set<Item<L>>, ghost i0: set<Item<L>>, ghost reach: set<set<Item<L>>>,
                                 alloc: Allocator<set<Item<L>>>, stack: seq<(set<Item<L>>, LrState)>,
                                 action: ActionTable, goto: GotoTable,
                                 ghost fullOf: map<LrState, set<Item<L>>>, ghost processed: set<LrState>)
    returns (alloc': Allocator<set<Item<L>>>, stack': seq<(set<Item<L>>, LrState)>,
             action': ActionTable, goto': GotoTable,
             ghost fullOf': map<LrState, set<Item<L>>>, ghost processed': set<LrState>)
    requires ExploreInv(p, itemsU, i0, reach, alloc, fullOf, stack, processed, action, goto)
    requires stack != []
    ensures ExploreInv(p, itemsU, i0, reach, alloc', fullOf', stack', processed', action', goto')
    ensures Count(alloc) < Count(alloc') || (Count(alloc) == Count(alloc') && |stack'| < |stack|)
  {
    ReachFacts(p, itemsU, i0);
    StackOkPop(stack, fullOf, processed);
    var full, s := stack[|stack| - 1].0, stack[|stack| - 1].1;
    var rest := stack[..|stack| - 1];
    assert SuccessorStep(p)(full) <= reach;
    alloc', stack', action', goto', fullOf' := ProcessState(p, i0, reach, full, s, alloc, rest, action, goto, fullOf, processed + {s});
    StepFrame(p, s, processed, alloc.toState, alloc'.toState, fullOf, fullOf', action, goto, action', goto');
    processed' := processed + {s};
    CountBounded(p, itemsU, i0, reach, alloc', fullOf');
  }

  /** Interns the initial set as state 0 and pushes it. */
  method ExploreInit<L(==,!new)>(p: Params<L>, ghost itemsU: set<Item<L>>, i0: set<Item<L>>)
    returns (alloc: Allocator<set<Item<L>>>, stack: seq<(set<Item<L>>, LrState)>, action: ActionTable, goto: GotoTable,
             ghost fullOf: map<LrState, set<Item<L>>>, ghost processed: set<LrState>)
    requires Setting(p, itemsU, i0)
    ensures ExploreInv(p, itemsU, i0, Reach(p, itemsU, i0), alloc, fullOf, stack, processed, action, goto)
    ensures Count(alloc) == 1 && alloc.toSet == map[0 := p.key(i0)] && stack == [(i0, 0)]
    ensures action == map[] && goto == map[]
  {
    ghost var reach := Reach(p, itemsU, i0);
    ReachFacts(p, itemsU, i0);
    EmptyAllocatorValid<set<Item<L>>>();
    var first := Allocate(EmptyAllocator(), p.key(i0));
    alloc := first.2;
    fullOf := map[0 := i0];
    stack := [(i0, 0)];
    processed := {};
    action, goto := map[], map[];
    ExploreStart(p, i0, reach, first, fullOf, stack);
    CountBounded(p, itemsU, i0, reach, alloc, fullOf);
    assert forall s :: Untouched(action, goto, s);
    ExploreInvIntro(p, itemsU, i0, reach, alloc, fullOf, stack, processed, action, goto);
  }

  /**
   * The construction loop: intern the initial set as state 0, then pop and process states until the
   * stack is empty. Every interned state ends up processed with exactly its expected rows, and no
   * other state has an entry.
   */
  method Explore<L(==,!new)>(p: Params<L>, ghost itemsU: set<Item<L>>, i0: set<Item<L>>)
    returns (alloc: Allocator<set<Item<L>>>, action: ActionTable, goto: GotoTable, ghost fullOf: map<LrState, set<Item<L>>>)
    requires Setting(p, itemsU, i0)
    ensures Consistent(p, i0, Reach(p, itemsU, i0), alloc, fullOf)
    ensures forall s :: s in fullOf ==> Done(p, s, fullOf[s], alloc.toState, action, goto)
    ensures forall s :: s !in fullOf ==> Untouched(action, goto, s)
    ensures AllocatorValid(alloc) && 0 in alloc.toSet && alloc.toSet[0] == p.key(i0)
  {
    ghost var reach := Reach(p, itemsU, i0);
    var stack;
    ghost var processed;
    alloc, stack, action, goto, fullOf, processed := ExploreInit(p, itemsU, i0);
    while stack != []
      invariant ExploreInv(p, itemsU, i0, reach, alloc, fullOf, stack, processed, action, goto)
      decreases |PowerSet(itemsU)| - Count(alloc), |stack|
    {
      alloc, stack, action, goto, fullOf, processed := ExploreStep(p, itemsU, i0, reach, alloc, stack, action, goto, fullOf, processed);
    }
    ExploreEnd(p, itemsU, i0, reach, alloc, fullOf, processed, action, goto);
  }

  /** Whether distinct reachable item sets always have distinct interning keys. */
  ghost predicate KeyInjective<L(!new)>(p: Params<L>, sets: set<set<Item<L>>>)
  {
    forall a, b :: a in sets && b in sets && p.key(a) == p.key(b) ==> a == b
  }

  lemma MapValuesCard<K, V>(m: map<K, V>)
    requires forall a, b :: a in m && b in m && m[a] == m[b] ==> a == b
    ensures |m.Values| == |m.Keys|
    decreases |m.Keys|
  {
    if m != map[] {
      var k :| k in m;
      var m' := m - {k};
      MapValuesCard(m');
      forall v | v in m.Values ensures v in m'.Values + {m[k]} {
        var j :| j in m && m[j] == v;
        if j != k { assert j in m' && m'[j] == v; }
      }
      forall v | v in m'.Values ensures v in m.Values && v != m[k] {
        var j :| j in m' && m'[j] == v;
        assert j in m && m[j] == v;
      }
      assert m.Values == m'.Values + {m[k]};
      assert m.Keys == m'.Keys + {k};
    }
  }

  /**
   * When the interning key tells reachable item sets apart, the constructed states are exactly the
   * reachable item sets, one state each.
   */
  lemma {:induction false} StatesAreReach<L(!new)>(p: Params<L>, itemsU: set<Item<L>>, i0: set<Item<L>>,
                                                   alloc: Allocator<set<Item<L>>>, action: ActionTable, goto: GotoTable,
                                                   fullOf: map<LrState, set<Item<L>>>)
    requires Setting(p, itemsU, i0)
    requires Consistent(p, i0, Reach(p, itemsU, i0), alloc, fullOf)
    requires forall s :: s in fullOf ==> Done(p, s, fullOf[s], alloc.toState, action, goto)
    requires KeyInjective(p, Reach(p, itemsU, i0))
    ensures fullOf.Values == Reach(p, itemsU, i0)
    ensures Count(alloc) == |Reach(p, itemsU, i0)|
  {
    var r := Reach(p, itemsU, i0);
    var v := fullOf.Values;
    ReachFacts(p, itemsU, i0);
    assert v <= r;
    assert i0 in v by { assert fullOf[0] == i0; }
    assert ClosedUnder(v, SuccessorStep(p)) by {
      forall a | a in v ensures SuccessorStep(p)(a) <= v {
        var s :| s in fullOf && fullOf[s] == a;
        forall y | y in SuccessorSets(p, a) ensures y in v {
          var x :| x in Moves(a) && y == Successor(p, a, x);
          assert SuccessorStep(p)(a) <= r;
          assert SuccessorsAllocated(p, a, alloc.toState);
          var st := alloc.toState[Target(p, a, x)];
          assert alloc.toSet[st] == Target(p, a, x);
          assert fullOf[st] in r && p.key(fullOf[st]) == p.key(y);
        }
      }
    }
    assert r <= v;
    forall a, b | a in fullOf && b in fullOf && fullOf[a] == fullOf[b] ensures a == b {
      assert alloc.toState[alloc.toSet[a]] == a;
    }
    MapValuesCard(fullOf);
  }
}
