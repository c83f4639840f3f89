/**
 * LALR lookaheads over the LR(0) automaton interned by kernel: which lookaheads each kernel item
 * generates spontaneously in its successor states and to which kernel items it propagates its own,
 * the propagation to a fixpoint, the re-interning of the kernels with their lookaheads, and the
 * reductions of the resulting states.
 */
module LalrLookaheads {
  import opened Wrappers
  import opened Symbols
  import opened GrammarSets
  import opened LrItems
  import Enumerables
  import opened LrTables
  import opened LrStateAllocator
  import opened LrClosures
  import opened GraphSearch
  import opened LrAutomaton

  /** A kernel item of a state. */
  type Key = (LrState, Lr0Item)
  /** Lookaheads of the first key flow into the second. */
  type Edge = (Key, Key)
  /** A state, one of its kernel items, and a non-final item of that kernel item's LALR closure. */
  type Entry = (LrState, Lr0Item, LalrItem)

  datatype LookaheadInfo = LookaheadInfo(generates: map<Key, set<TermId>>, propagates: set<Edge>)

  function KernelKeys(kernels: map<LrState, set<Lr0Item>>): (r: set<Key>)
    ensures forall k :: k in r <==> k.0 in kernels && k.1 in kernels[k.0]
  {
    set s, it {:trigger it in kernels[s]} | s in kernels && it in kernels[s] :: (s, it)
  }

  /** A dictionary lookup that treats a missing key as the empty set. */
  function Get(m: map<Key, set<TermId>>, k: Key): set<TermId>
  {
    if k in m then m[k] else {}
  }

  function ClosureEntries(prods: set<Production>, first: FirstMap, kernels: map<LrState, set<Lr0Item>>): (r: set<Entry>)
    ensures forall e :: e in r <==> e.0 in kernels && e.1 in kernels[e.0] && e.2 in LalrClosure(prods, first, e.1) && !IsFinal(e.2)
  {
    set s, k, c {:trigger k in kernels[s], c in LalrClosure(prods, first, k)} | s in kernels && k in kernels[s] && c in LalrClosure(prods, first, k) && !IsFinal(c) :: (s, k, c)
  }

  /** The canonical LR(1) closure of every kernel item with lookahead `#`: what its LALR closure merges. */
  function KernelClosures(prods: set<Production>, first: FirstMap, kernels: map<LrState, set<Lr0Item>>): (r: set<set<ClrItem>>)
    ensures forall m :: m in r <==> exists s, k :: s in kernels && k in kernels[s] &&
                                                   m == ClrClosureOf(prods, first, {Item(k.prod, k.cursor, NotInGrammar)})
  {
    set s, k {:trigger k in kernels[s]} | s in kernels && k in kernels[s] :: ClrClosureOf(prods, first, {Item(k.prod, k.cursor, NotInGrammar)})
  }

  /** A lookahead other than `#` of an entry's closure item is a terminal of some FIRST set. */
  lemma EntryLookaheadKnown(prods: set<Production>, first: FirstMap, kernels: map<LrState, set<Lr0Item>>, e: Entry, t: TermId)
    requires e in ClosureEntries(prods, first, kernels) && t in e.2.la && t != NotInGrammar
    ensures t in FirstTerminals(first)
  {
    LalrClosureLookaheads(prods, first, e.1, e.2, t);
  }

  /** The kernel item an entry's closure item becomes in the successor state. */
  function Destination(e: Entry, target: LrState): Key
  {
    (target, Core(Next(e.2)))
  }

  // ------------------------------------------------------------------ reading the LR(0) tables

  /** The table has a successor of state `s` on `x`: a shift for a terminal, a goto for a nonterminal. */
  predicate HasTarget(action: ActionTable, goto: GotoTable, s: LrState, x: Option<Symbol>)
  {
    match x
    case Some(Terminal(t)) => exists a :: a in Cell(action, s, t) && a.Shift?
    case Some(Nonterminal(n)) => GotoGet(goto, s, n).Some?
    case _ => false
  }

  predicate TargetOf(action: ActionTable, goto: GotoTable, s: LrState, x: Option<Symbol>, target: LrState)
  {
    match x
    case Some(Terminal(t)) => Shift(target) in Cell(action, s, t)
    case Some(Nonterminal(n)) => GotoGet(goto, s, n) == Some(target)
    case _ => false
  }

  lemma TargetHasTarget(action: ActionTable, goto: GotoTable, s: LrState, x: Option<Symbol>, target: LrState)
    requires TargetOf(action, goto, s, x, target)
    ensures HasTarget(action, goto, s, x)
  {
    if x.Some? && x.value.Terminal? {
      assert Shift(target).Shift?;
    }
  }

  /** No action cell holds two different shifts. */
  ghost predicate SingleShifts(action: ActionTable)
  {
    forall s: LrState, t: TermId, a: LrState, b: LrState ::
      Shift(a) in Cell(action, s, t) && Shift(b) in Cell(action, s, t) ==> a == b
  }

  lemma TargetUnique(action: ActionTable, goto: GotoTable, s: LrState, x: Option<Symbol>, a: LrState, b: LrState)
    requires SingleShifts(action)
    requires TargetOf(action, goto, s, x, a) && TargetOf(action, goto, s, x, b)
    ensures a == b
  {
  }

  /**
   * The successor state of `s` on `x`: the first shift of the cell for a terminal, the goto entry for
   * a nonterminal. A missing entry raises, and so does the cast of ε to a nonterminal.
   */
  method Lookup(action: ActionTable, goto: GotoTable, s: LrState, x: Option<Symbol>) returns (r: Result<LrState>)
    requires x.Some?
    ensures r.Success? <==> HasTarget(action, goto, s, x)
    ensures r.Success? ==> TargetOf(action, goto, s, x, r.value)
    ensures r.Failure? ==> r.error == (if x.value.Epsilon? then InvalidCast else InvalidOperation)
  {
    match x.value {
      case Terminal(t) =>
        if a :| a in Cell(action, s, t) && a.Shift? {
          r := Success(a.state);
        } else {
          r := Failure(InvalidOperation);
        }
      case Nonterminal(n) =>
        var target := GotoGet(goto, s, n);
        if target.None? {
          r := Failure(InvalidOperation);
        } else {
          r := Success(target.value);
        }
      case Epsilon =>
        r := Failure(InvalidCast);
    }
  }

  // ------------------------------------------------------------------ spontaneous generation and propagation

  /**
   * `t` is generated spontaneously at `key`: `$` at the START items of state 0, or a lookahead other
   * than `#` of a closure item, at the item it advances to in the successor state.
   */
  ghost predicate Generated(prods: set<Production>, entries: set<Entry>, action: ActionTable, goto: GotoTable, key: Key, t: TermId)
  {
    || (key.0 == InitialState && key.1 in StartItems(prods, ()) && t == EndOfInput)
    || exists e, s :: e in entries && TargetOf(action, goto, e.0, AfterCursor(e.2), s) &&
                      key == Destination(e, s) && t in e.2.la && t != NotInGrammar
  }

  /** A closure item carrying `#` passes its kernel item's lookaheads on to the item it advances to. */
  ghost predicate Propagated(entries: set<Entry>, action: ActionTable, goto: GotoTable, edge: Edge)
  {
    exists e, s :: e in entries && TargetOf(action, goto, e.0, AfterCursor(e.2), s) &&
                   NotInGrammar in e.2.la && edge == ((e.0, e.1), Destination(e, s))
  }

  function InitialInfo(prods: set<Production>): LookaheadInfo
  {
    LookaheadInfo(map it | it in StartItems(prods, ()) :: (InitialState, it) := {EndOfInput}, {})
  }

  /** Records one closure item whose successor is `target`. */
  function AddEntry(info: LookaheadInfo, e: Entry, target: LrState): LookaheadInfo
  {
    var key := Destination(e, target);
    var spontaneous := e.2.la - {NotInGrammar};
    LookaheadInfo(
      if spontaneous == {} then info.generates else info.generates[key := Get(info.generates, key) + spontaneous],
      if NotInGrammar in e.2.la then info.propagates + {((e.0, e.1), key)} else info.propagates)
  }

  /** A generated lookahead comes from a START item (`$`) or from a chosen entry's lookaheads other than `#`. */
  ghost predicate ReflectsGenerates(prods: set<Production>, chosen: map<Entry, LrState>, info: LookaheadInfo)
  {
    forall key, t :: t in Get(info.generates, key) <==>
      || (key.0 == InitialState && key.1 in StartItems(prods, ()) && t == EndOfInput)
      || exists e :: e in chosen && key == Destination(e, chosen[e]) && t in e.2.la && t != NotInGrammar
  }

  /** A propagation edge comes from a chosen entry whose lookaheads hold `#`. */
  ghost predicate ReflectsPropagates(chosen: map<Entry, LrState>, info: LookaheadInfo)
  {
    forall edge :: edge in info.propagates <==>
      exists e :: e in chosen && NotInGrammar in e.2.la && edge == ((e.0, e.1), Destination(e, chosen[e]))
  }

  /** `info` holds exactly the facts of the START items and of the entries in `chosen`, with their targets. */
  ghost predicate Reflects(prods: set<Production>, chosen: map<Entry, LrState>, info: LookaheadInfo)
  {
    ReflectsGenerates(prods, chosen, info) && ReflectsPropagates(chosen, info)
  }

  lemma InitialReflects(prods: set<Production>)
    ensures Reflects(prods, map[], InitialInfo(prods))
  {
    var info := InitialInfo(prods);
    forall key, t
      ensures t in Get(info.generates, key) <==> key.0 == InitialState && key.1 in StartItems(prods, ()) && t == EndOfInput
    {
      if key.0 == InitialState && key.1 in StartItems(prods, ()) {
        assert key == (InitialState, key.1);
      }
    }
  }

  /** Some chosen entry generates `t` at `key`: `t` is one of its lookaheads other than `#`. */
  ghost predicate GeneratedBy(chosen: map<Entry, LrState>, key: (LrState, Lr0Item), t: TermId)
  {
    exists e :: e in chosen && key == Destination(e, chosen[e]) && t in e.2.la && t != NotInGrammar
  }

  /** Choosing a new entry adds exactly that entry's generated lookaheads. */
  lemma GeneratedByAdd(chosen: map<Entry, LrState>, e: Entry, target: LrState, key: (LrState, Lr0Item), t: TermId)
    requires e !in chosen
    ensures GeneratedBy(chosen[e := target], key, t) <==>
              GeneratedBy(chosen, key, t) || (key == Destination(e, target) && t in e.2.la && t != NotInGrammar)
  {
    var chosen' := chosen[e := target];
    if GeneratedBy(chosen, key, t) {
      var e' :| e' in chosen && key == Destination(e', chosen[e']) && t in e'.2.la && t != NotInGrammar;
      assert e' in chosen' && chosen'[e'] == chosen[e'];
    }
    if key == Destination(e, target) && t in e.2.la && t != NotInGrammar {
      assert e in chosen' && chosen'[e] == target;
    }
    if GeneratedBy(chosen', key, t) {
      var e' :| e' in chosen' && key == Destination(e', chosen'[e']) && t in e'.2.la && t != NotInGrammar;
      if e' != e {
        assert e' in chosen && chosen[e'] == chosen'[e'];
      }
    }
  }

  lemma AddEntryGenerates(prods: set<Production>, chosen: map<Entry, LrState>, info: LookaheadInfo, e: Entry, target: LrState)
    requires ReflectsGenerates(prods, chosen, info) && e !in chosen
    ensures ReflectsGenerates(prods, chosen[e := target], AddEntry(info, e, target))
  {
    var chosen' := chosen[e := target];
    var info' := AddEntry(info, e, target);
    forall key, t
      ensures t in Get(info'.generates, key) <==>
                || (key.0 == InitialState && key.1 in StartItems(prods, ()) && t == EndOfInput)
                || GeneratedBy(chosen', key, t)
    {
      assert Get(info'.generates, key) ==
             Get(info.generates, key) + (if key == Destination(e, target) then e.2.la - {NotInGrammar} else {});
      assert t in Get(info.generates, key) <==>
               || (key.0 == InitialState && key.1 in StartItems(prods, ()) && t == EndOfInput)
               || GeneratedBy(chosen, key, t);
      GeneratedByAdd(chosen, e, target, key, t);
    }
  }

  lemma AddEntryPropagates(chosen: map<Entry, LrState>, info: LookaheadInfo, e: Entry, target: LrState)
    requires ReflectsPropagates(chosen, info) && e !in chosen
    ensures ReflectsPropagates(chosen[e := target], AddEntry(info, e, target))
  {
    var chosen' := chosen[e := target];
    var info' := AddEntry(info, e, target);
    forall edge
      ensures edge in info'.propagates <==>
                exists e' :: e' in chosen' && NotInGrammar in e'.2.la && edge == ((e'.0, e'.1), Destination(e', chosen'[e']))
    {
      if exists e' :: e' in chosen && NotInGrammar in e'.2.la && edge == ((e'.0, e'.1), Destination(e', chosen[e'])) {
        var e' :| e' in chosen && NotInGrammar in e'.2.la && edge == ((e'.0, e'.1), Destination(e', chosen[e']));
        assert e' in chosen' && chosen'[e'] == chosen[e'];
      }
      if exists e' :: e' in chosen' && NotInGrammar in e'.2.la && edge == ((e'.0, e'.1), Destination(e', chosen'[e'])) {
        var e' :| e' in chosen' && NotInGrammar in e'.2.la && edge == ((e'.0, e'.1), Destination(e', chosen'[e']));
        if e' != e {
          assert e' in chosen && chosen[e'] == chosen'[e'];
        }
      }
    }
  }

  /** Adding an entry not yet chosen keeps `Reflects`: the facts it adds are exactly that entry's. */
  lemma AddEntryReflects(prods: set<Production>, chosen: map<Entry, LrState>, info: LookaheadInfo, e: Entry, target: LrState)
    requires Reflects(prods, chosen, info) && e !in chosen
    ensures Reflects(prods, chosen[e := target], AddEntry(info, e, target))
  {
    AddEntryGenerates(prods, chosen, info, e, target);
    AddEntryPropagates(chosen, info, e, target);
  }


  /** Once every entry has its table target, the recorded facts are the declared ones. */
  lemma ReflectsDeclared(prods: set<Production>, entries: set<Entry>, action: ActionTable, goto: GotoTable,
                         chosen: map<Entry, LrState>, info: LookaheadInfo)
    requires Reflects(prods, chosen, info)
    requires chosen.Keys == entries
    requires forall e :: e in chosen ==> TargetOf(action, goto, e.0, AfterCursor(e.2), chosen[e])
    ensures forall key, t :: t in Get(info.generates, key) ==> Generated(prods, entries, action, goto, key, t)
    ensures forall edge :: edge in info.propagates ==> Propagated(entries, action, goto, edge)
    ensures SingleShifts(action) ==> forall key, t :: Generated(prods, entries, action, goto, key, t) ==> t in Get(info.generates, key)
    ensures SingleShifts(action) ==> forall edge :: Propagated(entries, action, goto, edge) ==> edge in info.propagates
  {
    forall key, t | t in Get(info.generates, key)
      ensures Generated(prods, entries, action, goto, key, t)
    {
      if !(key.0 == InitialState && key.1 in StartItems(prods, ()) && t == EndOfInput) {
        var e :| e in chosen && key == Destination(e, chosen[e]) && t in e.2.la && t != NotInGrammar;
        assert TargetOf(action, goto, e.0, AfterCursor(e.2), chosen[e]);
      }
    }
    forall edge | edge in info.propagates
      ensures Propagated(entries, action, goto, edge)
    {
      var e :| e in chosen && NotInGrammar in e.2.la && edge == ((e.0, e.1), Destination(e, chosen[e]));
      assert TargetOf(action, goto, e.0, AfterCursor(e.2), chosen[e]);
    }
    if SingleShifts(action) {
      forall key, t | Generated(prods, entries, action, goto, key, t)
        ensures t in Get(info.generates, key)
      {
        if !(key.0 == InitialState && key.1 in StartItems(prods, ()) && t == EndOfInput) {
          var e, s :| e in entries && TargetOf(action, goto, e.0, AfterCursor(e.2), s) &&
                      key == Destination(e, s) && t in e.2.la && t != NotInGrammar;
          TargetUnique(action, goto, e.0, AfterCursor(e.2), s, chosen[e]);
        }
      }
      forall edge | Propagated(entries, action, goto, edge)
        ensures edge in info.propagates
      {
        var e, s :| e in entries && TargetOf(action, goto, e.0, AfterCursor(e.2), s) &&
                    NotInGrammar in e.2.la && edge == ((e.0, e.1), Destination(e, s));
        TargetUnique(action, goto, e.0, AfterCursor(e.2), s, chosen[e]);
      }
    }
  }

  /** Items of an LALR closure of a valid item are valid. */
  lemma LalrClosureValid(prods: set<Production>, first: FirstMap, k: Lr0Item)
    requires ValidItem(k)
    ensures forall c :: c in LalrClosure(prods, first, k) ==> ValidItem(c)
  {
    var items := ClrClosureOf(prods, first, {Item(k.prod, k.cursor, NotInGrammar)});
    forall c | c in LalrClosure(prods, first, k)
      ensures ValidItem(c)
    {
      var w := MergedCoreFrom(items, c);
      ClrClosureItemValid(prods, first, Item(k.prod, k.cursor, NotInGrammar), w);
    }
  }

  /** The core of an LALR closure item of a state's kernel item lies in that state's LR(0) item set. */
  lemma LalrClosureCoreIn(prods: set<Production>, first: FirstMap, kernel: set<Lr0Item>, k: Lr0Item, c: LalrItem)
    requires k in kernel && ValidItem(k)
    requires c in LalrClosure(prods, first, k)
    ensures Core(c) in Lr0ClosureOf(prods, kernel)
  {
    var seed := Item(k.prod, k.cursor, NotInGrammar);
    var w := MergedCoreFrom(ClrClosureOf(prods, first, {seed}), c);
    ClrClosureCoresOfOne(prods, first, seed);
    Lr0ItemIsCore(k);
    assert Core(seed) == k;
    Lr0ClosureMonotone(prods, {k}, kernel);
  }

  /** The loop state of `GenerateLookaheadInfo` after the first `i` entries of the enumeration `es`. */
  ghost predicate InfoLoop(prods: set<Production>, action: ActionTable, goto: GotoTable, es: seq<Entry>, i: int,
                           chosen: map<Entry, LrState>, info: LookaheadInfo)
  {
    && 0 <= i <= |es|
    && (forall e :: e in chosen <==> e in es[..i])
    && (forall e :: e in chosen ==> TargetOf(action, goto, e.0, AfterCursor(e.2), chosen[e]))
    && Reflects(prods, chosen, info)
    && (forall edge :: edge in info.propagates ==> edge.1.1.cursor >= 1)
  }

  lemma InfoStep(prods: set<Production>, action: ActionTable, goto: GotoTable, es: seq<Entry>, i: int,
                 chosen: map<Entry, LrState>, info: LookaheadInfo, target: LrState)
    requires InfoLoop(prods, action, goto, es, i, chosen, info) && i < |es| && Distinct(es)
    requires ValidItem(es[i].2) && !IsFinal(es[i].2)
    requires TargetOf(action, goto, es[i].0, AfterCursor(es[i].2), target)
    ensures InfoLoop(prods, action, goto, es, i + 1, chosen[es[i] := target], AddEntry(info, es[i], target))
  {
    var e := es[i];
    assert e !in es[..i] by {
      forall j | 0 <= j < i ensures es[j] != e { }
    }
    AddEntryReflects(prods, chosen, info, e, target);
    assert Next(e.2).cursor == e.2.cursor + 1;
    Enumerables.TakeNext(es, i);
  }

  /**
   * The loop of `GenerateLalrLookaheadInfo` over an enumeration of the closure entries: it stops at
   * the first entry whose successor is missing, and otherwise records every entry's target.
   */
  method CollectInfo(prods: set<Production>, action: ActionTable, goto: GotoTable, es: seq<Entry>)
    returns (r: Result<LookaheadInfo>, ghost chosen: map<Entry, LrState>)
    requires Distinct(es)
    requires forall j :: 0 <= j < |es| ==> ValidItem(es[j].2) && AfterCursor(es[j].2).Some?
    ensures r.Failure? ==> exists j :: 0 <= j < |es| && !HasTarget(action, goto, es[j].0, AfterCursor(es[j].2))
    ensures r.Failure? ==> r.error == InvalidOperation || r.error == InvalidCast
    ensures r.Success? ==> InfoLoop(prods, action, goto, es, |es|, chosen, r.value)
  {
    var info := InitialInfo(prods);
    chosen := map[];
    InitialReflects(prods);
    var i := 0;
    while i < |es|
      invariant InfoLoop(prods, action, goto, es, i, chosen, info)
    {
      var target := Lookup(action, goto, es[i].0, AfterCursor(es[i].2));
      if target.Failure? {
        return Failure(target.error), chosen;
      }
      InfoStep(prods, action, goto, es, i, chosen, info, target.value);
      chosen := chosen[es[i] := target.value];
      info := AddEntry(info, es[i], target.value);
      i := i + 1;
    }
    r := Success(info);
  }

  /**
   * `GenerateLalrLookaheadInfo`: for each kernel item of each state and each non-final item of its
   * LALR closure, a `#` lookahead makes a propagation edge to the advanced item in the successor
   * state, and every other lookahead is generated there spontaneously; `$` is generated for the START
   * items of state 0. It fails exactly when some successor is missing from the tables.
   */
  method GenerateLookaheadInfo(prods: set<Production>, first: FirstMap, kernels: map<LrState, set<Lr0Item>>,
                               action: ActionTable, goto: GotoTable) returns (r: Result<LookaheadInfo>)
    requires forall s, k :: s in kernels && k in kernels[s] ==> ValidItem(k)
    ensures r.Success? <==> forall e :: e in ClosureEntries(prods, first, kernels) ==> HasTarget(action, goto, e.0, AfterCursor(e.2))
    ensures r.Failure? ==> r.error == InvalidOperation || r.error == InvalidCast
    ensures r.Success? ==> forall key, t :: t in Get(r.value.generates, key) ==>
              Generated(prods, ClosureEntries(prods, first, kernels), action, goto, key, t)
    ensures r.Success? ==> forall edge :: edge in r.value.propagates ==>
              Propagated(ClosureEntries(prods, first, kernels), action, goto, edge)
    ensures r.Success? && SingleShifts(action) ==> forall key, t ::
              Generated(prods, ClosureEntries(prods, first, kernels), action, goto, key, t) ==> t in Get(r.value.generates, key)
    ensures r.Success? && SingleShifts(action) ==> forall edge ::
              Propagated(ClosureEntries(prods, first, kernels), action, goto, edge) ==> edge in r.value.propagates
    ensures r.Success? ==> forall edge :: edge in r.value.propagates ==> edge.1.1.cursor >= 1
  {
    var entries := ClosureEntries(prods, first, kernels);
    forall e | e in entries
      ensures ValidItem(e.2) && AfterCursor(e.2).Some?
    {
      LalrClosureValid(prods, first, e.1);
    }
    var es := Enumerate(entries);
    var collected;
    ghost var chosen;
    collected, chosen := CollectInfo(prods, action, goto, es);
    if collected.Failure? {
      return collected;
    }
    var info := collected.value;
    var i := |es|;
    assert es[..i] == es;
    forall e | e in entries
      ensures HasTarget(action, goto, e.0, AfterCursor(e.2))
    {
      TargetHasTarget(action, goto, e.0, AfterCursor(e.2), chosen[e]);
    }
    ReflectsDeclared(prods, entries, action, goto, chosen, info);
    r := Success(info);
  }
}
