/**
 * Item-set closures: LR(0), canonical LR(1) and the per-item LALR closure used for lookahead
 * discovery. Each closure is the least set containing the seeds and closed under "add the initial
 * items of every production of the nonterminal after the cursor", computed by depth-first search.
 */
module LrClosures {
  import opened Wrappers
  import opened Symbols
  import opened GrammarSets
  import opened LrItems
  import opened GraphSearch

  /** The productions of the nonterminal after the cursor, if any. */
  function ItemProductions<L>(prods: set<Production>, it: Item<L>): (r: set<Production>)
    ensures r <= prods
    ensures forall p :: p in r <==> p in prods && AfterCursor(it) == Some(Nonterminal(p.left))
  {
    match AfterCursor(it)
    case Some(Nonterminal(n)) => ProductionsOf(prods, n)
    case _ => {}
  }

  /** The initial items of all productions (the only items a closure adds). */
  function InitialItems<L(==,!new)>(prods: set<Production>, las: set<L>): (r: set<Item<L>>)
    ensures forall it :: it in r <==> it.prod in prods && it.cursor == 0 && it.la in las
  {
    set p, l {:trigger p in prods, l in las} | p in prods && l in las :: Item(p, 0, l)
  }

  /** Every item over `prods` with a lookahead from `las`. */
  function AllItems<L(==,!new)>(prods: set<Production>, las: set<L>): (r: set<Item<L>>)
    ensures forall it :: it in r <==> it.prod in prods && ValidItem(it) && it.la in las
  {
    set p, c, l | p in prods && 0 <= c <= |p.right| && l in las :: Item(p, c, l)
  }

  /** The START productions with the cursor at 0. */
  function StartItems<L(==,!new)>(prods: set<Production>, la: L): (r: set<Item<L>>)
    ensures forall it :: it in r <==> it.prod in prods && it.prod.left == Start && it.cursor == 0 && it.la == la
  {
    set p {:trigger p in ProductionsOf(prods, Start)} | p in ProductionsOf(prods, Start) :: Item(p, 0, la)
  }

  // ------------------------------------------------------------------ LR(0)

  function Lr0Neighbors(prods: set<Production>, it: Lr0Item): (r: set<Lr0Item>)
    ensures forall p :: Item(p, 0, ()) in r <==> p in ItemProductions(prods, it)
    ensures forall x :: x in r ==> x.cursor == 0
  {
    set p {:trigger p in ItemProductions(prods, it)} | p in ItemProductions(prods, it) :: Item(p, 0, ())
  }

  function Lr0Step(prods: set<Production>): Lr0Item -> set<Lr0Item>
  {
    it => Lr0Neighbors(prods, it)
  }

  /**
   * The LR(0) closure: contains the seeds and, for each item with B after the cursor, the initial
   * item of every B-production; nothing else.
   */
  function Lr0ClosureOf(prods: set<Production>, seeds: set<Lr0Item>): (r: set<Lr0Item>)
    ensures IsLeastClosure(seeds, Lr0Step(prods), r)
    ensures seeds <= r
    ensures r <= seeds + InitialItems(prods, {()})
  {
    var universe := seeds + InitialItems(prods, {()});
    assert ClosedUnder(universe, Lr0Step(prods));
    Closure(universe, seeds, Lr0Step(prods))
  }

  /** A closure item with B after the cursor brings in the initial item of every B-production. */
  lemma Lr0ClosureAdds(prods: set<Production>, seeds: set<Lr0Item>, it: Lr0Item, p: Production)
    requires it in Lr0ClosureOf(prods, seeds) && p in ItemProductions(prods, it)
    ensures Item(p, 0, ()) in Lr0ClosureOf(prods, seeds)
  {
    assert Item(p, 0, ()) in Lr0Step(prods)(it);
  }

  /** `Lr0Closure` as the source computes it: a depth-first search from the seeds. */
  method Lr0Closure(prods: set<Production>, seeds: seq<Lr0Item>) returns (r: set<Lr0Item>)
    ensures r == Lr0ClosureOf(prods, FromSeq(seeds))
  {
    var seedSet := FromSeq(seeds);
    ghost var universe := seedSet + InitialItems(prods, {()});
    assert ClosedUnder(universe, Lr0Step(prods));
    ghost var pushes;
    r, pushes := Dfs(seeds, Lr0Step(prods), universe);
    assert (set x | x in seeds) == seedSet;
    LeastClosureUnique(seedSet, Lr0Step(prods), r, Lr0ClosureOf(prods, seedSet));
  }

  /** More seeds give a larger closure. */
  lemma Lr0ClosureMonotone(prods: set<Production>, a: set<Lr0Item>, b: set<Lr0Item>)
    requires a <= b
    ensures Lr0ClosureOf(prods, a) <= Lr0ClosureOf(prods, b)
  {
    var cb := Lr0ClosureOf(prods, b);
    assert a <= cb && ClosedUnder(cb, Lr0Step(prods));
  }

  /** Closing a closure changes nothing. */
  lemma Lr0ClosureIdempotent(prods: set<Production>, seeds: set<Lr0Item>)
    ensures Lr0ClosureOf(prods, Lr0ClosureOf(prods, seeds)) == Lr0ClosureOf(prods, seeds)
  {
    var c := Lr0ClosureOf(prods, seeds);
    LeastClosureBetween(seeds, c, Lr0Step(prods), c);
    LeastClosureUnique(c, Lr0Step(prods), c, Lr0ClosureOf(prods, c));
  }

  /**
   * A closure is recovered from its kernel items when the seeds were kernel items: this is why LALR
   * can intern states by kernel alone.
   */
  lemma {:induction false} Lr0ClosureOfKernel(prods: set<Production>, seeds: set<Lr0Item>)
    requires forall it :: it in seeds ==> IsKernel(it)
    ensures Lr0ClosureOf(prods, KernelItems(Lr0ClosureOf(prods, seeds))) == Lr0ClosureOf(prods, seeds)
  {
    var c := Lr0ClosureOf(prods, seeds);
    var k := KernelItems(c);
    assert seeds <= k <= c;
    LeastClosureBetween(seeds, k, Lr0Step(prods), c);
    LeastClosureUnique(k, Lr0Step(prods), c, Lr0ClosureOf(prods, k));
  }

  /** Item sets closed from kernel seeds are equal exactly when their kernels are. */
  lemma Lr0KernelInjective(prods: set<Production>, a: set<Lr0Item>, b: set<Lr0Item>)
    requires forall it :: it in a ==> IsKernel(it)
    requires forall it :: it in b ==> IsKernel(it)
    ensures KernelItems(Lr0ClosureOf(prods, a)) == KernelItems(Lr0ClosureOf(prods, b))
            <==> Lr0ClosureOf(prods, a) == Lr0ClosureOf(prods, b)
  {
    Lr0ClosureOfKernel(prods, a);
    Lr0ClosureOfKernel(prods, b);
  }

  // ------------------------------------------------------------------ canonical LR(1)

  /** The right side after the symbol after the cursor. */
  function Rest<L>(it: Item<L>): seq<Symbol>
  {
    if it.cursor < |it.prod.right| then it.prod.right[it.cursor + 1..] else []
  }

  /** The lookaheads of the items a CLR item adds: the terminals of FIRST(rest ++ [lookahead]). */
  function LookaheadsAfter(first: FirstMap, it: ClrItem): (r: set<TermId>)
    ensures FirstOfSequence(first, Rest(it) + [Terminal(it.la)]).Success? ==>
              r == TerminalsOf(FirstOfSequence(first, Rest(it) + [Terminal(it.la)]).value)
  {
    match FirstOfSequence(first, Rest(it) + [Terminal(it.la)])
    case Success(v) => TerminalsOf(v)
    case Failure(_) => {}
  }

  lemma LookaheadsAfterBounded(first: FirstMap, it: ClrItem)
    ensures LookaheadsAfter(first, it) <= FirstTerminals(first)
  {
    var s := Rest(it) + [Terminal(it.la)];
    var r := FirstOfSequence(first, s);
    if r.Success? {
      forall t | t in LookaheadsAfter(first, it)
        ensures t in FirstTerminals(first)
      {
        assert Terminal(t) in r.value;
        var i :| 0 <= i < |s| && PrefixNullable(first, s, i) && Known(first, s[i]) && Terminal(t) in first[s[i]];
      }
    }
  }

  function ClrNeighbors(prods: set<Production>, first: FirstMap, it: ClrItem): (r: set<ClrItem>)
    ensures forall x :: x in r <==> x.prod in ItemProductions(prods, it) && x.cursor == 0 && x.la in LookaheadsAfter(first, it)
  {
    set p, t {:trigger p in ItemProductions(prods, it), t in LookaheadsAfter(first, it)} | p in ItemProductions(prods, it) && t in LookaheadsAfter(first, it) :: Item(p, 0, t)
  }

  function ClrStep(prods: set<Production>, first: FirstMap): ClrItem -> set<ClrItem>
  {
    it => ClrNeighbors(prods, first, it)
  }

  /**
   * The CLR closure: contains the seeds and, for each item [A -> α . B β, a], the item [B -> . γ, t]
   * for every B-production and every terminal t of FIRST(β a); nothing else.
   */
  function ClrClosureOf(prods: set<Production>, first: FirstMap, seeds: set<ClrItem>): (r: set<ClrItem>)
    ensures IsLeastClosure(seeds, ClrStep(prods, first), r)
    ensures seeds <= r
    ensures r <= seeds + InitialItems(prods, FirstTerminals(first))
  {
    var universe := seeds + InitialItems(prods, FirstTerminals(first));
    forall it | it in universe
      ensures ClrStep(prods, first)(it) <= universe
    {
      LookaheadsAfterBounded(first, it);
    }
    Closure(universe, seeds, ClrStep(prods, first))
  }

  /**
   * A closure item [A -> α . B β, a] brings in [B -> . γ, t] for every B-production and every
   * terminal t of FIRST(β a).
   */
  lemma ClrClosureAdds(prods: set<Production>, first: FirstMap, seeds: set<ClrItem>, it: ClrItem, p: Production, t: TermId)
    requires it in ClrClosureOf(prods, first, seeds) && p in ItemProductions(prods, it) && t in LookaheadsAfter(first, it)
    ensures Item(p, 0, t) in ClrClosureOf(prods, first, seeds)
  {
    assert Item(p, 0, t) in ClrStep(prods, first)(it);
  }

  /**
   * The source's `grammar.FirstSet(after)` for a CLR item: FIRST of the rest and the lookahead, with
   * FIRST computed on first use, so it raises on an ε after the cursor's symbol, on a symbol without a
   * FIRST set, or with the error that computing FIRST raised.
   */
  function LookaheadFirst(fs: Result<FirstMap>, it: ClrItem): Result<set<Symbol>>
  {
    LazyFirstOfSequence(fs, Rest(it) + [Terminal(it.la)])
  }

  /**
   * An item whose neighbours the source cannot list: it has productions to add, so the lookahead
   * lookup is made, and that lookup raises.
   */
  predicate Stuck(prods: set<Production>, fs: Result<FirstMap>, it: ClrItem)
  {
    ItemProductions(prods, it) != {} && LookaheadFirst(fs, it).Failure?
  }

  function StuckIn(prods: set<Production>, fs: Result<FirstMap>, items: set<ClrItem>): (r: set<ClrItem>)
    ensures forall it :: it in r <==> it in items && Stuck(prods, fs, it)
  {
    set it | it in items && Stuck(prods, fs, it)
  }

  /**
   * Wherever the source does list an item's neighbours, the lookaheads the closure uses are exactly the
   * terminals of the lookup, so the closure over `FirstOrEmpty(fs)` agrees with the source on every
   * item that is not stuck; an item without productions to add has no neighbours either way.
   */
  lemma LookaheadsAfterLazy(prods: set<Production>, fs: Result<FirstMap>, it: ClrItem)
    requires !Stuck(prods, fs, it)
    ensures ItemProductions(prods, it) != {} ==>
              LookaheadFirst(fs, it).Success? && fs.Success? &&
              LookaheadsAfter(FirstOrEmpty(fs), it) == TerminalsOf(LookaheadFirst(fs, it).value)
    ensures ItemProductions(prods, it) == {} ==> ClrNeighbors(prods, FirstOrEmpty(fs), it) == {}
  {
  }

  /** An item of a recorded production whose lookahead has a FIRST set is never stuck when FIRST is computed. */
  lemma KnownItemNotStuck(prods: set<Production>, terminals: set<TermId>, nonterminals: set<NtId>, first: FirstMap, it: ClrItem)
    requires FirstShape(terminals, nonterminals, first)
    requires KnownSymbols(it.prod.right, terminals, nonterminals)
    requires Known(first, Terminal(it.la))
    ensures !Stuck(prods, Success(first), it)
  {
    var s := Rest(it) + [Terminal(it.la)];
    KnownSymbolsKnown(first, terminals, nonterminals, it.prod.right);
    forall i | 0 <= i < |s|
      ensures Known(first, s[i])
    {
      if i < |Rest(it)| {
        assert s[i] == it.prod.right[it.cursor + 1 + i];
      }
    }
    KnownSequenceFirst(first, s);
  }

  /** No item of any of the item sets is stuck. */
  ghost predicate NoneStuck(prods: set<Production>, fs: Result<FirstMap>, family: set<set<ClrItem>>)
  {
    forall m, it :: m in family && it in m ==> !Stuck(prods, fs, it)
  }

  /** Some item of one of the item sets is stuck, and its lookup raises `e`. */
  ghost predicate StuckWith(prods: set<Production>, fs: Result<FirstMap>, family: set<set<ClrItem>>, e: Exception)
  {
    exists m, it :: m in family && it in m && Stuck(prods, fs, it) && LookaheadFirst(fs, it).error == e
  }

  /** A stuck item of one of the given item sets, if any of them holds one. */
  method FindStuck(prods: set<Production>, fs: Result<FirstMap>, family: set<set<ClrItem>>) returns (r: Option<ClrItem>)
    ensures r.None? <==> NoneStuck(prods, fs, family)
    ensures r.Some? ==> Stuck(prods, fs, r.value) && exists m :: m in family && r.value in m
    ensures r.Some? ==> StuckWith(prods, fs, family, LookaheadFirst(fs, r.value).error)
  {
    var stuck := set m, it | m in family && it in m && Stuck(prods, fs, it) :: it;
    forall m, it | m in family && it in m && Stuck(prods, fs, it)
      ensures it in stuck
    {
    }
    if stuck == {} {
      return None;
    }
    var it :| it in stuck;
    r := Some(it);
  }

  /**
   * `ClrClosure` as the source computes it: a depth-first search from the seeds that raises at the first
   * stuck item it reaches. Every item the search reaches before raising is in the closure over
   * `FirstOrEmpty(fs)`, and the search reaches all of that closure when it does not raise, so it raises
   * exactly when that closure holds a stuck item; which stuck item comes first is the hash order of the
   * source's sets, left open here.
   */
  method ClrClosure(prods: set<Production>, fs: Result<FirstMap>, seeds: seq<ClrItem>) returns (r: Result<set<ClrItem>>)
    ensures r.Success? <==> forall it :: it in ClrClosureOf(prods, FirstOrEmpty(fs), FromSeq(seeds)) ==> !Stuck(prods, fs, it)
    ensures r.Success? ==> r.value == ClrClosureOf(prods, FirstOrEmpty(fs), FromSeq(seeds))
    ensures r.Failure? ==> exists it :: it in ClrClosureOf(prods, FirstOrEmpty(fs), FromSeq(seeds)) && Stuck(prods, fs, it) &&
                                        r.error == LookaheadFirst(fs, it).error
  {
    var first := FirstOrEmpty(fs);
    var seedSet := FromSeq(seeds);
    ghost var universe := seedSet + InitialItems(prods, FirstTerminals(first));
    forall it | it in universe
      ensures ClrStep(prods, first)(it) <= universe
    {
      LookaheadsAfterBounded(first, it);
    }
    var items;
    ghost var pushes;
    items, pushes := Dfs(seeds, ClrStep(prods, first), universe);
    assert (set x | x in seeds) == seedSet;
    LeastClosureUnique(seedSet, ClrStep(prods, first), items, ClrClosureOf(prods, first, seedSet));
    var stuck := StuckIn(prods, fs, items);
    if stuck != {} {
      var it :| it in stuck;
      return Failure(LookaheadFirst(fs, it).error);
    }
    r := Success(items);
  }

  /** Dropping lookaheads maps the CLR closure onto the LR(0) closure of the seeds' cores. */
  lemma {:induction false} ClrClosureCores(prods: set<Production>, first: FirstMap, seeds: set<ClrItem>)
    requires forall it :: it in seeds ==> ValidItem(it)
    ensures forall it :: it in ClrClosureOf(prods, first, seeds) ==> Core(it) in Lr0ClosureOf(prods, set s | s in seeds :: Core(s))
  {
    var c := ClrClosureOf(prods, first, seeds);
    var l := Lr0ClosureOf(prods, set s | s in seeds :: Core(s));
    var back := set it | it in seeds + InitialItems(prods, FirstTerminals(first)) && Core(it) in l;
    forall it | it in back
      ensures ClrStep(prods, first)(it) <= back
    {
      LookaheadsAfterBounded(first, it);
      forall x | x in ClrStep(prods, first)(it)
        ensures Core(x) in l
      {
        assert Core(x) in Lr0Step(prods)(Core(it));
      }
    }
    assert seeds <= back;
  }

  /** The CLR closure of one item, with the lookaheads dropped, lies in the LR(0) closure of its core. */
  lemma ClrClosureCoresOfOne(prods: set<Production>, first: FirstMap, seed: ClrItem)
    requires ValidItem(seed)
    ensures forall it :: it in ClrClosureOf(prods, first, {seed}) ==> Core(it) in Lr0ClosureOf(prods, {Core(seed)})
  {
    assert (set s | s in {seed} :: Core(s)) == {Core(seed)};
    ClrClosureCores(prods, first, {seed});
  }

  // ------------------------------------------------------------------ LALR

  /** The CLR closure items with the given core. */
  function WithCore(items: set<ClrItem>, core: Lr0Item): (r: set<ClrItem>)
    ensures forall it :: it in r <==> it in items && Core(it) == core
  {
    set it | it in items && Core(it) == core
  }

  /** The lookaheads carried by a set of CLR items. */
  function Lookaheads(items: set<ClrItem>): (r: set<TermId>)
    ensures forall t :: t in r <==> exists it :: it in items && it.la == t
  {
    set it {:trigger it in items} | it in items :: it.la
  }

  /** The LALR item standing for all CLR items of one core. */
  function Merged(items: set<ClrItem>, core: Lr0Item): LalrItem
  {
    Item(core.prod, core.cursor, Lookaheads(WithCore(items, core)))
  }

  /** CLR items merged by core into LALR items, each core's lookaheads collected into one set. */
  function MergeByCore(items: set<ClrItem>): (r: set<LalrItem>)
    ensures forall x :: x in r ==> x.la != {} && x.la == Lookaheads(WithCore(items, Core(x)))
    ensures forall it :: it in items ==> exists x :: x in r && Core(x) == Core(it) && it.la in x.la
    ensures forall x, y :: x in r && y in r && Core(x) == Core(y) ==> x == y
  {
    var r := set c | c in Cores(items) :: Merged(items, c);
    forall x | x in r
      ensures x.la != {} && x.la == Lookaheads(WithCore(items, Core(x)))
    {
      var c :| c in Cores(items) && x == Merged(items, c);
      assert Core(x) == c;
      var w :| w in items && Core(w) == c;
      assert w.la in x.la;
    }
    forall it | it in items
      ensures exists x :: x in r && Core(x) == Core(it) && it.la in x.la
    {
      var x := Merged(items, Core(it));
      assert x in r && Core(x) == Core(it);
    }
    r
  }

  /** The CLR closure of a valid item holds only valid items: the others have their cursor at 0. */
  lemma ClrClosureItemValid(prods: set<Production>, first: FirstMap, seed: ClrItem, w: ClrItem)
    requires ValidItem(seed)
    requires w in ClrClosureOf(prods, first, {seed})
    ensures ValidItem(w)
  {
    if w != seed {
      assert w in InitialItems(prods, FirstTerminals(first));
    }
  }

  /** Every merged item's core is the core of some item that was merged. */
  lemma MergedCoreFrom(items: set<ClrItem>, x: LalrItem) returns (w: ClrItem)
    requires x in MergeByCore(items)
    ensures w in items && Core(w) == Core(x)
  {
    var l :| l in x.la;
    w :| w in WithCore(items, Core(x)) && w.la == l;
  }

  /**
   * `LalrClosure`: the CLR closure of the item with lookahead `#`, regrouped so that each core
   * carries the set of all its lookaheads.
   */
  function LalrClosure(prods: set<Production>, first: FirstMap, item: Lr0Item): set<LalrItem>
  {
    MergeByCore(ClrClosureOf(prods, first, {Item(item.prod, item.cursor, NotInGrammar)}))
  }

  /** Every lookahead of an LALR closure other than `#` is a terminal of some FIRST set. */
  lemma LalrClosureLookaheads(prods: set<Production>, first: FirstMap, item: Lr0Item, c: LalrItem, t: TermId)
    requires c in LalrClosure(prods, first, item) && t in c.la && t != NotInGrammar
    ensures t in FirstTerminals(first)
  {
    var items := ClrClosureOf(prods, first, {Item(item.prod, item.cursor, NotInGrammar)});
    assert t in Lookaheads(WithCore(items, Core(c)));
    var w :| w in WithCore(items, Core(c)) && w.la == t;
    assert w in InitialItems(prods, FirstTerminals(first));
  }
}
