/**
 * The lookahead-sensitive reduce path used to explain a conflict: a breadth-first search over nodes
 * (state, LR(0) item, lookahead set) of a built parsing table, from the START item of state 0 with
 * lookahead {$} to a node with the conflicting state, the reduce item and the conflicting terminal.
 * Two kinds of edge leave a node: a transition along the table (shift or goto on the symbol after the
 * cursor, lookaheads kept) and a production step (same state, a production of the nonterminal after
 * the cursor at cursor 0, with the precise lookahead set of what may follow it).
 */
module LookaheadPath {
  import opened Wrappers
  import opened Symbols
  import opened GrammarSets
  import opened LrItems
  import opened LrTables

  /** A search node: a state, an LR(0) item of it, and the terminals that may follow the item. */
  datatype LookaheadState = LookaheadState(state: LrState, item: Lr0Item, lookaheads: set<TermId>)

  /**
   * What the search reads from the parsing table and its grammar: the productions, the start symbol,
   * the FIRST map and nullable set of the grammar, the cores of state 0's items in enumeration
   * order, and the action and goto tables.
   */
  datatype SearchTable = SearchTable(
    prods: set<Production>,
    start: Option<NtId>,
    first: FirstMap,
    nullable: set<NtId>,
    initialItems: seq<Lr0Item>,
    action: ActionTable,
    goto: GotoTable)

  /** The symbols of the dangling-else grammar. */
  const Stmt: Symbol := Nonterminal(NtName("stmt"))
  const Expr: Symbol := Nonterminal(NtName("expr"))

  /** `stmt -> if expr then stmt else stmt`. */
  const IfThenElse: Production :=
    Production(NtName("stmt"), [Terminal(TermName("if")), Expr, Terminal(TermName("then")), Stmt, Terminal(TermName("else")), Stmt])

  // ------------------------------------------------------------------ precise lookahead

  /**
   * `PreciseLookaheadSet`: the terminals that may follow the nonterminal after the cursor, given the
   * lookaheads `context` of the item itself. It looks at the symbol after that nonterminal: none
   * gives the context, a terminal gives itself, a nonterminal gives the terminals of its FIRST set
   * and, when it is nullable, also what follows it in turn. ε there is a failed cast, and a
   * nonterminal without a FIRST set a failed lookup.
   */
  function PreciseLookaheadSet(t: SearchTable, item: Lr0Item, context: set<TermId>): (r: Result<set<TermId>>)
    requires item.cursor < |item.prod.right|
    ensures r.Failure? ==> r.error == InvalidCast || r.error == KeyNotFound
    ensures item.cursor + 1 == |item.prod.right| ==> r == Success(context)
    decreases |item.prod.right| - item.cursor
  {
    if item.cursor + 1 == |item.prod.right| then Success(context)
    else
      var x := item.prod.right[item.cursor + 1];
      match x
      case Terminal(a) => Success({a})
      case Epsilon => Failure(InvalidCast)
      case Nonterminal(nx) =>
        if x !in t.first then Failure(KeyNotFound)
        else
          var first := TerminalsOf(t.first[x]);
          if nx !in t.nullable then Success(first)
          else
            var followNext :- PreciseLookaheadSet(t, Next(item), context);
            Success(first + followNext)
  }

  /**
   * The FIRST map and nullable set describe the same grammar: a terminal's FIRST set is itself, and
   * a nonterminal's holds ε exactly when it is nullable.
   */
  ghost predicate FirstAgrees(first: FirstMap, nullable: set<NtId>)
  {
    && (forall x :: x in first && x.Terminal? ==> first[x] == {x})
    && (forall n :: Nonterminal(n) in first ==> (Epsilon in first[Nonterminal(n)] <==> n in nullable))
  }

  /** Every terminal of `s` has a FIRST set. */
  predicate TerminalsKnown(first: FirstMap, s: seq<Symbol>)
  {
    forall i :: 0 <= i < |s| && s[i].Terminal? ==> s[i] in first
  }

  /** The lookahead a FIRST set of the rest of an item gives: its terminals, and the context if ε. */
  function FollowOf(f: set<Symbol>, context: set<TermId>): set<TermId>
  {
    TerminalsOf(f) + (if Epsilon in f then context else {})
  }

  /**
   * The reference definition: the precise lookahead of an item is FOLLOW_L of the nonterminal after
   * its cursor, that is FIRST of the rest of the right side, with the context standing in for ε. It
   * fails exactly when FIRST of that rest does.
   */
  lemma {:induction false} PreciseIsFirstOfRest(t: SearchTable, item: Lr0Item, context: set<TermId>)
    requires item.cursor < |item.prod.right|
    requires FirstAgrees(t.first, t.nullable) && TerminalsKnown(t.first, item.prod.right)
    ensures PreciseLookaheadSet(t, item, context).Success? <==>
            FirstOfSequence(t.first, item.prod.right[item.cursor + 1..]).Success?
    ensures PreciseLookaheadSet(t, item, context).Success? ==>
            PreciseLookaheadSet(t, item, context).value ==
            FollowOf(FirstOfSequence(t.first, item.prod.right[item.cursor + 1..]).value, context)
    decreases |item.prod.right| - item.cursor
  {
    var right := item.prod.right;
    var rest := right[item.cursor + 1..];
    if item.cursor + 1 == |right| {
      assert rest == [];
      assert FollowOf({Epsilon}, context) == context;
    } else {
      var x := right[item.cursor + 1];
      assert rest[0] == x;
      match x
      case Terminal(a) =>
        assert t.first[x] == {x};
        assert FollowOf(TerminalPart({x}), context) == {a};
      case Epsilon =>
      case Nonterminal(nx) =>
        if x in t.first {
          var head := t.first[x];
          assert TerminalsOf(TerminalPart(head)) == TerminalsOf(head);
          if nx in t.nullable {
            var next := Next(item);
            assert rest[1..] == next.prod.right[next.cursor + 1..];
            PreciseIsFirstOfRest(t, next, context);
            var tail := FirstOfSequence(t.first, rest[1..]);
            if tail.Success? {
              assert FollowOf(TerminalPart(head) + tail.value, context)
                  == TerminalsOf(head) + FollowOf(tail.value, context);
            }
          }
        }
    }
  }

  // ------------------------------------------------------------------ edges

  /** The table moves on the symbol after the cursor: a shift on a terminal, the goto on a nonterminal. */
  ghost predicate Moves(t: SearchTable, state: LrState, item: Lr0Item, state': LrState, item': Lr0Item)
  {
    && AfterCursor(item).Some?
    && item' == Next(item)
    && match AfterCursor(item).value
       case Terminal(a) => Shift(state') in Cell(t.action, state, a)
       case Nonterminal(n) => GotoGet(t.goto, state, n) == Some(state')
       case Epsilon => false
  }

  /** A transition edge: a table move, with the lookaheads kept. */
  ghost predicate Transition(t: SearchTable, a: LookaheadState, b: LookaheadState)
  {
    Moves(t, a.state, a.item, b.state, b.item) && b.lookaheads == a.lookaheads
  }

  /**
   * A production edge: in the same state, the initial item of a production of the nonterminal after
   * the cursor, with the precise lookahead set of what follows that nonterminal.
   */
  ghost predicate ProductionStep(t: SearchTable, a: LookaheadState, b: LookaheadState)
  {
    && AfterCursor(a.item).Some?
    && AfterCursor(a.item).value.Nonterminal?
    && b.state == a.state
    && b.item == Item(b.item.prod, 0, ())
    && b.item.prod in ProductionsOf(t.prods, AfterCursor(a.item).value.n)
    && PreciseLookaheadSet(t, a.item, a.lookaheads) == Success(b.lookaheads)
  }

  ghost predicate Edge(t: SearchTable, a: LookaheadState, b: LookaheadState)
  {
    Transition(t, a, b) || ProductionStep(t, a, b)
  }

  /** Both kinds of edge lead to a valid item; a transition advances the cursor by one, a production step resets it. */
  lemma EdgeCursor(t: SearchTable, a: LookaheadState, b: LookaheadState)
    requires Edge(t, a, b)
    ensures ValidItem(b.item)
    ensures Transition(t, a, b) ==> b.item.cursor == a.item.cursor + 1 && b.item.prod == a.item.prod
    ensures ProductionStep(t, a, b) ==> b.item.cursor == 0 && b.item.prod.left == AfterCursor(a.item).value.n
  {
  }

  /**
   * `NextItem`: the successors of a state and item along the table. A terminal after the cursor
   * yields the target of every shift in its action cell, a nonterminal the goto target if there is
   * one; the cursor is advanced. ε after the cursor is a failed cast; a final item has no successor.
   */
  function NextItem(t: SearchTable, state: LrState, item: Lr0Item): (r: Result<set<(LrState, Lr0Item)>>)
    ensures r.Failure? <==> AfterCursor(item) == Some(Epsilon)
    ensures r.Failure? ==> r.error == InvalidCast
    ensures AfterCursor(item).None? ==> r == Success({})
    ensures r.Success? ==> forall s: LrState, it: Lr0Item :: (s, it) in r.value <==> Moves(t, state, item, s, it)
  {
    match AfterCursor(item)
    case None => Success({})
    case Some(Terminal(a)) =>
      Success(set act | act in Cell(t.action, state, a) && act.Shift? :: (act.state, Next(item)))
    case Some(Nonterminal(n)) =>
      (match GotoGet(t.goto, state, n)
       case None => Success({})
       case Some(to) => Success({(to, Next(item))}))
    case Some(Epsilon) => Failure(InvalidCast)
  }

  /** The goto table holds an entry for the state, so the older table keeps a dictionary row for it. */
  predicate HasGotoRow(goto: GotoTable, state: LrState)
  {
    exists k :: k in goto && k.0 == state
  }

  /**
   * `NextItem` as written, on a final item: there is no symbol after the cursor, the cast to a
   * nonterminal lets the null through, and the goto indexer of the older table looks the null key up
   * in the state's row, which raises ArgumentNullException once the state has a row. On every other
   * item it agrees with `NextItem`.
   */
  function NextItemAsWritten(t: SearchTable, state: LrState, item: Lr0Item): (r: Result<set<(LrState, Lr0Item)>>)
    ensures r == Failure(ArgumentNull) <==> AfterCursor(item).None? && HasGotoRow(t.goto, state)
    ensures AfterCursor(item).Some? ==> r == NextItem(t, state, item)
  {
    if AfterCursor(item).None? && HasGotoRow(t.goto, state) then Failure(ArgumentNull)
    else NextItem(t, state, item)
  }

  /**
   * START → S, S → B a, B → ε, with a goto from state 0 on B: two production steps from the START
   * node, through (0, S → ·B a, {$}), reach the final node (0, B → ·, {a}). Unless it is the
   * searched node it is queued and later dequeued, and its transition step then raises, where no
   * successor is evidently meant.
   */
  lemma FinalNodeRaisesAsWritten()
    ensures var prodStart := Production(Start, [Nonterminal(NtName("S"))]);
            var prodS := Production(NtName("S"), [Nonterminal(NtName("B")), Terminal(TermName("a"))]);
            var prodB := Production(NtName("B"), []);
            var t := SearchTable({prodStart, prodS, prodB}, Some(Start), map[], {NtName("B")},
                                 [Item(prodStart, 0, ())], map[], map[(InitialState, NtName("B")) := 1]);
            var root := InitialNode(Item(prodStart, 0, ()));
            var a := LookaheadState(InitialState, Item(prodS, 0, ()), {EndOfInput});
            var b := LookaheadState(InitialState, Item(prodB, 0, ()), {TermName("a")});
            && StartItem(t) == Some(Item(prodStart, 0, ()))
            && ProductionStep(t, root, a)
            && ProductionStep(t, a, b)
            && IsPath(t, root, [root, a, b])
            && NextItemAsWritten(t, b.state, b.item) == Failure(ArgumentNull)
            && NextItem(t, b.state, b.item) == Success({})
  {
    var prodStart := Production(Start, [Nonterminal(NtName("S"))]);
    var prodS := Production(NtName("S"), [Nonterminal(NtName("B")), Terminal(TermName("a"))]);
    var prodB := Production(NtName("B"), []);
    var t := SearchTable({prodStart, prodS, prodB}, Some(Start), map[], {NtName("B")},
                         [Item(prodStart, 0, ())], map[], map[(InitialState, NtName("B")) := 1]);
    var root := InitialNode(Item(prodStart, 0, ()));
    var a := LookaheadState(InitialState, Item(prodS, 0, ()), {EndOfInput});
    var b := LookaheadState(InitialState, Item(prodB, 0, ()), {TermName("a")});
    assert StartIndex(t.initialItems, t.start) == 0;
    assert ProductionStep(t, root, a);
    assert ProductionStep(t, a, b);
    assert EdgeAt(t, [root, a, b], 0) && EdgeAt(t, [root, a, b], 1);
    assert AfterCursor(Item(prodB, 0, ())).None?;
  }

  /** The transition neighbours of a node: each successor of `NextItem` with the node's lookaheads. */
  function TransitionNodes(t: SearchTable, a: LookaheadState): (r: Result<set<LookaheadState>>)
    ensures r.Failure? <==> AfterCursor(a.item) == Some(Epsilon)
    ensures r.Failure? ==> r.error == InvalidCast
    ensures r.Success? ==> forall b :: b in r.value <==> Transition(t, a, b)
  {
    var moves :- NextItem(t, a.state, a.item);
    Success(set m | m in moves :: LookaheadState(m.0, m.1, a.lookaheads))
  }

  /**
   * The production neighbours of a node. The precise lookahead set is computed before the
   * productions are enumerated, so its failure fails the step even when there is no production.
   */
  function ProductionNodes(t: SearchTable, a: LookaheadState): (r: Result<set<LookaheadState>>)
    ensures (AfterCursor(a.item).Some? && AfterCursor(a.item).value.Nonterminal?) ==>
              r.Failure? == PreciseLookaheadSet(t, a.item, a.lookaheads).Failure?
    ensures !(AfterCursor(a.item).Some? && AfterCursor(a.item).value.Nonterminal?) ==> r == Success({})
    ensures r.Failure? ==> r.error == InvalidCast || r.error == KeyNotFound
    ensures r.Success? ==> forall b :: b in r.value <==> ProductionStep(t, a, b)
  {
    match AfterCursor(a.item)
    case Some(Nonterminal(nt)) =>
      var follow :- PreciseLookaheadSet(t, a.item, a.lookaheads);
      Success(set p | p in ProductionsOf(t.prods, nt) :: LookaheadState(a.state, Item(p, 0, ()), follow))
    case _ => Success({})
  }

  // ------------------------------------------------------------------ start and target

  /** Position of the first item whose left side is the start symbol; `|items|` when there is none. */
  function StartIndex(items: seq<Lr0Item>, start: Option<NtId>): (k: nat)
    ensures k <= |items|
    ensures k < |items| ==> Some(items[k].prod.left) == start
    ensures forall j :: 0 <= j < k ==> Some(items[j].prod.left) != start
  {
    if |items| == 0 then 0
    else if Some(items[0].prod.left) == start then 0
    else 1 + StartIndex(items[1..], start)
  }

  /** The `First` item of state 0 with the start symbol on the left, if any; none without a start symbol. */
  function StartItem(t: SearchTable): (r: Option<Lr0Item>)
    ensures r.None? <==> forall j :: 0 <= j < |t.initialItems| ==> Some(t.initialItems[j].prod.left) != t.start
    ensures r.Some? ==> r.value.prod.left == t.start.value
  {
    var k := StartIndex(t.initialItems, t.start);
    if k < |t.initialItems| then Some(t.initialItems[k]) else None
  }

  /** The start node: state 0, the START item, lookahead {$}. */
  function InitialNode(item0: Lr0Item): (r: LookaheadState)
    ensures r.state == InitialState && r.item == item0 && r.lookaheads == {EndOfInput}
  {
    LookaheadState(InitialState, item0, {EndOfInput})
  }

  /** The node the search looks for: a state, the core of the reduce item, and the conflicting terminal. */
  datatype Target = Target(state: LrState, item: Lr0Item, term: TermId)

  /** `Lr0Equals`: same production and cursor, whatever the lookahead part. */
  predicate Lr0Equals<L>(a: Lr0Item, b: Item<L>)
  {
    a.prod == b.prod && a.cursor == b.cursor
  }

  predicate IsSearched(g: Target, s: LookaheadState)
  {
    s.state == g.state && Lr0Equals(s.item, g.item) && g.term in s.lookaheads
  }

  // ------------------------------------------------------------------ paths

  /** A path of the search graph from `init`: consecutive nodes are joined by an edge. */
  ghost predicate IsPath(t: SearchTable, init: LookaheadState, p: seq<LookaheadState>)
  {
    |p| >= 1 && p[0] == init && forall i :: 0 <= i < |p| - 1 ==> EdgeAt(t, p, i)
  }

  /** The nodes at `i` and `i + 1` are joined by an edge. */
  ghost predicate EdgeAt(t: SearchTable, p: seq<LookaheadState>, i: int)
    requires 0 <= i < |p| - 1
  {
    Edge(t, p[i], p[i + 1])
  }

  lemma PathPrefix(t: SearchTable, init: LookaheadState, p: seq<LookaheadState>, k: int)
    requires IsPath(t, init, p) && 1 <= k <= |p|
    ensures IsPath(t, init, p[..k])
  {
    forall i | 0 <= i < k - 1
      ensures EdgeAt(t, p[..k], i)
    {
      assert EdgeAt(t, p, i);
      assert p[..k][i] == p[i] && p[..k][i + 1] == p[i + 1];
    }
  }

  lemma PathExtend(t: SearchTable, init: LookaheadState, p: seq<LookaheadState>, c: LookaheadState)
    requires IsPath(t, init, p) && Edge(t, p[|p| - 1], c)
    ensures IsPath(t, init, p + [c])
  {
    var q := p + [c];
    forall i | 0 <= i < |q| - 1
      ensures EdgeAt(t, q, i)
    {
      if i < |p| - 1 {
        assert EdgeAt(t, p, i);
        assert q[i] == p[i] && q[i + 1] == p[i + 1];
      }
    }
  }

  /** A path of at least one edge ending at the searched node, no longer than any other such path. */
  ghost predicate ShortestReducePath(t: SearchTable, init: LookaheadState, g: Target, path: seq<LookaheadState>)
  {
    && IsPath(t, init, path)
    && |path| >= 2
    && IsSearched(g, path[|path| - 1])
    && forall q :: IsPath(t, init, q) && |q| >= 2 && IsSearched(g, q[|q| - 1]) ==> |path| <= |q|
  }

  /** No path of at least one edge reaches the searched node. */
  ghost predicate Unreachable(t: SearchTable, init: LookaheadState, g: Target)
  {
    forall q :: IsPath(t, init, q) && |q| >= 2 ==> !IsSearched(g, q[|q| - 1])
  }

  // ------------------------------------------------------------------ search nodes

  /** A node of the search tree: the root has no parent. */
  datatype SearchNode = Root(item: LookaheadState) | Child(item: LookaheadState, parent: SearchNode)

  /** The nodes from this one up to the root, child first. */
  function Ancestry(n: SearchNode): (r: seq<LookaheadState>)
    ensures |r| >= 1 && r[0] == n.item
  {
    match n
    case Root(x) => [x]
    case Child(x, parent) => [x] + Ancestry(parent)
  }

  function Reverse<T>(s: seq<T>): (r: seq<T>)
    ensures |r| == |s|
    ensures forall i :: 0 <= i < |s| ==> r[i] == s[|s| - 1 - i]
  {
    if s == [] then [] else Reverse(s[1..]) + [s[0]]
  }

  /** `YieldPath`: the parent chain, reversed, so the root comes first and the node itself last. */
  function YieldPath(n: SearchNode): (r: seq<LookaheadState>)
    ensures |r| >= 1 && r[|r| - 1] == n.item
    ensures n.Root? ==> r == [n.item]
  {
    Reverse(Ancestry(n))
  }

  /** The path a search node stands for, root first: its parent's path, then the node itself. */
  ghost function PathOf(n: SearchNode): (r: seq<LookaheadState>)
    ensures |r| >= 1 && r[|r| - 1] == n.item
  {
    match n
    case Root(x) => [x]
    case Child(x, parent) => PathOf(parent) + [x]
  }

  /** Walking up the parents and reversing yields the path from the root to the node. */
  lemma {:induction false} YieldPathIsPathOf(n: SearchNode)
    ensures YieldPath(n) == PathOf(n)
  {
    match n
    case Root(x) =>
    case Child(x, parent) =>
      YieldPathIsPathOf(parent);
      assert Ancestry(n)[1..] == Ancestry(parent);
  }

  // ------------------------------------------------------------------ breadth-first search

  ghost predicate InQueue(p: seq<LookaheadState>, q: seq<SearchNode>)
  {
    exists i :: 0 <= i < |q| && PathOf(q[i]) == p
  }

  /** Every neighbour of the path's last node extends it to a path in `next`. */
  ghost predicate Expanded(t: SearchTable, p: seq<LookaheadState>, next: seq<SearchNode>)
    requires |p| >= 1
  {
    forall c :: Edge(t, p[|p| - 1], c) ==> InQueue(p + [c], next)
  }

  /** Every queued node stands for a path of `len` nodes. */
  ghost predicate AtLength(t: SearchTable, init: LookaheadState, q: seq<SearchNode>, len: nat)
  {
    forall i :: 0 <= i < |q| ==> IsPath(t, init, PathOf(q[i])) && |PathOf(q[i])| == len
  }

  ghost predicate NoneSearched(g: Target, q: seq<SearchNode>)
  {
    forall i :: 0 <= i < |q| ==> !IsSearched(g, q[i].item)
  }

  /** No path of 2 to `len` nodes ends at the searched node. */
  ghost predicate NotFoundUpTo(t: SearchTable, init: LookaheadState, g: Target, len: nat)
  {
    forall p :: IsPath(t, init, p) && 2 <= |p| <= len ==> !IsSearched(g, p[|p| - 1])
  }

  /** Every path of `d + 1` nodes is still queued in `current` or has been expanded into `next`. */
  ghost predicate Covered(t: SearchTable, init: LookaheadState, d: nat, current: seq<SearchNode>, next: seq<SearchNode>)
  {
    forall p :: IsPath(t, init, p) && |p| == d + 1 ==> InQueue(p, current) || Expanded(t, p, next)
  }

  /**
   * The search's FIFO queue is `current + next`: the unexpanded paths of level `d` (with `d` edges)
   * followed by the checked paths of level `d + 1`.
   */
  ghost predicate Bfs(t: SearchTable, init: LookaheadState, g: Target, d: nat, current: seq<SearchNode>, next: seq<SearchNode>)
  {
    && AtLength(t, init, current, d + 1)
    && AtLength(t, init, next, d + 2)
    && NoneSearched(g, next)
    && NotFoundUpTo(t, init, g, d + 1)
    && Covered(t, init, d, current, next)
  }

  lemma BfsStart(t: SearchTable, init: LookaheadState, g: Target)
    ensures Bfs(t, init, g, 0, [Root(init)], [])
  {
    StartLevel(t, init);
    StartCovered(t, init);
  }

  lemma StartLevel(t: SearchTable, init: LookaheadState)
    ensures AtLength(t, init, [Root(init)], 1)
  {
    assert PathOf(Root(init)) == [init];
  }

  /** The only path of one node is the start node itself, which is queued. */
  lemma StartCovered(t: SearchTable, init: LookaheadState)
    ensures Covered(t, init, 0, [Root(init)], [])
  {
    forall p | IsPath(t, init, p) && |p| == 1
      ensures InQueue(p, [Root(init)])
    {
      assert p == [init];
      assert PathOf([Root(init)][0]) == p;
    }
  }

  /** With level `d` exhausted, level `d + 1` is exactly what was queued behind it. */
  lemma BfsNextLevel(t: SearchTable, init: LookaheadState, g: Target, d: nat, next: seq<SearchNode>)
    requires Bfs(t, init, g, d, [], next)
    ensures Bfs(t, init, g, d + 1, next, [])
  {
    forall p | IsPath(t, init, p) && |p| == d + 2
      ensures InQueue(p, next) && !IsSearched(g, p[|p| - 1])
    {
      LongerPathQueued(t, init, g, d, next, p);
    }
  }

  /** Once the current level is used up, every path one edge longer is in `next`, unsearched. */
  lemma LongerPathQueued(t: SearchTable, init: LookaheadState, g: Target, d: nat, next: seq<SearchNode>,
                         p: seq<LookaheadState>)
    requires Covered(t, init, d, [], next) && NoneSearched(g, next)
    requires IsPath(t, init, p) && |p| == d + 2
    ensures InQueue(p, next) && !IsSearched(g, p[|p| - 1])
  {
    PathPrefix(t, init, p, d + 1);
    var p' := p[..d + 1];
    assert EdgeAt(t, p, d);
    assert !InQueue(p', []);
    assert Expanded(t, p', next);
    assert Edge(t, p'[|p'| - 1], p[d + 1]);
    assert p' + [p[d + 1]] == p;
    var i :| 0 <= i < |next| && PathOf(next[i]) == p;
    assert !IsSearched(g, next[i].item);
  }

  /** With both levels empty, no path of level `d` has a neighbour. */
  lemma NoEdgeWhenExhausted(t: SearchTable, init: LookaheadState, d: nat, p: seq<LookaheadState>, c: LookaheadState)
    requires Covered(t, init, d, [], []) && IsPath(t, init, p) && |p| == d + 1
    ensures !Edge(t, p[|p| - 1], c)
  {
    assert !InQueue(p, []) && !InQueue(p + [c], []);
  }

  /** With both levels empty, no longer path exists either, so the searched node is unreachable. */
  lemma BfsExhausted(t: SearchTable, init: LookaheadState, g: Target, d: nat)
    requires Bfs(t, init, g, d, [], [])
    ensures Unreachable(t, init, g)
  {
    forall q | IsPath(t, init, q) && |q| >= 2
      ensures !IsSearched(g, q[|q| - 1])
    {
      if |q| > d + 1 {
        assert EdgeAt(t, q, d);
        PathPrefix(t, init, q, d + 1);
        NoEdgeWhenExhausted(t, init, d, q[..d + 1], q[d + 1]);
        assert false;
      }
    }
  }

  /** `next'` is `next` followed by the children of `node` for every element of `children`, none searched. */
  ghost predicate Appended(g: Target, node: SearchNode, children: set<LookaheadState>, next: seq<SearchNode>, next': seq<SearchNode>)
  {
    && |next| <= |next'|
    && next'[..|next|] == next
    && (forall i :: |next| <= i < |next'| ==>
          next'[i].Child? && next'[i].parent == node && next'[i].item in children && !IsSearched(g, next'[i].item))
    && (forall c :: c in children ==> exists i :: |next| <= i < |next'| && next'[i] == Child(c, node))
  }

  /**
   * The inner loops of `Search`: each neighbour is checked as it is generated and returned at once
   * when it is the searched node; otherwise it is queued with `node` as its parent.
   */
  method Enqueue(g: Target, node: SearchNode, children: set<LookaheadState>, next: seq<SearchNode>)
    returns (found: Option<SearchNode>, next': seq<SearchNode>)
    ensures found.Some? ==> found.value.Child? && found.value.parent == node
    ensures found.Some? ==> found.value.item in children && IsSearched(g, found.value.item)
    ensures found.None? ==> Appended(g, node, children, next, next')
    ensures found.None? ==> forall c :: c in children ==> !IsSearched(g, c)
  {
    var rest := children;
    next' := next;
    while rest != {}
      invariant rest <= children
      invariant |next| <= |next'| && next'[..|next|] == next
      invariant forall i :: |next| <= i < |next'| ==>
                  next'[i].Child? && next'[i].parent == node && next'[i].item in children && !IsSearched(g, next'[i].item)
      invariant forall c :: c in children - rest ==> exists i :: |next| <= i < |next'| && next'[i] == Child(c, node)
      decreases rest
    {
      var c :| c in rest;
      if IsSearched(g, c) {
        return Some(Child(c, node)), next';
      }
      ghost var before := next';
      next' := next' + [Child(c, node)];
      assert forall i :: 0 <= i < |before| ==> next'[i] == before[i];
      assert next'[|before|] == Child(c, node);
      rest := rest - {c};
    }
    found := None;
    assert children - rest == children;
    forall c | c in children
      ensures !IsSearched(g, c)
    {
      var i :| |next| <= i < |next'| && next'[i] == Child(c, node);
    }
  }

  /** The old entries of `next` keep their positions in `next'`. */
  lemma PrefixKept<T>(next: seq<T>, next': seq<T>)
    requires |next| <= |next'| && next'[..|next|] == next
    ensures forall i :: 0 <= i < |next| ==> next'[i] == next[i]
  {
    forall i | 0 <= i < |next|
      ensures next'[i] == next[i]
    {
      assert next'[..|next|][i] == next'[i];
    }
  }

  /** Queuing the neighbours of a level-`d` path keeps `next` at level `d + 1` and unsearched. */
  lemma AppendedLevel(t: SearchTable, init: LookaheadState, g: Target, d: nat, node: SearchNode,
                      children: set<LookaheadState>, next: seq<SearchNode>, next': seq<SearchNode>)
    requires AtLength(t, init, next, d + 2) && NoneSearched(g, next) && Appended(g, node, children, next, next')
    requires IsPath(t, init, PathOf(node)) && |PathOf(node)| == d + 1
    requires forall c :: c in children ==> Edge(t, node.item, c)
    ensures AtLength(t, init, next', d + 2) && NoneSearched(g, next')
  {
    PrefixKept(next, next');
    forall i | |next| <= i < |next'|
      ensures IsPath(t, init, PathOf(next'[i])) && |PathOf(next'[i])| == d + 2
    {
      PathExtend(t, init, PathOf(node), next'[i].item);
    }
  }

  /** After queuing, every neighbour extends the node's path to a queued one, and nothing queued is lost. */
  lemma AppendedQueued(g: Target, node: SearchNode, children: set<LookaheadState>, next: seq<SearchNode>, next': seq<SearchNode>)
    requires Appended(g, node, children, next, next')
    ensures forall c :: c in children ==> InQueue(PathOf(node) + [c], next')
    ensures forall p :: InQueue(p, next) ==> InQueue(p, next')
  {
    forall c | c in children
      ensures InQueue(PathOf(node) + [c], next')
    {
      var i :| |next| <= i < |next'| && next'[i] == Child(c, node);
    }
    PrefixKept(next, next');
    forall p | InQueue(p, next)
      ensures InQueue(p, next')
    {
      var i :| 0 <= i < |next| && PathOf(next[i]) == p;
      assert PathOf(next'[i]) == p;
    }
  }

  /** An expanded path stays expanded as the queue grows. */
  lemma ExpandedGrows(t: SearchTable, p: seq<LookaheadState>, next: seq<SearchNode>, next': seq<SearchNode>)
    requires |p| >= 1 && Expanded(t, p, next)
    requires forall q :: InQueue(q, next) ==> InQueue(q, next')
    ensures Expanded(t, p, next')
  {
  }

  /** Once the front node's neighbours are all queued, its path counts as expanded. */
  lemma CoveredStep(t: SearchTable, init: LookaheadState, d: nat, current: seq<SearchNode>,
                    next: seq<SearchNode>, next': seq<SearchNode>)
    requires Covered(t, init, d, current, next) && |current| > 0
    requires forall p :: InQueue(p, next) ==> InQueue(p, next')
    requires Expanded(t, PathOf(current[0]), next')
    ensures Covered(t, init, d, current[1..], next')
  {
    forall p | IsPath(t, init, p) && |p| == d + 1
      ensures InQueue(p, current[1..]) || Expanded(t, p, next')
    {
      if InQueue(p, current) {
        var i :| 0 <= i < |current| && PathOf(current[i]) == p;
        if i > 0 {
          assert PathOf(current[1..][i - 1]) == p;
        }
      } else {
        ExpandedGrows(t, p, next, next');
      }
    }
  }

  /**
   * `Search`: breadth-first search from the START item of state 0 with lookahead {$} for the node
   * (searchState, searchItem, a lookahead set holding searchTerm); the reduce item must be final.
   * Each dequeued node contributes its transition neighbours, then its production neighbours, each
   * checked as it is generated. The result is `None` when `fuel` dequeues run out, the empty path
   * when the queue empties, and otherwise the path to the first searched node generated.
   */
  method Search<L>(t: SearchTable, searchState: LrState, searchItem: Item<L>, searchTerm: TermId, fuel: nat)
    returns (r: Result<Option<seq<LookaheadState>>>)
    ensures !IsFinal(searchItem) ==> r == Failure(ArgumentError)
    ensures IsFinal(searchItem) && StartItem(t).None? ==> r == Failure(InvalidOperation)
    ensures r.Failure? && IsFinal(searchItem) && StartItem(t).Some? ==> r.error == InvalidCast || r.error == KeyNotFound
    ensures r.Success? ==> IsFinal(searchItem) && StartItem(t).Some?
    ensures r.Success? && r.value.Some? && r.value.value != [] ==>
              ShortestReducePath(t, InitialNode(StartItem(t).value), Target(searchState, Core(searchItem), searchTerm), r.value.value)
    ensures r == Success(Some([])) ==>
              Unreachable(t, InitialNode(StartItem(t).value), Target(searchState, Core(searchItem), searchTerm))
  {
    if !IsFinal(searchItem) {
      return Failure(ArgumentError);
    }
    var item0 := StartItem(t);
    if item0.None? {
      return Failure(InvalidOperation);
    }
    var init := InitialNode(item0.value);
    var g := Target(searchState, Core(searchItem), searchTerm);
    var current := [Root(init)];
    var next: seq<SearchNode> := [];
    ghost var d: nat := 0;
    var budget := fuel;
    BfsStart(t, init, g);
    while true
      invariant Bfs(t, init, g, d, current, next)
      decreases budget
    {
      if current == [] {
        if next == [] {
          BfsExhausted(t, init, g, d);
          return Success(Some([]));
        }
        BfsNextLevel(t, init, g, d, next);
        current, next, d := next, [], d + 1;
      }
      if budget == 0 {
        return Success(None);
      }
      budget := budget - 1;
      var node := current[0];
      BfsFront(t, init, g, d, current, next);
      var moves := TransitionNodes(t, node.item);
      if moves.Failure? {
        return Failure(moves.error);
      }
      var found, next1 := Enqueue(g, node, moves.value, next);
      if found.Some? {
        Found(t, init, g, d, node, found.value);
        YieldPathIsPathOf(found.value);
        return Success(Some(YieldPath(found.value)));
      }
      var steps := ProductionNodes(t, node.item);
      if steps.Failure? {
        return Failure(steps.error);
      }
      var found2, next2 := Enqueue(g, node, steps.value, next1);
      if found2.Some? {
        Found(t, init, g, d, node, found2.value);
        YieldPathIsPathOf(found2.value);
        return Success(Some(YieldPath(found2.value)));
      }
      BfsAdvance(t, init, g, d, current, next, moves.value, steps.value, next1, next2);
      current, next := current[1..], next2;
    }
  }

  /** The front of the queue stands for a level-`d` path, and nothing shorter reached the searched node. */
  lemma BfsFront(t: SearchTable, init: LookaheadState, g: Target, d: nat, current: seq<SearchNode>, next: seq<SearchNode>)
    requires Bfs(t, init, g, d, current, next) && |current| > 0
    ensures IsPath(t, init, PathOf(current[0])) && |PathOf(current[0])| == d + 1
    ensures NotFoundUpTo(t, init, g, d + 1)
  {
  }

  /** Expanding the front node into all of its neighbours keeps the queue invariant. */
  lemma BfsAdvance(t: SearchTable, init: LookaheadState, g: Target, d: nat, current: seq<SearchNode>, next: seq<SearchNode>,
                   moves: set<LookaheadState>, steps: set<LookaheadState>, next1: seq<SearchNode>, next2: seq<SearchNode>)
    requires Bfs(t, init, g, d, current, next) && |current| > 0
    requires forall b :: Edge(t, current[0].item, b) <==> b in moves || b in steps
    requires Appended(g, current[0], moves, next, next1) && Appended(g, current[0], steps, next1, next2)
    ensures Bfs(t, init, g, d, current[1..], next2)
  {
    var node := current[0];
    BfsFront(t, init, g, d, current, next);
    AppendedLevel(t, init, g, d, node, moves, next, next1);
    AppendedLevel(t, init, g, d, node, steps, next1, next2);
    AppendedQueued(g, node, moves, next, next1);
    AppendedQueued(g, node, steps, next1, next2);
    assert Expanded(t, PathOf(node), next2);
    CoveredStep(t, init, d, current, next, next2);
  }

  /** A searched neighbour of the front node closes a path one edge longer than level `d`: the shortest one. */
  lemma Found(t: SearchTable, init: LookaheadState, g: Target, d: nat, node: SearchNode, found: SearchNode)
    requires IsPath(t, init, PathOf(node)) && |PathOf(node)| == d + 1 && NotFoundUpTo(t, init, g, d + 1)
    requires found.Child? && found.parent == node
    requires Edge(t, node.item, found.item) && IsSearched(g, found.item)
    ensures ShortestReducePath(t, init, g, PathOf(found))
  {
    PathExtend(t, init, PathOf(node), found.item);
    ShortestBeyond(t, init, g, PathOf(found), d + 1);
  }

  /** Nothing up to `len` nodes reaching the searched node makes any longer path a shortest one. */
  lemma ShortestBeyond(t: SearchTable, init: LookaheadState, g: Target, path: seq<LookaheadState>, len: nat)
    requires NotFoundUpTo(t, init, g, len) && |path| == len + 1
    ensures forall q :: IsPath(t, init, q) && |q| >= 2 && IsSearched(g, q[|q| - 1]) ==> |path| <= |q|
  {
  }

  // ------------------------------------------------------------------ completing the path

  /** The step into `path[i]` advances the cursor by one: `CompleteAllProductions` reads it as a transition. */
  predicate Advances(path: seq<LookaheadState>, i: int)
    requires 1 <= i < |path|
  {
    path[i - 1].item.cursor + 1 == path[i].item.cursor
  }

  /** How many steps of `path[i - 1..]` advance the cursor. */
  function AdvancesFrom(path: seq<LookaheadState>, i: int): (n: nat)
    requires 1 <= i <= |path|
    ensures n <= |path| - i
    decreases |path| - i
  {
    if i == |path| then 0 else (if Advances(path, i) then 1 else 0) + AdvancesFrom(path, i + 1)
  }

  /**
   * `CompleteAllProductions`: the sentential form a path describes. It starts from the first
   * item's right side with the offset at 0; a step that advances the cursor moves the offset past one
   * symbol, and any other step replaces the symbol at the offset with the next item's right side
   * (`RemoveAt` raises ArgumentOutOfRange when the offset is past the end). The result is the form and
   * the final offset; an empty path gives the empty form.
   */
  function CompleteAllProductions(path: seq<LookaheadState>): (r: Result<(seq<Symbol>, nat)>)
    ensures path == [] ==> r == Success(([], 0))
    ensures r.Success? && path != [] ==> r.value.1 == AdvancesFrom(path, 1)
    ensures r.Failure? ==> r.error == ArgumentOutOfRange
  {
    if path == [] then Success(([], 0))
    else CompleteFrom(path, 1, path[0].item.prod.right, 0)
  }

  /** The loop of `CompleteAllProductions` from step `i` on. */
  function CompleteFrom(path: seq<LookaheadState>, i: int, result: seq<Symbol>, offset: nat): (r: Result<(seq<Symbol>, nat)>)
    requires 1 <= i <= |path|
    ensures r.Success? ==> r.value.1 == offset + AdvancesFrom(path, i)
    ensures r.Failure? ==> r.error == ArgumentOutOfRange
    decreases |path| - i
  {
    if i == |path| then Success((result, offset))
    else if Advances(path, i) then CompleteFrom(path, i + 1, result, offset + 1)
    else if offset >= |result| then Failure(ArgumentOutOfRange)
    else CompleteFrom(path, i + 1, result[..offset] + path[i].item.prod.right + result[offset + 1..], offset)
  }

  /** What remains of an item's right side after its cursor. */
  function Remaining(it: Lr0Item): seq<Symbol>
    requires ValidItem(it)
  {
    it.prod.right[it.cursor..]
  }

  /** The symbols the transition edges of `p[..i]` shift over, in order. */
  ghost function Crossed(t: SearchTable, p: seq<LookaheadState>, i: int): (r: seq<Symbol>)
    requires 1 <= i <= |p|
    decreases i
  {
    if i == 1 then []
    else Crossed(t, p, i - 1) + (if Transition(t, p[i - 2], p[i - 1]) then [AfterCursor(p[i - 2].item).value] else [])
  }

  /** The form after step `i` of a search path: the crossed symbols, the rest of the current item, then more. */
  ghost predicate FormAt(t: SearchTable, p: seq<LookaheadState>, i: int, result: seq<Symbol>, offset: nat, rest: seq<Symbol>)
    requires 1 <= i <= |p|
  {
    && ValidItem(p[i - 1].item)
    && offset <= |result|
    && result[..offset] == Crossed(t, p, i)
    && result[offset..] == Remaining(p[i - 1].item) + rest
  }

  /** One step of a search path keeps the shape of the form. */
  lemma FormStep(t: SearchTable, init: LookaheadState, p: seq<LookaheadState>, i: int, result: seq<Symbol>, offset: nat, rest: seq<Symbol>)
    requires IsPath(t, init, p) && 1 <= i < |p| && FormAt(t, p, i, result, offset, rest)
    ensures Advances(p, i) ==> FormAt(t, p, i + 1, result, offset + 1, rest)
    ensures !Advances(p, i) ==> offset < |result| && |Remaining(p[i - 1].item)| >= 1
    ensures !Advances(p, i) ==>
              FormAt(t, p, i + 1, result[..offset] + p[i].item.prod.right + result[offset + 1..], offset,
                     Remaining(p[i - 1].item)[1..] + rest)
  {
    var a, b := p[i - 1], p[i];
    assert EdgeAt(t, p, i - 1);
    EdgeCursor(t, a, b);
    var tail := Remaining(a.item);
    assert tail[0] == a.item.prod.right[a.item.cursor];
    if Transition(t, a, b) {
      assert Advances(p, i);
      assert result[offset] == tail[0];
      assert result[..offset + 1] == result[..offset] + [result[offset]];
      assert Remaining(b.item) == tail[1..];
      assert result[offset + 1..] == result[offset..][1..];
    } else {
      assert !Advances(p, i);
      var result' := result[..offset] + b.item.prod.right + result[offset + 1..];
      assert result'[..offset] == result[..offset];
      assert Remaining(b.item) == b.item.prod.right;
      assert result[offset + 1..] == tail[1..] + rest by {
        assert result[offset + 1..] == result[offset..][1..];
      }
      assert result'[offset..] == b.item.prod.right + result[offset + 1..];
    }
  }

  lemma {:induction false} CompleteFromPath(t: SearchTable, init: LookaheadState, p: seq<LookaheadState>, i: int,
                                            result: seq<Symbol>, offset: nat, rest: seq<Symbol>)
    requires IsPath(t, init, p) && 1 <= i <= |p| && FormAt(t, p, i, result, offset, rest)
    ensures CompleteFrom(p, i, result, offset).Success?
    ensures var v := CompleteFrom(p, i, result, offset).value;
            exists rest' :: FormAt(t, p, |p|, v.0, v.1, rest')
    decreases |p| - i
  {
    if i < |p| {
      FormStep(t, init, p, i, result, offset, rest);
      if Advances(p, i) {
        CompleteFromPath(t, init, p, i + 1, result, offset + 1, rest);
      } else {
        CompleteFromPath(t, init, p, i + 1, result[..offset] + p[i].item.prod.right + result[offset + 1..], offset,
                         Remaining(p[i - 1].item)[1..] + rest);
      }
    }
  }

  /**
   * Along a search path whose start item has its cursor at 0, completion never fails: the final
   * offset separates the symbols shifted over by the transitions from the rest of the last item,
   * which the form continues with.
   */
  lemma CompleteAlongPath(t: SearchTable, init: LookaheadState, p: seq<LookaheadState>)
    requires IsPath(t, init, p) && init.item.cursor == 0
    ensures CompleteAllProductions(p).Success?
    ensures var v := CompleteAllProductions(p).value;
            && v.1 <= |v.0|
            && v.0[..v.1] == Crossed(t, p, |p|)
            && ValidItem(p[|p| - 1].item)
            && Remaining(p[|p| - 1].item) <= v.0[v.1..]
  {
    var right := init.item.prod.right;
    assert FormAt(t, p, 1, right, 0, []) by {
      assert right[0..] == right;
      assert right[..0] == [];
    }
    CompleteFromPath(t, init, p, 1, right, 0, []);
  }

  // ------------------------------------------------------------------ the dangling-else path

  /**
   * The two production steps of the dangling-else reduce path: entering `stmt` from the START item
   * keeps {$}, and entering the inner `stmt` of `if expr then _ stmt else stmt` gives {else},
   * whatever the rest of the table.
   */
  lemma DanglingElseLookaheads(t: SearchTable, start: NtId)
    ensures PreciseLookaheadSet(t, Item(Production(start, [Stmt]), 0, ()), {EndOfInput}) == Success({EndOfInput})
    ensures PreciseLookaheadSet(t, Item(IfThenElse, 3, ()), {EndOfInput}) == Success({TermName("else")})
  {
  }
}
