# SynKit LR table generation, modelled in Dafny

SynKit generates LR parsing tables from context-free grammars. This project models its core in Dafny
and proves what that core promises. The model covers:

- **Grammar store and analysis.** This covers the `ContextFree` grammar, which has an implicit START,
  and the `Cfg` grammar, which has a settable start symbol and start augmentation. Productions are filed
  per left nonterminal. Nullable, FIRST and FOLLOW are lazily cached fixpoints that every mutation
  invalidates. The sentence generator's one-step expansion is included.
- **LR items and item sets.** Items are LR(0), CLR or LALR, with a bounded cursor, `AfterCursor` and a
  saturating `Next`. Item-set equality is set equality, with an order-independent hash. The kernel,
  shift, production and reduction partitions are modelled.
- **Closure by graph search.** BFS and DFS over a neighbour function, with the state allocator that
  interns item sets to dense ids. The action table has set-valued cells and conflicts. The goto table
  is a partial map.
- **The four table builders.** LR(0), SLR, CLR and LALR. LALR interns states by kernel, generates
  lookaheads spontaneously, propagates them to a fixpoint and re-allocates states in LR(0) order.
- **The counterexample search.** A breadth-first search over (state, LR(0) item, lookahead set) nodes.
  It uses a "precise" lookahead that follows the remaining symbols of the item. The model also covers
  completing a reduce path into a sentential form.
- **Front-end pieces.** These are the EBNF AST (with the `Rep` checks, the helper constructors and
  normalisation) and the EBNF and context-free grammar parsers. Both parsers work over an abstract
  token sequence.
- **Utilities.** Run-length encoding, action-row deduplication and rendering helpers, `Position`
  ordering, and the line/column `Cursor`.

Every mutable C# object is a value here. A query that fills a cache returns the new grammar along with
its answer. Hash-set iteration order is left open by choosing elements with `:|`. Each fixpoint is
characterised as the LEAST solution of its equations, so the unspecified order cannot change the
result. Integers are unbounded.

Some files cite the older duplicate classes. The counterexample search lives in `Lr/Internal/` and
compiles against the older `Lr/` classes. Those classes implement the same items, tables and
allocator as `Lr/Items` and `Lr/Tables`, so one model serves both. The one difference that matters is
the older goto table's indexer, which raises on a null nonterminal; it is modelled where the search
reaches it (see Findings).

## Model

| member | source | states |
|---|---|---|
| Grammar.InvalidateCache | Sources/SynKit.Grammar/ContextFree/CfGrammar.Sets.cs:9-14 | all three caches are dropped, nothing else changes, and the grammar is again coherent, so the next query recomputes from the current productions |
| Grammar.GetProductions | Sources/SynKit.Grammar/ContextFree/CfGrammar.cs:74-77 | exactly the stored productions whose left side is the nonterminal; the empty set when it has none |
| Grammar.InsertProductionAdds | Sources/SynKit.Grammar/ContextFree/CfGrammar.cs:88-94 | filing a production under its left side adds exactly that production to the production set: an equal one changes nothing, and distinct productions with the same left side both stay |
| Grammar.AddProductionWith | Sources/SynKit.Grammar/ContextFree/CfGrammar.cs:83-109 | the production is stored even when it is refused; caches are dropped; the error is raised iff some right-side symbol is refused, and then it is an argument error; the symbols recorded are the left side plus the right-side symbols before the first refused one |
| Grammar.AddProductionKeepsClean | Sources/SynKit.Grammar/ContextFree/CfGrammar.cs:96-108 | after an accepted production, every production uses only recorded symbols and no ε |
| Grammar.Nullables | Sources/SynKit.Grammar/ContextFree/CfGrammar.cs:116-120 | the cached nullable set is filled on first use and is the least set closed under the nullable rule of the current productions; the other caches are untouched |
| Grammar.IsNullable | Sources/SynKit.Grammar/ContextFree/CfGrammar.cs:116-120 | the answer is membership in the least nullable set |
| Grammar.FirstSets | Sources/SynKit.Grammar/ContextFree/CfGrammar.cs:132 | the cached FIRST map is the least FIRST solution; it fails (KeyNotFound) only when some production uses an unrecorded symbol, which a refused production can leave behind, and always succeeds otherwise |
| Grammar.FirstSet | Sources/SynKit.Grammar/ContextFree/CfGrammar.cs:128-134 | ε is rejected with ArgumentOutOfRange; otherwise the value is the symbol's entry in every least FIRST solution; on a clean grammar it succeeds iff the symbol is `#`, a terminal or a nonterminal of the grammar |
| Grammar.FollowSets | Sources/SynKit.Grammar/Cfg/ContextFreeGrammar.cs:267-276 | no start symbol gives InvalidOperation; with the start symbol recorded, a clean grammar always succeeds; a result is cached and is the least FOLLOW solution for the start symbol over the FIRST map as far as it has been computed (the empty map when it cannot be, which a lookup on a clean production never consults) |
| Grammar.FollowSet | Sources/SynKit.Grammar/ContextFree/CfGrammar.cs:169-173 | without a start symbol it fails; a result belongs to a nonterminal of the grammar, equals its entry in the least FOLLOW solution, and contains `$` for the start symbol; a clean grammar with its start symbol recorded answers for every nonterminal |
| Grammar.NullableSetUnique | Sources/SynKit.Grammar/ContextFree/CfGrammar.Sets.cs:16-37 | the least nullable set is unique, so a recomputation after a mutation yields the value a fresh grammar would |
| Grammar.FirstSetsUnique | Sources/SynKit.Grammar/ContextFree/CfGrammar.Sets.cs:39-87 | the least FIRST map is unique |
| Grammar.FollowSetsUnique | Sources/SynKit.Grammar/ContextFree/CfGrammar.Sets.cs:89-132 | the least FOLLOW map is unique |
| GrammarSets.CalculateNullables | Sources/SynKit.Grammar/ContextFree/CfGrammar.Sets.cs:16-37 | the result is the least set that contains A whenever some A-production's right side consists only of nullable nonterminals; a terminal blocks a production; only left sides are nullable |
| GrammarSets.FirstWalk | Sources/SynKit.Grammar/ContextFree/CfGrammar.Sets.cs:59-81 | one production's pass adds only what every solution holds, grows the map, reports a change exactly when the filled pairs strictly grow, and leaves the production's FIRST equation satisfied when nothing changed; it fails only on an unrecorded symbol |
| GrammarSets.CalculateFirstSets | Sources/SynKit.Grammar/ContextFree/CfGrammar.Sets.cs:39-87 | the result is the least FIRST map: `#` and every terminal map to themselves, and every production A → X1..Xn puts the terminals of each Xi up to the first non-nullable one into FIRST(A), plus ε when all are nullable; it fails (KeyNotFound) only when some production uses an unrecorded symbol, and succeeds whenever all are recorded (a walk can stop at a non-nullable symbol before reaching an unrecorded one) |
| GrammarSets.FirstOfSymbol | Sources/SynKit.Grammar/ContextFree/CfGrammar.cs:128-134 | succeeds iff the symbol has an entry; ε is refused with ArgumentOutOfRange and any other missing key with KeyNotFound |
| GrammarSets.FirstOfSequence | Sources/SynKit.Grammar/ContextFree/CfGrammar.cs:141-161 | holds ε iff every symbol is nullable (so `[]` gives {ε}); a terminal is in it iff it is in FIRST of some symbol reached through a nullable prefix; it holds nothing but terminals and ε; it fails with the error of the first missing lookup |
| GrammarSets.FollowOccurrence | Sources/SynKit.Grammar/ContextFree/CfGrammar.Sets.cs:113-124 | for an occurrence of B in A → αBβ, adds FIRST(β)∖{ε} to FOLLOW(B), and FOLLOW(A) too when β is nullable; only what every solution holds is added |
| GrammarSets.FollowWalk | Sources/SynKit.Grammar/ContextFree/CfGrammar.Sets.cs:105-126 | one production's pass succeeds iff all its lookups are defined; it only grows the map, and when nothing changed the production's FOLLOW equations hold |
| GrammarSets.FollowPass | Sources/SynKit.Grammar/ContextFree/CfGrammar.Sets.cs:100-129 | a full pass keeps `$` in FOLLOW(start), only grows the sets, and when nothing changed every production's FOLLOW equations hold |
| GrammarSets.LazyFirstOfSequence | Sources/SynKit.Grammar/ContextFree/CfGrammar.cs:128-161 | FIRST of a sequence as the grammar answers it with FIRST computed on demand: [] gives {ε} and a leading ε is out of range without consulting FIRST; otherwise a failed FIRST computation surfaces as its error, and a computed one gives FIRST of the sequence |
| GrammarSets.LazyFirstWithoutFirst | Sources/SynKit.Grammar/ContextFree/CfGrammar.cs:128-161 | when FIRST cannot be computed, an on-demand lookup answers exactly as a lookup in the empty map does |
| GrammarSets.KnownFollowDefined | Sources/SynKit.Grammar/ContextFree/CfGrammar.Sets.cs:105-126 | over a production whose symbols are all recorded, every FIRST lookup of the FOLLOW walk is defined |
| GrammarSets.FollowWithoutFirst | Sources/SynKit.Grammar/ContextFree/CfGrammar.Sets.cs:89-132 | FOLLOW sets computed without consulting FIRST stay the least solution once FIRST is known, because none of their lookups needed it |
| GrammarSets.CalculateFollowSets | Sources/SynKit.Grammar/ContextFree/CfGrammar.Sets.cs:89-132 | succeeds iff the start symbol is a nonterminal and every lookup is defined; the result is the least map with `$` in FOLLOW(start), FIRST(β)∖{ε} ⊆ FOLLOW(B) for every A → αBβ, and FOLLOW(A) ⊆ FOLLOW(B) when β is nullable |
| GrammarSets.NullableIffFirstHasEpsilon | Sources/SynKit.Grammar/ContextFree/CfGrammar.cs:112-134 | a nonterminal is nullable iff ε is in its FIRST set, so both queries describe derivability of the empty word |
| CfGrammar.NewGrammar | Sources/SynKit.Grammar/ContextFree/CfGrammar.cs:42-44 | a new grammar already knows `$` and START, has no productions, and START is its start symbol |
| CfGrammar.AddProduction | Sources/SynKit.Grammar/ContextFree/CfGrammar.cs:83-109 | the production is stored even when it is refused; the error is raised iff START or ε is on the right side; an accepted production records all its symbols |
| CfGrammar.FirstSetOfSequence | Sources/SynKit.Grammar/ContextFree/CfGrammar.cs:141-161 | the class's loop gives {ε} for `[]` and otherwise agrees with FIRST of the sequence under the least FIRST map; it is exact on a clean grammar |
| CfGrammar.InitialForms | Sources/SynKit.Grammar/ContextFree/CfGrammar.cs:181-189 | the touched set and the queue both hold exactly the right sides of the START productions, each with its nonterminal count as priority |
| CfGrammar.ExpandAt | Sources/SynKit.Grammar/ContextFree/CfGrammar.cs:201-217 | substituting every production at one index adds exactly those forms to the touched set and queues each new one once |
| CfGrammar.ProcessForm | Sources/SynKit.Grammar/ContextFree/CfGrammar.cs:192-218 | a form is yielded iff it is all terminals, as the same terminals; otherwise the queued forms are exactly the one-step substitutions not yet touched, without repeats, each with its parent's priority plus the production's nonterminal count |
| Cfg.NewGrammar | Sources/SynKit.Grammar/Cfg/ContextFreeGrammar.cs:39-43 | a new Cfg grammar knows only `$`, has no nonterminals and no start symbol |
| Cfg.SetStartSymbol | Sources/SynKit.Grammar/Cfg/ContextFreeGrammar.cs:29-37 | setting the start symbol drops every cache and changes nothing else |
| Cfg.AddProduction | Sources/SynKit.Grammar/Cfg/ContextFreeGrammar.cs:85-110 | as in the ContextFree grammar, except that only ε is refused and the start symbol may appear on the right |
| Cfg.AugmentStartSymbol | Sources/SynKit.Grammar/Cfg/ContextFreeGrammar.cs:115-122 | fails with InvalidOperation iff there is no start symbol; otherwise the start becomes a fresh nonterminal with the one new production start' → [old start], and on a clean grammar it appears on no right side |
| Cfg.FirstSetOfSequence | Sources/SynKit.Grammar/Cfg/ContextFreeGrammar.cs:154-173 | collects only terminals, plus ε iff every symbol is nullable, and agrees with the ContextFree result |
| LrItems.MakeItem | Sources/SynKit.Grammar/Lr/Items/LrItemBase.cs:42-48 | the constructor succeeds iff 0 ≤ cursor ≤ \|right\|, keeping production, cursor and lookahead; otherwise it raises ArgumentOutOfRange |
| LrItems.AfterCursor | Sources/SynKit.Grammar/Lr/Items/LrItemBase.cs:23-29 | none exactly for a final item (cursor = \|right\|); otherwise the right-side symbol at the cursor |
| LrItems.Next | Sources/SynKit.Grammar/Lr/Items/LrItemBase.cs:35 | keeps the production and the lookahead; the identity on a final item; otherwise the cursor moves by one, and the result is neither initial nor outside the kernel |
| LrItems.CoreNext | Sources/SynKit.Grammar/Lr/Items/LalrItem.cs:12 | advancing an item and dropping its lookahead commute, and the symbol after the cursor does not depend on the lookahead |
| LrItems.LalrHashConsistent | Sources/SynKit.Grammar/Lr/Items/LalrItem.cs:15-32 | LALR items with equal production, cursor and lookahead set are equal and hash equally, whatever order the lookaheads are visited in |
| LrItems.SetHashOrderIndependent | Sources/SynKit.Grammar/Lr/Items/LrItemSet.cs:65-71 | the XOR hash of a set is the same for every enumeration order of its members |
| LrItems.XorFoldPermutation | Sources/SynKit.Grammar/Lr/Items/LrItemSet.cs:68-69 | the XOR fold over two permutations of the same elements is equal |
| LrItems.FromSeq | Sources/SynKit.Grammar/Lr/Items/LrItemSet.cs:47-50 | the item set built from an enumerable holds exactly its elements |
| LrItems.FromSeqIgnoresDuplicates | Sources/SynKit.Grammar/Lr/Items/LrItemSet.cs:47-50 | an enumerable with a duplicate gives the same item set as without it |
| LrItems.KernelItems | Sources/SynKit.Grammar/Lr/Items/LrItemSet.cs:17 | exactly the members that are kernel items |
| LrItems.ReductionItems | Sources/SynKit.Grammar/Lr/Items/LrItemSet.cs:30 | exactly the final members |
| LrItems.ShiftItems | Sources/SynKit.Grammar/Lr/Items/LrItemSet.cs:20-22 | one non-empty group per terminal standing after some cursor, holding exactly the members with that terminal after the cursor |
| LrItems.ProductionItems | Sources/SynKit.Grammar/Lr/Items/LrItemSet.cs:25-27 | the same grouping by the nonterminal after the cursor |
| LrItems.ItemSetPartition | Sources/SynKit.Grammar/Lr/Items/LrItemSet.cs:20-30 | with no ε after the cursor, every valid item is in exactly one of the shift groups, the production groups or the reduction items |
| LrTables.Index | Sources/SynKit.Grammar/Lr/Tables/LrActionTable.cs:30-41 | reading a cell returns its actions (empty when untouched) and creates the key, but changes the contents of no cell |
| LrTables.AddAction | Sources/SynKit.Grammar/Lr/Tables/LrActionTable.cs:30-41 | adding an action grows that cell by exactly the action and leaves every other cell as it was |
| LrTables.AddActionPresent | Sources/SynKit.Grammar/Lr/Tables/LrActionTable.cs:34-38 | adding an action the cell already holds changes no cell |
| LrTables.ConflictingTransitions | Sources/SynKit.Grammar/Lr/Tables/LrActionTable.cs:20-22 | a (state, terminal) pair is listed iff its cell holds more than one action |
| LrTables.HasConflicts | Sources/SynKit.Grammar/Lr/Tables/LrActionTable.cs:15 | true iff some cell holds more than one action |
| LrTables.GotoGet | Sources/SynKit.Grammar/Lr/Tables/LrGotoTable.cs:21-23 | some state iff the pair was set, and then that state; none for an unset pair |
| LrTables.GotoSet | Sources/SynKit.Grammar/Lr/Tables/LrGotoTable.cs:24-28 | reading the pair back yields what was set (none removes the entry), and every other pair is unchanged |
| LrTables.GotoSetGet | Sources/SynKit.Grammar/Lr/Tables/LrGotoTable.cs:19-28 | writing back the value just read leaves the table unchanged |
| LrStateAllocator.EmptyAllocatorValid | Sources/SynKit.Grammar/Lr/Internal/LrStateAllocator.cs:19-20 | the empty allocator satisfies the invariant: dense ids and mutually inverse maps |
| LrStateAllocator.Allocate | Sources/SynKit.Grammar/Lr/Internal/LrStateAllocator.cs:22-29 | returns true iff the item set is new; a known set returns false with its existing state and changes nothing; a new set gets id = the previous count, both maps gain exactly that pair, and the maps stay mutually inverse with dense ids |
| LrStateAllocator.FirstAllocation | Sources/SynKit.Grammar/Lr/Internal/LrStateAllocator.cs:25 | the first allocation returns true and state 0, the initial state |
| LrStateAllocator.AllocateIdempotent | Sources/SynKit.Grammar/Lr/Internal/LrStateAllocator.cs:24 | allocating the same item set twice gives the same state, and the second call changes nothing |
| GraphSearch.LeastClosureUnique | Sources/SynKit.Grammar/Internal/GraphSearch.cs:11-27 | the least set holding the roots and closed under the neighbour function is unique |
| GraphSearch.LeastClosureShape | Sources/SynKit.Grammar/Internal/GraphSearch.cs:16-25 | every member of the least closure is a root or a neighbour of a member |
| GraphSearch.Closure | Sources/SynKit.Grammar/Internal/GraphSearch.cs:11-27 | inside a finite universe closed under the neighbour function, the iteration reaches the least closure of the start set |
| GraphSearch.ClosureIndependentOfUniverse | Sources/SynKit.Grammar/Internal/GraphSearch.cs:11-27 | the closure does not depend on which closed universe bounds the search |
| GraphSearch.Enumerate | Sources/SynKit.Grammar/Internal/GraphSearch.cs:18-42 | a hash-set enumeration visits every member exactly once |
| GraphSearch.SearchStep | Sources/SynKit.Grammar/Internal/GraphSearch.cs:19-24 | taking a node off the work list (either end) and labelling its new neighbours keeps every pushed node labelled exactly once, and the measure decreases |
| GraphSearch.Bfs | Sources/SynKit.Grammar/Internal/GraphSearch.cs:11-27 | the labelled set contains every root, is closed under the neighbour function and is the least such set; each node enters the queue exactly once |
| GraphSearch.Dfs | Sources/SynKit.Grammar/Internal/GraphSearch.cs:35-51 | the same for the stack: the same least closed superset of the roots, so `Bfs` and `Dfs` agree; each node is pushed exactly once |
| LrClosures.ItemProductions | Sources/SynKit.Grammar/Lr/Tables/LrParsingTable.cs:306-309 | exactly the productions of the nonterminal after the cursor; none when a terminal follows it or the item is final |
| LrClosures.Lr0Neighbors | Sources/SynKit.Grammar/Lr/Tables/LrParsingTable.cs:316 | an LR(0) item's neighbours are the items (p, 0) for exactly the productions p of the nonterminal after its cursor |
| LrClosures.Lr0ClosureOf | Sources/SynKit.Grammar/Lr/Tables/LrParsingTable.cs:311-316 | the least set that contains the seeds and, for every member with B after the cursor, the item (p, 0) of each B-production; it adds only initial items |
| LrClosures.Lr0Closure | Sources/SynKit.Grammar/Lr/Tables/LrParsingTable.cs:311-316 | the depth-first search from the seeds computes exactly that closure, whatever the seeds' order and duplicates |
| LrClosures.Lr0ClosureMonotone | Sources/SynKit.Grammar/Lr/Tables/LrParsingTable.cs:311-316 | more seeds give a larger closure |
| LrClosures.Lr0ClosureIdempotent | Sources/SynKit.Grammar/Lr/Tables/LrParsingTable.cs:311-316 | closing a closure changes nothing |
| LrClosures.Lr0ClosureOfKernel | Sources/SynKit.Grammar/Lr/Tables/LrParsingTable.cs:311-316 | a closure of kernel seeds is the closure of its own kernel items, so it is determined by its kernel |
| LrClosures.Lr0KernelInjective | Sources/SynKit.Grammar/Lr/Tables/LrParsingTable.cs:311-316 | closures of kernel seeds are equal iff their kernels are equal |
| LrClosures.LookaheadsAfter | Sources/SynKit.Grammar/Lr/Tables/LrParsingTable.cs:325-329 | the lookaheads a CLR item hands on are the terminals of FIRST(the symbols after B, then the item's lookahead) whenever that FIRST lookup succeeds; an item whose lookup fails is stuck, and ClrClosure and the builders fail on it |
| LrClosures.LookaheadsAfterLazy | Sources/SynKit.Grammar/Lr/Tables/LrParsingTable.cs:320-329 | for an item that is not stuck, a production after the cursor means the on-demand FIRST lookup succeeds and gives exactly the lookaheads handed on; no production means no neighbours |
| LrClosures.KnownItemNotStuck | Sources/SynKit.Grammar/Lr/Tables/LrParsingTable.cs:318-330 | an item whose production uses only recorded symbols, with a lookahead FIRST knows, never fails its closure lookup |
| LrClosures.ClrNeighbors | Sources/SynKit.Grammar/Lr/Tables/LrParsingTable.cs:320-330 | the neighbours of a CLR item are exactly (p, 0, t) for each production p of the nonterminal after the cursor and each t in those lookaheads |
| LrClosures.ClrClosureOf | Sources/SynKit.Grammar/Lr/Tables/LrParsingTable.cs:318-330 | the least set that contains the seeds and every (p, 0, t) that a member hands on; only initial items are added |
| LrClosures.ClrClosure | Sources/SynKit.Grammar/Lr/Tables/LrParsingTable.cs:318-330 | the depth-first search fails exactly when some item of the closure is stuck, with the error of a stuck item's FIRST lookup; on success it returns exactly that closure |
| LrClosures.FindStuck | Sources/SynKit.Grammar/Lr/Tables/LrParsingTable.cs:318-330 | over a family of closures: none is reported exactly when no item of any of them is stuck; a reported item is stuck, belongs to one of them, and its error is that of a stuck item |
| LrClosures.LalrClosureLookaheads | Sources/SynKit.Grammar/Lr/Tables/LrParsingTable.cs:332-339 | every lookahead of the `#`-seeded LALR closure other than `#` is a terminal of some FIRST set |
| LrClosures.ClrClosureCores | Sources/SynKit.Grammar/Lr/Tables/LrParsingTable.cs:311-330 | dropping the lookaheads maps the CLR closure into the LR(0) closure of the seeds' cores |
| LrClosures.MergeByCore | Sources/SynKit.Grammar/Lr/Tables/LrParsingTable.cs:337-338 | grouping CLR items by core gives one LALR item per core, whose lookahead set is exactly the lookaheads of that core's items |
| LrAutomaton.Advance | Sources/SynKit.Grammar/Lr/Tables/LrParsingTable.cs:41-43 | the items of a group advanced past the symbol: every item with that symbol after the cursor contributes its successor, and nothing else is in the result |
| LrAutomaton.Moves | Sources/SynKit.Grammar/Lr/Tables/LrParsingTable.cs:41-49 | a state moves on exactly the terminals and nonterminals that stand after some cursor; ε is never a move |
| LrAutomaton.ReducePart | Sources/SynKit.Grammar/Lr/Tables/LrParsingTable.cs:56-68 | the actions a set of (terminal, action) pairs places in one terminal's cell, exactly |
| LrAutomaton.Reductions | Sources/SynKit.Grammar/Lr/Tables/LrParsingTable.cs:56-68 | only Accept and Reduce come from final items; Accept appears exactly on `$` when a final START item is present; Reduce(q) appears on t exactly when a final item of q, with q not a START production, offers t |
| LrAutomaton.SuccessorSets | Sources/SynKit.Grammar/Lr/Tables/LrParsingTable.cs:40-54 | the item sets one move away from a state are exactly the successors over its moves |
| LrAutomaton.Reach | Sources/SynKit.Grammar/Lr/Tables/LrParsingTable.cs:29-69 | the reachable item sets are the least family holding the initial set and closed under moves, all inside the item universe |
| LrAutomaton.CountBounded | Sources/SynKit.Grammar/Lr/Tables/LrParsingTable.cs:35-69 | the exploration never interns more states than there are subsets of the item universe, which is why the worklist loop ends |
| LrAutomaton.Transition | Sources/SynKit.Grammar/Lr/Tables/LrParsingTable.cs:43-44 | interning a successor either reuses its state or allocates the next id and pushes it, and the allocation stays consistent with the reachable sets |
| LrAutomaton.RecordMove | Sources/SynKit.Grammar/Lr/Tables/LrParsingTable.cs:43-53 | a move interns its target and writes exactly a Shift into the terminal's cell or the goto entry for the nonterminal, touching no other row |
| LrAutomaton.AddMove | Sources/SynKit.Grammar/Lr/Tables/LrParsingTable.cs:45-53 | a Shift(target) on a terminal or goto(target) on a nonterminal is recorded, other rows unchanged |
| LrAutomaton.ProcessMoves | Sources/SynKit.Grammar/Lr/Tables/LrParsingTable.cs:40-54 | after the shift and goto groups every move of the state is recorded to the state of its successor |
| LrAutomaton.ListMoves | Sources/SynKit.Grammar/Lr/Tables/LrParsingTable.cs:41-49 | the shift groups' terminals and the goto groups' nonterminals list exactly the moves of the state |
| LrAutomaton.ProcessReductions | Sources/SynKit.Grammar/Lr/Tables/LrParsingTable.cs:56-68 | each cell of the state's row gains exactly the reduction pairs for its terminal; other rows are unchanged |
| LrAutomaton.ProcessState | Sources/SynKit.Grammar/Lr/Tables/LrParsingTable.cs:37-68 | one popped state is completed: its shifts, gotos and reductions are exactly those of its item set, other rows untouched |
| LrAutomaton.AddReductions | Sources/SynKit.Grammar/Lr/Tables/LrParsingTable.cs:56-68 | adding the reductions after the moves completes the state's row |
| LrAutomaton.ExploreStep | Sources/SynKit.Grammar/Lr/Tables/LrParsingTable.cs:35-69 | one iteration of the worklist loop keeps the exploration invariant and either interns a state or shrinks the stack |
| LrAutomaton.ExploreInit | Sources/SynKit.Grammar/Lr/Tables/LrParsingTable.cs:29-33 | the initial set is interned as state 0, the only state, and is the only entry on the stack; both tables start empty; this establishes the invariant |
| LrAutomaton.Explore | Sources/SynKit.Grammar/Lr/Tables/LrParsingTable.cs:29-69 | at the end state 0 is the initial set, every interned state is completed, every other row is untouched, and the states are consistent with the reachable item sets |
| LrAutomaton.StatesAreReach | Sources/SynKit.Grammar/Lr/Tables/LrParsingTable.cs:29-69 | when the interning key is injective on reachable sets, the interned states are exactly the reachable item sets and there is one state per set |
| LrParsingTable.Lr0Setting | Sources/SynKit.Grammar/Lr/Tables/LrParsingTable.cs:311-316 | LR(0) closure over the grammar's items is a valid exploration setting |
| LrParsingTable.ClrSetting | Sources/SynKit.Grammar/Lr/Tables/LrParsingTable.cs:318-330 | CLR closure over the grammar's items is a valid exploration setting |
| LrParsingTable.Lr0ItemSets | Sources/SynKit.Grammar/Lr/Tables/LrParsingTable.cs:30-54 | the LR(0) item sets are the least family holding the initial set and closed under moves |
| LrParsingTable.ClrItemSets | Sources/SynKit.Grammar/Lr/Tables/LrParsingTable.cs:147-171 | the canonical LR(1) item sets are the least family holding the initial set with `$` and closed under moves |
| LrParsingTable.ReachSameClose | Sources/SynKit.Grammar/Lr/Tables/LrParsingTable.cs:93-112 | the reachable item sets depend only on the closure, so LR(0) and SLR explore the same sets |
| LrParsingTable.WholeAutomaton | Sources/SynKit.Grammar/Lr/Tables/LrParsingTable.cs:29-69 | with whole-set interning the explored states are the reachable sets, one state each, state 0 the initial set |
| LrParsingTable.ExploreWhole | Sources/SynKit.Grammar/Lr/Tables/LrParsingTable.cs:29-69 | the shared loop with whole-set interning builds that automaton |
| LrParsingTable.Lr0 | Sources/SynKit.Grammar/Lr/Tables/LrParsingTable.cs:21-72 | the states are the LR(0) item sets with the initial one as state 0; rows hold exactly the shifts, gotos, Accept on `$` and each reduction on every terminal |
| LrParsingTable.Slr | Sources/SynKit.Grammar/Lr/Tables/LrParsingTable.cs:79-131 | as Lr0, but each reduction is placed exactly on the FOLLOW set of its left side, and those FOLLOW sets are the least solution; it fails only when a reduction needs FOLLOW and FOLLOW cannot be computed, and a clean grammar whose start symbol is declared always succeeds |
| LrParsingTable.Clr | Sources/SynKit.Grammar/Lr/Tables/LrParsingTable.cs:138-189 | the states are the canonical LR(1) item sets from the START items with lookahead `$`; each reduction is placed on its own lookahead; it fails exactly when some item of those sets is stuck, with that item's error (a missing key or an out-of-range ε), which a clean grammar never has |
| LrParsingTable.ClrBuild | Sources/SynKit.Grammar/Lr/Tables/LrParsingTable.cs:145-188 | explores the canonical LR(1) sets and fails exactly when one of them holds a stuck item, with that item's error; on success the tables form the CLR automaton |
| LrParsingTable.CleanClrNoneStuck | Sources/SynKit.Grammar/Lr/Tables/LrParsingTable.cs:318-330 | in a clean grammar no item of any canonical LR(1) item set is stuck |
| LrParsingTable.SuccessorShaped | Sources/SynKit.Grammar/Lr/Tables/LrParsingTable.cs:220-229 | a successor under LR(0) closure is the closure of its own kernel, so interning by kernel loses nothing |
| LrParsingTable.KernelShaped | Sources/SynKit.Grammar/Lr/Tables/LrParsingTable.cs:198-229 | every reachable LR(0) item set is the closure of its kernel items |
| LrParsingTable.KernelAutomatonFromExplore | Sources/SynKit.Grammar/Lr/Tables/LrParsingTable.cs:198-232 | the shared loop with kernel interning yields the LR(0) automaton by kernel |
| LrParsingTable.ExploreKernels | Sources/SynKit.Grammar/Lr/Tables/LrParsingTable.cs:198-232 | the loop interning kernels builds the LR(0) automaton by kernel: one state per LR(0) item set, its shifts and gotos, no reductions |
| LrParsingTable.KernelItemsValid | Sources/SynKit.Grammar/Lr/Tables/LrParsingTable.cs:241-248 | the kernel items of the explored states are items of the grammar's productions |
| LrParsingTable.KernelSingleShifts | Sources/SynKit.Grammar/Lr/Tables/LrParsingTable.cs:367-368 | no cell of the exploration table holds two shifts, so the first shift found is the only one |
| LrParsingTable.MovesHaveTargets | Sources/SynKit.Grammar/Lr/Tables/LrParsingTable.cs:367-369 | every move of a kernel's closure has a shift or goto in the exploration tables |
| LrParsingTable.NoTargetMeansUnknown | Sources/SynKit.Grammar/Lr/Tables/LrParsingTable.cs:367-369 | a closure item with no successor in the tables has a production that mentions a symbol the grammar does not declare |
| LrParsingTable.SomeProductionUnknown | Sources/SynKit.Grammar/Lr/Tables/LrParsingTable.cs:367-369 | the lookup at 368-369 can fail only when some production mentions an undeclared symbol |
| LrParsingTable.TargetIsSuccessorKernel | Sources/SynKit.Grammar/Lr/Tables/LrParsingTable.cs:367-371 | the state the tables lead to holds the kernel of the successor on that symbol |
| LrParsingTable.EntryReachesKernel | Sources/SynKit.Grammar/Lr/Tables/LrParsingTable.cs:367-371 | the advanced closure item is a kernel item of the target state |
| LrParsingTable.PropagationWithinKernels | Sources/SynKit.Grammar/Lr/Tables/LrParsingTable.cs:256-263 | every propagation edge runs between kernel items of explored states, so the lookups at 258 and 261 find their keys |
| LrParsingTable.LalrFromKernels | Sources/SynKit.Grammar/Lr/Tables/LrParsingTable.cs:234-301 | fails only as the source does, in order: a stuck item in some kernel item's `#` closure; else a closure item with no successor (a production with an undeclared symbol); else a stuck item in some state's reduction closure; with known productions and FIRST it always succeeds; on success no closure item is stuck and the lookahead information, the least propagation, the re-interned states and the reductions are exactly as defined |
| LrParsingTable.LalrBuild | Sources/SynKit.Grammar/Lr/Tables/LrParsingTable.cs:196-301 | the whole LALR build over a production set: it fails only in the three phases, always succeeds with known productions and FIRST, and on success gives the LR(0) automaton by kernel with its lookahead tables and no stuck closure item |
| LrParsingTable.LalrFailureErrors | Sources/SynKit.Grammar/Lr/Tables/LrParsingTable.cs:284-369 | every error of those phases is ArgumentOutOfRange, KeyNotFound, InvalidOperation or InvalidCast |
| LrParsingTable.CollectFacts | Sources/SynKit.Grammar/Lr/Tables/LrParsingTable.cs:332-398 | fails at a stuck item of a kernel item's `#` closure or, when none is stuck, at a missing successor, which needs an undeclared symbol; with known productions and FIRST it succeeds; on success the spontaneous and propagation facts are exactly those defined and every edge joins kernel items |
| LrParsingTable.KernelFacts | Sources/SynKit.Grammar/Lr/Tables/LrParsingTable.cs:358-398 | once no `#` closure is stuck, reading the facts fails only with InvalidOperation or InvalidCast and only for a production with an undeclared symbol; on success the facts are exactly those declared and every edge joins kernel items |
| LrParsingTable.PlaceChecked | Sources/SynKit.Grammar/Lr/Tables/LrParsingTable.cs:238-301 | places the least lookaheads and fails exactly at a stuck item of some state's reduction closure; with known productions and FIRST it succeeds, and its tables are then the LALR lookahead tables |
| LrParsingTable.KnownKernelClosuresNotStuck | Sources/SynKit.Grammar/Lr/Tables/LrParsingTable.cs:332-339 | with known productions and FIRST, no item of any kernel item's `#` closure is stuck |
| LrParsingTable.KnownReductionClosuresNotStuck | Sources/SynKit.Grammar/Lr/Tables/LrParsingTable.cs:284-288 | with known productions and FIRST, and lookaheads drawn from FIRST terminals and `$`, no item of any state's reduction closure is stuck |
| LrParsingTable.KnownPlacementNotStuck | Sources/SynKit.Grammar/Lr/Tables/LrParsingTable.cs:240-288 | with known productions and FIRST, the least propagation of the declared facts leaves no item of any state's reduction closure stuck |
| LrParsingTable.PlaceLookaheads | Sources/SynKit.Grammar/Lr/Tables/LrParsingTable.cs:238-301 | the lookaheads are the least solution of propagation from the spontaneous ones; each state keeps its id with its kernel and lookaheads; each row gains exactly the reductions of its LALR state's CLR closure |
| LrParsingTable.Lalr | Sources/SynKit.Grammar/Lr/Tables/LrParsingTable.cs:196-304 | the LR(0) automaton by kernel plus exactly those lookahead tables, with no closure item stuck; failure only for an unclean grammar, in one of the three phases above, with the error the failing lookup raises (out of range, missing key, invalid operation or invalid cast) |
| LalrLookaheads.KernelKeys | Sources/SynKit.Grammar/Lr/Tables/LrParsingTable.cs:358-360 | the (state, kernel item) keys are exactly the kernel items of the explored states |
| LalrLookaheads.ClosureEntries | Sources/SynKit.Grammar/Lr/Tables/LrParsingTable.cs:358-365 | the entries visited are exactly the non-final items of the LALR closure of each kernel item of each state |
| LalrLookaheads.TargetHasTarget | Sources/SynKit.Grammar/Lr/Tables/LrParsingTable.cs:367-369 | a target found in the tables means the lookup succeeds |
| LalrLookaheads.TargetUnique | Sources/SynKit.Grammar/Lr/Tables/LrParsingTable.cs:368 | with at most one shift per cell, the state a closure item leads to is unique |
| LalrLookaheads.Lookup | Sources/SynKit.Grammar/Lr/Tables/LrParsingTable.cs:367-369 | the lookup succeeds exactly when the tables hold a shift or goto on the symbol, returns that target, and otherwise fails as `First()` on an empty sequence or the cast of ε would |
| LalrLookaheads.InitialReflects | Sources/SynKit.Grammar/Lr/Tables/LrParsingTable.cs:350-356 | before any entry is visited, the recorded facts are exactly `$` generated for each initial START item in state 0 |
| LalrLookaheads.GeneratedByAdd | Sources/SynKit.Grammar/Lr/Tables/LrParsingTable.cs:373-394 | visiting one more entry adds exactly its non-`#` lookaheads as spontaneous lookaheads of its destination |
| LalrLookaheads.AddEntryGenerates | Sources/SynKit.Grammar/Lr/Tables/LrParsingTable.cs:385-394 | visiting an entry keeps the spontaneous lookaheads equal to those of the visited entries |
| LalrLookaheads.AddEntryPropagates | Sources/SynKit.Grammar/Lr/Tables/LrParsingTable.cs:375-384 | visiting an entry keeps the propagation edges equal to those of the visited entries |
| LalrLookaheads.AddEntryReflects | Sources/SynKit.Grammar/Lr/Tables/LrParsingTable.cs:373-395 | visiting an entry keeps both kinds of recorded facts equal to the visited entries' facts |
| LalrLookaheads.ReflectsDeclared | Sources/SynKit.Grammar/Lr/Tables/LrParsingTable.cs:358-398 | once every entry is visited, the recorded facts are sound, and complete when no cell holds two shifts |
| LalrLookaheads.LalrClosureValid | Sources/SynKit.Grammar/Lr/Tables/LrParsingTable.cs:332-339 | items of an LALR closure of a valid item keep their cursor within the production |
| LalrLookaheads.EntryLookaheadKnown | Sources/SynKit.Grammar/Lr/Tables/LrParsingTable.cs:332-365 | a lookahead of a visited entry other than `#` is a terminal of some FIRST set |
| LalrLookaheads.LalrClosureCoreIn | Sources/SynKit.Grammar/Lr/Tables/LrParsingTable.cs:362-369 | the core of a closure item of a kernel item lies in the state's LR(0) item set, so the state has a move on its symbol |
| LalrLookaheads.InfoStep | Sources/SynKit.Grammar/Lr/Tables/LrParsingTable.cs:363-395 | one entry visit advances the loop invariant |
| LalrLookaheads.CollectInfo | Sources/SynKit.Grammar/Lr/Tables/LrParsingTable.cs:358-398 | the loop over entries fails only at an entry with no successor in the tables, with the error of that lookup; on success it has visited every entry |
| LalrLookaheads.GenerateLookaheadInfo | Sources/SynKit.Grammar/Lr/Tables/LrParsingTable.cs:345-401 | succeeds exactly when every entry has a successor; the spontaneous lookaheads and propagation edges are then sound, complete under single shifts, and every edge ends past a cursor |
| LalrPropagation.Terms | Sources/SynKit.Grammar/Lr/Tables/LrParsingTable.cs:252-267 | every lookahead of an assignment is in its term set |
| LalrPropagation.PassStep | Sources/SynKit.Grammar/Lr/Tables/LrParsingTable.cs:259-262 | copying the lookaheads along one edge keeps the pass invariant, and the change flag is set exactly when something was new |
| LalrPropagation.PropagatePass | Sources/SynKit.Grammar/Lr/Tables/LrParsingTable.cs:254-264 | one pass only grows the lookaheads and stays below every solution; no change means the assignment is closed under the edges; a change adds at least one fact |
| LalrPropagation.FactsBounded | Sources/SynKit.Grammar/Lr/Tables/LrParsingTable.cs:252-267 | the facts of an assignment are bounded by its keys times the terms, which is why the loop ends |
| LalrPropagation.Propagate | Sources/SynKit.Grammar/Lr/Tables/LrParsingTable.cs:251-267 | the loop ends with the least assignment above the spontaneous lookaheads and closed under the propagation edges |
| LalrPropagation.PropagationIsReachability | Sources/SynKit.Grammar/Lr/Tables/LrParsingTable.cs:251-267 | that least assignment is exactly the lookahead facts reachable from the spontaneous ones along the edges |
| LalrPropagation.LeastPropagationBounded | Sources/SynKit.Grammar/Lr/Tables/LrParsingTable.cs:251-267 | propagation adds no lookahead outside any bound that all the spontaneous lookaheads respect |
| LalrStates.InitialLookaheads | Sources/SynKit.Grammar/Lr/Tables/LrParsingTable.cs:240-249 | every kernel item starts with its spontaneous lookaheads, or none, and no other key is present |
| LalrStates.PropagatedLookaheadsKnown | Sources/SynKit.Grammar/Lr/Tables/LrParsingTable.cs:240-267 | every lookahead the propagation gives a kernel item is `$` or a terminal of some FIRST set |
| LrItems.Cores | Sources/SynKit.Grammar/Lr/Tables/LrParsingTable.cs:273-274 | the cores of an item set are exactly the cores of its items, whatever kind of lookahead they carry |
| LalrStates.LalrItemSetCores | Sources/SynKit.Grammar/Lr/Tables/LrParsingTable.cs:273-275 | an LALR state has exactly its kernel items as cores, each with its own propagated lookaheads |
| LalrStates.LalrItemSetsDistinct | Sources/SynKit.Grammar/Lr/Tables/LrParsingTable.cs:276-278 | distinct kernels give distinct LALR item sets, so the re-interning never merges two states |
| LalrStates.ReallocStep | Sources/SynKit.Grammar/Lr/Tables/LrParsingTable.cs:271-278 | each LALR item set is new to the allocator, so it receives the same id as its LR(0) state |
| LalrStates.Reallocate | Sources/SynKit.Grammar/Lr/Tables/LrParsingTable.cs:269-279 | the re-interned states have exactly the ids of the LR(0) states, each holding the LALR item set of its kernel |
| LalrStates.Expand | Sources/SynKit.Grammar/Lr/Tables/LrParsingTable.cs:287 | the CLR items an LALR item set stands for: one per item core and lookahead, exactly |
| LalrStates.LalrReductionsOfItems | Sources/SynKit.Grammar/Lr/Tables/LrParsingTable.cs:284-300 | each final item reduces on each of its lookaheads, a final START item with a lookahead accepts, and every reduction comes from a final item of the CLR closure |
| LalrStates.PlaceReductions | Sources/SynKit.Grammar/Lr/Tables/LrParsingTable.cs:281-301 | each state's row gains exactly the reductions of its LALR state, other rows unchanged |
| LookaheadPath.PreciseLookaheadSet | Sources/SynKit.Grammar/Lr/Internal/LookaheadPath.cs:113-129 | at the last symbol the context comes back unchanged; the only failures are the cast and the missing key |
| LookaheadPath.PreciseIsFirstOfRest | Sources/SynKit.Grammar/Lr/Internal/LookaheadPath.cs:113-129 | the precise lookahead set is FIRST of the symbols after the one past the cursor, with the context added when they are all nullable; it fails exactly when that FIRST set does |
| LookaheadPath.EdgeCursor | Sources/SynKit.Grammar/Lr/Internal/LookaheadPath.cs:44-61 | a transition advances the cursor by one within the same production; a production step starts a production of the nonterminal after the cursor at cursor 0 |
| LookaheadPath.NextItem | Sources/SynKit.Grammar/Lr/Internal/LookaheadPath.cs:96-111 | the successors are exactly the shift targets on a terminal or the goto target on a nonterminal, each with the advanced item; ε after the cursor fails as the cast does; a final item has none |
| LookaheadPath.NextItemAsWritten | Sources/SynKit.Grammar/Lr/Internal/LookaheadPath.cs:96-111 | as written, a final item reaches the goto lookup with a null nonterminal, which raises ArgumentNull exactly when the state has a goto entry; any other item behaves as NextItem |
| LookaheadPath.FinalNodeRaisesAsWritten | Sources/SynKit.Grammar/Lr/Internal/LookaheadPath.cs:27-62 | for START → S, S → B a, B → ε the search starts at the START node, and two production steps through (0, S → ·B a, {$}) form a search path to the final node (0, B → ·, {a}), on which the as-written lookup raises and the corrected one yields nothing |
| LookaheadPath.TransitionNodes | Sources/SynKit.Grammar/Lr/Internal/LookaheadPath.cs:43-49 | the transition neighbours are exactly the successors with the node's own lookaheads |
| LookaheadPath.ProductionNodes | Sources/SynKit.Grammar/Lr/Internal/LookaheadPath.cs:51-62 | with a nonterminal after the cursor, the neighbours are exactly its productions at cursor 0 in the same state with the precise lookaheads; otherwise none |
| LookaheadPath.StartIndex | Sources/SynKit.Grammar/Lr/Internal/LookaheadPath.cs:29-30 | the position of the first item whose left side is the start symbol, or the length when none is |
| LookaheadPath.StartItem | Sources/SynKit.Grammar/Lr/Internal/LookaheadPath.cs:29-31 | the first initial item with the start symbol on the left, present exactly when some initial item has it |
| LookaheadPath.InitialNode | Sources/SynKit.Grammar/Lr/Internal/LookaheadPath.cs:32-33 | the search starts at state 0 with the start item and lookahead {$} |
| LookaheadPath.PathPrefix | Sources/SynKit.Grammar/Lr/Internal/LookaheadPath.cs:36-63 | a prefix of a search path is a search path |
| LookaheadPath.PathExtend | Sources/SynKit.Grammar/Lr/Internal/LookaheadPath.cs:36-63 | a search path extended by a neighbour of its last node is a search path |
| LookaheadPath.Ancestry | Sources/SynKit.Grammar/Lr/Internal/LookaheadPath.cs:133-136 | the parent chain starts at the node itself |
| LookaheadPath.Reverse | Sources/SynKit.Grammar/Lr/Internal/LookaheadPath.cs:139 | the reversal has the same length with the positions mirrored |
| LookaheadPath.YieldPath | Sources/SynKit.Grammar/Lr/Internal/LookaheadPath.cs:131-141 | the returned path ends at the node, and a root alone yields itself |
| LookaheadPath.PathOf | Sources/SynKit.Grammar/Lr/Internal/LookaheadPath.cs:8 | the path a node stands for ends at the node |
| LookaheadPath.YieldPathIsPathOf | Sources/SynKit.Grammar/Lr/Internal/LookaheadPath.cs:131-141 | walking up the parents and reversing gives exactly the path from the root to the node |
| LookaheadPath.BfsStart | Sources/SynKit.Grammar/Lr/Internal/LookaheadPath.cs:27-34 | a queue holding only the start node satisfies the breadth-first invariant |
| LookaheadPath.StartLevel | Sources/SynKit.Grammar/Lr/Internal/LookaheadPath.cs:34 | the start node is a path of one node |
| LookaheadPath.StartCovered | Sources/SynKit.Grammar/Lr/Internal/LookaheadPath.cs:34 | the one-node path is queued |
| LookaheadPath.BfsNextLevel | Sources/SynKit.Grammar/Lr/Internal/LookaheadPath.cs:36 | once one level is dequeued, the next level is exactly what was queued behind it |
| LookaheadPath.NoEdgeWhenExhausted | Sources/SynKit.Grammar/Lr/Internal/LookaheadPath.cs:36-63 | with the queue empty, no path of the current length has a neighbour |
| LookaheadPath.BfsExhausted | Sources/SynKit.Grammar/Lr/Internal/LookaheadPath.cs:63-64 | an empty queue means no path reaches the searched state, item and terminal |
| LookaheadPath.Enqueue | Sources/SynKit.Grammar/Lr/Internal/LookaheadPath.cs:44-61 | either a neighbour is the searched node and is returned as a child of the current node, or every neighbour is queued in order and none is searched |
| LookaheadPath.PrefixKept | Sources/SynKit.Grammar/Lr/Internal/LookaheadPath.cs:48-60 | queuing keeps the entries already queued in place |
| LookaheadPath.AppendedLevel | Sources/SynKit.Grammar/Lr/Internal/LookaheadPath.cs:44-61 | queuing the neighbours of a level-d path keeps the next level at d+1 nodes and unsearched |
| LookaheadPath.AppendedQueued | Sources/SynKit.Grammar/Lr/Internal/LookaheadPath.cs:44-61 | every neighbour extends the node's path to a queued path, and nothing queued is lost |
| LookaheadPath.ExpandedGrows | Sources/SynKit.Grammar/Lr/Internal/LookaheadPath.cs:48-60 | an expanded path stays expanded as the queue grows |
| LookaheadPath.CoveredStep | Sources/SynKit.Grammar/Lr/Internal/LookaheadPath.cs:36-62 | dequeuing and expanding the front node keeps every path of the level covered |
| LookaheadPath.Search | Sources/SynKit.Grammar/Lr/Internal/LookaheadPath.cs:17-65 | a non-final item is an argument error; no START item is an invalid operation; a returned non-empty path is a shortest path from the start node to the searched one; an empty result means no path reaches it |
| LookaheadPath.BfsFront | Sources/SynKit.Grammar/Lr/Internal/LookaheadPath.cs:36-38 | the front of the queue stands for a level-d path, and no shorter path reached the searched node |
| LookaheadPath.BfsAdvance | Sources/SynKit.Grammar/Lr/Internal/LookaheadPath.cs:43-62 | expanding the front node into all its neighbours keeps the breadth-first invariant |
| LookaheadPath.Found | Sources/SynKit.Grammar/Lr/Internal/LookaheadPath.cs:47-59 | a searched neighbour of the front node closes a shortest path to it |
| LookaheadPath.ShortestBeyond | Sources/SynKit.Grammar/Lr/Internal/LookaheadPath.cs:36-63 | when no path of up to len nodes reaches the searched node, no reaching path is shorter than len+1 |
| LookaheadPath.AdvancesFrom | Sources/SynKit.Grammar/Lr/Internal/LookaheadPath.cs:74-84 | the number of transition steps in the rest of the path is at most its length |
| LookaheadPath.CompleteAllProductions | Sources/SynKit.Grammar/Lr/Internal/LookaheadPath.cs:67-94 | an empty path gives no symbols at offset 0; otherwise the offset counts the transition steps; the only failure is the out-of-range removal |
| LookaheadPath.CompleteFrom | Sources/SynKit.Grammar/Lr/Internal/LookaheadPath.cs:74-91 | from step i on the offset grows by the transitions that follow |
| LookaheadPath.FormStep | Sources/SynKit.Grammar/Lr/Internal/LookaheadPath.cs:79-90 | a transition moves the offset past one symbol; a production step replaces the symbol at the offset with the production's right side |
| LookaheadPath.CompleteFromPath | Sources/SynKit.Grammar/Lr/Internal/LookaheadPath.cs:74-93 | along a search path the loop never fails and keeps the sentential form's shape |
| LookaheadPath.CompleteAlongPath | Sources/SynKit.Grammar/Lr/Internal/LookaheadPath.cs:67-94 | for a search path from a cursor-0 item, the symbols before the offset are exactly the symbols the path crossed, and what remains of the last item follows them |
| CfParser.Matches | Sources/SynKit.Grammar/ContextFree/Internal/CfParser.cs:118-132 | the next token is consumed exactly when it has the kind; otherwise the stream is unchanged (the `End` token is never consumed away) |
| CfParser.Expect | Sources/SynKit.Grammar/ContextFree/Internal/CfParser.cs:99-104 | succeeds exactly when the next token has the kind, returning it and the rest; otherwise raises NotImplemented |
| CfParser.TryParseProductionElement | Sources/SynKit.Grammar/ContextFree/Internal/CfParser.cs:88-97 | a literal, or a name not followed by an arrow, is consumed; nothing else is |
| CfParser.ElementsCons | Sources/SynKit.Grammar/ContextFree/Internal/CfParser.cs:77-82 | the element loop takes one element and continues from the next token |
| CfParser.ParseProductionRight | Sources/SynKit.Grammar/ContextFree/Internal/CfParser.cs:71-86 | succeeds exactly on an `ε` or at least one element, and splits the stream into a well-formed alternative and the rest; otherwise raises NotImplemented |
| CfParser.ParseRightsTail | Sources/SynKit.Grammar/ContextFree/Internal/CfParser.cs:67 | the `\|` loop only appends well-formed alternatives and stops where no `\|` follows |
| CfParser.ParseProductionRights | Sources/SynKit.Grammar/ContextFree/Internal/CfParser.cs:59-69 | at least one alternative, all well-formed, and no `\|` left in front |
| CfParser.ParseProduction | Sources/SynKit.Grammar/ContextFree/Internal/CfParser.cs:51-57 | a production node is read only after a name; what it reads is well-formed and consumes input |
| CfParser.ParseProductions | Sources/SynKit.Grammar/ContextFree/Internal/CfParser.cs:22-23 | the production loop reads well-formed nodes and reads none exactly when `End` comes first |
| CfParser.LeftNames | Sources/SynKit.Grammar/ContextFree/Internal/CfParser.cs:27 | the nonterminal names are exactly the left sides' names |
| CfParser.RightSymbols | Sources/SynKit.Grammar/ContextFree/Internal/CfParser.cs:40-44 | each token of an alternative becomes one symbol: a nonterminal when its text is a left-side name, otherwise a terminal |
| CfParser.NodeProductions | Sources/SynKit.Grammar/ContextFree/Internal/CfParser.cs:38-46 | one production per alternative of the node, in order |
| CfParser.NodesProductions | Sources/SynKit.Grammar/ContextFree/Internal/CfParser.cs:29-47 | the productions of all nodes are exactly one per alternative of some node |
| CfParser.AddAll | Sources/SynKit.Grammar/ContextFree/Internal/CfParser.cs:35-45 | registering productions keeps the grammar's fields consistent |
| CfParser.AddAllSucceeds | Sources/SynKit.Grammar/ContextFree/Internal/CfParser.cs:35-45 | registration succeeds exactly when every production has neither START nor ε on the right; otherwise it raises an argument error |
| CfParser.Elements | Sources/SynKit.Grammar/ContextFree/Internal/CfParser.cs:45 | the productions of a sequence as a set |
| CfParser.AddAllContents | Sources/SynKit.Grammar/ContextFree/Internal/CfParser.cs:35-45 | a successful registration adds exactly the given productions and keeps the start symbol |
| CfParser.AddAllValid | Sources/SynKit.Grammar/ContextFree/Internal/CfParser.cs:26-45 | registration from a valid grammar leaves every cache coherent |
| CfParser.RightOfAdmissible | Sources/SynKit.Grammar/ContextFree/Internal/CfParser.cs:40-44 | a converted right side never holds START or ε |
| CfParser.ConvertedAdmissible | Sources/SynKit.Grammar/ContextFree/Internal/CfParser.cs:29-47 | everything the conversion registers is admissible, so `Parse` never raises during registration |
| CfParser.ConvertedMembers | Sources/SynKit.Grammar/ContextFree/Internal/CfParser.cs:29-47 | the converted productions are exactly START -> first left side (when there is a node) and one per alternative |
| CfParser.ConvertedLefts | Sources/SynKit.Grammar/ContextFree/Internal/CfParser.cs:29-47 | the left sides are START and every node's name, or none without nodes |
| CfParser.InLeftsOf | Sources/SynKit.Grammar/ContextFree/Internal/CfParser.cs:27-31 | a named nonterminal is a left side exactly when its name is one |
| CfParser.SymbolClassified | Sources/SynKit.Grammar/ContextFree/Internal/CfParser.cs:40-44 | a converted symbol is a nonterminal of a left-side name or a terminal whose name is no left side |
| CfParser.ConvertedClassifies | Sources/SynKit.Grammar/ContextFree/Internal/CfParser.cs:40-44 | every nonterminal on a right side has productions and no terminal shares a left side's name |
| CfParser.ParseWithFails | Sources/SynKit.Grammar/ContextFree/Internal/CfParser.cs:19-49 | `Parse` fails exactly when reading the productions fails, always with NotImplemented |
| CfParser.ParseWithSpec | Sources/SynKit.Grammar/ContextFree/Internal/CfParser.cs:19-49 | on success the grammar starts at START and holds exactly the converted productions |
| CfParser.ParseWithValid | Sources/SynKit.Grammar/ContextFree/Internal/CfParser.cs:19-49 | the parsed grammar is valid |
| CfParser.ParseClassifies | Sources/SynKit.Grammar/ContextFree/Internal/CfParser.cs:27-44 | in the parsed grammar every right-side nonterminal has productions and no terminal is named like one |
| CfParser.ParseStart | Sources/SynKit.Grammar/ContextFree/Internal/CfParser.cs:28-37 | the only START production leads to the first node's left side; an input starting with `End` gives no productions |
| CfParser.ElementsRoundTrip | Sources/SynKit.Grammar/ContextFree/Internal/CfParser.cs:77-82 | the element loop reads back exactly the elements in front of a stop |
| CfParser.RightRoundTrip | Sources/SynKit.Grammar/ContextFree/Internal/CfParser.cs:71-86 | one well-formed alternative in front of a stop reads back unchanged |
| CfParser.AlternativesShape | Sources/SynKit.Grammar/ContextFree/Internal/CfParser.cs:59-69 | printed alternatives are a `\|`, the first alternative, then the rest |
| CfParser.AlternativesAhead | Sources/SynKit.Grammar/ContextFree/Internal/CfParser.cs:59-69 | printed alternatives in front of a node stop end the alternative where they begin |
| CfParser.RightsTailStep | Sources/SynKit.Grammar/ContextFree/Internal/CfParser.cs:67 | one round of the `\|` loop moves past the separator and one alternative |
| CfParser.AlternativesRoundTrip | Sources/SynKit.Grammar/ContextFree/Internal/CfParser.cs:59-69 | the `\|` loop reads back exactly the printed alternatives |
| CfParser.NodeRoundTrip | Sources/SynKit.Grammar/ContextFree/Internal/CfParser.cs:51-57 | a printed node reads back unchanged |
| CfParser.PrintedNodesShape | Sources/SynKit.Grammar/ContextFree/Internal/CfParser.cs:22-23 | printed nodes are the first node then the rest, starting with a name and an arrow |
| CfParser.PrintedNodesAhead | Sources/SynKit.Grammar/ContextFree/Internal/CfParser.cs:88-97 | printed nodes stop the previous alternative, since a name followed by an arrow is not an element |
| CfParser.NodesRoundTrip | Sources/SynKit.Grammar/ContextFree/Internal/CfParser.cs:19-23 | reading printed nodes gives the nodes back, whatever follows `End` |
| CfParser.PrintedParses | Sources/SynKit.Grammar/ContextFree/Internal/CfParser.cs:19-49 | parsing a printed grammar registers exactly the productions its nodes convert to |
| CfParser.LeadingOrIgnored | Sources/SynKit.Grammar/ContextFree/Internal/CfParser.cs:62-64 | an optional leading `\|` changes nothing; a second one is an error |
| CfParser.EpsilonExampleReads | Sources/SynKit.Grammar/ContextFree/Internal/CfParser.cs:71-74 | `A -> eps` (the lexer's `eps` spelling of the `ε` token) reads as one node with the single alternative `ε` |
| CfParser.EpsilonNodeConverts | Sources/SynKit.Grammar/ContextFree/Internal/CfParser.cs:29-47 | `A -> eps` converts to START -> A and to A -> the terminal named by the token text as written, or A -> nothing as intended |
| CfParser.EpsilonAlternativeAsWritten | Sources/SynKit.Grammar/ContextFree/Internal/CfParser.cs:40-45 | as written, `A -> eps` registers A -> `eps` (a terminal named by the token text) and not the empty production |
| CfParser.AsWrittenNoEmptyProduction | Sources/SynKit.Grammar/ContextFree/Internal/CfParser.cs:71-86 | as written, no parsed grammar holds an empty production |
| CfParser.EpsilonAlternativeIntended | Sources/SynKit.Grammar/ContextFree/Internal/CfParser.cs:74 | corrected, `A -> eps` registers the empty production for A and no `eps` terminal |
| CfParser.IntendedEmptyProductions | Sources/SynKit.Grammar/ContextFree/Internal/CfParser.cs:74 | corrected, A has an empty production exactly when some node of A has an `ε` alternative |
| EbnfAst.NewRep | Sources/SynKit.Grammar/Ebnf/EbnfAst.cs:170-178 | a repetition is built exactly when the minimum is non-negative and any maximum is not below it; otherwise ArgumentOutOfRange |
| EbnfAst.Opt | Sources/SynKit.Grammar/Ebnf/EbnfAst.cs:13 | an optional element is the alternative of the element and ε |
| EbnfAst.ZeroOrMore | Sources/SynKit.Grammar/Ebnf/EbnfAst.cs:20 | zero-or-more is the unbounded repetition from 0, which the constructor never rejects |
| EbnfAst.OneOrMore | Sources/SynKit.Grammar/Ebnf/EbnfAst.cs:27 | one-or-more is the unbounded repetition from 1, which the constructor never rejects |
| EbnfAst.AtLeast | Sources/SynKit.Grammar/Ebnf/EbnfAst.cs:36 | rejected exactly for a negative count; otherwise the unbounded repetition from n |
| EbnfAst.AtMost | Sources/SynKit.Grammar/Ebnf/EbnfAst.cs:45 | rejected exactly for a negative count; otherwise the repetition from 0 to n |
| EbnfAst.Between | Sources/SynKit.Grammar/Ebnf/EbnfAst.cs:55 | rejected exactly unless 0 <= min <= max; otherwise the repetition between them |
| EbnfAst.Exactly | Sources/SynKit.Grammar/Ebnf/EbnfAst.cs:64 | rejected exactly for a negative count; otherwise the repetition from n to n |
| EbnfAst.NormalIsLight | Sources/SynKit.Grammar/Ebnf/EbnfAst.cs:66-71 | a tree in normal form has no repetition left to expand and valid bounds |
| EbnfAst.Copies | Sources/SynKit.Grammar/Ebnf/EbnfAst.cs:188-193 | the required minimum, n copies of a normal element in a sequence, is itself normal |
| EbnfAst.AppendOpts | Sources/SynKit.Grammar/Ebnf/EbnfAst.cs:198-201 | appending the optional copies keeps every repetition expanded and every bound valid |
| EbnfAst.ExpandRep | Sources/SynKit.Grammar/Ebnf/EbnfAst.cs:181-205 | a bounded repetition expands into a tree with no bounded repetition left |
| EbnfAst.Normalize | Sources/SynKit.Grammar/Ebnf/EbnfAst.cs:66-205 | the result is in normal form (alternatives on top, no ε or alternative directly under a sequence, only zero-or-more repetitions), and normalising never increases the weight of a tree without bounded repetitions |
| EbnfAst.NormalizeSeq | Sources/SynKit.Grammar/Ebnf/EbnfAst.cs:120-141 | normalising a sequence, distributing it over alternatives, yields a normal tree |
| EbnfAst.NormalizeNormal | Sources/SynKit.Grammar/Ebnf/EbnfAst.cs:120-141 | a tree already in normal form is left exactly as it is |
| EbnfAst.NormalizeIdempotent | Sources/SynKit.Grammar/Ebnf/EbnfAst.cs:66-71 | normalising twice is normalising once |
| EbnfParser.Expect | Sources/SynKit.Grammar/Ebnf/Internal/EbnfParser.cs:178-183 | succeeds exactly when the next token has the kind, returning it and the rest; otherwise raises NotImplemented |
| EbnfParser.ParseInt | Sources/SynKit.Grammar/Ebnf/Internal/EbnfParser.cs:93 | `int.Parse` on a number token: succeeds exactly on decimal digits whose value fits in an int, with that value; otherwise a format error for non-digits or an overflow |
| EbnfParser.Digits | Sources/SynKit.Grammar/Ebnf/Internal/EbnfParser.cs:93 | the decimal form of a number consists of digits |
| EbnfParser.DigitsRoundTrip | Sources/SynKit.Grammar/Ebnf/Internal/EbnfParser.cs:93 | reading back the decimal form gives the number, and `int.Parse` accepts it up to int.MaxValue |
| EbnfParser.ParseAlt | Sources/SynKit.Grammar/Ebnf/Internal/EbnfParser.cs:46-58 | the alternatives parser never consumes more than its input; what it returns is pinned down by AltRoundTrip |
| EbnfParser.ParseAltBody | Sources/SynKit.Grammar/Ebnf/Internal/EbnfParser.cs:50-57 | the alternatives after the optional `\|` never consume more than the input |
| EbnfParser.AltTail | Sources/SynKit.Grammar/Ebnf/Internal/EbnfParser.cs:52-56 | the `\|` loop never consumes more than the input |
| EbnfParser.ParseSeq | Sources/SynKit.Grammar/Ebnf/Internal/EbnfParser.cs:60-70 | the sequence parser never consumes more than its input; what it returns is pinned down by SeqRoundTrip |
| EbnfParser.SeqTail | Sources/SynKit.Grammar/Ebnf/Internal/EbnfParser.cs:63-68 | the sequence loop never consumes more than the input |
| EbnfParser.TryParsePostfix | Sources/SynKit.Grammar/Ebnf/Internal/EbnfParser.cs:72-139 | a postfix expression, when there is one, consumes at least one token |
| EbnfParser.TryParseAtom | Sources/SynKit.Grammar/Ebnf/Internal/EbnfParser.cs:141-176 | an atom, when there is one, consumes at least one token |
| EbnfParser.PostfixLoop | Sources/SynKit.Grammar/Ebnf/Internal/EbnfParser.cs:79-136 | the postfix loop never consumes more than the input |
| EbnfParser.ParseBraces | Sources/SynKit.Grammar/Ebnf/Internal/EbnfParser.cs:84-133 | a brace repetition consumes tokens, and anything but a number or a comma after `{` raises NotImplemented |
| EbnfParser.ParseRuleDefinition | Sources/SynKit.Grammar/Ebnf/Internal/EbnfParser.cs:36-44 | a rule starts with a name, which is the rule's name, and consumes tokens; anything else first raises NotImplemented |
| EbnfParser.ParseRules | Sources/SynKit.Grammar/Ebnf/Internal/EbnfParser.cs:23-32 | rules are only added; the first rule read becomes the start rule and an existing start rule is kept |
| EbnfParser.Parse | Sources/SynKit.Grammar/Ebnf/Internal/EbnfParser.cs:19-34 | the start rule is one of the rules, and there is one exactly when some rule was read |
| EbnfParser.PrintPostfixStarts | Sources/SynKit.Grammar/Ebnf/Internal/EbnfParser.cs:141-176 | a printed postfix expression starts with an atom's first token, which is no operator, `=` or `\|` |
| EbnfParser.ItemsPeek | Sources/SynKit.Grammar/Ebnf/Internal/EbnfParser.cs:63-68 | printed items start with an atom, or else with what follows them |
| EbnfParser.AltsPeek | Sources/SynKit.Grammar/Ebnf/Internal/EbnfParser.cs:52 | printed `\|`-alternatives start with `\|`, so a sequence before them ends there |
| EbnfParser.AltsSplit | Sources/SynKit.Grammar/Ebnf/Internal/EbnfParser.cs:52-55 | printed `\|`-alternatives are a `\|`, the first sequence, then the others |
| EbnfParser.BracesRoundTrip | Sources/SynKit.Grammar/Ebnf/Internal/EbnfParser.cs:84-133 | a brace repetition printed after its `{` reads back as the repetition it denotes, or fails as the conversion does |
| EbnfParser.BetweenRoundTrip | Sources/SynKit.Grammar/Ebnf/Internal/EbnfParser.cs:91-101 | `{n,m}` reads back as Between(n, m) |
| EbnfParser.AtLeastRoundTrip | Sources/SynKit.Grammar/Ebnf/Internal/EbnfParser.cs:91-105 | `{n,}` reads back as AtLeast(n) |
| EbnfParser.ExactlyRoundTrip | Sources/SynKit.Grammar/Ebnf/Internal/EbnfParser.cs:112-115 | `{n}` reads back as Exactly(n) |
| EbnfParser.AtMostRoundTrip | Sources/SynKit.Grammar/Ebnf/Internal/EbnfParser.cs:122-128 | `{,m}` reads back as AtMost(m) |
| EbnfParser.OpRoundTrip | Sources/SynKit.Grammar/Ebnf/Internal/EbnfParser.cs:79-136 | one printed postfix operator reads back as that operator applied |
| EbnfParser.BraceOpRoundTrip | Sources/SynKit.Grammar/Ebnf/Internal/EbnfParser.cs:84-134 | a printed brace repetition, with its `{`, reads back as the repetition it denotes |
| EbnfParser.OpsRoundTrip | Sources/SynKit.Grammar/Ebnf/Internal/EbnfParser.cs:79-136 | printed operators read back one by one, left to right |
| EbnfParser.EnclosedRoundTrip | Sources/SynKit.Grammar/Ebnf/Internal/EbnfParser.cs:153-173 | alternatives inside brackets read back up to the closing bracket |
| EbnfParser.AtomRoundTrip | Sources/SynKit.Grammar/Ebnf/Internal/EbnfParser.cs:141-176 | a printed atom reads back as its tree when no `=` follows |
| EbnfParser.BracketsRoundTrip | Sources/SynKit.Grammar/Ebnf/Internal/EbnfParser.cs:160-174 | the standard flavour's `{...}` and `[...]` read back as zero-or-more and optional |
| EbnfParser.PostfixRoundTrip | Sources/SynKit.Grammar/Ebnf/Internal/EbnfParser.cs:72-139 | a printed postfix expression reads back as its tree when no operator follows |
| EbnfParser.ItemsRoundTrip | Sources/SynKit.Grammar/Ebnf/Internal/EbnfParser.cs:63-68 | printed items read back one by one into the left-folded sequence |
| EbnfParser.SeqRoundTrip | Sources/SynKit.Grammar/Ebnf/Internal/EbnfParser.cs:60-70 | a printed sequence reads back as its tree, ε-headed and folded left |
| EbnfParser.AltsRoundTrip | Sources/SynKit.Grammar/Ebnf/Internal/EbnfParser.cs:52-56 | printed `\|`-alternatives read back into the left-folded alternative |
| EbnfParser.AltBodyRoundTrip | Sources/SynKit.Grammar/Ebnf/Internal/EbnfParser.cs:50-57 | a printed alternative list reads back as its tree |
| EbnfParser.AltPeek | Sources/SynKit.Grammar/Ebnf/Internal/EbnfParser.cs:49-50 | a printed list that does not start with an empty sequence before `\|` does not start with `\|` |
| EbnfParser.AltRoundTrip | Sources/SynKit.Grammar/Ebnf/Internal/EbnfParser.cs:46-58 | a printed alternative list, with an optional leading `\|` at top level, reads back as its tree |
| EbnfParser.RuleHead | Sources/SynKit.Grammar/Ebnf/Internal/EbnfParser.cs:38-40 | a name and `=` are taken and the rest is read as top-level alternatives |
| EbnfParser.RuleTail | Sources/SynKit.Grammar/Ebnf/Internal/EbnfParser.cs:41-43 | an optional `;` after the alternatives is skipped |
| EbnfParser.PrintRuleSplit | Sources/SynKit.Grammar/Ebnf/Internal/EbnfParser.cs:36-44 | a printed rule is its name, `=`, an optional `\|`, the alternatives and an optional `;` |
| EbnfParser.RuleRoundTrip | Sources/SynKit.Grammar/Ebnf/Internal/EbnfParser.cs:36-44 | a printed rule reads back as its name and tree |
| EbnfParser.PrintRuleStarts | Sources/SynKit.Grammar/Ebnf/Internal/EbnfParser.cs:36-38 | a printed rule starts with its name |
| EbnfParser.RulesRoundTrip | Sources/SynKit.Grammar/Ebnf/Internal/EbnfParser.cs:23-32 | printed rules read back one by one into the grammar being built, the first as start rule and a repeated name as an argument error |
| EbnfParser.ParsePrinted | Sources/SynKit.Grammar/Ebnf/Internal/EbnfParser.cs:19-34 | parsing printed rules gives exactly the grammar they denote, or the same failure |
| Enumerables.SelectCollection | Sources/SynKit.Collections/EnumerableExtensions.cs:39-41 | the count is kept and each element is the selector applied to the element at the same position |
| Enumerables.Repeat | Sources/SynKit.Collections/EnumerableExtensions.cs:79-85 | a run of n copies has length n and holds only its element |
| Enumerables.ExpandAppend | Sources/SynKit.Collections/EnumerableExtensions.cs:79-85 | decoding one more run appends its copies |
| Enumerables.ExpandLength | Sources/SynKit.Collections/EnumerableExtensions.cs:61-86 | the counts of the runs add up to the decoded length |
| Enumerables.RunLengthEncode | Sources/SynKit.Collections/EnumerableExtensions.cs:61-86 | the runs decode back to the input, are canonical (positive counts, adjacent runs of different elements), count exactly the input's length, and are empty exactly for empty input |
| Enumerables.ExtendRun | Sources/SynKit.Collections/EnumerableExtensions.cs:73-76 | an element equal to the open run's extends it by one |
| Enumerables.CloseRun | Sources/SynKit.Collections/EnumerableExtensions.cs:77-82 | a different element emits the open run and opens a run of one |
| Enumerables.FinishRuns | Sources/SynKit.Collections/EnumerableExtensions.cs:85 | emitting the last open run makes the runs decode to the whole input |
| Enumerables.LeadingRepeat | Sources/SynKit.Collections/EnumerableExtensions.cs:70-83 | n copies of x in front add n to the leading run of x |
| Enumerables.ExpandHead | Sources/SynKit.Collections/EnumerableExtensions.cs:61-86 | a canonical run list decodes to its first run followed by something that does not extend it |
| Enumerables.CanonicalUnique | Sources/SynKit.Collections/EnumerableExtensions.cs:61-86 | two canonical run lists that decode to the same sequence are equal, so the encoding is the only canonical one |
| LrInterface.Row | Sources/SynKit.Cli/Templating/LrInterface.cs:50 | a state's row has one cell per terminal, in terminal order |
| LrInterface.Rows | Sources/SynKit.Cli/Templating/LrInterface.cs:48-50 | the rows of all states, in state order |
| LrInterface.DedupStep | Sources/SynKit.Cli/Templating/LrInterface.cs:49-56 | visiting a state records its row when new and maps the state to the row's first state |
| LrInterface.DedupDone | Sources/SynKit.Cli/Templating/LrInterface.cs:42-59 | after all states the map is the deduplication |
| LrInterface.LrDeduplicateActionsRows | Sources/SynKit.Cli/Templating/LrInterface.cs:42-59 | every state maps to the first state with an equal row: never a later one, with the same row and no earlier state having it; the map is idempotent, and two states share an image exactly when their rows are equal |
| LrInterface.LrRleActionsRow | Sources/SynKit.Cli/Templating/LrInterface.cs:61-66 | the runs decode back to the state's row, are canonical under set equality of cells, and count one cell per terminal |
| Positions.CompareInt | Sources/SynKit.Text/Position.cs:18-19 | the integer comparison gives -1, 0 or 1 exactly for less, equal and greater |
| Positions.CompareTo | Sources/SynKit.Text/Position.cs:16-20 | negative exactly when the first position comes first in line-then-column order, zero exactly when equal, positive exactly when it comes after |
| Positions.OperatorsAgree | Sources/SynKit.Text/Position.cs:28-54 | the four comparison operators agree with that order and with each other |
| Positions.CompareToIsTotalOrder | Sources/SynKit.Text/Position.cs:16-54 | the comparison is antisymmetric and transitive, and exactly one of <, ==, > holds |
| Positions.AdvanceMoves | Sources/SynKit.Text/Position.cs:61 | advancing keeps the line, composes additively, and moves forward for a positive amount and back for a negative one |
| Positions.NewlineAfterLine | Sources/SynKit.Text/Position.cs:67 | the start of the next line comes after every position on the current line and before every position of a later line |
| Cursors.Push | Sources/SynKit.Text/Cursor.cs:19-36 | the fed character becomes the last character |
| Cursors.PushCases | Sources/SynKit.Text/Cursor.cs:21-34 | `\n` after `\r` does not move; another line break goes to the next line's start; whitespace or a non-control character moves one column; any other control character does not move |
| Cursors.CrLfIsOneNewline | Sources/SynKit.Text/Cursor.cs:21-28 | `\r\n` moves to the start of the next line exactly once |
| Cursors.PushNeverMovesBack | Sources/SynKit.Text/Cursor.cs:19-36 | a step never moves the cursor back |
| Cursors.PushAll | Sources/SynKit.Text/Cursor.cs:19-36 | feeding a string leaves its last character as the last one, and feeding nothing changes nothing |
| Cursors.PushAllCountsLines | Sources/SynKit.Text/Cursor.cs:21-29 | the line is advanced by the number of line breaks fed, with `\r\n` counted once |
| Cursors.PushAllOnOneLine | Sources/SynKit.Text/Cursor.cs:30-34 | without line breaks the line stays and the column grows by the number of printable characters |
| LrInterface.ExactlyOneKind | Sources/SynKit.Cli/Templating/LrInterface.cs:73-87 | every action is exactly one of shift, reduce and accept |

## Left out

- Text input: the lexers and the buffered scanner are replaced by an abstract token sequence with an index. A token carries its kind and text, and the end of input is an `End` token.
- EbnfParser.ParseInt: `int.Parse` is modelled only for ASCII decimal digits up to 2^31 − 1. Anything else fails with Format, and a larger value fails with Overflow. Signs, surrounding whitespace and culture-specific digits are not modelled.
- Cursors.Push: `char.IsWhiteSpace` and `char.IsControl` are parameters (`CharClasses`), not the .NET Unicode tables.
- Cursors.Push: a C# `char` is a UTF-16 code unit, but a Dafny `char` is a Unicode scalar value. A character outside the Basic Multilingual Plane reaches the source as two surrogate halves and moves the column by 2. The model feeds it as one character and moves the column by 1. Lone surrogates cannot be fed at all.
- Cursors.PushAll: the column count is per Dafny character, not per UTF-16 code unit, for the reason given under `Cursors.Push`.
- Cursors.PushAllOnOneLine: the column grows by the number of printable Dafny characters. The source counts UTF-16 code units, so a string with characters outside the Basic Multilingual Plane differs.
- Positions.AdvanceMoves: lines and columns are unbounded integers. The 32-bit wrap-around of `Advance` and `Newline` at int.MaxValue is not modelled.
- Hash-container iteration order is left open with `:|`, so concrete state ids are not fixed. The table builders are specified up to the order in which states are interned, and the allocator guarantees dense, mutually inverse ids.
- Hash codes: `GetHashCode` of symbols, productions and items is an uninterpreted function. Only the order independence of the LALR lookahead hash and of the item-set XOR hash is stated.
- LrTables.Index: the action-table indexer creates an empty cell for a missing key. The model records that key as created and leaves the contents of every cell alone.
- GraphSearch.Bfs: the source diverges when the reachable set is infinite. The model therefore requires a finite universe that holds the roots and is closed under the neighbour function.
- LookaheadPath.Search: the search has no visited set and need not stop. The model bounds it by `fuel` dequeues. `None` means the fuel ran out where the source would keep searching, so shortestness is proved only up to that bound.
- LookaheadPath.NextItem: on a final item the model gives no successor nodes, which is what the search evidently means. The source raises there instead; `LookaheadPath.NextItemAsWritten` models that, and Findings records it.
- LookaheadPath.NextItemAsWritten: "the state has a row in the older goto table" is modelled as "the state has a goto entry". The two differ only after a goto entry is removed by assigning null, which no builder does.
- The shift half of the counterexample search (`DiscoverShiftPath`) and the lookahead-sensitive path class are not part of this model. The first is not in the source, and the second is unfinished: it throws while building items and has no target check.
- CfGrammar.ExpandAt: `GenerateSentences` is a lazy, possibly infinite stream ordered by a priority queue. Only its one-step expansion and the single-enqueue rule are modelled.
- The EBNF converters to context-free grammars are not part of this model. They match on tree node kinds that the EBNF tree in the source does not have.
- Rendering, the command-line program, templating and file I/O are not part of this model, apart from the two table helpers of the templating interface.
- Equality comparers, read-only views and the table interfaces become Dafny's built-in equality on sets, sequences and maps.
- The older duplicate generator under `Lr/` runs the same algorithms as the `Lr/Items` and `Lr/Tables` classes and is covered by the same model. It is not modelled separately. Its goto table differs in one way: a null nonterminal raises. That is modelled only where the counterexample search hits it.
- Grammar.FollowSets: this method and `Slr`, `Clr` and `Lalr` compute FIRST before they start, where the source computes it on the first lookup. A failed computation is kept as a `Result` and surfaces only where the source would look FIRST up, so the errors and outcomes are the same. The only difference is that a successful FIRST computation may be cached where the source has not yet cached it. The cached map is the one a later query would compute anyway.
- LrParsingTable.Lalr: when several closure items are stuck, or a closure item is stuck and a successor is missing, the source raises whichever it meets first in hash-set order. The contracts name the possible errors and the phase each comes from, but leave open which one is raised. The model checks the `#` closures of all kernel items before any successor lookup, whereas the source interleaves them kernel item by kernel item. Which error wins can differ, but not whether the build fails. `Clr` and `ClrClosure` likewise leave open which stuck item is reported.
- Expected values in the tests are not proved: the 8 LR(0) states and 14 CLR states of the LR(0) grammar, the LR(0) shift/reduce conflict on the SLR grammar, the LALR reduce/reduce conflicts of the CLR grammar, and the FIRST sets of the expression grammar. The model proves the general properties these numbers are instances of.
- The 10-node dangling-else reduce path of the counterexample tests is not computed.
- The FOLLOW sets asserted in the tests presuppose E as start symbol, but the test helper never sets one. Against the Cfg grammar that call fails with InvalidOperation, and that is how `Grammar.FollowSets` is modelled.
- EbnfAst.Normalize: a repetition whose upper bound is int.MaxValue never finishes in the source, because the 32-bit loop counter at `Sources/SynKit.Grammar/Ebnf/EbnfAst.cs:201` wraps around before it can exceed the bound. The model expands it to a finite tree.
- EbnfAst.Normalize: the normalised tree is proved to be in normal form, and normalising is proved idempotent. That it denotes the same language as the input is not proved, because the model has no language semantics for EBNF.
- EbnfParser.ParseAlt: this contract and those of `ParseSeq`, `TryParsePostfix` and `TryParseAtom` only bound how many tokens are consumed. What the parsers build is stated by the round-trip lemmas from `ParsePrinted` down.

## Findings

| source | as written | input that shows it | evidently intended | confidence | as-written member | corrected member |
|---|---|---|---|---|---|---|
| Sources/SynKit.Grammar/Lr/Internal/LookaheadPath.cs:96-111 | a final item has no symbol after the cursor, so the nonterminal cast passes null to the older goto table, whose nested dictionary lookup raises ArgumentNullException whenever the state has a goto entry | START → S, S → B a, B → ε, with a goto from state 0 on B and another node searched: two production steps from the START node, through (0, S → ·B a, {$}), reach the final node (0, B → ·, {a}), which is queued and later dequeued | a final item has no successor, and the search moves on | not executed | LookaheadPath.NextItemAsWritten | LookaheadPath.NextItem |
| Sources/SynKit.Grammar/ContextFree/Internal/CfParser.cs:74 | an `ε` alternative is kept as a one-token right side, which `Parse` turns into a terminal named by the token text, so no parsed grammar has an empty production | the tokens `A -> eps` followed by End (`eps` is a spelling of the `ε` token) | `A -> ε` registers the empty production A → [] | not executed | CfParser.EpsilonAlternativeAsWritten | CfParser.EpsilonAlternativeIntended |
