/**
 * LR actions and the two parse tables. The action table maps a (state, terminal) cell to a set of
 * actions, and a cell holding more than one is a conflict; the goto table is a partial map from
 * (state, nonterminal) to a state.
 */
module LrTables {
  import opened Wrappers
  import opened Symbols

  /** An LR state is its dense identifier. */
  type LrState = nat

  const InitialState: LrState := 0

  datatype LrAction = Shift(state: LrState) | Reduce(prod: Production) | Accept

  // ------------------------------------------------------------------ action table

  type ActionTable = map<(LrState, TermId), set<LrAction>>

  /** The actions of a cell; a cell never written reads as empty. */
  function Cell(table: ActionTable, state: LrState, term: TermId): set<LrAction>
  {
    if (state, term) in table then table[(state, term)] else {}
  }

  /**
   * The indexer: returns the cell's actions, first creating an empty cell when there is none. The
   * contents of every cell read the same before and after.
   */
  function Index(table: ActionTable, state: LrState, term: TermId): (r: (set<LrAction>, ActionTable))
    ensures r.0 == Cell(table, state, term)
    ensures r.1.Keys == table.Keys + {(state, term)}
    ensures forall s: LrState, t: TermId :: Cell(r.1, s, t) == Cell(table, s, t)
  {
    if (state, term) in table then (table[(state, term)], table)
    else ({}, table[(state, term) := {}])
  }

  /** `table[state, term].Add(action)`. */
  function AddAction(table: ActionTable, state: LrState, term: TermId, action: LrAction): (r: ActionTable)
    ensures Cell(r, state, term) == Cell(table, state, term) + {action}
    ensures forall s: LrState, t: TermId :: (s, t) != (state, term) ==> Cell(r, s, t) == Cell(table, s, t)
    ensures r.Keys == table.Keys + {(state, term)}
  {
    var (cell, created) := Index(table, state, term);
    created[(state, term) := cell + {action}]
  }

  /** Adding an action that is already in the cell changes no cell. */
  lemma AddActionPresent(table: ActionTable, state: LrState, term: TermId, action: LrAction)
    requires action in Cell(table, state, term)
    ensures forall s: LrState, t: TermId :: Cell(AddAction(table, state, term, action), s, t) == Cell(table, s, t)
  {
  }

  /** The cells holding more than one action. */
  function ConflictingTransitions(table: ActionTable): (r: set<(LrState, TermId)>)
    ensures forall s: LrState, t: TermId :: (s, t) in r <==> |Cell(table, s, t)| > 1
  {
    set k | k in table && |table[k]| > 1
  }

  function HasConflicts(table: ActionTable): (r: bool)
    ensures r <==> exists s: LrState, t: TermId :: |Cell(table, s, t)| > 1
  {
    var c := ConflictingTransitions(table);
    if c != {} then
      var k :| k in c;
      assert |Cell(table, k.0, k.1)| > 1;
      true
    else
      false
  }

  // ------------------------------------------------------------------ goto table

  type GotoTable = map<(LrState, NtId), LrState>

  function GotoGet(table: GotoTable, from: LrState, nt: NtId): (r: Option<LrState>)
    ensures r.Some? <==> (from, nt) in table
    ensures r.Some? ==> r.value == table[(from, nt)]
  {
    if (from, nt) in table then Some(table[(from, nt)]) else None
  }

  /** Assigning none removes the entry; assigning a state overwrites it. */
  function GotoSet(table: GotoTable, from: LrState, nt: NtId, value: Option<LrState>): (r: GotoTable)
    ensures GotoGet(r, from, nt) == value
    ensures forall s: LrState, n: NtId :: (s, n) != (from, nt) ==> GotoGet(r, s, n) == GotoGet(table, s, n)
  {
    match value
    case None => table - {(from, nt)}
    case Some(to) => table[(from, nt) := to]
  }

  /** Writing back what was read leaves the table as it was. */
  lemma GotoSetGet(table: GotoTable, from: LrState, nt: NtId)
    ensures GotoSet(table, from, nt, GotoGet(table, from, nt)) == table
  {
    var r := GotoSet(table, from, nt, GotoGet(table, from, nt));
    assert forall k :: k in r <==> k in table by {
      forall k ensures k in r <==> k in table {
        assert GotoGet(r, k.0, k.1) == GotoGet(table, k.0, k.1);
      }
    }
  }
}
