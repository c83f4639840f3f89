/**
 * What the code templates read off a parsing table: action rows, the deduplication of equal rows to
 * the first state that has them, the run-length encoding of a row, and the kind of an action.
 * A row lists the cells of one state over the terminals in the table's enumeration order.
 */
module LrInterface {
  import opened Symbols
  import opened LrTables
  import opened LrStateAllocator
  import opened Enumerables
  import opened LrParsingTable

  /** The action row of a state: one cell per terminal, in the order given. */
  function Row(action: ActionTable, state: LrState, terms: seq<TermId>): (r: seq<set<LrAction>>)
    ensures |r| == |terms|
    ensures forall i :: 0 <= i < |terms| ==> r[i] == Cell(action, state, terms[i])
  {
    SelectCollection(terms, t => Cell(action, state, t))
  }

  /** The rows of states `0..count-1`, in state order. */
  function Rows(action: ActionTable, count: nat, terms: seq<TermId>): (r: seq<seq<set<LrAction>>>)
    ensures |r| == count
    ensures forall q :: 0 <= q < count ==> r[q] == Row(action, q, terms)
  {
    seq(count, q requires 0 <= q < count => Row(action, q, terms))
  }

  /** The deduplication loop after the rows below `s`: each row seen is keyed to the first index that has it. */
  ghost predicate DedupState<R>(rows: seq<R>, s: nat, found: map<R, nat>, result: map<nat, nat>)
  {
    && s <= |rows|
    && (forall q: nat :: q in result <==> q < s)
    && (forall row :: row in found ==>
          && found[row] < s
          && rows[found[row]] == row
          && (forall q: nat :: q < found[row] ==> rows[q] != row))
    && (forall q :: q in result ==> rows[q] in found && result[q] == found[rows[q]])
  }

  /** Visiting index `s`: record its row if it is new, and map the index to the row's first index. */
  lemma DedupStep<R>(rows: seq<R>, s: nat, found: map<R, nat>, result: map<nat, nat>)
    requires DedupState(rows, s, found, result) && s < |rows|
    ensures var found' := if rows[s] in found then found else found[rows[s] := s];
            DedupState(rows, s + 1, found', result[s := found'[rows[s]]])
  {
  }

  /** Once every index is visited, the map is the deduplication. */
  lemma DedupDone<R>(rows: seq<R>, found: map<R, nat>, result: map<nat, nat>)
    requires DedupState(rows, |rows|, found, result)
    ensures forall s: nat :: s in result <==> s < |rows|
    ensures forall s :: s in result ==>
              && result[s] <= s
              && rows[result[s]] == rows[s]
              && (forall q: nat :: q < result[s] ==> rows[q] != rows[s])
    ensures forall s :: s in result ==> result[s] in result && result[result[s]] == result[s]
    ensures forall a, b :: a in result && b in result ==> (result[a] == result[b] <==> rows[a] == rows[b])
  {
  }

  /**
   * `LrDeduplicateActionsRows`: visit the states in order and map each to the first state with an
   * equal row (cells compared as sets, position by position). Every state maps to a state at or below
   * it with the same row and no earlier state with that row; representatives map to themselves; and
   * two states share a representative exactly when their rows are equal.
   */
  method LrDeduplicateActionsRows<L(==)>(table: ParsingTable<L>, terms: seq<TermId>) returns (result: map<LrState, LrState>)
    requires forall t :: t in terms <==> t in table.terminals
    ensures forall s: LrState :: s in result <==> s < Count(table.states)
    ensures forall s :: s in result ==>
              && result[s] <= s
              && Row(table.action, result[s], terms) == Row(table.action, s, terms)
              && (forall q: LrState :: q < result[s] ==> Row(table.action, q, terms) != Row(table.action, s, terms))
    ensures forall s :: s in result ==> result[s] in result && result[result[s]] == result[s]
    ensures forall a, b :: a in result && b in result ==>
              (result[a] == result[b] <==> Row(table.action, a, terms) == Row(table.action, b, terms))
  {
    var action := table.action;
    var count := Count(table.states);
    ghost var rows := Rows(action, count, terms);
    result := map[];
    var found: map<seq<set<LrAction>>, LrState> := map[];
    var s := 0;
    while s < count
      invariant DedupState(rows, s, found, result)
    {
      DedupStep(rows, s, found, result);
      var row := Row(action, s, terms);
      assert row == rows[s];
      var existing;
      if row in found {
        existing := found[row];
      } else {
        found := found[row := s];
        existing := s;
      }
      result := result[s := existing];
      s := s + 1;
    }
    DedupDone(rows, found, result);
  }

  /** `LrRleActionsRow`: a state's row, run-length encoded with cells compared as sets. */
  method LrRleActionsRow<L(==)>(table: ParsingTable<L>, state: LrState, terms: seq<TermId>) returns (runs: seq<Run<set<LrAction>>>)
    requires forall t :: t in terms <==> t in table.terminals
    ensures Expand(runs) == Row(table.action, state, terms)
    ensures Canonical(runs)
    ensures SumCounts(runs) == |terms|
  {
    runs := RunLengthEncode(Row(table.action, state, terms));
  }

  predicate IsShift(a: LrAction) { a.Shift? }
  predicate IsReduce(a: LrAction) { a.Reduce? }
  predicate IsAccept(a: LrAction) { a.Accept? }

  /** Every action is of exactly one kind. */
  lemma ExactlyOneKind(a: LrAction)
    ensures IsShift(a) || IsReduce(a) || IsAccept(a)
    ensures !(IsShift(a) && IsReduce(a)) && !(IsShift(a) && IsAccept(a)) && !(IsReduce(a) && IsAccept(a))
  {
  }
}
