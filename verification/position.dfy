/**
 * Positions in text: a 0-based line and column, ordered line first, then column. Integers are
 * unbounded here; the 32-bit wrap-around of the fields is not modelled.
 */
module Positions {

  datatype Position = Position(line: int, column: int)

  /** Lexicographic order on (line, column), stated without any comparison result. */
  predicate Before(p: Position, q: Position)
  {
    p.line < q.line || (p.line == q.line && p.column < q.column)
  }

  /** `int.CompareTo`: -1, 0 or 1. */
  function CompareInt(a: int, b: int): (r: int)
    ensures r == -1 <==> a < b
    ensures r == 0 <==> a == b
    ensures r == 1 <==> a > b
  {
    if a < b then -1 else if a > b then 1 else 0
  }

  /** `CompareTo`: compare the lines, and the columns only when the lines are equal. */
  function CompareTo(p: Position, q: Position): (r: int)
    ensures r < 0 <==> Before(p, q)
    ensures r == 0 <==> p == q
    ensures r > 0 <==> Before(q, p)
    ensures -1 <= r <= 1
  {
    var l := CompareInt(p.line, q.line);
    if l == 0 then CompareInt(p.column, q.column) else l
  }

  predicate Less(p: Position, q: Position) { CompareTo(p, q) < 0 }
  predicate LessOrEqual(p: Position, q: Position) { CompareTo(p, q) <= 0 }
  predicate Greater(p: Position, q: Position) { CompareTo(p, q) > 0 }
  predicate GreaterOrEqual(p: Position, q: Position) { CompareTo(p, q) >= 0 }

  /** The four operators agree with the lexicographic order and with each other. */
  lemma OperatorsAgree(p: Position, q: Position)
    ensures Less(p, q) <==> Before(p, q)
    ensures LessOrEqual(p, q) <==> Before(p, q) || p == q
    ensures Greater(p, q) <==> Less(q, p)
    ensures GreaterOrEqual(p, q) <==> LessOrEqual(q, p)
    ensures Less(p, q) <==> !GreaterOrEqual(p, q)
  {
  }

  /** `CompareTo` is antisymmetric and transitive, and exactly one of <, ==, > holds: a total order. */
  lemma CompareToIsTotalOrder(p: Position, q: Position, o: Position)
    ensures CompareTo(p, q) == -CompareTo(q, p)
    ensures Less(p, q) && Less(q, o) ==> Less(p, o)
    ensures (Less(p, q) && !(p == q) && !Greater(p, q)) || (!Less(p, q) && p == q && !Greater(p, q))
            || (!Less(p, q) && !(p == q) && Greater(p, q))
  {
  }

  /** The position `amount` columns further along the same line. */
  function Advance(p: Position, amount: int): (r: Position)
  {
    Position(p.line, p.column + amount)
  }

  /** The first column of the next line. */
  function Newline(p: Position): (r: Position)
  {
    Position(p.line + 1, 0)
  }

  /**
   * Advancing keeps the line, is cumulative, and moves strictly forward for a positive amount
   * (backward for a negative one).
   */
  lemma AdvanceMoves(p: Position, a: int, b: int)
    ensures Advance(p, a).line == p.line
    ensures Advance(Advance(p, a), b) == Advance(p, a + b)
    ensures a > 0 ==> Less(p, Advance(p, a))
    ensures a < 0 ==> Less(Advance(p, a), p)
    ensures Advance(p, 0) == p
  {
  }

  /** The start of the next line comes after every position on the current line, and before every later line's. */
  lemma NewlineAfterLine(p: Position, q: Position)
    ensures q.line == p.line ==> Less(q, Newline(p))
    ensures q.line > p.line + 1 ==> Less(Newline(p), q)
    ensures q.line == p.line + 1 ==> (LessOrEqual(Newline(p), q) <==> q.column >= 0)
  {
  }
}
