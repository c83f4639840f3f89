/** Grammar symbols and productions, shared by the ContextFree and Cfg grammar variants. */
module Symbols {

  /** Identity of a terminal. `$` and `#` are marker objects that no user-named terminal can equal. */
  datatype TermId = TermName(name: string) | EndOfInput | NotInGrammar

  /**
   * Identity of a nonterminal. `START` is a marker object; `Fresh` stands for the marker created by
   * `Nonterminal.Fresh()`, made unique by a serial number.
   */
  datatype NtId = NtName(name: string) | Start | Fresh(base: NtId, serial: nat)

  datatype Symbol = Terminal(t: TermId) | Nonterminal(n: NtId) | Epsilon

  /** A production `left -> right`; equality is structural, as in the source record. */
  datatype Production = Production(left: NtId, right: seq<Symbol>)

  const EndSym: Symbol := Terminal(EndOfInput)
  const SentinelSym: Symbol := Terminal(NotInGrammar)

  /** The terminals among a set of symbols (the source's `OfType<Symbol.Terminal>()`). */
  function TerminalsOf(s: set<Symbol>): (r: set<TermId>)
    ensures forall t :: t in r <==> Terminal(t) in s
  {
    set x {:trigger x in s} | x in s && x.Terminal? :: x.t
  }

  /** The productions among `prods` whose left side is `nt`. */
  function ProductionsOf(prods: set<Production>, nt: NtId): (r: set<Production>)
    ensures forall p :: p in r <==> p in prods && p.left == nt
  {
    set p | p in prods && p.left == nt
  }

  /** Every left side of a production. */
  function Lefts(prods: set<Production>): (r: set<NtId>)
    ensures forall p :: p in prods ==> p.left in r
    ensures forall n :: n in r ==> exists p :: p in prods && p.left == n
  {
    set p {:trigger p in prods} | p in prods :: p.left
  }

  /** True when every symbol of `right` is a known terminal or nonterminal (no ε, nothing unknown). */
  predicate KnownSymbols(right: seq<Symbol>, terminals: set<TermId>, nonterminals: set<NtId>)
  {
    forall i :: 0 <= i < |right| ==>
      match right[i]
      case Terminal(t) => t in terminals
      case Nonterminal(n) => n in nonterminals
      case Epsilon => false
  }

  lemma SubsetCard<T>(a: set<T>, b: set<T>)
    requires a <= b
    ensures |a| <= |b|
    ensures a != b ==> |a| < |b|
  {
    assert b == a + (b - a);
    if a != b {
      var x :| x in b && x !in a;
      assert x in b - a;
    }
  }
}
