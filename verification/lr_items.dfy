/**
 * LR items and item sets. One generic item carries the production, the cursor and a lookahead part:
 * `()` for LR(0) items, one terminal for canonical LR(1) items and a terminal set for LALR items.
 * Equality is structural, so LALR lookaheads compare as sets and item sets compare by their members.
 */
module LrItems {
  import opened Wrappers
  import opened Symbols

  datatype Item<L> = Item(prod: Production, cursor: nat, la: L)

  type Lr0Item = Item<()>
  type ClrItem = Item<TermId>
  type LalrItem = Item<set<TermId>>

  /** The invariant the item constructor enforces: the cursor stands inside the right side. */
  predicate ValidItem<L>(it: Item<L>)
  {
    it.cursor <= |it.prod.right|
  }

  /** The item constructor: a cursor outside `0..|right|` raises ArgumentOutOfRange. */
  function MakeItem<L>(prod: Production, cursor: int, la: L): (r: Result<Item<L>>)
    ensures r.Success? <==> 0 <= cursor <= |prod.right|
    ensures r.Success? ==> ValidItem(r.value) && r.value.prod == prod && r.value.cursor == cursor && r.value.la == la
    ensures r.Failure? ==> r.error == ArgumentOutOfRange
  {
    if cursor < 0 || cursor > |prod.right| then Failure(ArgumentOutOfRange)
    else Success(Item(prod, cursor, la))
  }

  predicate IsInitial<L>(it: Item<L>)
  {
    it.cursor == 0
  }

  predicate IsFinal<L>(it: Item<L>)
  {
    it.cursor == |it.prod.right|
  }

  /** Kernel items: the cursor has moved, or the production is one of START's. */
  predicate IsKernel<L>(it: Item<L>)
  {
    !IsInitial(it) || it.prod.left == Start
  }

  /** The symbol after the cursor; none for a final item. */
  function AfterCursor<L>(it: Item<L>): (r: Option<Symbol>)
    ensures ValidItem(it) ==> (r.None? <==> IsFinal(it))
    ensures r.Some? ==> it.cursor < |it.prod.right| && r.value == it.prod.right[it.cursor]
  {
    if it.cursor < |it.prod.right| then Some(it.prod.right[it.cursor]) else None
  }

  /** The item with the cursor advanced by one, saturating at the end of the right side. */
  function Next<L>(it: Item<L>): (r: Item<L>)
    ensures ValidItem(r) && r.prod == it.prod && r.la == it.la
    ensures IsFinal(it) ==> r == it
    ensures ValidItem(it) && !IsFinal(it) ==> r.cursor == it.cursor + 1 && !IsInitial(r) && IsKernel(r)
  {
    it.(cursor := if it.cursor + 1 < |it.prod.right| then it.cursor + 1 else |it.prod.right|)
  }

  /** The LR(0) part of an item: production and cursor. */
  function Core<L>(it: Item<L>): (r: Lr0Item)
    ensures r.prod == it.prod && r.cursor == it.cursor
  {
    Item(it.prod, it.cursor, ())
  }

  /** The cores of a set of items: its items with the lookaheads dropped. */
  function Cores<L(==)>(items: set<Item<L>>): (r: set<Lr0Item>)
    ensures forall c :: c in r <==> exists it :: it in items && Core(it) == c
  {
    set it {:trigger it in items} | it in items :: Core(it)
  }

  /** Advancing commutes with dropping the lookahead. */
  lemma CoreNext<L>(it: Item<L>)
    requires ValidItem(it)
    ensures ValidItem(Core(it)) && Core(Next(it)) == Next(Core(it))
    ensures AfterCursor(Core(it)) == AfterCursor(it)
  {
  }

  /** An LR(0) item is its own core. */
  lemma Lr0ItemIsCore(it: Lr0Item)
    ensures Core(it) == it
  {
    var u: () := it.la;
    assert u == ();
  }

  // ------------------------------------------------------------------ order-independent hashes

  /** XOR of the hashes of a sequence's elements. */
  function XorFold<T(!new)>(s: seq<T>, hash: T -> bv32): bv32
  {
    if s == [] then 0 else hash(s[0]) ^ XorFold(s[1..], hash)
  }

  lemma {:induction false} XorFoldRemove<T(!new)>(s: seq<T>, k: nat, hash: T -> bv32)
    requires k < |s|
    ensures XorFold(s, hash) == hash(s[k]) ^ XorFold(s[..k] + s[k + 1..], hash)
  {
    if k > 0 {
      XorFoldRemove(s[1..], k - 1, hash);
      assert s[1..][..k - 1] + s[1..][k..] == (s[..k] + s[k + 1..])[1..];
    } else {
      assert s[..k] + s[k + 1..] == s[1..];
    }
  }

  /** Dropping the element at `k` drops one occurrence of it from the multiset. */
  lemma MultisetRemoveAt<T>(b: seq<T>, k: int)
    requires 0 <= k < |b|
    ensures multiset(b[..k] + b[k + 1..]) == multiset(b) - multiset{b[k]}
  {
    assert b == b[..k] + [b[k]] + b[k + 1..];
    assert multiset(b) == multiset(b[..k]) + multiset{b[k]} + multiset(b[k + 1..]);
  }

  /** Removing one occurrence of the same element from two permutations leaves permutations. */
  lemma MultisetRemoveBoth<T>(a: seq<T>, b: seq<T>, k: int)
    requires multiset(a) == multiset(b) && |a| > 0 && 0 <= k < |b| && b[k] == a[0]
    ensures multiset(a[..0] + a[1..]) == multiset(b[..k] + b[k + 1..])
  {
    MultisetRemoveAt(a, 0);
    MultisetRemoveAt(b, k);
  }

  /** The XOR fold does not depend on the order of the elements. */
  lemma {:induction false} XorFoldPermutation<T(!new)>(a: seq<T>, b: seq<T>, hash: T -> bv32)
    requires multiset(a) == multiset(b)
    ensures XorFold(a, hash) == XorFold(b, hash)
    decreases |a|
  {
    if a != [] {
      assert a[0] in multiset(b);
      var k :| 0 <= k < |b| && b[k] == a[0];
      var a', b' := a[..0] + a[1..], b[..k] + b[k + 1..];
      XorFoldRemove(a, 0, hash);
      XorFoldRemove(b, k, hash);
      MultisetRemoveBoth(a, b, k);
      XorFoldPermutation(a', b', hash);
    } else {
      assert b == [];
    }
  }

  /** `e` lists the members of `s`, each once: one possible iteration order of a hash set. */
  ghost predicate Enumerates<T(!new)>(e: seq<T>, s: set<T>)
  {
    && (forall x :: x in e <==> x in s)
    && forall i, j :: 0 <= i < j < |e| ==> e[i] != e[j]
  }

  lemma {:induction false} EnumerationMultiset<T(!new)>(e: seq<T>, s: set<T>)
    requires Enumerates(e, s)
    ensures multiset(e) == multiset(s)
  {
    if e != [] {
      var rest := s - {e[0]};
      assert Enumerates(e[1..], rest) by {
        forall x | x in e[1..] ensures x != e[0] {
          var i :| 1 <= i < |e| && e[i] == x;
          assert e[0] != e[i];
        }
      }
      EnumerationMultiset(e[1..], rest);
      assert e == [e[0]] + e[1..];
      assert s == {e[0]} + rest;
    } else {
      assert s == {};
    }
  }

  /** The hash of a set as the XOR of its members' hashes (item sets and LALR lookahead sets). */
  ghost function SetHash<T(!new)>(e: seq<T>, s: set<T>, hash: T -> bv32): bv32
    requires Enumerates(e, s)
  {
    XorFold(e, hash)
  }

  /** Equal sets hash equally, whatever order their members are visited in. */
  lemma SetHashOrderIndependent<T(!new)>(e1: seq<T>, e2: seq<T>, s: set<T>, hash: T -> bv32)
    requires Enumerates(e1, s) && Enumerates(e2, s)
    ensures SetHash(e1, s, hash) == SetHash(e2, s, hash)
  {
    EnumerationMultiset(e1, s);
    EnumerationMultiset(e2, s);
    XorFoldPermutation(e1, e2, hash);
  }

  /**
   * The LALR item hash: production, cursor and the XOR of the lookahead hashes, combined by an
   * unspecified mixing function.
   */
  ghost function LalrHash(it: LalrItem, e: seq<TermId>, prodHash: Production -> bv32, termHash: TermId -> bv32,
                          combine: (bv32, nat, bv32) -> bv32): bv32
    requires Enumerates(e, it.la)
  {
    combine(prodHash(it.prod), it.cursor, SetHash(e, it.la, termHash))
  }

  /** Equal LALR items hash equally. */
  lemma LalrHashConsistent(a: LalrItem, b: LalrItem, ea: seq<TermId>, eb: seq<TermId>,
                           prodHash: Production -> bv32, termHash: TermId -> bv32, combine: (bv32, nat, bv32) -> bv32)
    requires Enumerates(ea, a.la) && Enumerates(eb, b.la)
    requires a.prod == b.prod && a.cursor == b.cursor && a.la == b.la
    ensures a == b
    ensures LalrHash(a, ea, prodHash, termHash, combine) == LalrHash(b, eb, prodHash, termHash, combine)
  {
    SetHashOrderIndependent(ea, eb, a.la, termHash);
  }

  // ------------------------------------------------------------------ item sets

  /** An item set built from an enumerable: duplicates collapse. */
  function FromSeq<L(==,!new)>(items: seq<Item<L>>): (r: set<Item<L>>)
    ensures forall it :: it in r <==> it in items
  {
    set it | it in items
  }

  /** Dropping a duplicate from the enumerable gives the same item set. */
  lemma FromSeqIgnoresDuplicates<L(!new)>(a: seq<Item<L>>, x: Item<L>, b: seq<Item<L>>)
    requires x in a + b
    ensures FromSeq(a + [x] + b) == FromSeq(a + b)
  {
    assert forall it :: it in a + [x] + b <==> it in a + b;
  }

  function KernelItems<L(==,!new)>(s: set<Item<L>>): (r: set<Item<L>>)
    ensures forall it :: it in r <==> it in s && IsKernel(it)
  {
    set it | it in s && IsKernel(it)
  }

  function ReductionItems<L(==,!new)>(s: set<Item<L>>): (r: set<Item<L>>)
    ensures forall it :: it in r <==> it in s && IsFinal(it)
  {
    set it | it in s && IsFinal(it)
  }

  /** The items of `s` with `x` after the cursor. */
  function Group<L(==,!new)>(s: set<Item<L>>, x: Symbol): (r: set<Item<L>>)
    ensures forall it :: it in r <==> it in s && AfterCursor(it) == Some(x)
  {
    set it | it in s && AfterCursor(it) == Some(x)
  }

  /** The symbols standing after the cursor of some item of `s`. */
  function AfterSymbols<L(==,!new)>(s: set<Item<L>>): (r: set<Symbol>)
    ensures forall x :: x in r <==> exists it :: it in s && AfterCursor(it) == Some(x)
  {
    set it {:trigger it in s} | it in s && AfterCursor(it).Some? :: AfterCursor(it).value
  }

  /** Shift items grouped by the terminal after the cursor. */
  function ShiftItems<L(==,!new)>(s: set<Item<L>>): (r: map<TermId, set<Item<L>>>)
    ensures forall t :: t in r <==> exists it :: it in s && AfterCursor(it) == Some(Terminal(t))
    ensures forall t :: t in r ==> r[t] != {} && r[t] == Group(s, Terminal(t))
  {
    map t | t in TerminalsOf(AfterSymbols(s)) :: Group(s, Terminal(t))
  }

  /** Items with a nonterminal after the cursor, grouped by that nonterminal. */
  function ProductionItems<L(==,!new)>(s: set<Item<L>>): (r: map<NtId, set<Item<L>>>)
    ensures forall n :: n in r <==> exists it :: it in s && AfterCursor(it) == Some(Nonterminal(n))
    ensures forall n :: n in r ==> r[n] != {} && r[n] == Group(s, Nonterminal(n))
  {
    map n | n in (set x | x in AfterSymbols(s) && x.Nonterminal? :: x.n) :: Group(s, Nonterminal(n))
  }

  /** An item whose right side has no ε in it, as every production the grammar accepts. */
  predicate NoEpsilonAfter<L(==,!new)>(it: Item<L>)
  {
    AfterCursor(it) != Some(Epsilon)
  }

  /**
   * Each valid item without ε after its cursor lies in exactly one of: a shift group, a production
   * group, the reduction items.
   */
  lemma ItemSetPartition<L(!new)>(s: set<Item<L>>, it: Item<L>)
    requires it in s && ValidItem(it) && NoEpsilonAfter(it)
    ensures var inShift := exists t :: t in ShiftItems(s) && it in ShiftItems(s)[t];
            var inProd := exists n :: n in ProductionItems(s) && it in ProductionItems(s)[n];
            var inRed := it in ReductionItems(s);
            (inShift && !inProd && !inRed) || (!inShift && inProd && !inRed) || (!inShift && !inProd && inRed)
  {
    match AfterCursor(it)
    case None =>
    case Some(x) =>
      match x
      case Terminal(t) =>
        assert it in ShiftItems(s)[t];
      case Nonterminal(n) =>
        assert it in ProductionItems(s)[n];
  }
}
