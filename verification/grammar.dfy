/**
 * The grammar store shared by both grammar classes: the terminal and nonterminal sets, the productions
 * kept as a set per left side, an optional start symbol, and the three lazily computed caches. A cache
 * is either empty or holds the least solution for the current productions (`Coherent`), so a query
 * answers the same whether it hits the cache or recomputes.
 */
module Grammar {
  import opened Wrappers
  import opened Symbols
  import opened GrammarSets

  datatype Grammar = Grammar(
    start: Option<NtId>,
    terminals: set<TermId>,
    nonterminals: set<NtId>,
    rules: map<NtId, set<Production>>,
    nullables: Option<set<NtId>>,
    firstSets: Option<FirstMap>,
    followSets: Option<FollowMap>)

  /** All productions of the grammar (the source's `Productions`). */
  function Productions(g: Grammar): set<Production>
  {
    set k, p {:trigger p in g.rules[k]} | k in g.rules && p in g.rules[k] :: p
  }

  /** The structural part: rules filed under their left side, `$` known, every left side a nonterminal. */
  predicate WellFiled(g: Grammar)
  {
    && (forall k, p :: k in g.rules && p in g.rules[k] ==> p.left == k)
    && EndOfInput in g.terminals
    && (forall k :: k in g.rules ==> k in g.nonterminals)
  }

  /** Every filled cache holds the least solution for the current productions. */
  ghost predicate Coherent(g: Grammar)
  {
    && (g.nullables.Some? ==> IsNullableSet(Productions(g), g.nullables.value))
    && (g.firstSets.Some? ==> IsFirstSets(Productions(g), g.terminals, g.nonterminals, g.firstSets.value))
    && (g.followSets.Some? ==>
          && g.start.Some?
          && IsFollowSets(Productions(g), g.nonterminals, FirstOrEmpty(CachedFirst(g)), g.start.value, g.followSets.value)
          && (g.firstSets.None? ==> forall p :: p in Productions(g) ==> FollowDefined(p, g.nonterminals, map[])))
  }

  ghost predicate Valid(g: Grammar)
  {
    WellFiled(g) && Coherent(g)
  }

  /** Everything but the caches is equal. */
  predicate SameContent(g: Grammar, h: Grammar)
  {
    g.start == h.start && g.terminals == h.terminals && g.nonterminals == h.nonterminals && g.rules == h.rules
  }

  /** The source's `InvalidateCache`: all three caches dropped. */
  function InvalidateCache(g: Grammar): (r: Grammar)
    ensures SameContent(g, r)
    ensures WellFiled(g) ==> Valid(r)
  {
    g.(nullables := None, firstSets := None, followSets := None)
  }

  lemma LeftsAreNonterminals(g: Grammar)
    requires WellFiled(g)
    ensures Lefts(Productions(g)) <= g.nonterminals
  {
  }

  /** The productions with `nt` on the left; none when `nt` has no entry. */
  function GetProductions(g: Grammar, nt: NtId): (r: set<Production>)
    requires WellFiled(g)
    ensures r == ProductionsOf(Productions(g), nt)
  {
    if nt in g.rules then g.rules[nt] else {}
  }

  /** The production store after inserting `p` under its left side (a no-op for an equal production). */
  function InsertProduction(rules: map<NtId, set<Production>>, p: Production): map<NtId, set<Production>>
  {
    rules[p.left := (if p.left in rules then rules[p.left] else {}) + {p}]
  }

  lemma InsertProductionAdds(g: Grammar, p: Production)
    requires WellFiled(g)
    ensures Productions(g.(rules := InsertProduction(g.rules, p))) == Productions(g) + {p}
  {
    var h := g.(rules := InsertProduction(g.rules, p));
    forall q | q in Productions(h)
      ensures q in Productions(g) + {p}
    {
      var k :| k in h.rules && q in h.rules[k];
      if k != p.left || q != p {
        assert q in g.rules[k];
      }
    }
    forall q | q in Productions(g) + {p}
      ensures q in Productions(h)
    {
      if q == p {
        assert q in h.rules[p.left];
      } else {
        var k :| k in g.rules && q in g.rules[k];
        assert q in h.rules[k];
      }
    }
  }

  // ------------------------------------------------------------------ uniqueness of the least solutions

  lemma NullableSetUnique(prods: set<Production>, a: set<NtId>, b: set<NtId>)
    requires IsNullableSet(prods, a) && IsNullableSet(prods, b)
    ensures a == b
  {
  }

  lemma FirstSetsUnique(prods: set<Production>, terminals: set<TermId>, nonterminals: set<NtId>, a: FirstMap, b: FirstMap)
    requires IsFirstSets(prods, terminals, nonterminals, a) && IsFirstSets(prods, terminals, nonterminals, b)
    ensures a == b
  {
    assert Below(a, b) && Below(b, a);
    assert a.Keys == b.Keys;
    forall k | k in a
      ensures a[k] == b[k]
    {
    }
  }

  lemma FollowSetsUnique(prods: set<Production>, nonterminals: set<NtId>, first: FirstMap, start: NtId, a: FollowMap, b: FollowMap)
    requires IsFollowSets(prods, nonterminals, first, start, a) && IsFollowSets(prods, nonterminals, first, start, b)
    ensures a == b
  {
    assert FollowBelow(a, b) && FollowBelow(b, a);
    assert a.Keys == b.Keys;
    forall k | k in a
      ensures a[k] == b[k]
    {
    }
  }

  // ------------------------------------------------------------------ queries

  /** The cached nullable set, computed on first use. */
  method Nullables(g: Grammar) returns (r: set<NtId>, g': Grammar)
    requires Valid(g)
    ensures Valid(g') && SameContent(g, g') && g'.nullables == Some(r)
    ensures g'.firstSets == g.firstSets && g'.followSets == g.followSets
    ensures IsNullableSet(Productions(g), r)
  {
    if g.nullables.Some? {
      return g.nullables.value, g;
    }
    r := CalculateNullables(Productions(g));
    g' := g.(nullables := Some(r));
  }

  /** Whether the empty word derives from `nt`: membership in the least nullable set. */
  method IsNullable(g: Grammar, nt: NtId) returns (r: bool, g': Grammar)
    requires Valid(g)
    ensures Valid(g') && SameContent(g, g')
    ensures forall n :: IsNullableSet(Productions(g), n) ==> (r <==> nt in n)
  {
    var n;
    n, g' := Nullables(g);
    r := nt in n;
    forall m | IsNullableSet(Productions(g), m)
      ensures r <==> nt in m
    {
      NullableSetUnique(Productions(g), n, m);
    }
  }

  /** The cached FIRST map, computed on first use; the computation fails only on a rejected production. */
  method FirstSets(g: Grammar) returns (r: Result<FirstMap>, g': Grammar)
    requires Valid(g)
    ensures Valid(g') && SameContent(g, g')
    ensures r.Success? ==> g'.firstSets == Some(r.value) && IsFirstSets(Productions(g), g.terminals, g.nonterminals, r.value)
    ensures r.Failure? ==> g' == g && r.error == KeyNotFound && g.firstSets.None?
    ensures r.Failure? ==> exists p :: p in Productions(g) && !KnownProduction(p, g.terminals, g.nonterminals)
    ensures (forall p :: p in Productions(g) ==> KnownProduction(p, g.terminals, g.nonterminals)) ==> r.Success?
    ensures g'.nullables == g.nullables && g'.followSets == g.followSets
  {
    if g.firstSets.Some? {
      return Success(g.firstSets.value), g;
    }
    r := CalculateFirstSets(Productions(g), g.terminals, g.nonterminals);
    if r.Success? && g.followSets.Some? {
      FollowWithoutFirst(Productions(g), g.nonterminals, r.value, g.start.value, g.followSets.value);
    }
    g' := if r.Success? then g.(firstSets := Some(r.value)) else g;
  }

  /**
   * FIRST of one symbol. ε is rejected before any computation; any other symbol is looked up in the
   * FIRST map, so `#`, known terminals and known nonterminals have a FIRST set and others raise.
   */
  method FirstSet(g: Grammar, x: Symbol) returns (r: Result<set<Symbol>>, g': Grammar)
    requires Valid(g)
    ensures Valid(g') && SameContent(g, g')
    ensures x.Epsilon? ==> r == Failure(ArgumentOutOfRange) && g' == g
    ensures r.Failure? && !x.Epsilon? ==> r.error == KeyNotFound
    ensures r.Success? ==> g'.firstSets.Some? && x in g'.firstSets.value && r.value == g'.firstSets.value[x]
    ensures r.Success? ==> forall f :: IsFirstSets(Productions(g), g.terminals, g.nonterminals, f) ==> x in f && r.value == f[x]
    ensures (forall p :: p in Productions(g) ==> KnownProduction(p, g.terminals, g.nonterminals)) ==>
              (r.Success? <==> x in FirstKeys(g.terminals, g.nonterminals))
  {
    if x.Epsilon? {
      return Failure(ArgumentOutOfRange), g;
    }
    var first;
    first, g' := FirstSets(g);
    if first.Failure? {
      return Failure(first.error), g';
    }
    if x !in first.value {
      return Failure(KeyNotFound), g';
    }
    r := Success(first.value[x]);
    forall f | IsFirstSets(Productions(g), g.terminals, g.nonterminals, f)
      ensures x in f && r.value == f[x]
    {
      FirstSetsUnique(Productions(g), g.terminals, g.nonterminals, first.value, f);
    }
  }

  /** What asking for FIRST yields once a call is over: the cached map, or the KeyNotFound it raised. */
  function CachedFirst(g: Grammar): Result<FirstMap>
  {
    if g.firstSets.Some? then Success(g.firstSets.value) else Failure(KeyNotFound)
  }

  /** The cached FOLLOW map, or the empty map when none is cached. */
  function CachedFollow(g: Grammar): FollowMap
  {
    if g.followSets.Some? then g.followSets.value else map[]
  }

  /** In a clean grammar every lookup of the FOLLOW pass succeeds. */
  lemma CleanFollowDefined(g: Grammar, first: FirstMap)
    requires Clean(g) && FirstShape(g.terminals, g.nonterminals, first)
    ensures forall p :: p in Productions(g) ==> FollowDefined(p, g.nonterminals, first)
  {
    forall p | p in Productions(g)
      ensures FollowDefined(p, g.nonterminals, first)
    {
      KnownFollowDefined(p, g.terminals, g.nonterminals, first);
    }
  }

  /**
   * The cached FOLLOW map; FOLLOW needs a start symbol. FIRST is asked for only at a nonterminal with
   * something after it, so when FIRST cannot be computed, FOLLOW still succeeds if no lookup needs it.
   */
  method FollowSets(g: Grammar) returns (r: Result<FollowMap>, g': Grammar)
    requires Valid(g)
    ensures Valid(g') && SameContent(g, g')
    ensures g.start.None? ==> r == Failure(InvalidOperation)
    ensures r.Success? ==> g.start.Some? && IsFollowSets(Productions(g), g.nonterminals, FirstOrEmpty(CachedFirst(g')), g.start.value, r.value)
    ensures r.Success? ==> g'.followSets == Some(r.value)
    ensures r.Failure? ==> g'.followSets.None?
    ensures g.start.Some? && g.start.value in g.nonterminals && Clean(g) ==> r.Success?
  {
    if g.followSets.Some? {
      return Success(g.followSets.value), g;
    }
    if g.start.None? {
      return Failure(InvalidOperation), g;
    }
    var first;
    first, g' := FirstSets(g);
    assert CachedFirst(g') == first;
    if Clean(g) {
      CleanFollowDefined(g, first.value);
    }
    var follow := CalculateFollowSets(Productions(g), g.nonterminals, FirstOrEmpty(first), g.start.value);
    if follow.Failure? {
      return Failure(follow.error), g';
    }
    g' := g'.(followSets := Some(follow.value));
    return Success(follow.value), g';
  }

  /** FOLLOW of one nonterminal; a nonterminal outside the grammar raises. */
  method FollowSet(g: Grammar, nt: NtId) returns (r: Result<set<TermId>>, g': Grammar)
    requires Valid(g)
    ensures Valid(g') && SameContent(g, g')
    ensures g.start.None? ==> r == Failure(InvalidOperation)
    ensures r.Success? ==> g.start.Some? && nt in g.nonterminals
    ensures r.Success? ==> forall fo :: IsFollowSets(Productions(g), g.nonterminals, FirstOrEmpty(CachedFirst(g')), g.start.value, fo) ==>
              r.value == fo[nt]
    ensures r.Success? && g'.firstSets.Some? ==> forall f, fo ::
              (IsFirstSets(Productions(g), g.terminals, g.nonterminals, f) &&
               IsFollowSets(Productions(g), g.nonterminals, f, g.start.value, fo)) ==> r.value == fo[nt]
    ensures r.Success? && nt == g.start.value ==> EndOfInput in r.value
    ensures g.start.Some? && g.start.value in g.nonterminals && Clean(g) && nt in g.nonterminals ==> r.Success?
  {
    var follow;
    follow, g' := FollowSets(g);
    if follow.Failure? {
      return Failure(follow.error), g';
    }
    if nt !in follow.value {
      return Failure(KeyNotFound), g';
    }
    r := Success(follow.value[nt]);
    forall fo | IsFollowSets(Productions(g), g.nonterminals, FirstOrEmpty(CachedFirst(g')), g.start.value, fo)
      ensures r.value == fo[nt]
    {
      FollowSetsUnique(Productions(g), g.nonterminals, FirstOrEmpty(CachedFirst(g')), g.start.value, follow.value, fo);
    }
    if g'.firstSets.Some? {
      forall f, fo | IsFirstSets(Productions(g), g.terminals, g.nonterminals, f) &&
                     IsFollowSets(Productions(g), g.nonterminals, f, g.start.value, fo)
        ensures r.value == fo[nt]
      {
        FirstSetsUnique(Productions(g), g.terminals, g.nonterminals, g'.firstSets.value, f);
        FollowSetsUnique(Productions(g), g.nonterminals, f, g.start.value, follow.value, fo);
      }
    }
  }

  // ------------------------------------------------------------------ adding productions

  /** The state a mutating call leaves behind, and the exception it raised, if any. */
  datatype Outcome = Outcome(grammar: Grammar, error: Option<Exception>)

  /** A right-side symbol that `AddProduction` refuses: ε always, START only in the ContextFree grammar. */
  predicate Refused(s: Symbol, refuseStart: bool)
  {
    s.Epsilon? || (refuseStart && s == Nonterminal(Start))
  }

  /** Index of the first refused symbol of `right`, or |right| when there is none. */
  function FirstRefused(right: seq<Symbol>, refuseStart: bool): (k: nat)
    ensures k <= |right|
    ensures forall i :: 0 <= i < k ==> !Refused(right[i], refuseStart)
    ensures k < |right| ==> Refused(right[k], refuseStart)
  {
    if right == [] then 0
    else if Refused(right[0], refuseStart) then 0
    else 1 + FirstRefused(right[1..], refuseStart)
  }

  function TerminalsIn(s: seq<Symbol>): (r: set<TermId>)
    ensures forall t :: t in r <==> Terminal(t) in s
  {
    set i | 0 <= i < |s| && s[i].Terminal? :: s[i].t
  }

  function NonterminalsIn(s: seq<Symbol>): (r: set<NtId>)
    ensures forall n :: n in r <==> Nonterminal(n) in s
  {
    set i | 0 <= i < |s| && s[i].Nonterminal? :: s[i].n
  }

  /**
   * `AddProduction`: drop the caches, file the production under its left side, record the left side,
   * then record the right-side symbols one by one, raising at the first refused one. Whatever was
   * recorded before the raise, the production included, stays.
   */
  function AddProductionWith(g: Grammar, p: Production, refuseStart: bool): (r: Outcome)
    requires WellFiled(g)
    ensures Valid(r.grammar)
    ensures Productions(r.grammar) == Productions(g) + {p}
    ensures r.grammar.start == g.start
    ensures r.grammar.nullables.None? && r.grammar.firstSets.None? && r.grammar.followSets.None?
    ensures r.error.Some? <==> exists i :: 0 <= i < |p.right| && Refused(p.right[i], refuseStart)
    ensures r.error.Some? ==> r.error.value == ArgumentError
    ensures var k := FirstRefused(p.right, refuseStart);
            && r.grammar.terminals == g.terminals + TerminalsIn(p.right[..k])
            && r.grammar.nonterminals == g.nonterminals + {p.left} + NonterminalsIn(p.right[..k])
  {
    InsertProductionAdds(g, p);
    var k := FirstRefused(p.right, refuseStart);
    var h := InvalidateCache(g).(
      rules := InsertProduction(g.rules, p),
      terminals := g.terminals + TerminalsIn(p.right[..k]),
      nonterminals := g.nonterminals + {p.left} + NonterminalsIn(p.right[..k]));
    assert Productions(h) == Productions(g) + {p} by {
      InsertProductionAdds(g, p);
    }
    Outcome(h, if k < |p.right| then Some(ArgumentError) else None)
  }

  /** Every production uses only recorded symbols and no ε: what a grammar built without errors satisfies. */
  predicate Clean(g: Grammar)
  {
    forall p :: p in Productions(g) ==> KnownProduction(p, g.terminals, g.nonterminals)
  }

  /** Adding a production without an error keeps a clean grammar clean. */
  lemma AddProductionKeepsClean(g: Grammar, p: Production, refuseStart: bool)
    requires WellFiled(g) && Clean(g)
    requires AddProductionWith(g, p, refuseStart).error.None?
    ensures Clean(AddProductionWith(g, p, refuseStart).grammar)
  {
    var r := AddProductionWith(g, p, refuseStart);
    assert FirstRefused(p.right, refuseStart) == |p.right|;
    assert p.right[..|p.right|] == p.right;
    forall q | q in Productions(r.grammar)
      ensures KnownProduction(q, r.grammar.terminals, r.grammar.nonterminals)
    {
      if q == p {
        forall i | 0 <= i < |p.right|
          ensures match p.right[i]
                  case Terminal(t) => t in r.grammar.terminals
                  case Nonterminal(n) => n in r.grammar.nonterminals
                  case Epsilon => false
        {
          assert !Refused(p.right[i], refuseStart);
          assert p.right[i] in p.right;
        }
      } else {
        assert KnownProduction(q, g.terminals, g.nonterminals);
      }
    }
  }
}
