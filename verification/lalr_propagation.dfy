/**
 * Propagation of LALR lookaheads along the propagation edges until nothing changes. The result is the
 * least assignment of lookaheads that contains the spontaneous ones and is closed under the edges.
 */
module LalrPropagation {
  import opened Symbols
  import opened GrammarSets
  import opened GraphSearch
  import opened LalrLookaheads

  /** Lookaheads per kernel item of a state. */
  type LookaheadMap = map<Key, set<TermId>>

  /** Both ends of every edge are kernel items that carry lookaheads: the source's dictionary lookups succeed. */
  predicate EdgesWithin(las: LookaheadMap, edges: set<Edge>)
  {
    forall edge :: edge in edges ==> edge.0 in las && edge.1 in las
  }

  /** Along every edge, the lookaheads of the source are among those of the destination. */
  ghost predicate Closed(las: LookaheadMap, edges: set<Edge>)
  {
    forall edge :: edge in edges && edge.0 in las && edge.1 in las ==> las[edge.0] <= las[edge.1]
  }

  /** `hi` has the keys of `lo` and at least its lookaheads at each. */
  ghost predicate Above(hi: LookaheadMap, lo: LookaheadMap)
  {
    hi.Keys == lo.Keys && forall k :: k in lo ==> lo[k] <= hi[k]
  }

  /** `cur` lies below every edge-closed assignment above `base`. */
  ghost predicate BelowSolutions(base: LookaheadMap, edges: set<Edge>, cur: LookaheadMap)
  {
    forall other :: Above(other, base) && Closed(other, edges) ==> Above(other, cur)
  }

  /** `r` is the least edge-closed assignment above `base`. */
  ghost predicate IsLeastPropagation(base: LookaheadMap, edges: set<Edge>, r: LookaheadMap)
  {
    Above(r, base) && Closed(r, edges) && BelowSolutions(base, edges, r)
  }

  /** The least propagation adds no lookahead that is not already among the starting ones' bound. */
  lemma LeastPropagationBounded(base: LookaheadMap, edges: set<Edge>, las: LookaheadMap, terms: set<TermId>)
    requires IsLeastPropagation(base, edges, las)
    requires forall k :: k in base ==> base[k] <= terms
    ensures forall k :: k in las ==> las[k] <= terms
  {
    var other := map k | k in las :: las[k] * terms;
    assert Above(other, base);
    assert Closed(other, edges);
  }

  /** Every (key, lookahead) fact of an assignment. */
  function Facts(las: LookaheadMap): set<(Key, TermId)>
  {
    set k, t | k in las && t in las[k] :: (k, t)
  }

  /** Every lookahead that occurs somewhere in an assignment. */
  function Terms(las: LookaheadMap): (r: set<TermId>)
    ensures forall k :: k in las ==> las[k] <= r
  {
    set k, t {:trigger t in las[k]} | k in las && t in las[k] :: t
  }

  /** The state of a propagation pass over `es` after `j` edges, started from `las`. */
  ghost predicate PassState(base: LookaheadMap, edges: set<Edge>, las: LookaheadMap, es: seq<Edge>, j: int,
                            cur: LookaheadMap, changed: bool)
  {
    && 0 <= j <= |es|
    && Above(cur, las)
    && (forall k :: k in cur ==> cur[k] <= Terms(base))
    && BelowSolutions(base, edges, cur)
    && (!changed ==> cur == las)
    && (changed ==> Facts(las) < Facts(cur))
    && (!changed ==> forall i :: 0 <= i < j && es[i].0 in las && es[i].1 in las ==> las[es[i].0] <= las[es[i].1])
  }

  /** Copying the lookaheads along one edge keeps the pass state and moves it one edge on. */
  lemma PassStep(base: LookaheadMap, edges: set<Edge>, las: LookaheadMap, es: seq<Edge>, j: int,
                 cur: LookaheadMap, changed: bool)
    requires PassState(base, edges, las, es, j, cur, changed) && j < |es|
    requires es[j] in edges && es[j].0 in cur && es[j].1 in cur
    ensures var edge := es[j];
            PassState(base, edges, las, es, j + 1, cur[edge.1 := cur[edge.1] + cur[edge.0]],
                      !(cur[edge.0] <= cur[edge.1]) || changed)
  {
    var edge := es[j];
    var cur' := cur[edge.1 := cur[edge.1] + cur[edge.0]];
    forall other | Above(other, base) && Closed(other, edges)
      ensures Above(other, cur')
    {
      assert Above(other, cur);
    }
    forall f | f in Facts(cur)
      ensures f in Facts(cur')
    {
      var k, t :| k in cur && t in cur[k] && f == (k, t);
      assert t in cur'[k];
    }
    if !(cur[edge.0] <= cur[edge.1]) {
      var t :| t in cur[edge.0] && t !in cur[edge.1];
      assert t in cur'[edge.1];
      assert (edge.1, t) in Facts(cur') && (edge.1, t) !in Facts(cur);
    } else {
      assert cur[edge.1] + cur[edge.0] == cur[edge.1];
      assert cur' == cur;
    }
  }

  /**
   * One pass over the edges, copying the lookaheads of each edge's source into its destination. It
   * reports whether any destination grew; when none did, the input was already closed.
   */
  method PropagatePass(ghost base: LookaheadMap, edges: set<Edge>, las: LookaheadMap, es: seq<Edge>)
    returns (r: LookaheadMap, changed: bool)
    requires EdgesWithin(las, edges) && forall edge :: edge in es <==> edge in edges
    requires Above(las, base) && BelowSolutions(base, edges, las)
    requires forall k :: k in las ==> las[k] <= Terms(base)
    ensures Above(r, las) && Above(r, base) && BelowSolutions(base, edges, r)
    ensures forall k :: k in r ==> r[k] <= Terms(base)
    ensures !changed ==> r == las && Closed(las, edges)
    ensures changed ==> Facts(las) < Facts(r)
  {
    r := las;
    changed := false;
    var j := 0;
    while j < |es|
      invariant PassState(base, edges, las, es, j, r, changed)
    {
      PassStep(base, edges, las, es, j, r, changed);
      changed := !(r[es[j].0] <= r[es[j].1]) || changed;
      r := r[es[j].1 := r[es[j].1] + r[es[j].0]];
      j := j + 1;
    }
    if !changed {
      forall edge | edge in edges && edge.0 in las && edge.1 in las
        ensures las[edge.0] <= las[edge.1]
      {
        var i :| 0 <= i < |es| && es[i] == edge;
      }
    }
  }

  /** The facts of an assignment whose values lie in `terms` pair its keys with `terms`. */
  lemma FactsBounded(las: LookaheadMap, terms: set<TermId>)
    requires forall k :: k in las ==> las[k] <= terms
    ensures Facts(las) <= Pairs(las.Keys, terms)
  {
  }

  /**
   * The propagation loop of the LALR construction: passes over the edges until one changes nothing.
   * It returns the least assignment above the spontaneous lookaheads that is closed under the edges.
   */
  method Propagate(las: LookaheadMap, edges: set<Edge>) returns (r: LookaheadMap)
    requires EdgesWithin(las, edges)
    ensures IsLeastPropagation(las, edges, r)
  {
    var es := Enumerate(edges);
    r := las;
    var bound := Pairs(las.Keys, Terms(las));
    while true
      invariant Above(r, las) && BelowSolutions(las, edges, r)
      invariant forall k :: k in r ==> r[k] <= Terms(las)
      decreases |bound| - |Facts(r)|
    {
      var next, changed := PropagatePass(las, edges, r, es);
      if !changed {
        return;
      }
      FactsBounded(r, Terms(las));
      FactsBounded(next, Terms(las));
      SubsetCard(Facts(r), Facts(next));
      SubsetCard(Facts(next), bound);
      r := next;
    }
  }

  /** A lookahead at the source of an edge reaches the edge's destination. */
  function Flow(edges: set<Edge>): ((Key, TermId)) -> set<(Key, TermId)>
  {
    (f: (Key, TermId)) => set edge | edge in edges && edge.0 == f.0 :: (edge.1, f.1)
  }

  /**
   * The least propagation read as reachability: a lookahead `t` ends up at `k` exactly when some chain
   * of edges leads to `k` from a key where `t` was spontaneous.
   */
  lemma PropagationIsReachability(base: LookaheadMap, edges: set<Edge>, r: LookaheadMap)
    requires EdgesWithin(base, edges) && IsLeastPropagation(base, edges, r)
    ensures IsLeastClosure(Facts(base), Flow(edges), Facts(r))
  {
    assert Facts(base) <= Facts(r);
    forall f | f in Facts(r)
      ensures Flow(edges)(f) <= Facts(r)
    {
      forall g | g in Flow(edges)(f)
        ensures g in Facts(r)
      {
        var edge :| edge in edges && edge.0 == f.0 && g == (edge.1, f.1);
      }
    }
    forall x | Facts(base) <= x && ClosedUnder(x, Flow(edges))
      ensures Facts(r) <= x
    {
      var other := map k | k in base :: set f | f in x && f.0 == k :: f.1;
      forall k, t | k in base && t in base[k]
        ensures t in other[k]
      {
        assert (k, t) in Facts(base);
      }
      assert Above(other, base);
      forall edge | edge in edges && edge.0 in other && edge.1 in other
        ensures other[edge.0] <= other[edge.1]
      {
        forall t | t in other[edge.0]
          ensures t in other[edge.1]
        {
          assert (edge.1, t) in Flow(edges)((edge.0, t));
        }
      }
      assert Above(other, r);
      forall f | f in Facts(r)
        ensures f in x
      {
        assert f.1 in other[f.0];
      }
    }
  }
}
