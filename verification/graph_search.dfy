/**
 * Reachability closure: breadth-first and depth-first labelling from a set of roots. Both return the
 * least superset of the roots closed under the neighbour function, which is also what the functional
 * `Closure` computes, so the three agree.
 */
module GraphSearch {
  import opened Symbols

  ghost predicate ClosedUnder<T(!new)>(s: set<T>, neighbors: T -> set<T>)
  {
    forall x {:trigger neighbors(x)} :: x in s ==> neighbors(x) <= s
  }

  /** `r` contains the roots, is closed, and lies inside every closed superset of the roots. */
  ghost predicate IsLeastClosure<T(!new)>(roots: set<T>, neighbors: T -> set<T>, r: set<T>)
  {
    && roots <= r
    && ClosedUnder(r, neighbors)
    && forall x :: roots <= x && ClosedUnder(x, neighbors) ==> r <= x
  }

  lemma LeastClosureUnique<T(!new)>(roots: set<T>, neighbors: T -> set<T>, a: set<T>, b: set<T>)
    requires IsLeastClosure(roots, neighbors, a) && IsLeastClosure(roots, neighbors, b)
    ensures a == b
  {
  }

  /** Closing any set between the roots and their closure gives the same closure. */
  lemma LeastClosureBetween<T(!new)>(roots: set<T>, mid: set<T>, neighbors: T -> set<T>, r: set<T>)
    requires IsLeastClosure(roots, neighbors, r)
    requires roots <= mid <= r
    ensures IsLeastClosure(mid, neighbors, r)
  {
  }

  /** Every member of a least closure is a root or a neighbour of a member. */
  lemma LeastClosureShape<T(!new)>(roots: set<T>, neighbors: T -> set<T>, r: set<T>)
    requires IsLeastClosure(roots, neighbors, r)
    ensures forall y :: y in r ==> y in roots || exists x :: x in r && y in neighbors(x)
  {
    var shaped := set y | y in r && (y in roots || exists x :: x in r && y in neighbors(x));
    assert ClosedUnder(shaped, neighbors) by {
      forall x | x in shaped ensures neighbors(x) <= shaped {
        assert neighbors(x) <= r;
      }
    }
    assert r <= shaped;
  }

  /** Everything one neighbour step away from `s`. */
  function Successors<T(!new)>(s: set<T>, neighbors: T -> set<T>): set<T>
  {
    set x, y | x in s && y in neighbors(x) :: y
  }

  /** The least closure, by iterating `Successors` inside a finite closed universe. */
  function Closure<T(!new)>(universe: set<T>, current: set<T>, neighbors: T -> set<T>): (r: set<T>)
    requires current <= universe && ClosedUnder(universe, neighbors)
    ensures r <= universe
    ensures IsLeastClosure(current, neighbors, r)
    decreases |universe - current|
  {
    var next := current + Successors(current, neighbors);
    if next == current then
      current
    else
      SubsetCard(universe - next, universe - current);
      var r := Closure(universe, next, neighbors);
      assert forall x :: current <= x && ClosedUnder(x, neighbors) ==> next <= x;
      r
  }

  /** The closure does not depend on which closed universe bounds it. */
  lemma ClosureIndependentOfUniverse<T(!new)>(u1: set<T>, u2: set<T>, current: set<T>, neighbors: T -> set<T>)
    requires current <= u1 && ClosedUnder(u1, neighbors)
    requires current <= u2 && ClosedUnder(u2, neighbors)
    ensures Closure(u1, current, neighbors) == Closure(u2, current, neighbors)
  {
    LeastClosureUnique(current, neighbors, Closure(u1, current, neighbors), Closure(u2, current, neighbors));
  }

  /** Some enumeration of a finite set, without repetitions (the hash-set iteration order). */
  method Enumerate<T(!new)>(s: set<T>) returns (r: seq<T>)
    ensures forall x :: x in r <==> x in s
    ensures Distinct(r)
  {
    r := [];
    var rest := s;
    while rest != {}
      invariant rest <= s
      invariant forall x :: x in r <==> x in s - rest
      invariant Distinct(r)
      decreases rest
    {
      var x :| x in rest;
      AppendDistinct(r, [x], s - rest);
      rest := rest - {x};
      r := r + [x];
    }
  }

  /** The set of a sequence's elements, given what it enumerates. */
  lemma ElementsOf<T>(r: seq<T>, s: set<T>)
    requires forall x :: x in r <==> x in s
    ensures (set q | q in r) == s
  {
  }

  ghost predicate Distinct<T>(s: seq<T>)
  {
    forall i, j :: 0 <= i < j < |s| ==> s[i] != s[j]
  }

  /** Distinct elements of `a` followed by distinct elements of `b` outside `a` are distinct. */
  lemma AppendDistinct<T>(a: seq<T>, b: seq<T>, s: set<T>)
    requires Distinct(a) && Distinct(b)
    requires forall x :: x in a ==> x in s
    requires forall x :: x in b ==> x !in s
    ensures Distinct(a + b)
  {
    forall i, j | 0 <= i < j < |a + b|
      ensures (a + b)[i] != (a + b)[j]
    {
      if j >= |a| && i < |a| {
        assert (a + b)[i] in a && (a + b)[j] in b;
      }
    }
  }

  /**
   * The loop state shared by both searches: `work` holds the labelled nodes whose neighbours are still
   * to be labelled, every other labelled node has all its neighbours labelled, and the labelled set
   * never leaves any closed superset of the roots.
   */
  ghost predicate SearchState<T(!new)>(roots: set<T>, neighbors: T -> set<T>, universe: set<T>,
                                       labeled: set<T>, work: seq<T>, pushes: seq<T>)
  {
    && labeled <= universe && roots <= labeled
    && (forall x :: x in work ==> x in labeled)
    && Distinct(work)
    && (forall x :: x in labeled && x !in work ==> neighbors(x) <= labeled)
    && (forall x :: roots <= x && ClosedUnder(x, neighbors) ==> labeled <= x)
    && (forall x :: x in pushes <==> x in labeled)
    && Distinct(pushes)
  }

  lemma SearchStart<T(!new)>(roots: set<T>, neighbors: T -> set<T>, universe: set<T>, work: seq<T>)
    requires roots <= universe
    requires forall x :: x in work <==> x in roots
    requires Distinct(work)
    ensures SearchState(roots, neighbors, universe, roots, work, work)
  {
  }

  /** Taking `v` off the work list and labelling its new neighbours `added` keeps the state, and makes progress. */
  lemma SearchStep<T(!new)>(roots: set<T>, neighbors: T -> set<T>, universe: set<T>,
                            labeled: set<T>, work: seq<T>, pushes: seq<T>, v: T, rest: seq<T>, added: seq<T>)
    requires ClosedUnder(universe, neighbors)
    requires SearchState(roots, neighbors, universe, labeled, work, pushes)
    requires work == [v] + rest || work == rest + [v]
    requires forall x :: x in added <==> x in neighbors(v) - labeled
    requires Distinct(added)
    ensures SearchState(roots, neighbors, universe, labeled + neighbors(v), rest + added, pushes + added)
    ensures || |universe - (labeled + neighbors(v))| < |universe - labeled|
            || (labeled + neighbors(v) == labeled && |rest + added| < |work|)
  {
    assert v in work;
    assert v !in rest && forall x :: x in rest ==> x in work by {
      if work == [v] + rest {
        forall i | 0 <= i < |rest| ensures rest[i] != v { assert work[i + 1] == rest[i] && work[0] == v; }
      } else {
        forall i | 0 <= i < |rest| ensures rest[i] != v { assert work[i] == rest[i] && work[|rest|] == v; }
      }
    }
    assert Distinct(rest) by {
      forall i, j | 0 <= i < j < |rest| ensures rest[i] != rest[j] {
        if work == [v] + rest { assert work[i + 1] == rest[i] && work[j + 1] == rest[j]; }
        else { assert work[i] == rest[i] && work[j] == rest[j]; }
      }
    }
    AppendDistinct(rest, added, labeled);
    AppendDistinct(pushes, added, labeled);
    if added != [] {
      assert added[0] in neighbors(v) - labeled;
      SubsetCard(universe - (labeled + neighbors(v)), universe - labeled);
    } else {
      assert neighbors(v) <= labeled;
    }
  }

  /**
   * Breadth-first labelling: the roots are labelled and queued; each dequeued node labels and queues
   * those neighbours not labelled yet. The ghost `pushes` records every node ever queued.
   */
  method Bfs<T(!new)>(roots: seq<T>, neighbors: T -> set<T>, ghost universe: set<T>) returns (labeled: set<T>, ghost pushes: seq<T>)
    requires forall x :: x in roots ==> x in universe
    requires ClosedUnder(universe, neighbors)
    ensures IsLeastClosure((set x | x in roots), neighbors, labeled)
    ensures forall x :: x in pushes <==> x in labeled
    ensures Distinct(pushes)
  {
    var rootSet := set x | x in roots;
    labeled := rootSet;
    var queue := Enumerate(labeled);
    pushes := queue;
    SearchStart(rootSet, neighbors, universe, queue);
    while queue != []
      invariant SearchState(rootSet, neighbors, universe, labeled, queue, pushes)
      decreases |universe - labeled|, |queue|
    {
      var v := queue[0];
      var added := Enumerate(neighbors(v) - labeled);
      SearchStep(rootSet, neighbors, universe, labeled, queue, pushes, v, queue[1..], added);
      labeled := labeled + neighbors(v);
      queue := queue[1..] + added;
      pushes := pushes + added;
    }
  }

  /** Depth-first labelling: as `Bfs`, with a stack in place of the queue. */
  method Dfs<T(!new)>(roots: seq<T>, neighbors: T -> set<T>, ghost universe: set<T>) returns (labeled: set<T>, ghost pushes: seq<T>)
    requires forall x :: x in roots ==> x in universe
    requires ClosedUnder(universe, neighbors)
    ensures IsLeastClosure((set x | x in roots), neighbors, labeled)
    ensures forall x :: x in pushes <==> x in labeled
    ensures Distinct(pushes)
  {
    var rootSet := set x | x in roots;
    labeled := rootSet;
    var stack := Enumerate(labeled);
    pushes := stack;
    SearchStart(rootSet, neighbors, universe, stack);
    while stack != []
      invariant SearchState(rootSet, neighbors, universe, labeled, stack, pushes)
      decreases |universe - labeled|, |stack|
    {
      var v := stack[|stack| - 1];
      var added := Enumerate(neighbors(v) - labeled);
      SearchStep(rootSet, neighbors, universe, labeled, stack, pushes, v, stack[..|stack| - 1], added);
      labeled := labeled + neighbors(v);
      stack := stack[..|stack| - 1] + added;
      pushes := pushes + added;
    }
  }
}
