/**
 * Interning of item sets to dense state identifiers, kept as two mutually inverse maps.
 */
module LrStateAllocator {
  import opened LrTables

  datatype Allocator<K> = Allocator(toState: map<K, LrState>, toSet: map<LrState, K>)

  /** The number of states allocated so far. */
  function Count<K>(a: Allocator<K>): nat
  {
    |a.toSet|
  }

  /** Ids are exactly `0..Count-1`, the two maps are inverse, and they have equally many entries. */
  ghost predicate AllocatorValid<K(!new)>(a: Allocator<K>)
  {
    && (forall s: LrState :: s in a.toSet <==> s < |a.toSet|)
    && (forall k :: k in a.toState ==> a.toState[k] in a.toSet && a.toSet[a.toState[k]] == k)
    && (forall s :: s in a.toSet ==> a.toSet[s] in a.toState && a.toState[a.toSet[s]] == s)
    && |a.toState| == |a.toSet|
  }

  function EmptyAllocator<K>(): (r: Allocator<K>)
    ensures Count(r) == 0 && r.toState == map[]
  {
    Allocator(map[], map[])
  }

  lemma EmptyAllocatorValid<K(!new)>()
    ensures AllocatorValid(EmptyAllocator<K>())
  {
  }

  /**
   * Interns `key`: a key already known returns false and its state, changing nothing; a new key gets
   * the next id, the number of states before the call, and returns true.
   */
  function Allocate<K(!new)>(a: Allocator<K>, key: K): (r: (bool, LrState, Allocator<K>))
    requires AllocatorValid(a)
    ensures AllocatorValid(r.2)
    ensures r.0 <==> key !in a.toState
    ensures !r.0 ==> r.2 == a && r.1 == a.toState[key]
    ensures r.0 ==> r.1 == Count(a) && Count(r.2) == Count(a) + 1
    ensures r.0 ==> r.2.toState == a.toState[key := r.1] && r.2.toSet == a.toSet[r.1 := key]
    ensures key in r.2.toState && r.2.toState[key] == r.1 && r.2.toSet[r.1] == key
  {
    if key in a.toState then (false, a.toState[key], a)
    else
      var s := |a.toSet|;
      assert s !in a.toSet;
      var b := Allocator(a.toState[key := s], a.toSet[s := key]);
      assert forall k :: k in b.toState && k != key ==> b.toState[k] != s;
      (true, s, b)
  }

  /** The first allocation creates the initial state. */
  lemma FirstAllocation<K(!new)>(key: K)
    ensures var r := Allocate(EmptyAllocator<K>(), key);
            r.0 && r.1 == InitialState && Count(r.2) == 1
  {
    EmptyAllocatorValid<K>();
  }

  /** Allocating the same key twice in a row yields the same state, and the second call is a no-op. */
  lemma AllocateIdempotent<K(!new)>(a: Allocator<K>, key: K)
    requires AllocatorValid(a)
    ensures var r := Allocate(a, key);
            var r2 := Allocate(r.2, key);
            !r2.0 && r2.1 == r.1 && r2.2 == r.2
  {
  }
}
