/**
 * The sequence helpers the table templates use: a count-preserving map over a collection, and
 * run-length encoding under element equality.
 */
module Enumerables {

  /** `SelectCollection`: every element transformed, none dropped or added, so the count is kept. */
  function SelectCollection<T, U>(xs: seq<T>, f: T -> U): (r: seq<U>)
    ensures |r| == |xs|
    ensures forall i :: 0 <= i < |xs| ==> r[i] == f(xs[i])
  {
    if |xs| == 0 then [] else [f(xs[0])] + SelectCollection(xs[1..], f)
  }

  /** A prefix one longer is the prefix with the next element appended. */
  lemma TakeNext<T>(xs: seq<T>, i: int)
    requires 0 <= i < |xs|
    ensures xs[..i + 1] == xs[..i] + [xs[i]]
  {
  }

  // ------------------------------------------------------------------ run-length encoding

  /** A run: an element and how many times it repeats. */
  type Run<T> = (T, nat)

  function Repeat<T>(x: T, n: nat): (r: seq<T>)
    ensures |r| == n
    ensures forall i :: 0 <= i < n ==> r[i] == x
  {
    if n == 0 then [] else [x] + Repeat(x, n - 1)
  }

  /** Decoding: each run written out in turn. */
  function Expand<T>(runs: seq<Run<T>>): seq<T>
  {
    if |runs| == 0 then [] else Repeat(runs[0].0, runs[0].1) + Expand(runs[1..])
  }

  function SumCounts<T>(runs: seq<Run<T>>): nat
  {
    if |runs| == 0 then 0 else runs[0].1 + SumCounts(runs[1..])
  }

  /** What the encoder yields: no empty run, and no two neighbouring runs of equal elements. */
  ghost predicate Canonical<T>(runs: seq<Run<T>>)
  {
    && (forall i :: 0 <= i < |runs| ==> runs[i].1 >= 1)
    && (forall i :: 0 < i < |runs| ==> runs[i - 1].0 != runs[i].0)
  }

  lemma {:induction false} ExpandAppend<T>(runs: seq<Run<T>>, last: Run<T>)
    ensures Expand(runs + [last]) == Expand(runs) + Repeat(last.0, last.1)
    decreases |runs|
  {
    if |runs| == 0 {
      assert runs + [last] == [last];
    } else {
      assert (runs + [last])[1..] == runs[1..] + [last];
      ExpandAppend(runs[1..], last);
    }
  }

  /** The counts add up to the length of the decoded sequence. */
  lemma {:induction false} ExpandLength<T>(runs: seq<Run<T>>)
    ensures |Expand(runs)| == SumCounts(runs)
    decreases |runs|
  {
    if |runs| > 0 {
      ExpandLength(runs[1..]);
    }
  }

  /** The loop of `RunLengthEncode` after reading `xs[..i]`: the emitted runs, then the open run. */
  ghost predicate EncodeState<T>(xs: seq<T>, i: int, runs: seq<Run<T>>, prev: T, count: nat)
  {
    && 1 <= i <= |xs|
    && count >= 1
    && Expand(runs) + Repeat(prev, count) == xs[..i]
    && Canonical(runs)
    && (|runs| > 0 ==> runs[|runs| - 1].0 != prev)
  }

  /**
   * `RunLengthEncode`: one pass that extends the open run while the next element equals it and
   * otherwise emits it and opens a new one. The runs decode to the input, in canonical form.
   */
  method RunLengthEncode<T(==)>(xs: seq<T>) returns (runs: seq<Run<T>>)
    ensures Expand(runs) == xs
    ensures Canonical(runs)
    ensures SumCounts(runs) == |xs|
    ensures |runs| == 0 <==> |xs| == 0
  {
    runs := [];
    if |xs| == 0 {
      return;
    }
    var prev := xs[0];
    var count: nat := 1;
    var i := 1;
    assert Repeat(prev, 1) == xs[..1];
    while i < |xs|
      invariant EncodeState(xs, i, runs, prev, count)
    {
      var current := xs[i];
      if prev == current {
        ExtendRun(xs, i, runs, prev, count);
        count := count + 1;
      } else {
        CloseRun(xs, i, runs, prev, count);
        runs := runs + [(prev, count)];
        count := 1;
        prev := current;
      }
      i := i + 1;
    }
    FinishRuns(xs, runs, prev, count);
    runs := runs + [(prev, count)];
  }

  /** The next element equals the open run's: the run grows by one. */
  lemma ExtendRun<T>(xs: seq<T>, i: int, runs: seq<Run<T>>, prev: T, count: nat)
    requires EncodeState(xs, i, runs, prev, count) && i < |xs| && xs[i] == prev
    ensures EncodeState(xs, i + 1, runs, prev, count + 1)
  {
    TakeNext(xs, i);
    assert Repeat(prev, count + 1) == Repeat(prev, count) + [prev];
  }

  /** The next element differs: the open run is emitted and a run of the new element opens. */
  lemma CloseRun<T>(xs: seq<T>, i: int, runs: seq<Run<T>>, prev: T, count: nat)
    requires EncodeState(xs, i, runs, prev, count) && i < |xs| && xs[i] != prev
    ensures EncodeState(xs, i + 1, runs + [(prev, count)], xs[i], 1)
  {
    TakeNext(xs, i);
    ExpandAppend(runs, (prev, count));
    assert Repeat(xs[i], 1) == [xs[i]];
    var runs' := runs + [(prev, count)];
    assert forall j :: 0 <= j < |runs| ==> runs'[j] == runs[j];
  }

  /** At the end of the input the open run is emitted and the runs decode to the whole input. */
  lemma FinishRuns<T>(xs: seq<T>, runs: seq<Run<T>>, prev: T, count: nat)
    requires EncodeState(xs, |xs|, runs, prev, count)
    ensures Expand(runs + [(prev, count)]) == xs
    ensures Canonical(runs + [(prev, count)])
    ensures SumCounts(runs + [(prev, count)]) == |xs|
  {
    ExpandAppend(runs, (prev, count));
    assert xs[..|xs|] == xs;
    var runs' := runs + [(prev, count)];
    assert forall j :: 0 <= j < |runs| ==> runs'[j] == runs[j];
    ExpandLength(runs');
  }

  /** How many elements at the front of `xs` equal `x`. */
  function Leading<T(==)>(xs: seq<T>, x: T): nat
  {
    if |xs| == 0 || xs[0] != x then 0 else 1 + Leading(xs[1..], x)
  }

  lemma {:induction false} LeadingRepeat<T>(x: T, n: nat, ys: seq<T>)
    ensures Leading(Repeat(x, n) + ys, x) == n + Leading(ys, x)
    decreases n
  {
    if n > 0 {
      assert (Repeat(x, n) + ys)[1..] == Repeat(x, n - 1) + ys;
      LeadingRepeat(x, n - 1, ys);
    } else {
      assert Repeat(x, n) + ys == ys;
    }
  }

  /** A canonical run list decodes to its first element repeated exactly its first count, then something else. */
  lemma ExpandHead<T>(runs: seq<Run<T>>)
    requires Canonical(runs) && |runs| > 0
    ensures Expand(runs) == Repeat(runs[0].0, runs[0].1) + Expand(runs[1..])
    ensures |Expand(runs)| > 0 && Expand(runs)[0] == runs[0].0
    ensures Leading(Expand(runs), runs[0].0) == runs[0].1
    ensures Canonical(runs[1..])
  {
    assert Canonical(runs[1..]) by {
      assert forall i :: 0 <= i < |runs[1..]| ==> runs[1..][i] == runs[i + 1];
    }
    LeadingRepeat(runs[0].0, runs[0].1, Expand(runs[1..]));
    if |runs| > 1 {
      assert Expand(runs[1..])[0] == runs[1].0 by {
        assert runs[1..][0] == runs[1];
      }
    }
  }

  /**
   * The canonical encoding is unique: two canonical run lists that decode to the same sequence are
   * equal. So the encoder's output is determined by its input alone.
   */
  lemma {:induction false} CanonicalUnique<T>(a: seq<Run<T>>, b: seq<Run<T>>)
    requires Canonical(a) && Canonical(b) && Expand(a) == Expand(b)
    ensures a == b
    decreases |a|
  {
    if |a| > 0 && |b| > 0 {
      ExpandHead(a);
      ExpandHead(b);
      assert a[0] == b[0];
      var n := a[0].1;
      assert Expand(a[1..]) == Expand(a)[n..] by {
        assert Expand(a)[n..] == (Repeat(a[0].0, n) + Expand(a[1..]))[n..];
      }
      assert Expand(b[1..]) == Expand(b)[n..] by {
        assert Expand(b)[n..] == (Repeat(b[0].0, n) + Expand(b[1..]))[n..];
      }
      CanonicalUnique(a[1..], b[1..]);
      assert a == [a[0]] + a[1..] && b == [b[0]] + b[1..];
    } else if |a| > 0 {
      ExpandHead(a);
    } else if |b| > 0 {
      ExpandHead(b);
    }
  }
}
