/**
 * The eBNF syntax tree and its normalisation: alternatives on top, sequences below them, and only
 * unbounded zero-or-more repetitions. Normalising a sequence distributes it over an alternative and
 * normalises the new sequences again, so termination rests on a measure: the number of repetitions
 * still to expand, then a weight that distribution preserves (sum for alternatives, product for
 * sequences), then the size of the tree.
 */
module EbnfAst {
  import opened Wrappers

  datatype Ast =
    | Epsilon
    | Reference(name: string)
    | Alt(left: Ast, right: Ast)
    | Seq(left: Ast, right: Ast)
    | Rep(element: Ast, min: int, max: Option<int>)

  /** The bounds the `Rep` constructor accepts: a non-negative minimum and no maximum below it. */
  predicate ValidBounds(min: int, max: Option<int>)
  {
    min >= 0 && (max.None? || max.value >= min)
  }

  /** Every repetition in the tree was built by the constructor, so its bounds are valid. */
  predicate WellFormed(t: Ast)
  {
    match t
    case Epsilon => true
    case Reference(_) => true
    case Alt(a, b) => WellFormed(a) && WellFormed(b)
    case Seq(a, b) => WellFormed(a) && WellFormed(b)
    case Rep(e, min, max) => ValidBounds(min, max) && WellFormed(e)
  }

  /** The `Rep` constructor: rejects a negative minimum and a maximum below the minimum. */
  function NewRep(element: Ast, min: int, max: Option<int>): (r: Result<Ast>)
    ensures r.Success? <==> ValidBounds(min, max)
    ensures r.Failure? ==> r.error == ArgumentOutOfRange
    ensures r.Success? ==> r.value == Rep(element, min, max)
  {
    if min < 0 then Failure(ArgumentOutOfRange)
    else if max.Some? && max.value < min then Failure(ArgumentOutOfRange)
    else Success(Rep(element, min, max))
  }

  // ------------------------------------------------------------------ the helper constructors

  /** `Opt`: the element or nothing. */
  function Opt(element: Ast): (r: Ast)
    ensures r.Alt? && r.left == element && r.right.Epsilon?
  {
    Alt(element, Epsilon)
  }

  /** `ZeroOrMore`: never rejected. */
  function ZeroOrMore(element: Ast): (r: Result<Ast>)
    ensures r == Success(Rep(element, 0, None))
  {
    NewRep(element, 0, None)
  }

  /** `OneOrMore`: never rejected. */
  function OneOrMore(element: Ast): (r: Result<Ast>)
    ensures r == Success(Rep(element, 1, None))
  {
    NewRep(element, 1, None)
  }

  /** `AtLeast(n)`: rejected exactly for a negative `n`. */
  function AtLeast(element: Ast, n: int): (r: Result<Ast>)
    ensures r.Success? <==> n >= 0
    ensures r.Success? ==> r.value == Rep(element, n, None)
    ensures r.Failure? ==> r.error == ArgumentOutOfRange
  {
    NewRep(element, n, None)
  }

  /** `AtMost(n)`: rejected exactly for a negative `n`. */
  function AtMost(element: Ast, n: int): (r: Result<Ast>)
    ensures r.Success? <==> n >= 0
    ensures r.Success? ==> r.value == Rep(element, 0, Some(n))
    ensures r.Failure? ==> r.error == ArgumentOutOfRange
  {
    NewRep(element, 0, Some(n))
  }

  /** `Between(min, max)`: rejected exactly unless `0 <= min <= max`. */
  function Between(element: Ast, min: int, max: int): (r: Result<Ast>)
    ensures r.Success? <==> 0 <= min <= max
    ensures r.Success? ==> r.value == Rep(element, min, Some(max))
    ensures r.Failure? ==> r.error == ArgumentOutOfRange
  {
    NewRep(element, min, Some(max))
  }

  /** `Exactly(n)`: rejected exactly for a negative `n`. */
  function Exactly(element: Ast, n: int): (r: Result<Ast>)
    ensures r.Success? <==> n >= 0
    ensures r.Success? ==> r.value == Rep(element, n, Some(n))
    ensures r.Failure? ==> r.error == ArgumentOutOfRange
  {
    NewRep(element, n, Some(n))
  }

  // ------------------------------------------------------------------ normal form

  /**
   * The normal form: no alternative and no ε directly under a sequence, and every repetition
   * zero-or-more without bound.
   */
  predicate IsNormal(t: Ast)
  {
    match t
    case Epsilon => true
    case Reference(_) => true
    case Alt(a, b) => IsNormal(a) && IsNormal(b)
    case Seq(a, b) => IsNormal(a) && IsNormal(b) && !a.Epsilon? && !b.Epsilon? && !a.Alt? && !b.Alt?
    case Rep(e, min, max) => min == 0 && max.None? && IsNormal(e)
  }

  /** The repetitions not yet in normal form. */
  function Heavy(t: Ast): nat
  {
    match t
    case Epsilon => 0
    case Reference(_) => 0
    case Alt(a, b) => Heavy(a) + Heavy(b)
    case Seq(a, b) => Heavy(a) + Heavy(b)
    case Rep(e, min, max) => (if min == 0 && max.None? then 0 else 1) + Heavy(e)
  }

  /** A weight that distributing a sequence over an alternative keeps: sums for `Alt`, products for `Seq`. */
  function Weight(t: Ast): (r: nat)
    ensures r >= 1
  {
    match t
    case Epsilon => 1
    case Reference(_) => 1
    case Alt(a, b) => Weight(a) + Weight(b)
    case Seq(a, b) => Weight(a) * Weight(b)
    case Rep(e, _, _) => Weight(e) + 1
  }

  function Size(t: Ast): nat
  {
    match t
    case Epsilon => 1
    case Reference(_) => 1
    case Alt(a, b) => Size(a) + Size(b) + 1
    case Seq(a, b) => Size(a) + Size(b) + 1
    case Rep(e, _, _) => Size(e) + 1
  }

  lemma NormalIsLight(t: Ast)
    requires IsNormal(t)
    ensures Heavy(t) == 0 && WellFormed(t)
  {
  }

  lemma MulMono(x: nat, y: nat)
    requires y >= 1
    ensures x <= x * y
  {
  }

  lemma MulLess(x: nat, y: nat, z: nat)
    requires y >= 1 && z >= 1
    ensures x * z < (x + y) * z
    ensures z * x < z * (x + y)
  {
  }

  lemma MulSum(x: nat, y: nat, z: nat)
    ensures (x + y) * z == x * z + y * z
    ensures z * (x + y) == z * x + z * y
  {
  }

  /** `n >= 1` copies of `e` in a left-nested sequence: the loop that builds the required minimum. */
  function Copies(e: Ast, n: nat): (r: Ast)
    requires n >= 1
    ensures IsNormal(e) && !e.Epsilon? && !e.Alt? ==> IsNormal(r)
    ensures Heavy(e) == 0 ==> Heavy(r) == 0
    ensures WellFormed(e) ==> WellFormed(r)
  {
    if n == 1 then e else Seq(Copies(e, n - 1), e)
  }

  /** `result` followed by `k` copies of `opt`, left-nested: the loop that adds the optional part. */
  function AppendOpts(result: Ast, opt: Ast, k: nat): (r: Ast)
    ensures Heavy(result) == 0 && Heavy(opt) == 0 ==> Heavy(r) == 0
    ensures WellFormed(result) && WellFormed(opt) ==> WellFormed(r)
  {
    if k == 0 then result else Seq(AppendOpts(result, opt, k - 1), opt)
  }

  /**
   * A bounded or non-zero repetition of an already normal element, written out: `min` copies, then
   * either a zero-or-more repetition or `max - min` optional copies.
   */
  function ExpandRep(en: Ast, min: int, max: Option<int>): (r: Ast)
    requires ValidBounds(min, max) && Heavy(en) == 0 && WellFormed(en)
    ensures Heavy(r) == 0 && WellFormed(r)
  {
    var result := if min > 0 then Copies(en, min) else Epsilon;
    assert WellFormed(result) && Heavy(result) == 0;
    var opt := Alt(en, Epsilon);
    assert Heavy(opt) == 0 && WellFormed(opt);
    if max.None? then Seq(result, Rep(en, 0, None))
    else AppendOpts(result, opt, max.value - min)
  }

  /** Products keep the order of their factors. */
  lemma MulLe(x1: nat, x2: nat, y1: nat, y2: nat)
    requires x1 <= x2 && y1 <= y2
    ensures x1 * y1 <= x2 * y2
  {
    assert x1 * y1 <= x2 * y1;
  }

  /**
   * `Normalize`, node by node as the tree's classes define it. The result is in normal form, and
   * for a tree without repetitions to expand, its weight does not grow.
   */
  function Normalize(t: Ast): (r: Ast)
    requires WellFormed(t)
    ensures IsNormal(r) && Heavy(r) == 0 && WellFormed(r)
    ensures Heavy(t) == 0 ==> Weight(r) <= Weight(t)
    decreases Heavy(t), Weight(t), Size(t), 1
  {
    match t
    case Epsilon => t
    case Reference(_) => t
    case Alt(a, b) =>
      Alt(Normalize(a), Normalize(b))
    case Seq(a, b) =>
      NormalizeSeq(a, b)
    case Rep(e, min, max) =>
      var en := Normalize(e);
      NormalIsLight(en);
      if min == 0 && max.None? then Rep(en, 0, None)
      else Normalize(ExpandRep(en, min, max))
  }

  /**
   * `Seq.Normalize`: normalise both sides, drop an ε side, and distribute over an alternative on
   * the left, else on the right, normalising the new sequences again.
   */
  function NormalizeSeq(a: Ast, b: Ast): (r: Ast)
    requires WellFormed(a) && WellFormed(b)
    ensures IsNormal(r) && Heavy(r) == 0 && WellFormed(r)
    ensures Heavy(a) + Heavy(b) == 0 ==> Weight(r) <= Weight(a) * Weight(b)
    decreases Heavy(a) + Heavy(b), Weight(a) * Weight(b), Size(a) + Size(b) + 1, 0
  {
    MulMono(Weight(a), Weight(b));
    MulMono(Weight(b), Weight(a));
    var ln := Normalize(a);
    var rn := Normalize(b);
    NormalIsLight(ln);
    NormalIsLight(rn);
    if ln.Epsilon? then rn
    else if rn.Epsilon? then ln
    else if ln.Alt? then
      Distribute(Heavy(a) + Heavy(b) == 0, Weight(ln.left), Weight(ln.right), Weight(rn), Weight(a), Weight(b));
      Alt(NormalizeSeq(ln.left, rn), NormalizeSeq(ln.right, rn))
    else if rn.Alt? then
      Distribute(Heavy(a) + Heavy(b) == 0, Weight(rn.left), Weight(rn.right), Weight(ln), Weight(b), Weight(a));
      Alt(NormalizeSeq(ln, rn.left), NormalizeSeq(ln, rn.right))
    else
      Distribute(Heavy(a) + Heavy(b) == 0, Weight(ln), 0, Weight(rn), Weight(a), Weight(b));
      Seq(ln, rn)
  }

  /**
   * The weight arithmetic behind distributing `(X | Y) Z` or `Z (X | Y)`: when `x + y <= A` and
   * `z <= B`, each new sequence weighs no more than `A * B` (less, if the other part weighs
   * something), and the two together no more.
   */
  lemma Distribute(when: bool, x: nat, y: nat, z: nat, A: nat, B: nat)
    requires when ==> x >= 1 && z >= 1 && x + y <= A && z <= B
    ensures when ==> x * z <= A * B && z * x <= B * A && x * z + y * z <= A * B && z * x + z * y <= B * A
    ensures when && y >= 1 ==> x * z < A * B && y * z < A * B && z * x < B * A && z * y < B * A
  {
    if when {
      MulSum(x, y, z);
      MulLe(x + y, A, z, B);
      if y >= 1 {
        MulLess(x, y, z);
        MulLess(y, x, z);
      }
    }
  }

  /** A tree already in normal form is left as it is: normalising twice is normalising once. */
  lemma {:induction false} NormalizeNormal(t: Ast)
    requires IsNormal(t)
    ensures WellFormed(t) && Normalize(t) == t
  {
    NormalIsLight(t);
    match t
    case Epsilon =>
    case Reference(_) =>
    case Alt(a, b) =>
      NormalizeNormal(a);
      NormalizeNormal(b);
    case Seq(a, b) =>
      NormalizeNormal(a);
      NormalizeNormal(b);
    case Rep(e, _, _) =>
      NormalizeNormal(e);
  }

  lemma NormalizeIdempotent(t: Ast)
    requires WellFormed(t)
    ensures Normalize(Normalize(t)) == Normalize(t)
  {
    NormalizeNormal(Normalize(t));
  }
}
