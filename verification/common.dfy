/** Small shared vocabulary: an Option type and sums/counts over sequences. */
module Common {

  datatype Option<+T> = None | Some(value: T)

  /** Sum of a sequence of reals, folded from the left like Python's sum(). */
  function Sum(xs: seq<real>): real
  {
    if |xs| == 0 then 0.0 else Sum(xs[..|xs| - 1]) + xs[|xs| - 1]
  }

  /** Sum of a sequence of naturals. */
  function SumNat(xs: seq<nat>): nat
  {
    if |xs| == 0 then 0 else SumNat(xs[..|xs| - 1]) + xs[|xs| - 1]
  }

  /** Number of elements of xs equal to x (Python's list.count). */
  function Count<T(==)>(xs: seq<T>, x: T): nat
  {
    if |xs| == 0 then 0
    else Count(xs[..|xs| - 1], x) + (if xs[|xs| - 1] == x then 1 else 0)
  }

  /** Arithmetic mean, 0 for the empty sequence (the `... if xs else 0` idiom). */
  function Mean(xs: seq<real>): real
  {
    if |xs| == 0 then 0.0 else Sum(xs) / (|xs| as real)
  }

  /** No element occurs twice. */
  predicate Distinct<T(==)>(xs: seq<T>)
  {
    forall i, j | 0 <= i < j < |xs| :: xs[i] != xs[j]
  }

  /** The position of the first occurrence of x in xs, |xs| when x does
      not occur. */
  function FirstIndex<T(==)>(xs: seq<T>, x: T): (k: nat)
    ensures k <= |xs|
    ensures k < |xs| <==> x in xs
    ensures k < |xs| ==> xs[k] == x
    decreases |xs|
  {
    if |xs| == 0 then 0
    else
      var init := xs[..|xs| - 1];
      assert forall i | 0 <= i < |init| :: init[i] == xs[i];
      assert xs == init + [xs[|xs| - 1]];
      var k := FirstIndex(init, x);
      if k < |init| then k else if xs[|xs| - 1] == x then |init| else |xs|
  }

  /** No earlier position holds x. */
  lemma {:induction false} FirstIndexFirst<T>(xs: seq<T>, x: T)
    ensures forall i | 0 <= i < FirstIndex(xs, x) :: xs[i] != x
    decreases |xs|
  {
    if |xs| > 0 {
      var init := xs[..|xs| - 1];
      FirstIndexFirst(init, x);
      assert forall i | 0 <= i < |init| :: init[i] == xs[i];
    }
  }

  lemma {:induction false} SumAppend(xs: seq<real>, ys: seq<real>)
    ensures Sum(xs + ys) == Sum(xs) + Sum(ys)
    decreases |ys|
  {
    if |ys| == 0 {
      assert xs + ys == xs;
    } else {
      var zs := ys[..|ys| - 1];
      assert (xs + ys)[..|xs + ys| - 1] == xs + zs;
      SumAppend(xs, zs);
    }
  }

  lemma {:induction false} SumNatAppend(xs: seq<nat>, ys: seq<nat>)
    ensures SumNat(xs + ys) == SumNat(xs) + SumNat(ys)
    decreases |ys|
  {
    if |ys| == 0 {
      assert xs + ys == xs;
    } else {
      var zs := ys[..|ys| - 1];
      assert (xs + ys)[..|xs + ys| - 1] == xs + zs;
      SumNatAppend(xs, zs);
    }
  }

  lemma {:induction false} CountAppend<T>(xs: seq<T>, ys: seq<T>, x: T)
    ensures Count(xs + ys, x) == Count(xs, x) + Count(ys, x)
    decreases |ys|
  {
    if |ys| == 0 {
      assert xs + ys == xs;
    } else {
      var zs := ys[..|ys| - 1];
      assert (xs + ys)[..|xs + ys| - 1] == xs + zs;
      CountAppend(xs, zs, x);
    }
  }

  /** One more in position k adds one to the sum. */
  lemma {:induction false} SumNatUpdate(xs: seq<nat>, k: int)
    requires 0 <= k < |xs|
    ensures SumNat(xs[k := xs[k] + 1]) == SumNat(xs) + 1
    decreases |xs|
  {
    var ys := xs[k := xs[k] + 1];
    if k < |xs| - 1 {
      assert ys[..|ys| - 1] == xs[..|xs| - 1][k := xs[k] + 1];
      SumNatUpdate(xs[..|xs| - 1], k);
    } else {
      assert ys[..|ys| - 1] == xs[..|xs| - 1];
    }
  }

  /** When every element is one of three distinct values, their counts add
      up to the length. */
  lemma {:induction false} CountPartition<T>(xs: seq<T>, a: T, b: T, c: T)
    requires a != b && b != c && a != c
    requires forall i | 0 <= i < |xs| :: xs[i] == a || xs[i] == b || xs[i] == c
    ensures Count(xs, a) + Count(xs, b) + Count(xs, c) == |xs|
    decreases |xs|
  {
    if |xs| > 0 {
      CountPartition(xs[..|xs| - 1], a, b, c);
    }
  }

  /** Dividing every term by d divides the sum by d. */
  lemma {:induction false} SumScale(xs: seq<real>, d: real)
    requires d != 0.0
    ensures Sum(seq(|xs|, i requires 0 <= i < |xs| => xs[i] / d)) == Sum(xs) / d
    decreases |xs|
  {
    var ys := seq(|xs|, i requires 0 <= i < |xs| => xs[i] / d);
    if |xs| > 0 {
      var xs' := xs[..|xs| - 1];
      assert ys[..|ys| - 1] == seq(|xs'|, i requires 0 <= i < |xs'| => xs'[i] / d);
      SumScale(xs', d);
      assert Sum(ys) == Sum(xs') / d + xs[|xs| - 1] / d;
      DivAdd(Sum(xs'), xs[|xs| - 1], d);
    }
  }

  /** Dividing by a positive number keeps the order of two reals, both
      ways. */
  lemma DivOrder(a: real, b: real, t: real)
    requires t > 0.0
    ensures a <= b <==> a / t <= b / t
    ensures a < b <==> a / t < b / t
  {
    assert a == (a / t) * t && b == (b / t) * t;
  }

  /** A part of a positive whole is a fraction in [0, 1], and is 1 only
      for the whole. */
  lemma DivAtMostOne(a: real, t: real)
    requires 0.0 <= a <= t && t > 0.0
    ensures 0.0 <= a / t <= 1.0
    ensures a / t == 1.0 <==> a == t
  {
    assert (a / t) * t == a;
  }

  lemma DivAdd(a: real, b: real, d: real)
    requires d != 0.0
    ensures a / d + b / d == (a + b) / d
  {
  }

  /** A sum of terms that are all equal to c is |xs| * c. */
  lemma {:induction false} SumConst(xs: seq<real>, c: real)
    requires forall i | 0 <= i < |xs| :: xs[i] == c
    ensures Sum(xs) == (|xs| as real) * c
    decreases |xs|
  {
    if |xs| > 0 {
      SumConst(xs[..|xs| - 1], c);
    }
  }

  /** A sum of positive terms is positive. */
  lemma {:induction false} SumPositive(xs: seq<real>)
    requires |xs| > 0
    requires forall i | 0 <= i < |xs| :: xs[i] > 0.0
    ensures Sum(xs) > 0.0
    decreases |xs|
  {
    if |xs| > 1 {
      SumPositive(xs[..|xs| - 1]);
    }
  }

  /** A sum of non-negative terms is non-negative. */
  lemma {:induction false} SumNonNegative(xs: seq<real>)
    requires forall i | 0 <= i < |xs| :: xs[i] >= 0.0
    ensures Sum(xs) >= 0.0
    decreases |xs|
  {
    if |xs| > 0 {
      SumNonNegative(xs[..|xs| - 1]);
    }
  }
  /** k is the first position holding the maximum of xs: what a scan with a
      strict `>` comparison, or np.argmax, returns. */
  predicate IsFirstMax(xs: seq<real>, k: int)
  {
    0 <= k < |xs|
    && (forall j | 0 <= j < |xs| :: xs[j] <= xs[k])
    && (forall j | 0 <= j < k :: xs[j] < xs[k])
  }

  lemma FirstMaxUnique(xs: seq<real>, a: int, b: int)
    requires IsFirstMax(xs, a) && IsFirstMax(xs, b)
    ensures a == b
  {
    assert xs[a] <= xs[b] && xs[b] <= xs[a];
  }

  /** Left-to-right scan keeping the best position so far, replaced only by
      a strictly larger value. */
  function ArgMaxScan(xs: seq<real>, i: nat, best: nat): (r: nat)
    requires best < i <= |xs|
    requires IsFirstMax(xs[..i], best)
    ensures IsFirstMax(xs, r)
    decreases |xs| - i
  {
    if i == |xs| then
      assert xs[..i] == xs;
      best
    else
      var next := if xs[i] > xs[best] then i else best;
      assert xs[..i + 1] == xs[..i] + [xs[i]];
      ArgMaxScan(xs, i + 1, next)
  }

  /** The first position of a maximum of a non-empty sequence. */
  function FirstArgMax(xs: seq<real>): (r: nat)
    requires |xs| > 0
    ensures IsFirstMax(xs, r)
  {
    ArgMaxScan(xs, 1, 0)
  }
}
