/** The arithmetic of the evaluation worker over the network's predictions
    on a dataset: accuracy and top-5 accuracy, the ten most frequent
    actual classes, the confusion matrix over them, and the per-class and
    averaged precision, recall and F1.

    The network is not modelled: its arg-max predictions and its top-5
    index lists are inputs, as are the actual policy targets. A class is a
    move index. */
module Evaluation {
  import opened Common

  type Label = nat

  /** The number of classes the report keeps. */
  const TOP_CLASSES: nat := 10

  // ---- accuracy ---------------------------------------------------------------

  /** The number of positions whose prediction equals the actual class. */
  function Matches(actuals: seq<Label>, preds: seq<Label>): (r: nat)
    requires |actuals| == |preds|
    ensures r <= |actuals|
    decreases |actuals|
  {
    if |actuals| == 0 then 0
    else
      var n := |actuals| - 1;
      Matches(actuals[..n], preds[..n]) + (if actuals[n] == preds[n] then 1 else 0)
  }

  /** The number of positions whose actual class is among the top-k list. */
  function TopKHits(actuals: seq<Label>, topk: seq<seq<Label>>): (r: nat)
    requires |actuals| == |topk|
    ensures r <= |actuals|
    decreases |actuals|
  {
    if |actuals| == 0 then 0
    else
      var n := |actuals| - 1;
      TopKHits(actuals[..n], topk[..n]) + (if actuals[n] in topk[n] then 1 else 0)
  }

  /** When each arg-max prediction is in its top-k list, every exact match
      is also a top-k hit. */
  lemma {:induction false} TopKAtLeastMatches(actuals: seq<Label>, preds: seq<Label>, topk: seq<seq<Label>>)
    requires |actuals| == |preds| == |topk|
    requires forall i | 0 <= i < |preds| :: preds[i] in topk[i]
    ensures Matches(actuals, preds) <= TopKHits(actuals, topk)
    decreases |actuals|
  {
    if |actuals| > 0 {
      var n := |actuals| - 1;
      TopKAtLeastMatches(actuals[..n], preds[..n], topk[..n]);
    }
  }

  // ---- the most frequent classes ------------------------------------------------

  /** The distinct classes of xs in order of first occurrence: the key
      order of a Counter. */
  function Classes(xs: seq<Label>): (r: seq<Label>)
    ensures Distinct(r)
    ensures forall x :: x in r <==> x in xs
    ensures forall i, j | 0 <= i < j < |r| :: FirstIndex(xs, r[i]) < FirstIndex(xs, r[j])
    decreases |xs|
  {
    if |xs| == 0 then []
    else
      var init, x := xs[..|xs| - 1], xs[|xs| - 1];
      assert xs == init + [x];
      var c := Classes(init);
      assert forall y | y in init :: FirstIndex(xs, y) == FirstIndex(init, y) < |init|;
      if x in c then c
      else
        assert FirstIndex(xs, x) == |init|;
        c + [x]
  }

  /** The position of the first candidate with the largest count in xs. */
  function BestIndex(cands: seq<Label>, xs: seq<Label>): (j: nat)
    requires |cands| > 0
    ensures j < |cands|
    ensures forall k {:trigger Count(xs, cands[k])} | 0 <= k < |cands| :: Count(xs, cands[k]) <= Count(xs, cands[j])
    ensures forall k {:trigger Count(xs, cands[k])} | 0 <= k < j :: Count(xs, cands[k]) < Count(xs, cands[j])
    decreases |cands|
  {
    if |cands| == 1 then 0
    else
      var n := |cands| - 1;
      var j := BestIndex(cands[..n], xs);
      assert forall k | 0 <= k < n :: cands[..n][k] == cands[k];
      if Count(xs, cands[n]) > Count(xs, cands[j]) then n else j
  }

  /** The candidates without position j. */
  lemma {:induction false} RemoveAt(cands: seq<Label>, j: nat)
    requires Distinct(cands) && j < |cands|
    ensures var rest := cands[..j] + cands[j + 1..];
      Distinct(rest) && |rest| == |cands| - 1 && cands[j] !in rest
      && forall c :: c in rest <==> c in cands && c != cands[j]
  {
    var rest := cands[..j] + cands[j + 1..];
    assert forall k | 0 <= k < |rest| :: rest[k] == if k < j then cands[k] else cands[k + 1];
    forall c | c in cands && c != cands[j]
      ensures c in rest
    {
      var k :| 0 <= k < |cands| && cands[k] == c;
      assert rest[if k < j then k else k - 1] == c;
    }
  }

  /** Removing a candidate keeps the others in order, and the removed
      one is the only candidate missing. */
  lemma RemoveAtInOrder(cands: seq<Label>, j: nat, order: seq<Label>)
    requires InOrderOf(cands, order) && j < |cands|
    ensures var rest := cands[..j] + cands[j + 1..];
      InOrderOf(rest, order) && forall c :: c in rest <==> c in cands && c != cands[j]
  {
    InOrderPairs(cands, order);
    RemoveAtOthers(cands, j);
    RemoveAtPairs(cands, j, order);
    PairsInOrder(cands[..j] + cands[j + 1..], order);
  }

  /** Removing position j keeps every candidate other than cands[j]. */
  lemma RemoveAtOthers(cands: seq<Label>, j: nat)
    requires j < |cands|
    ensures var rest := cands[..j] + cands[j + 1..];
      (forall c | c in rest :: c in cands) && forall c | c in cands && c != cands[j] :: c in rest
  {
    var rest := cands[..j] + cands[j + 1..];
    assert forall k | 0 <= k < |rest| :: rest[k] == if k < j then cands[k] else cands[k + 1];
    forall c | c in cands && c != cands[j]
      ensures c in rest
    {
      var k :| 0 <= k < |cands| && cands[k] == c;
      assert rest[if k < j then k else k - 1] == c;
    }
  }

  /** Removing position j from candidates in pairwise order leaves them
      in pairwise order, without cands[j]. */
  lemma RemoveAtPairs(cands: seq<Label>, j: nat, order: seq<Label>)
    requires j < |cands|
    requires forall i, k {:trigger FirstIndex(order, cands[i]), FirstIndex(order, cands[k])}
      | 0 <= i < k < |cands| :: FirstIndex(order, cands[i]) < FirstIndex(order, cands[k])
    ensures var rest := cands[..j] + cands[j + 1..];
      cands[j] !in rest
      && forall i, k | 0 <= i < k < |rest| :: FirstIndex(order, rest[i]) < FirstIndex(order, rest[k])
  {
    var rest := cands[..j] + cands[j + 1..];
    assert forall k | 0 <= k < |rest| :: rest[k] == if k < j then cands[k] else cands[k + 1];
    forall k | 0 <= k < |rest|
      ensures rest[k] != cands[j]
    {
      var k' := if k < j then k else k + 1;
      assert rest[k] == cands[k'];
      if k' < j {
        assert FirstIndex(order, cands[k']) < FirstIndex(order, cands[j]);
      } else {
        assert FirstIndex(order, cands[j]) < FirstIndex(order, cands[k']);
      }
    }
    forall i, k | 0 <= i < k < |rest|
      ensures FirstIndex(order, rest[i]) < FirstIndex(order, rest[k])
    {
      var i', k' := if i < j then i else i + 1, if k < j then k else k + 1;
      assert rest[i] == cands[i'] && rest[k] == cands[k'];
      assert FirstIndex(order, cands[i']) < FirstIndex(order, cands[k']);
    }
  }

  /** most_common(n) over the candidates: repeatedly the first candidate
      of the largest count, so the sort is by count with ties in
      candidate order. */
  function Select(cands: seq<Label>, xs: seq<Label>, n: nat): (r: seq<Label>)
    ensures |r| == if n < |cands| then n else |cands|
    decreases n
  {
    if n == 0 || |cands| == 0 then []
    else
      var j := BestIndex(cands, xs);
      var rest := cands[..j] + cands[j + 1..];
      assert |rest| == |cands| - 1;
      [cands[j]] + Select(rest, xs, n - 1)
  }

  /** r is a ranking drawn from the candidates: distinct candidates by
      non-increasing count, and no candidate left out counts more than
      one kept. */
  predicate Ranked(cands: seq<Label>, r: seq<Label>, xs: seq<Label>)
  {
    Distinct(r) && (forall x | x in r :: x in cands)
    && (forall i, k | 0 <= i < k < |r| :: Count(xs, r[k]) <= Count(xs, r[i]))
    && forall c, x | c in cands && c !in r && x in r :: Count(xs, c) <= Count(xs, x)
  }

  /** Select ranks the candidates by count. */
  lemma {:induction false} SelectRanked(cands: seq<Label>, xs: seq<Label>, n: nat)
    requires Distinct(cands)
    ensures Ranked(cands, Select(cands, xs, n), xs)
    decreases n
  {
    if n > 0 && |cands| > 0 {
      var j := BestIndex(cands, xs);
      var rest := cands[..j] + cands[j + 1..];
      RemoveAt(cands, j);
      var tail := Select(rest, xs, n - 1);
      SelectRanked(rest, xs, n - 1);
      assert Select(cands, xs, n) == [cands[j]] + tail;
      SelectHead(cands, rest, cands[j], tail, xs);
    }
  }

  /** Select keeps only candidates. */
  lemma {:induction false} SelectWithin(cands: seq<Label>, xs: seq<Label>, n: nat)
    ensures forall x | x in Select(cands, xs, n) :: x in cands
    decreases n
  {
    if n > 0 && |cands| > 0 {
      var j := BestIndex(cands, xs);
      var rest := cands[..j] + cands[j + 1..];
      SelectWithin(rest, xs, n - 1);
      assert forall x | x in rest :: x in cands;
      assert Select(cands, xs, n) == [cands[j]] + Select(rest, xs, n - 1);
    }
  }

  /** cands lists its elements in order of first occurrence in order:
      each occurs there before the next. */
  predicate InOrderOf(cands: seq<Label>, order: seq<Label>)
    decreases |cands|
  {
    |cands| <= 1
    || (FirstIndex(order, cands[0]) < FirstIndex(order, cands[1]) && InOrderOf(cands[1..], order))
  }

  /** Each candidate occurs before every later one, not just the next. */
  lemma {:induction false} InOrderPairs(cands: seq<Label>, order: seq<Label>)
    requires InOrderOf(cands, order)
    ensures forall i, j {:trigger FirstIndex(order, cands[i]), FirstIndex(order, cands[j])}
      | 0 <= i < j < |cands| :: FirstIndex(order, cands[i]) < FirstIndex(order, cands[j])
    decreases |cands|
  {
    if |cands| > 1 {
      var tl := cands[1..];
      InOrderPairs(tl, order);
      forall i, j | 0 <= i < j < |cands|
        ensures FirstIndex(order, cands[i]) < FirstIndex(order, cands[j])
      {
        assert cands[j] == tl[j - 1];
        if i == 0 {
          if j > 1 {
            assert cands[1] == tl[0];
            assert FirstIndex(order, tl[0]) < FirstIndex(order, tl[j - 1]);
          }
        } else {
          assert cands[i] == tl[i - 1];
          assert FirstIndex(order, tl[i - 1]) < FirstIndex(order, tl[j - 1]);
        }
      }
    }
  }

  /** Conversely, pairwise order is InOrderOf. */
  lemma {:induction false} PairsInOrder(cands: seq<Label>, order: seq<Label>)
    requires forall i, j | 0 <= i < j < |cands| :: FirstIndex(order, cands[i]) < FirstIndex(order, cands[j])
    ensures InOrderOf(cands, order)
    decreases |cands|
  {
    if |cands| > 1 {
      var tl := cands[1..];
      assert forall k | 0 <= k < |tl| :: tl[k] == cands[k + 1];
      PairsInOrder(tl, order);
    }
  }

  /** r is drawn from the candidates, and among its members equal counts
      appear in order of first occurrence in order, and every candidate
      left out occurs there after each chosen one of its count. */
  predicate TiesInOrder(cands: seq<Label>, r: seq<Label>, xs: seq<Label>, order: seq<Label>)
  {
    (forall x | x in r :: x in cands)
    && (forall i, j {:trigger FirstIndex(order, r[i]), FirstIndex(order, r[j])}
      | 0 <= i < j < |r| && Count(xs, r[i]) == Count(xs, r[j]) ::
      FirstIndex(order, r[i]) < FirstIndex(order, r[j]))
    && forall c, x {:trigger FirstIndex(order, x), FirstIndex(order, c)}
      | c in cands && c !in r && x in r && Count(xs, c) == Count(xs, x) ::
      FirstIndex(order, x) < FirstIndex(order, c)
  }

  /** Select breaks ties by candidate order: when the candidates are
      listed in the order of first occurrence in order, so are selected
      candidates of the same count, and a candidate left out comes after
      every selected one of its count. */
  lemma {:induction false} SelectTies(cands: seq<Label>, xs: seq<Label>, order: seq<Label>, n: nat)
    requires InOrderOf(cands, order)
    ensures TiesInOrder(cands, Select(cands, xs, n), xs, order)
    decreases n, 1
  {
    if n > 0 && |cands| > 0 {
      var j := BestIndex(cands, xs);
      var rest := cands[..j] + cands[j + 1..];
      RemoveAtInOrder(cands, j, order);
      SelectHeadTies(cands, rest, j, xs, order, n);
      assert Select(cands, xs, n) == [cands[j]] + Select(rest, xs, n - 1);
    }
  }

  /** Putting the first candidate of the largest count in front of the
      selection from the others, whose ties are in order by induction,
      keeps ties in order. */
  lemma {:induction false} SelectHeadTies(cands: seq<Label>, rest: seq<Label>, j: nat, xs: seq<Label>, order: seq<Label>, n: nat)
    requires j < |cands| && InOrderOf(cands, order) && InOrderOf(rest, order) && n > 0
    requires forall k | 0 <= k < j :: Count(xs, cands[k]) < Count(xs, cands[j])
    requires forall c :: c in rest <==> c in cands && c != cands[j]
    ensures TiesInOrder(cands, [cands[j]] + Select(rest, xs, n - 1), xs, order)
    decreases n, 0
  {
    var tail := Select(rest, xs, n - 1);
    SelectTies(rest, xs, order, n - 1);
    HeadFirst(cands, j, xs, order);
    HeadKept(cands, rest, cands[j], tail, xs, order);
    HeadLeft(cands, rest, cands[j], tail, xs, order);
  }

  /** A candidate in front of a selection from the others: the result is
      drawn from the candidates, and ties among it are in order. */
  lemma HeadKept(cands: seq<Label>, rest: seq<Label>, h: Label, tail: seq<Label>, xs: seq<Label>, order: seq<Label>)
    requires h in cands && forall c :: c in rest <==> c in cands && c != h
    requires TiesInOrder(rest, tail, xs, order)
    requires forall c | c in cands && c != h && Count(xs, c) == Count(xs, h) ::
      FirstIndex(order, h) < FirstIndex(order, c)
    ensures var r := [h] + tail;
      (forall x | x in r :: x in cands)
      && forall i, k {:trigger FirstIndex(order, r[i]), FirstIndex(order, r[k])}
        | 0 <= i < k < |r| && Count(xs, r[i]) == Count(xs, r[k]) ::
        FirstIndex(order, r[i]) < FirstIndex(order, r[k])
  {
    var r := [h] + tail;
    forall x | x in r
      ensures x in cands
    {
      if x != h {
        assert x in tail;
      }
    }
    forall i, k | 0 <= i < k < |r| && Count(xs, r[i]) == Count(xs, r[k])
      ensures FirstIndex(order, r[i]) < FirstIndex(order, r[k])
    {
      var b := tail[k - 1];
      assert r[k] == b && b in rest;
      if i > 0 {
        var a := tail[i - 1];
        assert r[i] == a && Count(xs, a) == Count(xs, b);
        assert FirstIndex(order, tail[i - 1]) < FirstIndex(order, tail[k - 1]);
      }
    }
  }

  /** A candidate in front of a selection from the others: a candidate
      left out comes after every chosen one of its count. */
  lemma HeadLeft(cands: seq<Label>, rest: seq<Label>, h: Label, tail: seq<Label>, xs: seq<Label>, order: seq<Label>)
    requires forall c :: c in rest <==> c in cands && c != h
    requires TiesInOrder(rest, tail, xs, order)
    requires forall c | c in cands && c != h && Count(xs, c) == Count(xs, h) ::
      FirstIndex(order, h) < FirstIndex(order, c)
    ensures var r := [h] + tail;
      forall c, x {:trigger FirstIndex(order, x), FirstIndex(order, c)}
        | c in cands && c !in r && x in r && Count(xs, c) == Count(xs, x) ::
        FirstIndex(order, x) < FirstIndex(order, c)
  {
    var r := [h] + tail;
    forall c, x | c in cands && c !in r && x in r && Count(xs, c) == Count(xs, x)
      ensures FirstIndex(order, x) < FirstIndex(order, c)
    {
      assert c in rest && c !in tail;
      if x != h {
        assert x in tail;
      }
    }
  }

  /** The first candidate of the largest count occurs before every other
      candidate of that count. */
  lemma HeadFirst(cands: seq<Label>, j: nat, xs: seq<Label>, order: seq<Label>)
    requires j < |cands| && InOrderOf(cands, order)
    requires forall k | 0 <= k < j :: Count(xs, cands[k]) < Count(xs, cands[j])
    ensures forall c | c in cands && c != cands[j] && Count(xs, c) == Count(xs, cands[j]) ::
      FirstIndex(order, cands[j]) < FirstIndex(order, c)
  {
    InOrderPairs(cands, order);
    forall c | c in cands && c != cands[j] && Count(xs, c) == Count(xs, cands[j])
      ensures FirstIndex(order, cands[j]) < FirstIndex(order, c)
    {
      var k :| 0 <= k < |cands| && cands[k] == c;
      assert j < k;
      assert FirstIndex(order, cands[j]) < FirstIndex(order, cands[k]);
    }
  }

  /** A kept candidate put in front of a ranking of the others, when no
      other candidate counts more, ranks all the candidates. */
  lemma {:induction false} SelectHead(cands: seq<Label>, rest: seq<Label>, h: Label, tail: seq<Label>, xs: seq<Label>)
    requires forall c :: c in rest <==> c in cands && c != h
    requires h in cands && forall c | c in cands :: Count(xs, c) <= Count(xs, h)
    requires Ranked(rest, tail, xs)
    ensures Ranked(cands, [h] + tail, xs)
  {
    var r := [h] + tail;
    assert forall i | 1 <= i < |r| :: r[i] == tail[i - 1];
    assert forall x :: x in r <==> x == h || x in tail;
  }

  /** Counter(xs).most_common(n): at most n distinct classes of xs, by
      non-increasing count, and no class left out occurs more often than
      any class kept. */
  function MostCommon(xs: seq<Label>, n: nat): (r: seq<Label>)
    ensures |r| == if n < |Classes(xs)| then n else |Classes(xs)|
    ensures Distinct(r) && forall x | x in r :: x in xs
    ensures forall i | 0 <= i < |r| - 1 :: Count(xs, r[i + 1]) <= Count(xs, r[i])
    ensures forall c, x | c in xs && c !in r && x in r :: Count(xs, c) <= Count(xs, x)
  {
    SelectRanked(Classes(xs), xs, n);
    Select(Classes(xs), xs, n)
  }

  /** most_common breaks ties by first occurrence: of two kept classes
      with the same count the one occurring first in xs comes first, and a
      class left out occurs later in xs than every kept class of its
      count. */
  lemma MostCommonTies(xs: seq<Label>, n: nat)
    ensures TiesInOrder(xs, MostCommon(xs, n), xs, xs)
  {
    var cls := Classes(xs);
    PairsInOrder(cls, xs);
    SelectTies(cls, xs, xs, n);
  }

  // ---- filtering to the kept classes ----------------------------------------------

  /** An (actual, predicted) pair. */
  type Pair = (Label, Label)

  /** The pairs whose actual class is one of the labels, in order. */
  function Filter(actuals: seq<Label>, preds: seq<Label>, labels: seq<Label>): (r: seq<Pair>)
    requires |actuals| == |preds|
    ensures |r| <= |actuals|
    ensures forall k | 0 <= k < |r| :: r[k].0 in labels
    decreases |actuals|
  {
    if |actuals| == 0 then []
    else
      var n := |actuals| - 1;
      Filter(actuals[..n], preds[..n], labels) + (if actuals[n] in labels then [(actuals[n], preds[n])] else [])
  }

  /** The number of pairs whose actual class is l. */
  function Support(pairs: seq<Pair>, l: Label): nat
    decreases |pairs|
  {
    if |pairs| == 0 then 0
    else Support(pairs[..|pairs| - 1], l) + (if pairs[|pairs| - 1].0 == l then 1 else 0)
  }

  /** Filtering keeps every occurrence of a kept class and none of the others. */
  lemma {:induction false} FilterSupport(actuals: seq<Label>, preds: seq<Label>, labels: seq<Label>, l: Label)
    requires |actuals| == |preds|
    ensures Support(Filter(actuals, preds, labels), l) == if l in labels then Count(actuals, l) else 0
    decreases |actuals|
  {
    if |actuals| > 0 {
      var n := |actuals| - 1;
      var f := Filter(actuals[..n], preds[..n], labels);
      FilterSupport(actuals[..n], preds[..n], labels, l);
      if actuals[n] in labels {
        assert (f + [(actuals[n], preds[n])])[..|f|] == f;
      } else {
        assert f + [] == f;
      }
    }
  }

  // ---- the confusion matrix -------------------------------------------------------

  /** label_to_index: the position of x in labels (the last one, as a dict
      built from the list keeps the last), or None. */
  function LabelIndex(labels: seq<Label>, x: Label): (r: Option<nat>)
    ensures r.None? <==> x !in labels
    ensures r.Some? ==> r.value < |labels| && labels[r.value] == x
    decreases |labels|
  {
    if |labels| == 0 then None
    else if labels[|labels| - 1] == x then Some(|labels| - 1)
    else LabelIndex(labels[..|labels| - 1], x)
  }

  /** An n by n matrix. */
  predicate Square(m: seq<seq<nat>>, n: nat)
  {
    |m| == n && forall i | 0 <= i < n :: |m[i]| == n
  }

  function Inc(m: seq<seq<nat>>, i: nat, j: nat): (r: seq<seq<nat>>)
    requires i < |m| && j < |m[i]|
    ensures |r| == |m| && forall k | 0 <= k < |m| :: |r[k]| == |m[k]|
  {
    m[i := m[i][j := m[i][j] + 1]]
  }

  /** _compute_confusion_matrix: each pair with both classes among the
      labels adds one at (index of actual, index of prediction). */
  function Confusion(pairs: seq<Pair>, labels: seq<Label>): (m: seq<seq<nat>>)
    ensures Square(m, |labels|)
    decreases |pairs|
  {
    if |pairs| == 0 then seq(|labels|, _ => seq(|labels|, _ => 0))
    else
      var m := Confusion(pairs[..|pairs| - 1], labels);
      var (a, p) := pairs[|pairs| - 1];
      match (LabelIndex(labels, a), LabelIndex(labels, p))
      case (Some(i), Some(j)) => Inc(m, i, j)
      case _ => m
  }

  /** The number of pairs whose classes sit at positions i and j. */
  function Cell(pairs: seq<Pair>, labels: seq<Label>, i: nat, j: nat): nat
    decreases |pairs|
  {
    if |pairs| == 0 then 0
    else
      var (a, p) := pairs[|pairs| - 1];
      Cell(pairs[..|pairs| - 1], labels, i, j)
        + (if LabelIndex(labels, a) == Some(i) && LabelIndex(labels, p) == Some(j) then 1 else 0)
  }

  /** Entry (i, j) of the matrix counts the pairs that map to (i, j). */
  lemma {:induction false} ConfusionCell(pairs: seq<Pair>, labels: seq<Label>, i: nat, j: nat)
    requires i < |labels| && j < |labels|
    ensures Confusion(pairs, labels)[i][j] == Cell(pairs, labels, i, j)
    decreases |pairs|
  {
    if |pairs| > 0 {
      ConfusionCell(pairs[..|pairs| - 1], labels, i, j);
    }
  }

  /** The sum of all entries. */
  function Total(m: seq<seq<nat>>): nat
    decreases |m|
  {
    if |m| == 0 then 0 else Total(m[..|m| - 1]) + SumNat(m[|m| - 1])
  }

  /** The sum of the diagonal. */
  function Trace(m: seq<seq<nat>>): nat
    decreases |m|
  {
    if |m| == 0 then 0
    else Trace(m[..|m| - 1]) + (if |m| - 1 < |m[|m| - 1]| then m[|m| - 1][|m| - 1] else 0)
  }

  /** One more in any cell is one more in the total, and one more on the
      diagonal exactly when the cell is on it. */
  lemma IncTotal(m: seq<seq<nat>>, i: nat, j: nat)
    requires i < |m| && j < |m[i]|
    ensures Total(Inc(m, i, j)) == Total(m) + 1
    ensures Trace(Inc(m, i, j)) == Trace(m) + (if i == j then 1 else 0)
  {
    IncSum(m, i, j);
    IncDiagonal(m, i, j);
  }

  lemma {:induction false} IncSum(m: seq<seq<nat>>, i: nat, j: nat)
    requires i < |m| && j < |m[i]|
    ensures Total(Inc(m, i, j)) == Total(m) + 1
    decreases |m|
  {
    var r := Inc(m, i, j);
    var n := |m| - 1;
    if i < n {
      assert r[..n] == Inc(m[..n], i, j);
      assert r[n] == m[n];
      IncSum(m[..n], i, j);
    } else {
      assert r[..n] == m[..n];
      SumNatUpdate(m[i], j);
    }
  }

  lemma {:induction false} IncDiagonal(m: seq<seq<nat>>, i: nat, j: nat)
    requires i < |m| && j < |m[i]|
    ensures Trace(Inc(m, i, j)) == Trace(m) + (if i == j then 1 else 0)
    decreases |m|
  {
    var r := Inc(m, i, j);
    var n := |m| - 1;
    if i < n {
      assert r[..n] == Inc(m[..n], i, j);
      assert r[n] == m[n];
      IncDiagonal(m[..n], i, j);
    } else {
      assert r[..n] == m[..n];
      assert r[n] == m[n][j := m[n][j] + 1];
    }
  }

  /** The number of pairs with both classes among the labels. */
  function BothIn(pairs: seq<Pair>, labels: seq<Label>): nat
    decreases |pairs|
  {
    if |pairs| == 0 then 0
    else
      var (a, p) := pairs[|pairs| - 1];
      BothIn(pairs[..|pairs| - 1], labels) + (if a in labels && p in labels then 1 else 0)
  }

  /** The number of correct predictions whose class is among the labels. */
  function CorrectIn(pairs: seq<Pair>, labels: seq<Label>): nat
    decreases |pairs|
  {
    if |pairs| == 0 then 0
    else
      var (a, p) := pairs[|pairs| - 1];
      CorrectIn(pairs[..|pairs| - 1], labels) + (if a == p && a in labels then 1 else 0)
  }

  lemma {:induction false} ZeroRows(m: seq<seq<nat>>, w: nat)
    requires forall i | 0 <= i < |m| :: m[i] == seq(w, _ => 0)
    ensures Total(m) == 0 && Trace(m) == 0
    decreases |m|
  {
    if |m| > 0 {
      ZeroRows(m[..|m| - 1], w);
      ZeroSum(w);
    }
  }

  lemma {:induction false} ZeroSum(w: nat)
    ensures SumNat(seq(w, _ => 0)) == 0
    decreases w
  {
    if w > 0 {
      assert seq(w, _ => 0)[..w - 1] == seq(w - 1, _ => 0);
      ZeroSum(w - 1);
    }
  }

  /** The entries add up to the number of pairs with both classes among
      the labels, and the diagonal to the correct predictions among them. */
  lemma {:induction false} ConfusionTotals(pairs: seq<Pair>, labels: seq<Label>)
    ensures Total(Confusion(pairs, labels)) == BothIn(pairs, labels)
    ensures Trace(Confusion(pairs, labels)) == CorrectIn(pairs, labels)
    decreases |pairs|
  {
    if |pairs| == 0 {
      ZeroRows(Confusion(pairs, labels), |labels|);
    } else {
      var init := pairs[..|pairs| - 1];
      var (a, p) := pairs[|pairs| - 1];
      ConfusionTotals(init, labels);
      var m := Confusion(init, labels);
      match (LabelIndex(labels, a), LabelIndex(labels, p))
      case (Some(i), Some(j)) =>
        IncTotal(m, i, j);
        assert i == j <==> a == p;
      case _ =>
    }
  }

  // ---- the classification report ----------------------------------------------------

  /** True positives, false positives and false negatives of one class. */
  datatype Counts = Counts(tp: nat, fp: nat, fn: nat)

  /** The three counting loops of the report: a correct pair counts for
      its class; a wrong one counts a false positive for the predicted
      class (when it is a label) and a false negative for the actual one. */
  function Tallies(pairs: seq<Pair>, labels: seq<Label>): (t: map<Label, Counts>)
    requires forall k | 0 <= k < |pairs| :: pairs[k].0 in labels
    ensures forall l :: l in t <==> l in labels
    decreases |pairs|
  {
    if |pairs| == 0 then map l | l in labels :: Counts(0, 0, 0)
    else
      var t := Tallies(pairs[..|pairs| - 1], labels);
      var (a, p) := pairs[|pairs| - 1];
      if a == p then t[a := t[a].(tp := t[a].tp + 1)]
      else
        var t' := if p in t then t[p := t[p].(fp := t[p].fp + 1)] else t;
        t'[a := t'[a].(fn := t'[a].fn + 1)]
  }

  function TruePos(pairs: seq<Pair>, l: Label): nat
    decreases |pairs|
  {
    if |pairs| == 0 then 0
    else TruePos(pairs[..|pairs| - 1], l) + (if pairs[|pairs| - 1] == (l, l) then 1 else 0)
  }

  function FalsePos(pairs: seq<Pair>, l: Label): nat
    decreases |pairs|
  {
    if |pairs| == 0 then 0
    else
      var (a, p) := pairs[|pairs| - 1];
      FalsePos(pairs[..|pairs| - 1], l) + (if p == l && a != l then 1 else 0)
  }

  function FalseNeg(pairs: seq<Pair>, l: Label): nat
    decreases |pairs|
  {
    if |pairs| == 0 then 0
    else
      var (a, p) := pairs[|pairs| - 1];
      FalseNeg(pairs[..|pairs| - 1], l) + (if a == l && p != l then 1 else 0)
  }

  /** The loops count, for every label, the pairs it got right, the pairs
      that wrongly predicted it, and the pairs of it that were missed. */
  lemma {:induction false} TalliesCount(pairs: seq<Pair>, labels: seq<Label>, l: Label)
    requires forall k | 0 <= k < |pairs| :: pairs[k].0 in labels
    requires l in labels
    ensures Tallies(pairs, labels)[l] == Counts(TruePos(pairs, l), FalsePos(pairs, l), FalseNeg(pairs, l))
    decreases |pairs|
  {
    if |pairs| > 0 {
      TalliesCount(pairs[..|pairs| - 1], labels, l);
    }
  }

  /** tp + fn is the class's support. */
  lemma {:induction false} SupportSplit(pairs: seq<Pair>, l: Label)
    ensures TruePos(pairs, l) + FalseNeg(pairs, l) == Support(pairs, l)
    decreases |pairs|
  {
    if |pairs| > 0 {
      SupportSplit(pairs[..|pairs| - 1], l);
    }
  }

  /** n / d, or 0 when d is 0. */
  function Ratio(n: nat, d: nat): (r: real)
    requires n <= d
    ensures 0.0 <= r <= 1.0
    ensures d == 0 ==> r == 0.0
    ensures r == 0.0 <==> n == 0
    ensures d > 0 ==> r * (d as real) == n as real
  {
    if d > 0 then (n as real) / (d as real) else 0.0
  }

  /** The harmonic mean of p and r, or 0 when both are 0. */
  function F1(p: real, r: real): (f: real)
    requires 0.0 <= p <= 1.0 && 0.0 <= r <= 1.0
    ensures p + r == 0.0 ==> f == 0.0
    ensures p + r > 0.0 ==> f * (p + r) == 2.0 * p * r
  {
    if p + r > 0.0 then 2.0 * p * r / (p + r) else 0.0
  }

  /** The harmonic mean lies between the two values, so in [0, 1]. */
  lemma F1Between(p: real, r: real)
    requires 0.0 <= p <= 1.0 && 0.0 <= r <= 1.0
    ensures 0.0 <= F1(p, r) <= 1.0
    ensures p <= r ==> p <= F1(p, r) <= r
    ensures r <= p ==> r <= F1(p, r) <= p
  {
    if p + r > 0.0 {
      var f := F1(p, r);
      var s := p + r;
      assert f * s == 2.0 * p * r;
      MulBetween(p, r, f, s);
    }
  }

  /** From f (p + r) = 2pr: f is at least the smaller and at most the larger. */
  lemma MulBetween(p: real, r: real, f: real, s: real)
    requires 0.0 <= p && 0.0 <= r && s == p + r && s > 0.0 && f * s == 2.0 * p * r
    ensures p <= r ==> p <= f <= r
    ensures r <= p ==> r <= f <= p
  {
    if p <= r {
      assert (f - p) * s == p * (r - p);
      assert (r - f) * s == r * (r - p);
      MulNonNegative(p, r - p);
      MulNonNegative(r, r - p);
      SignOfProduct(f - p, s, p * (r - p));
      SignOfProduct(r - f, s, r * (r - p));
    } else {
      assert (f - r) * s == r * (p - r);
      assert (p - f) * s == p * (p - r);
      MulNonNegative(r, p - r);
      MulNonNegative(p, p - r);
      SignOfProduct(f - r, s, r * (p - r));
      SignOfProduct(p - f, s, p * (p - r));
    }
  }

  lemma SignOfProduct(x: real, s: real, y: real)
    requires s > 0.0 && x * s == y && y >= 0.0
    ensures x >= 0.0
  {
  }

  lemma MulNonNegative(a: real, b: real)
    requires a >= 0.0 && b >= 0.0
    ensures a * b >= 0.0
  {
  }

  /** One row of the report. */
  datatype Row = Row(precision: real, recall: real, f1: real, support: nat)

  /** precision = tp / (tp + fp), recall = tp / (tp + fn), F1. */
  function ClassRow(c: Counts, support: nat): (r: Row)
    ensures 0.0 <= r.precision <= 1.0 && 0.0 <= r.recall <= 1.0 && 0.0 <= r.f1 <= 1.0
    ensures r.support == support
    ensures c.tp + c.fp > 0 ==> r.precision * ((c.tp + c.fp) as real) == c.tp as real
    ensures c.tp + c.fp == 0 ==> r.precision == 0.0
    ensures c.tp + c.fn > 0 ==> r.recall * ((c.tp + c.fn) as real) == c.tp as real
    ensures c.tp + c.fn == 0 ==> r.recall == 0.0
  {
    var p := Ratio(c.tp, c.tp + c.fp);
    var q := Ratio(c.tp, c.tp + c.fn);
    F1Between(p, q);
    Row(p, q, F1(p, q), support)
  }

  datatype Report = Report(rows: seq<Row>, macro: Row, weighted: Row)

  function Precisions(rows: seq<Row>): seq<real> { seq(|rows|, i requires 0 <= i < |rows| => rows[i].precision) }
  function Recalls(rows: seq<Row>): seq<real> { seq(|rows|, i requires 0 <= i < |rows| => rows[i].recall) }
  function F1s(rows: seq<Row>): seq<real> { seq(|rows|, i requires 0 <= i < |rows| => rows[i].f1) }
  function Supports(rows: seq<Row>): seq<nat> { seq(|rows|, i requires 0 <= i < |rows| => rows[i].support) }

  /** The support-weighted sum of one column. */
  function WeightedSum(xs: seq<real>, ws: seq<nat>): real
    requires |xs| == |ws|
    decreases |xs|
  {
    if |xs| == 0 then 0.0
    else WeightedSum(xs[..|xs| - 1], ws[..|ws| - 1]) + xs[|xs| - 1] * (ws[|ws| - 1] as real)
  }

  /** The weighted sum of values in [0, 1] is between 0 and the total weight. */
  lemma {:induction false} WeightedSumBounds(xs: seq<real>, ws: seq<nat>)
    requires |xs| == |ws|
    requires InRange(xs)
    ensures 0.0 <= WeightedSum(xs, ws) <= SumNat(ws) as real
    decreases |xs|
  {
    if |xs| > 0 {
      var n := |xs| - 1;
      WeightedSumBounds(xs[..n], ws[..n]);
      MulNonNegative(xs[n], ws[n] as real);
      MulNonNegative(1.0 - xs[n], ws[n] as real);
      assert forall k | 0 <= k < n :: ws[..n][k] == ws[k];
    }
  }

  /** sum(x_l * support_l) / total support, 0 without support. */
  function WeightedMean(xs: seq<real>, ws: seq<nat>): (r: real)
    requires |xs| == |ws|
    requires InRange(xs)
    ensures 0.0 <= r <= 1.0
    ensures SumNat(ws) == 0 ==> r == 0.0
    ensures SumNat(ws) > 0 ==> r * (SumNat(ws) as real) == WeightedSum(xs, ws)
  {
    WeightedSumBounds(xs, ws);
    var t := SumNat(ws);
    if t > 0 then
      assert WeightedSum(xs, ws) / (t as real) <= 1.0 by {
        DivAtMostOne(WeightedSum(xs, ws), t as real);
      }
      WeightedSum(xs, ws) / (t as real)
    else 0.0
  }

  /** A mean of values in [0, 1] is in [0, 1]. */
  lemma {:induction false} MeanBounds(xs: seq<real>)
    requires InRange(xs)
    ensures 0.0 <= Mean(xs) <= 1.0
  {
    if |xs| > 0 {
      SumBounds(xs);
      DivAtMostOne(Sum(xs), |xs| as real);
    }
  }

  lemma {:induction false} SumBounds(xs: seq<real>)
    requires InRange(xs)
    ensures 0.0 <= Sum(xs) <= |xs| as real
    decreases |xs|
  {
    if |xs| > 0 {
      SumBounds(xs[..|xs| - 1]);
    }
  }

  /** Every value lies in [0, 1]. */
  predicate InRange(xs: seq<real>)
  {
    forall i | 0 <= i < |xs| :: 0.0 <= xs[i] <= 1.0
  }

  predicate RowInRange(r: Row)
  {
    0.0 <= r.precision <= 1.0 && 0.0 <= r.recall <= 1.0 && 0.0 <= r.f1 <= 1.0
  }

  /** _compute_classification_report over the filtered pairs: one row per
      label in label order, the plain means of the rows, and the
      support-weighted means. */
  function ClassificationReport(pairs: seq<Pair>, labels: seq<Label>): (r: Report)
    requires forall k | 0 <= k < |pairs| :: pairs[k].0 in labels
    ensures |r.rows| == |labels|
    ensures forall i | 0 <= i < |labels| :: (r.rows[i].support == Support(pairs, labels[i])
      && RowInRange(r.rows[i]))
    ensures RowInRange(r.macro) && RowInRange(r.weighted)
    ensures r.macro.support == r.weighted.support == SumNat(Supports(r.rows))
    ensures r.macro.precision == Mean(Precisions(r.rows)) && r.macro.recall == Mean(Recalls(r.rows))
      && r.macro.f1 == Mean(F1s(r.rows))
    ensures InRange(Precisions(r.rows)) && InRange(Recalls(r.rows)) && InRange(F1s(r.rows))
    ensures r.weighted.precision == WeightedMean(Precisions(r.rows), Supports(r.rows))
      && r.weighted.recall == WeightedMean(Recalls(r.rows), Supports(r.rows))
      && r.weighted.f1 == WeightedMean(F1s(r.rows), Supports(r.rows))
  {
    var t := Tallies(pairs, labels);
    var rows := seq(|labels|, i requires 0 <= i < |labels| => ClassRow(t[labels[i]], Support(pairs, labels[i])));
    var avg := Averages(rows);
    Report(rows, avg.0, avg.1)
  }

  /** The macro and weighted average rows: plain and support-weighted means
      of each column, both over the total support. */
  function Averages(rows: seq<Row>): (r: (Row, Row))
    requires forall i | 0 <= i < |rows| :: RowInRange(rows[i])
    ensures RowInRange(r.0) && RowInRange(r.1)
    ensures r.0.support == r.1.support == SumNat(Supports(rows))
    ensures r.0.precision == Mean(Precisions(rows)) && r.0.recall == Mean(Recalls(rows))
      && r.0.f1 == Mean(F1s(rows))
    ensures InRange(Precisions(rows)) && InRange(Recalls(rows)) && InRange(F1s(rows))
    ensures r.1.precision == WeightedMean(Precisions(rows), Supports(rows))
      && r.1.recall == WeightedMean(Recalls(rows), Supports(rows))
      && r.1.f1 == WeightedMean(F1s(rows), Supports(rows))
  {
    var ps, rs, fs, ws := Precisions(rows), Recalls(rows), F1s(rows), Supports(rows);
    assert forall i | 0 <= i < |rows| :: 0.0 <= ps[i] <= 1.0 && 0.0 <= rs[i] <= 1.0 && 0.0 <= fs[i] <= 1.0 by {
      forall i | 0 <= i < |rows|
        ensures 0.0 <= ps[i] <= 1.0 && 0.0 <= rs[i] <= 1.0 && 0.0 <= fs[i] <= 1.0
      {
        assert RowInRange(rows[i]);
      }
    }
    MeanBounds(ps);
    MeanBounds(rs);
    MeanBounds(fs);
    var total := SumNat(ws);
    (Row(Mean(ps), Mean(rs), Mean(fs), total),
     Row(WeightedMean(ps, ws), WeightedMean(rs, ws), WeightedMean(fs, ws), total))
  }

  /** Every row of the report is the row of the class's true counts: tp
      pairs right, fp pairs wrongly predicting it, fn pairs of it missed,
      and tp + fn its support. */
  lemma {:induction false} ReportRow(pairs: seq<Pair>, labels: seq<Label>, i: nat)
    requires forall k | 0 <= k < |pairs| :: pairs[k].0 in labels
    requires i < |labels|
    ensures ClassificationReport(pairs, labels).rows[i] ==
      ClassRow(Counts(TruePos(pairs, labels[i]), FalsePos(pairs, labels[i]), FalseNeg(pairs, labels[i])),
               TruePos(pairs, labels[i]) + FalseNeg(pairs, labels[i]))
  {
    var l := labels[i];
    var c := Tallies(pairs, labels)[l];
    assert ClassificationReport(pairs, labels).rows[i] == ClassRow(c, Support(pairs, l));
    assert c == Counts(TruePos(pairs, l), FalsePos(pairs, l), FalseNeg(pairs, l)) by {
      TalliesCount(pairs, labels, l);
    }
    assert Support(pairs, l) == TruePos(pairs, l) + FalseNeg(pairs, l) by {
      SupportSplit(pairs, l);
    }
  }

  /** With distinct labels that cover every actual class, the supports
      add up to the number of pairs. */
  lemma {:induction false} SupportsTotal(pairs: seq<Pair>, labels: seq<Label>)
    requires Distinct(labels)
    requires forall k | 0 <= k < |pairs| :: pairs[k].0 in labels
    ensures SumNat(seq(|labels|, i requires 0 <= i < |labels| => Support(pairs, labels[i]))) == |pairs|
    decreases |pairs|
  {
    var s := seq(|labels|, i requires 0 <= i < |labels| => Support(pairs, labels[i]));
    if |pairs| == 0 {
      ZeroSupports(labels, s);
    } else {
      var init := pairs[..|pairs| - 1];
      var a := pairs[|pairs| - 1].0;
      SupportsTotal(init, labels);
      var s0 := seq(|labels|, i requires 0 <= i < |labels| => Support(init, labels[i]));
      var j :| 0 <= j < |labels| && labels[j] == a;
      assert s == s0[j := s0[j] + 1];
      SumNatUpdate(s0, j);
    }
  }

  lemma {:induction false} ZeroSupports(labels: seq<Label>, s: seq<nat>)
    requires |s| == |labels| && forall i | 0 <= i < |s| :: s[i] == 0
    ensures SumNat(s) == 0
    decreases |s|
  {
    if |s| > 0 {
      ZeroSupports(labels[..|labels| - 1], s[..|s| - 1]);
    }
  }

  // ---- the whole computation ----------------------------------------------------

  datatype Metrics = Metrics(accuracy: real, topKAccuracy: real, labels: seq<Label>,
                             confusion: seq<seq<nat>>, report: Report)

  /** _compute_metrics: accuracy and top-k accuracy over all positions, then
      the confusion matrix and report over the positions whose actual class
      is one of the ten most frequent. With no position the division by
      the number of positions fails, which is None here. */
  function ComputeMetrics(actuals: seq<Label>, preds: seq<Label>, topk: seq<seq<Label>>): (r: Option<Metrics>)
    requires |actuals| == |preds| == |topk|
    ensures r.None? <==> |actuals| == 0
    ensures r.Some? ==> 0.0 <= r.value.accuracy <= 1.0 && 0.0 <= r.value.topKAccuracy <= 1.0
    ensures r.Some? ==> (r.value.accuracy == Matches(actuals, preds) as real / |actuals| as real
      && r.value.topKAccuracy == TopKHits(actuals, topk) as real / |actuals| as real)
    ensures r.Some? ==> (r.value.labels == MostCommon(actuals, TOP_CLASSES)
      && Square(r.value.confusion, |r.value.labels|)
      && |r.value.report.rows| == |r.value.labels|)
  {
    if |actuals| == 0 then None
    else
      var n := |actuals| as real;
      var hits, top := Matches(actuals, preds) as real, TopKHits(actuals, topk) as real;
      DivAtMostOne(hits, n);
      DivAtMostOne(top, n);
      var labels := MostCommon(actuals, TOP_CLASSES);
      var pairs := Filter(actuals, preds, labels);
      var confusion := Confusion(pairs, labels);
      var report := ClassificationReport(pairs, labels);
      assert Square(confusion, |labels|) && |report.rows| == |labels|;
      Some(Metrics(hits / n, top / n, labels, confusion, report))
  }

  /** When each arg-max prediction is among the top-k predictions, top-k
      accuracy is at least accuracy. */
  lemma TopKAccuracyAtLeast(actuals: seq<Label>, preds: seq<Label>, topk: seq<seq<Label>>)
    requires |actuals| == |preds| == |topk| > 0
    requires forall i | 0 <= i < |preds| :: preds[i] in topk[i]
    ensures ComputeMetrics(actuals, preds, topk).value.accuracy <= ComputeMetrics(actuals, preds, topk).value.topKAccuracy
  {
    TopKAtLeastMatches(actuals, preds, topk);
    DivOrder(Matches(actuals, preds) as real, TopKHits(actuals, topk) as real, |actuals| as real);
  }

  /** The report covers every occurrence of the kept classes: each row's
      support is the class's count among all actual classes, the supports
      add up to the number of filtered positions, and the confusion matrix
      holds every filtered position whose prediction is a kept class, with
      the correct ones on its diagonal. */
  lemma MetricsCoverage(actuals: seq<Label>, preds: seq<Label>, topk: seq<seq<Label>>)
    requires |actuals| == |preds| == |topk| > 0
    ensures var m := ComputeMetrics(actuals, preds, topk).value;
      var pairs := Filter(actuals, preds, m.labels);
      (forall i | 0 <= i < |m.labels| :: m.report.rows[i].support == Count(actuals, m.labels[i]))
      && m.report.macro.support == |pairs|
      && Total(m.confusion) == BothIn(pairs, m.labels)
      && Trace(m.confusion) == CorrectIn(pairs, m.labels)
  {
    var m := ComputeMetrics(actuals, preds, topk).value;
    var labels := m.labels;
    var pairs := Filter(actuals, preds, labels);
    assert m.report == ClassificationReport(pairs, labels);
    assert m.confusion == Confusion(pairs, labels);
    ReportCoverage(actuals, preds, labels);
    ConfusionTotals(pairs, labels);
  }

  /** The report over the filtered positions: each row's support is the
      number of positions of its class, and they add up to the number of
      filtered positions. */
  lemma ReportCoverage(actuals: seq<Label>, preds: seq<Label>, labels: seq<Label>)
    requires |actuals| == |preds| && Distinct(labels)
    ensures var pairs := Filter(actuals, preds, labels);
      var report := ClassificationReport(pairs, labels);
      (forall i | 0 <= i < |labels| :: report.rows[i].support == Count(actuals, labels[i]))
      && report.macro.support == |pairs|
  {
    var pairs := Filter(actuals, preds, labels);
    var report := ClassificationReport(pairs, labels);
    forall i | 0 <= i < |labels|
      ensures report.rows[i].support == Count(actuals, labels[i])
    {
      FilterSupport(actuals, preds, labels, labels[i]);
    }
    SupportsTotal(pairs, labels);
    assert Supports(report.rows) == seq(|labels|, i requires 0 <= i < |labels| => Support(pairs, labels[i]));
  }
}
