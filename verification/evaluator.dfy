/** The evaluator's post-processing of a network policy: each legal move
    gets the probability at its table index, floored at 1e-8 (1e-8 outright
    when the move has no index inside the policy vector), and the floored
    values are renormalised. Three copies of this step exist and differ in
    what the total counts. The network itself is not modelled: `policy` is
    its softmax output, `legal` the legal-move list of the position.

    A returned dictionary is modelled as the list of its (move, probability)
    entries in insertion order; its keys are the legal moves in list order
    (python-chess lists each legal move once). */
module Evaluator {
  import opened Common
  import opened Chess
  import opened Moves

  const FLOOR: real := 0.00000001

  type Dist = seq<(Move, real)>

  function RealMax(a: real, b: real): real
  {
    if a < b then b else a
  }

  /** The move has an index and the index is inside the policy vector. */
  predicate Mapped(policy: seq<real>, m: Move)
  {
    IndexOf(m).Some? && IndexOf(m).value < |policy|
  }

  /** max(policy[idx], 1e-8) for a mapped move, 1e-8 otherwise. */
  function Floored(policy: seq<real>, m: Move): (r: real)
    ensures r >= FLOOR
  {
    if Mapped(policy, m) then RealMax(policy[IndexOf(m).value], FLOOR) else FLOOR
  }

  /** The floored policy values of the legal moves, before normalising. */
  function Raw(policy: seq<real>, legal: seq<Move>): (r: seq<real>)
    ensures |r| == |legal|
  {
    seq(|legal|, i requires 0 <= i < |legal| => Floored(policy, legal[i]))
  }

  /** Floored values of mapped moves only, 0 for the others. */
  function MappedPart(policy: seq<real>, legal: seq<Move>): (r: seq<real>)
    ensures |r| == |legal|
  {
    seq(|legal|, i requires 0 <= i < |legal| =>
      if Mapped(policy, legal[i]) then Floored(policy, legal[i]) else 0.0)
  }

  function NumUnmapped(policy: seq<real>, legal: seq<Move>): nat
  {
    if |legal| == 0 then 0
    else
      NumUnmapped(policy, legal[..|legal| - 1])
      + (if Mapped(policy, legal[|legal| - 1]) then 0 else 1)
  }

  function Keys(d: Dist): seq<Move>
  {
    seq(|d|, i requires 0 <= i < |d| => d[i].0)
  }

  function Values(d: Dist): seq<real>
  {
    seq(|d|, i requires 0 <= i < |d| => d[i].1)
  }

  /** Each legal move paired with its weight divided by total; with no
      positive total, each paired with 1 / |legal|. */
  function Normalise(legal: seq<Move>, w: seq<real>, total: real): (r: Dist)
    requires |w| == |legal|
    ensures Keys(r) == legal
    ensures (forall i | 0 <= i < |w| :: w[i] > 0.0) ==> forall i | 0 <= i < |r| :: r[i].1 > 0.0
  {
    if total > 0.0 then seq(|legal|, i requires 0 <= i < |legal| => (legal[i], w[i] / total))
    else seq(|legal|, i requires 0 <= i < |legal| => (legal[i], 1.0 / (|legal| as real)))
  }

  lemma DivSelf(x: real)
    requires x > 0.0
    ensures x / x == 1.0
  {
  }

  /** s == (t + 1e-8 n) / t means s == 1 + 1e-8 n / t, which is 1 exactly
      when n is 0. */
  lemma DivShift(s: real, total: real, t: real, n: nat)
    requires t > 0.0 && s == total / t && total == t + FLOOR * (n as real)
    ensures s == 1.0 + FLOOR * (n as real) / t
    ensures s == 1.0 <==> n == 0
  {
    var e := FLOOR * (n as real);
    assert (t + e) / t == t / t + e / t;
    assert e / t == 0.0 <==> e == 0.0;
  }

  lemma DivMonotone(a: real, b: real, t: real)
    requires a <= b && t > 0.0
    ensures a / t <= b / t
  {
  }

  lemma RawPositive(policy: seq<real>, legal: seq<Move>)
    requires |legal| > 0
    ensures Sum(Raw(policy, legal)) > 0.0
  {
    SumPositive(Raw(policy, legal));
  }

  lemma NormaliseSum(legal: seq<Move>, w: seq<real>, total: real)
    requires |w| == |legal| && total > 0.0
    ensures Sum(Values(Normalise(legal, w, total))) == Sum(w) / total
  {
    assert Values(Normalise(legal, w, total)) ==
      seq(|w|, i requires 0 <= i < |w| => w[i] / total);
    SumScale(w, total);
  }

  /** MCTS._policy_value_fn (and Bot._get_board_action_probs once a model is
      loaded): every floor enters the total, so the result is a probability
      distribution over exactly the legal moves. */
  function SearchPriors(policy: seq<real>, legal: seq<Move>): (r: Dist)
    ensures Keys(r) == legal
    ensures forall i | 0 <= i < |r| :: r[i].1 > 0.0
    ensures |legal| > 0 ==> Sum(Values(r)) == 1.0
  {
    if |legal| == 0 then []
    else
      var raw := Raw(policy, legal);
      var t := Sum(raw);
      RawPositive(policy, legal);
      NormaliseSum(legal, raw, t);
      DivSelf(t);
      Normalise(legal, raw, t)
  }

  /** A larger policy entry never yields a smaller prior: normalising keeps
      the order of the floored values. */
  lemma {:induction false} SearchPriorsMonotone(policy: seq<real>, legal: seq<Move>, i: int, j: int)
    requires 0 <= i < |legal| && 0 <= j < |legal|
    requires Floored(policy, legal[i]) <= Floored(policy, legal[j])
    ensures SearchPriors(policy, legal)[i].1 <= SearchPriors(policy, legal)[j].1
  {
    var raw := Raw(policy, legal);
    RawPositive(policy, legal);
    var t := Sum(raw);
    NormaliseSum(legal, raw, t);
    DivMonotone(raw[i], raw[j], t);
  }

  /** Bot._get_board_action_probs: {} without a model, else SearchPriors. */
  function BoardActionProbs(model: Option<seq<real>>, legal: seq<Move>): (r: Dist)
    ensures model.None? || |legal| == 0 <==> r == []
    ensures r != [] ==> Keys(r) == legal && Sum(Values(r)) == 1.0
  {
    match model
    case None => []
    case Some(policy) => SearchPriors(policy, legal)
  }

  /** The inner policy_value_fn of the self-play worker: unmapped legal moves
      receive 1e-8 without it entering the total; the total of mapped floors
      divides every entry, and with no mapped move the result is uniform. */
  function WorkerPriors(policy: seq<real>, legal: seq<Move>): (r: Dist)
    ensures Keys(r) == legal
    ensures forall i | 0 <= i < |r| :: r[i].1 > 0.0
  {
    Normalise(legal, Raw(policy, legal), Sum(MappedPart(policy, legal)))
  }

  lemma {:induction false} RawSplit(policy: seq<real>, legal: seq<Move>)
    ensures Sum(Raw(policy, legal)) ==
      Sum(MappedPart(policy, legal)) + FLOOR * (NumUnmapped(policy, legal) as real)
    ensures Sum(MappedPart(policy, legal)) >= 0.0
    ensures NumUnmapped(policy, legal) <= |legal|
    ensures Sum(MappedPart(policy, legal)) > 0.0 <==> NumUnmapped(policy, legal) < |legal|
    decreases |legal|
  {
    if |legal| > 0 {
      var init := legal[..|legal| - 1];
      RawSplit(policy, init);
      assert Raw(policy, legal)[..|legal| - 1] == Raw(policy, init);
      assert MappedPart(policy, legal)[..|legal| - 1] == MappedPart(policy, init);
      SumNonNegative(MappedPart(policy, init));
    }
  }

  /** With at least one mapped legal move, the entries sum to
      1 + 1e-8 * (number of unmapped moves) / (total of mapped floors),
      written here multiplied out: the result is a distribution exactly when
      every legal move is mapped. */
  lemma {:induction false} WorkerPriorsSum(policy: seq<real>, legal: seq<Move>)
    requires NumUnmapped(policy, legal) < |legal|
    ensures Sum(MappedPart(policy, legal)) > 0.0
    ensures Sum(Values(WorkerPriors(policy, legal))) ==
      1.0 + FLOOR * (NumUnmapped(policy, legal) as real) / Sum(MappedPart(policy, legal))
    ensures Sum(Values(WorkerPriors(policy, legal))) == 1.0 <==> NumUnmapped(policy, legal) == 0
  {
    var t := Sum(MappedPart(policy, legal));
    var raw := Raw(policy, legal);
    var n := NumUnmapped(policy, legal);
    assert t > 0.0 && Sum(raw) == t + FLOOR * (n as real) by {
      RawSplit(policy, legal);
    }
    var s := Sum(Values(WorkerPriors(policy, legal)));
    assert s == Sum(raw) / t by {
      NormaliseSum(legal, raw, t);
    }
    DivShift(s, Sum(raw), t, n);
  }

  /** With no mapped legal move the result is uniform over the legal moves. */
  lemma {:induction false} WorkerPriorsUniform(policy: seq<real>, legal: seq<Move>)
    requires |legal| > 0 && NumUnmapped(policy, legal) == |legal|
    ensures forall i | 0 <= i < |legal| ::
      WorkerPriors(policy, legal)[i].1 == 1.0 / (|legal| as real)
    ensures Sum(Values(WorkerPriors(policy, legal))) == 1.0
  {
    var n := |legal| as real;
    var r := WorkerPriors(policy, legal);
    assert Sum(MappedPart(policy, legal)) == 0.0 by {
      RawSplit(policy, legal);
    }
    assert r == seq(|legal|, i requires 0 <= i < |legal| => (legal[i], 1.0 / n));
    SumConst(Values(r), 1.0 / n);
    MulInverse(n);
  }

  lemma MulInverse(x: real)
    requires x > 0.0
    ensures x * (1.0 / x) == 1.0
  {
  }
}
