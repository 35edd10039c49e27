/** The election types the core shares, and stand-ins for the two `sp_npos_elections` library
    functions it calls (`to_supports` and `evaluate`), given here with the contract the core
    relies on: per-target sums of the assigned stake, and a (minimum, sum, sum of squares)
    score. */
module NposElections {
  import opened Ordering
  import opened Primitives

  /** A voter of the snapshot: its account, its stake and the targets it nominates. */
  datatype Voter = Voter(who: AccountId, stake: u64, targets: seq<AccountId>)

  /** A voter's stake as distributed over targets (`u128` amounts). */
  datatype StakedAssignment = StakedAssignment(who: AccountId, distribution: seq<(AccountId, nat)>)

  /** The total stake backing one target. */
  datatype Support = Support(target: AccountId, total: nat)

  datatype ElectionScore = ElectionScore(minimalStake: nat, sumStake: nat, sumStakeSquared: nat)

  /** The amount a distribution gives to `t`. */
  function DistributedTo(distribution: seq<(AccountId, nat)>, t: AccountId): nat
  {
    if distribution == [] then 0
    else
      var last := distribution[|distribution| - 1];
      DistributedTo(distribution[..|distribution| - 1], t) + (if last.0 == t then last.1 else 0)
  }

  /** The total amount a distribution hands out (for `u64` and `u128` amounts alike). */
  function DistributionTotal(shares: seq<(AccountId, int)>): int
  {
    if shares == [] then 0 else DistributionTotal(shares[..|shares| - 1]) + shares[|shares| - 1].1
  }

  lemma {:induction false} DistributionTotalAppend(a: seq<(AccountId, int)>, b: seq<(AccountId, int)>)
    ensures DistributionTotal(a + b) == DistributionTotal(a) + DistributionTotal(b)
    decreases |b|
  {
    if b == [] {
      assert a + b == a;
    } else {
      var ab := a + b;
      assert ab[..|ab| - 1] == a + b[..|b| - 1];
      assert ab[|ab| - 1] == b[|b| - 1];
      DistributionTotalAppend(a, b[..|b| - 1]);
      assert DistributionTotal(ab) == DistributionTotal(ab[..|ab| - 1]) + ab[|ab| - 1].1;
    }
  }

  lemma {:induction false} DistributionTotalUniform(shares: seq<(AccountId, int)>, share: nat)
    requires forall i :: 0 <= i < |shares| ==> shares[i].1 == share
    ensures DistributionTotal(shares) == |shares| * share
  {
    if shares != [] {
      DistributionTotalUniform(shares[..|shares| - 1], share);
    }
  }

  /** Handing `total / |shares|` to each of `shares` gives out at most `total`, and loses less
      than one unit per share to rounding. */
  lemma UniformSharesFit(shares: seq<(AccountId, int)>, total: nat)
    requires |shares| > 0
    requires forall i :: 0 <= i < |shares| ==> shares[i].1 == total / |shares|
    ensures DistributionTotal(shares) <= total
    ensures total - |shares| < DistributionTotal(shares)
  {
    var parts := |shares|;
    DistributionTotalUniform(shares, total / parts);
    assert total == parts * (total / parts) + total % parts;
  }

  /** The stake all assignments together give to `t`. */
  function SupportTotal(assignments: seq<StakedAssignment>, t: AccountId): nat
  {
    if assignments == [] then 0
    else
      SupportTotal(assignments[..|assignments| - 1], t)
      + DistributedTo(assignments[|assignments| - 1].distribution, t)
  }

  /** Every target some assignment distributes stake to. */
  function SupportedTargets(assignments: seq<StakedAssignment>): set<AccountId>
  {
    if assignments == [] then {}
    else
      SupportedTargets(assignments[..|assignments| - 1])
      + set p | p in assignments[|assignments| - 1].distribution :: p.0
  }

  /** The support of each of `targets`, in the same order. */
  function SupportsFor(targets: seq<AccountId>, assignments: seq<StakedAssignment>): (supports: seq<Support>)
    ensures |supports| == |targets|
    ensures forall i :: 0 <= i < |targets| ==>
              supports[i].target == targets[i] && supports[i].total == SupportTotal(assignments, targets[i])
  {
    seq(|targets|, i requires 0 <= i < |targets| => Support(targets[i], SupportTotal(assignments, targets[i])))
  }

  /** `to_supports`: one support per target listed in some assignment (even one whose
      shares all rounded down to 0), in ascending target order
      (a `BTreeMap`'s order), whose total is the sum of all amounts assigned to it. */
  function ToSupports(assignments: seq<StakedAssignment>): (supports: seq<Support>)
    ensures IdsAscending(supports, (s: Support) => s.target)
    ensures forall t :: t in SupportedTargets(assignments) <==>
              exists i :: 0 <= i < |supports| && supports[i].target == t
    ensures forall i :: 0 <= i < |supports| ==>
              supports[i].total == SupportTotal(assignments, supports[i].target)
  {
    var targets := AscendingKeys(SupportedTargets(assignments));
    var supports := SupportsFor(targets, assignments);
    assert IdsAscending(supports, (s: Support) => s.target) by {
      forall i, j | 0 <= i < j < |supports| ensures supports[i].target < supports[j].target {
        assert targets[i] < targets[j];
      }
    }
    forall t | t in SupportedTargets(assignments)
      ensures exists i :: 0 <= i < |supports| && supports[i].target == t
    {
      var i :| 0 <= i < |targets| && targets[i] == t;
      assert supports[i].target == t;
    }
    supports
  }

  /** The smallest total. The running minimum starts at `u128::MAX`, so that is the value
      for no supports. */
  function MinimalTotal(supports: seq<Support>): (m: nat)
    ensures forall i :: 0 <= i < |supports| ==> m <= supports[i].total
    ensures supports == [] ==> m == U128_MAX
    ensures supports != [] ==> exists i :: 0 <= i < |supports| && supports[i].total == m
  {
    if supports == [] then U128_MAX
    else if |supports| == 1 then supports[0].total
    else
      var rest := MinimalTotal(supports[1..]);
      if supports[0].total <= rest then supports[0].total else rest
  }

  function SumTotals(supports: seq<Support>): nat
  {
    if supports == [] then 0 else supports[0].total + SumTotals(supports[1..])
  }

  function SumSquares(supports: seq<Support>): nat
  {
    if supports == [] then 0
    else supports[0].total * supports[0].total + SumSquares(supports[1..])
  }

  /** `Supports::evaluate`: the score of a set of winners. */
  function Evaluate(supports: seq<Support>): (score: ElectionScore)
  {
    ElectionScore(MinimalTotal(supports), SumTotals(supports), SumSquares(supports))
  }

  /** The minimal stake is a lower bound of the mean: it times the number of winners is at
      most the sum of stakes, and likewise for the sum of squares. */
  lemma {:induction false} EvaluateBounds(supports: seq<Support>)
    ensures Evaluate(supports).minimalStake * |supports| <= Evaluate(supports).sumStake
    ensures Evaluate(supports).minimalStake * Evaluate(supports).sumStake
            <= Evaluate(supports).sumStakeSquared
  {
    MinBounds(supports, MinimalTotal(supports));
  }

  lemma {:induction false} MinBounds(supports: seq<Support>, m: nat)
    requires forall i :: 0 <= i < |supports| ==> m <= supports[i].total
    ensures m * |supports| <= SumTotals(supports)
    ensures m * SumTotals(supports) <= SumSquares(supports)
  {
    if supports != [] {
      var t, rest := supports[0].total, supports[1..];
      MinBounds(rest, m);
      assert m * |supports| == m + m * |rest|;
      assert m * SumTotals(supports) == m * t + m * SumTotals(rest);
      MulMonotone(m, t, t);
    }
  }

  lemma MulMonotone(a: nat, b: nat, c: nat)
    requires a <= b
    ensures a * c <= b * c
  {
  }
}
