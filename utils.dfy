/** Stake aggregation over a voter list (`SortedTargets::from_voters`) and the two policies
    for splitting a weight over the ranked targets (`share_distribution`). */
module Utils {
  import opened Wrappers
  import opened Ordering
  import opened Primitives
  import opened NposElections

  datatype ShareDistribution = ProRata | Pareto

  /** The targets of a voter list, ranked by ascending aggregate stake. */
  datatype SortedTargets = SortedTargets(targets: seq<AccountId>)

  /** A `u64` division by zero, which panics in the source. */
  datatype ArithmeticError = DivisionByZero

  /** How many times `t` occurs in `s`. */
  function Occurrences(s: seq<AccountId>, t: AccountId): nat
  {
    if s == [] then 0
    else Occurrences(s[..|s| - 1], t) + (if s[|s| - 1] == t then 1 else 0)
  }

  /** The aggregate stake of `t`: every voter's stake, once per time it lists `t`. */
  function Aggregate(voters: seq<Voter>, t: AccountId): nat
  {
    if voters == [] then 0
    else
      var last := voters[|voters| - 1];
      Aggregate(voters[..|voters| - 1], t) + Occurrences(last.targets, t) * last.stake
  }

  /** The targets one list names. */
  function Listed(targets: seq<AccountId>): set<AccountId>
  {
    set t | t in targets
  }

  /** Every target some voter lists. */
  function Nominated(voters: seq<Voter>): set<AccountId>
  {
    if voters == [] then {}
    else Nominated(voters[..|voters| - 1]) + Listed(voters[|voters| - 1].targets)
  }

  /** `a` is ranked before `b`: smaller aggregate stake, or equal stake and smaller id. */
  predicate RanksBefore(voters: seq<Voter>, a: AccountId, b: AccountId)
  {
    Aggregate(voters, a) < Aggregate(voters, b) || (Aggregate(voters, a) == Aggregate(voters, b) && a < b)
  }

  lemma {:induction false} OccurrencesOfAbsent(s: seq<AccountId>, t: AccountId)
    requires t !in s
    ensures Occurrences(s, t) == 0
  {
    if s != [] {
      OccurrencesOfAbsent(s[..|s| - 1], t);
    }
  }

  lemma {:induction false} AggregateOfUnnominated(voters: seq<Voter>, t: AccountId)
    requires t !in Nominated(voters)
    ensures Aggregate(voters, t) == 0
  {
    if voters != [] {
      AggregateOfUnnominated(voters[..|voters| - 1], t);
      OccurrencesOfAbsent(voters[|voters| - 1].targets, t);
    }
  }

  lemma TargetsStep(targets: seq<AccountId>, j: nat)
    requires j < |targets|
    ensures Listed(targets[..j + 1]) == Listed(targets[..j]) + {targets[j]}
    ensures forall t :: Occurrences(targets[..j + 1], t) ==
              Occurrences(targets[..j], t) + (if targets[j] == t then 1 else 0)
  {
    assert targets[..j + 1][..j] == targets[..j];
  }

  lemma VotersStep(voters: seq<Voter>, i: nat)
    requires i < |voters|
    ensures Nominated(voters[..i + 1]) == Nominated(voters[..i]) + Listed(voters[i].targets)
    ensures forall t :: Aggregate(voters[..i + 1], t) ==
              Aggregate(voters[..i], t) + Occurrences(voters[i].targets, t) * voters[i].stake
  {
    assert voters[..i + 1][..i] == voters[..i];
  }

  lemma OneMore(count: nat, stake: nat)
    ensures (count + 1) * stake == count * stake + stake
  {
  }

  /** The tally after the voters of `prior`, and one more voter of stake `stake` counted for
      the targets `done`. */
  ghost predicate PartlyTallied(stakes: map<AccountId, nat>, prior: seq<Voter>, done: seq<AccountId>, stake: nat)
  {
    && stakes.Keys == Nominated(prior) + Listed(done)
    && forall t :: t in stakes ==> stakes[t] == Aggregate(prior, t) + Occurrences(done, t) * stake
  }

  /** Counting the voter for one more target: the `entry(target).or_insert(0) += stake` step. */
  lemma TallyOneTarget(stakes: map<AccountId, nat>, prior: seq<Voter>, targets: seq<AccountId>, j: nat, stake: nat)
    requires j < |targets| && PartlyTallied(stakes, prior, targets[..j], stake)
    ensures PartlyTallied(stakes[targets[j] := (if targets[j] in stakes then stakes[targets[j]] else 0) + stake],
                          prior, targets[..j + 1], stake)
  {
    var target := targets[j];
    TargetsStep(targets, j);
    if target !in stakes {
      AggregateOfUnnominated(prior, target);
      OccurrencesOfAbsent(targets[..j], target);
    }
    OneMore(Occurrences(targets[..j], target), stake);
  }

  /** Once all of the voter's targets are counted, the tally covers `prior + [vote]`. */
  lemma TalliedVote(stakes: map<AccountId, nat>, prior: seq<Voter>, vote: Voter)
    requires PartlyTallied(stakes, prior, vote.targets, vote.stake)
    ensures stakes.Keys == Nominated(prior + [vote])
    ensures forall t :: t in stakes ==> stakes[t] == Aggregate(prior + [vote], t)
  {
    assert (prior + [vote])[..|prior|] == prior;
  }

  /** The inner loop of `SortedTargets::from_voters`: add `vote`'s stake to the map once for
      each target it lists. */
  method AddVote(stakes: map<AccountId, nat>, vote: Voter, ghost prior: seq<Voter>)
    returns (updated: map<AccountId, nat>)
    requires stakes.Keys == Nominated(prior)
    requires forall t :: t in stakes ==> stakes[t] == Aggregate(prior, t)
    ensures updated.Keys == Nominated(prior + [vote])
    ensures forall t :: t in updated ==> updated[t] == Aggregate(prior + [vote], t)
  {
    updated := stakes;
    assert vote.targets[..0] == [];
    for j := 0 to |vote.targets|
      invariant PartlyTallied(updated, prior, vote.targets[..j], vote.stake)
    {
      var target := vote.targets[j];
      TallyOneTarget(updated, prior, vote.targets, j, vote.stake);
      var current := if target in updated then updated[target] else 0;
      updated := updated[target := current + vote.stake];
    }
    assert vote.targets[..|vote.targets|] == vote.targets;
    TalliedVote(updated, prior, vote);
  }

  /** The outer loop of `SortedTargets::from_voters`: a map from every nominated target to
      its aggregate stake. */
  method TallyStakes(voters: seq<Voter>) returns (stakes: map<AccountId, nat>)
    ensures stakes.Keys == Nominated(voters)
    ensures forall t :: t in stakes ==> stakes[t] == Aggregate(voters, t)
  {
    stakes := map[];
    for i := 0 to |voters|
      invariant stakes.Keys == Nominated(voters[..i])
      invariant forall t :: t in stakes ==> stakes[t] == Aggregate(voters[..i], t)
    {
      stakes := AddVote(stakes, voters[i], voters[..i]);
      assert voters[..i + 1] == voters[..i] + [voters[i]];
    }
    assert voters[..|voters|] == voters;
  }

  /** `SortedTargets::from_voters`: sums the stake of every voter per listed target in a
      `BTreeMap`, then stably sorts the map's keys by their sum. The result lists every
      nominated target exactly once, by ascending aggregate stake, ties by ascending id. */
  method FromVoters(voters: seq<Voter>) returns (sorted: SortedTargets)
    ensures forall t :: t in sorted.targets <==> t in Nominated(voters)
    ensures |sorted.targets| == |Nominated(voters)|
    ensures forall i, j :: 0 <= i < j < |sorted.targets| ==>
              RanksBefore(voters, sorted.targets[i], sorted.targets[j])
  {
    var stakes := TallyStakes(voters);
    var ranked := RankByStake(stakes);
    RankedByAggregate(voters, stakes, ranked);
    sorted := SortedTargets(ranked);
  }

  /** Ranking the keys of a map that holds every nominated target's aggregate stake ranks the
      nominated targets by aggregate stake. */
  lemma RankedByAggregate(voters: seq<Voter>, stakes: map<AccountId, nat>, ranked: seq<AccountId>)
    requires stakes.Keys == Nominated(voters)
    requires forall t :: t in stakes ==> stakes[t] == Aggregate(voters, t)
    requires ranked == RankByStake(stakes)
    ensures forall t :: t in ranked <==> t in Nominated(voters)
    ensures |ranked| == |Nominated(voters)|
    ensures forall i, j :: 0 <= i < j < |ranked| ==> RanksBefore(voters, ranked[i], ranked[j])
  {
    assert |stakes| == |stakes.Keys|;
  }

  /** The keys of the stake map in `BTreeMap` order, stably sorted by their stake
      (`sort_by_key(|key| map.get(key))`): each key once, by ascending stake, ties by
      ascending key. */
  function RankByStake(stakes: map<AccountId, nat>): (ranked: seq<AccountId>)
    ensures forall t :: t in ranked <==> t in stakes
    ensures |ranked| == |stakes|
    ensures forall i, j :: 0 <= i < j < |ranked| ==>
              ranked[i] in stakes && ranked[j] in stakes &&
              (stakes[ranked[i]] < stakes[ranked[j]] ||
               (stakes[ranked[i]] == stakes[ranked[j]] && ranked[i] < ranked[j]))
  {
    var keys := AscendingKeys(stakes.Keys);
    var stakeOf := (k: AccountId) => if k in stakes then stakes[k] else 0;
    var ranked := SortByKey(keys, stakeOf);
    SortByKeyIsLex(keys, stakeOf, k => k);
    assert forall t :: t in ranked <==> t in multiset(keys);
    ranked
  }

  /** The index at which Pareto splits `len` ranked targets: `(len as f32 * 0.8) as usize`. */
  function ParetoSplit(len: nat): (split: nat)
    ensures split <= len
    ensures len >= 2 ==> 0 < split < len
    ensures len < 2 ==> split == 0
  {
    4 * len / 5
  }

  /** The loop both arms of `share_distribution` run: push `(target, share)` for each
      target in order. */
  method PushShares(targets: seq<AccountId>, share: u64) returns (shares: seq<(AccountId, u64)>)
    ensures |shares| == |targets|
    ensures forall i :: 0 <= i < |shares| ==> shares[i] == (targets[i], share)
  {
    shares := [];
    for k := 0 to |targets|
      invariant |shares| == k
      invariant forall i :: 0 <= i < k ==> shares[i] == (targets[i], share)
    {
      shares := shares + [(targets[k], share)];
    }
  }

  /** `(weight as f32 * 0.2) as u64`, in integers. */
  function TwentyPercent(weight: u64): u64
  {
    weight / 5
  }

  /** `(weight as f32 * 0.8) as u64`, in integers. */
  function EightyPercent(weight: u64): u64
  {
    4 * weight / 5
  }

  lemma PercentagesFit(weight: u64)
    ensures TwentyPercent(weight) + EightyPercent(weight) <= weight
  {
    assert weight == 5 * (weight / 5) + weight % 5;
    assert 4 * weight == 5 * (4 * weight / 5) + (4 * weight) % 5;
  }

  /** `total` divided among `parts` equal shares, rounding down. */
  function EqualShare(total: nat, parts: nat): nat
    requires parts > 0
  {
    total / parts
  }

  /** The amount Pareto gives the target at position `i` of `len` ranked targets. */
  function ParetoShare(weight: u64, len: nat, i: nat): nat
    requires len >= 2
  {
    var split := ParetoSplit(len);
    if i < split then EqualShare(TwentyPercent(weight), split)
    else EqualShare(EightyPercent(weight), len - split)
  }

  /** The ProRata arm of `share_distribution`: every ranked target gets `weight / len`, in
      ranked order; no targets is a division by zero. At most `weight` is handed out, and
      less than one unit per target is lost to rounding. */
  method ProRataShares(targets: seq<AccountId>, weight: u64)
    returns (r: Result<seq<(AccountId, u64)>, ArithmeticError>)
    ensures r.Success? <==> |targets| > 0
    ensures r.Success? ==> |r.value| == |targets|
    ensures r.Success? ==> forall i :: 0 <= i < |r.value| ==>
              r.value[i] == (targets[i], weight / |targets|)
    ensures r.Success? ==> DistributionTotal(r.value) <= weight < DistributionTotal(r.value) + |targets|
  {
    if |targets| == 0 {
      return Failure(DivisionByZero);
    }
    var share := weight / |targets|;
    var shares := PushShares(targets, share);
    UniformSharesFit(shares, weight);
    return Success(shares);
  }

  /** Two uniform parts sharing 20% and 80% of `weight` hand out at most `weight`. */
  lemma ParetoTotalFits(bottom: seq<(AccountId, u64)>, top: seq<(AccountId, u64)>, weight: u64)
    requires |bottom| > 0 && |top| > 0
    requires forall i :: 0 <= i < |bottom| ==> bottom[i].1 == EqualShare(TwentyPercent(weight), |bottom|)
    requires forall i :: 0 <= i < |top| ==> top[i].1 == EqualShare(EightyPercent(weight), |top|)
    ensures DistributionTotal(bottom + top) <= weight
  {
    DistributionTotalAppend(bottom, top);
    UniformSharesFit(bottom, TwentyPercent(weight));
    UniformSharesFit(top, EightyPercent(weight));
    PercentagesFit(weight);
  }

  /** The Pareto arm of `share_distribution`: the first 80% of the ranked targets (by
      position) share 20% of the weight equally and the rest share 80% equally, in ranked
      order. With fewer than two targets the first part is empty and its division by zero
      aborts. At most `weight` is handed out. */
  method ParetoShares(targets: seq<AccountId>, weight: u64)
    returns (r: Result<seq<(AccountId, u64)>, ArithmeticError>)
    ensures r.Success? <==> |targets| >= 2
    ensures r.Success? ==> |r.value| == |targets|
    ensures r.Success? ==> forall i :: 0 <= i < |r.value| ==>
              r.value[i] == (targets[i], ParetoShare(weight, |targets|, i))
    ensures r.Success? ==> DistributionTotal(r.value) <= weight
  {
    var split := ParetoSplit(|targets|);
    var bottomEighty, topTwenty := targets[..split], targets[split..];
    var twentyTotalShare := TwentyPercent(weight);
    if |bottomEighty| == 0 {
      return Failure(DivisionByZero);
    }
    var twentyShare := EqualShare(twentyTotalShare, |bottomEighty|);
    var eightyTotalShare := EightyPercent(weight);
    if |topTwenty| == 0 {
      return Failure(DivisionByZero);
    }
    var eightyShare := EqualShare(eightyTotalShare, |topTwenty|);
    var bottomShares := PushShares(bottomEighty, twentyShare);
    var topShares := PushShares(topTwenty, eightyShare);
    ParetoTotalFits(bottomShares, topShares, weight);
    var shares := bottomShares + topShares;
    forall i | 0 <= i < |shares|
      ensures shares[i] == (targets[i], ParetoShare(weight, |targets|, i))
    {
      if i < split {
        assert shares[i] == bottomShares[i];
      } else {
        assert shares[i] == topShares[i - split];
      }
    }
    return Success(shares);
  }


  /** `share_distribution`: one `(target, amount)` pair per ranked target, in ranked order,
      by the chosen policy. */
  method DistributeShares(sortedTargets: SortedTargets, weight: u64, distribution: ShareDistribution)
    returns (r: Result<seq<(AccountId, u64)>, ArithmeticError>)
    ensures r.Success? ==> |r.value| == |sortedTargets.targets|
    ensures r.Success? ==> forall i :: 0 <= i < |r.value| ==> r.value[i].0 == sortedTargets.targets[i]
    ensures r.Success? ==> DistributionTotal(r.value) <= weight
    ensures r.Success? && distribution.ProRata? ==> forall i :: 0 <= i < |r.value| ==>
              r.value[i].1 == weight / |sortedTargets.targets|
    ensures r.Success? && distribution.Pareto? && |sortedTargets.targets| >= 2 ==>
              forall i :: 0 <= i < |r.value| ==>
                r.value[i].1 == ParetoShare(weight, |sortedTargets.targets|, i)
    ensures distribution.ProRata? ==> (r.Success? <==> |sortedTargets.targets| > 0)
    ensures distribution.Pareto? ==> (r.Success? <==> |sortedTargets.targets| >= 2)
  {
    match distribution
    case ProRata =>
      r := ProRataShares(sortedTargets.targets, weight);
    case Pareto =>
      r := ParetoShares(sortedTargets.targets, weight);
  }

  /** The voter list of the module's tests: five voters over targets 1 to 4. */
  function ExampleVoters(): seq<Voter>
  {
    [Voter(1, 20, [1, 2]), Voter(2, 10, [3]), Voter(3, 10, [1, 3]), Voter(4, 10, [4, 3]),
     Voter(5, 10, [1, 3])]
  }

  lemma AppendVoter(voters: seq<Voter>, v: Voter, t: AccountId)
    ensures Nominated(voters + [v]) == Nominated(voters) + Listed(v.targets)
    ensures Aggregate(voters + [v], t) == Aggregate(voters, t) + Occurrences(v.targets, t) * v.stake
  {
    assert (voters + [v])[..|voters|] == voters;
  }

  /** How often each of the example targets occurs in each example voter's list. */
  lemma ExampleOccurrences()
    ensures Occurrences([1, 2], 1) == 1 && Occurrences([1, 2], 2) == 1
    ensures Occurrences([1, 2], 3) == 0 && Occurrences([1, 2], 4) == 0
    ensures Occurrences([3], 3) == 1 && Occurrences([3], 1) == 0
    ensures Occurrences([3], 2) == 0 && Occurrences([3], 4) == 0
    ensures Occurrences([1, 3], 1) == 1 && Occurrences([1, 3], 3) == 1
    ensures Occurrences([1, 3], 2) == 0 && Occurrences([1, 3], 4) == 0
    ensures Occurrences([4, 3], 4) == 1 && Occurrences([4, 3], 3) == 1
    ensures Occurrences([4, 3], 1) == 0 && Occurrences([4, 3], 2) == 0
  {
    assert [1, 2][..1] == [1] && [1, 3][..1] == [1] && [4, 3][..1] == [4];
    assert [1][..0] == [] && [3][..0] == [] && [4][..0] == [];
  }

  lemma ExampleAggregateOf(t: AccountId)
    ensures Aggregate(ExampleVoters(), t) ==
              20 * Occurrences([1, 2], t) + 10 * Occurrences([3], t) + 10 * Occurrences([1, 3], t)
              + 10 * Occurrences([4, 3], t) + 10 * Occurrences([1, 3], t)
  {
    var v1, v2, v3 := Voter(1, 20, [1, 2]), Voter(2, 10, [3]), Voter(3, 10, [1, 3]);
    var v4, v5 := Voter(4, 10, [4, 3]), Voter(5, 10, [1, 3]);
    assert ExampleVoters() == [v1, v2, v3, v4] + [v5];
    assert [v1, v2, v3, v4] == [v1, v2, v3] + [v4];
    assert [v1, v2, v3] == [v1, v2] + [v3];
    assert [v1, v2] == [v1] + [v2];
    assert [v1] == [] + [v1];
    AppendVoter([], v1, t);
    AppendVoter([v1], v2, t);
    AppendVoter([v1, v2], v3, t);
    AppendVoter([v1, v2, v3], v4, t);
    AppendVoter([v1, v2, v3, v4], v5, t);
  }

  lemma ExampleNominated()
    ensures Nominated(ExampleVoters()) == {1, 2, 3, 4}
  {
    var v1, v2, v3 := Voter(1, 20, [1, 2]), Voter(2, 10, [3]), Voter(3, 10, [1, 3]);
    var v4, v5 := Voter(4, 10, [4, 3]), Voter(5, 10, [1, 3]);
    assert ExampleVoters() == [v1, v2, v3, v4] + [v5];
    assert [v1, v2, v3, v4] == [v1, v2, v3] + [v4];
    assert [v1, v2, v3] == [v1, v2] + [v3];
    assert [v1, v2] == [v1] + [v2];
    assert [v1] == [] + [v1];
    AppendVoter([], v1, 0);
    AppendVoter([v1], v2, 0);
    AppendVoter([v1, v2], v3, 0);
    AppendVoter([v1, v2, v3], v4, 0);
    AppendVoter([v1, v2, v3, v4], v5, 0);
    assert Listed([1, 2]) == {1, 2} && Listed([3]) == {3} && Listed([1, 3]) == {1, 3};
    assert Listed([4, 3]) == {3, 4};
  }

  lemma ExampleAggregates()
    ensures Nominated(ExampleVoters()) == {1, 2, 3, 4}
    ensures Aggregate(ExampleVoters(), 1) == 40 && Aggregate(ExampleVoters(), 2) == 20
    ensures Aggregate(ExampleVoters(), 3) == 40 && Aggregate(ExampleVoters(), 4) == 10
  {
    ExampleNominated();
    ExampleOccurrences();
    ExampleAggregateOf(1);
    ExampleAggregateOf(2);
    ExampleAggregateOf(3);
    ExampleAggregateOf(4);
  }

  /** The ranking test of `src/utils.rs`: targets 4, 2, 1, 3 (1 and 3 tie at 40 and keep
      ascending order). */
  method TargetVotesWorks() returns (sorted: SortedTargets)
    ensures sorted.targets == [4, 2, 1, 3]
  {
    sorted := FromVoters(ExampleVoters());
    ExampleAggregates();
    var r := sorted.targets;
    assert |r| == 4;
    assert 4 in r && 2 in r && 1 in r && 3 in r;
    assert forall k :: 0 <= k < 4 ==> r[k] in {1, 2, 3, 4};
  }

  /** The distribution test of `src/utils.rs`: weight 100 over the ranked example targets. */
  method DistributionsWork() returns (proRata: Result<seq<(AccountId, u64)>, ArithmeticError>,
                                      pareto: Result<seq<(AccountId, u64)>, ArithmeticError>)
    ensures proRata == Success([(4, 25), (2, 25), (1, 25), (3, 25)])
    ensures pareto == Success([(4, 6), (2, 6), (1, 6), (3, 80)])
  {
    var sorted := TargetVotesWorks();
    proRata := DistributeShares(sorted, 100, ProRata);
    pareto := DistributeShares(sorted, 100, Pareto);
    assert ParetoSplit(4) == 3;
    assert ParetoShare(100, 4, 0) == 6 && ParetoShare(100, 4, 1) == 6;
    assert ParetoShare(100, 4, 2) == 6 && ParetoShare(100, 4, 3) == 80;
    var p, q := proRata.value, pareto.value;
    assert |p| == 4 && p[0] == (4, 25) && p[1] == (2, 25) && p[2] == (1, 25) && p[3] == (3, 25);
    assert |q| == 4 && q[0] == (4, 6) && q[1] == (2, 6) && q[2] == (1, 6) && q[3] == (3, 80);
    assert p == [(4, 25), (2, 25), (1, 25), (3, 25)];
    assert q == [(4, 6), (2, 6), (1, 6), (3, 80)];
  }
}
