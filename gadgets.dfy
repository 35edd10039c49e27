/** The election gadgets of `src/gadgets.rs`: the minimum active stake scan, the DPoS miner
    and the two updates of the election provider's snapshot storage. */
module Gadgets {
  import opened Wrappers
  import opened Ordering
  import opened Primitives
  import opened NposElections

  const NPOS_MAX_ITERATIONS_COEFFICIENT: nat := 2

  // ---------------------------------------------------------------------------------------
  // min_active_stake

  /** `MaxElectingVoters` capped by the number of voters in the list. */
  function MaxAllowedLen(maxElectingVoters: u32, voterCount: nat): (n: nat)
    ensures n <= maxElectingVoters && n <= voterCount
    ensures n == maxElectingVoters || n == voterCount
  {
    if maxElectingVoters < voterCount then maxElectingVoters else voterCount
  }

  /** The bound on voters seen, `2 * max_allowed_len` computed in `u32` (which wraps). */
  function IterationBound(maxAllowed: nat): (b: nat)
    ensures b <= NPOS_MAX_ITERATIONS_COEFFICIENT * maxAllowed
    ensures NPOS_MAX_ITERATIONS_COEFFICIENT * maxAllowed < U32_MODULUS ==>
              b == NPOS_MAX_ITERATIONS_COEFFICIENT * maxAllowed
  {
    AsU32(NPOS_MAX_ITERATIONS_COEFFICIENT * maxAllowed)
  }

  /** The running minimum of the scan over `weights`: the least nonzero weight, or the
      sentinel `u64::MAX` when every weight is zero. */
  function MinNonZero(weights: seq<u64>): (m: u64)
    ensures m != 0
    ensures forall i :: 0 <= i < |weights| && weights[i] != 0 ==> m <= weights[i]
    ensures m == U64_MAX || exists i :: 0 <= i < |weights| && weights[i] == m
  {
    if weights == [] then U64_MAX
    else
      var m := MinNonZero(weights[..|weights| - 1]);
      var w := weights[|weights| - 1];
      if w == 0 then m else if w < m then w else m
  }

  /** How many of `weights` are nonzero: the voters the scan accepts. */
  function NonZeroCount(weights: seq<u64>): nat
  {
    if weights == [] then 0
    else NonZeroCount(weights[..|weights| - 1]) + (if weights[|weights| - 1] == 0 then 0 else 1)
  }

  /** `min_active_stake`. The voter list is given by the weight of each voter in list order.
      The scan reads voters until it has accepted `max_allowed_len` nonzero ones, has seen the
      iteration bound, or runs out of voters; `seen` is how many it read. The result is the
      least nonzero weight among them, or `u64::MAX` if there is none. */
  method MinActiveStake(weights: seq<u64>, maxElectingVoters: u32)
    returns (minActiveStake: u64, ghost seen: nat)
    ensures seen <= |weights|
    ensures seen <= NPOS_MAX_ITERATIONS_COEFFICIENT * MaxAllowedLen(maxElectingVoters, |weights|)
    ensures NonZeroCount(weights[..seen]) <= MaxAllowedLen(maxElectingVoters, |weights|)
    ensures seen == |weights|
            || seen == IterationBound(MaxAllowedLen(maxElectingVoters, |weights|))
            || NonZeroCount(weights[..seen]) == MaxAllowedLen(maxElectingVoters, |weights|)
    ensures forall k :: 0 <= k < seen ==>
              k < IterationBound(MaxAllowedLen(maxElectingVoters, |weights|))
              && NonZeroCount(weights[..k]) < MaxAllowedLen(maxElectingVoters, |weights|)
    ensures minActiveStake == MinNonZero(weights[..seen])
    ensures MaxAllowedLen(maxElectingVoters, |weights|) == 0 ==> minActiveStake == U64_MAX
  {
    var maxAllowed := MaxAllowedLen(maxElectingVoters, |weights|);
    var bound := IterationBound(maxAllowed);
    var allVoters: seq<u64> := [];
    var votersSeen: nat := 0;
    minActiveStake := U64_MAX;
    while |allVoters| < maxAllowed && votersSeen < bound
      invariant votersSeen <= |weights| && votersSeen <= bound
      invariant |allVoters| == NonZeroCount(weights[..votersSeen]) <= maxAllowed
      invariant minActiveStake == MinNonZero(weights[..votersSeen])
      invariant forall k :: 0 <= k < votersSeen ==>
                  k < bound && NonZeroCount(weights[..k]) < maxAllowed
      decreases |weights| - votersSeen
    {
      if votersSeen == |weights| {
        break;
      }
      var voterWeight := weights[votersSeen];
      assert weights[..votersSeen + 1][..votersSeen] == weights[..votersSeen];
      votersSeen := votersSeen + 1;
      if voterWeight == 0 {
        continue;
      }
      minActiveStake := if voterWeight < minActiveStake then voterWeight else minActiveStake;
      allVoters := allVoters + [minActiveStake];
    }
    seen := votersSeen;
  }

  // ---------------------------------------------------------------------------------------
  // mine_dpos

  /** A voter `mine_dpos` does not skip: it has targets and a nonzero stake. */
  predicate IsGoodVoter(v: Voter)
  {
    |v.targets| > 0 && v.stake > 0
  }

  /** The DPoS assignment of a good voter: `stake / targets.len()` to each listed target. */
  function EqualSplit(v: Voter): StakedAssignment
    requires |v.targets| > 0
  {
    StakedAssignment(v.who, seq(|v.targets|, k requires 0 <= k < |v.targets| =>
      (v.targets[k], v.stake / |v.targets|)))
  }

  /** The assignments of `mine_dpos`: one per good voter, in voter order. */
  function DposAssignments(voters: seq<Voter>): seq<StakedAssignment>
  {
    if voters == [] then []
    else
      var v := voters[|voters| - 1];
      DposAssignments(voters[..|voters| - 1]) + (if IsGoodVoter(v) then [EqualSplit(v)] else [])
  }

  /** A good voter's assignment gives out at most its stake, and loses less than one unit
      per target to rounding. */
  lemma EqualSplitFits(v: Voter)
    requires IsGoodVoter(v)
    ensures DistributionTotal(EqualSplit(v).distribution) <= v.stake
    ensures v.stake < DistributionTotal(EqualSplit(v).distribution) + |v.targets|
  {
    UniformSharesFit(EqualSplit(v).distribution, v.stake);
  }

  /** Exactly the good voters contribute, each with its equal split. */
  lemma {:induction false} DposAssignmentsOfGoodVoters(voters: seq<Voter>)
    ensures |DposAssignments(voters)| <= |voters|
    ensures forall a :: a in DposAssignments(voters) ==>
              exists v :: v in voters && IsGoodVoter(v) && a == EqualSplit(v)
    ensures forall v :: v in voters && IsGoodVoter(v) ==> EqualSplit(v) in DposAssignments(voters)
  {
    if voters != [] {
      var prefix := voters[..|voters| - 1];
      DposAssignmentsOfGoodVoters(prefix);
      assert voters == prefix + [voters[|voters| - 1]];
      forall a | a in DposAssignments(voters)
        ensures exists v :: v in voters && IsGoodVoter(v) && a == EqualSplit(v)
      {
        if a in DposAssignments(prefix) {
          var v :| v in prefix && IsGoodVoter(v) && a == EqualSplit(v);
          assert v in voters;
        } else {
          assert voters[|voters| - 1] in voters;
        }
      }
    }
  }

  /** The inner loop of `mine_dpos`: push `(target, share)` for each of the voter's targets. */
  method SplitStake(v: Voter) returns (distribution: seq<(AccountId, nat)>)
    requires IsGoodVoter(v)
    ensures distribution == EqualSplit(v).distribution
  {
    var share := v.stake / |v.targets|;
    distribution := [];
    for k := 0 to |v.targets|
      invariant distribution == EqualSplit(v).distribution[..k]
    {
      distribution := distribution + [(v.targets[k], share)];
    }
    assert EqualSplit(v).distribution[..|v.targets|] == EqualSplit(v).distribution;
  }

  /** The outer loop of `mine_dpos`: skip bad voters, assign the others. */
  method BuildAssignments(voters: seq<Voter>) returns (assignments: seq<StakedAssignment>)
    ensures assignments == DposAssignments(voters)
  {
    assignments := [];
    for i := 0 to |voters|
      invariant assignments == DposAssignments(voters[..i])
    {
      assert voters[..i + 1][..i] == voters[..i];
      var v := voters[i];
      if !IsGoodVoter(v) {
        continue;
      }
      var distribution := SplitStake(v);
      assignments := assignments + [StakedAssignment(v.who, distribution)];
    }
    assert voters[..|voters|] == voters;
  }

  /** Sort the supports by total (stably), reverse, and keep the first `desired`. */
  function SelectWinners(supports: seq<Support>, desired: nat): seq<Support>
  {
    var ranked := Ranked(supports);
    ranked[..if desired < |ranked| then desired else |ranked|]
  }

  /** The supports ranked by total, largest first: the list `rev()` yields. */
  function Ranked(supports: seq<Support>): (ranked: seq<Support>)
    ensures multiset(ranked) == multiset(supports)
    ensures forall i, j :: 0 <= i < j < |ranked| ==> ranked[i].total >= ranked[j].total
  {
    var key := (s: Support) => s.total;
    var sorted := SortByKey(supports, key);
    ReversePermutes(sorted);
    var ranked := Reverse(sorted);
    var n := |ranked|;
    assert forall i, j :: 0 <= i < j < n ==> ranked[i].total >= ranked[j].total by {
      forall i, j | 0 <= i < j < n ensures ranked[i].total >= ranked[j].total {
        assert key(sorted[n - 1 - j]) <= key(sorted[n - 1 - i]);
      }
    }
    ranked
  }

  /** In a list ranked by non-increasing total, whatever lies beyond the first `k` has a total
      no larger than anything among the first `k`. */
  lemma PrefixHoldsLargest(ranked: seq<Support>, k: nat)
    requires k <= |ranked|
    requires forall i, j :: 0 <= i < j < |ranked| ==> ranked[i].total >= ranked[j].total
    ensures forall s, x :: (s in ranked && s !in ranked[..k] && x in ranked[..k]) ==> s.total <= x.total
  {
    forall s, x | s in ranked && s !in ranked[..k] && x in ranked[..k] ensures s.total <= x.total {
      var j :| 0 <= j < |ranked| && ranked[j] == s;
      var i :| 0 <= i < k && ranked[..k][i] == x;
    }
  }

  /** The first `k` of a ranked permutation of `supports` are drawn from `supports` and hold
      totals at least as large as any support left behind. */
  lemma TopOfRanked(supports: seq<Support>, ranked: seq<Support>, k: nat)
    requires multiset(ranked) == multiset(supports) && k <= |ranked|
    requires forall i, j :: 0 <= i < j < |ranked| ==> ranked[i].total >= ranked[j].total
    ensures |ranked| == |supports|
    ensures multiset(ranked[..k]) <= multiset(supports)
    ensures forall s, x :: (s in supports && s !in ranked[..k] && x in ranked[..k]) ==> s.total <= x.total
  {
    assert |multiset(ranked)| == |multiset(supports)|;
    assert ranked == ranked[..k] + ranked[k..];
    assert multiset(ranked) == multiset(ranked[..k]) + multiset(ranked[k..]);
    PrefixHoldsLargest(ranked, k);
    forall s | s in supports ensures s in ranked {
      assert s in multiset(ranked);
    }
  }

  /** The winners are the `desired` supports with the largest totals (all of them if there
      are fewer), in non-increasing order of total, drawn from the supports. */
  lemma WinnersAreTop(supports: seq<Support>, desired: nat)
    ensures |SelectWinners(supports, desired)| == if desired < |supports| then desired else |supports|
    ensures forall i, j :: 0 <= i < j < |SelectWinners(supports, desired)| ==>
              SelectWinners(supports, desired)[i].total >= SelectWinners(supports, desired)[j].total
    ensures multiset(SelectWinners(supports, desired)) <= multiset(supports)
    ensures forall s, x ::
              (s in supports && s !in SelectWinners(supports, desired) && x in SelectWinners(supports, desired))
              ==> s.total <= x.total
  {
    var ranked := Ranked(supports);
    var k := if desired < |ranked| then desired else |ranked|;
    TopOfRanked(supports, ranked, k);
    assert ranked[..k] == SelectWinners(supports, desired);
  }

  /** When the supports come in ascending target order (as `to_supports` yields them), equal
      totals end up in descending target order: the stable sort keeps ascending targets and the
      reversal turns them round. */
  lemma WinnersTieBreak(supports: seq<Support>, desired: nat)
    requires IdsAscending(supports, (s: Support) => s.target)
    ensures forall i, j :: 0 <= i < j < |SelectWinners(supports, desired)| ==>
              SelectWinners(supports, desired)[i].total > SelectWinners(supports, desired)[j].total
              || (SelectWinners(supports, desired)[i].total == SelectWinners(supports, desired)[j].total
                  && SelectWinners(supports, desired)[i].target > SelectWinners(supports, desired)[j].target)
  {
    var key := (s: Support) => s.total;
    var id := (s: Support) => s.target;
    var sorted := SortByKey(supports, key);
    SortByKeyIsLex(supports, key, id);
    var ranked := Reverse(sorted);
    var n := |ranked|;
    forall i, j | 0 <= i < j < n
      ensures ranked[i].total > ranked[j].total
              || (ranked[i].total == ranked[j].total && ranked[i].target > ranked[j].target)
    {
      assert key(sorted[n - 1 - j]) < key(sorted[n - 1 - i])
             || (key(sorted[n - 1 - j]) == key(sorted[n - 1 - i])
                 && id(sorted[n - 1 - j]) < id(sorted[n - 1 - i]));
    }
  }

  /** Every DPoS winner carries the full stake its voters' equal splits give it. */
  lemma WinnersBacked(voters: seq<Voter>, desired: nat)
    ensures forall w :: w in SelectWinners(ToSupports(DposAssignments(voters)), desired) ==>
              w.target in SupportedTargets(DposAssignments(voters))
              && w.total == SupportTotal(DposAssignments(voters), w.target)
  {
    var supports := ToSupports(DposAssignments(voters));
    WinnersAreTop(supports, desired);
    forall w | w in SelectWinners(supports, desired)
      ensures w.target in SupportedTargets(DposAssignments(voters))
              && w.total == SupportTotal(DposAssignments(voters), w.target)
    {
      assert w in multiset(supports);
      var i :| 0 <= i < |supports| && supports[i] == w;
    }
  }

  /** The election snapshot: voters (with stake and targets) and electable targets. */
  datatype RoundSnapshot = RoundSnapshot(voters: seq<Voter>, targets: seq<AccountId>)

  /** The storage items `mine_dpos` unwraps when they are missing. */
  datatype GadgetError = SnapshotMissing | DesiredTargetsMissing

  /** `mine_dpos`, given the stored snapshot and desired target count. */
  method MineDpos(snapshot: Option<RoundSnapshot>, desiredTargets: Option<u32>)
    returns (r: Result<ElectionScore, GadgetError>)
    ensures snapshot.None? ==> r == Failure(SnapshotMissing)
    ensures snapshot.Some? && desiredTargets.None? ==> r == Failure(DesiredTargetsMissing)
    ensures snapshot.Some? && desiredTargets.Some? ==>
              r == Success(Evaluate(SelectWinners(ToSupports(DposAssignments(snapshot.value.voters)),
                                                  desiredTargets.value)))
  {
    if snapshot.None? {
      return Failure(SnapshotMissing);
    }
    if desiredTargets.None? {
      return Failure(DesiredTargetsMissing);
    }
    var voters := snapshot.value.voters;
    var assignments := BuildAssignments(voters);
    var supports := ToSupports(assignments);
    var sorted := SortByKey(supports, (s: Support) => s.total);
    var ranked := Reverse(sorted);
    var count := if desiredTargets.value < |ranked| then desiredTargets.value else |ranked|;
    var winners := ranked[..count];
    return Success(Evaluate(winners));
  }

  // ---------------------------------------------------------------------------------------
  // Snapshot storage

  /** `SolutionOrSnapshotSize`: the voter and target counts of a snapshot. */
  datatype SnapshotMetadata = SnapshotMetadata(voters: u32, targets: u32)

  /** The metadata stored beside a snapshot: its lengths cast with `as u32`. */
  function MetadataOf(snapshot: RoundSnapshot): (m: SnapshotMetadata)
    ensures |snapshot.voters| < U32_MODULUS ==> m.voters == |snapshot.voters|
    ensures |snapshot.targets| < U32_MODULUS ==> m.targets == |snapshot.targets|
  {
    SnapshotMetadata(AsU32(|snapshot.voters|), AsU32(|snapshot.targets|))
  }

  /** Why a snapshot gadget ends without a result: a data provider's error, or one of the
      unwraps the Rust code does on the pallet's results. */
  datatype StoreError = ProviderError(message: string) | CreateSnapshotFailed(message: string) | MetadataMissing

  /** The election provider's storage items the gadgets read and write. */
  class ElectionStore {
    var snapshot: Option<RoundSnapshot>
    var snapshotMetadata: Option<SnapshotMetadata>
    var desiredTargets: Option<u32>
    /** `MaxElectableTargets` of the runtime configuration. */
    const maxElectableTargets: u32
    /** The number of voters in the staking voter list. */
    const voterListCount: nat

    /** A snapshot is stored exactly when its metadata is, and the metadata matches it. The
        storage is taken as it is read, so this is not assumed of a new store; it is an
        invariant the two gadgets preserve (`SnapshotDataOrForce`) or establish
        (`ComputeAndStoreUnboundedSnapshot`). */
    ghost predicate Valid()
      reads this
    {
      (snapshot.Some? <==> snapshotMetadata.Some?)
      && (snapshot.Some? ==> snapshotMetadata.value == MetadataOf(snapshot.value))
    }

    constructor(snapshot: Option<RoundSnapshot>, snapshotMetadata: Option<SnapshotMetadata>,
                desiredTargets: Option<u32>, maxElectableTargets: u32, voterListCount: nat)
      ensures this.snapshot == snapshot && this.snapshotMetadata == snapshotMetadata
      ensures this.desiredTargets == desiredTargets
      ensures this.maxElectableTargets == maxElectableTargets && this.voterListCount == voterListCount
    {
      this.snapshot := snapshot;
      this.snapshotMetadata := snapshotMetadata;
      this.desiredTargets := desiredTargets;
      this.maxElectableTargets := maxElectableTargets;
      this.voterListCount := voterListCount;
    }

    /** `snapshot_data_or_force`. An existing snapshot is left as it is; otherwise the pallet's
        `create_snapshot` runs, whose outcome is `created` (the new snapshot and desired target
        count, or its error). The result is the stored metadata and the snapshot's encoded
        length, as `encodedLen` gives it. */
    method SnapshotDataOrForce(created: Result<(RoundSnapshot, u32), string>,
                               encodedLen: RoundSnapshot -> nat)
      returns (r: Result<(SnapshotMetadata, nat), StoreError>)
      modifies this
      ensures old(snapshot).Some? ==> unchanged(this)
      ensures old(snapshot).Some? && old(snapshotMetadata).Some? ==>
                r == Success((old(snapshotMetadata).value, encodedLen(old(snapshot).value)))
      ensures old(snapshot).Some? && old(snapshotMetadata).None? ==> r == Failure(MetadataMissing)
      ensures old(snapshot).None? && created.Failure? ==>
                unchanged(this) && r == Failure(CreateSnapshotFailed(created.error))
      ensures old(snapshot).None? && created.Success? ==>
                snapshot == Some(created.value.0)
                && snapshotMetadata == Some(MetadataOf(created.value.0))
                && desiredTargets == Some(created.value.1)
                && r == Success((MetadataOf(created.value.0), encodedLen(created.value.0)))
      ensures old(Valid()) ==> Valid()
    {
      if snapshot.None? {
        if created.Failure? {
          return Failure(CreateSnapshotFailed(created.error));
        }
        var (newSnapshot, desired) := created.value;
        snapshot := Some(newSnapshot);
        snapshotMetadata := Some(MetadataOf(newSnapshot));
        desiredTargets := Some(desired);
      }
      if snapshotMetadata.None? {
        return Failure(MetadataMissing);
      }
      r := Success((snapshotMetadata.value, encodedLen(snapshot.value)));
    }

    /** `compute_and_store_unbounded_snapshot`. The old snapshot is killed first; the targets
        are asked for with limit `MaxElectableTargets` and the voters with limit the full
        voter-list count (the providers are `electableTargets` and `electingVoters`). On a
        provider error the store stays without a snapshot. */
    method ComputeAndStoreUnboundedSnapshot(electableTargets: nat -> Result<seq<AccountId>, string>,
                                            electingVoters: nat -> Result<seq<Voter>, string>,
                                            encodedLen: RoundSnapshot -> nat)
      returns (r: Result<(SnapshotMetadata, nat), StoreError>)
      modifies this
      ensures Valid()
      ensures r.Failure? ==> snapshot.None? && snapshotMetadata.None? && desiredTargets.None?
      ensures electableTargets(maxElectableTargets).Failure? ==>
                r == Failure(ProviderError(electableTargets(maxElectableTargets).error))
      ensures electableTargets(maxElectableTargets).Success? && electingVoters(voterListCount).Failure? ==>
                r == Failure(ProviderError(electingVoters(voterListCount).error))
      ensures electableTargets(maxElectableTargets).Success? && electingVoters(voterListCount).Success? ==>
                var stored := RoundSnapshot(electingVoters(voterListCount).value,
                                            electableTargets(maxElectableTargets).value);
                snapshot == Some(stored)
                && snapshotMetadata == Some(MetadataOf(stored))
                && desiredTargets == Some(maxElectableTargets)
                && r == Success((MetadataOf(stored), encodedLen(stored)))
    {
      snapshot, snapshotMetadata, desiredTargets := None, None, None;
      assert snapshot.None?;
      var targetLimit: nat := maxElectableTargets;
      var voterLimit := voterListCount;
      var targets := electableTargets(targetLimit);
      if targets.Failure? {
        return Failure(ProviderError(targets.error));
      }
      var voters := electingVoters(voterLimit);
      if voters.Failure? {
        return Failure(ProviderError(voters.error));
      }
      var metadata := SnapshotMetadata(AsU32(|voters.value|), AsU32(|targets.value|));
      snapshotMetadata := Some(metadata);
      desiredTargets := Some(AsU32(targetLimit));
      snapshot := Some(RoundSnapshot(voters.value, targets.value));
      r := Success((metadata, encodedLen(snapshot.value)));
    }
  }
}
