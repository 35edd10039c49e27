/** The result row of the election analysis in `src/operations.rs`. */
module Operations {
  import opened Wrappers
  import opened Primitives
  import opened NposElections
  import opened Gadgets

  /** `ActiveEraInfo`: the era index and, once known, its start time. */
  datatype ActiveEraInfo = ActiveEraInfo(index: u32, start: Option<u64>)

  /** A mined solution; only its claimed score and round matter to the row. */
  datatype RawSolution = RawSolution(score: ElectionScore, round: u32)

  /** `ElectionEntryCSV`: one flat CSV row. */
  datatype ElectionEntryCsv = ElectionEntryCsv(
    blockNumber: u32,
    activeEra: u32,
    phragMinStake: nat,
    phragSumStake: nat,
    phragSumStakeSquared: nat,
    phragUnboundMinStake: nat,
    phragUnboundSumStake: nat,
    phragUnboundSumStakeSquared: nat,
    dposMinStake: nat,
    dposSumStake: nat,
    dposSumStakeSquared: nat,
    dposUnboundMinStake: nat,
    dposUnboundSumStake: nat,
    dposUnboundSumStakeSquared: nat,
    voters: u32,
    targets: u32,
    snapshotSize: nat,
    votersUnbound: u32,
    targetsUnbound: u32,
    snapshotSizeUnbound: nat,
    minActiveStake: nat)

  /** The scores a row records, read back from its columns. */
  function PhragScore(row: ElectionEntryCsv): ElectionScore
  {
    ElectionScore(row.phragMinStake, row.phragSumStake, row.phragSumStakeSquared)
  }

  function PhragUnboundScore(row: ElectionEntryCsv): ElectionScore
  {
    ElectionScore(row.phragUnboundMinStake, row.phragUnboundSumStake, row.phragUnboundSumStakeSquared)
  }

  function DposScore(row: ElectionEntryCsv): ElectionScore
  {
    ElectionScore(row.dposMinStake, row.dposSumStake, row.dposSumStakeSquared)
  }

  function DposUnboundScore(row: ElectionEntryCsv): ElectionScore
  {
    ElectionScore(row.dposUnboundMinStake, row.dposUnboundSumStake, row.dposUnboundSumStakeSquared)
  }

  /** `ElectionEntryCSV::new`: every score, count and size can be read back from the row
      unchanged, and the era column is the active era's index, or 0 when there is none. */
  function NewElectionEntry(blockNumber: u32, activeEra: Option<ActiveEraInfo>,
                            phragSolutions: (RawSolution, RawSolution),
                            dposScore: ElectionScore, dposUnboundedScore: ElectionScore,
                            snapshotMetadata: SnapshotMetadata, snapshotSize: nat,
                            snapshotMetadataUnbound: SnapshotMetadata, snapshotSizeUnbound: nat,
                            minActiveStake: nat): (row: ElectionEntryCsv)
    ensures row.blockNumber == blockNumber
    ensures activeEra.Some? ==> row.activeEra == activeEra.value.index
    ensures activeEra.None? ==> row.activeEra == 0
    ensures PhragScore(row) == phragSolutions.0.score
    ensures PhragUnboundScore(row) == phragSolutions.1.score
    ensures DposScore(row) == dposScore
    ensures DposUnboundScore(row) == dposUnboundedScore
    ensures SnapshotMetadata(row.voters, row.targets) == snapshotMetadata
    ensures SnapshotMetadata(row.votersUnbound, row.targetsUnbound) == snapshotMetadataUnbound
    ensures row.snapshotSize == snapshotSize && row.snapshotSizeUnbound == snapshotSizeUnbound
    ensures row.minActiveStake == minActiveStake
  {
    var era := match activeEra
      case Some(info) => info.index
      case None => 0;
    var ElectionScore(phragMin, phragSum, phragSumSquared) := phragSolutions.0.score;
    var ElectionScore(unboundMin, unboundSum, unboundSumSquared) := phragSolutions.1.score;
    var SnapshotMetadata(voters, targets) := snapshotMetadata;
    ElectionEntryCsv(
      blockNumber, era,
      phragMin, phragSum, phragSumSquared,
      unboundMin, unboundSum, unboundSumSquared,
      dposScore.minimalStake, dposScore.sumStake, dposScore.sumStakeSquared,
      dposUnboundedScore.minimalStake, dposUnboundedScore.sumStake, dposUnboundedScore.sumStakeSquared,
      voters, targets, snapshotSize,
      snapshotMetadataUnbound.voters, snapshotMetadataUnbound.targets, snapshotSizeUnbound,
      minActiveStake)
  }
}
