/** The tables beside the two ledgers whose rows decide whether a migration between 0044 and 0076 can run, and
    whether an artifact can be deleted. A row carries the columns those decisions read. */
module OtherTables {
  import opened Wrappers

  type ArtifactId = nat
  type OtherId = nat

  /** Kinds of judgment sets and source types of judgments: the original ones, and the two added later. */
  datatype Origin = Original | AlertCorpus | ClaimFeedback

  datatype BundleSource = Releases | TrainingRuns

  /** AuditBundle: the two source columns, whether the release is set and is the source, and the training run if set: is
      it the source? ReadinessGate: whether the CHECKs of 0072 hold. ReplayRun: whether its source is claim feedback and
      whether its summary is an object. */
  datatype OtherRow =
    | AuditBundle(kind: BundleSource, table: BundleSource, releaseMatches: bool, run: Option<bool>)
    | JudgmentSet(setKind: Origin)
    | Judgment(sourceType: Origin)
    | HardNegative(sourceType: Origin)
    | ReadinessGate(consistent: bool)
    | ClaimFeedbackRow(artifact: Option<ArtifactId>)
    | ReplayRun(claimFeedback: bool, readable: bool)

  type Others = map<OtherId, OtherRow>

  // --- What a revision admits ---

  /** The revision that creates the table; 43 for the tables that are older. */
  function TableSince(row: OtherRow): nat {
    match row
    case JudgmentSet(_) => 46
    case Judgment(_) => 46
    case HardNegative(_) => 46
    case ReadinessGate(_) => 71
    case ClaimFeedbackRow(_) => 73
    case AuditBundle(_, _, _, _) => 43
    case ReplayRun(_, _) => 43
  }

  /** The CHECK of 0050. */
  predicate SourceConsistent(row: OtherRow)
    requires row.AuditBundle?
  {
    || (row.kind == Releases && row.table == Releases && row.releaseMatches && row.run == None)
    || (row.kind == TrainingRuns && row.table == TrainingRuns && row.run == Some(true))
  }

  predicate OriginAdmitted(origin: Origin, alertSince: nat, feedbackSince: nat, r: nat) {
    (origin == AlertCorpus ==> r >= alertSince) && (origin == ClaimFeedback ==> r >= feedbackSince)
  }

  /** The CHECKs in force at revision r. */
  predicate InChecks(row: OtherRow, r: nat) {
    match row
    case AuditBundle(kind, table, _, run) =>
      (r < 49 ==> kind == Releases && table == Releases && run == None) && (r >= 50 ==> SourceConsistent(row))
    case JudgmentSet(setKind) => OriginAdmitted(setKind, 69, 74, r)
    case Judgment(sourceType) => OriginAdmitted(sourceType, 69, 73, r)
    case HardNegative(sourceType) => OriginAdmitted(sourceType, 69, 73, r)
    case ReadinessGate(consistent) => r >= 72 ==> consistent
    case ClaimFeedbackRow(_) => true
    case ReplayRun(claimFeedback, _) => claimFeedback ==> r >= 76
  }

  predicate FitsAt(others: Others, r: nat) {
    forall o | o in others :: TableSince(others[o]) <= r && InChecks(others[o], r)
  }

  // --- What statements may do to a row ---

  /** The append-only triggers: audit bundles never change, readiness gates keep their evidence from 0072 on, claim
      feedback is never deleted and from 0075 on keeps a link once it has one. after: None for a DELETE. */
  predicate Changeable(before: OtherRow, after: Option<OtherRow>, r: nat) {
    match before
    case AuditBundle(_, _, _, _) => after == Some(before)
    case ReadinessGate(_) => r >= 72 ==> after == Some(before)
    case ClaimFeedbackRow(artifact) =>
      after.Some? && after.value.ClaimFeedbackRow? && (r >= 75 && artifact.Some? ==> after == Some(before))
    case _ => true
  }

  predicate LinksTo(row: OtherRow, ids: set<ArtifactId>) {
    row.ClaimFeedbackRow? && row.artifact.Some? && row.artifact.value in ids
  }

  predicate Links(others: Others, ids: set<ArtifactId>) { exists o | o in others :: LinksTo(others[o], ids) }

  /** ON DELETE SET NULL. */
  function Unlinked(others: Others, ids: set<ArtifactId>): Others {
    map o | o in others :: if LinksTo(others[o], ids) then ClaimFeedbackRow(None) else others[o]
  }

  // --- What a downgrade does to the rows ---

  /** 0049 drops a column of audit bundles; 0076 turns claim-feedback replay runs into feedback runs. */
  function Downgraded(row: OtherRow, r: nat): OtherRow {
    if row.AuditBundle? && r == 49 then row.(run := None)
    else if row.ReplayRun? && r == 76 then row.(claimFeedback := false)
    else row
  }

  /** The rows after the downgrade from r has dropped its tables and columns, before any CHECK is re-created. */
  function Surviving(others: Others, r: nat): Others {
    map o | o in others && TableSince(others[o]) < r :: Downgraded(others[o], r)
  }

  /** 0076 writes into the summary of each such run, which must be a document it can write into. */
  predicate Unwritable(others: Others, r: nat) {
    r == 76 && exists o | o in others :: others[o].ReplayRun? && others[o].claimFeedback && !others[o].readable
  }

  // --- Which rows stop which migration ---

  predicate FromTraining(row: OtherRow) { row.AuditBundle? && (row.kind == TrainingRuns || row.table == TrainingRuns) }

  /** The row makes the downgrade from r fail. */
  predicate StopsDowngrade(row: OtherRow, r: nat) {
    match row
    case AuditBundle(_, _, _, _) => r == 49 && FromTraining(row)
    case JudgmentSet(setKind) => (r == 69 && setKind == AlertCorpus) || (r == 74 && setKind == ClaimFeedback)
    case Judgment(sourceType) => (r == 69 && sourceType == AlertCorpus) || (r == 73 && sourceType == ClaimFeedback)
    case HardNegative(sourceType) => (r == 69 && sourceType == AlertCorpus) || (r == 73 && sourceType == ClaimFeedback)
    case ReplayRun(claimFeedback, readable) => r == 76 && claimFeedback && !readable
    case _ => false
  }

  predicate StopsUpgrade(row: OtherRow, r: nat) {
    match row
    case AuditBundle(_, _, _, _) => r == 50 && !SourceConsistent(row)
    case ReadinessGate(consistent) => r == 72 && !consistent
    case _ => false
  }

  predicate NoneStopsDowngrade(others: Others, r: nat) { forall o | o in others :: !StopsDowngrade(others[o], r) }

  predicate NoneStopsUpgrade(others: Others, r: nat) { forall o | o in others :: !StopsUpgrade(others[o], r) }

  /** The row is the same after the downgrade from r and the upgrade back. */
  predicate Outlasts(row: OtherRow, r: nat) {
    match row
    case AuditBundle(_, _, _, run) => r == 49 ==> run == None
    case ReadinessGate(_) => r != 71
    case ClaimFeedbackRow(_) => r != 73
    case ReplayRun(claimFeedback, _) => r == 76 ==> !claimFeedback
    case _ => r != 46
  }

  lemma RowDowngrade(row: OtherRow, r: nat)
    requires r > 43 && TableSince(row) <= r && InChecks(row, r)
    ensures !StopsDowngrade(row, r) <==>
      !(r == 76 && row.ReplayRun? && row.claimFeedback && !row.readable)
      && (TableSince(row) < r ==> InChecks(Downgraded(row, r), r - 1))
    ensures Outlasts(row, r) <==> TableSince(row) < r && Downgraded(row, r) == row
  {
  }

  /** The CHECKs a downgrade re-creates hold exactly when no row stops it. */
  lemma DowngradeFits(others: Others, r: nat)
    requires r > 43 && FitsAt(others, r)
    ensures !Unwritable(others, r) && FitsAt(Surviving(others, r), r - 1) <==> NoneStopsDowngrade(others, r)
  {
    forall o | o in others
      ensures !StopsDowngrade(others[o], r) <==>
        !(r == 76 && others[o].ReplayRun? && others[o].claimFeedback && !others[o].readable)
        && (TableSince(others[o]) < r ==> InChecks(Downgraded(others[o], r), r - 1))
    {
      RowDowngrade(others[o], r);
    }
    var after := Surviving(others, r);
    forall o | o in after
      ensures TableSince(after[o]) == TableSince(others[o]) && after[o] == Downgraded(others[o], r)
    {
    }
    if FitsAt(after, r - 1) {
      forall o | o in others && TableSince(others[o]) < r ensures InChecks(Downgraded(others[o], r), r - 1) {
        assert o in after;
      }
    }
  }

  lemma SurvivingKeepsAll(others: Others, r: nat)
    requires r > 43 && FitsAt(others, r)
    ensures Surviving(others, r) == others <==> forall o | o in others :: Outlasts(others[o], r)
  {
    var after := Surviving(others, r);
    forall o | o in others ensures Outlasts(others[o], r) <==> o in after && after[o] == others[o] {
      RowDowngrade(others[o], r);
    }
    assert after.Keys <= others.Keys;
    if forall o | o in others :: Outlasts(others[o], r) {
      assert after.Keys == others.Keys;
    }
  }

  /** The CHECKs an upgrade creates hold exactly when no row stops it. */
  lemma UpgradeFits(others: Others, r: nat)
    requires FitsAt(others, r)
    ensures FitsAt(others, r + 1) <==> NoneStopsUpgrade(others, r + 1)
  {
    forall o | o in others ensures InChecks(others[o], r + 1) <==> !StopsUpgrade(others[o], r + 1) {
    }
  }

  /** What a downgrade leaves behind, the upgrade back accepts. */
  lemma UpgradeBackFits(others: Others, r: nat)
    requires r > 43 && FitsAt(others, r) && FitsAt(Surviving(others, r), r - 1)
    ensures FitsAt(Surviving(others, r), r)
  {
    var after := Surviving(others, r);
    forall o | o in after ensures InChecks(after[o], r) {
      assert after[o] == Downgraded(others[o], r) && InChecks(others[o], r) && InChecks(after[o], r - 1);
    }
  }

  /** What was there before an upgrade, the downgrade back keeps. */
  lemma DowngradeBackFits(others: Others, r: nat)
    requires r >= 43 && FitsAt(others, r)
    ensures !Unwritable(others, r + 1) && Surviving(others, r + 1) == others
  {
    var after := Surviving(others, r + 1);
    assert after.Keys == others.Keys;
  }

  // --- Making the changeable rows harmless ---

  /** An UPDATE after which the row stops no downgrade; an audit bundle admits none. */
  function Harmless(row: OtherRow): OtherRow {
    match row
    case JudgmentSet(_) => JudgmentSet(Original)
    case Judgment(_) => Judgment(Original)
    case HardNegative(_) => HardNegative(Original)
    case ReplayRun(_, readable) => ReplayRun(false, readable)
    case _ => row
  }

  lemma HarmlessIsAllowed(row: OtherRow, r: nat)
    requires TableSince(row) <= r && InChecks(row, r)
    ensures Changeable(row, Some(Harmless(row)), r) && TableSince(Harmless(row)) <= r && InChecks(Harmless(row), r)
    ensures forall s :: StopsDowngrade(Harmless(row), s) ==> s == 49 && FromTraining(row)
  {
  }
}
