/** Frozen agent-task artifacts: the row trigger and its immutability ledger, the governance-event ledger with its
    CHECK on event kinds, and the migrations that create, widen and narrow them (revisions 0044 to 0076). A revision
    is its number; 43 is the state before the first of them. */
module GovernanceLedger {
  import opened Wrappers
  import opened OtherTables

  type EventId = nat

  const BASE := 43
  const HEAD := 76
  /** Later than every revision of the chain. */
  const NEVER := 77

  // --- Kinds, and the revision that introduced each ---

  datatype ArtifactKind =
    | ProvExport | ActivationGovernance | ReplayClosure | ReplayEscalation | FixturePromotion | WaiverClosure
    | CorpusSnapshot | OtherArtifact(name: string)

  const PROTECTED_KINDS: set<ArtifactKind> :=
    {ProvExport, ActivationGovernance, ReplayClosure, ReplayEscalation, FixturePromotion, WaiverClosure, CorpusSnapshot}

  /** The first revision whose trigger protects the kind. */
  function FrozenFrom(kind: ArtifactKind): nat {
    match kind
    case ProvExport => 44
    case ActivationGovernance => 59
    case ReplayClosure => 62
    case ReplayEscalation => 63
    case FixturePromotion => 64
    case WaiverClosure => 65
    case CorpusSnapshot => 68
    case OtherArtifact(_) => NEVER
  }

  datatype EventKind =
    | OntologyRecorded | OntologyActivated | GraphRecorded | GraphActivated | ReleaseRecorded | ProvExportFrozen
    | TrainingRunMaterialized | CandidateEvaluated | RerankerMaterialized | PolicyActivated | ReplayClosed
    | ReplayEscalated | FixturePromoted | WaiverClosed | CorpusActivated | ReadinessAssessed | DbGateRecorded
    | ClaimFeedbackRecorded | OtherEvent(name: string)

  const EVENT_KINDS: set<EventKind> :=
    {OntologyRecorded, OntologyActivated, GraphRecorded, GraphActivated, ReleaseRecorded, ProvExportFrozen,
     TrainingRunMaterialized, CandidateEvaluated, RerankerMaterialized, PolicyActivated, ReplayClosed, ReplayEscalated,
     FixturePromoted, WaiverClosed, CorpusActivated, ReadinessAssessed, DbGateRecorded, ClaimFeedbackRecorded}

  /** The first revision whose CHECK admits the kind. */
  function Since(kind: EventKind): nat {
    match kind
    case OntologyRecorded | OntologyActivated | GraphRecorded | GraphActivated => 45
    case ReleaseRecorded | ProvExportFrozen => 45
    case TrainingRunMaterialized => 46
    case CandidateEvaluated => 48
    case RerankerMaterialized => 53
    case PolicyActivated => 59
    case ReplayClosed => 62
    case ReplayEscalated => 63
    case FixturePromoted => 64
    case WaiverClosed => 65
    case CorpusActivated => 68
    case ReadinessAssessed => 70
    case DbGateRecorded => 71
    case ClaimFeedbackRecorded => 73
    case OtherEvent(_) => NEVER
  }

  /** The list in the CHECK that a revision's upgrade creates. */
  function EventKinds(revision: nat): set<EventKind> { set k | k in EVENT_KINDS && Since(k) <= revision }

  function ProtectedKinds(revision: nat): set<ArtifactKind> {
    set k | k in PROTECTED_KINDS && FrozenFrom(k) <= revision
  }

  /** Migrations that drop and re-create the CHECK. */
  predicate SwapsCheck(revision: nat) { revision in {46, 48, 53, 59, 62, 63, 64, 65, 68, 70, 71, 73} }

  /** Migrations that replace the trigger function. */
  predicate ReplacesTrigger(revision: nat) { revision in {59, 62, 63, 64, 65, 68} }

  // --- Rows ---

  /** The payload paths the trigger reads a digest from. */
  datatype DigestPath = FrozenExport | ActivationReceipt | ActivationPayload | ReceiptSha | ReplayClosureSha

  /** texts: the text at each digest path that has one. rest: everything else in the document. */
  datatype Payload = Payload(texts: map<DigestPath, string>, rest: string)

  /** The first path that has a text. */
  function Coalesce(payload: Payload, paths: seq<DigestPath>): Option<string> {
    if paths == [] then None
    else if paths[0] in payload.texts then Some(payload.texts[paths[0]])
    else Coalesce(payload, paths[1..])
  }

  datatype ArtifactRow = ArtifactRow(
    taskId: nat, attemptId: Option<nat>, kind: ArtifactKind, storagePath: Option<string>, payload: Payload,
      createdAt: int)

  datatype LedgerKind = MutationBlocked | SupersessionAttempt

  datatype Operation = UpdateOp | DeleteOp | FreezeReuse

  datatype Reason = ProvExportsImmutable | GovernanceArtifactsImmutable

  datatype Details = BlockedBecause(reason: Reason, protectedKinds: set<ArtifactKind>) | OtherDetails(text: string)

  datatype LedgerRow = LedgerRow(
    artifactId: ArtifactId, taskId: nat, kind: LedgerKind, operation: Operation,
    frozenKind: Option<ArtifactKind>, attemptedKind: Option<ArtifactKind>,
    frozenPath: Option<string>, attemptedPath: Option<string>,
    frozenDigest: Option<string>, attemptedDigest: Option<string>, details: Details)

  /** The tables a governance event may name a row of, besides artifacts and events. */
  datatype ParentTable =
    | Tasks | OntologySnapshots | GraphSnapshots | Evaluations | Releases | Manifests | PackageExports

  type ParentId = nat

  /** parents: the keys that are set. */
  datatype GovernanceEvent = GovernanceEvent(
    kind: EventKind, artifact: Option<ArtifactId>, previous: Option<EventId>, parents: map<ParentTable, ParentId>,
    dedupKey: string, body: string)

  /** The trigger function in force. */
  datatype Trigger = Trigger(kinds: set<ArtifactKind>, paths: seq<DigestPath>, reason: Reason)

  const NARROW_PATHS := [FrozenExport]
  const ACTIVATION_PATHS := [FrozenExport, ActivationReceipt, ActivationPayload]
  const WIDE_PATHS := [FrozenExport, ActivationReceipt, ActivationPayload, ReceiptSha, ReplayClosureSha]

  function ReasonAt(revision: nat): Reason {
    if revision < 59 then ProvExportsImmutable else GovernanceArtifactsImmutable
  }

  function PathsAt(revision: nat): seq<DigestPath> {
    if revision < 59 then NARROW_PATHS else if revision < 62 then ACTIVATION_PATHS else WIDE_PATHS
  }

  /** The function an upgrade to the revision installs. */
  function TriggerAt(revision: nat): Trigger {
    Trigger(ProtectedKinds(revision), PathsAt(revision), ReasonAt(revision))
  }

  /** The function a downgrade from the revision installs: 0062 and later generate it with all five paths. */
  function LegacyTrigger(revision: nat): Trigger
    requires revision > BASE
  {
    if revision == 59 then TriggerAt(58) else TriggerAt(revision - 1).(paths := WIDE_PATHS)
  }

  // --- The database ---

  /** trigger: None before 0044. eventCheck: the kinds the CHECK admits, empty before 0045. others: the rows of
      other tables that decide whether a migration or a deletion goes through. parents: the rows that events, and of
      the tasks also artifacts and the ledger, refer to. */
  datatype Db = Db(
    revision: nat,
    artifacts: map<ArtifactId, ArtifactRow>,
    ledger: seq<LedgerRow>,
    events: map<EventId, GovernanceEvent>,
    trigger: Option<Trigger>,
    eventCheck: set<EventKind>,
    others: Others,
    parents: set<(ParentTable, ParentId)>)

  const EMPTY := Db(BASE, map[], [], map[], None, {}, map[], {})

  datatype Rejection =
    | DuplicateKey | MissingReference | StillReferenced | ImmutableRow | CheckViolated | BadDocument
    | NoSuchTable | NoSuchRevision

  /** ChangeLedgerRow and ChangeEvent stand for an UPDATE or a DELETE of that row; WriteOther inserts or updates a
      row of another table, or deletes it when row is None. */
  datatype Statement =
    | InsertArtifact(id: ArtifactId, row: ArtifactRow)
    | UpdateArtifact(id: ArtifactId, newId: ArtifactId, row: ArtifactRow)
    | DeleteArtifact(id: ArtifactId)
    | InsertLedgerRow(entry: LedgerRow)
    | ChangeLedgerRow(index: nat)
    | InsertEvent(eventId: EventId, event: GovernanceEvent)
    | ChangeEvent(eventId: EventId)
    | WriteOther(otherId: OtherId, other: Option<OtherRow>)
    | InsertParent(table: ParentTable, parentId: ParentId)
    | DeleteParent(table: ParentTable, parentId: ParentId)
    | Upgrade
    | Downgrade

  predicate LedgerRefers(db: Db, id: ArtifactId) { exists entry | entry in db.ledger :: entry.artifactId == id }

  predicate EventRefers(db: Db, id: ArtifactId) { exists e | e in db.events :: db.events[e].artifact == Some(id) }

  predicate EventNames(db: Db, table: ParentTable, id: ParentId) {
    exists e | e in db.events :: table in db.events[e].parents && db.events[e].parents[table] == id
  }

  predicate TaskExists(db: Db, id: ParentId) { (Tasks, id) in db.parents }

  predicate LedgerNamesTask(db: Db, id: ParentId) { exists entry | entry in db.ledger :: entry.taskId == id }

  /** The trigger stops an UPDATE that touches a protected kind on either side, and a DELETE of one. */
  predicate Suppressed(trigger: Option<Trigger>, before: ArtifactRow, after: Option<ArtifactRow>) {
    trigger.Some? && (before.kind in trigger.value.kinds || (after.Some? && after.value.kind in trigger.value.kinds))
  }

  /** The ledger row the trigger writes. after: None for a DELETE. */
  function BlockedRow(trigger: Trigger, id: ArtifactId, before: ArtifactRow, after: Option<ArtifactRow>): LedgerRow {
    LedgerRow(id, before.taskId, MutationBlocked, if after.Some? then UpdateOp else DeleteOp,
              Some(before.kind), if after.Some? then Some(after.value.kind) else None,
              before.storagePath, if after.Some? then after.value.storagePath else None,
              Coalesce(before.payload, trigger.paths),
              if after.Some? then Coalesce(after.value.payload, trigger.paths) else None,
              BlockedBecause(trigger.reason, trigger.kinds))
  }

  /** Re-creating the CHECK validates every existing row. */
  function Recheck(db: Db, kinds: set<EventKind>): Result<Db, Rejection> {
    if forall e | e in db.events :: db.events[e].kind in kinds
    then Ok(db.(eventCheck := kinds))
    else Raised(CheckViolated)
  }

  function UpgradeTo(db: Db, revision: nat): Result<Db, Rejection> {
    if revision > HEAD then Raised(NoSuchRevision)
    else if !FitsAt(db.others, revision) then Raised(CheckViolated)
    else if revision == 44 then Ok(db.(revision := 44, ledger := [], trigger := Some(TriggerAt(44))))
    else if revision == 45 then Ok(db.(revision := 45, events := map[], eventCheck := EventKinds(45)))
    else
      match if SwapsCheck(revision) then Recheck(db, EventKinds(revision)) else Ok(db)
      case Raised(rejection) => Raised(rejection)
      case Ok(checked) =>
        Ok(checked.(revision := revision,
                    trigger := if ReplacesTrigger(revision) then Some(TriggerAt(revision)) else db.trigger))
  }

  /** Revisions 71 and 73 also delete the events of the kind they introduced, one row trigger per row. */
  predicate CleanupRejected(db: Db, revision: nat) {
    || (revision == 71 && exists e | e in db.events :: db.events[e].kind == DbGateRecorded)
    || (revision == 73 && exists e | e in db.events :: db.events[e].kind == ClaimFeedbackRecorded)
  }

  /** The ledgers' share of a downgrade. */
  function LedgerDowngrade(db: Db, revision: nat): Result<Db, Rejection>
    requires revision > BASE
  {
    if revision == 44 then Ok(db.(revision := 43, ledger := [], trigger := None))
    else if revision == 45 then Ok(db.(revision := 44, events := map[], eventCheck := {}))
    else if CleanupRejected(db, revision) then Raised(ImmutableRow)
    else
      match if SwapsCheck(revision) then Recheck(db, EventKinds(revision - 1)) else Ok(db)
      case Raised(rejection) => Raised(rejection)
      case Ok(checked) =>
        Ok(checked.(revision := revision - 1,
                    trigger := if ReplacesTrigger(revision) then Some(LegacyTrigger(revision)) else db.trigger))
  }

  /** The other tables come first. */
  function DowngradeFrom(db: Db, revision: nat): Result<Db, Rejection> {
    if revision <= BASE then Raised(NoSuchRevision)
    else if Unwritable(db.others, revision) then Raised(BadDocument)
    else if !FitsAt(Surviving(db.others, revision), revision - 1) then Raised(CheckViolated)
    else LedgerDowngrade(db.(others := Surviving(db.others, revision)), revision)
  }

  function ExecUpdate(db: Db, id: ArtifactId, newId: ArtifactId, row: ArtifactRow): Result<Db, Rejection> {
    if id !in db.artifacts then Ok(db)
    else if Suppressed(db.trigger, db.artifacts[id], Some(row)) then
      Ok(db.(ledger := db.ledger + [BlockedRow(db.trigger.value, id, db.artifacts[id], Some(row))]))
    else if newId != id && newId in db.artifacts then Raised(DuplicateKey)
    else if newId != id && (LedgerRefers(db, id) || EventRefers(db, id) || Links(db.others, {id}))
      then Raised(StillReferenced)
    else if row.taskId != db.artifacts[id].taskId && !TaskExists(db, row.taskId) then Raised(MissingReference)
    else Ok(db.(artifacts := (db.artifacts - {id})[newId := row]))
  }

  /** Deleting artifacts the trigger lets go: the ledger's key restricts, nulling an event's key is an UPDATE that the
      event trigger rejects, and from 0075 on so does the trigger of claim-feedback rows. */
  function Removed(db: Db, ids: set<ArtifactId>): Result<Db, Rejection> {
    if exists id | id in ids :: LedgerRefers(db, id) then Raised(StillReferenced)
    else if exists id | id in ids :: EventRefers(db, id) then Raised(ImmutableRow)
    else if db.revision >= 75 && Links(db.others, ids) then Raised(ImmutableRow)
    else Ok(db.(artifacts := db.artifacts - ids, others := Unlinked(db.others, ids)))
  }

  function ExecDelete(db: Db, id: ArtifactId): Result<Db, Rejection> {
    if id !in db.artifacts then Ok(db)
    else if Suppressed(db.trigger, db.artifacts[id], None) then
      Ok(db.(ledger := db.ledger + [BlockedRow(db.trigger.value, id, db.artifacts[id], None)]))
    else Removed(db, {id})
  }

  function Owned(db: Db, task: ParentId): set<ArtifactId> {
    set id | id in db.artifacts && db.artifacts[id].taskId == task
  }

  predicate OwnsProtected(db: Db, task: ParentId) {
    exists id | id in Owned(db, task) :: Suppressed(db.trigger, db.artifacts[id], None)
  }

  /** Deleting a task deletes its artifacts. The ledger's key to tasks restricts; and where the trigger stops the
      deletion of an artifact, its ledger row names the task that is just gone, which that key rejects. */
  function ExecDeleteTask(db: Db, task: ParentId): Result<Db, Rejection> {
    if OwnsProtected(db, task) then Raised(MissingReference)
    else if LedgerNamesTask(db, task) then Raised(StillReferenced)
    else Removed(db.(parents := db.parents - {(Tasks, task)}), Owned(db, task))
  }

  /** Nulling an event's key is an UPDATE that the event trigger rejects. */
  function ExecDeleteParent(db: Db, table: ParentTable, id: ParentId): Result<Db, Rejection> {
    if (table, id) !in db.parents then Ok(db)
    else if EventNames(db, table, id) then Raised(ImmutableRow)
    else if table == Tasks then ExecDeleteTask(db, id)
    else Ok(db.(parents := db.parents - {(table, id)}))
  }

  predicate DedupKeyTaken(db: Db, key: string) { exists e | e in db.events :: db.events[e].dedupKey == key }

  predicate ParentsExist(db: Db, event: GovernanceEvent) {
    forall table | table in event.parents :: (table, event.parents[table]) in db.parents
  }

  function ExecInsertEvent(db: Db, id: EventId, event: GovernanceEvent): Result<Db, Rejection> {
    if db.revision < 45 then Raised(NoSuchTable)
    else if event.kind !in db.eventCheck then Raised(CheckViolated)
    else if id in db.events || DedupKeyTaken(db, event.dedupKey) then Raised(DuplicateKey)
    else if event.artifact.Some? && event.artifact.value !in db.artifacts then Raised(MissingReference)
    else if event.previous.Some? && event.previous.value != id
      && event.previous.value !in db.events then Raised(MissingReference)
    else if !ParentsExist(db, event) then Raised(MissingReference)
    else Ok(db.(events := db.events[id := event]))
  }

  predicate LinkResolves(db: Db, row: OtherRow) {
    row.ClaimFeedbackRow? && row.artifact.Some? ==> row.artifact.value in db.artifacts
  }

  function ExecWriteOther(db: Db, id: OtherId, row: Option<OtherRow>): Result<Db, Rejection> {
    if id in db.others && !Changeable(db.others[id], row, db.revision) then Raised(ImmutableRow)
    else if row.None? then Ok(db.(others := db.others - {id}))
    else if TableSince(row.value) > db.revision then Raised(NoSuchTable)
    else if !InChecks(row.value, db.revision) then Raised(CheckViolated)
    else if !LinkResolves(db, row.value) then Raised(MissingReference)
    else Ok(db.(others := db.others[id := row.value]))
  }

  function Exec(db: Db, statement: Statement): Result<Db, Rejection> {
    match statement
    case InsertArtifact(id, row) =>
      if id in db.artifacts then Raised(DuplicateKey)
      else if !TaskExists(db, row.taskId) then Raised(MissingReference)
      else Ok(db.(artifacts := db.artifacts[id := row]))
    case UpdateArtifact(id, newId, row) => ExecUpdate(db, id, newId, row)
    case DeleteArtifact(id) => ExecDelete(db, id)
    case InsertLedgerRow(entry) =>
      if db.revision < 44 then Raised(NoSuchTable)
      else if entry.artifactId !in db.artifacts || !TaskExists(db, entry.taskId) then Raised(MissingReference)
      else Ok(db.(ledger := db.ledger + [entry]))
    case ChangeLedgerRow(index) =>
      if db.revision < 44 then Raised(NoSuchTable) else if index < |db.ledger| then Raised(ImmutableRow) else Ok(db)
    case InsertEvent(id, event) => ExecInsertEvent(db, id, event)
    case ChangeEvent(id) =>
      if db.revision < 45 then Raised(NoSuchTable) else if id in db.events then Raised(ImmutableRow) else Ok(db)
    case WriteOther(id, row) => ExecWriteOther(db, id, row)
    case InsertParent(table, id) =>
      if (table, id) in db.parents then Raised(DuplicateKey) else Ok(db.(parents := db.parents + {(table, id)}))
    case DeleteParent(table, id) => ExecDeleteParent(db, table, id)
    case Upgrade => UpgradeTo(db, db.revision + 1)
    case Downgrade => DowngradeFrom(db, db.revision)
  }

  // --- Transactions and runs ---

  /** committed: false when the transaction is rolled back for a reason outside these tables. */
  datatype Transaction = Transaction(statements: seq<Statement>, committed: bool)

  /** A rejected statement ends the transaction. */
  function ExecAll(db: Db, statements: seq<Statement>): Result<Db, Rejection>
    decreases |statements|
  {
    if statements == [] then Ok(db)
    else
      match Exec(db, statements[0])
      case Raised(rejection) => Raised(rejection)
      case Ok(next) => ExecAll(next, statements[1..])
  }

  /** A migration command and every other transaction takes effect as a whole or not at all. */
  function Commit(db: Db, transaction: Transaction): Db {
    match ExecAll(db, transaction.statements)
    case Raised(_) => db
    case Ok(after) => if transaction.committed then after else db
  }

  function Run(db: Db, transactions: seq<Transaction>): Db
    decreases |transactions|
  {
    if transactions == [] then db else Run(Commit(db, transactions[0]), transactions[1..])
  }
}
