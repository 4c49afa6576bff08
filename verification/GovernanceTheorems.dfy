/** What the triggers, foreign keys and CHECK of the governance ledger guarantee over every run: which artifacts are
    frozen, which revisions stay reachable, and which references can never decay. */
module GovernanceTheorems {
  import opened Wrappers
  import opened OtherTables
  import opened GovernanceLedger

  // --- The invariant ---

  /** Between 0059 and 0061 the function left behind by a downgrade from 0062 may be in force. */
  predicate TriggerFits(db: Db) {
    if db.revision < 44 then db.trigger == None
    else
      db.trigger == Some(TriggerAt(db.revision))
      || (59 <= db.revision < 62 && db.trigger == Some(TriggerAt(db.revision).(paths := WIDE_PATHS)))
  }

  ghost predicate ReferencesResolve(db: Db) {
    && (forall entry | entry in db.ledger :: entry.artifactId in db.artifacts)
    && (forall e | e in db.events :: db.events[e].artifact.Some? ==> db.events[e].artifact.value in db.artifacts)
    && (forall e | e in db.events :: db.events[e].previous.Some? ==> db.events[e].previous.value in db.events)
    && (forall o | o in db.others :: LinkResolves(db, db.others[o]))
  }

  ghost predicate ParentsResolve(db: Db) {
    && (forall id | id in db.artifacts :: TaskExists(db, db.artifacts[id].taskId))
    && (forall entry | entry in db.ledger :: TaskExists(db, entry.taskId))
    && (forall e | e in db.events :: ParentsExist(db, db.events[e]))
  }

  ghost predicate DedupKeysUnique(db: Db) {
    forall e, f | e in db.events && f in db.events && e != f :: db.events[e].dedupKey != db.events[f].dedupKey
  }

  ghost predicate Consistent(db: Db) {
    && BASE <= db.revision <= HEAD
    && TriggerFits(db)
    && db.eventCheck == (if db.revision < 45 then {} else EventKinds(db.revision))
    && (db.revision < 44 ==> db.ledger == [])
    && (db.revision < 45 ==> db.events == map[])
    && (forall e | e in db.events :: db.events[e].kind in db.eventCheck)
    && FitsAt(db.others, db.revision)
    && ReferencesResolve(db)
    && ParentsResolve(db)
    && DedupKeysUnique(db)
  }

  /** Nothing new is admitted or protected by a revision without its own list. */
  lemma QuietRevision(r: nat)
    requires BASE < r <= HEAD
    ensures r != 45 && !SwapsCheck(r) ==> EventKinds(r) == EventKinds(r - 1)
    ensures r != 44 && !ReplacesTrigger(r) ==> ProtectedKinds(r) == ProtectedKinds(r - 1)
    ensures EventKinds(r - 1) <= EventKinds(r)
  {
  }

  /** Links stay where no artifact goes. */
  lemma LinksStay(db: Db, after: Db)
    requires forall o | o in db.others :: LinkResolves(db, db.others[o])
    requires after.others == db.others && db.artifacts.Keys <= after.artifacts.Keys
    ensures forall o | o in after.others :: LinkResolves(after, after.others[o])
  {
    forall o | o in after.others ensures LinkResolves(after, after.others[o]) {
      assert LinkResolves(db, db.others[o]);
    }
  }

  /** An upgrade fails only on the rows of other tables. */
  lemma UpgradeKeepsConsistent(db: Db)
    requires Consistent(db) && db.revision < HEAD && FitsAt(db.others, db.revision + 1)
    ensures Exec(db, Upgrade).Ok? && Consistent(Exec(db, Upgrade).value)
  {
    QuietRevision(db.revision + 1);
    if db.revision >= 45 {
      LateUpgradeKeepsConsistent(db);
    }
  }

  /** Past 0045 an upgrade changes the revision, the CHECK and perhaps the trigger. */
  lemma UpgradeIsRevision(db: Db)
    requires 45 <= db.revision < HEAD && FitsAt(db.others, db.revision + 1) && db.eventCheck == EventKinds(db.revision)
    requires forall e | e in db.events :: db.events[e].kind in db.eventCheck
    ensures Exec(db, Upgrade) == Ok(db.(revision := db.revision + 1, eventCheck := EventKinds(db.revision + 1),
      trigger := if ReplacesTrigger(db.revision + 1) then Some(TriggerAt(db.revision + 1)) else db.trigger))
  {
    QuietRevision(db.revision + 1);
  }

  lemma LateUpgradeKeepsConsistent(db: Db)
    requires Consistent(db) && 45 <= db.revision < HEAD && FitsAt(db.others, db.revision + 1)
    ensures Exec(db, Upgrade).Ok? && Consistent(Exec(db, Upgrade).value)
  {
    UpgradeIsRevision(db);
    UpgradedConsistent(db);
  }

  lemma UpgradedConsistent(db: Db)
    requires Consistent(db) && 45 <= db.revision < HEAD && FitsAt(db.others, db.revision + 1)
    ensures Consistent(db.(revision := db.revision + 1, eventCheck := EventKinds(db.revision + 1),
      trigger := if ReplacesTrigger(db.revision + 1) then Some(TriggerAt(db.revision + 1)) else db.trigger))
  {
    QuietRevision(db.revision + 1);
  }

  lemma LedgerKeepsConsistent(db: Db)
    requires Consistent(db) && db.revision > BASE && LedgerDowngrade(db, db.revision).Ok?
      && FitsAt(db.others, db.revision - 1)
    ensures Consistent(LedgerDowngrade(db, db.revision).value)
  {
    if db.revision > 45 {
      LateLedgerKeepsConsistent(db);
    } else {
      QuietRevision(db.revision);
    }
  }

  /** Past 0045 the ledgers' share of a downgrade changes the revision, the CHECK and perhaps the trigger. */
  lemma LateLedgerIsRevision(db: Db)
    requires 45 < db.revision <= HEAD && db.eventCheck == EventKinds(db.revision)
    requires (forall e | e in db.events :: db.events[e].kind in db.eventCheck) && LedgerDowngrade(db, db.revision).Ok?
    ensures LedgerDowngrade(db, db.revision).value
      == db.(revision := db.revision - 1, eventCheck := EventKinds(db.revision - 1),
             trigger := if ReplacesTrigger(db.revision) then Some(LegacyTrigger(db.revision)) else db.trigger)
    ensures forall e | e in db.events :: db.events[e].kind in EventKinds(db.revision - 1)
  {
    QuietRevision(db.revision);
  }

  lemma LateLedgerKeepsConsistent(db: Db)
    requires Consistent(db) && db.revision > 45 && LedgerDowngrade(db, db.revision).Ok?
      && FitsAt(db.others, db.revision - 1)
    ensures Consistent(LedgerDowngrade(db, db.revision).value)
  {
    QuietRevision(db.revision);
    LateLedgerIsRevision(db);
    LinksStay(db, LedgerDowngrade(db, db.revision).value);
  }

  /** Dropping the newer tables and columns keeps the invariant. */
  lemma SurvivingConsistent(db: Db)
    requires Consistent(db) && db.revision > BASE && FitsAt(Surviving(db.others, db.revision), db.revision - 1)
    ensures Consistent(db.(others := Surviving(db.others, db.revision)))
  {
    var others := Surviving(db.others, db.revision);
    UpgradeBackFits(db.others, db.revision);
    forall o | o in others ensures LinkResolves(db.(others := others), others[o]) {
      assert LinkResolves(db, db.others[o]);
    }
  }

  lemma DowngradeKeepsConsistent(db: Db)
    requires Consistent(db) && Exec(db, Downgrade).Ok?
    ensures Consistent(Exec(db, Downgrade).value)
  {
    SurvivingConsistent(db);
    LedgerKeepsConsistent(db.(others := Surviving(db.others, db.revision)));
  }

  lemma WriteKeepsConsistent(db: Db, id: OtherId, row: Option<OtherRow>)
    requires Consistent(db) && ExecWriteOther(db, id, row).Ok?
    ensures Consistent(ExecWriteOther(db, id, row).value)
  {
    var after := ExecWriteOther(db, id, row).value;
    OthersReplaced(db, after.others);
  }

  /** Only the other tables changed. */
  lemma OthersReplaced(db: Db, others: Others)
    requires Consistent(db) && FitsAt(others, db.revision) && forall o | o in others :: LinkResolves(db, others[o])
    ensures Consistent(db.(others := others))
  {
    var after := db.(others := others);
    forall o | o in others ensures LinkResolves(after, others[o]) {
      assert LinkResolves(db, others[o]);
    }
  }

  lemma UnlinkedKeeps(db: Db, ids: set<ArtifactId>)
    requires FitsAt(db.others, db.revision) && forall o | o in db.others :: LinkResolves(db, db.others[o])
    ensures FitsAt(Unlinked(db.others, ids), db.revision)
    ensures forall o | o in Unlinked(db.others, ids) ::
      LinkResolves(db.(artifacts := db.artifacts - ids), Unlinked(db.others, ids)[o])
  {
  }

  lemma RemovalKeepsConsistent(db: Db, ids: set<ArtifactId>)
    requires Consistent(db) && Removed(db, ids).Ok?
    ensures Consistent(Removed(db, ids).value)
  {
    UnlinkedKeeps(db, ids);
  }

  lemma DeleteKeepsConsistent(db: Db, id: ArtifactId)
    requires Consistent(db) && ExecDelete(db, id).Ok?
    ensures Consistent(ExecDelete(db, id).value)
  {
    if id in db.artifacts {
      if Suppressed(db.trigger, db.artifacts[id], None) {
        LoggedConsistent(db, BlockedRow(db.trigger.value, id, db.artifacts[id], None));
      } else {
        RemovalKeepsConsistent(db, {id});
      }
    }
  }

  /** The artifacts go first, then the task nothing names any more. */
  lemma DeleteTaskKeepsConsistent(db: Db, task: ParentId)
    requires Consistent(db) && !EventNames(db, Tasks, task) && ExecDeleteTask(db, task).Ok?
    ensures Consistent(ExecDeleteTask(db, task).value)
  {
    var owned := Owned(db, task);
    RemovedBesides(db, owned, db.parents - {(Tasks, task)});
    RemovalKeepsConsistent(db, owned);
    ParentGone(Removed(db, owned).value, Tasks, task);
  }

  lemma RemovedBesides(db: Db, ids: set<ArtifactId>, parents: set<(ParentTable, ParentId)>)
    requires Removed(db.(parents := parents), ids).Ok?
    ensures Removed(db, ids).Ok?
    ensures Removed(db.(parents := parents), ids).value == Removed(db, ids).value.(parents := parents)
    ensures var after := Removed(db, ids).value;
      after.artifacts == db.artifacts - ids && after.ledger == db.ledger && after.events == db.events
      && after.parents == db.parents
  {
    var other := db.(parents := parents);
    assert forall id :: LedgerRefers(other, id) <==> LedgerRefers(db, id);
    assert forall id :: EventRefers(other, id) <==> EventRefers(db, id);
  }

  lemma ParentGone(db: Db, table: ParentTable, id: ParentId)
    requires Consistent(db) && !EventNames(db, table, id)
    requires table == Tasks ==> Owned(db, id) == {} && !LedgerNamesTask(db, id)
    ensures Consistent(db.(parents := db.parents - {(table, id)}))
  {
    var after := db.(parents := db.parents - {(table, id)});
    forall a | a in db.artifacts ensures TaskExists(after, db.artifacts[a].taskId) {
      assert a !in Owned(db, id) || table != Tasks;
    }
    forall entry | entry in db.ledger ensures TaskExists(after, entry.taskId) {
    }
    forall e | e in db.events ensures ParentsExist(after, db.events[e]) {
    }
    LinksStay(db, after);
  }

  lemma DeleteParentKeepsConsistent(db: Db, table: ParentTable, id: ParentId)
    requires Consistent(db) && ExecDeleteParent(db, table, id).Ok?
    ensures Consistent(ExecDeleteParent(db, table, id).value)
  {
    if (table, id) in db.parents {
      if table == Tasks {
        DeleteTaskKeepsConsistent(db, id);
      } else {
        ParentGone(db, table, id);
      }
    }
  }

  /** Another ledger row. */
  lemma LoggedConsistent(db: Db, entry: LedgerRow)
    requires Consistent(db) && db.revision >= 44
    requires entry.artifactId in db.artifacts && TaskExists(db, entry.taskId)
    ensures Consistent(db.(ledger := db.ledger + [entry]))
  {
    var after := db.(ledger := db.ledger + [entry]);
    LinksStay(db, after);
  }

  /** An artifact row written in place or under another key that nothing refers to yet. */
  lemma WrittenConsistent(db: Db, gone: set<ArtifactId>, id: ArtifactId, row: ArtifactRow)
    requires Consistent(db) && TaskExists(db, row.taskId)
    requires forall a | a in gone && a != id :: !LedgerRefers(db, a) && !EventRefers(db, a) && !Links(db.others, {a})
    ensures Consistent(db.(artifacts := (db.artifacts - gone)[id := row]))
  {
    var after := db.(artifacts := (db.artifacts - gone)[id := row]);
    forall o | o in db.others ensures LinkResolves(after, db.others[o]) {
      assert LinkResolves(db, db.others[o]);
      forall a | a in gone && a != id ensures !LinksTo(db.others[o], {a}) {
        assert !Links(db.others, {a});
      }
    }
  }

  lemma UpdateKeepsConsistent(db: Db, id: ArtifactId, newId: ArtifactId, row: ArtifactRow)
    requires Consistent(db) && ExecUpdate(db, id, newId, row).Ok?
    ensures Consistent(ExecUpdate(db, id, newId, row).value)
  {
    if id in db.artifacts {
      if Suppressed(db.trigger, db.artifacts[id], Some(row)) {
        LoggedConsistent(db, BlockedRow(db.trigger.value, id, db.artifacts[id], Some(row)));
      } else {
        WrittenConsistent(db, {id}, newId, row);
      }
    }
  }

  lemma InsertEventKeepsConsistent(db: Db, id: EventId, event: GovernanceEvent)
    requires Consistent(db) && ExecInsertEvent(db, id, event).Ok?
    ensures Consistent(ExecInsertEvent(db, id, event).value)
  {
    var after := db.(events := db.events[id := event]);
    LinksStay(db, after);
    forall e | e in after.events ensures ParentsExist(after, after.events[e]) {
      assert ParentsExist(db, after.events[e]);
    }
  }

  lemma ParentAdded(db: Db, parent: (ParentTable, ParentId))
    requires Consistent(db)
    ensures Consistent(db.(parents := db.parents + {parent}))
  {
    var after := db.(parents := db.parents + {parent});
    LinksStay(db, after);
  }

  lemma RowsKeepConsistent(db: Db, statement: Statement)
    requires Consistent(db) && Exec(db, statement).Ok?
    requires statement.InsertArtifact? || statement.InsertLedgerRow? || statement.ChangeLedgerRow?
      || statement.ChangeEvent? || statement.InsertParent?
    ensures Consistent(Exec(db, statement).value)
  {
    match statement
    case InsertArtifact(id, row) => WrittenConsistent(db, {}, id, row);
    case InsertLedgerRow(entry) => LoggedConsistent(db, entry);
    case InsertParent(table, id) => ParentAdded(db, (table, id));
    case _ =>
  }

  /** Every statement keeps the invariant. */
  lemma StatementKeepsConsistent(db: Db, statement: Statement)
    requires Consistent(db) && Exec(db, statement).Ok?
    ensures Consistent(Exec(db, statement).value)
  {
    match statement
    case Upgrade => UpgradeKeepsConsistent(db);
    case WriteOther(id, row) => WriteKeepsConsistent(db, id, row);
    case UpdateArtifact(id, newId, row) => UpdateKeepsConsistent(db, id, newId, row);
    case DeleteArtifact(id) => DeleteKeepsConsistent(db, id);
    case InsertEvent(id, event) => InsertEventKeepsConsistent(db, id, event);
    case DeleteParent(table, id) => DeleteParentKeepsConsistent(db, table, id);
    case Downgrade => DowngradeKeepsConsistent(db);
    case _ => RowsKeepConsistent(db, statement);
  }

  // --- Properties kept by every statement hold after every run ---

  /** Every state the statements pass through is at this revision or later. */
  ghost predicate StatementsStay(db: Db, statements: seq<Statement>, r: nat)
    decreases |statements|
  {
    db.revision >= r
    && (statements != [] && Exec(db, statements[0]).Ok? ==>
      StatementsStay(Exec(db, statements[0]).value, statements[1..], r))
  }

  /** So is every state of the run, those of rolled-back transactions included. */
  ghost predicate NeverBelow(db: Db, run: seq<Transaction>, r: nat)
    decreases |run|
  {
    db.revision >= r
    && (run != [] ==> StatementsStay(db, run[0].statements, r) && NeverBelow(Commit(db, run[0]), run[1..], r))
  }

  predicate Commits(db: Db, transaction: Transaction) {
    transaction.committed && ExecAll(db, transaction.statements).Ok?
  }

  /** Every state that the run's committed transactions pass through is at this revision or later. */
  ghost predicate RunStays(db: Db, run: seq<Transaction>, r: nat)
    decreases |run|
  {
    db.revision >= r
    && (run != [] ==>
          (Commits(db, run[0]) ==> StatementsStay(db, run[0].statements, r))
            && RunStays(Commit(db, run[0]), run[1..], r))
  }

  /** p survives every statement that starts and ends at revision r or later. */
  ghost predicate Kept(p: Db -> bool, r: nat) {
    forall db, statement | p(db) && db.revision >= r && Exec(db, statement).Ok?
      && Exec(db, statement).value.revision >= r ::
      p(Exec(db, statement).value)
  }

  lemma {:induction false} StatementsKeep(p: Db -> bool, r: nat, db: Db, statements: seq<Statement>)
    requires Kept(p, r) && p(db) && StatementsStay(db, statements, r)
    ensures ExecAll(db, statements).Ok? ==> p(ExecAll(db, statements).value)
    decreases |statements|
  {
    if statements != [] && Exec(db, statements[0]).Ok? {
      StatementsKeep(p, r, Exec(db, statements[0]).value, statements[1..]);
    }
  }

  lemma {:induction false} RunKeeps(p: Db -> bool, r: nat, db: Db, run: seq<Transaction>)
    requires Kept(p, r) && p(db) && RunStays(db, run, r)
    ensures p(Run(db, run))
    decreases |run|
  {
    if run != [] {
      if Commits(db, run[0]) {
        StatementsKeep(p, r, db, run[0].statements);
      }
      RunKeeps(p, r, Commit(db, run[0]), run[1..]);
    }
  }

  lemma {:induction false} StatementsStayAbove(p: Db -> bool, r: nat, db: Db, statements: seq<Statement>)
    requires (forall d | p(d) :: d.revision >= r) && Kept(p, 0) && p(db)
    ensures StatementsStay(db, statements, r)
    ensures ExecAll(db, statements).Ok? ==> p(ExecAll(db, statements).value)
    decreases |statements|
  {
    if statements != [] && Exec(db, statements[0]).Ok? {
      StatementsStayAbove(p, r, Exec(db, statements[0]).value, statements[1..]);
    }
  }

  /** If p is kept by every statement and forces revision r, the whole run stays there and ends in p. */
  lemma {:induction false} RunStaysAbove(p: Db -> bool, r: nat, db: Db, run: seq<Transaction>)
    requires (forall d | p(d) :: d.revision >= r) && Kept(p, 0) && p(db)
    ensures NeverBelow(db, run, r) && RunStays(db, run, r) && p(Run(db, run))
    decreases |run|
  {
    if run != [] {
      StatementsStayAbove(p, r, db, run[0].statements);
      RunStaysAbove(p, r, Commit(db, run[0]), run[1..]);
    }
  }

  /** The invariant holds after every run of every mix of transactions. */
  lemma RunConsistent(db: Db, run: seq<Transaction>)
    requires Consistent(db)
    ensures Consistent(Run(db, run))
  {
    var p := d => Consistent(d);
    forall d, statement | p(d) && Exec(d, statement).Ok? ensures p(Exec(d, statement).value) {
      StatementKeepsConsistent(d, statement);
    }
    RunStaysAbove(p, 0, db, run);
  }

  /** In particular after every run from the empty database. */
  lemma RunFromEmpty(run: seq<Transaction>)
    ensures Consistent(Run(EMPTY, run))
  {
    RunConsistent(EMPTY, run);
  }

  // --- Frozen artifacts ---

  /** The artifact is there, in the state it was frozen in. */
  ghost predicate Holds(db: Db, id: ArtifactId, row: ArtifactRow) {
    Consistent(db) && id in db.artifacts && db.artifacts[id] == row
  }

  lemma ProtectedExactly(kind: ArtifactKind, r: nat)
    requires r <= HEAD
    ensures kind in ProtectedKinds(r) <==> FrozenFrom(kind) <= r
  {
  }

  /** The trigger in force suppresses any write to an artifact of a protected kind. */
  lemma WriteSuppressed(db: Db, id: ArtifactId, target: Option<ArtifactRow>)
    requires Consistent(db) && id in db.artifacts && FrozenFrom(db.artifacts[id].kind) <= db.revision
    ensures Suppressed(db.trigger, db.artifacts[id], target)
  {
    ProtectedExactly(db.artifacts[id].kind, db.revision);
  }

  lemma WriteKeepsFrozen(db: Db, statement: Statement, id: ArtifactId)
    requires Consistent(db) && id in db.artifacts && FrozenFrom(db.artifacts[id].kind) <= db.revision
      && Exec(db, statement).Ok?
    ensures id in Exec(db, statement).value.artifacts && Exec(db, statement).value.artifacts[id] == db.artifacts[id]
  {
    match statement
    case UpdateArtifact(other, newId, row) => UpdateKeepsFrozen(db, other, newId, row, id);
    case DeleteArtifact(other) => DeleteKeepsFrozen(db, other, id);
    case DeleteParent(table, parent) => DeleteParentKeepsFrozen(db, table, parent, id);
    case Upgrade => UpgradeKeepsRows(db);
    case Downgrade => DowngradeLogsNothing(db);
    case _ =>
  }

  lemma UpgradeKeepsRows(db: Db)
    requires Exec(db, Upgrade).Ok?
    ensures Exec(db, Upgrade).value.artifacts == db.artifacts && Exec(db, Upgrade).value.others == db.others
    ensures |Exec(db, Upgrade).value.ledger| <= |db.ledger|
  {
  }

  lemma DowngradeLogsNothing(db: Db)
    requires Exec(db, Downgrade).Ok?
    ensures Exec(db, Downgrade).value.artifacts == db.artifacts
    ensures |Exec(db, Downgrade).value.ledger| <= |db.ledger|
  {
  }

  lemma UpdateKeepsFrozen(db: Db, other: ArtifactId, newId: ArtifactId, row: ArtifactRow, id: ArtifactId)
    requires Consistent(db) && id in db.artifacts && FrozenFrom(db.artifacts[id].kind) <= db.revision
    requires ExecUpdate(db, other, newId, row).Ok?
    ensures var after := ExecUpdate(db, other, newId, row).value;
      id in after.artifacts && after.artifacts[id] == db.artifacts[id]
  {
    WriteSuppressed(db, id, Some(row));
  }

  lemma DeleteKeepsFrozen(db: Db, other: ArtifactId, id: ArtifactId)
    requires Consistent(db) && id in db.artifacts && FrozenFrom(db.artifacts[id].kind) <= db.revision
    requires ExecDelete(db, other).Ok?
    ensures var after := ExecDelete(db, other).value; id in after.artifacts && after.artifacts[id] == db.artifacts[id]
  {
    WriteSuppressed(db, id, None);
  }

  lemma DeleteParentKeepsFrozen(db: Db, table: ParentTable, parent: ParentId, id: ArtifactId)
    requires Consistent(db) && id in db.artifacts && FrozenFrom(db.artifacts[id].kind) <= db.revision
    requires ExecDeleteParent(db, table, parent).Ok?
    ensures var after := ExecDeleteParent(db, table, parent).value;
      id in after.artifacts && after.artifacts[id] == db.artifacts[id]
  {
    WriteSuppressed(db, id, None);
    assert id in Owned(db, parent) <==> db.artifacts[id].taskId == parent;
  }

  lemma StatementKeepsFrozen(db: Db, statement: Statement, id: ArtifactId, row: ArtifactRow)
    requires Holds(db, id, row) && FrozenFrom(row.kind) <= db.revision && Exec(db, statement).Ok?
    ensures Holds(Exec(db, statement).value, id, row)
  {
    StatementKeepsConsistent(db, statement);
    WriteKeepsFrozen(db, statement, id);
  }

  /** While the revision stays at or above the one that introduced its kind, a protected artifact keeps every
      column and never disappears, whatever else runs. */
  lemma FrozenWhileProtected(db: Db, run: seq<Transaction>, id: ArtifactId)
    requires Consistent(db) && id in db.artifacts && RunStays(db, run, FrozenFrom(db.artifacts[id].kind))
    ensures id in Run(db, run).artifacts && Run(db, run).artifacts[id] == db.artifacts[id]
  {
    var row := db.artifacts[id];
    var p := d => Holds(d, id, row);
    forall d, statement | p(d) && d.revision >= FrozenFrom(row.kind) && Exec(d, statement).Ok?
      ensures p(Exec(d, statement).value)
    {
      StatementKeepsFrozen(d, statement, id, row);
    }
    RunKeeps(p, FrozenFrom(row.kind), db, run);
  }

  /** Nor can the task that owns it be deleted meanwhile: the trigger's own ledger row would name a task that is
      gone. */
  lemma FrozenPinsTask(db: Db, run: seq<Transaction>, id: ArtifactId)
    requires Consistent(db) && id in db.artifacts && RunStays(db, run, FrozenFrom(db.artifacts[id].kind))
    ensures TaskExists(Run(db, run), db.artifacts[id].taskId)
  {
    FrozenWhileProtected(db, run, id);
    RunConsistent(db, run);
  }

  /** What an UPDATE or DELETE meets when the trigger stops it. */
  ghost predicate StoppedByTrigger(db: Db, statement: Statement) {
    match statement
    case UpdateArtifact(id, _, row) =>
      id in db.artifacts
      && (FrozenFrom(db.artifacts[id].kind) <= db.revision || FrozenFrom(row.kind) <= db.revision)
    case DeleteArtifact(id) => id in db.artifacts && FrozenFrom(db.artifacts[id].kind) <= db.revision
    case _ => false
  }

  /** An attempt on a protected kind, from either side, succeeds as a statement, changes no artifact, and leaves exactly
      one ledger row naming the artifact, its kind and the attempted one. Hence no UPDATE moves a row into or out of a
      protected kind, and any other statement that adds a ledger row inserted it explicitly. */
  lemma StoppedAttempt(db: Db, statement: Statement)
    requires Consistent(db)
    ensures StoppedByTrigger(db, statement) ==>
      && Exec(db, statement).Ok?
      && (var after := Exec(db, statement).value; var entry := after.ledger[|after.ledger| - 1];
          && after == db.(ledger := db.ledger + [entry])
          && entry.artifactId == statement.id && entry.kind == MutationBlocked
          && entry.frozenKind == Some(db.artifacts[statement.id].kind)
          && entry.attemptedKind == (if statement.UpdateArtifact? then Some(statement.row.kind) else None)
          && entry.operation == (if statement.UpdateArtifact? then UpdateOp else DeleteOp)
          && entry.details == BlockedBecause(ReasonAt(db.revision), ProtectedKinds(db.revision)))
    ensures Exec(db, statement).Ok? && |Exec(db, statement).value.ledger| > |db.ledger| ==>
      StoppedByTrigger(db, statement) || statement.InsertLedgerRow?
    ensures
      (statement.UpdateArtifact? && Exec(db, statement).Ok? && !StoppedByTrigger(db, statement)
       && statement.id in db.artifacts) ==>
      && FrozenFrom(db.artifacts[statement.id].kind) > db.revision && FrozenFrom(statement.row.kind) > db.revision
      && statement.newId in Exec(db, statement).value.artifacts
      && Exec(db, statement).value.artifacts[statement.newId] == statement.row
  {
    match statement
    case UpdateArtifact(id, newId, row) => StoppedUpdate(db, id, newId, row);
    case DeleteArtifact(id) => StoppedDelete(db, id);
    case InsertLedgerRow(_) =>
    case _ =>
      if Exec(db, statement).Ok? {
        NothingElseLogs(db, statement);
      }
  }

  lemma StoppedUpdate(db: Db, id: ArtifactId, newId: ArtifactId, row: ArtifactRow)
    requires Consistent(db)
    ensures StoppedByTrigger(db, UpdateArtifact(id, newId, row)) ==>
      && db.trigger.Some?
      && ExecUpdate(db, id, newId, row)
        == Ok(db.(ledger := db.ledger + [BlockedRow(db.trigger.value, id, db.artifacts[id], Some(row))]))
      && db.trigger.value.reason == ReasonAt(db.revision) && db.trigger.value.kinds == ProtectedKinds(db.revision)
    ensures !StoppedByTrigger(db, UpdateArtifact(id, newId, row)) && ExecUpdate(db, id, newId, row).Ok? ==>
      && ExecUpdate(db, id, newId, row).value.ledger == db.ledger
      && (id in db.artifacts ==> ExecUpdate(db, id, newId, row).value.artifacts == (db.artifacts - {id})[newId := row])
  {
    if id in db.artifacts {
      ProtectedExactly(db.artifacts[id].kind, db.revision);
      ProtectedExactly(row.kind, db.revision);
    }
  }

  lemma StoppedDelete(db: Db, id: ArtifactId)
    requires Consistent(db)
    ensures StoppedByTrigger(db, DeleteArtifact(id)) ==>
      && db.trigger.Some?
      && ExecDelete(db, id) == Ok(db.(ledger := db.ledger + [BlockedRow(db.trigger.value, id, db.artifacts[id], None)]))
      && db.trigger.value.reason == ReasonAt(db.revision) && db.trigger.value.kinds == ProtectedKinds(db.revision)
    ensures !StoppedByTrigger(db, DeleteArtifact(id)) && ExecDelete(db, id).Ok? ==>
      ExecDelete(db, id).value.ledger == db.ledger
  {
    if id in db.artifacts {
      ProtectedExactly(db.artifacts[id].kind, db.revision);
    }
  }

  lemma NothingElseLogs(db: Db, statement: Statement)
    requires Consistent(db) && !statement.UpdateArtifact? && !statement.DeleteArtifact? && !statement.InsertLedgerRow?
    requires Exec(db, statement).Ok?
    ensures |Exec(db, statement).value.ledger| <= |db.ledger|
  {
    match statement
    case Upgrade => UpgradeKeepsRows(db);
    case Downgrade => DowngradeLogsNothing(db);
    case _ =>
  }

  // --- The revision ratchet ---

  ghost predicate Recorded(db: Db, e: EventId, event: GovernanceEvent) {
    Consistent(db) && e in db.events && db.events[e] == event
  }

  lemma AdmittedExactly(kind: EventKind, r: nat)
    requires r <= HEAD
    ensures kind in EventKinds(r) <==> Since(kind) <= r
  {
  }

  /** While the table exists, no statement changes or removes an event. */
  lemma EventStays(db: Db, statement: Statement, e: EventId)
    requires e in db.events && db.revision >= 45 && Exec(db, statement).Ok? && Exec(db, statement).value.revision >= 45
    ensures e in Exec(db, statement).value.events && Exec(db, statement).value.events[e] == db.events[e]
  {
  }

  lemma RevisionMoves(db: Db, statement: Statement)
    requires Exec(db, statement).Ok?
    ensures Exec(db, statement).value.revision >= db.revision - 1
  {
  }

  /** A recorded event whose kind came after 0045 outlives every statement, a downgrade's own clean-up included. */
  lemma StatementKeepsEvent(db: Db, statement: Statement, e: EventId, event: GovernanceEvent)
    requires Recorded(db, e, event) && Since(event.kind) >= 46 && Exec(db, statement).Ok?
    ensures Recorded(Exec(db, statement).value, e, event)
  {
    AdmittedExactly(event.kind, db.revision);
    RevisionMoves(db, statement);
    StatementKeepsAnyEvent(db, statement, e, event);
  }

  lemma StatementKeepsAnyEvent(db: Db, statement: Statement, e: EventId, event: GovernanceEvent)
    requires Recorded(db, e, event) && Exec(db, statement).Ok? && Exec(db, statement).value.revision >= 45
    ensures Recorded(Exec(db, statement).value, e, event)
  {
    assert db.revision >= 45;
    EventStays(db, statement, e);
    StatementKeepsConsistent(db, statement);
  }

  /** Once an event kind introduced at 0046 or later is recorded, the event never changes and no run ever visits a
      revision below the one that introduced it, and so none below r. */
  lemma RatchetFrom(db: Db, run: seq<Transaction>, e: EventId, r: nat)
    requires Consistent(db) && e in db.events && Since(db.events[e].kind) >= 46 && r <= Since(db.events[e].kind)
    ensures NeverBelow(db, run, r) && RunStays(db, run, r)
    ensures e in Run(db, run).events && Run(db, run).events[e] == db.events[e]
  {
    var event := db.events[e];
    var p := d => Recorded(d, e, event);
    forall d, statement | p(d) && Exec(d, statement).Ok? ensures p(Exec(d, statement).value) {
      StatementKeepsEvent(d, statement, e, event);
    }
    forall d | p(d) ensures d.revision >= r {
      AdmittedExactly(event.kind, d.revision);
    }
    RunStaysAbove(p, r, db, run);
  }

  lemma Ratchet(db: Db, run: seq<Transaction>, e: EventId)
    requires Consistent(db) && e in db.events && Since(db.events[e].kind) >= 46
    ensures NeverBelow(db, run, Since(db.events[e].kind))
    ensures e in Run(db, run).events && Run(db, run).events[e] == db.events[e]
  {
    RatchetFrom(db, run, e, Since(db.events[e].kind));
  }

  /** An artifact whose kind was frozen no later than a recorded event's kind was introduced is frozen forever. */
  lemma FrozenForever(db: Db, run: seq<Transaction>, id: ArtifactId, e: EventId)
    requires Consistent(db) && id in db.artifacts && e in db.events
    requires Since(db.events[e].kind) >= 46 && FrozenFrom(db.artifacts[id].kind) <= Since(db.events[e].kind)
    ensures id in Run(db, run).artifacts && Run(db, run).artifacts[id] == db.artifacts[id]
  {
    RatchetFrom(db, run, e, FrozenFrom(db.artifacts[id].kind));
    FrozenWhileProtected(db, run, id);
  }

  // --- The other ratchet: audit bundles of training runs ---

  ghost predicate Bundled(db: Db, o: OtherId, row: OtherRow) {
    Consistent(db) && o in db.others && db.others[o] == row && FromTraining(row)
  }

  lemma BundleSurvives(db: Db, o: OtherId)
    requires Consistent(db) && o in db.others && FromTraining(db.others[o]) && Exec(db, Downgrade).Ok?
    ensures var others := Surviving(db.others, db.revision); o in others && others[o] == db.others[o]
  {
    assert InChecks(db.others[o], db.revision);
    DowngradeFits(db.others, db.revision);
    assert !StopsDowngrade(db.others[o], db.revision);
  }

  lemma OthersAfterDowngrade(db: Db)
    requires Exec(db, Downgrade).Ok?
    ensures Exec(db, Downgrade).value.others == Surviving(db.others, db.revision)
  {
  }

  lemma StatementKeepsBundle(db: Db, statement: Statement, o: OtherId, row: OtherRow)
    requires Bundled(db, o, row) && Exec(db, statement).Ok?
    ensures Bundled(Exec(db, statement).value, o, row)
  {
    StatementKeepsConsistent(db, statement);
    StatementKeepsRow(db, statement, o);
  }

  /** The row itself: append-only, and left alone by the other tables' statements. */
  lemma StatementKeepsRow(db: Db, statement: Statement, o: OtherId)
    requires Consistent(db) && o in db.others && FromTraining(db.others[o]) && Exec(db, statement).Ok?
    ensures var others := Exec(db, statement).value.others; o in others && others[o] == db.others[o]
  {
    match statement
    case Downgrade =>
      BundleSurvives(db, o);
      OthersAfterDowngrade(db);
    case DeleteArtifact(id) => DeleteKeepsRow(db, id, o);
    case DeleteParent(table, id) => DeleteParentKeepsRow(db, table, id, o);
    case WriteOther(id, row) => WriteKeepsRow(db, id, row, o);
    case Upgrade => UpgradeKeepsRows(db);
    case _ =>
  }

  lemma DeleteKeepsRow(db: Db, id: ArtifactId, o: OtherId)
    requires o in db.others && FromTraining(db.others[o]) && ExecDelete(db, id).Ok?
    ensures var others := ExecDelete(db, id).value.others; o in others && others[o] == db.others[o]
  {
  }

  lemma DeleteParentKeepsRow(db: Db, table: ParentTable, id: ParentId, o: OtherId)
    requires o in db.others && FromTraining(db.others[o]) && ExecDeleteParent(db, table, id).Ok?
    ensures var others := ExecDeleteParent(db, table, id).value.others; o in others && others[o] == db.others[o]
  {
  }

  lemma WriteKeepsRow(db: Db, id: OtherId, row: Option<OtherRow>, o: OtherId)
    requires o in db.others && FromTraining(db.others[o]) && ExecWriteOther(db, id, row).Ok?
    ensures var others := ExecWriteOther(db, id, row).value.others; o in others && others[o] == db.others[o]
  {
  }

  /** Once an audit bundle of a training run is recorded, it never changes and no run ever visits a revision below
      0049, and so none below r. */
  lemma BundleRatchet(db: Db, run: seq<Transaction>, o: OtherId, r: nat)
    requires Consistent(db) && o in db.others && FromTraining(db.others[o]) && r <= 49
    ensures NeverBelow(db, run, r) && RunStays(db, run, r)
    ensures o in Run(db, run).others && Run(db, run).others[o] == db.others[o]
  {
    var row := db.others[o];
    var p := d => Bundled(d, o, row);
    forall d, statement | p(d) && Exec(d, statement).Ok? ensures p(Exec(d, statement).value) {
      StatementKeepsBundle(d, statement, o, row);
    }
    forall d | p(d) ensures d.revision >= r {
      assert InChecks(d.others[o], d.revision);
    }
    RunStaysAbove(p, r, db, run);
  }

  /** So it freezes for good every artifact whose kind was protected by 0049, PROV exports among them. */
  lemma BundleFreezes(db: Db, run: seq<Transaction>, id: ArtifactId, o: OtherId)
    requires Consistent(db) && id in db.artifacts && FrozenFrom(db.artifacts[id].kind) <= 49
    requires o in db.others && FromTraining(db.others[o])
    ensures id in Run(db, run).artifacts && Run(db, run).artifacts[id] == db.artifacts[id]
  {
    BundleRatchet(db, run, o, FrozenFrom(db.artifacts[id].kind));
    FrozenWhileProtected(db, run, id);
  }

  // --- References never decay ---

  /** The ledger only grows while it exists. */
  lemma LedgerGrows(db: Db, statement: Statement)
    requires db.revision >= 44 && Exec(db, statement).Ok? && Exec(db, statement).value.revision >= 44
    ensures db.ledger <= Exec(db, statement).value.ledger
  {
  }

  lemma StatementKeepsReference(db: Db, statement: Statement, id: ArtifactId)
    requires db.revision >= 44 && LedgerRefers(db, id) && Exec(db, statement).Ok?
      && Exec(db, statement).value.revision >= 44
    ensures LedgerRefers(Exec(db, statement).value, id)
  {
    LedgerGrows(db, statement);
    var entry :| entry in db.ledger && entry.artifactId == id;
    var k :| 0 <= k < |db.ledger| && db.ledger[k] == entry;
    assert Exec(db, statement).value.ledger[k] == entry;
  }

  /** An artifact named by a ledger row cannot be deleted, protected or not, while the ledger exists. */
  lemma LedgerPinsArtifact(db: Db, run: seq<Transaction>, id: ArtifactId)
    requires Consistent(db) && LedgerRefers(db, id) && RunStays(db, run, 44)
    ensures id in Run(db, run).artifacts && LedgerRefers(Run(db, run), id)
  {
    var p := d => Consistent(d) && LedgerRefers(d, id);
    forall d, statement | p(d) && d.revision >= 44 && Exec(d, statement).Ok? && Exec(d, statement).value.revision >= 44
      ensures p(Exec(d, statement).value)
    {
      StatementKeepsConsistent(d, statement);
      StatementKeepsReference(d, statement, id);
    }
    RunKeeps(p, 44, db, run);
  }

  /** Governance events are append-only, and the artifact, the earlier event and the rows of the seven other tables they
      name stay there: no reference is ever nulled or left dangling while the table exists. */
  lemma EventsNeverDecay(db: Db, run: seq<Transaction>, e: EventId)
    requires Consistent(db) && e in db.events && RunStays(db, run, 45)
    ensures var after := Run(db, run);
      && e in after.events && after.events[e] == db.events[e]
      && (db.events[e].artifact.Some? ==> db.events[e].artifact.value in after.artifacts)
      && (db.events[e].previous.Some? ==> db.events[e].previous.value in after.events)
      && ParentsExist(after, db.events[e])
  {
    var event := db.events[e];
    var p := d => Recorded(d, e, event);
    forall d, statement | p(d) && d.revision >= 45 && Exec(d, statement).Ok? && Exec(d, statement).value.revision >= 45
      ensures p(Exec(d, statement).value)
    {
      StatementKeepsAnyEvent(d, statement, e, event);
    }
    RunKeeps(p, 45, db, run);
  }
}
