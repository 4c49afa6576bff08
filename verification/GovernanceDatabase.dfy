/** The same tables updated in place: the row triggers, the referential actions and the migration steps, each proved
    to do what the ledger's transition function says. */
module GovernanceDatabase {
  import opened Wrappers
  import opened OtherTables
  import opened GovernanceLedger

  class Database {
    var revision: nat
    var artifacts: map<ArtifactId, ArtifactRow>
    var ledger: seq<LedgerRow>
    var events: map<EventId, GovernanceEvent>
    var trigger: Option<Trigger>
    var eventCheck: set<EventKind>
    var others: Others
    var parents: set<(ParentTable, ParentId)>

    function State(): Db
      reads this
    {
      Db(revision, artifacts, ledger, events, trigger, eventCheck, others, parents)
    }

    constructor ()
      ensures State() == EMPTY
    {
      revision, artifacts, ledger, events := BASE, map[], [], map[];
      trigger, eventCheck, others, parents := None, {}, map[], {};
    }

    /** Puts a saved state back. */
    method Restore(saved: Db)
      modifies this
      ensures State() == saved
    {
      revision, artifacts, ledger := saved.revision, saved.artifacts, saved.ledger;
      events, trigger, eventCheck := saved.events, saved.trigger, saved.eventCheck;
      others, parents := saved.others, saved.parents;
    }

    /** The function that runs before an UPDATE or DELETE of an artifact row. attempted: the new id and columns,
        None for a DELETE. The outcome is the row to go on with; None skips the row. */
    method PreventFrozenMutation(id: ArtifactId, attempted: Option<(ArtifactId, ArtifactRow)>)
      returns (outcome: Option<(ArtifactId, ArtifactRow)>)
      requires id in artifacts && trigger.Some?
      modifies this`ledger
      ensures var columns := if attempted.Some? then Some(attempted.value.1) else None;
        if Suppressed(trigger, artifacts[id], columns) then
          && ledger == old(ledger) + [BlockedRow(trigger.value, id, artifacts[id], columns)]
          && outcome == (if attempted.Some? then Some((id, artifacts[id])) else None)
        else
          && ledger == old(ledger)
          && outcome == (if attempted.Some? then attempted else Some((id, artifacts[id])))
    {
      var before := artifacts[id];
      var kinds := trigger.value.kinds;
      if attempted.Some? {
        var after := attempted.value.1;
        if before.kind in kinds || after.kind in kinds {
          ledger := ledger + [LedgerRow(
            id, before.taskId, MutationBlocked, UpdateOp, Some(before.kind), Some(after.kind), before.storagePath,
            after.storagePath, Coalesce(before.payload, trigger.value.paths),
              Coalesce(after.payload, trigger.value.paths),
            BlockedBecause(trigger.value.reason, kinds))];
          return Some((id, before));
        }
      }
      if attempted.None? && before.kind in kinds {
        ledger := ledger + [LedgerRow(
          id, before.taskId, MutationBlocked, DeleteOp, Some(before.kind), None, before.storagePath, None,
          Coalesce(before.payload, trigger.value.paths), None, BlockedBecause(trigger.value.reason, kinds))];
        return None;
      }
      if attempted.None? {
        return Some((id, before));
      }
      return attempted;
    }

    method InsertArtifact(id: ArtifactId, row: ArtifactRow) returns (result: Result<(), Rejection>)
      modifies this
      ensures Does(old(State()), GovernanceLedger.InsertArtifact(id, row), result, State())
    {
      if id in artifacts { return Raised(DuplicateKey); }
      if !TaskExists(State(), row.taskId) { return Raised(MissingReference); }
      artifacts := artifacts[id := row];
      result := Ok(());
    }

    method UpdateArtifact(id: ArtifactId, newId: ArtifactId, row: ArtifactRow) returns (result: Result<(), Rejection>)
      modifies this
      ensures Does(old(State()), GovernanceLedger.UpdateArtifact(id, newId, row), result, State())
    {
      if id !in artifacts { return Ok(()); }
      var outcome := Some((newId, row));
      if trigger.Some? {
        outcome := PreventFrozenMutation(id, outcome);
      }
      var (keyAfter, rowAfter) := outcome.value;
      if keyAfter != id {
        if keyAfter in artifacts { return Raised(DuplicateKey); }
        if LedgerRefers(State(), id) || EventRefers(State(), id) || Links(others, {id}) {
          return Raised(StillReferenced);
        }
      }
      if rowAfter.taskId != artifacts[id].taskId && !TaskExists(State(), rowAfter.taskId) {
        return Raised(MissingReference);
      }
      artifacts := (artifacts - {id})[keyAfter := rowAfter];
      assert keyAfter == id && rowAfter == old(artifacts[id]) ==> artifacts == old(artifacts);
      result := Ok(());
    }

    method DeleteArtifact(id: ArtifactId) returns (result: Result<(), Rejection>)
      modifies this
      ensures Does(old(State()), GovernanceLedger.DeleteArtifact(id), result, State())
    {
      if id !in artifacts { return Ok(()); }
      var outcome := Some((id, artifacts[id]));
      if trigger.Some? {
        outcome := PreventFrozenMutation(id, None);
      }
      if outcome.None? { return Ok(()); }
      result := RemoveArtifacts({id});
    }

    /** The referential actions of deleting these rows. */
    method RemoveArtifacts(ids: set<ArtifactId>) returns (result: Result<(), Rejection>)
      modifies this`artifacts, this`others
      ensures match Removed(old(State()), ids)
        case Raised(rejection) => result == Raised(rejection) && State() == old(State())
        case Ok(next) => result == Ok(()) && State() == next
    {
      if exists id | id in ids :: LedgerRefers(State(), id) { return Raised(StillReferenced); }
      if exists id | id in ids :: EventRefers(State(), id) { return Raised(ImmutableRow); }
      if revision >= 75 && Links(others, ids) { return Raised(ImmutableRow); }
      artifacts := artifacts - ids;
      others := Unlinked(others, ids);
      result := Ok(());
    }

    method InsertParent(table: ParentTable, id: ParentId) returns (result: Result<(), Rejection>)
      modifies this
      ensures Does(old(State()), GovernanceLedger.InsertParent(table, id), result, State())
    {
      if (table, id) in parents { return Raised(DuplicateKey); }
      parents := parents + {(table, id)};
      result := Ok(());
    }

    /** Deletes a row that events may name; a task takes its artifacts with it, or stays if one of them cannot go. */
    method DeleteParent(table: ParentTable, id: ParentId) returns (result: Result<(), Rejection>)
      modifies this
      ensures Does(old(State()), GovernanceLedger.DeleteParent(table, id), result, State())
    {
      if (table, id) !in parents { return Ok(()); }
      if EventNames(State(), table, id) { return Raised(ImmutableRow); }
      if table != Tasks {
        parents := parents - {(table, id)};
        return Ok(());
      }
      if OwnsProtected(State(), id) { return Raised(MissingReference); }
      if LedgerNamesTask(State(), id) { return Raised(StillReferenced); }
      var owned := Owned(State(), id);
      parents := parents - {(table, id)};
      result := RemoveArtifacts(owned);
      if result.Raised? {
        parents := parents + {(table, id)};
        assert State() == old(State());
      }
    }

    method InsertLedgerRow(entry: LedgerRow) returns (result: Result<(), Rejection>)
      modifies this
      ensures Does(old(State()), GovernanceLedger.InsertLedgerRow(entry), result, State())
    {
      if revision < 44 { return Raised(NoSuchTable); }
      if entry.artifactId !in artifacts || !TaskExists(State(), entry.taskId) { return Raised(MissingReference); }
      ledger := ledger + [entry];
      result := Ok(());
    }

    method InsertEvent(id: EventId, event: GovernanceEvent) returns (result: Result<(), Rejection>)
      modifies this
      ensures Does(old(State()), GovernanceLedger.InsertEvent(id, event), result, State())
    {
      if revision < 45 { return Raised(NoSuchTable); }
      if event.kind !in eventCheck { return Raised(CheckViolated); }
      if id in events || DedupKeyTaken(State(), event.dedupKey) { return Raised(DuplicateKey); }
      if event.artifact.Some? && event.artifact.value !in artifacts { return Raised(MissingReference); }
      if event.previous.Some? && event.previous.value != id && event.previous.value !in events {
        return Raised(MissingReference);
      }
      if !ParentsExist(State(), event) { return Raised(MissingReference); }
      events := events[id := event];
      result := Ok(());
    }

    /** Inserts, updates or deletes a row of another table. */
    method WriteOther(id: OtherId, row: Option<OtherRow>) returns (result: Result<(), Rejection>)
      modifies this
      ensures Does(old(State()), GovernanceLedger.WriteOther(id, row), result, State())
    {
      if id in others && !Changeable(others[id], row, revision) { return Raised(ImmutableRow); }
      if row.None? {
        others := others - {id};
      } else {
        if TableSince(row.value) > revision { return Raised(NoSuchTable); }
        if !InChecks(row.value, revision) { return Raised(CheckViolated); }
        if !LinkResolves(State(), row.value) { return Raised(MissingReference); }
        others := others[id := row.value];
      }
      result := Ok(());
    }

    /** Creates the CHECK; an existing row outside it makes that fail. */
    method CreateCheck(kinds: set<EventKind>) returns (created: bool)
      modifies this`eventCheck
      ensures created == forall e | e in events :: events[e].kind in kinds
      ensures eventCheck == if created then kinds else old(eventCheck)
    {
      var left := events.Keys;
      while left != {}
        invariant left <= events.Keys
        invariant forall e | e in events.Keys - left :: events[e].kind in kinds
      {
        var e :| e in left;
        if events[e].kind !in kinds { return false; }
        left := left - {e};
      }
      eventCheck := kinds;
      created := true;
    }

    method Upgrade() returns (result: Result<(), Rejection>)
      modifies this
      ensures Does(old(State()), GovernanceLedger.Upgrade, result, State())
    {
      var next := revision + 1;
      if next > HEAD { return Raised(NoSuchRevision); }
      if !FitsAt(others, next) { return Raised(CheckViolated); }
      if next == 44 {
        ledger := [];
        trigger := Some(TriggerAt(44));
      } else if next == 45 {
        events := map[];
        eventCheck := EventKinds(45);
      } else {
        if SwapsCheck(next) {
          var created := CreateCheck(EventKinds(next));
          if !created { return Raised(CheckViolated); }
        }
        if ReplacesTrigger(next) {
          trigger := Some(TriggerAt(next));
        }
      }
      revision := next;
      result := Ok(());
    }

    /** The ledgers' share of a downgrade. */
    method DowngradeLedgers() returns (result: Result<(), Rejection>)
      requires revision > BASE
      modifies this
      ensures match LedgerDowngrade(old(State()), old(revision))
        case Raised(rejection) => result == Raised(rejection) && State() == old(State())
        case Ok(next) => result == Ok(()) && State() == next
    {
      if revision == 44 {
        trigger := None;
        ledger := [];
      } else if revision == 45 {
        events := map[];
        eventCheck := {};
      } else {
        if CleanupRejected(State(), revision) { return Raised(ImmutableRow); }
        if SwapsCheck(revision) {
          var created := CreateCheck(EventKinds(revision - 1));
          if !created { return Raised(CheckViolated); }
          assert Recheck(old(State()), EventKinds(revision - 1)) == Ok(State());
        }
        if ReplacesTrigger(revision) {
          trigger := Some(LegacyTrigger(revision));
        }
      }
      revision := revision - 1;
      assert LedgerDowngrade(old(State()), old(revision)) == Ok(State());
      result := Ok(());
    }

    /** The other tables first; a rejection by the ledgers undoes what was done to them. */
    method Downgrade() returns (result: Result<(), Rejection>)
      modifies this
      ensures Does(old(State()), GovernanceLedger.Downgrade, result, State())
    {
      if revision <= BASE { return Raised(NoSuchRevision); }
      if Unwritable(others, revision) { return Raised(BadDocument); }
      var saved := others;
      others := Surviving(others, revision);
      if !FitsAt(others, revision - 1) {
        others := saved;
        return Raised(CheckViolated);
      }
      ghost var before := old(State());
      assert State() == before.(others := Surviving(before.others, before.revision));
      assert Exec(before, GovernanceLedger.Downgrade) == LedgerDowngrade(State(), before.revision);
      result := DowngradeLedgers();
      if result.Raised? {
        others := saved;
        assert State() == before;
      }
    }

    method Execute(statement: Statement) returns (result: Result<(), Rejection>)
      modifies this
      ensures Does(old(State()), statement, result, State())
    {
      match statement
      case InsertArtifact(id, row) => result := InsertArtifact(id, row);
      case UpdateArtifact(id, newId, row) => result := UpdateArtifact(id, newId, row);
      case DeleteArtifact(id) => result := DeleteArtifact(id);
      case InsertLedgerRow(entry) => result := InsertLedgerRow(entry);
      case ChangeLedgerRow(index) =>
        result := if revision < 44 then Raised(NoSuchTable) else if index < |ledger| then Raised(ImmutableRow)
          else Ok(());
      case InsertEvent(id, event) => result := InsertEvent(id, event);
      case ChangeEvent(id) =>
        result := if revision < 45 then Raised(NoSuchTable) else if id in events then Raised(ImmutableRow) else Ok(());
      case WriteOther(id, row) => result := WriteOther(id, row);
      case InsertParent(table, id) => result := InsertParent(table, id);
      case DeleteParent(table, id) => result := DeleteParent(table, id);
      case Upgrade => result := Upgrade();
      case Downgrade => result := Downgrade();
    }

    /** Runs the statements until one is rejected; a rejected or uncommitted transaction leaves no trace. */
    method RunTransaction(transaction: Transaction)
      modifies this
      ensures State() == Commit(old(State()), transaction)
    {
      var saved := State();
      var statements := transaction.statements;
      assert statements[0..] == statements;
      for i := 0 to |statements|
        invariant ExecAll(saved, statements) == ExecAll(State(), statements[i..])
      {
        assert statements[i..][0] == statements[i] && statements[i..][1..] == statements[i + 1..];
        var result := Execute(statements[i]);
        if result.Raised? {
          Restore(saved);
          return;
        }
      }
      if !transaction.committed {
        Restore(saved);
      }
    }
  }

  /** The result and the state after a statement are the ones the transition function gives; a rejection changes
      nothing. */
  predicate Does(before: Db, statement: Statement, result: Result<(), Rejection>, after: Db) {
    match Exec(before, statement)
    case Raised(rejection) => result == Raised(rejection) && after == before
    case Ok(next) => result == Ok(()) && after == next
  }
}
