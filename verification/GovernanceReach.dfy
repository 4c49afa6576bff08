/** The other direction: exactly when a migration runs, when it is undone by its inverse, and when some run can still
    change or remove an artifact. */
module GovernanceReach {
  import opened Wrappers
  import opened OtherTables
  import opened GovernanceLedger
  import opened GovernanceTheorems

  // --- One migration ---

  /** No recorded event has a kind introduced at revision r. */
  predicate NoneSince(db: Db, r: nat) { forall e | e in db.events :: Since(db.events[e].kind) != r }

  /** A downgrade succeeds exactly when no recorded event has the kind this revision introduced (before 0046 the event
      tables are simply dropped) and no row of another table stops it. */
  lemma DowngradeSucceeds(db: Db)
    requires Consistent(db)
    ensures Exec(db, Downgrade).Ok? <==>
      && db.revision > BASE
      && (db.revision <= 45 || NoneSince(db, db.revision))
      && NoneStopsDowngrade(db.others, db.revision)
  {
    if db.revision > BASE {
      DowngradeFits(db.others, db.revision);
      LedgerAllows(db.(others := Surviving(db.others, db.revision)));
    }
  }

  lemma LedgerAllows(db: Db)
    requires BASE < db.revision <= HEAD && forall e | e in db.events :: db.events[e].kind in EventKinds(db.revision)
    ensures LedgerDowngrade(db, db.revision).Ok? <==> db.revision <= 45 || NoneSince(db, db.revision)
  {
    if db.revision > 45 {
      ChecksPassed(db);
      LateDowngradeOk(db, db.revision);
    }
  }

  /** An upgrade below the head fails only at 0050 and 0072, on the rows that violate the CHECKs these add. */
  lemma UpgradeSucceeds(db: Db)
    requires Consistent(db)
    ensures Exec(db, Upgrade).Ok? <==> db.revision < HEAD && NoneStopsUpgrade(db.others, db.revision + 1)
  {
    UpgradeFits(db.others, db.revision);
    if db.revision < HEAD && FitsAt(db.others, db.revision + 1) {
      UpgradeKeepsConsistent(db);
    }
  }

  /** The rows the narrower CHECK refuses are those of the kind the revision introduced. */
  lemma KindRefused(kind: EventKind, r: nat)
    requires BASE < r <= HEAD && kind in EventKinds(r)
    ensures kind in EventKinds(r - 1) <==> Since(kind) != r
    ensures Since(kind) == r && r > 45 ==> SwapsCheck(r)
    ensures Since(kind) == 71 <==> kind == DbGateRecorded
    ensures Since(kind) == 73 <==> kind == ClaimFeedbackRecorded
  {
    AdmittedExactly(kind, r);
    AdmittedExactly(kind, r - 1);
  }

  lemma LateDowngradeOk(db: Db, r: nat)
    requires r > 45
    ensures LedgerDowngrade(db, r).Ok? <==>
      !CleanupRejected(db, r) && (SwapsCheck(r) ==> Recheck(db, EventKinds(r - 1)).Ok?)
  {
  }

  lemma ChecksPassed(db: Db)
    requires 45 < db.revision <= HEAD && forall e | e in db.events :: db.events[e].kind in EventKinds(db.revision)
    ensures Recheck(db, EventKinds(db.revision - 1)).Ok? <==> NoneSince(db, db.revision)
    ensures CleanupRejected(db, db.revision) <==>
      (db.revision == 71 || db.revision == 73) && !NoneSince(db, db.revision)
    ensures !NoneSince(db, db.revision) ==> SwapsCheck(db.revision)
  {
    forall e | e in db.events
      ensures db.events[e].kind in EventKinds(db.revision - 1) <==> Since(db.events[e].kind) != db.revision
      ensures Since(db.events[e].kind) == db.revision ==> SwapsCheck(db.revision)
      ensures Since(db.events[e].kind) == 71 <==> db.events[e].kind == DbGateRecorded
      ensures Since(db.events[e].kind) == 73 <==> db.events[e].kind == ClaimFeedbackRecorded
    {
      KindRefused(db.events[e].kind, db.revision);
    }
  }

  predicate LeftoverPaths(db: Db) {
    59 <= db.revision < 62 && db.trigger == Some(TriggerAt(db.revision).(paths := WIDE_PATHS))
  }

  lemma TriggersDiffer(r: nat)
    requires 59 <= r < 62
    ensures TriggerAt(r) != TriggerAt(r).(paths := WIDE_PATHS)
  {
    assert |ACTIVATION_PATHS| == 3 && |WIDE_PATHS| == 5;
  }

  /** Where an upgrade runs, downgrading again restores every table, the CHECK and the trigger, with one exception: from
      0061 the downgrade of 0062 leaves a trigger that reads five digest paths instead of three. */
  lemma UpgradeThenDowngrade(db: Db)
    requires Consistent(db) && Exec(db, Upgrade).Ok?
    ensures Exec(Exec(db, Upgrade).value, Downgrade).Ok?
    ensures var back := Exec(Exec(db, Upgrade).value, Downgrade).value;
      && back.(trigger := None) == db.(trigger := None)
      && (back == db <==> !(db.revision == 61 && !LeftoverPaths(db)))
  {
    DowngradeBackFits(db.others, db.revision);
    if db.revision >= 45 {
      LateUpgradeThenDowngrade(db);
    } else {
      EarlyUpgradeThenDowngrade(db);
    }
  }

  lemma EarlyUpgradeThenDowngrade(db: Db)
    requires Consistent(db) && db.revision < 45 && Exec(db, Upgrade).Ok?
      && Surviving(db.others, db.revision + 1) == db.others
    ensures Exec(Exec(db, Upgrade).value, Downgrade) == Ok(db)
  {
  }

  lemma LateUpgradeThenDowngrade(db: Db)
    requires Consistent(db) && 45 <= db.revision && Exec(db, Upgrade).Ok?
    requires !Unwritable(db.others, db.revision + 1) && Surviving(db.others, db.revision + 1) == db.others
    ensures Exec(Exec(db, Upgrade).value, Downgrade).Ok?
    ensures var back := Exec(Exec(db, Upgrade).value, Downgrade).value;
      && back.(trigger := None) == db.(trigger := None)
      && (back == db <==> !(db.revision == 61 && !LeftoverPaths(db)))
  {
    var next := db.revision + 1;
    var up := db.(revision := next, eventCheck := EventKinds(next),
                  trigger := if ReplacesTrigger(next) then Some(TriggerAt(next)) else db.trigger);
    UpgradeIsRevision(db);
    DowngradedAgain(db, up);
    TriggerBack(db);
  }

  lemma DowngradedAgain(db: Db, up: Db)
    requires Consistent(db) && 45 <= db.revision < HEAD
    requires !Unwritable(db.others, db.revision + 1) && Surviving(db.others, db.revision + 1) == db.others
    requires up == db.(revision := db.revision + 1, eventCheck := EventKinds(db.revision + 1), trigger := up.trigger)
    ensures Exec(up, Downgrade) == Ok(
      db.(trigger := if ReplacesTrigger(up.revision) then Some(LegacyTrigger(up.revision)) else up.trigger))
  {
    DowngradeIsRevision(up);
  }

  /** The trigger a downgrade leaves behind is the one the upgrade found, but for the digest paths at 0061. */
  lemma TriggerBack(db: Db)
    requires Consistent(db) && 45 <= db.revision < HEAD
    ensures ReplacesTrigger(db.revision + 1) ==>
      (db.trigger == Some(LegacyTrigger(db.revision + 1)) <==> !(db.revision == 61 && !LeftoverPaths(db)))
    ensures db.revision == 61 ==> ReplacesTrigger(db.revision + 1)
  {
    QuietRevision(db.revision + 1);
    if db.revision == 61 {
      TriggersDiffer(61);
    }
  }

  /** With no event of the kind it introduced, and with nothing to lose elsewhere, so does a downgrade. */
  lemma DowngradeIsRevision(db: Db)
    requires 46 <= db.revision <= HEAD && db.eventCheck == EventKinds(db.revision)
    requires forall e | e in db.events :: db.events[e].kind in EventKinds(db.revision - 1)
    requires !Unwritable(db.others, db.revision) && Surviving(db.others, db.revision) == db.others
    requires FitsAt(db.others, db.revision - 1)
    ensures Exec(db, Downgrade) == Ok(db.(revision := db.revision - 1, eventCheck := EventKinds(db.revision - 1),
      trigger := if ReplacesTrigger(db.revision) then Some(LegacyTrigger(db.revision)) else db.trigger))
  {
    QuietRevision(db.revision);
    forall e | e in db.events ensures Since(db.events[e].kind) < db.revision {
      AdmittedExactly(db.events[e].kind, db.revision - 1);
    }
    assert LedgerDowngrade(db, db.revision).Ok?;
  }

  /** The ledgers' share, where the downgrade runs: down and up again. */
  lemma LedgerDownAndUp(db: Db)
    requires Consistent(db) && db.revision > BASE && LedgerDowngrade(db, db.revision).Ok?
    requires FitsAt(db.others, db.revision - 1)
    ensures Exec(LedgerDowngrade(db, db.revision).value, Upgrade).Ok?
    ensures Exec(LedgerDowngrade(db, db.revision).value, Upgrade).value == db <==>
      && (db.revision == 44 ==> db.ledger == [])
      && (db.revision == 45 ==> db.events == map[])
      && (db.revision == 59 ==> !LeftoverPaths(db))
    ensures Exec(LedgerDowngrade(db, db.revision).value, Upgrade).value.others == db.others
  {
    if db.revision <= 45 {
      EarlyLedgerDownAndUp(db);
    } else {
      LateLedgerDownAndUp(db);
    }
  }

  lemma EarlyLedgerDownAndUp(db: Db)
    requires Consistent(db) && BASE < db.revision <= 45
    ensures Exec(LedgerDowngrade(db, db.revision).value, Upgrade) == Ok(
      if db.revision == 44 then db.(ledger := []) else db.(events := map[]))
  {
  }

  lemma LateLedgerDownAndUp(db: Db)
    requires Consistent(db) && db.revision > 45 && LedgerDowngrade(db, db.revision).Ok?
    ensures Exec(LedgerDowngrade(db, db.revision).value, Upgrade).Ok?
    ensures var back := Exec(LedgerDowngrade(db, db.revision).value, Upgrade).value;
      && back == db.(trigger := back.trigger)
      && (back.trigger == db.trigger <==> (db.revision == 59 ==> !LeftoverPaths(db)))
  {
    var r := db.revision;
    var below := db.(revision := r - 1, eventCheck := EventKinds(r - 1),
                     trigger := if ReplacesTrigger(r) then Some(LegacyTrigger(r)) else db.trigger);
    QuietRevision(r);
    assert LedgerDowngrade(db, r) == Ok(below);
    var back := below.(revision := r, eventCheck := EventKinds(r),
                       trigger := if ReplacesTrigger(r) then Some(TriggerAt(r)) else below.trigger);
    assert Exec(below, Upgrade) == Ok(back);
    if r == 59 {
      TriggersDiffer(59);
    }
  }

  /** Where a downgrade runs, the upgrade back runs too and restores these tables, unless the downgrade dropped one
      with rows in it, changed a row, or the trigger at 0059 was the one 0062 leaves behind. */
  lemma DowngradeThenUpgrade(db: Db)
    requires Consistent(db) && Exec(db, Downgrade).Ok?
    ensures Exec(Exec(db, Downgrade).value, Upgrade).Ok?
    ensures Exec(Exec(db, Downgrade).value, Upgrade).value == db <==>
      && (db.revision == 44 ==> db.ledger == [])
      && (db.revision == 45 ==> db.events == map[])
      && (db.revision == 59 ==> !LeftoverPaths(db))
      && (forall o | o in db.others :: Outlasts(db.others[o], db.revision))
  {
    var survived := db.(others := Surviving(db.others, db.revision));
    SurvivingConsistent(db);
    SurvivingKeepsAll(db.others, db.revision);
    LedgerDownAndUp(survived);
  }

  /** The leftover trigger is visible in the ledger: a payload whose only digest is a receipt's is recorded with it,
      where the trigger of 0061 records none. */
  lemma LeftoverPathsAreVisible(id: ArtifactId, row: ArtifactRow, text: string)
    requires row.payload.texts == map[ReceiptSha := text]
    ensures BlockedRow(TriggerAt(61), id, row, None).frozenDigest == None
    ensures BlockedRow(LegacyTrigger(62), id, row, None).frozenDigest == Some(text)
  {
    assert ACTIVATION_PATHS[1..] == [ActivationReceipt, ActivationPayload];
    assert WIDE_PATHS[1..] == [ActivationReceipt, ActivationPayload, ReceiptSha, ReplayClosureSha];
    NotInFirst(row.payload, ACTIVATION_PATHS, 3);
    assert WIDE_PATHS[3..] == [ReceiptSha, ReplayClosureSha];
    NotInFirst(row.payload, WIDE_PATHS, 3);
  }

  /** Paths without a text are passed over. */
  lemma {:induction false} NotInFirst(payload: Payload, paths: seq<DigestPath>, n: nat)
    requires n <= |paths| && forall k | 0 <= k < n :: paths[k] !in payload.texts
    ensures Coalesce(payload, paths) == Coalesce(payload, paths[n..])
  {
    if n > 0 {
      NotInFirst(payload, paths[1..], n - 1);
      assert paths[1..][n - 1..] == paths[n..];
    }
  }

  // --- Downgrading as far as the recorded rows allow ---

  predicate EventsReach(db: Db, target: nat) {
    forall e | e in db.events :: Since(db.events[e].kind) == 45 || Since(db.events[e].kind) <= target
  }

  predicate BundlesReach(db: Db, target: nat) {
    target < 49 ==> forall o | o in db.others :: !FromTraining(db.others[o])
  }

  /** No recorded event and no audit bundle of a training run keeps the revision above target. */
  predicate CanReach(db: Db, target: nat) { EventsReach(db, target) && BundlesReach(db, target) }

  /** What is recorded above target keeps every run above it. */
  lemma PinnedAbove(db: Db, run: seq<Transaction>, target: nat)
    requires Consistent(db) && !CanReach(db, target)
    ensures NeverBelow(db, run, target + 1) && RunStays(db, run, target + 1)
  {
    if EventsReach(db, target) {
      PinnedByBundle(db, run, target);
    } else {
      PinnedByEvent(db, run, target);
    }
  }

  lemma PinnedByBundle(db: Db, run: seq<Transaction>, target: nat)
    requires Consistent(db) && !BundlesReach(db, target)
    ensures NeverBelow(db, run, target + 1) && RunStays(db, run, target + 1)
  {
    var o :| o in db.others && FromTraining(db.others[o]);
    BundleRatchet(db, run, o, target + 1);
  }

  lemma PinnedByEvent(db: Db, run: seq<Transaction>, target: nat)
    requires Consistent(db) && !EventsReach(db, target)
    ensures NeverBelow(db, run, target + 1) && RunStays(db, run, target + 1)
  {
    var e := PinningEvent(db, target);
    RatchetFrom(db, run, e, target + 1);
  }

  lemma PinningEvent(db: Db, target: nat) returns (e: EventId)
    requires !EventsReach(db, target)
    ensures e in db.events && Since(db.events[e].kind) >= 46 && target + 1 <= Since(db.events[e].kind)
  {
    e :| e in db.events && Since(db.events[e].kind) != 45 && Since(db.events[e].kind) > target;
    SinceRange(db.events[e].kind);
  }

  /** As many downgrades as it takes. */
  function Downgrades(n: nat): seq<Statement> { if n == 0 then [] else [Downgrade] + Downgrades(n - 1) }

  /** The rows that may change have been changed to ones that stop no downgrade. */
  predicate Settled(others: Others) { forall o | o in others :: Harmless(others[o]) == others[o] }

  lemma SettledStopsNothing(db: Db, target: nat)
    requires Consistent(db) && Settled(db.others) && CanReach(db, target) && target < db.revision
    ensures NoneStopsDowngrade(db.others, db.revision)
  {
    forall o | o in db.others ensures !StopsDowngrade(db.others[o], db.revision) {
      HarmlessIsAllowed(db.others[o], db.revision);
    }
  }

  lemma DowngradeKeepsRows(db: Db)
    requires Consistent(db) && Exec(db, Downgrade).Ok?
    ensures var below := Exec(db, Downgrade).value;
      && below.revision == db.revision - 1 && below.artifacts == db.artifacts
      && (below.revision >= 45 ==> below.ledger == db.ledger && below.events == db.events)
      && below.events.Items <= db.events.Items
  {
    LedgerKeepsRows(db.(others := Surviving(db.others, db.revision)), db.revision);
  }

  lemma LedgerKeepsRows(db: Db, r: nat)
    requires r > BASE && LedgerDowngrade(db, r).Ok?
    ensures var below := LedgerDowngrade(db, r).value;
      && below.revision == r - 1 && below.artifacts == db.artifacts
      && (r > 45 ==> below.ledger == db.ledger && below.events == db.events)
      && (r <= 45 ==> below.events == db.events || below.events == map[])
  {
  }

  /** The downgrade keeps a settled and reachable state so. */
  lemma DowngradeKeepsWay(db: Db, target: nat)
    requires Consistent(db) && Settled(db.others) && CanReach(db, target) && target < db.revision
      && Exec(db, Downgrade).Ok?
    ensures Settled(Exec(db, Downgrade).value.others) && CanReach(Exec(db, Downgrade).value, target)
  {
    var below := Exec(db, Downgrade).value;
    OthersAfterDowngrade(db);
    DowngradeKeepsRows(db);
    forall e | e in below.events ensures Since(below.events[e].kind) == 45 || Since(below.events[e].kind) <= target {
      assert (e, below.events[e]) in db.events.Items;
    }
    forall o | o in below.others
      ensures Harmless(below.others[o]) == below.others[o] && (target < 49 ==> !FromTraining(below.others[o]))
    {
      assert o in db.others && below.others[o] == Downgraded(db.others[o], db.revision);
    }
  }

  lemma {:induction false} DowngradesReach(db: Db, target: nat)
    requires Consistent(db) && Settled(db.others) && BASE <= target <= db.revision && CanReach(db, target)
    ensures ExecAll(db, Downgrades(db.revision - target)).Ok?
    ensures var below := ExecAll(db, Downgrades(db.revision - target)).value;
      && Consistent(below) && below.revision == target && below.artifacts == db.artifacts
      && (target >= 45 ==> below.ledger == db.ledger && below.events == db.events)
    decreases db.revision
  {
    if target < db.revision {
      var below := OneDown(db, target);
      DowngradesReach(below, target);
      assert Downgrades(db.revision - target)[0] == Downgrade;
      assert Downgrades(db.revision - target)[1..] == Downgrades(below.revision - target);
    }
  }

  lemma OneDown(db: Db, target: nat) returns (below: Db)
    requires Consistent(db) && Settled(db.others) && BASE <= target < db.revision && CanReach(db, target)
    ensures Exec(db, Downgrade) == Ok(below) && Consistent(below) && Settled(below.others) && CanReach(below, target)
    ensures below.revision == db.revision - 1 && below.artifacts == db.artifacts
    ensures target >= 45 ==> below.ledger == db.ledger && below.events == db.events
  {
    SettledStopsNothing(db, target);
    DowngradeSucceeds(db);
    NothingSinceAbove(db, target);
    below := Exec(db, Downgrade).value;
    DowngradeKeepsConsistent(db);
    DowngradeKeepsRows(db);
    DowngradeKeepsWay(db, target);
  }

  lemma NothingSinceAbove(db: Db, target: nat)
    requires CanReach(db, target) && target < db.revision
    ensures db.revision <= 45 || NoneSince(db, db.revision)
  {
  }

  // --- Settling the rows that may change ---

  function Unsettled(others: Others): set<OtherId> { set o | o in others && Harmless(others[o]) != others[o] }

  /** One UPDATE. */
  lemma SettleOne(db: Db, o: OtherId)
    requires Consistent(db) && o in Unsettled(db.others)
    ensures var row := Harmless(db.others[o]); var after := db.(others := db.others[o := row]);
      && Exec(db, WriteOther(o, Some(row))) == Ok(after) && Consistent(after)
      && Unsettled(after.others) == Unsettled(db.others) - {o}
      && (forall x | x in after.others :: FromTraining(after.others[x]) ==>
        x in db.others && FromTraining(db.others[x]))
  {
    HarmlessIsAllowed(db.others[o], db.revision);
    WriteKeepsConsistent(db, o, Some(Harmless(db.others[o])));
  }

  /** As many as it takes: only the other tables change, and no new bundle appears. */
  lemma {:induction false} Settle(db: Db) returns (statements: seq<Statement>, after: Db)
    requires Consistent(db)
    ensures ExecAll(db, statements) == Ok(after) && Consistent(after) && Settled(after.others)
    ensures after == db.(others := after.others)
    ensures forall o | o in after.others && FromTraining(after.others[o]) ::
      o in db.others && FromTraining(db.others[o])
    decreases |Unsettled(db.others)|
  {
    if Unsettled(db.others) == {} {
      statements, after := [], db;
      assert forall o | o in db.others :: o !in Unsettled(db.others);
    } else {
      var o :| o in Unsettled(db.others);
      SettleOne(db, o);
      var first := WriteOther(o, Some(Harmless(db.others[o])));
      var next := Exec(db, first).value;
      var others;
      others, after := Settle(next);
      statements := [first] + others;
      assert statements[1..] == others;
    }
  }

  lemma {:induction false} ExecAllConcat(db: Db, a: seq<Statement>, b: seq<Statement>)
    requires ExecAll(db, a).Ok?
    ensures ExecAll(db, a + b) == ExecAll(ExecAll(db, a).value, b)
    decreases |a|
  {
    if a == [] {
      assert a + b == b;
    } else {
      assert (a + b)[0] == a[0] && (a + b)[1..] == a[1..] + b;
      ExecAllConcat(Exec(db, a[0]).value, a[1..], b);
    }
  }

  /** Every kind recorded at a revision was introduced by then. */
  lemma ReachesItself(db: Db)
    requires Consistent(db)
    ensures CanReach(db, db.revision)
  {
    forall e | e in db.events ensures Since(db.events[e].kind) <= db.revision {
      AdmittedExactly(db.events[e].kind, db.revision);
    }
    forall o | o in db.others && FromTraining(db.others[o]) ensures db.revision >= 49 {
      assert InChecks(db.others[o], db.revision);
    }
  }

  /** The way down to the target. */
  lemma WayDown(db: Db, target: nat) returns (way: seq<Statement>, below: Db)
    requires Consistent(db) && BASE <= target <= HEAD && CanReach(db, target)
    ensures ExecAll(db, way) == Ok(below)
    ensures Consistent(below) && below.artifacts == db.artifacts && below.revision <= target
    ensures target >= 45 ==> below.ledger == db.ledger && below.events == db.events
  {
    var settle, settled := Settle(db);
    var to := if target <= db.revision then target else db.revision;
    SettledReaches(db, settled, target);
    var down;
    down, below := SettledWayDown(settled, to);
    ExecAllConcat(db, settle, down);
    way := settle + down;
  }

  lemma SettledWayDown(db: Db, target: nat) returns (down: seq<Statement>, below: Db)
    requires Consistent(db) && Settled(db.others) && BASE <= target <= db.revision && CanReach(db, target)
    ensures ExecAll(db, down) == Ok(below)
    ensures Consistent(below) && below.revision == target && below.artifacts == db.artifacts
    ensures target >= 45 || target == db.revision ==> below.ledger == db.ledger && below.events == db.events
  {
    DowngradesReach(db, target);
    down := Downgrades(db.revision - target);
    below := ExecAll(db, down).value;
  }

  lemma SettledReaches(db: Db, settled: Db, target: nat)
    requires Consistent(settled) && settled == db.(others := settled.others) && CanReach(db, target)
    requires forall o | o in settled.others && FromTraining(settled.others[o]) ::
      o in db.others && FromTraining(db.others[o])
    ensures CanReach(settled, target) && CanReach(settled, settled.revision)
  {
    ReachesItself(settled);
  }

  /** The way down and then one statement, as one committed transaction. */
  lemma DowngradeAndDo(db: Db, target: nat, statement: Statement) returns (run: seq<Transaction>, below: Db)
    requires Consistent(db) && BASE <= target <= HEAD && CanReach(db, target)
    ensures Consistent(below) && below.artifacts == db.artifacts && below.revision <= target
    ensures target >= 45 ==> below.ledger == db.ledger && below.events == db.events
    ensures target == BASE ==> below.ledger == [] && below.events == map[]
    ensures Exec(below, statement).Ok? ==> Run(db, run) == Exec(below, statement).value
  {
    var way;
    way, below := WayDown(db, target);
    run := [Transaction(way + [statement], true)];
    ExecAllConcat(db, way, [statement]);
    assert [statement][1..] == [];
    assert run[1..] == [];
    if Exec(below, statement).Ok? {
      assert ExecAll(below, [statement]) == Ok(Exec(below, statement).value);
      assert Run(db, run) == Run(Commit(db, run[0]), []);
    }
  }

  // --- What can still happen to an artifact ---

  ghost predicate Intact(db: Db, id: ArtifactId, run: seq<Transaction>)
    requires id in db.artifacts
  {
    id in Run(db, run).artifacts && Run(db, run).artifacts[id] == db.artifacts[id]
  }

  /** Nothing recorded keeps the revision at or above the one that froze the artifact's kind. */
  predicate BelowReachable(db: Db, id: ArtifactId)
    requires id in db.artifacts
  {
    CanReach(db, FrozenFrom(db.artifacts[id].kind) - 1)
  }

  lemma OverwriteWitness(db: Db, id: ArtifactId) returns (run: seq<Transaction>)
    requires Consistent(db) && id in db.artifacts && BelowReachable(db, id)
    ensures !Intact(db, id, run)
  {
    var row := db.artifacts[id];
    var changed := row.(createdAt := row.createdAt + 1);
    var below;
    run, below := DowngradeAndDo(db, FrozenFrom(row.kind) - 1, UpdateArtifact(id, id, changed));
    ProtectedExactly(row.kind, below.revision);
  }

  /** Some run changes or removes the artifact if and only if no recorded event pins the revision at or above the
      one that froze its kind and, for kinds frozen before 0050, no audit bundle of a training run does. */
  lemma MutableExactlyWhen(db: Db, id: ArtifactId)
    requires Consistent(db) && id in db.artifacts
    ensures (exists run :: !Intact(db, id, run)) <==> BelowReachable(db, id)
  {
    if BelowReachable(db, id) {
      var run := OverwriteWitness(db, id);
    } else {
      forall run ensures Intact(db, id, run) {
        PinnedIsIntact(db, id, run);
      }
    }
  }

  lemma PinnedIsIntact(db: Db, id: ArtifactId, run: seq<Transaction>)
    requires Consistent(db) && id in db.artifacts && !BelowReachable(db, id)
    ensures Intact(db, id, run)
  {
    PinnedAbove(db, run, FrozenFrom(db.artifacts[id].kind) - 1);
    FrozenWhileProtected(db, run, id);
  }

  lemma RemoveWitness(db: Db, id: ArtifactId, target: nat) returns (run: seq<Transaction>)
    requires Consistent(db) && id in db.artifacts && CanReach(db, target)
    requires BASE <= target < FrozenFrom(db.artifacts[id].kind) && target <= 74
    requires target == BASE || (target >= 45 && !LedgerRefers(db, id) && !EventRefers(db, id))
    ensures id !in Run(db, run).artifacts
  {
    var below;
    run, below := DowngradeAndDo(db, target, DeleteArtifact(id));
    ProtectedExactly(db.artifacts[id].kind, below.revision);
  }

  /** Nothing recorded keeps the revision above 0074. */
  lemma ReachesLinkFree(db: Db)
    requires Consistent(db)
    ensures CanReach(db, 74)
  {
    forall e | e in db.events ensures Since(db.events[e].kind) <= 74 {
      AdmittedExactly(db.events[e].kind, db.revision);
      SinceRange(db.events[e].kind);
    }
  }

  lemma SinceRange(kind: EventKind)
    ensures Since(kind) >= 45 && (Since(kind) <= HEAD ==> Since(kind) <= 73)
  {
  }

  lemma ReachesBase(db: Db)
    requires CanReach(db, 44)
    ensures CanReach(db, BASE)
  {
    forall e | e in db.events ensures Since(db.events[e].kind) == 45 {
      SinceRange(db.events[e].kind);
    }
  }

  /** Some run removes the artifact if and only if the revision can go back to before both ledgers, or to before the
      one that froze its kind and neither ledger names it. Links of claim-feedback rows, which hold an artifact from
      0075 on, never decide it: a run can always go back to 0074. */
  lemma RemovableExactlyWhen(db: Db, id: ArtifactId)
    requires Consistent(db) && id in db.artifacts
    ensures (exists run :: id !in Run(db, run).artifacts) <==>
      CanReach(db, BASE) || (BelowReachable(db, id) && !LedgerRefers(db, id) && !EventRefers(db, id))
  {
    if CanReach(db, BASE) {
      var run := RemoveWitness(db, id, BASE);
    } else if BelowReachable(db, id) && !LedgerRefers(db, id) && !EventRefers(db, id) {
      ReachesLinkFree(db);
      var frozen := FrozenFrom(db.artifacts[id].kind);
      var run := RemoveWitness(db, id, if frozen <= 74 then frozen - 1 else 74);
    } else {
      forall run ensures id in Run(db, run).artifacts {
        CannotRemove(db, id, run);
      }
    }
  }

  lemma CannotRemove(db: Db, id: ArtifactId, run: seq<Transaction>)
    requires Consistent(db) && id in db.artifacts && !CanReach(db, BASE)
    requires !BelowReachable(db, id) || LedgerRefers(db, id) || EventRefers(db, id)
    ensures id in Run(db, run).artifacts
  {
    if !BelowReachable(db, id) {
      PinnedIsIntact(db, id, run);
    } else if LedgerRefers(db, id) {
      LedgerHolds(db, id, run);
    } else {
      EventHolds(db, id, run);
    }
  }

  lemma LedgerHolds(db: Db, id: ArtifactId, run: seq<Transaction>)
    requires Consistent(db) && !CanReach(db, BASE) && LedgerRefers(db, id)
    ensures id in Run(db, run).artifacts
  {
    PinnedAboveLedger(db, run);
    LedgerPinsArtifact(db, run, id);
  }

  /** What keeps a run from going back to before the ledgers keeps it from dropping the older one. */
  lemma PinnedAboveLedger(db: Db, run: seq<Transaction>)
    requires Consistent(db) && !CanReach(db, BASE)
    ensures RunStays(db, run, 44)
  {
    PinnedAbove(db, run, BASE);
  }

  lemma EventHolds(db: Db, id: ArtifactId, run: seq<Transaction>)
    requires Consistent(db) && !CanReach(db, BASE) && EventRefers(db, id)
    ensures id in Run(db, run).artifacts
  {
    PinnedAboveEvents(db, run);
    EventPinsArtifact(db, run, id);
  }

  /** What keeps a run from going back to before the ledgers keeps it from dropping the younger one, and so either. */
  lemma PinnedAboveEvents(db: Db, run: seq<Transaction>)
    requires Consistent(db) && !CanReach(db, BASE)
    ensures RunStays(db, run, 45)
  {
    if CanReach(db, 44) {
      ReachesBase(db);
    }
    PinnedAbove(db, run, 44);
  }

  lemma EventPinsArtifact(db: Db, run: seq<Transaction>, id: ArtifactId)
    requires Consistent(db) && EventRefers(db, id) && RunStays(db, run, 45)
    ensures id in Run(db, run).artifacts
  {
    var e :| e in db.events && db.events[e].artifact == Some(id);
    EventsNeverDecay(db, run, e);
  }
}
