/** Two migrations that number the rows of each class with a window function and keep number one: 0058 retires all
    active policies of a name but the newest, 0017 deletes all outcomes of a task, label and actor but the oldest. */
module WindowDedup {

  type Id = nat

  // --- Ranking ---

  /** A row's partition, None when the row is outside the window, and its timestamp. */
  datatype Slot<G(==)> = Outside | Inside(group: G, created: int)

  /** (created, id) of i comes before that of j: the greater first if descending. */
  predicate Ahead<G(==)>(slots: map<Id, Slot<G>>, descending: bool, i: Id, j: Id)
    requires i in slots && slots[i].Inside? && j in slots && slots[j].Inside?
  {
    if slots[i].created != slots[j].created then (slots[i].created > slots[j].created) == descending
    else if descending then i > j else i < j
  }

  /** The rows of j's partition numbered before j. */
  function Before<G(==)>(slots: map<Id, Slot<G>>, descending: bool, j: Id): set<Id>
    requires j in slots && slots[j].Inside?
  {
    set i | i in slots && slots[i].Inside? && slots[i].group == slots[j].group && Ahead(slots, descending, i, j)
  }

  /** `row_number()`; None outside the window. */
  function RowNumber<G(==)>(slots: map<Id, Slot<G>>, descending: bool, j: Id): nat
    requires j in slots && slots[j].Inside?
  {
    |Before(slots, descending, j)| + 1
  }

  /** Numbered after the first of its partition. */
  predicate Duplicate<G(==)>(slots: map<Id, Slot<G>>, descending: bool, j: Id) {
    j in slots && slots[j].Inside? && RowNumber(slots, descending, j) > 1
  }

  ghost predicate FirstOfGroup<G>(slots: map<Id, Slot<G>>, descending: bool, j: Id) {
    && j in slots && slots[j].Inside?
    && forall i | i in slots && slots[i].Inside? && slots[i].group == slots[j].group && i != j ::
      Ahead(slots, descending, j, i)
  }

  /** Number one is the row ahead of every other row of its partition. */
  lemma NumberOneIsFirst<G>(slots: map<Id, Slot<G>>, descending: bool, j: Id)
    requires j in slots && slots[j].Inside?
    ensures !Duplicate(slots, descending, j) <==> FirstOfGroup(slots, descending, j)
  {
    var before := Before(slots, descending, j);
    if before == {} {
      forall i | i in slots && slots[i].Inside? && slots[i].group == slots[j].group && i != j
        ensures Ahead(slots, descending, j, i)
      {
        assert i !in before;
      }
    } else {
      var i :| i in before;
      assert |before| > 0;
      assert Ahead(slots, descending, i, j) && !Ahead(slots, descending, j, i);
    }
  }

  /** Walking ahead ends at the first row of the partition. */
  lemma {:induction false} GroupHasFirst<G>(slots: map<Id, Slot<G>>, descending: bool, j: Id) returns (first: Id)
    requires j in slots && slots[j].Inside?
    ensures FirstOfGroup(slots, descending, first) && slots[first].group == slots[j].group
    decreases Before(slots, descending, j)
  {
    if Before(slots, descending, j) == {} {
      NumberOneIsFirst(slots, descending, j);
      first := j;
    } else {
      var i :| i in Before(slots, descending, j);
      assert i !in Before(slots, descending, i);
      assert Before(slots, descending, i) < Before(slots, descending, j);
      first := GroupHasFirst(slots, descending, i);
    }
  }

  lemma FirstIsUnique<G>(slots: map<Id, Slot<G>>, descending: bool, i: Id, j: Id)
    requires FirstOfGroup(slots, descending, i) && FirstOfGroup(slots, descending, j)
      && slots[i].group == slots[j].group
    ensures i == j
  {
  }

  // --- 0058: one active policy a name ---

  datatype PolicyStatus = Draft | Active | Retired

  datatype Policy = Policy(name: string, status: PolicyStatus, createdAt: int, rest: string)

  function PolicySlots(rows: map<Id, Policy>): map<Id, Slot<string>> {
    map id | id in rows :: if rows[id].status == Active then Inside(rows[id].name, rows[id].createdAt) else Outside
  }

  function RetireAllButNewest(rows: map<Id, Policy>): map<Id, Policy> {
    map id | id in rows :: if Duplicate(PolicySlots(rows), true, id) then rows[id].(status := Retired) else rows[id]
  }

  /** The partial unique index on the names of active policies. */
  ghost predicate ActiveNamesUnique(rows: map<Id, Policy>) {
    forall i, j | i in rows && j in rows && i != j && rows[i].status == Active && rows[j].status == Active ::
      rows[i].name != rows[j].name
  }

  /** Created no later than the other; among equals, the smaller id. */
  predicate NotNewer(rows: map<Id, Policy>, i: Id, j: Id)
    requires i in rows && j in rows
  {
    rows[i].createdAt < rows[j].createdAt || (rows[i].createdAt == rows[j].createdAt && i <= j)
  }

  class PolicyTable {
    var rows: map<Id, Policy>
    var indexed: bool

    ghost predicate Valid()
      reads this
    {
      indexed ==> ActiveNamesUnique(rows)
    }

    /** The UPDATE, row by row from ranks taken before it, and then the index, whose creation cannot fail. */
    method Upgrade()
      requires Valid()
      modifies this
      ensures Valid() && indexed && rows == RetireAllButNewest(old(rows))
    {
      RetireDuplicates();
      OneActiveLeft(old(rows));
      indexed := true;
    }

    method RetireDuplicates()
      modifies this`rows
      ensures rows == RetireAllButNewest(old(rows))
    {
      var slots := PolicySlots(rows);
      var before := rows;
      var left := rows.Keys;
      while left != {}
        invariant left <= before.Keys && rows.Keys == before.Keys
        invariant forall id | id in left :: rows[id] == before[id]
        invariant forall id | id in before.Keys - left :: rows[id] == RetireAllButNewest(before)[id]
      {
        var id :| id in left;
        if Duplicate(slots, true, id) {
          rows := rows[id := rows[id].(status := Retired)];
        }
        left := left - {id};
      }
    }

    /** Later writes: an insert or a full-row update that the index admits. */
    method Write(id: Id, row: Policy) returns (ok: bool)
      requires Valid()
      modifies this
      ensures Valid() && indexed == old(indexed)
      ensures ok <==> old(indexed && row.status == Active ==>
        forall other | other in rows && other != id && rows[other].status == Active :: rows[other].name != row.name)
      ensures rows == if ok then old(rows)[id := row] else old(rows)
    {
      if indexed && row.status == Active {
        if exists other | other in rows :: other != id && rows[other].status == Active && rows[other].name == row.name {
          return false;
        }
      }
      rows := rows[id := row];
      ok := true;
    }
  }

  /** After 0058 the active policy of a name is the newest one that was active, nothing else about any row changed,
      and no name lost its active policy. */
  lemma OneActiveLeft(rows: map<Id, Policy>)
    ensures var after := RetireAllButNewest(rows);
      && after.Keys == rows.Keys
      && ActiveNamesUnique(after)
      && (forall id | id in rows :: after[id].(status := rows[id].status) == rows[id])
      && (forall id | id in rows && rows[id].status != Active :: after[id] == rows[id])
      && (forall id | id in rows && after[id].status == Active ::
            forall other | other in rows && rows[other].status == Active && rows[other].name == rows[id].name ::
              NotNewer(rows, other, id))
      && (forall id | id in rows && rows[id].status == Active ::
            exists kept | kept in rows :: after[kept].status == Active && rows[kept].name == rows[id].name)
  {
    var slots, after := PolicySlots(rows), RetireAllButNewest(rows);
    forall id | id in rows && rows[id].status == Active
      ensures after[id].status == Active <==> FirstOfGroup(slots, true, id)
    {
      NumberOneIsFirst(slots, true, id);
    }
    forall i, j | i in rows && j in rows && i != j && after[i].status == Active && after[j].status == Active
      ensures after[i].name != after[j].name
    {
      if after[i].name == after[j].name {
        FirstIsUnique(slots, true, i, j);
      }
    }
    forall id | id in rows && rows[id].status == Active
      ensures exists kept | kept in rows :: after[kept].status == Active && rows[kept].name == rows[id].name
    {
      var kept := GroupHasFirst(slots, true, id);
      assert after[kept].status == Active && rows[kept].name == rows[id].name;
    }
  }

  // --- 0017: one outcome per task, label and actor ---

  datatype Outcome = Outcome(taskId: nat, outcomeLabel: string, actor: string, createdAt: int, note: string)

  function ClassOf(row: Outcome): (nat, string, string) { (row.taskId, row.outcomeLabel, row.actor) }

  function OutcomeSlots(rows: map<Id, Outcome>): map<Id, Slot<(nat, string, string)>> {
    map id | id in rows :: Inside(ClassOf(rows[id]), rows[id].createdAt)
  }

  function KeepOldest(rows: map<Id, Outcome>): map<Id, Outcome> {
    map id | id in rows && !Duplicate(OutcomeSlots(rows), false, id) :: rows[id]
  }

  /** The unique constraint. */
  ghost predicate ClassesUnique(rows: map<Id, Outcome>) {
    forall i, j | i in rows && j in rows && i != j :: ClassOf(rows[i]) != ClassOf(rows[j])
  }

  predicate NotOlder(rows: map<Id, Outcome>, i: Id, j: Id)
    requires i in rows && j in rows
  {
    rows[i].createdAt > rows[j].createdAt || (rows[i].createdAt == rows[j].createdAt && i >= j)
  }

  class OutcomeTable {
    var rows: map<Id, Outcome>
    var constrained: bool

    ghost predicate Valid()
      reads this
    {
      constrained ==> ClassesUnique(rows)
    }

    /** The DELETE, row by row, and then the constraint, whose creation cannot fail. */
    method Upgrade()
      requires Valid()
      modifies this
      ensures Valid() && constrained && rows == KeepOldest(old(rows))
    {
      var slots := OutcomeSlots(rows);
      var before := rows;
      var left := rows.Keys;
      while left != {}
        invariant left <= before.Keys && rows.Keys <= before.Keys
        invariant forall id | id in before :: id in rows <==> id in left || !Duplicate(slots, false, id)
        invariant forall id | id in rows :: rows[id] == before[id]
      {
        var id :| id in left;
        if Duplicate(slots, false, id) {
          rows := rows - {id};
        }
        left := left - {id};
      }
      assert rows == KeepOldest(before);
      OneOutcomeLeft(before);
      constrained := true;
    }

    method Insert(id: Id, row: Outcome) returns (ok: bool)
      requires Valid()
      modifies this
      ensures Valid() && constrained == old(constrained)
      ensures ok <==> old(id !in rows
        && (constrained ==> forall other | other in rows :: ClassOf(rows[other]) != ClassOf(row)))
      ensures rows == if ok then old(rows)[id := row] else old(rows)
    {
      if id in rows { return false; }
      if constrained && exists other | other in rows :: ClassOf(rows[other]) == ClassOf(row) {
        return false;
      }
      rows := rows[id := row];
      ok := true;
    }
  }

  /** After 0017 each class that had an outcome keeps exactly its oldest, unchanged. */
  lemma OneOutcomeLeft(rows: map<Id, Outcome>)
    ensures var after := KeepOldest(rows);
      && ClassesUnique(after)
      && (forall id | id in after ::
            && id in rows && after[id] == rows[id]
            && forall other | other in rows && ClassOf(rows[other]) == ClassOf(rows[id]) :: NotOlder(rows, other, id))
      && (forall id | id in rows :: exists kept | kept in after :: ClassOf(after[kept]) == ClassOf(rows[id]))
  {
    forall id | id in KeepOldest(rows), other | other in rows && ClassOf(rows[other]) == ClassOf(rows[id])
      ensures NotOlder(rows, other, id)
    {
      KeptIsOldest(rows, id, other);
    }
    forall i, j | i in KeepOldest(rows) && j in KeepOldest(rows) && i != j
      ensures ClassOf(rows[i]) != ClassOf(rows[j])
    {
      if ClassOf(rows[i]) == ClassOf(rows[j]) {
        KeptIsOldest(rows, i, j);
        KeptIsOldest(rows, j, i);
      }
    }
    forall id | id in rows ensures exists kept | kept in KeepOldest(rows) ::
      ClassOf(KeepOldest(rows)[kept]) == ClassOf(rows[id]) {
      var kept := OldestIsKept(rows, id);
    }
  }

  lemma KeptIsOldest(rows: map<Id, Outcome>, id: Id, other: Id)
    requires id in KeepOldest(rows) && other in rows && ClassOf(rows[other]) == ClassOf(rows[id])
    ensures NotOlder(rows, other, id)
  {
    var slots := OutcomeSlots(rows);
    NumberOneIsFirst(slots, false, id);
    assert slots[other] == Inside(ClassOf(rows[other]), rows[other].createdAt);
  }

  lemma OldestIsKept(rows: map<Id, Outcome>, id: Id) returns (kept: Id)
    requires id in rows
    ensures kept in KeepOldest(rows) && ClassOf(KeepOldest(rows)[kept]) == ClassOf(rows[id])
  {
    var slots := OutcomeSlots(rows);
    kept := GroupHasFirst(slots, false, id);
    NumberOneIsFirst(slots, false, kept);
    assert slots[kept].group == ClassOf(rows[kept]) && slots[id].group == ClassOf(rows[id]);
  }
}
