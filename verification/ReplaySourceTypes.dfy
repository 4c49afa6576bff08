/** Migrations 0019 and 0076 move rows between source types and narrow a CHECK on the way down: what survives going
    down and up again. */
module ReplaySourceTypes {
  import opened Wrappers

  datatype SourceType = EvaluationQueries | LiveSearchGaps | Feedback | CrossDocument | ClaimFeedback

  /** sourceType: the text at the summary's own key, which may be any text. */
  datatype Summary = Summary(sourceType: Option<string>, rest: string)

  datatype Row = Row(sourceType: SourceType, summary: Summary, rest: string)

  type Table = map<nat, Row>

  const CROSS_DOCUMENT := "cross_document_prose_regressions"

  const FEEDBACK := "feedback"

  /** The CHECK before 0019, from 0019, and from 0076. */
  const FIRST := {EvaluationQueries, LiveSearchGaps, Feedback}
  const SECOND := {EvaluationQueries, LiveSearchGaps, Feedback, CrossDocument}
  const THIRD := {EvaluationQueries, LiveSearchGaps, Feedback, CrossDocument, ClaimFeedback}

  ghost predicate Within(table: Table, allowed: set<SourceType>) {
    forall id | id in table :: table[id].sourceType in allowed
  }

  // --- What one migration does to one row ---

  /** An evaluation row whose summary already says cross-document. */
  predicate Marked(row: Row) { row.sourceType == EvaluationQueries && row.summary.sourceType == Some(CROSS_DOCUMENT) }

  function Up19(row: Row): Row { if Marked(row) then row.(sourceType := CrossDocument) else row }

  function Down19(row: Row): Row {
    if row.sourceType == CrossDocument
    then row.(sourceType := EvaluationQueries, summary := row.summary.(sourceType := Some(CROSS_DOCUMENT)))
    else row
  }

  function Down76(row: Row): Row {
    if row.sourceType == ClaimFeedback
    then row.(sourceType := Feedback, summary := row.summary.(sourceType := Some(FEEDBACK)))
    else row
  }

  function Each(table: Table, change: Row -> Row): Table { map id | id in table :: change(table[id]) }

  // --- The table with its CHECK ---

  class ReplayRuns {
    var rows: Table
    var allowed: set<SourceType>

    ghost predicate Valid()
      reads this
    {
      Within(rows, allowed)
    }

    /** An UPDATE of every row in place. */
    method UpdateRows(change: Row -> Row)
      modifies this`rows
      ensures rows == Each(old(rows), change)
    {
      var before := rows;
      var left := rows.Keys;
      while left != {}
        invariant left <= before.Keys && rows.Keys == before.Keys
        invariant forall id | id in left :: rows[id] == before[id]
        invariant forall id | id in before.Keys - left :: rows[id] == change(before[id])
      {
        var id :| id in left;
        rows := rows[id := change(rows[id])];
        left := left - {id};
      }
    }

    /** Widens the CHECK, then moves the marked rows. */
    method Upgrade19()
      requires Valid() && allowed == FIRST
      modifies this
      ensures Valid() && allowed == SECOND && rows == Each(old(rows), Up19)
    {
      allowed := SECOND;
      UpdateRows(Up19);
    }

    /** Moves the rows back, then narrows the CHECK; no row is left that it would refuse. */
    method Downgrade19()
      requires Valid() && allowed == SECOND
      modifies this
      ensures Valid() && allowed == FIRST && rows == Each(old(rows), Down19)
    {
      UpdateRows(Down19);
      allowed := FIRST;
    }

    method Upgrade76()
      requires Valid() && allowed == SECOND
      modifies this
      ensures Valid() && allowed == THIRD && rows == old(rows)
    {
      allowed := THIRD;
    }

    method Downgrade76()
      requires Valid() && allowed == THIRD
      modifies this
      ensures Valid() && allowed == SECOND && rows == Each(old(rows), Down76)
    {
      UpdateRows(Down76);
      allowed := SECOND;
    }
  }

  // --- Round trips ---

  ghost predicate SameSourceTypes(a: Table, b: Table) {
    a.Keys == b.Keys && forall id | id in a :: a[id].sourceType == b[id].sourceType
  }

  ghost predicate NoneMarked(table: Table) { forall id | id in table :: !Marked(table[id]) }

  lemma RowRoundTrip19(row: Row)
    ensures Up19(Down19(row)).sourceType == row.sourceType <==> !Marked(row)
    ensures Up19(Down19(row)) == row <==>
      !Marked(row) && (row.sourceType == CrossDocument ==> row.summary.sourceType == Some(CROSS_DOCUMENT))
    ensures !Marked(Up19(row))
  {
    assert row.summary.(sourceType := Some(CROSS_DOCUMENT)) == row.summary <==>
      row.summary.sourceType == Some(CROSS_DOCUMENT);
  }

  /** Going down past 0019 and up again restores every source type exactly when no evaluation row carries the
      cross-document marker, which the upgrade itself establishes; it restores every column exactly when, besides, the
      cross-document rows carried the marker already. */
  lemma RoundTrip19(table: Table)
    ensures SameSourceTypes(Each(Each(table, Down19), Up19), table) <==> NoneMarked(table)
    ensures Each(Each(table, Down19), Up19) == table <==>
      NoneMarked(table)
      && forall id | id in table :: table[id].sourceType == CrossDocument ==>
        table[id].summary.sourceType == Some(CROSS_DOCUMENT)
    ensures NoneMarked(Each(table, Up19))
  {
    var back := Each(Each(table, Down19), Up19);
    assert back.Keys == table.Keys;
    forall id | id in table
      ensures back[id].sourceType == table[id].sourceType <==> !Marked(table[id])
      ensures back[id] == table[id] <==>
        !Marked(table[id]) && (table[id].sourceType == CrossDocument ==>
          table[id].summary.sourceType == Some(CROSS_DOCUMENT))
      ensures !Marked(Up19(table[id]))
    {
      RowRoundTrip19(table[id]);
    }
    assert back == table <==> forall id | id in table :: back[id] == table[id];
  }

  /** Equal but for the source type and the summary's own text about it. */
  predicate SameElsewhere(a: Row, b: Row) { a.rest == b.rest && a.summary.rest == b.summary.rest }

  /** 0076 has no way back. Its downgrade leaves every other row as it was and of the claim-feedback rows keeps
      everything but the source type and the summary's text about it; that text survives where it already said feedback.
      The downgrade changes nothing exactly when there is no such row, and no upgrade restores one. */
  lemma RoundTrip76(table: Table)
    requires Within(table, THIRD)
    ensures var down := Each(table, Down76);
      && Within(down, SECOND) && down.Keys == table.Keys
      && (forall id | id in table && table[id].sourceType != ClaimFeedback :: down[id] == table[id])
      && (forall id | id in table && table[id].sourceType == ClaimFeedback ::
            && SameElsewhere(down[id], table[id]) && down[id].sourceType == Feedback
            && (down[id].summary == table[id].summary <==> table[id].summary.sourceType == Some(FEEDBACK)))
      && (down == table <==> forall id | id in table :: table[id].sourceType != ClaimFeedback)
      && (SameSourceTypes(down, table) <==> down == table)
  {
    var down := Each(table, Down76);
    assert down.Keys == table.Keys;
    forall id | id in table ensures down[id] == table[id] <==> table[id].sourceType != ClaimFeedback {
      SummaryWritten(table[id].summary);
    }
    forall id | id in table && table[id].sourceType == ClaimFeedback
      ensures down[id].summary == table[id].summary <==> table[id].summary.sourceType == Some(FEEDBACK)
    {
      SummaryWritten(table[id].summary);
    }
    assert down == table <==> forall id | id in table :: down[id] == table[id];
  }

  lemma SummaryWritten(summary: Summary)
    ensures summary.(sourceType := Some(FEEDBACK)) == summary <==> summary.sourceType == Some(FEEDBACK)
  {
  }

  /** The row's source type where claim feedback is not one. */
  function AtFirst(row: Row): SourceType {
    if row.sourceType == ClaimFeedback then Feedback else row.sourceType
  }

  /** From the head to before 0019 and back: the claim-feedback rows end as feedback and every other source type is
      restored, exactly when no evaluation row carries the marker. */
  lemma RoundTripBoth(table: Table)
    requires Within(table, THIRD)
    ensures var back := Each(Each(Each(table, Down76), Down19), Up19);
      (forall id | id in table :: back[id].sourceType == AtFirst(table[id])) <==> NoneMarked(table)
  {
    var down := Each(table, Down76);
    var back := Each(Each(down, Down19), Up19);
    forall id | id in table
      ensures back[id].sourceType == AtFirst(table[id]) <==> !Marked(table[id])
    {
      RowRoundTrip19(down[id]);
    }
  }
}
