/**
 * The processor that turns the sorted raw table of the ProfileInfo report
 * into one result row per profile, and reports when rows had to be dropped.
 */
module ProfileInfoProcessor {
  import opened Wrappers
  import opened ProfileRows
  import opened UniqueProfiles

  /** The severities of a report notification; this processor only raises errors. */
  datatype NotificationType = Error

  /** A notification shown with a report view. */
  datatype NotificationMessage = NotificationMessage(id: int, messageType: NotificationType, text: string)

  /** The notification raised when rows were dropped for missing mandatory data. */
  const MandatoryDataMissing := NotificationMessage(13, Error, "One or more data entries are missing due to invalid data")

  /**
   * The notifications one projection logs for a view: the missing-data
   * error, once, exactly when some row that was not skipped failed to fill.
   */
  function NotificationsFor(viewName: string, rows: seq<RawRow>): (log: seq<(string, NotificationMessage)>)
    requires ProfileIdsPresent(rows)
    ensures |log| <= 1
    ensures |log| == 1 <==> exists i :: 0 <= i < |rows| && Failed(rows, i)
    ensures forall e :: e in log ==> e == (viewName, MandatoryDataMissing)
  {
    AllProjectedIffNoFailure(rows);
    if Run(rows).allProjected then [] else [(viewName, MandatoryDataMissing)]
  }

  /** The result table of the view: rows are only ever appended. */
  class ResultTable {
    var rows: seq<DataRow>

    constructor (existing: seq<DataRow>)
      ensures rows == existing
    {
      rows := existing;
    }

    method Add(row: DataRow)
      modifies this
      ensures rows == old(rows) + [row]
    {
      rows := rows + [row];
    }
  }

  /** The raw table is a reordering of the query result, sorted ascending by visit index. */
  predicate SortedByRecency(queryResult: seq<RawRow>, sorted: seq<RawRow>)
    ensures SortedByRecency(queryResult, sorted) ==> |sorted| == |queryResult|
  {
    assert |multiset(sorted)| == |sorted| && |multiset(queryResult)| == |queryResult|;
    multiset(sorted) == multiset(queryResult) && SortedByVisitIndex(sorted)
  }

  lemma SortingKeepsRows(queryResult: seq<RawRow>, sorted: seq<RawRow>)
    requires multiset(sorted) == multiset(queryResult)
    requires ProfileIdsPresent(queryResult)
    ensures ProfileIdsPresent(sorted)
    ensures ProfileIds(sorted) == ProfileIds(queryResult)
  {
    forall i | 0 <= i < |sorted| ensures sorted[i] in queryResult {
      assert sorted[i] in multiset(sorted);
    }
    forall i | 0 <= i < |queryResult| ensures queryResult[i] in sorted {
      assert queryResult[i] in multiset(queryResult);
    }
    forall g | g in ProfileIds(sorted) ensures g in ProfileIds(queryResult) {
      var i :| 0 <= i < |sorted| && sorted[i].profileId == Some(g);
      var k :| 0 <= k < |queryResult| && queryResult[k] == sorted[i];
    }
    forall g | g in ProfileIds(queryResult) ensures g in ProfileIds(sorted) {
      var i :| 0 <= i < |queryResult| && queryResult[i].profileId == Some(g);
      var k :| 0 <= k < |sorted| && sorted[k] == queryResult[i];
    }
  }

  /** The report processor; it records the notifications it logs for a view. */
  class Processor {
    var notifications: seq<(string, NotificationMessage)>

    constructor ()
      ensures notifications == []
    {
      notifications := [];
    }

    /** Records a notification for a view; its delivery is not part of this model. */
    method LogNotificationForView(viewName: string, message: NotificationMessage)
      modifies this
      ensures notifications == old(notifications) + [(viewName, message)]
    {
      notifications := notifications + [(viewName, message)];
    }

    /**
     * Entry point: projects the raw table, already put in ascending order of
     * visit index by the sorting collaborator, into the view's result table.
     */
    method Process(queryResult: seq<RawRow>, sortedByRecency: seq<RawRow>, viewName: string, resultTable: ResultTable)
      requires ProfileIdsPresent(queryResult)
      requires SortedByRecency(queryResult, sortedByRecency)
      modifies this, resultTable
      ensures ProfileIdsPresent(sortedByRecency)
      ensures resultTable.rows == old(resultTable.rows) + Run(sortedByRecency).appended
      ensures notifications == old(notifications) + NotificationsFor(viewName, sortedByRecency)
      ensures |resultTable.rows| <= |old(resultTable.rows)| + |ProfileIds(queryResult)|
      ensures forall a, b :: |old(resultTable.rows)| <= a < b < |resultTable.rows| ==>
        ProfileOf(resultTable.rows[a]) != ProfileOf(resultTable.rows[b])
    {
      SortingKeepsRows(queryResult, sortedByRecency);
      ProjectRawTableIntoResultTable(viewName, sortedByRecency, resultTable);
      AppendedAtMostDistinctProfiles(sortedByRecency);
      AppendedProfilesDistinct(sortedByRecency);
      ghost var appended := Run(sortedByRecency).appended;
      ghost var n := |old(resultTable.rows)|;
      forall a, b | n <= a < b < |resultTable.rows|
        ensures ProfileOf(resultTable.rows[a]) != ProfileOf(resultTable.rows[b])
      {
        assert resultTable.rows[a] == appended[a - n] && resultTable.rows[b] == appended[b - n];
      }
    }

    /** Projects the raw table and logs one error for the view if any row was dropped. */
    method ProjectRawTableIntoResultTable(viewName: string, rawTable: seq<RawRow>, resultTable: ResultTable)
      requires ProfileIdsPresent(rawTable)
      modifies this, resultTable
      ensures resultTable.rows == old(resultTable.rows) + Run(rawTable).appended
      ensures notifications == old(notifications) + NotificationsFor(viewName, rawTable)
    {
      var mandatoryDataMissing := false;
      var allRowsProjected := ProjectUniqueProfiles(rawTable, resultTable);
      mandatoryDataMissing := !allRowsProjected;
      if mandatoryDataMissing {
        LogNotificationForView(viewName, MandatoryDataMissing);
      }
    }

    /**
     * The single pass: a row whose profile is already processed is skipped;
     * otherwise it is projected, and only when that succeeds is its profile
     * marked as processed. Returns whether every row not skipped projected.
     */
    method ProjectUniqueProfiles(rawTable: seq<RawRow>, resultTable: ResultTable) returns (allRowsProjected: bool)
      requires ProfileIdsPresent(rawTable)
      modifies resultTable
      ensures resultTable.rows == old(resultTable.rows) + Run(rawTable).appended
      ensures allRowsProjected == Run(rawTable).allProjected
    {
      allRowsProjected := true;
      var processedProfiles: seq<Guid> := [];
      for i := 0 to |rawTable|
        invariant ProfileIdsPresent(rawTable[..i])
        invariant resultTable.rows == old(resultTable.rows) + Run(rawTable[..i]).appended
        invariant processedProfiles == Run(rawTable[..i]).processed
        invariant allRowsProjected == Run(rawTable[..i]).allProjected
      {
        PrefixKeepsIds(rawTable, i + 1);
        assert rawTable[..i + 1][..i] == rawTable[..i];
        var sourceRow := rawTable[i];
        var profileId := sourceRow.profileId.value;
        if profileId in processedProfiles {
          continue;
        }
        var projected, _ := ProjectOneProfile(resultTable, sourceRow);
        if !projected {
          allRowsProjected := false;
          continue;
        }
        processedProfiles := processedProfiles + [profileId];
      }
      assert rawTable[..|rawTable|] == rawTable;
    }

    /**
     * Builds a result row from one raw row: the seven mandatory fills in
     * order, then the pattern flag, which the draft row receives whether or
     * not the fills succeeded. The row is appended, and true returned, only
     * when every fill succeeded.
     */
    method ProjectOneProfile(resultTable: ResultTable, sourceRow: RawRow) returns (projected: bool, ghost draft: DataRow)
      modifies resultTable
      ensures projected <==> Fillable(sourceRow)
      ensures resultTable.rows == if projected then old(resultTable.rows) + [Projection(sourceRow)] else old(resultTable.rows)
      ensures PatternWasAppliedToVisit in draft && draft[PatternWasAppliedToVisit] == BoolCell(sourceRow.patternId.Some?)
      ensures projected ==> draft == Projection(sourceRow)
      ensures draft == FillChain(NewRow, sourceRow, MandatoryFills).0[PatternWasAppliedToVisit := BoolCell(sourceRow.patternId.Some?)]
    {
      var resultRow := NewRow;
      MandatoryChainSucceedsIffFillable(sourceRow);
      var fill := FillChain(resultRow, sourceRow, MandatoryFills);
      var fillWasSuccessful := fill.1;
      resultRow := fill.0;
      resultRow := resultRow[PatternWasAppliedToVisit := BoolCell(WasPatternApplied(sourceRow.patternId))];
      draft := resultRow;
      if !fillWasSuccessful {
        return false, draft;
      }
      MandatoryChainProjects(sourceRow);
      resultTable.Add(resultRow);
      return true, draft;
    }
  }
}
