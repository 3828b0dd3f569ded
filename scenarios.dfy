/** Worked cases of the projection on small raw tables. */
module ProfileInfoScenarios {
  import opened Wrappers
  import opened ProfileRows
  import opened UniqueProfiles
  import opened ProfileInfoProcessor

  /** A raw row of profile p for visit index v in which every field holds a value. */
  function Visit(p: Guid, v: int): (r: RawRow)
    ensures Fillable(r) && r.profileId == Some(p) && r.contactVisitIndex == Some(v)
  {
    RawRow(Some(1), Some(100 + v), Some(p), Some(v), Some(10 * v), Some(10 * v + 5), Some(3), None)
  }

  /**
   * Visits 5, 2 and 8 of one profile, sorted ascending to 2, 5, 8: the pass
   * keeps the row of visit 2, the earliest, reports no missing data and logs
   * nothing.
   */
  lemma EarliestVisitIsKept()
    ensures SortedByVisitIndex([Visit(7, 2), Visit(7, 5), Visit(7, 8)])
    ensures Run([Visit(7, 2), Visit(7, 5), Visit(7, 8)]).appended == [Projection(Visit(7, 2))]
    ensures VisitIndexOf(Run([Visit(7, 2), Visit(7, 5), Visit(7, 8)]).appended[0]) == Some(2)
    ensures NotificationsFor("profileinfo", [Visit(7, 2), Visit(7, 5), Visit(7, 8)]) == []
  {
    var rows := [Visit(7, 2), Visit(7, 5), Visit(7, 8)];
    assert rows[..1] == [Visit(7, 2)] && rows[..2] == [Visit(7, 2), Visit(7, 5)];
    assert [Visit(7, 2)][..0] == [];
    assert Run(rows[..1]).processed == [7];
  }

  /**
   * The first row of a profile lacks its contact id and the second fills:
   * the second row is projected, the one row appended for the profile, and
   * the dropped row raises one missing-data notification.
   */
  lemma FailedRowDoesNotBlockLaterRow()
    ensures Run([Visit(7, 2).(contactId := None), Visit(7, 5)]).appended == [Projection(Visit(7, 5))]
    ensures NotificationsFor("profileinfo", [Visit(7, 2).(contactId := None), Visit(7, 5)])
      == [("profileinfo", MandatoryDataMissing)]
  {
    var rows := [Visit(7, 2).(contactId := None), Visit(7, 5)];
    assert rows[..1] == [Visit(7, 2).(contactId := None)];
    assert rows[..1][..0] == [];
    assert Run(rows[..1]).processed == [];
  }

  /**
   * The query returns visits 5, 2 and 8 of one profile, in that order. Whatever
   * ascending reordering the sorting collaborator hands back, the pass appends
   * exactly one row, and it is the row of visit 2.
   */
  lemma {:induction false} EarliestVisitKeptAfterSorting(sorted: seq<RawRow>)
    requires SortedByRecency([Visit(7, 5), Visit(7, 2), Visit(7, 8)], sorted)
    ensures ProfileIdsPresent(sorted)
    ensures |Run(sorted).appended| == 1 && VisitIndexOf(Run(sorted).appended[0]) == Some(2)
  {
    var query := [Visit(7, 5), Visit(7, 2), Visit(7, 8)];
    assert ProfileIdsPresent(query);
    SortingKeepsRows(query, sorted);
    assert ProfileIds(query) == {7} by {
      assert query[0].profileId == Some(7);
    }
    AppendedAtMostDistinctProfiles(sorted);
    assert Visit(7, 2) in multiset(query);
    assert Visit(7, 2) in sorted;
    var j :| 0 <= j < |sorted| && sorted[j] == Visit(7, 2);
    OneRowPerFillableProfile(sorted, 7);
    assert SomeRowFills(sorted, 7);
    var p := Run(sorted);
    assert HasRowFor(p.appended, 7);
    assert |p.appended| == 1;
    AppendedAreKeptRowsInOrder(sorted);
    AppendedProfilesDistinct(sorted);
    var s := p.sources[0];
    assert sorted[s] in multiset(sorted);
    assert sorted[s] in query;
    assert VisitIndexOf(p.appended[0]) == sorted[s].contactVisitIndex;
    KeptRowHasSmallestVisitIndex(sorted, 0, j);
  }
}
