/**
 * Rows of the profile-info report: the raw interaction/profile row that the
 * query returns, the result row of the ProfileInfo view, and the copy of the
 * seven mandatory fields from one into the other.
 */
module ProfileRows {
  import opened Wrappers

  /** Identifiers and timestamps are compared for equality only. */
  type Guid = int
  /** A timestamp, as ticks. */
  type DateTime = int

  /** One row of the sorted raw table; a field that is DBNull (or cannot be read) is None. */
  datatype RawRow = RawRow(
    contactId: Option<Guid>,
    interactionId: Option<Guid>,
    profileId: Option<Guid>,
    contactVisitIndex: Option<int>,
    startDate: Option<DateTime>,
    endDate: Option<DateTime>,
    count: Option<int>,
    patternId: Option<Guid>)

  /** The fields of the raw table, named after the XConnect field they stand for. */
  datatype XConnectField =
    | InteractionContactId
    | InteractionId
    | ProfileProfileId
    | InteractionContactVisitIndex
    | InteractionStartDate
    | InteractionEndDate
    | ProfileCount
    | ProfilePatternId

  /** The columns of the result table's schema. */
  datatype Column =
    | ContactId
    | LatestVisitId
    | ProfileId
    | LatestVisitIndex
    | LatestVisitStartDateTime
    | LatestVisitEndDateTime
    | ProfileCount
    | PatternWasAppliedToVisit

  /** The value held by one cell of a data row. */
  datatype Cell = GuidCell(guid: Guid) | IntCell(number: int) | DateTimeCell(time: DateTime) | BoolCell(flag: bool)

  /** A result-table row: a column missing from the map is DBNull, as in a row fresh from NewRow. */
  type DataRow = map<Column, Cell>

  /** The row that the result table's NewRow hands out: every column DBNull. */
  const NewRow: DataRow := map[]

  /** Reads one field of a raw row as a cell. */
  function Read(src: RawRow, field: XConnectField): (cell: Option<Cell>)
    ensures cell.Some? <==> match field
      case InteractionContactId => src.contactId.Some?
      case InteractionId => src.interactionId.Some?
      case ProfileProfileId => src.profileId.Some?
      case InteractionContactVisitIndex => src.contactVisitIndex.Some?
      case InteractionStartDate => src.startDate.Some?
      case InteractionEndDate => src.endDate.Some?
      case ProfileCount => src.count.Some?
      case ProfilePatternId => src.patternId.Some?
  {
    match field
    case InteractionContactId => if src.contactId.Some? then Some(GuidCell(src.contactId.value)) else None
    case InteractionId => if src.interactionId.Some? then Some(GuidCell(src.interactionId.value)) else None
    case ProfileProfileId => if src.profileId.Some? then Some(GuidCell(src.profileId.value)) else None
    case InteractionContactVisitIndex =>
      if src.contactVisitIndex.Some? then Some(IntCell(src.contactVisitIndex.value)) else None
    case InteractionStartDate => if src.startDate.Some? then Some(DateTimeCell(src.startDate.value)) else None
    case InteractionEndDate => if src.endDate.Some? then Some(DateTimeCell(src.endDate.value)) else None
    case ProfileCount => if src.count.Some? then Some(IntCell(src.count.value)) else None
    case ProfilePatternId => if src.patternId.Some? then Some(GuidCell(src.patternId.value)) else None
  }

  /**
   * The mandatory copies, in the order they are attempted: each pairs the
   * result column with the raw field it is filled from.
   */
  const MandatoryFills: seq<(Column, XConnectField)> := [
    (ContactId, InteractionContactId),
    (LatestVisitId, InteractionId),
    (ProfileId, ProfileProfileId),
    (LatestVisitIndex, InteractionContactVisitIndex),
    (LatestVisitStartDateTime, InteractionStartDate),
    (LatestVisitEndDateTime, InteractionEndDate),
    (Column.ProfileCount, XConnectField.ProfileCount)
  ]

  /** No column is the target of two fills. */
  predicate DistinctTargets(fills: seq<(Column, XConnectField)>)
  {
    forall i, j :: 0 <= i < j < |fills| ==> fills[i].0 != fills[j].0
  }

  /** Every fill before position k succeeded, so the fill at k is attempted. */
  predicate Reached(src: RawRow, fills: seq<(Column, XConnectField)>, k: int)
    requires 0 <= k <= |fills|
  {
    forall m :: 0 <= m < k ==> Read(src, fills[m].1).Some?
  }

  /**
   * Copies one field into one column. When the field holds a value the
   * column receives it and the fill succeeds; otherwise the row is left as
   * it was and the fill fails.
   */
  function TryFillData(row: DataRow, column: Column, src: RawRow, field: XConnectField): (result: (DataRow, bool))
    ensures result.1 <==> Read(src, field).Some?
    ensures result.1 ==> result.0 == row[column := Read(src, field).value]
    ensures !result.1 ==> result.0 == row
  {
    match Read(src, field)
    case Some(cell) => (row[column := cell], true)
    case None => (row, false)
  }

  /**
   * The short-circuiting conjunction of fills: they are attempted in order
   * and the first failure stops the chain. It succeeds exactly when every
   * fill does.
   */
  function FillChain(row: DataRow, src: RawRow, fills: seq<(Column, XConnectField)>): (result: (DataRow, bool))
    ensures result.1 <==> Reached(src, fills, |fills|)
    decreases |fills|
  {
    if fills == [] then (row, true)
    else
      var (filled, ok) := TryFillData(row, fills[0].0, src, fills[0].1);
      if !ok then (filled, false)
      else
        var rest := FillChain(filled, src, fills[1..]);
        assert forall m :: 1 <= m < |fills| ==> fills[1..][m - 1] == fills[m];
        rest
  }

  /** A fill that is reached and whose field holds a value writes that value into its column. */
  lemma {:induction false} FillChainWrites(row: DataRow, src: RawRow, fills: seq<(Column, XConnectField)>, k: nat)
    requires DistinctTargets(fills)
    requires k < |fills| && Reached(src, fills, k + 1)
    ensures fills[k].0 in FillChain(row, src, fills).0
    ensures FillChain(row, src, fills).0[fills[k].0] == Read(src, fills[k].1).value
    decreases |fills|
  {
    var filled := TryFillData(row, fills[0].0, src, fills[0].1).0;
    assert Read(src, fills[0].1).Some?;
    if k > 0 {
      assert fills[1..][k - 1] == fills[k];
      assert Reached(src, fills[1..], k) by {
        forall m | 0 <= m < k ensures Read(src, fills[1..][m].1).Some? {
          assert fills[1..][m] == fills[m + 1];
        }
      }
      FillChainWrites(filled, src, fills[1..], k - 1);
    } else if |fills| > 1 {
      assert fills[0].0 !in (set m | 0 <= m < |fills[1..]| :: fills[1..][m].0) by {
        forall m | 0 <= m < |fills[1..]| ensures fills[1..][m].0 != fills[0].0 {
          assert fills[1..][m] == fills[m + 1];
        }
      }
      FillChainLeavesOthers(filled, src, fills[1..], fills[0].0);
    }
  }

  /** A column that no fill targets keeps whatever the row held before the chain. */
  lemma {:induction false} FillChainLeavesOthers(row: DataRow, src: RawRow, fills: seq<(Column, XConnectField)>, c: Column)
    requires c !in (set m | 0 <= m < |fills| :: fills[m].0)
    ensures c in FillChain(row, src, fills).0 <==> c in row
    ensures c in row ==> FillChain(row, src, fills).0[c] == row[c]
    decreases |fills|
  {
    if fills != [] {
      var (filled, ok) := TryFillData(row, fills[0].0, src, fills[0].1);
      assert fills[0].0 != c by { assert fills[0].0 in (set m | 0 <= m < |fills| :: fills[m].0); }
      if ok {
        assert c !in (set m | 0 <= m < |fills[1..]| :: fills[1..][m].0) by {
          forall m | 0 <= m < |fills[1..]| ensures fills[1..][m].0 != c {
            assert fills[1..][m] == fills[m + 1];
            assert fills[m + 1].0 in (set m | 0 <= m < |fills| :: fills[m].0);
          }
        }
        FillChainLeavesOthers(filled, src, fills[1..], c);
      }
    }
  }

  /**
   * Short-circuit: once a fill fails, no later fill is attempted, so the
   * column of every fill from the failing one on keeps its old contents,
   * even where the raw row holds a value for it.
   */
  lemma {:induction false} FillChainStopsAtFailure(row: DataRow, src: RawRow, fills: seq<(Column, XConnectField)>, failed: nat, k: nat)
    requires DistinctTargets(fills)
    requires failed <= k < |fills| && Read(src, fills[failed].1).None?
    ensures !FillChain(row, src, fills).1
    ensures fills[k].0 in FillChain(row, src, fills).0 <==> fills[k].0 in row
    ensures fills[k].0 in row ==> FillChain(row, src, fills).0[fills[k].0] == row[fills[k].0]
    decreases |fills|
  {
    var (filled, ok) := TryFillData(row, fills[0].0, src, fills[0].1);
    if !ok {
      assert FillChain(row, src, fills) == (row, false);
    } else {
      assert failed > 0;
      assert fills[1..][failed - 1] == fills[failed];
      assert fills[1..][k - 1] == fills[k];
      assert fills[0].0 != fills[k].0;
      assert DistinctTargets(fills[1..]) by {
        forall i, j | 0 <= i < j < |fills[1..]| ensures fills[1..][i].0 != fills[1..][j].0 {
          assert fills[1..][i] == fills[i + 1] && fills[1..][j] == fills[j + 1];
        }
      }
      FillChainStopsAtFailure(filled, src, fills[1..], failed - 1, k - 1);
    }
  }

  /** Whether a behaviour pattern was applied to the visit: a pattern id is present. */
  function WasPatternApplied(patternId: Option<Guid>): (applied: bool)
    ensures applied <==> patternId != None
  {
    patternId.Some?
  }

  /** A raw row all of whose mandatory fields hold a value. */
  predicate Fillable(src: RawRow)
  {
    src.contactId.Some? && src.interactionId.Some? && src.profileId.Some? && src.contactVisitIndex.Some? &&
    src.startDate.Some? && src.endDate.Some? && src.count.Some?
  }

  /** The profile id a result row holds, if its ProfileId column holds one. */
  function ProfileOf(row: DataRow): (id: Option<Guid>)
  {
    if ProfileId in row && row[ProfileId].GuidCell? then Some(row[ProfileId].guid) else None
  }

  /** The visit index a result row holds, if its LatestVisitIndex column holds one. */
  function VisitIndexOf(row: DataRow): (index: Option<int>)
  {
    if LatestVisitIndex in row && row[LatestVisitIndex].IntCell? then Some(row[LatestVisitIndex].number) else None
  }

  /**
   * The result row a fillable raw row projects to, column by column: it
   * reads back the raw row's profile id and visit index, and flags the
   * pattern exactly when one is present.
   */
  function Projection(src: RawRow): (row: DataRow)
    requires Fillable(src)
    ensures PatternWasAppliedToVisit in row
    ensures ProfileOf(row) == src.profileId && VisitIndexOf(row) == src.contactVisitIndex
    ensures row[PatternWasAppliedToVisit] == BoolCell(src.patternId.Some?)
  {
    map[
      ContactId := GuidCell(src.contactId.value),
      LatestVisitId := GuidCell(src.interactionId.value),
      ProfileId := GuidCell(src.profileId.value),
      LatestVisitIndex := IntCell(src.contactVisitIndex.value),
      LatestVisitStartDateTime := DateTimeCell(src.startDate.value),
      LatestVisitEndDateTime := DateTimeCell(src.endDate.value),
      Column.ProfileCount := IntCell(src.count.value),
      PatternWasAppliedToVisit := BoolCell(WasPatternApplied(src.patternId))
    ]
  }

  /** The mandatory fills all succeed exactly when the raw row is fillable. */
  lemma MandatoryChainSucceedsIffFillable(src: RawRow)
    ensures DistinctTargets(MandatoryFills)
    ensures Reached(src, MandatoryFills, |MandatoryFills|) <==> Fillable(src)
  {
    var f := MandatoryFills;
    assert Read(src, f[0].1).Some? <==> src.contactId.Some?;
    assert Read(src, f[1].1).Some? <==> src.interactionId.Some?;
    assert Read(src, f[2].1).Some? <==> src.profileId.Some?;
    assert Read(src, f[3].1).Some? <==> src.contactVisitIndex.Some?;
    assert Read(src, f[4].1).Some? <==> src.startDate.Some?;
    assert Read(src, f[5].1).Some? <==> src.endDate.Some?;
    assert Read(src, f[6].1).Some? <==> src.count.Some?;
  }

  /** On a fillable row the chain writes every mandatory column from its field, and nothing else. */
  lemma MandatoryChainProjects(src: RawRow)
    requires Fillable(src)
    ensures DistinctTargets(MandatoryFills)
    ensures FillChain(NewRow, src, MandatoryFills).1
    ensures FillChain(NewRow, src, MandatoryFills).0[PatternWasAppliedToVisit := BoolCell(WasPatternApplied(src.patternId))]
      == Projection(src)
  {
    MandatoryChainSucceedsIffFillable(src);
    var f := MandatoryFills;
    var filled := FillChain(NewRow, src, f).0;
    assert Reached(src, f, 7);
    assert Reached(src, f, 1) && Reached(src, f, 2) && Reached(src, f, 3);
    assert Reached(src, f, 4) && Reached(src, f, 5) && Reached(src, f, 6);
    FillChainWrites(NewRow, src, f, 0);
    FillChainWrites(NewRow, src, f, 1);
    FillChainWrites(NewRow, src, f, 2);
    FillChainWrites(NewRow, src, f, 3);
    FillChainWrites(NewRow, src, f, 4);
    FillChainWrites(NewRow, src, f, 5);
    FillChainWrites(NewRow, src, f, 6);
    FillChainLeavesOthers(NewRow, src, f, PatternWasAppliedToVisit);
    var row := filled[PatternWasAppliedToVisit := BoolCell(WasPatternApplied(src.patternId))];
    assert row.Keys == Projection(src).Keys;
  }

  /**
   * The raw table is in ascending order of visit index wherever both rows
   * carry one; where rows without an index go, and how ties are ordered, is
   * left open.
   */
  predicate SortedByVisitIndex(rows: seq<RawRow>)
  {
    forall i, j :: 0 <= i < j < |rows| && rows[i].contactVisitIndex.Some? && rows[j].contactVisitIndex.Some? ==>
      rows[i].contactVisitIndex.value <= rows[j].contactVisitIndex.value
  }
}
