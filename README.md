# ProfileInfo: one result row per profile

This project models the processor `FindMostRecentVisitPerProfileAndProjectToProfileInfo`
of the contact-profile report. The processor receives the raw
interaction/profile table of a query, has it sorted ascending by contact visit
index, and walks it once. For each raw row whose profile id is not yet in its
list of processed profiles, it builds a result row. The seven mandatory columns
(ContactId, LatestVisitId, ProfileId, LatestVisitIndex,
LatestVisitStartDateTime, LatestVisitEndDateTime, ProfileCount) are copied in
that order, and the first copy that fails stops the chain. The row also gets
the flag PatternWasAppliedToVisit. The row is appended to the caller's result
table only when all seven copies succeeded, and only then is its profile marked
as processed. If any row that was not skipped failed, one MandatoryDataMissing
notification (id 13, severity Error) is logged for the view.

Modules:

- `Wrappers` (`wrappers.dfy`): `Option`, for nullable cells.
- `ProfileRows` (`profile_rows.dfy`): the raw row, whose fields are `Option`s;
  the raw fields (`XConnectField`); the result columns (`Column`); a result row
  as a map from column to cell, where an absent column is DBNull; the fill chain
  (`TryFillData`, `FillChain`); the reference projection of a fillable row
  (`Projection`); and the sort order (`SortedByVisitIndex`).
- `UniqueProfiles` (`unique_profiles.dfy`): `Run`, the specification of the
  single pass, defined one row at a time, and the lemmas about it. The lemmas
  cover duplicates, failed rows, order, the error flag, the count bound and the
  visit index of the kept row.
- `ProfileInfoProcessor` (`processor.dfy`): the result table as a class whose
  `rows` are only appended to. The processor is a class whose
  `notifications` field records what it logs. The imperative methods
  `ProjectOneProfile`, `ProjectUniqueProfiles` (a `for` loop with invariants),
  `ProjectRawTableIntoResultTable` and `Process`. `ProjectOneProfile` is
  proved against `Fillable` and `Projection` (and, for its draft row, against
  `FillChain`); the other three are proved against `Run`.
- `ProfileInfoScenarios` (`scenarios.dfy`): worked tables.

The class is named for the most recent visit, and its result columns are called
"Latest…". But the table is sorted ascending by visit index and the first row of
each profile that fills is kept. So the kept row has the smallest visit index
among that profile's fillable rows, i.e. the earliest visit
(`KeptRowHasSmallestVisitIndex`, `EarliestVisitIsKept`). The model follows the
code. Whether the name or the sort direction is what was meant cannot be
decided from the code, so this is not listed as a finding.

## Model

| member | source | states |
|---|---|---|
| `ProfileRows.TryFillData` | src/Sitecore.Support.213092/Cintel/Reporting/Contact/ProfileInfo/Processors/FindMostRecentVisitPerProfileAndProjectToProfileInfo.cs:74-80 | The assumed behaviour of the base class's fill, which is not part of this model: when the raw field holds a value, the column receives it and the fill succeeds; otherwise the row is left as it was and the fill fails. This is an abstraction, not a proved property. |
| `ProfileRows.WasPatternApplied` | src/Sitecore.Support.213092/Cintel/Reporting/Contact/ProfileInfo/Processors/FindMostRecentVisitPerProfileAndProjectToProfileInfo.cs:65-68 | True exactly when the PatternId is non-null. |
| `ProfileRows.FillChain` | src/Sitecore.Support.213092/Cintel/Reporting/Contact/ProfileInfo/Processors/FindMostRecentVisitPerProfileAndProjectToProfileInfo.cs:74-80 | The `&&` chain of fills succeeds exactly when every fill in it finds a value. |
| `ProfileRows.FillChainWrites` | src/Sitecore.Support.213092/Cintel/Reporting/Contact/ProfileInfo/Processors/FindMostRecentVisitPerProfileAndProjectToProfileInfo.cs:74-80 | A fill that is reached (all earlier fills succeeded) and whose field holds a value leaves that value in its column. |
| `ProfileRows.FillChainStopsAtFailure` | src/Sitecore.Support.213092/Cintel/Reporting/Contact/ProfileInfo/Processors/FindMostRecentVisitPerProfileAndProjectToProfileInfo.cs:74-80 | Short-circuit: after the first failing fill, the chain fails and no later column is written, even when its field holds a value. |
| `ProfileRows.FillChainLeavesOthers` | src/Sitecore.Support.213092/Cintel/Reporting/Contact/ProfileInfo/Processors/FindMostRecentVisitPerProfileAndProjectToProfileInfo.cs:74-80 | A column that no fill targets keeps its old contents (DBNull on a new row). |
| `ProfileRows.MandatoryChainSucceedsIffFillable` | src/Sitecore.Support.213092/Cintel/Reporting/Contact/ProfileInfo/Processors/FindMostRecentVisitPerProfileAndProjectToProfileInfo.cs:74-80 | The seven mandatory fills, in the source's order, target distinct columns and all succeed exactly when the raw row's seven mandatory fields all hold values. |
| `ProfileRows.MandatoryChainProjects` | src/Sitecore.Support.213092/Cintel/Reporting/Contact/ProfileInfo/Processors/FindMostRecentVisitPerProfileAndProjectToProfileInfo.cs:72-83 | On a fillable raw row, a new row after the chain and the pattern flag is exactly the reference projection. |
| `ProfileRows.Projection` | src/Sitecore.Support.213092/Cintel/Reporting/Contact/ProfileInfo/Processors/FindMostRecentVisitPerProfileAndProjectToProfileInfo.cs:65-83 | The projected row reads back the raw row's profile id and visit index. Its PatternWasAppliedToVisit is true exactly when the raw PatternId is non-null. |
| `UniqueProfiles.Run` | src/Sitecore.Support.213092/Cintel/Reporting/Contact/ProfileInfo/Processors/FindMostRecentVisitPerProfileAndProjectToProfileInfo.cs:106-128 | The pass appends one row and records one processed profile per projected raw row. Each appended row comes from an index of the table. |
| `UniqueProfiles.ProcessedIffSomeRowFilled` | src/Sitecore.Support.213092/Cintel/Reporting/Contact/ProfileInfo/Processors/FindMostRecentVisitPerProfileAndProjectToProfileInfo.cs:115-125 | A profile is in the processed list exactly when some row of it filled. A row that failed does not mark its profile. |
| `UniqueProfiles.SkippedIffProcessed` | src/Sitecore.Support.213092/Cintel/Reporting/Contact/ProfileInfo/Processors/FindMostRecentVisitPerProfileAndProjectToProfileInfo.cs:113-118 | A row is skipped exactly when an earlier row of the same profile filled. |
| `UniqueProfiles.AppendedAreKeptRowsInOrder` | src/Sitecore.Support.213092/Cintel/Reporting/Contact/ProfileInfo/Processors/FindMostRecentVisitPerProfileAndProjectToProfileInfo.cs:111-126 | The appended rows are the projections of the first fillable row of each profile, in raw-table order (strictly increasing source indexes). Every such row is appended. |
| `UniqueProfiles.AppendedProfilesDistinct` | src/Sitecore.Support.213092/Cintel/Reporting/Contact/ProfileInfo/Processors/FindMostRecentVisitPerProfileAndProjectToProfileInfo.cs:109-126 | Each appended row carries its source row's profile id, and no two appended rows share a profile id. |
| `UniqueProfiles.AllProjectedIffNoFailure` | src/Sitecore.Support.213092/Cintel/Reporting/Contact/ProfileInfo/Processors/FindMostRecentVisitPerProfileAndProjectToProfileInfo.cs:108-127 | The returned flag is true exactly when no row that was not skipped failed. Skipped duplicates never count as failures. |
| `UniqueProfiles.OneRowPerFillableProfile` | src/Sitecore.Support.213092/Cintel/Reporting/Contact/ProfileInfo/Processors/FindMostRecentVisitPerProfileAndProjectToProfileInfo.cs:115-125 | A profile has an appended row exactly when some row of it fills, and never more than one. |
| `UniqueProfiles.FirstFilled` | src/Sitecore.Support.213092/Cintel/Reporting/Contact/ProfileInfo/Processors/FindMostRecentVisitPerProfileAndProjectToProfileInfo.cs:115-125 | Every fillable row has a first fillable row of its profile at or before it, and that row is the kept one. |
| `UniqueProfiles.ProcessedDistinct` | src/Sitecore.Support.213092/Cintel/Reporting/Contact/ProfileInfo/Processors/FindMostRecentVisitPerProfileAndProjectToProfileInfo.cs:109-125 | The processed-profiles list never holds a profile id twice. |
| `UniqueProfiles.AppendedAtMostDistinctProfiles` | src/Sitecore.Support.213092/Cintel/Reporting/Contact/ProfileInfo/Processors/FindMostRecentVisitPerProfileAndProjectToProfileInfo.cs:111-126 | The number of appended rows is at most the number of distinct profile ids in the raw table. |
| `UniqueProfiles.KeptRowHasSmallestVisitIndex` | src/Sitecore.Support.213092/Cintel/Reporting/Contact/ProfileInfo/Processors/FindMostRecentVisitPerProfileAndProjectToProfileInfo.cs:39-42 | On a table sorted ascending by visit index, the kept row's LatestVisitIndex is at most that of every fillable row of its profile. When all its rows fill, it is the profile's smallest index. |
| `ProfileInfoProcessor.NotificationsFor` | src/Sitecore.Support.213092/Cintel/Reporting/Contact/ProfileInfo/Processors/FindMostRecentVisitPerProfileAndProjectToProfileInfo.cs:96-103 | At most one notification is logged per call, always (view, MandatoryDataMissing). It is logged exactly when some row that was not skipped failed. |
| `ProfileInfoProcessor.SortedByRecency` | src/Sitecore.Support.213092/Cintel/Reporting/Contact/ProfileInfo/Processors/FindMostRecentVisitPerProfileAndProjectToProfileInfo.cs:33-63 | What the sorting step is taken to return: a reordering of the query result (same multiset of rows, hence the same length), ascending by visit index wherever both rows carry one. Assumed of the sorting collaborator, not proved. |
| `ProfileInfoProcessor.SortingKeepsRows` | src/Sitecore.Support.213092/Cintel/Reporting/Contact/ProfileInfo/Processors/FindMostRecentVisitPerProfileAndProjectToProfileInfo.cs:33-63 | Reordering the query result keeps the rows, so it keeps the profile ids. |
| `ProfileInfoProcessor.ResultTable.Add` | src/Sitecore.Support.213092/Cintel/Reporting/Contact/ProfileInfo/Processors/FindMostRecentVisitPerProfileAndProjectToProfileInfo.cs:90 | Adding a row appends it after the existing rows. |
| `ProfileInfoProcessor.Processor.LogNotificationForView` | src/Sitecore.Support.213092/Cintel/Reporting/Contact/ProfileInfo/Processors/FindMostRecentVisitPerProfileAndProjectToProfileInfo.cs:102 | Logging records the notification for the view. |
| `ProfileInfoProcessor.Processor.ProjectOneProfile` | src/Sitecore.Support.213092/Cintel/Reporting/Contact/ProfileInfo/Processors/FindMostRecentVisitPerProfileAndProjectToProfileInfo.cs:70-92 | Returns true exactly when all seven fills succeed. It then appends exactly the projected row, and otherwise leaves the table as it was. The draft row is the fill chain's row plus the pattern flag, which is set either way. |
| `ProfileInfoProcessor.Processor.ProjectUniqueProfiles` | src/Sitecore.Support.213092/Cintel/Reporting/Contact/ProfileInfo/Processors/FindMostRecentVisitPerProfileAndProjectToProfileInfo.cs:106-128 | The loop leaves the old result rows in place and appends exactly `Run`'s rows. It returns `Run`'s flag. |
| `ProfileInfoProcessor.Processor.ProjectRawTableIntoResultTable` | src/Sitecore.Support.213092/Cintel/Reporting/Contact/ProfileInfo/Processors/FindMostRecentVisitPerProfileAndProjectToProfileInfo.cs:94-104 | Appends `Run`'s rows and logs exactly `NotificationsFor` the view. |
| `ProfileInfoProcessor.Processor.Process` | src/Sitecore.Support.213092/Cintel/Reporting/Contact/ProfileInfo/Processors/FindMostRecentVisitPerProfileAndProjectToProfileInfo.cs:17-27 | On the sorted table it appends `Run`'s rows and logs `NotificationsFor`. The appended rows have distinct profile ids and number at most the query's distinct profiles. |
| `ProfileInfoScenarios.EarliestVisitIsKept` | src/Sitecore.Support.213092/Cintel/Reporting/Contact/ProfileInfo/Processors/FindMostRecentVisitPerProfileAndProjectToProfileInfo.cs:39-42 | On the already sorted table of visits 2, 5, 8 of one profile, the row of visit 2 is the only one appended, and nothing is logged. |
| `ProfileInfoScenarios.EarliestVisitKeptAfterSorting` | src/Sitecore.Support.213092/Cintel/Reporting/Contact/ProfileInfo/Processors/FindMostRecentVisitPerProfileAndProjectToProfileInfo.cs:39-42 | The query returns visits 5, 2, 8 of one profile; for every reordering that satisfies `SortedByRecency`, the pass appends exactly one row, and its LatestVisitIndex is 2. |
| `ProfileInfoScenarios.FailedRowDoesNotBlockLaterRow` | src/Sitecore.Support.213092/Cintel/Reporting/Contact/ProfileInfo/Processors/FindMostRecentVisitPerProfileAndProjectToProfileInfo.cs:115-125 | A first row without ContactId fails, and the profile's next row is the one appended. One missing-data notification is logged. |

## Left out

- Sorting (`SortByRecency` and the `ApplySorting` collaborator): not modelled as an algorithm. `Process` takes the collaborator's output as a parameter and requires it to be a reordering of the query result, ascending by visit index wherever both rows carry one. Where rows without a visit index go, and how ties are ordered, is left open.
- `TryFillData` (in `ReportProcessorBase`, which is not part of this model): a field either holds a value and fills, or does not and fails, leaving the column unchanged. Type conversion is not modelled.
- The profile-id read on line 113 (`Field<Guid>`) throws on a null id. The model requires every raw row to carry a profile id, and the exception path is not modelled.
- Line 113 reads the profile id through the result schema's column name, while line 76 reads it through the raw field name. The model assumes both name the same raw column.
- Guid and DateTime values are plain integers, compared only for equality. String-keyed column access is replaced by the `Column` and `XConnectField` enumerations.
- Delivery of notifications (`LogNotificationForView`): only the (view, message) pair is recorded. The text is kept untranslated (`Translate.Text` is not modelled).
- The write of the result table into the report's dataset dictionary (line 26): not modelled.
- Rows are values in the model. The identity of `DataRow` objects and the table's other members are not modelled.
