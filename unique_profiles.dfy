/**
 * The specification of the single pass over the sorted raw table that keeps
 * one result row per profile, and the properties that pass guarantees.
 */
module UniqueProfiles {
  import opened Wrappers
  import opened ProfileRows

  /** Every raw row carries a profile id; the pass reads it before anything else. */
  predicate ProfileIdsPresent(rows: seq<RawRow>)
  {
    forall i :: 0 <= i < |rows| ==> rows[i].profileId.Some?
  }

  /**
   * What the pass has produced after a prefix of the raw table: the rows
   * appended to the result table, the index of the raw row each came from,
   * the list of profiles already processed, and whether every row it did not
   * skip was projected.
   */
  datatype Pass = Pass(appended: seq<DataRow>, sources: seq<nat>, processed: seq<Guid>, allProjected: bool)

  /** The pass over the raw table, one row at a time from the first. */
  function Run(rows: seq<RawRow>): (p: Pass)
    requires ProfileIdsPresent(rows)
    ensures |p.appended| == |p.sources| == |p.processed|
    ensures forall a :: 0 <= a < |p.sources| ==> p.sources[a] < |rows|
    decreases |rows|
  {
    if rows == [] then Pass([], [], [], true)
    else
      var n := |rows| - 1;
      var before := Run(rows[..n]);
      var src := rows[n];
      if src.profileId.value in before.processed then before
      else if Fillable(src) then
        Pass(before.appended + [Projection(src)], before.sources + [n], before.processed + [src.profileId.value], before.allProjected)
      else before.(allProjected := false)
  }

  /** An earlier row of the same profile projected, so row i is skipped as a duplicate. */
  predicate SeenBefore(rows: seq<RawRow>, i: int)
    requires 0 <= i < |rows|
  {
    exists j :: 0 <= j < i && Fillable(rows[j]) && rows[j].profileId == rows[i].profileId
  }

  /** Row i is the first row of its profile that fills: the one kept for that profile. */
  predicate Kept(rows: seq<RawRow>, i: int)
    requires 0 <= i < |rows|
  {
    Fillable(rows[i]) && !SeenBefore(rows, i)
  }

  /** Row i was not skipped and failed to fill. */
  predicate Failed(rows: seq<RawRow>, i: int)
    requires 0 <= i < |rows|
  {
    !Fillable(rows[i]) && !SeenBefore(rows, i)
  }

  /** The distinct profile ids of the raw table. */
  function ProfileIds(rows: seq<RawRow>): (ids: set<Guid>)
  {
    set i | 0 <= i < |rows| && rows[i].profileId.Some? :: rows[i].profileId.value
  }

  lemma PrefixKeepsIds(rows: seq<RawRow>, n: nat)
    requires ProfileIdsPresent(rows) && n <= |rows|
    ensures ProfileIdsPresent(rows[..n])
  {
    assert forall i :: 0 <= i < n ==> rows[..n][i] == rows[i];
  }

  /**
   * A profile is in the processed list exactly when some row of it filled:
   * a row that failed does not mark its profile as processed.
   */
  lemma {:induction false} ProcessedIffSomeRowFilled(rows: seq<RawRow>)
    requires ProfileIdsPresent(rows)
    ensures forall g :: g in Run(rows).processed <==> SomeRowFills(rows, g)
    decreases |rows|
  {
    if rows != [] {
      var n := |rows| - 1;
      ProcessedIffSomeRowFilled(rows[..n]);
      assert forall j :: 0 <= j < n ==> rows[..n][j] == rows[j];
      var src := rows[n];
      forall g | exists j :: 0 <= j < |rows| && Fillable(rows[j]) && rows[j].profileId == Some(g)
        ensures g in Run(rows).processed
      {
        var j :| 0 <= j < |rows| && Fillable(rows[j]) && rows[j].profileId == Some(g);
        if j < n {
          assert rows[..n][j] == rows[j];
        }
      }
    }
  }

  /** Row i is skipped exactly when its profile is processed by the time the pass reaches it. */
  lemma SkippedIffProcessed(rows: seq<RawRow>, i: nat)
    requires ProfileIdsPresent(rows) && i < |rows|
    ensures ProfileIdsPresent(rows[..i])
    ensures rows[i].profileId.value in Run(rows[..i]).processed <==> SeenBefore(rows, i)
  {
    PrefixKeepsIds(rows, i);
    ProcessedIffSomeRowFilled(rows[..i]);
    var g := rows[i].profileId.value;
    assert rows[i].profileId == Some(g);
    if SeenBefore(rows, i) {
      var j :| 0 <= j < i && Fillable(rows[j]) && rows[j].profileId == rows[i].profileId;
      assert rows[..i][j] == rows[j];
    }
    if g in Run(rows[..i]).processed {
      var j :| 0 <= j < i && Fillable(rows[..i][j]) && rows[..i][j].profileId == Some(g);
      assert rows[..i][j] == rows[j];
    }
  }

  /**
   * The appended rows are the projections of the kept rows, in the order of
   * the raw table: the source indexes are strictly increasing, each appended
   * row is the projection of its source row, and a raw row is a source
   * exactly when it is the first row of its profile that fills.
   */
  lemma {:induction false} AppendedAreKeptRowsInOrder(rows: seq<RawRow>)
    requires ProfileIdsPresent(rows)
    ensures forall a, b :: 0 <= a < b < |Run(rows).sources| ==> Run(rows).sources[a] < Run(rows).sources[b]
    ensures forall a :: 0 <= a < |Run(rows).sources| ==>
      Fillable(rows[Run(rows).sources[a]]) && Run(rows).appended[a] == Projection(rows[Run(rows).sources[a]])
    ensures forall i :: 0 <= i < |rows| ==> (i in Run(rows).sources <==> Kept(rows, i))
    decreases |rows|
  {
    if rows != [] {
      var n := |rows| - 1;
      var prefix := rows[..n];
      PrefixKeepsIds(rows, n);
      AppendedAreKeptRowsInOrder(prefix);
      SkippedIffProcessed(rows, n);
      var before := Run(prefix);
      var after := Run(rows);
      forall i | 0 <= i < n ensures Kept(prefix, i) <==> Kept(rows, i) {
        PrefixSeenBefore(rows, n, i);
      }
      assert n !in before.sources;
      assert after.sources == before.sources || after.sources == before.sources + [n];
      forall a | 0 <= a < |before.sources| ensures prefix[before.sources[a]] == rows[before.sources[a]] {
      }
      if after.sources == before.sources {
        assert !Kept(rows, n);
      } else {
        assert Kept(rows, n);
      }
    }
  }

  /** Whether a row is a duplicate depends only on the rows before it. */
  lemma PrefixSeenBefore(rows: seq<RawRow>, n: nat, i: nat)
    requires i < n <= |rows|
    ensures SeenBefore(rows[..n], i) <==> SeenBefore(rows, i)
  {
    if SeenBefore(rows, i) {
      var j :| 0 <= j < i && Fillable(rows[j]) && rows[j].profileId == rows[i].profileId;
      assert rows[..n][j] == rows[j];
    }
    if SeenBefore(rows[..n], i) {
      var j :| 0 <= j < i && Fillable(rows[..n][j]) && rows[..n][j].profileId == rows[..n][i].profileId;
      assert rows[..n][j] == rows[j];
    }
  }

  /** Each appended row carries the profile id of its source row, and no two appended rows carry the same one. */
  lemma AppendedProfilesDistinct(rows: seq<RawRow>)
    requires ProfileIdsPresent(rows)
    ensures forall a :: 0 <= a < |Run(rows).appended| ==>
      ProfileOf(Run(rows).appended[a]) == rows[Run(rows).sources[a]].profileId
    ensures forall a, b :: 0 <= a < b < |Run(rows).appended| ==>
      ProfileOf(Run(rows).appended[a]) != ProfileOf(Run(rows).appended[b])
  {
    var p := Run(rows);
    AppendedAreKeptRowsInOrder(rows);
    forall a, b | 0 <= a < b < |p.appended| ensures ProfileOf(p.appended[a]) != ProfileOf(p.appended[b]) {
      var sa, sb := p.sources[a], p.sources[b];
      assert sa < sb && sb in p.sources;
      assert ProfileOf(p.appended[a]) == rows[sa].profileId by { assert p.appended[a] == Projection(rows[sa]); }
      assert ProfileOf(p.appended[b]) == rows[sb].profileId by { assert p.appended[b] == Projection(rows[sb]); }
      assert !SeenBefore(rows, sb);
    }
    forall a | 0 <= a < |p.appended| ensures ProfileOf(p.appended[a]) == rows[p.sources[a]].profileId {
      assert p.appended[a] == Projection(rows[p.sources[a]]);
    }
  }

  /** The pass reports success exactly when no row that was not skipped failed to fill. */
  lemma {:induction false} AllProjectedIffNoFailure(rows: seq<RawRow>)
    requires ProfileIdsPresent(rows)
    ensures Run(rows).allProjected <==> forall i :: 0 <= i < |rows| ==> !Failed(rows, i)
    decreases |rows|
  {
    if rows != [] {
      var n := |rows| - 1;
      PrefixKeepsIds(rows, n);
      AllProjectedIffNoFailure(rows[..n]);
      SkippedIffProcessed(rows, n);
      var before := Run(rows[..n]);
      assert Run(rows).allProjected == (before.allProjected && !Failed(rows, n));
      assert forall j :: 0 <= j < n ==> rows[..n][j] == rows[j];
      forall i | 0 <= i < n ensures Failed(rows[..n], i) <==> Failed(rows, i) {
        PrefixSeenBefore(rows, n, i);
      }
    }
  }

  /**
   * A profile gets exactly one appended row when some row of it fills, and
   * none otherwise; in particular a row that failed does not keep a later
   * row of its profile out.
   */
  lemma OneRowPerFillableProfile(rows: seq<RawRow>, g: Guid)
    requires ProfileIdsPresent(rows)
    ensures SomeRowFills(rows, g) <==> HasRowFor(Run(rows).appended, g)
    ensures forall a, b ::
      0 <= a < |Run(rows).appended| && 0 <= b < |Run(rows).appended| &&
      ProfileOf(Run(rows).appended[a]) == Some(g) && ProfileOf(Run(rows).appended[b]) == Some(g)
      ==> a == b
  {
    var p := Run(rows);
    AppendedAreKeptRowsInOrder(rows);
    AppendedProfilesDistinct(rows);
    if exists j :: 0 <= j < |rows| && Fillable(rows[j]) && rows[j].profileId == Some(g) {
      var j :| 0 <= j < |rows| && Fillable(rows[j]) && rows[j].profileId == Some(g);
      var first := FirstFilled(rows, j);
      assert first in p.sources;
      var a :| 0 <= a < |p.sources| && p.sources[a] == first;
      assert ProfileOf(p.appended[a]) == Some(g);
    }
    forall a | 0 <= a < |p.appended| && ProfileOf(p.appended[a]) == Some(g)
      ensures exists j :: 0 <= j < |rows| && Fillable(rows[j]) && rows[j].profileId == Some(g)
    {
      var s := p.sources[a];
      assert ProfileOf(p.appended[a]) == rows[s].profileId;
      assert s < |rows| && Fillable(rows[s]) && rows[s].profileId == Some(g);
    }
  }

  /** Some raw row of profile g fills. */
  predicate SomeRowFills(rows: seq<RawRow>, g: Guid)
  {
    exists j :: 0 <= j < |rows| && Fillable(rows[j]) && rows[j].profileId == Some(g)
  }

  /** Some result row carries profile g. */
  predicate HasRowFor(table: seq<DataRow>, g: Guid)
  {
    exists a :: 0 <= a < |table| && ProfileOf(table[a]) == Some(g)
  }

  /** The first row of the same profile as row j that fills, given that row j fills. */
  function FirstFilled(rows: seq<RawRow>, j: nat): (i: nat)
    requires j < |rows| && Fillable(rows[j])
    ensures i <= j && Kept(rows, i) && rows[i].profileId == rows[j].profileId
    decreases j
  {
    if SeenBefore(rows, j) then
      var k :| 0 <= k < j && Fillable(rows[k]) && rows[k].profileId == rows[j].profileId;
      FirstFilled(rows, k)
    else j
  }

  /** The processed list never holds a profile twice. */
  lemma {:induction false} ProcessedDistinct(rows: seq<RawRow>)
    requires ProfileIdsPresent(rows)
    ensures forall a, b :: 0 <= a < b < |Run(rows).processed| ==> Run(rows).processed[a] != Run(rows).processed[b]
    decreases |rows|
  {
    if rows != [] {
      var n := |rows| - 1;
      PrefixKeepsIds(rows, n);
      ProcessedDistinct(rows[..n]);
    }
  }

  /** The pass appends at most one row per distinct profile id of the raw table. */
  lemma AppendedAtMostDistinctProfiles(rows: seq<RawRow>)
    requires ProfileIdsPresent(rows)
    ensures |Run(rows).appended| <= |ProfileIds(rows)|
  {
    var processed := Run(rows).processed;
    ProcessedDistinct(rows);
    ProcessedIffSomeRowFilled(rows);
    DistinctCard(processed);
    var ids := set g | g in processed;
    forall g | g in ids ensures g in ProfileIds(rows) {
      assert SomeRowFills(rows, g);
    }
    SubsetSize(ids, ProfileIds(rows));
  }

  lemma {:induction false} DistinctCard(s: seq<Guid>)
    requires forall a, b :: 0 <= a < b < |s| ==> s[a] != s[b]
    ensures |set g | g in s| == |s|
    decreases |s|
  {
    if s != [] {
      var m := |s| - 1;
      DistinctCard(s[..m]);
      assert (set g | g in s) == (set g | g in s[..m]) + {s[m]};
      assert s[m] !in s[..m];
    }
  }

  lemma SubsetSize<T>(a: set<T>, b: set<T>)
    requires a <= b
    ensures |a| <= |b|
  {
    assert b == a + (b - a);
  }

  /**
   * With the raw table sorted ascending by visit index, the row kept for a
   * profile has the smallest visit index among the rows of that profile that
   * fill; when every row of the profile fills, that is the smallest visit
   * index of the profile, i.e. its earliest visit.
   */
  lemma KeptRowHasSmallestVisitIndex(rows: seq<RawRow>, a: nat, j: nat)
    requires ProfileIdsPresent(rows) && SortedByVisitIndex(rows)
    requires a < |Run(rows).appended| && j < |rows| && Fillable(rows[j])
    requires rows[j].profileId == rows[Run(rows).sources[a]].profileId
    ensures VisitIndexOf(Run(rows).appended[a]).Some?
    ensures VisitIndexOf(Run(rows).appended[a]).value <= rows[j].contactVisitIndex.value
  {
    var p := Run(rows);
    AppendedAreKeptRowsInOrder(rows);
    var s := p.sources[a];
    assert s in p.sources;
    if j < s {
      assert false;
    }
  }
}
