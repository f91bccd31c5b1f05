/** Column statistics per row group, and the pruning of row groups that cannot
    satisfy a conjunction of range predicates. */
module Stats {
  import opened ByteStrings
  import opened Entries

  datatype ColumnStats = ColumnStats(min: Bytes, max: Bytes, nullCount: u64)

  type Columns = map<Bytes, ColumnStats>

  datatype RowGroupStats = RowGroupStats(rowGroup: u32, columns: Columns)

  datatype FileStats = FileStats(path: Bytes, rowGroups: seq<RowGroupStats>)

  datatype RangePredicate = RangePredicate(column: Bytes, min: Bytes, max: Bytes)

  datatype RowGroupRef = RowGroupRef(file: Bytes, rowGroup: u32)

  /** A row group with the file it belongs to. */
  datatype Group = Group(file: Bytes, stats: RowGroupStats) {
    function Ref(): RowGroupRef {
      RowGroupRef(file, stats.rowGroup)
    }
  }

  // ---------------------------------------------------------------------
  // Queries
  // ---------------------------------------------------------------------

  /** The interval test of one predicate; a column without statistics passes. */
  predicate Overlaps(columns: Columns, p: RangePredicate) {
    p.column in columns ==>
      AtMost(columns[p.column].min, p.max) && AtMost(p.min, columns[p.column].max)
  }

  predicate OverlapsAll(columns: Columns, predicates: seq<RangePredicate>) {
    forall i :: 0 <= i < |predicates| ==> Overlaps(columns, predicates[i])
  }

  function FileGroups(path: Bytes, rowGroups: seq<RowGroupStats>): (r: seq<Group>)
    ensures |r| == |rowGroups|
    ensures forall i :: 0 <= i < |r| ==> r[i] == Group(path, rowGroups[i])
  {
    seq(|rowGroups|, i requires 0 <= i < |rowGroups| => Group(path, rowGroups[i]))
  }

  /** All row groups in manifest order. */
  function Groups(files: seq<FileStats>): seq<Group> {
    if files == [] then [] else Groups(Front(files)) + FileGroups(Last(files).path, Last(files).rowGroups)
  }

  /** The groups a conjunction does not prune, in order. */
  function Surviving(groups: seq<Group>, predicates: seq<RangePredicate>): seq<Group> {
    if groups == [] then []
    else
      var before := Surviving(Front(groups), predicates);
      if OverlapsAll(Last(groups).stats.columns, predicates) then before + [Last(groups)] else before
  }

  function Refs(groups: seq<Group>): (r: seq<RowGroupRef>)
    ensures |r| == |groups|
    ensures forall i :: 0 <= i < |r| ==> r[i] == groups[i].Ref()
  {
    seq(|groups|, i requires 0 <= i < |groups| => groups[i].Ref())
  }

  lemma {:induction false} SurvivingConcat(a: seq<Group>, b: seq<Group>, predicates: seq<RangePredicate>)
    ensures Surviving(a + b, predicates) == Surviving(a, predicates) + Surviving(b, predicates)
    decreases |b|
  {
    hide OverlapsAll;
    if b == [] {
      assert a + b == a;
    } else {
      assert Front(a + b) == a + Front(b) && Last(a + b) == Last(b);
      SurvivingConcat(a, Front(b), predicates);
    }
  }

  lemma {:induction false} NoPredicatePrunesNothing(groups: seq<Group>)
    ensures Surviving(groups, []) == groups
  {
    if groups != [] {
      NoPredicatePrunesNothing(Front(groups));
    }
  }

  // ---------------------------------------------------------------------
  // What pruning promises
  // ---------------------------------------------------------------------

  /** A group survives exactly when every predicate with statistics overlaps. */
  lemma {:induction false} SurvivesIffOverlaps(groups: seq<Group>, predicates: seq<RangePredicate>, g: Group)
    ensures g in Surviving(groups, predicates) <==> g in groups && OverlapsAll(g.stats.columns, predicates)
  {
    hide OverlapsAll;
    if groups != [] {
      SurvivesIffOverlaps(Front(groups), predicates, g);
      assert groups == Front(groups) + [Last(groups)];
    }
  }

  /** Joining two predicate lists is pruning by one and then by the other. */
  lemma {:induction false} ConjunctionIsIntersection(groups: seq<Group>, p: seq<RangePredicate>, q: seq<RangePredicate>)
    ensures Surviving(groups, p + q) == Surviving(Surviving(groups, p), q)
  {
    if groups != [] {
      var columns, before := Last(groups).stats.columns, Surviving(Front(groups), p);
      ConjunctionIsIntersection(Front(groups), p, q);
      JoinedOverlap(columns, p, q);
      if OverlapsAll(columns, p) {
        assert Front(before + [Last(groups)]) == before;
      }
    }
  }

  lemma JoinedOverlap(columns: Columns, p: seq<RangePredicate>, q: seq<RangePredicate>)
    ensures OverlapsAll(columns, p + q) <==> OverlapsAll(columns, p) && OverlapsAll(columns, q)
  {
    hide Overlaps;
    if OverlapsAll(columns, p + q) {
      assert forall i :: 0 <= i < |p| ==> (p + q)[i] == p[i];
      assert forall i :: 0 <= i < |q| ==> (p + q)[|p| + i] == q[i];
    }
  }

  /** A row: the non-null values of its columns. */
  type Row = map<Bytes, Bytes>

  ghost predicate Between(low: Bytes, v: Bytes, high: Bytes) {
    AtMost(low, v) && AtMost(v, high)
  }

  /** The row's values lie within what the statistics recorded for its group. */
  ghost predicate Recorded(columns: Columns, row: Row) {
    forall c :: c in columns && c in row ==> Between(columns[c].min, row[c], columns[c].max)
  }

  ghost predicate Satisfies(row: Row, predicates: seq<RangePredicate>) {
    forall i :: 0 <= i < |predicates| ==>
      predicates[i].column in row && Between(predicates[i].min, row[predicates[i].column], predicates[i].max)
  }

  lemma AtMostIsTransitive(a: Bytes, b: Bytes, c: Bytes)
    requires AtMost(a, b) && AtMost(b, c)
    ensures AtMost(a, c)
  {
    if a != b {
      BelowAtMost(a, b, c);
    }
  }

  /** No false negatives: a group that holds a row satisfying all predicates is
      never pruned. */
  lemma PruningIsSound(groups: seq<Group>, predicates: seq<RangePredicate>, g: Group, row: Row)
    requires g in groups && Recorded(g.stats.columns, row) && Satisfies(row, predicates)
    ensures g in Surviving(groups, predicates)
  {
    hide AtMost;
    forall i | 0 <= i < |predicates|
      ensures Overlaps(g.stats.columns, predicates[i])
    {
      var p := predicates[i];
      if p.column in g.stats.columns {
        AtMostIsTransitive(g.stats.columns[p.column].min, row[p.column], p.max);
        AtMostIsTransitive(p.min, row[p.column], g.stats.columns[p.column].max);
      }
    }
    SurvivesIffOverlaps(groups, predicates, g);
  }

  /** The interval test is exact: on proper ranges it passes exactly when some value
      within the recorded range satisfies the predicate. */
  lemma OverlapIsSharedValue(columns: Columns, p: RangePredicate)
    requires p.column in columns && AtMost(p.min, p.max)
    requires AtMost(columns[p.column].min, columns[p.column].max)
    ensures Overlaps(columns, p) <==>
            exists v :: Between(columns[p.column].min, v, columns[p.column].max) && Between(p.min, v, p.max)
  {
    hide Below;
    var s := columns[p.column];
    if Overlaps(columns, p) {
      BelowIsTotal(s.min, p.min);
      var v := if Below(s.min, p.min) then p.min else s.min;
      assert Between(s.min, v, s.max) && Between(p.min, v, p.max);
    }
    if v :| Between(s.min, v, s.max) && Between(p.min, v, p.max) {
      AtMostIsTransitive(s.min, v, p.max);
      AtMostIsTransitive(p.min, v, s.max);
    }
  }

  /** The ranges share a value, when they are on one column; a range meets itself
      exactly when its lower bound is at or below its upper one. */
  predicate Meet(p: RangePredicate, q: RangePredicate) {
    p.column == q.column ==> AtMost(p.min, q.max) && AtMost(q.min, p.max)
  }

  ghost predicate AllMeet(predicates: seq<RangePredicate>) {
    forall i, j :: 0 <= i < |predicates| && 0 <= j < |predicates| ==> Meet(predicates[i], predicates[j])
  }

  /** The columns asked about have a recorded minimum at or below their maximum. */
  ghost predicate RecordedInOrder(columns: Columns, predicates: seq<RangePredicate>) {
    forall p :: p in predicates && p.column in columns ==> AtMost(columns[p.column].min, columns[p.column].max)
  }

  /** The least value at or above every lower bound on a column, recorded or asked for. */
  function LeastAllowed(columns: Columns, predicates: seq<RangePredicate>, c: Bytes): Bytes {
    if predicates == [] then (if c in columns then columns[c].min else [])
    else
      var least := LeastAllowed(columns, Front(predicates), c);
      if Last(predicates).column == c && Below(least, Last(predicates).min) then Last(predicates).min else least
  }

  /** Every lower bound on the column is at or below the bound. */
  ghost predicate BoundsBelow(columns: Columns, predicates: seq<RangePredicate>, c: Bytes, bound: Bytes) {
    && (c in columns ==> AtMost(columns[c].min, bound))
    && forall i :: 0 <= i < |predicates| && predicates[i].column == c ==> AtMost(predicates[i].min, bound)
  }

  lemma {:induction false} LeastAllowedIsLeast(
    columns: Columns, predicates: seq<RangePredicate>, c: Bytes, bound: Bytes)
    ensures BoundsBelow(columns, predicates, c, LeastAllowed(columns, predicates, c))
    ensures BoundsBelow(columns, predicates, c, bound) ==> AtMost(LeastAllowed(columns, predicates, c), bound)
  {
    hide Below;
    if predicates == [] {
      EmptyIsLeast(bound);
    } else {
      var init, p := Front(predicates), Last(predicates);
      var least, raised := LeastAllowed(columns, init, c), LeastAllowed(columns, predicates, c);
      LeastAllowedIsLeast(columns, init, c, bound);
      BelowIsTotal(least, p.min);
      if c in columns {
        AtMostIsTransitive(columns[c].min, least, raised);
      }
      forall i | 0 <= i < |init| && init[i].column == c
        ensures AtMost(init[i].min, raised)
      {
        AtMostIsTransitive(init[i].min, least, raised);
      }
    }
  }

  /** The least value allowed lies below an upper bound that every range on the
      column reaches down to. */
  lemma LeastAllowedFits(columns: Columns, predicates: seq<RangePredicate>, p: RangePredicate)
    requires p in predicates && OverlapsAll(columns, predicates) && AllMeet(predicates)
    requires RecordedInOrder(columns, predicates)
    ensures var v := LeastAllowed(columns, predicates, p.column);
            && Between(p.min, v, p.max)
            && (p.column in columns ==> Between(columns[p.column].min, v, columns[p.column].max))
  {
    hide AtMost, LeastAllowed;
    var c := p.column;
    LeastAllowedIsLeast(columns, predicates, c, p.max);
    forall i | 0 <= i < |predicates| && predicates[i].column == c
      ensures AtMost(predicates[i].min, p.max)
    {
      assert Meet(predicates[i], p);
    }
    if c in columns {
      LeastAllowedIsLeast(columns, predicates, c, columns[c].max);
      assert forall i :: 0 <= i < |predicates| && predicates[i].column == c ==> Overlaps(columns, predicates[i]);
    }
  }

  /** A row of the least values allowed satisfies predicates that overlap what was
      recorded and pairwise meet. */
  lemma SatisfyingRow(columns: Columns, predicates: seq<RangePredicate>) returns (row: Row)
    requires OverlapsAll(columns, predicates) && AllMeet(predicates) && RecordedInOrder(columns, predicates)
    ensures Recorded(columns, row) && Satisfies(row, predicates)
  {
    hide LeastAllowed, Between, OverlapsAll, AllMeet, RecordedInOrder;
    var named := set p | p in predicates :: p.column;
    row := map c | c in named :: LeastAllowed(columns, predicates, c);
    forall p | p in predicates
      ensures Between(p.min, row[p.column], p.max)
      ensures p.column in columns ==> Between(columns[p.column].min, row[p.column], columns[p.column].max)
    {
      LeastAllowedFits(columns, predicates, p);
    }
    forall c | c in columns && c in row
      ensures Between(columns[c].min, row[c], columns[c].max)
    {
      var p :| p in predicates && p.column == c;
    }
  }

  /** One row cannot satisfy two ranges that do not meet. */
  lemma SatisfiedRangesMeet(row: Row, predicates: seq<RangePredicate>)
    requires Satisfies(row, predicates)
    ensures AllMeet(predicates)
  {
    hide AtMost;
    forall i, j | 0 <= i < |predicates| && 0 <= j < |predicates| && predicates[i].column == predicates[j].column
      ensures Meet(predicates[i], predicates[j])
    {
      var p, q := predicates[i], predicates[j];
      AtMostIsTransitive(p.min, row[p.column], q.max);
      AtMostIsTransitive(q.min, row[p.column], p.max);
    }
  }

  lemma SatisfiedColumnsAreInOrder(columns: Columns, row: Row, predicates: seq<RangePredicate>)
    requires Recorded(columns, row) && Satisfies(row, predicates)
    ensures RecordedInOrder(columns, predicates)
  {
    hide AtMost;
    forall p | p in predicates && p.column in columns
      ensures AtMost(columns[p.column].min, columns[p.column].max)
    {
      AtMostIsTransitive(columns[p.column].min, row[p.column], columns[p.column].max);
    }
  }

  /** When pruning is exact, for every conjunction over any statistics: some row
      they allow satisfies all predicates exactly when the group is kept, the
      predicates pairwise meet and the columns asked about have a minimum at or
      below their maximum. A kept group of sound statistics is a false positive
      exactly when two ranges on one column, or the ends of one range, do not meet. */
  lemma PruningIsExact(groups: seq<Group>, predicates: seq<RangePredicate>, g: Group)
    requires g in groups
    ensures (exists row :: Recorded(g.stats.columns, row) && Satisfies(row, predicates)) <==>
            g in Surviving(groups, predicates) && AllMeet(predicates) && RecordedInOrder(g.stats.columns, predicates)
  {
    hide OverlapsAll, Recorded, Satisfies, Surviving, AllMeet, RecordedInOrder;
    SurvivesIffOverlaps(groups, predicates, g);
    if g in Surviving(groups, predicates) && AllMeet(predicates) && RecordedInOrder(g.stats.columns, predicates) {
      var row := SatisfyingRow(g.stats.columns, predicates);
    }
    if row :| Recorded(g.stats.columns, row) && Satisfies(row, predicates) {
      PruningIsSound(groups, predicates, g, row);
      SatisfiedRangesMeet(row, predicates);
      SatisfiedColumnsAreInOrder(g.stats.columns, row, predicates);
    }
  }

  /** Two disjoint ranges on one column that both overlap the recorded one: the
      group is kept, and no row satisfies both. */
  lemma DisjointRangesCanSurvive(column: Bytes, row: Row)
    ensures var columns := map[column := ColumnStats([0], [9], 0)];
            var predicates := [RangePredicate(column, [1], [2]), RangePredicate(column, [5], [6])];
            OverlapsAll(columns, predicates) && !Satisfies(row, predicates)
  {
    var predicates := [RangePredicate(column, [1], [2]), RangePredicate(column, [5], [6])];
    assert !Meet(predicates[0], predicates[1]);
    if Satisfies(row, predicates) {
      SatisfiedRangesMeet(row, predicates);
    }
  }

  // ---------------------------------------------------------------------
  // Adding a row group
  // ---------------------------------------------------------------------

  /** Collecting pairs into a map: a repeated column keeps its last statistics. */
  function Collected(columns: seq<Pair<ColumnStats>>): Columns {
    if columns == [] then map[] else Collected(Front(columns))[Last(columns).key := Last(columns).value]
  }

  /** A column has statistics exactly when some pair names it. */
  lemma {:induction false} CollectedNames(columns: seq<Pair<ColumnStats>>, c: Bytes)
    ensures c in Collected(columns) <==> c in KeySet(columns)
  {
    if columns != [] {
      CollectedNames(Front(columns), c);
      assert columns == Front(columns) + [Last(columns)];
    }
  }

  /** They are those of the last pair that does. */
  lemma {:induction false} CollectedHoldsLast(columns: seq<Pair<ColumnStats>>, c: Bytes) returns (i: nat)
    requires c in Collected(columns)
    ensures i < |columns| && columns[i] == Pair(c, Collected(columns)[c])
    ensures forall j :: i < j < |columns| ==> columns[j].key != c
  {
    if Last(columns).key == c {
      i := |columns| - 1;
    } else {
      i := CollectedHoldsLast(Front(columns), c);
    }
  }

  ghost predicate DistinctPaths(files: seq<FileStats>) {
    forall i, j :: 0 <= i < j < |files| ==> files[i].path != files[j].path
  }

  /** The row groups recorded for a path, in order. */
  function RowGroupsOf(files: seq<FileStats>, path: Bytes): seq<RowGroupStats> {
    if files == [] then []
    else RowGroupsOf(Front(files), path) + if Last(files).path == path then Last(files).rowGroups else []
  }

  lemma {:induction false} AbsentPathHasNoGroups(files: seq<FileStats>, path: Bytes)
    requires forall i :: 0 <= i < |files| ==> files[i].path != path
    ensures RowGroupsOf(files, path) == []
  {
    if files != [] {
      AbsentPathHasNoGroups(Front(files), path);
    }
  }

  /** Growing one file's row groups grows exactly what is recorded for its path. */
  lemma {:induction false} GrowsOneFile(files: seq<FileStats>, i: nat, rg: RowGroupStats, path: Bytes)
    requires DistinctPaths(files) && i < |files|
    ensures var grown := files[i := FileStats(files[i].path, files[i].rowGroups + [rg])];
            RowGroupsOf(grown, path) == RowGroupsOf(files, path) + if path == files[i].path then [rg] else []
    decreases |files|
  {
    var grown := files[i := FileStats(files[i].path, files[i].rowGroups + [rg])];
    if i == |files| - 1 {
      assert Front(grown) == Front(files);
    } else {
      GrowsOneFile(Front(files), i, rg, path);
      assert Front(grown) == Front(files)[i := grown[i]];
      if path == files[i].path {
        assert Last(files).path != path;
      }
    }
  }

  /** The manifest's row groups are those recorded for their files. */
  lemma {:induction false} GroupsAreRecorded(files: seq<FileStats>, g: Group)
    ensures g in Groups(files) <==> g.stats in RowGroupsOf(files, g.file)
  {
    if files != [] {
      GroupsAreRecorded(Front(files), g);
      var last := FileGroups(Last(files).path, Last(files).rowGroups);
      assert g in last <==> g.file == Last(files).path && g.stats in Last(files).rowGroups by {
        if g.file == Last(files).path && g.stats in Last(files).rowGroups {
          var i :| 0 <= i < |Last(files).rowGroups| && Last(files).rowGroups[i] == g.stats;
          assert last[i] == g;
        }
      }
    }
  }

  /** A query names a row group of a file exactly when that file has recorded one of
      this number whose statistics overlap every predicate. */
  lemma QueryNames(files: seq<FileStats>, predicates: seq<RangePredicate>, path: Bytes, n: u32)
    ensures RowGroupRef(path, n) in Refs(Surviving(Groups(files), predicates)) <==>
            exists rg :: rg in RowGroupsOf(files, path) && rg.rowGroup == n && OverlapsAll(rg.columns, predicates)
  {
    hide Surviving, Groups, RowGroupsOf, OverlapsAll;
    var found := Surviving(Groups(files), predicates);
    if RowGroupRef(path, n) in Refs(found) {
      var i :| 0 <= i < |found| && Refs(found)[i] == RowGroupRef(path, n);
      SurvivesIffOverlaps(Groups(files), predicates, found[i]);
      GroupsAreRecorded(files, found[i]);
    }
    if rg :| rg in RowGroupsOf(files, path) && rg.rowGroup == n && OverlapsAll(rg.columns, predicates) {
      var g := Group(path, rg);
      GroupsAreRecorded(files, g);
      SurvivesIffOverlaps(Groups(files), predicates, g);
      var i :| 0 <= i < |found| && found[i] == g;
      assert Refs(found)[i] == RowGroupRef(path, n);
    }
  }

  /** Results come in manifest order: files as listed, each file's row groups as
      recorded. Row group j of file i stands behind the groups of the files before. */
  lemma {:induction false} GroupsFollowManifest(files: seq<FileStats>, i: nat, j: nat)
    requires i < |files| && j < |files[i].rowGroups|
    ensures |Groups(files[..i])| + j < |Groups(files)|
    ensures Groups(files)[|Groups(files[..i])| + j] == Group(files[i].path, files[i].rowGroups[j])
    decreases |files|
  {
    if i == |files| - 1 {
      assert files[..i] == Front(files);
    } else {
      GroupsFollowManifest(Front(files), i, j);
      assert Front(files)[..i] == files[..i];
    }
  }

  /** Pruning keeps that order: a kept group stands behind the survivors of those
      before it, and no others. */
  lemma SurvivorsKeepOrder(groups: seq<Group>, predicates: seq<RangePredicate>, k: nat)
    requires k < |groups| && OverlapsAll(groups[k].stats.columns, predicates)
    ensures |Surviving(groups[..k], predicates)| < |Surviving(groups, predicates)|
    ensures Surviving(groups, predicates)[|Surviving(groups[..k], predicates)|] == groups[k]
  {
    hide OverlapsAll;
    var upto := groups[..k + 1];
    assert groups == upto + groups[k + 1..];
    SurvivingConcat(upto, groups[k + 1..], predicates);
    assert Front(upto) == groups[..k] && Last(upto) == groups[k];
  }

  class StatsManifest {
    const version: u32
    var files: seq<FileStats>

    ghost predicate Valid()
      reads this
    {
      DistinctPaths(files)
    }

    constructor ()
      ensures Valid() && files == [] && version == 1
    {
      version, files := 1, [];
    }

    /** Appends the row group to its file's, creating the file at the end when it is
        new; every other file keeps what it had. */
    method AddRowGroup(path: Bytes, rowGroup: u32, columns: seq<Pair<ColumnStats>>)
      requires Valid()
      modifies this
      ensures Valid()
      ensures forall p :: RowGroupsOf(files, p) ==
                          RowGroupsOf(old(files), p)
                            + if p == path then [RowGroupStats(rowGroup, Collected(columns))] else []
      ensures |files| == |old(files)| || (|files| == |old(files)| + 1 && Last(files).path == path)
      ensures forall i :: 0 <= i < |old(files)| ==> files[i].path == old(files)[i].path
    {
      hide RowGroupsOf;
      var rg := RowGroupStats(rowGroup, Collected(columns));
      for i := 0 to |files|
        invariant files == old(files)
        invariant forall j :: 0 <= j < i ==> files[j].path != path
      {
        if files[i].path == path {
          forall p
            ensures RowGroupsOf(files[i := FileStats(path, files[i].rowGroups + [rg])], p) ==
                    RowGroupsOf(files, p) + if p == path then [rg] else []
          {
            GrowsOneFile(files, i, rg, p);
          }
          files := files[i := FileStats(path, files[i].rowGroups + [rg])];
          return;
        }
      }
      forall p
        ensures RowGroupsOf(files + [FileStats(path, [rg])], p) ==
                RowGroupsOf(files, p) + if p == path then [rg] else []
      {
        AddsOneFile(files, path, rg, p);
      }
      files := files + [FileStats(path, [rg])];
    }

    /** query_overlap: for each row group the conjunction, left at the first predicate
        that misses. */
    method QueryOverlap(predicates: seq<RangePredicate>) returns (results: seq<RowGroupRef>)
      ensures results == Refs(Surviving(Groups(files), predicates))
    {
      hide Surviving, Overlaps;
      if predicates == [] {
        NoPredicatePrunesNothing(Groups(files));
        results := AllRowGroupRefs();
        return;
      }
      results := [];
      EmptySurvives(predicates);
      for i := 0 to |files|
        invariant results == Refs(Surviving(Groups(files[..i]), predicates))
      {
        assert Front(files[..i + 1]) == files[..i] && Last(files[..i + 1]) == files[i];
        ghost var done := Groups(files[..i]);
        var found := QueryFile(files[i], predicates);
        SurvivingConcat(done, FileGroups(files[i].path, files[i].rowGroups), predicates);
        results := results + found;
      }
      assert files[..|files|] == files;
    }

    method AllRowGroupRefs() returns (refs: seq<RowGroupRef>)
      ensures refs == Refs(Groups(files))
    {
      refs := [];
      for i := 0 to |files|
        invariant refs == Refs(Groups(files[..i]))
      {
        assert Front(files[..i + 1]) == files[..i] && Last(files[..i + 1]) == files[i];
        var found := FileRefs(files[i]);
        refs := refs + found;
      }
      assert files[..|files|] == files;
    }
  }

  lemma EmptySurvives(predicates: seq<RangePredicate>)
    ensures Surviving([], predicates) == []
  {
  }

  lemma AddsOneFile(files: seq<FileStats>, path: Bytes, rg: RowGroupStats, p: Bytes)
    requires forall i :: 0 <= i < |files| ==> files[i].path != path
    ensures RowGroupsOf(files + [FileStats(path, [rg])], p) ==
            RowGroupsOf(files, p) + if p == path then [rg] else []
  {
    assert Front(files + [FileStats(path, [rg])]) == files;
  }

  method FileRefs(file: FileStats) returns (refs: seq<RowGroupRef>)
    ensures refs == Refs(FileGroups(file.path, file.rowGroups))
  {
    refs := [];
    for i := 0 to |file.rowGroups|
      invariant refs == Refs(FileGroups(file.path, file.rowGroups[..i]))
    {
      refs := refs + [RowGroupRef(file.path, file.rowGroups[i].rowGroup)];
    }
    assert file.rowGroups[..|file.rowGroups|] == file.rowGroups;
  }

  /** The inner loops: one file's row groups, each against the predicates. */
  method QueryFile(file: FileStats, predicates: seq<RangePredicate>) returns (results: seq<RowGroupRef>)
    ensures results == Refs(Surviving(FileGroups(file.path, file.rowGroups), predicates))
  {
    hide Overlaps;
    results := [];
    for i := 0 to |file.rowGroups|
      invariant results == Refs(Surviving(FileGroups(file.path, file.rowGroups[..i]), predicates))
    {
      var rg := file.rowGroups[i];
      var upto := FileGroups(file.path, file.rowGroups[..i + 1]);
      assert Front(upto) == FileGroups(file.path, file.rowGroups[..i]) && Last(upto) == Group(file.path, rg);
      var allMatch := true;
      for k := 0 to |predicates|
        invariant allMatch
        invariant forall j :: 0 <= j < k ==> Overlaps(rg.columns, predicates[j])
      {
        if Misses(rg.columns, predicates[k]) {
          MissIsNoOverlap(rg.columns, predicates[k]);
          allMatch := false;
          break;
        }
        MissIsNoOverlap(rg.columns, predicates[k]);
      }
      if allMatch {
        results := results + [RowGroupRef(file.path, rg.rowGroup)];
      }
    }
    assert file.rowGroups[..|file.rowGroups|] == file.rowGroups;
  }

  /** The test as the loop makes it, by strict comparisons. */
  predicate Misses(columns: Columns, p: RangePredicate) {
    p.column in columns &&
    (Below(p.max, columns[p.column].min) || Below(columns[p.column].max, p.min))
  }

  lemma MissIsNoOverlap(columns: Columns, p: RangePredicate)
    ensures Misses(columns, p) <==> !Overlaps(columns, p)
  {
    if p.column in columns {
      CompareIsLinear(columns[p.column].min, p.max);
      CompareIsLinear(p.min, columns[p.column].max);
    }
  }
}
