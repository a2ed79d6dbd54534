/** One run of the ingestion: rows are buffered, flushed to numbered temporary batches whenever the memory
    readings say so, and consolidated year by year into the date-partitioned files. */
module Ingestion {
  import opened Options
  import opened Sequences
  import opened Calendar
  import opened MarketRows

  const ROW_LIMIT: nat := 2_000_000

  /** A temporary Parquet file: its row groups. */
  type TempFile = seq<seq<Row>>

  predicate WellFormedFile(f: TempFile) {
    f != [] && forall i :: 0 <= i < |f| ==> f[i] != []
  }

  /** The rows of batch `b`. */
  function BatchAt(files: map<nat, TempFile>, b: nat): seq<Row> {
    if b in files then Flatten(files[b]) else []
  }

  /** The rows of each of the batches 0 to n-1. */
  function BatchList(files: map<nat, TempFile>, n: nat): (r: seq<seq<Row>>)
    ensures |r| == n
  {
    seq(n, i requires 0 <= i < n => BatchAt(files, i))
  }

  /** A flushed buffer becomes the next batch. */
  lemma NextBatch(files: map<nat, TempFile>, n: nat, file: TempFile)
    ensures BatchList(files[n := file], n + 1) == BatchList(files, n) + [Flatten(file)]
  {
  }

  /** Archive members whose rows one batch can hold: there is a row, and the buffer is below the limit before the
      last member is read. */
  predicate FitsBatch(group: seq<seq<Row>>) {
    group != [] && Flatten(group) != [] && |Flatten(group[..|group| - 1])| < ROW_LIMIT
  }

  /** The members are put into the batches whole and in reading order, each batch holding one of the groups. */
  ghost predicate Grouped(groups: seq<seq<seq<Row>>>, batches: seq<seq<Row>>, members: seq<seq<Row>>) {
    Flatten(groups) == members && Flattened(groups) == batches && forall g :: g in groups ==> FitsBatch(g)
  }

  /** Some flush schedule turns the members into these batches. */
  ghost predicate Schedule(batches: seq<seq<Row>>, members: seq<seq<Row>>) {
    exists groups :: Grouped(groups, batches, members)
  }

  lemma ScheduleKeepsRows(batches: seq<seq<Row>>, members: seq<seq<Row>>)
    requires Schedule(batches, members)
    ensures Flatten(batches) == Flatten(members)
  {
    var groups :| Grouped(groups, batches, members);
    FlattenFlatten(groups);
  }

  /** The batches in the order they are listed. */
  function ListedBatches(files: map<nat, TempFile>, listing: seq<nat>): (r: seq<seq<Row>>)
    ensures |r| == |listing|
  {
    seq(|listing|, i requires 0 <= i < |listing| => BatchAt(files, listing[i]))
  }

  /** Every listing of the directory holds each batch once. */
  lemma {:induction false} ListingPermutes(files: map<nat, TempFile>, n: nat, listing: seq<nat>)
    requires forall b: nat :: b in listing <==> b < n
    requires forall i, j :: 0 <= i < j < |listing| ==> listing[i] != listing[j]
    ensures Permutation(ListedBatches(files, listing), BatchList(files, n))
  {
    hide BatchAt;
    if listing == [] {
      assert n - 1 !in listing;
    } else {
      assert listing[0] in listing;
      var head, tail := SplitListing(listing, n);
      ListingPermutes(files, n - 1, head + tail);
      hide Permutation;
      var a, b, last := ListedBatches(files, head), ListedBatches(files, tail), BatchAt(files, n - 1);
      assert ListedBatches(files, listing) == a + [last] + b;
      assert ListedBatches(files, head + tail) == a + b;
      assert BatchList(files, n) == BatchList(files, n - 1) + [last];
      WithOne(a, b, last, BatchList(files, n - 1));
    }
  }

  lemma SplitListing(listing: seq<nat>, n: nat) returns (head: seq<nat>, tail: seq<nat>)
    requires n > 0 && forall b: nat :: b in listing <==> b < n
    requires forall i, j :: 0 <= i < j < |listing| ==> listing[i] != listing[j]
    ensures listing == head + [n - 1] + tail
    ensures forall b: nat :: b in head + tail <==> b < n - 1
    ensures forall i, j :: 0 <= i < j < |head + tail| ==> (head + tail)[i] != (head + tail)[j]
  {
    assert n - 1 in listing;
    var j :| 0 <= j < |listing| && listing[j] == n - 1;
    head, tail := listing[..j], listing[j + 1..];
    forall b: nat ensures b in head + tail <==> b in listing && b != n - 1 {
      if b in listing && b != n - 1 {
        var i :| 0 <= i < |listing| && listing[i] == b;
        assert if i < j then head[i] == b else tail[i - j - 1] == b;
      }
    }
  }

  /** The rows a run can put into file `k` at once: those that belong there, whole batches being read in some listing
      order and each batch in its row order. */
  ghost predicate GroupRows(group: seq<Row>, batches: seq<seq<Row>>, k: FileKey) {
    exists order :: Permutation(order, batches) && group == RowsFor(Flatten(order), k)
  }

  /** File `k` after the consolidation of the batches. */
  ghost predicate FileAfter(before: Option<seq<Row>>, after: Option<seq<Row>>, batches: seq<seq<Row>>, k: FileKey) {
    exists group :: GroupRows(group, batches, k) && after == MergeFile(before, group)
  }

  /** The output directory after a run over the members, under some flush schedule. */
  ghost predicate Ingested(before: map<FileKey, seq<Row>>, members: seq<seq<Row>>, after: map<FileKey, seq<Row>>) {
    exists batches :: Schedule(batches, members) && Consolidated(before, batches, after)
  }

  ghost predicate Consolidated(before: map<FileKey, seq<Row>>, batches: seq<seq<Row>>,
                               after: map<FileKey, seq<Row>>) {
    forall k :: FileAfter(Lookup(before, k), Lookup(after, k), batches, k)
  }

  lemma RowsForPermutes(s: seq<Row>, t: seq<Row>, k: FileKey)
    requires Permutation(s, t)
    ensures Permutation(RowsFor(s, k), RowsFor(t, k))
  {
    forall x ensures multiset(RowsFor(s, k))[x] == multiset(RowsFor(t, k))[x] {
      FilterCount(s, BelongsTo(k), x);
      FilterCount(t, BelongsTo(k), x);
    }
    assert multiset(RowsFor(s, k)) == multiset(RowsFor(t, k));
  }

  /** Up to their order, the rows put into a file are those of the whole input that belong there. */
  lemma GroupRowsPermute(group: seq<Row>, batches: seq<seq<Row>>, k: FileKey)
    requires GroupRows(group, batches, k)
    ensures Permutation(group, RowsFor(Flatten(batches), k))
    ensures |group| == |RowsFor(Flatten(batches), k)|
  {
    var order :| Permutation(order, batches) && group == RowsFor(Flatten(order), k);
    FlattenPermutes(order, batches);
    RowsForPermutes(Flatten(order), Flatten(batches), k);
    PermutationElements(group, RowsFor(Flatten(batches), k));
  }

  lemma UntouchedFile(file: Option<seq<Row>>, batches: seq<seq<Row>>, k: FileKey)
    requires RowsFor(Flatten(batches), k) == []
    ensures FileAfter(file, file, batches, k)
  {
    assert Permutation(batches, batches);
    assert GroupRows([], batches, k) && file == MergeFile(file, []);
  }

  /** The state of the output directory while `year` is consolidated and the `pending` files are not yet written. */
  ghost predicate Progress(before: map<FileKey, seq<Row>>, after: map<FileKey, seq<Row>>,
                           batches: seq<seq<Row>>, year: nat, pending: set<FileKey>) {
    forall k: FileKey :: FileProgress(Lookup(before, k), Lookup(after, k), batches, year, pending, k)
  }

  ghost predicate FileProgress(before: Option<seq<Row>>, after: Option<seq<Row>>, batches: seq<seq<Row>>, year: nat,
                               pending: set<FileKey>, k: FileKey) {
    if k.date.year <= year && k !in pending then FileAfter(before, after, batches, k) else after == before
  }

  /** The files with rows to write up to `year`, except the pending ones. */
  ghost predicate WrittenSoFar(written: seq<FileKey>, input: seq<Row>, year: nat, pending: set<FileKey>) {
    && (forall i, j :: 0 <= i < j < |written| ==> written[i] != written[j])
    && (forall k :: k in written <==> k.date.year <= year && k !in pending && RowsFor(input, k) != [])
  }

  function WindowOf(year: nat): Row -> bool {
    (r: Row) => InWindow(r.quote.timestamp, year)
  }

  function GroupOf(g: (Date, string)): Row -> bool {
    (r: Row) => StampDate(r.quote.timestamp) == g.0 && r.assetType == g.1
  }

  function GroupFile(g: (Date, string)): FileKey {
    FileKey(FolderOf(g.1), g.0)
  }

  function GroupKeys(table: seq<Row>): set<(Date, string)> {
    set r | r in table :: (StampDate(r.quote.timestamp), r.assetType)
  }

  ghost function GroupFiles(groups: set<(Date, string)>): set<FileKey> {
    set g | g in groups :: GroupFile(g)
  }

  /** A year's table: whole batches are read in some listing order, keeping the rows in the year's window. */
  ghost predicate YearTable(table: seq<Row>, batches: seq<seq<Row>>, year: nat) {
    exists order :: Permutation(order, batches) && table == Filter(Flatten(order), WindowOf(year))
  }

  ghost predicate AllKnown(rows: seq<Row>) {
    forall r :: r in rows ==> KnownAssetType(r)
  }

  lemma YearTableMember(table: seq<Row>, batches: seq<seq<Row>>, year: nat, r: Row)
    requires YearTable(table, batches, year)
    ensures r in table <==> r in Flatten(batches) && Covered(r.quote.timestamp) && StampYear(r.quote.timestamp) == year
  {
    var order :| Permutation(order, batches) && table == Filter(Flatten(order), WindowOf(year));
    FlattenPermutes(order, batches);
    PermutationElements(Flatten(order), Flatten(batches));
    WindowIffCovered(r.quote.timestamp, year);
  }

  lemma GroupMembership(x: Row, year: nat, g: (Date, string))
    requires KnownAssetType(x) && g.0.year == year && g.1 in {"STOCK", "FUND"}
    ensures WindowOf(year)(x) && GroupOf(g)(x) <==> BelongsTo(GroupFile(g))(x)
  {
  }

  lemma GroupKeyFacts(table: seq<Row>, batches: seq<seq<Row>>, year: nat, g: (Date, string))
    requires YearTable(table, batches, year) && AllKnown(Flatten(batches)) && g in GroupKeys(table)
    ensures g.0.year == year && g.1 in {"STOCK", "FUND"} && Filter(table, GroupOf(g)) != []
  {
    var row :| row in table && (StampDate(row.quote.timestamp), row.assetType) == g;
    YearTableMember(table, batches, year, row);
    DateDeterminesYear(row.quote.timestamp);
    assert row in Filter(table, GroupOf(g));
  }

  /** A group of a year's table is exactly what its file must receive from the whole batches, in the order read. */
  lemma GroupIsRowsFor(table: seq<Row>, batches: seq<seq<Row>>, year: nat, g: (Date, string))
    requires YearTable(table, batches, year) && AllKnown(Flatten(batches)) && g in GroupKeys(table)
    ensures GroupRows(Filter(table, GroupOf(g)), batches, GroupFile(g))
    ensures RowsFor(Flatten(batches), GroupFile(g)) != [] && Filter(table, GroupOf(g)) != [] && g.0.year == year
  {
    var order :| Permutation(order, batches) && table == Filter(Flatten(order), WindowOf(year));
    GroupKeyFacts(table, batches, year, g);
    FlattenPermutes(order, batches);
    PermutationElements(Flatten(order), Flatten(batches));
    forall x | x in Flatten(order) ensures BelongsTo(GroupFile(g))(x) <==> WindowOf(year)(x) && GroupOf(g)(x) {
      GroupMembership(x, year, g);
    }
    FilterTwice(Flatten(order), WindowOf(year), GroupOf(g), BelongsTo(GroupFile(g)));
    GroupRowsPermute(Filter(table, GroupOf(g)), batches, GroupFile(g));
  }

  lemma WrittenRowHasGroup(table: seq<Row>, batches: seq<seq<Row>>, year: nat, x: Row)
    requires YearTable(table, batches, year) && x in Flatten(batches)
    requires Covered(x.quote.timestamp) && StampDate(x.quote.timestamp).year == year
    ensures KeyOf(x) in GroupFiles(GroupKeys(table))
  {
    DateDeterminesYear(x.quote.timestamp);
    YearTableMember(table, batches, year, x);
    assert (StampDate(x.quote.timestamp), x.assetType) in GroupKeys(table);
  }

  /** A file of the year that is no group's file receives nothing. */
  lemma OtherFilesReceiveNothing(table: seq<Row>, batches: seq<seq<Row>>, year: nat, k: FileKey)
    requires YearTable(table, batches, year) && k.date.year == year && k !in GroupFiles(GroupKeys(table))
    ensures RowsFor(Flatten(batches), k) == []
  {
    if RowsFor(Flatten(batches), k) != [] {
      var x := RowsFor(Flatten(batches), k)[0];
      assert x in RowsFor(Flatten(batches), k);
      WrittenRowHasGroup(table, batches, year, x);
    }
  }

  /** Known asset types go to different folders, so different groups go to different files. */
  lemma GroupFileInjective(table: seq<Row>, g: (Date, string), h: (Date, string))
    requires AllKnown(table) && g in GroupKeys(table) && h in GroupKeys(table)
    ensures GroupFile(g) == GroupFile(h) ==> g == h
  {
  }

  /** Entering a year: its groups' files are pending and its other files are done. */
  lemma EnterYear(before: map<FileKey, seq<Row>>, after: map<FileKey, seq<Row>>, batches: seq<seq<Row>>, year: nat,
                  table: seq<Row>, written: seq<FileKey>)
    requires year >= 1 && YearTable(table, batches, year)
    requires Progress(before, after, batches, year - 1, {}) && WrittenSoFar(written, Flatten(batches), year - 1, {})
    requires forall g :: g in GroupKeys(table) ==> g.0.year == year
    ensures Progress(before, after, batches, year, GroupFiles(GroupKeys(table)))
    ensures WrittenSoFar(written, Flatten(batches), year, GroupFiles(GroupKeys(table)))
  {
    var pending := GroupFiles(GroupKeys(table));
    assert forall k: FileKey :: k in pending ==> k.date.year == year;
    forall k: FileKey | k.date.year == year && k !in pending ensures RowsFor(Flatten(batches), k) == [] {
      OtherFilesReceiveNothing(table, batches, year, k);
    }
    OtherFilesAreDone(before, after, batches, year, pending);
    OtherFilesAreWritten(written, Flatten(batches), year, pending);
    hide *;
  }

  lemma OtherFilesAreWritten(written: seq<FileKey>, input: seq<Row>, year: nat, pending: set<FileKey>)
    requires year >= 1 && WrittenSoFar(written, input, year - 1, {})
    requires forall k: FileKey :: k in pending ==> k.date.year == year
    requires forall k: FileKey :: k.date.year == year && k !in pending ==> RowsFor(input, k) == []
    ensures WrittenSoFar(written, input, year, pending)
  {
    hide RowsFor;
  }

  lemma OtherFilesAreDone(before: map<FileKey, seq<Row>>, after: map<FileKey, seq<Row>>, batches: seq<seq<Row>>,
                          year: nat, pending: set<FileKey>)
    requires year >= 1 && Progress(before, after, batches, year - 1, {})
    requires forall k: FileKey :: k in pending ==> k.date.year == year
    requires forall k: FileKey :: k.date.year == year && k !in pending ==> RowsFor(Flatten(batches), k) == []
    ensures Progress(before, after, batches, year, pending)
  {
    hide FileAfter, RowsFor;
    forall k: FileKey ensures FileProgress(Lookup(before, k), Lookup(after, k), batches, year, pending, k) {
      assert FileProgress(Lookup(before, k), Lookup(after, k), batches, year - 1, {}, k);
      if k.date.year == year && k !in pending {
        UntouchedFile(Lookup(before, k), batches, k);
      }
    }
  }

  /** Writing one group's file settles that file and no other. */
  lemma SettleFile(before: map<FileKey, seq<Row>>, after: map<FileKey, seq<Row>>, after': map<FileKey, seq<Row>>,
                   batches: seq<seq<Row>>, year: nat, pending: set<FileKey>, k: FileKey, group: seq<Row>)
    requires Progress(before, after, batches, year, pending) && k in pending && k.date.year == year
    requires GroupRows(group, batches, k) && group != []
    requires after' == after[k := MergeFile(Lookup(after, k), group).value]
    ensures Progress(before, after', batches, year, pending - {k})
  {
    assert FileProgress(Lookup(before, k), Lookup(after, k), batches, year, pending, k);
    assert FileAfter(Lookup(before, k), Lookup(after', k), batches, k);
    hide FileAfter;
    forall f: FileKey ensures FileProgress(Lookup(before, f), Lookup(after', f), batches, year, pending - {k}, f) {
      assert FileProgress(Lookup(before, f), Lookup(after, f), batches, year, pending, f);
    }
  }

  lemma GroupFilesWithout(table: seq<Row>, groups: set<(Date, string)>, g: (Date, string))
    requires AllKnown(table) && groups <= GroupKeys(table) && g in groups
    ensures GroupFiles(groups - {g}) == GroupFiles(groups) - {GroupFile(g)}
  {
    forall h | h in groups ensures GroupFile(h) == GroupFile(g) ==> h == g {
      GroupFileInjective(table, g, h);
    }
  }

  /** Writing one group's file records one new write. */
  lemma SettleWrite(written: seq<FileKey>, input: seq<Row>, year: nat, pending: set<FileKey>, k: FileKey)
    requires WrittenSoFar(written, input, year, pending)
    requires k in pending && k.date.year == year && RowsFor(input, k) != []
    ensures WrittenSoFar(written + [k], input, year, pending - {k})
  {
  }

  /** `r`'s year lies between two detected years. */
  ghost predicate Spanned(years: set<nat>, r: Row) {
    exists lo, hi :: lo in years && hi in years && lo <= StampYear(r.quote.timestamp) <= hi
  }

  lemma SpannedByMore(years: set<nat>, more: set<nat>, r: Row)
    requires Spanned(years, r) && years <= more
    ensures Spanned(more, r)
  {
  }

  /** A row group's years span each of its rows. */
  lemma SpannedByStatistics(group: seq<Row>, r: Row, years: set<nat>)
    requires r in group
    requires StampYear(MinStamp(group)) in years && StampYear(MaxStamp(group)) in years
    ensures Spanned(years, r)
  {
    YearOfMonotone(MinStamp(group) / DAY, r.quote.timestamp / DAY);
    YearOfMonotone(r.quote.timestamp / DAY, MaxStamp(group) / DAY);
  }

  function MinStamp(rows: seq<Row>): (m: nat)
    requires rows != []
    ensures forall r :: r in rows ==> m <= r.quote.timestamp
    ensures exists r :: r in rows && r.quote.timestamp == m
  {
    var t := rows[0].quote.timestamp;
    if |rows| == 1 then t
    else
      var m := MinStamp(rows[1..]);
      assert forall r :: r in rows ==> r == rows[0] || r in rows[1..];
      if t < m then t else m
  }

  function MaxStamp(rows: seq<Row>): (m: nat)
    requires rows != []
    ensures forall r :: r in rows ==> r.quote.timestamp <= m
    ensures exists r :: r in rows && r.quote.timestamp == m
  {
    var t := rows[0].quote.timestamp;
    if |rows| == 1 then t
    else
      var m := MaxStamp(rows[1..]);
      assert forall r :: r in rows ==> r == rows[0] || r in rows[1..];
      if t > m then t else m
  }

  /** Some row falls in the year. */
  ghost predicate HasYear(rows: seq<Row>, year: nat) {
    exists r :: r in rows && StampYear(r.quote.timestamp) == year
  }

  lemma ExtremesHaveYears(rows: seq<Row>)
    requires rows != []
    ensures HasYear(rows, StampYear(MinStamp(rows))) && HasYear(rows, StampYear(MaxStamp(rows)))
  {
    var m, n := MinStamp(rows), MaxStamp(rows);
    assert exists r :: r in rows && r.quote.timestamp == m;
    assert exists r :: r in rows && r.quote.timestamp == n;
    hide StampYear;
  }

  lemma StatisticsYears(f: TempFile, g: nat)
    requires g < |f| && f[g] != []
    ensures HasYear(Flatten(f), StampYear(MinStamp(f[g]))) && HasYear(Flatten(f), StampYear(MaxStamp(f[g])))
  {
    ExtremesHaveYears(f[g]);
    hide StampYear, Flatten, MinStamp, MaxStamp;
    forall y | HasYear(f[g], y) ensures HasYear(Flatten(f), y) {
      var r :| r in f[g] && StampYear(r.quote.timestamp) == y;
      FlattenMember(f, r);
    }
  }

  function Max(a: nat, b: nat): nat {
    if a < b then b else a
  }

  lemma MaxOfZero(a: nat)
    ensures Max(a, 0) == a
  {
  }

  lemma MaxAssociates(a: nat, b: nat, c: nat)
    ensures Max(Max(a, b), c) == Max(a, Max(b, c))
  {
  }

  lemma LargestEntryStep(entries: seq<Entry>, i: nat)
    requires i < |entries|
    ensures LargestEntry(entries[..i + 1]) == Max(LargestEntry(entries[..i]), |EntryRows(entries[i])|)
  {
    assert entries[..i + 1][..i] == entries[..i];
  }

  lemma LargestMemberStep(archives: seq<Archive>, i: nat)
    requires i < |archives|
    ensures LargestMember(archives[..i + 1]) ==
            Max(LargestMember(archives[..i]), if archives[i].Readable? then LargestEntry(archives[i].entries) else 0)
  {
    assert archives[..i + 1][..i] == archives[..i];
  }

  /** Rows of the largest archive member. */
  function LargestEntry(entries: seq<Entry>): nat {
    if entries == [] then 0
    else Max(LargestEntry(entries[..|entries| - 1]), |EntryRows(entries[|entries| - 1])|)
  }

  function LargestMember(archives: seq<Archive>): nat {
    if archives == [] then 0
    else
      var last := archives[|archives| - 1];
      Max(LargestMember(archives[..|archives| - 1]), if last.Readable? then LargestEntry(last.entries) else 0)
  }
}
