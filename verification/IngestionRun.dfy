/** The ingestion script as a state machine: the row buffer, the batch counter, the temporary directory and the
    output directory are fields that its steps update in place. Memory readings, row-group sizes and directory
    listing orders are arbitrary, so what is proved holds for every flush schedule. */
module IngestionRun {
  import opened Options
  import opened Sequences
  import opened Calendar
  import opened ArchiveNames
  import opened MarketRows
  import opened Ingestion

  class Ingestor {
    var dataRows: seq<Row>
    var batchIndex: nat
    var tempFiles: map<nat, TempFile>
    var output: map<FileKey, seq<Row>>

    ghost var members: seq<seq<Row>>           // the archive members ever put in the buffer
    ghost var groups: seq<seq<seq<Row>>>       // the members of each batch
    ghost var pending: seq<seq<Row>>           // the members in the buffer
    ghost var largest: nat                     // rows of the largest archive member seen
    ghost var written: seq<FileKey>            // every write to the output directory

    /** The rows of each batch. */
    ghost function Batches(): seq<seq<Row>>
      reads `tempFiles, `batchIndex
    {
      BatchList(tempFiles, batchIndex)
    }

    /** Batches are numbered from 0 without gaps, none is empty or oversized, each holds whole members, and no row is
        lost or reordered. */
    ghost predicate Valid()
      reads `dataRows, `batchIndex, `tempFiles, `members, `groups, `pending, `largest
    {
      && (forall i: nat :: i in tempFiles <==> i < batchIndex)
      && (forall i: nat :: i < batchIndex ==> ProperBatch(tempFiles[i], largest))
      && Grouped(groups, Batches(), Flatten(groups))
      && dataRows == Flatten(pending) && (pending == [] || FitsBatch(pending))
      && members == Flatten(groups) + pending
      && AllKnown(Flatten(members))
      && |dataRows| < ROW_LIMIT + largest
    }

    /** What holds between two archive members. */
    ghost predicate AtFileBoundary()
      reads this
    {
      Valid() && |dataRows| < ROW_LIMIT
    }

    constructor (existing: map<FileKey, seq<Row>>)
      ensures AtFileBoundary()
      ensures output == existing && tempFiles == map[] && batchIndex == 0
      ensures dataRows == [] && members == [] && largest == 0 && written == []
    {
      dataRows, batchIndex, tempFiles, output := [], 0, map[], existing;
      members, groups, pending, largest, written := [], [], [], 0, [];
    }

    /** The Parquet writer cuts the rows into row groups of sizes of its own choosing. */
    method RowGroups(rows: seq<Row>) returns (f: TempFile)
      requires rows != []
      ensures WellFormedFile(f) && Flatten(f) == rows
    {
      f := [];
      var done := 0;
      while done < |rows|
        invariant done <= |rows| && Flatten(f) == rows[..done]
        invariant forall i :: 0 <= i < |f| ==> f[i] != []
        invariant done == 0 <==> f == []
      {
        var size: nat := *;
        var end := if 0 < size <= |rows| - done then done + size else |rows|;
        f := f + [rows[done..end]];
        assert rows[..end] == rows[..done] + rows[done..end];
        done := end;
      }
      assert rows[..done] == rows;
    }

    method FlushBatchToTemp()
      requires Valid()
      modifies `dataRows, `batchIndex, `tempFiles, `groups, `pending
      ensures Valid() && dataRows == []
      ensures batchIndex == old(batchIndex) + if old(dataRows) == [] then 0 else 1
      ensures old(dataRows) == [] ==> tempFiles == old(tempFiles)
      ensures old(dataRows) != [] ==> Flatten(tempFiles[old(batchIndex)]) == old(dataRows)
      ensures forall i: nat :: i < old(batchIndex) ==> tempFiles[i] == old(tempFiles[i])
    {
      if dataRows == [] {
        return;
      }
      var index := batchIndex;
      batchIndex := batchIndex + 1;
      var file := RowGroups(dataRows);
      NextBatch(tempFiles, index, file);
      NextGroup(groups, BatchList(tempFiles, index), pending, dataRows);
      tempFiles := tempFiles[index := file];
      dataRows, groups, pending := [], groups + [pending], [];
    }

    method AppendQuotes(symbol: string, assetType: string, quotes: seq<Quote>)
      requires AtFileBoundary() && assetType in {"STOCK", "FUND"}
      modifies `dataRows, `members, `pending, `largest
      ensures Valid() && largest == Max(old(largest), |quotes|)
      ensures dataRows == old(dataRows) + QuoteRows(symbol, assetType, quotes)
      ensures members == old(members) + if quotes == [] then [] else [QuoteRows(symbol, assetType, quotes)]
    {
      ghost var rows := QuoteRows(symbol, assetType, quotes);
      QuotesKnown(symbol, assetType, quotes);
      hide Flatten, Grouped, FitsBatch, AllKnown, ProperBatch, Batches;
      for i := 0 to |quotes|
        invariant dataRows == old(dataRows) + rows[..i]
        modifies `dataRows
      {
        dataRows := dataRows + [Row(symbol, assetType, quotes[i])];
        assert rows[..i + 1] == rows[..i] + [rows[i]];
      }
      assert rows[..|quotes|] == rows;
      largest := Max(largest, |quotes|);
      if quotes != [] {
        NextMember(members, Flatten(groups), pending, rows);
        members, pending := members + [rows], pending + [rows];
      }
    }

    /** One archive member: read its quotes, then flush if a memory reading or the row count asks for it. */
    method ProcessFile(e: Entry, sysAvail: real, procMem: real, minAvailable: real, maxMemory: real)
      requires AtFileBoundary() && IsDataFile(e.name)
      modifies `dataRows, `batchIndex, `tempFiles, `members, `groups, `pending, `largest
      ensures AtFileBoundary() && |dataRows| < 2_000_000
      ensures members == old(members) + EntryMembers(e)
      ensures largest == Max(old(largest), |EntryRows(e)|)
      ensures var buffer := old(dataRows) + EntryRows(e);
              if !e.read.Skipped? && buffer != [] &&
                 (sysAvail < minAvailable || procMem >= maxMemory || |buffer| >= 2_000_000)
              then batchIndex == old(batchIndex) + 1 && dataRows == [] && Flatten(tempFiles[old(batchIndex)]) == buffer
              else batchIndex == old(batchIndex) && dataRows == buffer && tempFiles == old(tempFiles)
      ensures forall i: nat :: i < old(batchIndex) ==> tempFiles[i] == old(tempFiles[i])
    {
      hide TickerOf, Flatten, Grouped, FitsBatch, AllKnown;
      match e.read {
        case Skipped => return;
        case Failed =>
        case Parsed(quotes) => AppendQuotes(TickerOf(e.name), AssetTypeOf(e.name), quotes);
      }
      if sysAvail < minAvailable {
        FlushBatchToTemp();
      } else if procMem >= maxMemory {
        FlushBatchToTemp();
      } else if |dataRows| >= ROW_LIMIT {
        FlushBatchToTemp();
      }
    }

    method ProcessZipFile(a: Archive, minAvailable: real, maxMemory: real)
      requires AtFileBoundary()
      modifies `dataRows, `batchIndex, `tempFiles, `members, `groups, `pending, `largest
      ensures AtFileBoundary()
      ensures members == old(members) + ArchiveMembers(a)
      ensures largest == Max(old(largest), if a.Readable? then LargestEntry(a.entries) else 0)
    {
      if a.Unreadable? {
        return;
      }
      var entries := a.entries;
      hide AtFileBoundary, EntriesMembers, LargestEntry, EntryMembers, EntryRows, IsDataFile, Max;
      MaxOfZero(largest);
      for i := 0 to |entries|
        invariant AtFileBoundary()
        invariant members == old(members) + EntriesMembers(entries[..i])
        invariant largest == Max(old(largest), LargestEntry(entries[..i]))
      {
        EntriesMembersStep(entries, i);
        LargestEntryStep(entries, i);
        MaxAssociates(old(largest), LargestEntry(entries[..i]), |EntryRows(entries[i])|);
        ConcatAssociates(old(members), EntriesMembers(entries[..i]), EntryMembers(entries[i]));
        if IsDataFile(entries[i].name) {
          var sysAvail: real, procMem: real := *, *;
          ProcessFile(entries[i], sysAvail, procMem, minAvailable, maxMemory);
        } else {
          MaxOfZero(largest);
          OtherEntryAddsNothing(entries[i]);
        }
      }
      assert entries[..|entries|] == entries;
    }

    /** The loading phase: every archive, then a flush of what is left in the buffer. */
    method LoadArchives(archives: seq<Archive>, minAvailable: real, maxMemory: real)
      requires AtFileBoundary()
      modifies `dataRows, `batchIndex, `tempFiles, `members, `groups, `pending, `largest
      ensures Valid() && dataRows == []
      ensures members == old(members) + InputMembers(archives) && Schedule(Batches(), members)
      ensures largest == Max(old(largest), LargestMember(archives))
      ensures forall b :: 0 <= b < |Batches()| ==> 0 < |Batches()[b]| < 2_000_000 + largest
    {
      for i := 0 to |archives|
        invariant AtFileBoundary()
        invariant members == old(members) + InputMembers(archives[..i])
        invariant largest == Max(old(largest), LargestMember(archives[..i]))
      {
        InputMembersStep(archives, i);
        LargestMemberStep(archives, i);
        ConcatAssociates(old(members), InputMembers(archives[..i]), ArchiveMembers(archives[i]));
        ProcessZipFile(archives[i], minAvailable, maxMemory);
      }
      assert archives[..|archives|] == archives;
      if dataRows != [] {
        FlushBatchToTemp();
      }
      AllFlushed();
      BatchesAreSized();
      hide Valid;
    }

    lemma BatchesAreSized()
      requires Valid()
      ensures forall b :: 0 <= b < |Batches()| ==> 0 < |Batches()[b]| < 2_000_000 + largest
    {
    }

    /** When the buffer is empty, the batches hold all members. */
    lemma AllFlushed()
      requires Valid() && dataRows == []
      ensures Schedule(Batches(), members) && Flatten(Batches()) == Flatten(members)
    {
      assert members == Flatten(groups) && Grouped(groups, Batches(), members);
      ScheduleKeepsRows(Batches(), members);
    }

    /** The years of the row-group statistics of every batch, listed in any order. */
    method DetectYears() returns (years: set<nat>)
      requires Valid() && dataRows == []
      ensures forall r :: r in Flatten(Batches()) ==> Spanned(years, r)
      ensures forall y :: y in years ==> y >= 1 && HasYear(Flatten(Batches()), y)
    {
      hide Spanned, HasYear, Grouped, FitsBatch, AllKnown, Flatten;
      years := {};
      var remaining := set i: nat | i in tempFiles;
      while remaining != {}
        invariant remaining <= tempFiles.Keys
        invariant forall i, r :: i in tempFiles && i !in remaining && r in Flatten(tempFiles[i]) ==> Spanned(years, r)
        invariant forall y :: y in years ==> y >= 1 && HasYear(Flatten(Batches()), y)
        decreases remaining
      {
        var b :| b in remaining;
        var found := FileYears(tempFiles[b]);
        BatchIsInput(b, found);
        forall r | Spanned(years, r) || Spanned(found, r) ensures Spanned(years + found, r) {
          SpannedByMore(if Spanned(years, r) then years else found, years + found, r);
        }
        years := years + found;
        remaining := remaining - {b};
      }
      forall r | r in Flatten(Batches()) ensures Spanned(years, r) {
        FlattenMember(Batches(), r);
        var b :| 0 <= b < |Batches()| && r in Batches()[b];
        assert b in tempFiles && r in Flatten(tempFiles[b]);
      }
    }

    lemma BatchIsInput(b: nat, years: set<nat>)
      requires Valid() && dataRows == [] && b in tempFiles
      requires forall y :: y in years ==> HasYear(Flatten(tempFiles[b]), y)
      ensures forall y :: y in years ==> HasYear(Flatten(Batches()), y)
    {
      forall y | y in years ensures HasYear(Flatten(Batches()), y) {
        var r :| r in Flatten(tempFiles[b]) && StampYear(r.quote.timestamp) == y;
        assert r in Batches()[b];
        FlattenMember(Batches(), r);
      }
    }

    method FileYears(f: TempFile) returns (years: set<nat>)
      requires WellFormedFile(f)
      ensures forall r :: r in Flatten(f) ==> Spanned(years, r)
      ensures forall y :: y in years ==> y >= 1 && HasYear(Flatten(f), y)
    {
      hide Spanned, HasYear, Flatten, StampYear, MinStamp, MaxStamp;
      years := {};
      for g := 0 to |f|
        invariant forall i, r :: 0 <= i < g && r in f[i] ==> Spanned(years, r)
        invariant forall y :: y in years ==> y >= 1 && HasYear(Flatten(f), y)
      {
        var lo, hi := StampYear(MinStamp(f[g])), StampYear(MaxStamp(f[g]));
        StatisticsYears(f, g);
        forall r | Spanned(years, r) ensures Spanned(years + {lo, hi}, r) {
          SpannedByMore(years, years + {lo, hi}, r);
        }
        years := years + {lo, hi};
        forall r | r in f[g] ensures Spanned(years, r) {
          SpannedByStatistics(f[g], r, years);
        }
      }
      forall r | r in Flatten(f) ensures Spanned(years, r) {
        FlattenMember(f, r);
      }
    }

    /** Read the rows of one year's window from all batches, listed in any order. */
    method ReadYear(year: nat) returns (table: seq<Row>)
      requires Valid() && dataRows == []
      ensures YearTable(table, Batches(), year)
    {
      hide Flatten, Filter, Grouped, FitsBatch, ListedBatches;
      table := [];
      ghost var listing: seq<nat> := [];
      NothingListed(tempFiles, year);
      var remaining := set i: nat | i in tempFiles;
      while remaining != {}
        invariant remaining <= tempFiles.Keys
        invariant forall b: nat :: b in listing <==> b in tempFiles && b !in remaining
        invariant forall i, j :: 0 <= i < j < |listing| ==> listing[i] != listing[j]
        invariant table == Filter(Flatten(ListedBatches(tempFiles, listing)), WindowOf(year))
        decreases remaining
      {
        var b :| b in remaining;
        ReadStep(tempFiles, listing, b, year);
        table := table + Filter(Flatten(tempFiles[b]), WindowOf(year));
        listing := listing + [b];
        remaining := remaining - {b};
      }
      ListingPermutes(tempFiles, batchIndex, listing);
    }

    method WriteGroup(k: FileKey, group: seq<Row>)
      requires group != []
      modifies `output, `written
      ensures output == old(output)[k := MergeFile(Lookup(old(output), k), group).value]
      ensures written == old(written) + [k]
    {
      var groupToWrite := group;
      if k in output {
        groupToWrite := DedupFirst(output[k] + groupToWrite);
      }
      output := output[k := groupToWrite];
      written := written + [k];
    }

    /** One year: group its rows by date and asset type, in any group order, and write each group's file. */
    method ConsolidateYear(year: nat, ghost before: map<FileKey, seq<Row>>)
      requires Valid() && dataRows == [] && year >= 1
      requires Progress(before, output, Batches(), year - 1, {})
      requires WrittenSoFar(written, Flatten(Batches()), year - 1, {})
      modifies `output, `written
      ensures Progress(before, output, Batches(), year, {}) && WrittenSoFar(written, Flatten(Batches()), year, {})
    {
      var table := ReadYear(year);
      AllFlushed();
      hide Flatten, Filter, RowsFor, YearTable, Progress, WrittenSoFar, GroupRows, Valid, GroupOf;
      var groups := GroupKeys(table);
      forall g | g in groups ensures g.0.year == year {
        GroupKeyFacts(table, Batches(), year, g);
      }
      EnterYear(before, output, Batches(), year, table, written);
      forall r | r in table ensures KnownAssetType(r) {
        YearTableMember(table, Batches(), year, r);
      }
      while groups != {}
        invariant groups <= GroupKeys(table)
        invariant Progress(before, output, Batches(), year, GroupFiles(groups))
        invariant WrittenSoFar(written, Flatten(Batches()), year, GroupFiles(groups))
        decreases groups
      {
        var g :| g in groups;
        var group := Filter(table, GroupOf(g));
        GroupIsRowsFor(table, Batches(), year, g);
        SettleGroup(before, Batches(), table, year, groups, g, group);
        WriteGroup(GroupFile(g), group);
        groups := groups - {g};
      }
      assert GroupFiles({}) == {};
    }

    /** What writing group `g` does to the bookkeeping of the year. */
    lemma SettleGroup(before: map<FileKey, seq<Row>>, batches: seq<seq<Row>>, table: seq<Row>, year: nat,
                      groups: set<(Date, string)>, g: (Date, string), group: seq<Row>)
      requires AllKnown(table) && groups <= GroupKeys(table) && g in groups && g.0.year == year
      requires GroupRows(group, batches, GroupFile(g)) && group != []
      requires RowsFor(Flatten(batches), GroupFile(g)) != []
      requires Progress(before, output, batches, year, GroupFiles(groups))
      requires WrittenSoFar(written, Flatten(batches), year, GroupFiles(groups))
      ensures Progress(before, output[GroupFile(g) := MergeFile(Lookup(output, GroupFile(g)), group).value],
                       batches, year, GroupFiles(groups - {g}))
      ensures WrittenSoFar(written + [GroupFile(g)], Flatten(batches), year, GroupFiles(groups - {g}))
    {
      var k := GroupFile(g);
      assert k in GroupFiles(groups);
      GroupFilesWithout(table, groups, g);
      hide GroupFiles, GroupKeys, GroupRows;
      SettleWrite(written, Flatten(batches), year, GroupFiles(groups), k);
      SettleFile(before, output, output[k := MergeFile(Lookup(output, k), group).value], batches, year,
                 GroupFiles(groups), k, group);
    }

    /** The consolidation phase, over the years from the least to the greatest detected one. */
    method PartitionTempBatchesToFinal()
      requires Valid() && dataRows == [] && written == []
      modifies `output, `written, `tempFiles
      ensures Consolidated(old(output), old(Batches()), output)
      ensures tempFiles == map[]
      ensures forall i, j :: 0 <= i < j < |written| ==> written[i] != written[j]
      ensures forall k :: k in written <==> RowsFor(Flatten(old(Batches())), k) != []
    {
      hide Valid, Batches, Flatten, RowsFor, HasYear, Progress, WrittenSoFar, Consolidated;
      ghost var batches := Batches();
      if tempFiles == map[] {
        NothingToConsolidate();
        return;
      }
      var years := DetectYears();
      ghost var before := output;
      BatchesHoldRows();
      assert Spanned(years, Flatten(batches)[0]);
      var lo, hi := LeastAndGreatest(years);
      YearsCoverInput(years, lo, hi, batches, output);
      for year := lo to hi + 1
        invariant Valid() && Batches() == batches && dataRows == []
        invariant Progress(before, output, batches, year - 1, {})
        invariant WrittenSoFar(written, Flatten(batches), year - 1, {})
      {
        ConsolidateYear(year, before);
      }
      AllYearsDone(years, lo, hi, before);
      tempFiles := map[];
    }

    lemma BatchesHoldRows()
      requires Valid() && tempFiles != map[]
      ensures Flatten(Batches()) != []
    {
      var last := Batches()[batchIndex - 1];
      assert FitsBatch(groups[batchIndex - 1]) && last == Flatten(groups[batchIndex - 1]);
    }

    lemma NothingToConsolidate()
      requires Valid() && dataRows == [] && tempFiles == map[]
      ensures Consolidated(output, Batches(), output)
      ensures forall k :: RowsFor(Flatten(Batches()), k) == []
    {
      assert 0 in tempFiles <==> 0 < batchIndex;
      forall k ensures FileAfter(Lookup(output, k), Lookup(output, k), Batches(), k) {
        UntouchedFile(Lookup(output, k), Batches(), k);
      }
    }

    lemma AllYearsDone(years: set<nat>, lo: nat, hi: nat, before: map<FileKey, seq<Row>>)
      requires forall r :: r in Flatten(Batches()) ==> Spanned(years, r)
      requires forall y :: y in years ==> lo <= y <= hi
      requires Progress(before, output, Batches(), hi, {}) && WrittenSoFar(written, Flatten(Batches()), hi, {})
      ensures Consolidated(before, Batches(), output)
      ensures forall k :: k in written <==> RowsFor(Flatten(Batches()), k) != []
      ensures forall i, j :: 0 <= i < j < |written| ==> written[i] != written[j]
    {
      forall k: FileKey | k.date.year > hi ensures RowsFor(Flatten(Batches()), k) == [] {
        NoRowsOutsideYears(years, lo, hi, Flatten(Batches()), k);
      }
      hide RowsFor, Flatten, Spanned, FileAfter;
      forall k: FileKey ensures FileAfter(Lookup(before, k), Lookup(output, k), Batches(), k) {
        assert FileProgress(Lookup(before, k), Lookup(output, k), Batches(), hi, {}, k);
        if k.date.year > hi {
          UntouchedFile(Lookup(before, k), Batches(), k);
        }
      }
    }

    /** A whole run. */
    method Run(archives: seq<Archive>, minAvailable: real, maxMemory: real)
      requires AtFileBoundary() && members == [] && written == []
      modifies this
      ensures Ingested(old(output), InputMembers(archives), output)
      ensures tempFiles == map[]
      ensures forall i, j :: 0 <= i < j < |written| ==> written[i] != written[j]
      ensures forall k :: k in written <==> RowsFor(Flatten(InputMembers(archives)), k) != []
    {
      LoadArchives(archives, minAvailable, maxMemory);
      assert members == InputMembers(archives);
      AllFlushed();
      ghost var batches := Batches();
      PartitionTempBatchesToFinal();
      assert Schedule(batches, InputMembers(archives)) && Consolidated(old(output), batches, output);
    }
  }

  lemma OtherEntryAddsNothing(e: Entry)
    requires !IsDataFile(e.name)
    ensures EntryMembers(e) == [] && EntryRows(e) == []
  {
  }

  lemma QuotesKnown(symbol: string, assetType: string, quotes: seq<Quote>)
    requires assetType in {"STOCK", "FUND"}
    ensures AllKnown(QuoteRows(symbol, assetType, quotes))
  {
  }

  /** The rows of a member join the buffer. */
  lemma NextMember(members: seq<seq<Row>>, flushed: seq<seq<Row>>, pending: seq<seq<Row>>, rows: seq<Row>)
    requires members == flushed + pending && AllKnown(Flatten(members)) && AllKnown(rows)
    requires rows != [] && |Flatten(pending)| < ROW_LIMIT
    ensures members + [rows] == flushed + (pending + [rows]) && AllKnown(Flatten(members + [rows]))
    ensures Flatten(pending + [rows]) == Flatten(pending) + rows && FitsBatch(pending + [rows])
  {
    FlattenSnoc(pending, rows);
    FlattenSnoc(members, rows);
    assert (pending + [rows])[..|pending|] == pending;
  }

  /** The buffer's members become one more group. */
  lemma NextGroup(groups: seq<seq<seq<Row>>>, batches: seq<seq<Row>>, pending: seq<seq<Row>>, buffer: seq<Row>)
    requires Grouped(groups, batches, Flatten(groups)) && FitsBatch(pending) && buffer == Flatten(pending)
    ensures Grouped(groups + [pending], batches + [buffer], Flatten(groups) + pending)
    ensures Flatten(groups + [pending]) == Flatten(groups) + pending
  {
    FlattenSnoc(groups, pending);
    assert Flattened(groups + [pending]) == Flattened(groups) + [buffer];
  }

  lemma NothingListed(files: map<nat, TempFile>, year: nat)
    ensures Filter(Flatten(ListedBatches(files, [])), WindowOf(year)) == []
  {
  }

  lemma ReadStep(files: map<nat, TempFile>, listing: seq<nat>, b: nat, year: nat)
    requires b in files
    ensures Filter(Flatten(ListedBatches(files, listing + [b])), WindowOf(year)) ==
            Filter(Flatten(ListedBatches(files, listing)), WindowOf(year)) + Filter(Flatten(files[b]), WindowOf(year))
  {
    var before := ListedBatches(files, listing);
    assert ListedBatches(files, listing + [b]) == before + [Flatten(files[b])];
    FlattenSnoc(before, Flatten(files[b]));
    FilterConcat(Flatten(before), Flatten(files[b]), WindowOf(year));
  }

  ghost predicate ProperBatch(f: TempFile, largest: nat) {
    WellFormedFile(f) && 0 < |Flatten(f)| < ROW_LIMIT + largest
  }

  method LeastAndGreatest(years: set<nat>) returns (lo: nat, hi: nat)
    requires years != {}
    ensures lo in years && hi in years && forall y :: y in years ==> lo <= y <= hi
  {
    lo :| lo in years;
    hi := lo;
    var remaining := years - {lo};
    while remaining != {}
      invariant remaining <= years && lo in years && hi in years && lo <= hi
      invariant forall y :: y in years && y !in remaining ==> lo <= y <= hi
      decreases remaining
    {
      var y :| y in remaining;
      if y < lo { lo := y; }
      if hi < y { hi := y; }
      remaining := remaining - {y};
    }
  }

  lemma NoRowsOutsideYears(years: set<nat>, lo: nat, hi: nat, input: seq<Row>, k: FileKey)
    requires forall r :: r in input ==> Spanned(years, r)
    requires forall y :: y in years ==> lo <= y <= hi
    requires k.date.year < lo || hi < k.date.year
    ensures RowsFor(input, k) == []
  {
    if RowsFor(input, k) != [] {
      var r := RowsFor(input, k)[0];
      assert r in RowsFor(input, k);
      DateDeterminesYear(r.quote.timestamp);
    }
  }

  /** Before the first detected year there is nothing to do. */
  lemma YearsCoverInput(years: set<nat>, lo: nat, hi: nat, batches: seq<seq<Row>>, output: map<FileKey, seq<Row>>)
    requires forall r :: r in Flatten(batches) ==> Spanned(years, r)
    requires forall y :: y in years ==> lo <= y <= hi
    requires lo >= 1
    ensures Progress(output, output, batches, lo - 1, {}) && WrittenSoFar([], Flatten(batches), lo - 1, {})
  {
    forall k: FileKey | k.date.year <= lo - 1 ensures RowsFor(Flatten(batches), k) == [] {
      NoRowsOutsideYears(years, lo, hi, Flatten(batches), k);
    }
    hide RowsFor, Flatten, Spanned;
    forall k: FileKey ensures FileProgress(Lookup(output, k), Lookup(output, k), batches, lo - 1, {}, k) {
      if k.date.year <= lo - 1 {
        UntouchedFile(Lookup(output, k), batches, k);
      }
    }
  }
}
