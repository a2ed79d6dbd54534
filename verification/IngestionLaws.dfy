/** What a run promises, whatever the flush schedule: conservation, how repeated runs behave, in which order a file
    holds its rows, and when the schedule decides what it keeps. */
module IngestionLaws {
  import opened Options
  import opened Sequences
  import opened Text
  import opened ArchiveNames
  import opened Calendar
  import opened MarketRows
  import opened Ingestion

  /** How often row `r` is stored in file `k`. */
  ghost function Stored(output: map<FileKey, seq<Row>>, k: FileKey, r: Row): nat {
    if k in output then multiset(output[k])[r] else 0
  }

  /** What a run put into file `k`: up to their order, the rows of the input that belong there. */
  lemma RunFile(before: map<FileKey, seq<Row>>, members: seq<seq<Row>>, after: map<FileKey, seq<Row>>, k: FileKey)
    returns (group: seq<Row>)
    requires Ingested(before, members, after)
    ensures Permutation(group, RowsFor(Flatten(members), k))
    ensures group == [] <==> RowsFor(Flatten(members), k) == []
    ensures Lookup(after, k) == MergeFile(Lookup(before, k), group)
  {
    var batches :| Schedule(batches, members) && Consolidated(before, batches, after);
    ScheduleKeepsRows(batches, members);
    assert FileAfter(Lookup(before, k), Lookup(after, k), batches, k);
    group :| GroupRows(group, batches, k) && Lookup(after, k) == MergeFile(Lookup(before, k), group);
    GroupRowsPermute(group, batches, k);
  }

  lemma FirstRunFile(members: seq<seq<Row>>, output: map<FileKey, seq<Row>>, k: FileKey)
    requires Ingested(map[], members, output)
    ensures k in output <==> RowsFor(Flatten(members), k) != []
    ensures k in output ==> Permutation(output[k], RowsFor(Flatten(members), k))
  {
    var group := RunFile(map[], members, output, k);
  }

  lemma HasRowsFor(input: seq<Row>, k: FileKey)
    ensures RowsFor(input, k) != [] <==> exists x :: x in input && BelongsTo(k)(x)
  {
    var rows := RowsFor(input, k);
    assert forall x :: x in rows <==> x in input && BelongsTo(k)(x);
    if rows != [] {
      assert rows[0] in rows;
    }
  }

  /** A run on an empty output is the grouping of its rows: each file exists exactly if some covered row belongs to
      it, and holds each row of its date and asset type as often as the input does, and nothing else. */
  lemma FirstRunPartitions(members: seq<seq<Row>>, output: map<FileKey, seq<Row>>, k: FileKey, r: Row)
    requires Ingested(map[], members, output)
    ensures Stored(output, k, r) ==
            if Covered(r.quote.timestamp) && KeyOf(r) == k then multiset(Flatten(members))[r] else 0
    ensures k in output <==> exists x :: x in Flatten(members) && BelongsTo(k)(x)
  {
    FirstRunFile(members, output, k);
    HasRowsFor(Flatten(members), k);
    FilterCount(Flatten(members), BelongsTo(k), r);
  }

  // --- which file a row goes to ---

  lemma {:induction false} EntryIsMember(archives: seq<Archive>, a: Archive, e: Entry)
    requires a in archives && a.Readable? && e in a.entries && EntryRows(e) != []
    ensures EntryRows(e) in InputMembers(archives)
  {
    var init, last := archives[..|archives| - 1], archives[|archives| - 1];
    if a in init {
      EntryIsMember(init, a, e);
    } else {
      EntryIsListed(a.entries, e);
    }
  }

  lemma {:induction false} EntryIsListed(entries: seq<Entry>, e: Entry)
    requires e in entries && EntryRows(e) != []
    ensures EntryRows(e) in EntriesMembers(entries)
  {
    if e in entries[..|entries| - 1] {
      EntryIsListed(entries[..|entries| - 1], e);
    }
  }

  lemma {:induction false} MembersAreKnown(archives: seq<Archive>)
    ensures forall m, r :: m in InputMembers(archives) && r in m ==> KnownAssetType(r)
  {
    if archives != [] {
      MembersAreKnown(archives[..|archives| - 1]);
      var last := archives[|archives| - 1];
      if last.Readable? {
        EntriesAreKnown(last.entries);
      }
    }
  }

  lemma {:induction false} EntriesAreKnown(entries: seq<Entry>)
    ensures forall m, r :: m in EntriesMembers(entries) && r in m ==> KnownAssetType(r)
  {
    if entries != [] {
      EntriesAreKnown(entries[..|entries| - 1]);
    }
  }

  /** In a first run's output every stock row is in a stock file, every fund row in an ETF file, and each in the file
      of its day. */
  lemma FilesHoldTheirRows(archives: seq<Archive>, output: map<FileKey, seq<Row>>, k: FileKey, r: Row)
    requires Ingested(map[], InputMembers(archives), output) && k in output && r in output[k]
    ensures k.folder == StockDaily <==> r.assetType == "STOCK"
    ensures k.folder == EtfDaily <==> r.assetType == "FUND"
    ensures k.date == DateOf(r.quote.timestamp / DAY)
  {
    var members := InputMembers(archives);
    FirstRunPartitions(members, output, k, r);
    FlattenMember(members, r);
    MembersAreKnown(archives);
    hide InputMembers, Ingested, Flatten;
    var m :| 0 <= m < |members| && r in members[m];
    assert members[m] in members;
  }

  /** A quote of a data file is stored under the file's ticker, as a stock in the stock file of its day if the name
      contains "stocks" or does not contain "etfs", and as a fund in the ETF file of its day otherwise; and in no file
      of the other folder. */
  lemma QuoteIsStored(archives: seq<Archive>, output: map<FileKey, seq<Row>>, a: Archive, e: Entry, q: Quote)
    requires Ingested(map[], InputMembers(archives), output)
    requires a in archives && a.Readable? && e in a.entries && IsDataFile(e.name)
    requires e.read.Parsed? && q in e.read.quotes && Covered(q.timestamp)
    ensures var stock := Contains(Lower(e.name), "stocks") || !Contains(Lower(e.name), "etfs");
            var r := Row(TickerOf(e.name), if stock then "STOCK" else "FUND", q);
            && (exists k :: k in output && r in output[k] && k.date == DateOf(q.timestamp / DAY) &&
                            k.folder == if stock then StockDaily else EtfDaily)
            && (forall k :: k in output && r in output[k] ==> k.folder == if stock then StockDaily else EtfDaily)
  {
    var stock := Contains(Lower(e.name), "stocks") || !Contains(Lower(e.name), "etfs");
    var r := Row(TickerOf(e.name), if stock then "STOCK" else "FUND", q);
    hide InputMembers, Contains, TickerOf, Ingested, Covered;
    QuoteIsInput(archives, a, e, q);
    InputRowIsStored(InputMembers(archives), output, r);
    hide KeyOf, Flatten;
    forall f | f in output && r in output[f] ensures f.folder == if stock then StockDaily else EtfDaily {
      FilesHoldTheirRows(archives, output, f, r);
    }
    FilesHoldTheirRows(archives, output, KeyOf(r), r);
  }

  lemma QuoteIsInput(archives: seq<Archive>, a: Archive, e: Entry, q: Quote)
    requires a in archives && a.Readable? && e in a.entries && IsDataFile(e.name)
    requires e.read.Parsed? && q in e.read.quotes
    ensures var stock := Contains(Lower(e.name), "stocks") || !Contains(Lower(e.name), "etfs");
            Row(TickerOf(e.name), if stock then "STOCK" else "FUND", q) in Flatten(InputMembers(archives))
  {
    var i :| 0 <= i < |e.read.quotes| && e.read.quotes[i] == q;
    var members, r := InputMembers(archives), EntryRows(e)[i];
    EntryIsMember(archives, a, e);
    hide Flatten, InputMembers, Contains, TickerOf;
    assert r == Row(TickerOf(e.name), AssetTypeOf(e.name), q);
    var m :| 0 <= m < |members| && members[m] == EntryRows(e);
    FlattenMember(members, r);
  }

  lemma InputRowIsStored(members: seq<seq<Row>>, output: map<FileKey, seq<Row>>, r: Row)
    requires Ingested(map[], members, output) && r in Flatten(members) && Covered(r.quote.timestamp)
    ensures KeyOf(r) in output && r in output[KeyOf(r)]
  {
    hide Ingested, Covered, Flatten, KeyOf;
    FirstRunPartitions(members, output, KeyOf(r), r);
    assert r in multiset(Flatten(members));
    assert r in multiset(output[KeyOf(r)]);
  }

  /** The flush schedule cannot be seen in the files of a first run, except in the order of their rows. */
  lemma SchedulesAgree(members: seq<seq<Row>>, output: map<FileKey, seq<Row>>, other: map<FileKey, seq<Row>>)
    requires Ingested(map[], members, output) && Ingested(map[], members, other)
    ensures output.Keys == other.Keys
    ensures forall k :: k in output ==> Permutation(output[k], other[k])
  {
    forall k ensures k in output <==> k in other
             ensures k in output ==> Permutation(output[k], other[k])
    {
      FirstRunFile(members, output, k);
      FirstRunFile(members, other, k);
    }
  }

  ghost predicate NothingLost(members: seq<seq<Row>>, output: map<FileKey, seq<Row>>) {
    forall r :: r in Flatten(members) ==> Stored(output, KeyOf(r), r) == multiset(Flatten(members))[r]
  }

  /** No row is lost exactly when no timestamp lies in the open last second of its year. */
  lemma NothingLostIffCovered(members: seq<seq<Row>>, output: map<FileKey, seq<Row>>)
    requires Ingested(map[], members, output)
    ensures NothingLost(members, output) <==> forall r :: r in Flatten(members) ==> Covered(r.quote.timestamp)
  {
    forall r | r in Flatten(members)
      ensures Stored(output, KeyOf(r), r) == multiset(Flatten(members))[r] <==> Covered(r.quote.timestamp)
    {
      FirstRunPartitions(members, output, KeyOf(r), r);
      assert multiset(Flatten(members))[r] > 0;
    }
  }

  /** Whole-second timestamps are enough. */
  lemma WholeSecondsLoseNothing(members: seq<seq<Row>>, output: map<FileKey, seq<Row>>)
    requires Ingested(map[], members, output)
    requires forall r :: r in Flatten(members) ==> r.quote.timestamp % SECOND == 0
    ensures NothingLost(members, output)
  {
    forall r | r in Flatten(members) ensures Covered(r.quote.timestamp) {
      WholeSecondsAreCovered(r.quote.timestamp);
    }
    NothingLostIffCovered(members, output);
  }

  /** Such a row is lost: half a second before New Year lies in no window, so no file receives it. */
  lemma LastHalfSecondIsLost(year: nat, r: Row, output: map<FileKey, seq<Row>>, k: FileKey)
    requires year >= 1 && r.quote.timestamp == YearStart(year + 1) * DAY - SECOND / 2
    requires Ingested(map[], [[r]], output)
    ensures k !in output
  {
    var t := r.quote.timestamp;
    YearStartMonotone(year, year + 1);
    assert t / DAY == YearStart(year + 1) - 1;
    YearOfUnique(t / DAY, year);
    assert Flatten([[r]]) == [r];
    FirstRunPartitions([[r]], output, k, r);
  }

  /** After any run, file `k` holds every symbol it received, and no symbol twice if it existed before. */
  lemma AfterRun(before: map<FileKey, seq<Row>>, members: seq<seq<Row>>, after: map<FileKey, seq<Row>>, k: FileKey)
    requires Ingested(before, members, after)
    ensures var rows := RowsFor(Flatten(members), k);
            && (rows == [] ==> Lookup(after, k) == Lookup(before, k))
            && (rows != [] ==> k in after && Symbols(rows) <= Symbols(after[k]))
            && (rows != [] && k in before ==> DistinctSymbols(after[k]))
  {
    var group := RunFile(before, members, after, k);
    PermutationElements(group, RowsFor(Flatten(members), k));
    if group != [] && k in before {
      DedupIsDistinct(before[k] + group);
      SymbolsOfConcat(before[k], group);
    }
  }

  /** A second run over the same archive members, read in any order and under any schedule, from any initial output,
      turns each file it writes into its first-occurrence-per-symbol form. */
  lemma SecondRunDeduplicates(before: map<FileKey, seq<Row>>, members: seq<seq<Row>>, once: map<FileKey, seq<Row>>,
                              again: seq<seq<Row>>, twice: map<FileKey, seq<Row>>, k: FileKey)
    requires Ingested(before, members, once) && Permutation(again, members) && Ingested(once, again, twice)
    ensures var rows := RowsFor(Flatten(members), k);
            && (rows == [] ==> Lookup(twice, k) == Lookup(once, k))
            && (rows != [] ==> k in once && Lookup(twice, k) == Some(DedupFirst(once[k])))
  {
    var group := RunFile(once, again, twice, k);
    FlattenPermutes(again, members);
    RowsForPermutes(Flatten(again), Flatten(members), k);
    AfterRun(before, members, once, k);
    PermutationElements(group, RowsFor(Flatten(members), k));
    if group != [] {
      assert Symbols(group) == Symbols(RowsFor(Flatten(members), k));
      DedupAbsorbs(once[k], group);
    }
  }

  /** A third run changes nothing; if every written file existed before the first run, neither does the second. */
  lemma ReingestionReachesFixedPoint(before: map<FileKey, seq<Row>>, members: seq<seq<Row>>,
                                     once: map<FileKey, seq<Row>>, again: seq<seq<Row>>, twice: map<FileKey, seq<Row>>,
                                     third: seq<seq<Row>>, thrice: map<FileKey, seq<Row>>)
    requires Ingested(before, members, once)
    requires Permutation(again, members) && Ingested(once, again, twice)
    requires Permutation(third, members) && Ingested(twice, third, thrice)
    ensures thrice == twice
    ensures (forall k :: RowsFor(Flatten(members), k) != [] ==> k in before) ==> twice == once
  {
    forall k
      ensures Lookup(thrice, k) == Lookup(twice, k)
      ensures RowsFor(Flatten(members), k) == [] || k in before ==> Lookup(twice, k) == Lookup(once, k)
    {
      AfterRun(before, members, once, k);
      SecondRunDeduplicates(before, members, once, again, twice, k);
      FlattenPermutes(again, members);
      RowsForPermutes(Flatten(again), Flatten(members), k);
      PermutationElements(RowsFor(Flatten(again), k), RowsFor(Flatten(members), k));
      SecondRunDeduplicates(once, again, twice, third, thrice, k);
      hide Ingested, RowsFor, Flatten;
      if RowsFor(Flatten(members), k) != [] {
        DedupIsDistinct(once[k]);
        DedupOfDistinct(DedupFirst(once[k]));
        if k in before {
          DedupOfDistinct(once[k]);
        }
      }
    }
    SameLookups(thrice, twice);
    if forall k :: RowsFor(Flatten(members), k) != [] ==> k in before {
      SameLookups(twice, once);
    }
  }

  // --- the order of rows within a file ---

  /** Rows whose symbol a file does not have yet. */
  function NotAmong(rows: seq<Row>): Row -> bool {
    (r: Row) => r.symbol !in Symbols(rows)
  }

  lemma DedupLast(all: seq<Row>, rows: seq<Row>, r: Row)
    requires all == rows + [r]
    ensures DedupFirst(all) ==
            if r.symbol in Symbols(DedupFirst(rows)) then DedupFirst(rows) else DedupFirst(rows) + [r]
  {
    assert all[..|rows|] == rows;
  }

  /** What later rows add to a deduplicated file: the first row of each symbol it lacks, in their own order. */
  lemma {:induction false} DedupAdds(s: seq<Row>, t: seq<Row>)
    ensures DedupFirst(s + t) == DedupFirst(s) + DedupFirst(Filter(t, NotAmong(DedupFirst(s))))
  {
    if t == [] {
      assert s + t == s;
    } else {
      var d, init, last := DedupFirst(s), t[..|t| - 1], t[|t| - 1];
      var kept, kept' := Filter(init, NotAmong(d)), Filter(t, NotAmong(d));
      assert kept' == kept + if last.symbol in Symbols(d) then [] else [last];
      assert s + t == s + init + [last];
      hide *;
      DedupAdds(s, init);
      DedupLast(s + t, s + init, last);
      AddOne(d, kept, last, kept');
    }
  }

  lemma AddOne(d: seq<Row>, kept: seq<Row>, last: Row, kept': seq<Row>)
    requires kept' == kept + if last.symbol in Symbols(d) then [] else [last]
    ensures d + DedupFirst(kept') ==
            if last.symbol in Symbols(d + DedupFirst(kept)) then d + DedupFirst(kept)
            else d + DedupFirst(kept) + [last]
  {
    SymbolsOfConcat(d, DedupFirst(kept));
    if last.symbol !in Symbols(d) {
      DedupLast(kept', kept, last);
      hide *;
    } else {
      hide *;
      assert kept' == kept;
    }
  }

  /** A part is found in the flattened whole. */
  lemma FlattenPart(parts: seq<seq<Row>>, part: seq<Row>) returns (before: seq<Row>, after: seq<Row>)
    requires part in parts
    ensures Flatten(parts) == before + part + after
  {
    var i :| 0 <= i < |parts| && parts[i] == part;
    assert parts == parts[..i] + [part] + parts[i + 1..];
    FlattenSnoc(parts[..i], part);
    FlattenConcat(parts[..i] + [part], parts[i + 1..]);
    before, after := Flatten(parts[..i]), Flatten(parts[i + 1..]);
  }

  lemma Regroup<T>(a: seq<T>, b: seq<T>, c: seq<T>, d: seq<T>, e: seq<T>)
    ensures a + (b + c + d) + e == (a + b) + c + (d + e)
  {
  }

  lemma RowsForParts(a: seq<Row>, b: seq<Row>, c: seq<Row>, k: FileKey)
    ensures RowsFor(a + b + c, k) == RowsFor(a, k) + RowsFor(b, k) + RowsFor(c, k)
  {
    FilterConcat(a, b, BelongsTo(k));
    FilterConcat(a + b, c, BelongsTo(k));
  }

  /** Rows of one archive member stay together and in order wherever they are read. */
  lemma MemberIsContiguous(group: seq<Row>, batches: seq<seq<Row>>, members: seq<seq<Row>>, m: nat, k: FileKey)
    returns (front: seq<Row>, back: seq<Row>)
    requires Schedule(batches, members) && GroupRows(group, batches, k) && m < |members|
    ensures group == front + RowsFor(members[m], k) + back
  {
    var order :| Permutation(order, batches) && group == RowsFor(Flatten(order), k);
    var batch, a, c := BatchOfMember(batches, members, m);
    PermutationElements(order, batches);
    var before, after := FlattenPart(order, batch);
    Regroup(before, a, members[m], c, after);
    RowsForParts(before + a, members[m], c + after, k);
    front, back := RowsFor(before + a, k), RowsFor(c + after, k);
  }

  lemma BatchOfMember(batches: seq<seq<Row>>, members: seq<seq<Row>>, m: nat)
    returns (batch: seq<Row>, a: seq<Row>, c: seq<Row>)
    requires Schedule(batches, members) && m < |members|
    ensures batch in batches && batch == a + members[m] + c
  {
    var groups :| Grouped(groups, batches, members);
    FlattenMember(groups, members[m]);
    var b :| 0 <= b < |groups| && members[m] in groups[b];
    batch := batches[b];
    assert batch == Flatten(groups[b]);
    a, c := FlattenPart(groups[b], members[m]);
  }

  lemma MergedPart(head: seq<Row>, mine: seq<Row>, back: seq<Row>)
    ensures var merged, lo, hi := DedupFirst(head + mine + back), |DedupFirst(head)|, |DedupFirst(head + mine)|;
            lo <= hi <= |merged| && merged[lo..hi] == DedupFirst(Filter(mine, NotAmong(merged[..lo])))
  {
    hide *;
    DedupAdds(head, mine);
    DedupExtends(head + mine, back);
    MiddleOf(DedupFirst(head), DedupFirst(Filter(mine, NotAmong(DedupFirst(head)))), DedupFirst(head + mine + back));
  }

  lemma MiddleOf<T>(front: seq<T>, middle: seq<T>, whole: seq<T>)
    requires front + middle <= whole
    ensures whole[..|front|] == front && whole[|front|..|front + middle|] == middle
  {
    assert whole[..|front + middle|] == front + middle;
  }

  /** The file holds the member's rows contiguously and in the member's own order: all of them in a new file, and in
      a merged file the first row of each symbol that is not in front of them. */
  ghost predicate InOrder(existed: bool, file: seq<Row>, mine: seq<Row>) {
    exists lo, hi :: 0 <= lo <= hi <= |file| &&
      file[lo..hi] == if existed then DedupFirst(Filter(mine, NotAmong(file[..lo]))) else mine
  }

  lemma MergedInOrder(before: Option<seq<Row>>, front: seq<Row>, mine: seq<Row>, back: seq<Row>)
    requires mine != []
    ensures InOrder(before.Some?, MergeFile(before, front + mine + back).value, mine)
  {
    var file := MergeFile(before, front + mine + back).value;
    if before.Some? {
      var head := before.value + front;
      assert before.value + (front + mine + back) == head + mine + back;
      MergedPart(head, mine, back);
      hide DedupFirst, Filter, NotAmong, MergeFile;
      var lo, hi := |DedupFirst(head)|, |DedupFirst(head + mine)|;
      assert file[lo..hi] == DedupFirst(Filter(mine, NotAmong(file[..lo])));
    } else {
      assert file[|front|..|front| + |mine|] == mine;
    }
  }

  /** Every file of a run holds the rows of each archive member in the member's own order. */
  lemma MemberKeepsItsOrder(before: map<FileKey, seq<Row>>, members: seq<seq<Row>>, after: map<FileKey, seq<Row>>,
                            m: nat, k: FileKey)
    requires Ingested(before, members, after) && m < |members| && RowsFor(members[m], k) != []
    ensures k in after && InOrder(k in before, after[k], RowsFor(members[m], k))
  {
    var batches :| Schedule(batches, members) && Consolidated(before, batches, after);
    assert FileAfter(Lookup(before, k), Lookup(after, k), batches, k);
    var group :| GroupRows(group, batches, k) && Lookup(after, k) == MergeFile(Lookup(before, k), group);
    var front, back := MemberIsContiguous(group, batches, members, m, k);
    MergedInOrder(Lookup(before, k), front, RowsFor(members[m], k), back);
    assert |group| > 0;
  }

  // --- which row a file keeps ---

  /** The row a file holds first for a symbol. */
  function Kept(file: Option<seq<Row>>, symbol: string): Option<Row> {
    if file.Some? then FirstRow(file.value, symbol) else None
  }

  /** Whatever the flush schedule and the listing order, the file holds the same row first for the symbol. */
  ghost predicate ScheduleFree(before: Option<seq<Row>>, members: seq<seq<Row>>, k: FileKey, symbol: string) {
    forall batches, batches', after, after' ::
      && Schedule(batches, members) && FileAfter(before, after, batches, k)
      && Schedule(batches', members) && FileAfter(before, after', batches', k)
      ==> Kept(after, symbol) == Kept(after', symbol)
  }

  /** The first row of a symbol that an archive member would put into file `k`. */
  function FirstOf(member: seq<Row>, k: FileKey, symbol: string): Option<Row> {
    FirstRow(RowsFor(member, k), symbol)
  }

  /** Two archive members whose first rows for the symbol differ. */
  ghost predicate Compete(members: seq<seq<Row>>, k: FileKey, symbol: string) {
    exists a, b :: a in members && b in members && FirstOf(a, k, symbol).Some? && FirstOf(b, k, symbol).Some? &&
                   FirstOf(a, k, symbol) != FirstOf(b, k, symbol)
  }

  lemma KeptAfterMerge(before: Option<seq<Row>>, group: seq<Row>, symbol: string)
    ensures Kept(MergeFile(before, group), symbol) ==
            if Kept(before, symbol).Some? then Kept(before, symbol) else FirstRow(group, symbol)
  {
    if group != [] && before.Some? {
      DedupKeepsFirstRows(before.value + group, symbol);
      FirstRowOfConcat(before.value, group, symbol);
    }
  }

  lemma FirstOfConcat(a: seq<Row>, b: seq<Row>, k: FileKey, symbol: string)
    ensures FirstOf(a + b, k, symbol) ==
            if FirstOf(a, k, symbol).Some? then FirstOf(a, k, symbol) else FirstOf(b, k, symbol)
  {
    FilterConcat(a, b, BelongsTo(k));
    FirstRowOfConcat(RowsFor(a, k), RowsFor(b, k), symbol);
  }

  /** The first row of a symbol among whole parts is the first row of the first part that has the symbol. */
  lemma {:induction false} FirstOfFlatten(parts: seq<seq<Row>>, k: FileKey, symbol: string)
    ensures FirstOf(Flatten(parts), k, symbol).Some? ==>
              exists p :: p in parts && FirstOf(p, k, symbol) == FirstOf(Flatten(parts), k, symbol)
    ensures FirstOf(Flatten(parts), k, symbol).None? ==> forall p :: p in parts ==> FirstOf(p, k, symbol).None?
  {
    if parts != [] {
      var init, last := parts[..|parts| - 1], parts[|parts| - 1];
      FirstOfFlatten(init, k, symbol);
      FirstOfConcat(Flatten(init), last, k, symbol);
      hide FirstOf;
      assert forall p :: p in parts <==> p in init || p == last;
    }
  }

  lemma BatchesAreMembers(batches: seq<seq<Row>>, members: seq<seq<Row>>, k: FileKey, symbol: string)
    requires Schedule(batches, members)
    ensures forall b :: b in batches && FirstOf(b, k, symbol).Some? ==>
              exists m :: m in members && FirstOf(m, k, symbol) == FirstOf(b, k, symbol)
    ensures (forall b :: b in batches ==> FirstOf(b, k, symbol).None?) ==>
              forall m :: m in members ==> FirstOf(m, k, symbol).None?
  {
    var groups :| Grouped(groups, batches, members);
    hide FirstOf;
    forall m ensures m in members <==> exists b :: 0 <= b < |groups| && m in groups[b] {
      FlattenMember(groups, m);
    }
    forall b | b in batches && FirstOf(b, k, symbol).Some?
      ensures exists m :: m in members && FirstOf(m, k, symbol) == FirstOf(b, k, symbol)
    {
      var n :| 0 <= n < |groups| && batches[n] == b;
      FirstOfFlatten(groups[n], k, symbol);
    }
    forall m | m in members && FirstOf(m, k, symbol).Some?
      ensures exists b :: b in batches && FirstOf(b, k, symbol).Some?
    {
      var n :| 0 <= n < |groups| && m in groups[n];
      FirstOfFlatten(groups[n], k, symbol);
      assert batches[n] in batches;
    }
  }

  /** What a run keeps for a new symbol is the first row some archive member has for it. */
  lemma KeptIsFirstOfMember(before: Option<seq<Row>>, after: Option<seq<Row>>, batches: seq<seq<Row>>,
                            members: seq<seq<Row>>, k: FileKey, symbol: string)
    requires Schedule(batches, members) && FileAfter(before, after, batches, k) && Kept(before, symbol).None?
    ensures Kept(after, symbol).Some? ==> exists m :: m in members && FirstOf(m, k, symbol) == Kept(after, symbol)
    ensures Kept(after, symbol).None? ==> forall m :: m in members ==> FirstOf(m, k, symbol).None?
  {
    var group :| GroupRows(group, batches, k) && after == MergeFile(before, group);
    var order :| Permutation(order, batches) && group == RowsFor(Flatten(order), k);
    KeptAfterMerge(before, group, symbol);
    assert Kept(after, symbol) == FirstOf(Flatten(order), k, symbol);
    hide FirstOf, MergeFile, Kept, GroupRows, Flatten, RowsFor;
    FirstOfFlatten(order, k, symbol);
    PermutationElements(order, batches);
    BatchesAreMembers(batches, members, k, symbol);
  }

  /** A flush after every member is a schedule. */
  lemma OneBatchPerMember(members: seq<seq<Row>>)
    requires [] !in members
    ensures Schedule(members, members)
  {
    var groups := OneGroupPerMember(members);
  }

  lemma {:induction false} OneGroupPerMember(members: seq<seq<Row>>) returns (groups: seq<seq<seq<Row>>>)
    requires [] !in members
    ensures Grouped(groups, members, members)
  {
    if members == [] {
      groups := [];
    } else {
      var init, last := members[..|members| - 1], members[|members| - 1];
      var before := OneGroupPerMember(init);
      groups := before + [[last]];
      OneMemberFits(last);
      FlattenSnoc(before, [last]);
      hide Flatten;
      assert Flattened(groups) == Flattened(before) + [last];
    }
  }

  lemma OneMemberFits(member: seq<Row>)
    requires member != []
    ensures Flatten([member]) == member && FitsBatch([member])
  {
    assert [member][..0] == [];
  }

  lemma FirstOfFront(a: seq<Row>, rest: seq<seq<Row>>, k: FileKey, symbol: string)
    requires FirstOf(a, k, symbol).Some?
    ensures FirstOf(Flatten([a] + rest), k, symbol) == FirstOf(a, k, symbol)
  {
    FlattenConcat([a], rest);
    assert [a][..0] == [];
    assert Flatten([a]) == a;
    FirstOfConcat(a, Flatten(rest), k, symbol);
  }

  /** A schedule and a listing order under which member `a` decides the symbol. */
  lemma MemberDecides(before: Option<seq<Row>>, members: seq<seq<Row>>, k: FileKey, symbol: string, a: seq<Row>)
    returns (after: Option<seq<Row>>)
    requires [] !in members && a in members && FirstOf(a, k, symbol).Some? && Kept(before, symbol).None?
    ensures Schedule(members, members) && FileAfter(before, after, members, k)
    ensures Kept(after, symbol) == FirstOf(a, k, symbol)
  {
    OneBatchPerMember(members);
    var rest := MoveToFront(members, a);
    FirstOfFront(a, rest, k, symbol);
    hide Flatten, RowsFor, FirstRow, Schedule, MergeFile, Kept;
    var group := RowsFor(Flatten([a] + rest), k);
    KeptAfterMerge(before, group, symbol);
    after := MergeFile(before, group);
    assert GroupRows(group, members, k);
  }

  lemma ScheduleFreeIff(before: Option<seq<Row>>, members: seq<seq<Row>>, k: FileKey, symbol: string)
    requires [] !in members
    ensures ScheduleFree(before, members, k, symbol) <==>
              Kept(before, symbol).Some? || !Compete(members, k, symbol)
  {
    if Kept(before, symbol).Some? {
      forall after, batches | FileAfter(before, after, batches, k) ensures Kept(after, symbol) == Kept(before, symbol) {
        var group :| GroupRows(group, batches, k) && after == MergeFile(before, group);
        KeptAfterMerge(before, group, symbol);
      }
    } else if Compete(members, k, symbol) {
      var a, b :| a in members && b in members && FirstOf(a, k, symbol).Some? && FirstOf(b, k, symbol).Some? &&
                  FirstOf(a, k, symbol) != FirstOf(b, k, symbol);
      var after := MemberDecides(before, members, k, symbol, a);
      var after' := MemberDecides(before, members, k, symbol, b);
    } else {
      hide Schedule, FileAfter, Kept, FirstOf;
      forall batches, batches', after, after' |
        && Schedule(batches, members) && FileAfter(before, after, batches, k)
        && Schedule(batches', members) && FileAfter(before, after', batches', k)
        ensures Kept(after, symbol) == Kept(after', symbol)
      {
        KeptIsFirstOfMember(before, after, batches, members, k, symbol);
        KeptIsFirstOfMember(before, after', batches', members, k, symbol);
      }
    }
  }

  /** The input of a run has no empty member. */
  lemma {:induction false} MembersHaveRows(archives: seq<Archive>)
    ensures [] !in InputMembers(archives)
  {
    if archives != [] {
      MembersHaveRows(archives[..|archives| - 1]);
      var last := archives[|archives| - 1];
      if last.Readable? {
        EntriesHaveRows(last.entries);
      }
    }
  }

  lemma {:induction false} EntriesHaveRows(entries: seq<Entry>)
    ensures [] !in EntriesMembers(entries)
  {
    if entries != [] {
      EntriesHaveRows(entries[..|entries| - 1]);
    }
  }

  /** For every list of archives: the row a file keeps for a symbol is the same under every flush schedule and listing
      order exactly when the file already had the symbol, or the first rows the members have for it are all equal. */
  lemma KeptRowScheduleFreeIff(before: Option<seq<Row>>, archives: seq<Archive>, k: FileKey, symbol: string)
    ensures ScheduleFree(before, InputMembers(archives), k, symbol) <==>
              Kept(before, symbol).Some? || !Compete(InputMembers(archives), k, symbol)
  {
    MembersHaveRows(archives);
    ScheduleFreeIff(before, InputMembers(archives), k, symbol);
  }

  // --- schedule and listing order together ---

  /** File `k` after the batches are read in the order given. */
  function FileReadIn(before: Option<seq<Row>>, order: seq<seq<Row>>, k: FileKey): Option<seq<Row>> {
    MergeFile(before, RowsFor(Flatten(order), k))
  }

  /** If the batches are read in the order of their indices, every schedule gives the same file. */
  lemma IndexOrderHidesSchedule(before: Option<seq<Row>>, members: seq<seq<Row>>, batches: seq<seq<Row>>, k: FileKey)
    requires Schedule(batches, members)
    ensures FileReadIn(before, batches, k) == FileReadIn(before, members, k)
    ensures FileAfter(before, FileReadIn(before, batches, k), batches, k)
  {
    ScheduleKeepsRows(batches, members);
    assert Permutation(batches, batches) && GroupRows(RowsFor(Flatten(batches), k), batches, k);
  }

  lemma KeptOfTwo(before: Option<seq<Row>>, a: seq<Row>, b: seq<Row>, k: FileKey, symbol: string)
    requires Kept(before, symbol).None? && FirstOf(a, k, symbol).Some?
    ensures Kept(FileReadIn(before, [a, b], k), symbol) == FirstOf(a, k, symbol)
  {
    assert [a] + [b] == [a, b];
    FirstOfFront(a, [b], k, symbol);
    KeptAfterMerge(before, RowsFor(Flatten([a, b]), k), symbol);
  }

  /** One batch for two members, and one for each, are both schedules. */
  lemma TwoSchedules(a: seq<Row>, b: seq<Row>)
    requires a != [] && b != [] && |a| < ROW_LIMIT
    ensures Schedule([a + b], [a, b]) && Schedule([a, b], [a, b])
  {
    OneBatchPerMember([a, b]);
    FlattenOne(a);
    FlattenOne([a, b]);
    FlattenSnoc([a], b);
    assert [a] + [b] == [a, b] && [a, b][..1] == [a];
    assert Flattened([[a, b]]) == [a + b];
    assert Grouped([[a, b]], [a + b], [a, b]);
  }

  lemma FlattenOne<T>(s: seq<T>)
    ensures Flatten([s]) == s
  {
    assert [s][..0] == [];
  }

  /** If the last batch is read first, the schedule decides: of two members that compete for a symbol, one batch of both
      keeps the first one's row and a batch of each keeps the second one's. */
  lemma ReverseOrderShowsSchedule(before: Option<seq<Row>>, a: seq<Row>, b: seq<Row>, k: FileKey, symbol: string)
    requires |a| < ROW_LIMIT && Kept(before, symbol).None?
    requires FirstOf(a, k, symbol).Some? && FirstOf(b, k, symbol).Some?
    ensures Schedule([a + b], [a, b]) && Schedule([a, b], [a, b])
    ensures Kept(FileReadIn(before, [a + b], k), symbol) == FirstOf(a, k, symbol)
    ensures Kept(FileReadIn(before, [b, a], k), symbol) == FirstOf(b, k, symbol)
  {
    assert a != [] && b != [];
    hide FirstOf, Kept, MergeFile, RowsFor;
    TwoSchedules(a, b);
    FlattenOne(a);
    FlattenOne(a + b);
    FlattenSnoc([a], b);
    assert [a] + [b] == [a, b];
    hide Flatten, Schedule;
    KeptOfTwo(before, a, b, k, symbol);
    KeptOfTwo(before, b, a, k, symbol);
  }

  function QuoteOf(price: real): Quote {
    Quote(0, price, price, price, price, 0.0)
  }

  /** The same ticker in two archives, with different prices for the same day. */
  const TWO_ARCHIVES := [
    Readable([Entry("a.txt", Parsed([QuoteOf(1.0)]))]), Readable([Entry("a.txt", Parsed([QuoteOf(2.0)]))])]

  /** Such an input: with the last batch read first, one flush at the end keeps the first price, and a flush between the
      two members keeps the second. */
  lemma ScheduleDecidesPrice()
    ensures var a, b := [Row("A", "STOCK", QuoteOf(1.0))], [Row("A", "STOCK", QuoteOf(2.0))];
            && InputMembers(TWO_ARCHIVES) == [a, b]
            && Schedule([a + b], [a, b]) && Schedule([a, b], [a, b])
            && Kept(FileReadIn(None, [a + b], KeyOf(a[0])), "A") == Some(a[0])
            && Kept(FileReadIn(None, [b, a], KeyOf(a[0])), "A") == Some(b[0])
  {
    var a, b := [Row("A", "STOCK", QuoteOf(1.0))], [Row("A", "STOCK", QuoteOf(2.0))];
    TwoArchivesMembers();
    OwnRow(a[0], KeyOf(a[0]));
    OwnRow(b[0], KeyOf(a[0]));
    hide KeyOf, FirstOf, Schedule, InputMembers, FileReadIn;
    ReverseOrderShowsSchedule(None, a, b, KeyOf(a[0]), "A");
  }

  lemma OwnRow(r: Row, k: FileKey)
    requires k == KeyOf(r) && r.quote.timestamp == 0
    ensures FirstOf([r], k, r.symbol) == Some(r)
  {
    WholeSecondsAreCovered(0);
    hide Covered, KeyOf;
    assert Filter([r], BelongsTo(k)) == [r] by {
      assert [r][..0] == [] && BelongsTo(k)(r);
    }
  }

  lemma TwoArchivesMembers()
    ensures InputMembers(TWO_ARCHIVES) == [[Row("A", "STOCK", QuoteOf(1.0))], [Row("A", "STOCK", QuoteOf(2.0))]]
  {
    PlainMember(1.0);
    PlainMember(2.0);
    hide EntryRows;
    assert TWO_ARCHIVES[..1] == [TWO_ARCHIVES[0]] && [TWO_ARCHIVES[0]][..0] == [];
    assert InputMembers([]) == [];
    assert TWO_ARCHIVES[0].entries[..0] == [] && TWO_ARCHIVES[1].entries[..0] == [];
  }

  lemma PlainMember(price: real)
    ensures EntryRows(Entry("a.txt", Parsed([QuoteOf(price)]))) == [Row("A", "STOCK", QuoteOf(price))]
  {
    PlainName();
    hide TickerOf, AssetTypeOf, IsDataFile;
  }

  lemma PlainName()
    ensures TickerOf("a.txt") == "A" && AssetTypeOf("a.txt") == "STOCK" && IsDataFile("a.txt")
  {
    hide TickerOf, AssetTypeOf;
    PlainTicker();
    PlainType();
    assert "a.txt"[1..] == ".txt";
  }

  lemma PlainTicker()
    ensures TickerOf("a.txt") == "A"
  {
    hide TickerOf;
    assert "a"[0] != '.';
    TickerOfPlainName("a", "txt");
    assert "a" + "." + "txt" == "a.txt";
    assert Upper("a") == "A";
  }

  lemma PlainType()
    ensures AssetTypeOf("a.txt") == "STOCK"
  {
    hide Contains;
    NotContained(Lower("a.txt"), "etfs", 'e');
  }
}
