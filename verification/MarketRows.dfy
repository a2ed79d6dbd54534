/** Rows of the market data store, the archives they come from, and the files they are written to. */
module MarketRows {
  import opened Options
  import opened Sequences
  import opened Text
  import opened ArchiveNames
  import opened Calendar

  datatype Quote = Quote(timestamp: nat, open: real, high: real, low: real, close: real, volume: real)

  datatype Row = Row(symbol: string, assetType: string, quote: Quote)

  datatype Folder = StockDaily | EtfDaily

  /** `by_date/<folder>/<date>.parquet` */
  datatype FileKey = FileKey(folder: Folder, date: Date)

  /** What reading one archive member gives: `continue`, an exception, or its dated quotes. */
  datatype FileRead = Skipped | Failed | Parsed(quotes: seq<Quote>)

  datatype Entry = Entry(name: string, read: FileRead)

  datatype Archive = Unreadable | Readable(entries: seq<Entry>)

  function AssetTypeOf(name: string): string {
    var lower := Lower(name);
    if Contains(lower, "stocks") then "STOCK"
    else if Contains(lower, "etfs") then "FUND"
    else "STOCK"
  }

  function QuoteRows(symbol: string, assetType: string, quotes: seq<Quote>): (r: seq<Row>)
    ensures |r| == |quotes|
  {
    seq(|quotes|, i requires 0 <= i < |quotes| => Row(symbol, assetType, quotes[i]))
  }

  /** The rows an archive member contributes. */
  function EntryRows(e: Entry): seq<Row> {
    if IsDataFile(e.name) && e.read.Parsed? then QuoteRows(TickerOf(e.name), AssetTypeOf(e.name), e.read.quotes)
    else []
  }

  /** An archive member that contributes rows, as the list of its rows; others are no members of the input. */
  function EntryMembers(e: Entry): seq<seq<Row>> {
    if EntryRows(e) == [] then [] else [EntryRows(e)]
  }

  function EntriesMembers(entries: seq<Entry>): seq<seq<Row>> {
    if entries == [] then []
    else EntriesMembers(entries[..|entries| - 1]) + EntryMembers(entries[|entries| - 1])
  }

  function ArchiveMembers(a: Archive): seq<seq<Row>> {
    if a.Readable? then EntriesMembers(a.entries) else []
  }

  /** The input of a run: the rows of each archive member, in the order the archives and their members are read. */
  function InputMembers(archives: seq<Archive>): seq<seq<Row>> {
    if archives == [] then []
    else InputMembers(archives[..|archives| - 1]) + ArchiveMembers(archives[|archives| - 1])
  }

  lemma EntriesMembersStep(entries: seq<Entry>, i: nat)
    requires i < |entries|
    ensures EntriesMembers(entries[..i + 1]) == EntriesMembers(entries[..i]) + EntryMembers(entries[i])
  {
    assert entries[..i + 1][..i] == entries[..i];
  }

  lemma InputMembersStep(archives: seq<Archive>, i: nat)
    requires i < |archives|
    ensures InputMembers(archives[..i + 1]) == InputMembers(archives[..i]) + ArchiveMembers(archives[i])
  {
    assert archives[..i + 1][..i] == archives[..i];
  }

  predicate KnownAssetType(r: Row) {
    r.assetType == "STOCK" || r.assetType == "FUND"
  }

  function FolderOf(assetType: string): Folder {
    if assetType == "STOCK" then StockDaily else EtfDaily
  }

  function KeyOf(r: Row): FileKey {
    FileKey(FolderOf(r.assetType), StampDate(r.quote.timestamp))
  }

  function BelongsTo(k: FileKey): Row -> bool {
    (r: Row) => Covered(r.quote.timestamp) && KeyOf(r) == k
  }

  /** The rows of `input` that a run writes to file `k`, in input order. */
  function RowsFor(input: seq<Row>, k: FileKey): seq<Row> {
    Filter(input, BelongsTo(k))
  }

  function Symbols(rows: seq<Row>): set<string> {
    set r | r in rows :: r.symbol
  }

  lemma SymbolsOfConcat(s: seq<Row>, t: seq<Row>)
    ensures Symbols(s + t) == Symbols(s) + Symbols(t)
  {
  }

  /** `drop_duplicates(subset=['symbol'])`: a row is dropped if an earlier kept row has its symbol. */
  function DedupFirst(rows: seq<Row>): (d: seq<Row>)
    ensures Symbols(d) == Symbols(rows)
  {
    if rows == [] then []
    else
      var init, last := rows[..|rows| - 1], rows[|rows| - 1];
      assert rows == init + [last];
      SymbolsOfConcat(init, [last]);
      var d := DedupFirst(init);
      SymbolsOfConcat(d, [last]);
      if last.symbol in Symbols(d) then d else d + [last]
  }

  /** The first row with a given symbol. */
  function FirstRow(rows: seq<Row>, symbol: string): Option<Row> {
    if rows == [] then None
    else if rows[0].symbol == symbol then Some(rows[0])
    else FirstRow(rows[1..], symbol)
  }

  predicate DistinctSymbols(rows: seq<Row>) {
    forall i, j :: 0 <= i < j < |rows| ==> rows[i].symbol != rows[j].symbol
  }

  lemma {:induction false} FirstRowOfConcat(s: seq<Row>, t: seq<Row>, symbol: string)
    ensures FirstRow(s + t, symbol) == if FirstRow(s, symbol).Some? then FirstRow(s, symbol) else FirstRow(t, symbol)
    ensures FirstRow(s, symbol).Some? <==> symbol in Symbols(s)
  {
    if s == [] {
      assert s + t == t;
    } else {
      FirstRowOfConcat(s[1..], t, symbol);
      assert (s + t)[1..] == s[1..] + t;
      assert s == [s[0]] + s[1..];
    }
  }

  lemma {:induction false} DedupKeepsFirstRows(rows: seq<Row>, symbol: string)
    ensures FirstRow(DedupFirst(rows), symbol) == FirstRow(rows, symbol)
  {
    if rows != [] {
      var init, last := rows[..|rows| - 1], rows[|rows| - 1];
      assert rows == init + [last];
      DedupKeepsFirstRows(init, symbol);
      FirstRowOfConcat(init, [last], symbol);
      FirstRowOfConcat(DedupFirst(init), [last], symbol);
    }
  }

  lemma {:induction false} DedupIsDistinct(rows: seq<Row>)
    ensures DistinctSymbols(DedupFirst(rows))
  {
    if rows != [] {
      DedupIsDistinct(rows[..|rows| - 1]);
    }
  }

  /** Later rows only extend the kept rows, so kept rows stay in the order of their first occurrence. */
  lemma {:induction false} DedupExtends(s: seq<Row>, t: seq<Row>)
    ensures DedupFirst(s) <= DedupFirst(s + t)
  {
    if t == [] {
      assert s + t == s;
    } else {
      assert (s + t)[..|s + t| - 1] == s + t[..|t| - 1];
      DedupExtends(s, t[..|t| - 1]);
    }
  }

  lemma {:induction false} DedupAbsorbs(s: seq<Row>, t: seq<Row>)
    requires Symbols(t) <= Symbols(s)
    ensures DedupFirst(s + t) == DedupFirst(s)
  {
    if t == [] {
      assert s + t == s;
    } else {
      assert (s + t)[..|s + t| - 1] == s + t[..|t| - 1];
      assert t == t[..|t| - 1] + [t[|t| - 1]];
      DedupAbsorbs(s, t[..|t| - 1]);
    }
  }

  lemma {:induction false} DedupOfDistinct(rows: seq<Row>)
    requires DistinctSymbols(rows)
    ensures DedupFirst(rows) == rows
  {
    if rows != [] {
      DedupOfDistinct(rows[..|rows| - 1]);
      assert rows == rows[..|rows| - 1] + [rows[|rows| - 1]];
    }
  }

  /** A file after a group of rows is written to it: merged first-wins if it existed, taken as is otherwise. */
  function MergeFile(before: Option<seq<Row>>, group: seq<Row>): Option<seq<Row>> {
    if group == [] then before
    else Some(if before.Some? then DedupFirst(before.value + group) else group)
  }

  /** A merge keeps the first row of each existing symbol, adds the first row of each new one, and nothing twice. */
  lemma MergeFirstWins(existing: seq<Row>, group: seq<Row>, symbol: string)
    requires group != []
    ensures var merged := MergeFile(Some(existing), group).value;
            && DistinctSymbols(merged)
            && Symbols(merged) == Symbols(existing) + Symbols(group)
            && DedupFirst(existing) <= merged
            && FirstRow(merged, symbol) ==
                 if symbol in Symbols(existing) then FirstRow(existing, symbol) else FirstRow(group, symbol)
  {
    var all := existing + group;
    DedupIsDistinct(all);
    DedupExtends(existing, group);
    DedupKeepsFirstRows(all, symbol);
    FirstRowOfConcat(existing, group, symbol);
  }
}
