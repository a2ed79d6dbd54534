/** One archive that lists a symbol with and without its exchange suffix, and what its script does to a fresh pack:
    with two tied instruments a run may roll back and the next one commit, with one instrument no run ever commits. */
module RerunExamples {
  import opened Options
  import opened Text
  import opened Ordering
  import opened ArchiveNames
  import opened PackNames
  import opened Bridging
  import opened BridgePlan
  import opened PrimaryKey
  import opened CommittingRuns

  const US_ARCHIVES := [ZipArchive("d_us_txt.zip", Some(["a.us.txt", "a.txt"]))]

  const US_PACK := "us-stooq-daily"

  const US_SYMBOLS: set<Symbol> := {("A.US", "STOCK"), ("A", "STOCK")}

  const SUFFIX_BLOCK := Block(SuffixMap, US_PACK, [SuffixRow("A.US", "A", "STOCK")])

  const DIRECT_BLOCK := Block(DirectMap, US_PACK, [DirectRow("A", "STOCK")])

  const US_BLOCKS := [SUFFIX_BLOCK, DIRECT_BLOCK]

  /** The pack as it is installed: two rows with the pack's own ids. */
  const US_TABLE := [
    Coverage(US_PACK, "A.US", "1d", "USD", "pack-1", None), Coverage(US_PACK, "A", "1d", "USD", "pack-2", None)]

  const INSTRUMENT_U := Instrument("u", "A", "Alpha", "STOCK", None, None)

  const INSTRUMENT_V := Instrument("v", "A", "Alpha", "STOCK", None, None)

  // --- the script of the archive ---

  lemma UsRegion()
    ensures CleanRegionName("d_us_txt.zip") == "us"
  {
    assert Lower("us") == "us";
    hide CleanRegionName, Contains, Lower;
    NotContained("us", ".zip", '.');
    ArchiveNameRoundTrip("us");
    assert "d_" + "us" + "_txt.zip" == "d_us_txt.zip";
  }

  lemma UsPackId()
    ensures PackIdOf(US_ARCHIVES[0]) == US_PACK
  {
    UsRegion();
    hide CleanRegionName;
    assert "us" + PACK_SUFFIX == US_PACK;
  }

  lemma UsStrategy()
    ensures StrategyOfPack(US_PACK) == Stock
  {
    NotContained("us", PACK_SUFFIX, '-');
    NotContained("us", "fx", 'f');
    NotContained("us", "macro", 'm');
    assert "us" + PACK_SUFFIX == US_PACK && Lower("us") == "us";
    hide Contains, RegionOfPackId;
    StrategyFromRegion("us");
    assert ClassifyBridgingStrategy("us") == Stock;
  }

  /** A member without "e" in its name is a stock. */
  lemma StockMember(stem: string)
    requires stem != "" && stem[0] != '.' && stem[0] != '^' && '/' !in stem && 'e' !in Lower(stem)
    ensures IsDataFile(stem + ".txt") && MemberSymbol(stem + ".txt") == (Upper(stem), "STOCK")
  {
    var name := stem + ".txt";
    assert name == stem + "." + "txt" && name[|name| - 4..] == ".txt";
    assert UpperChar(stem[0]) != '^';
    NoLetterE(stem);
    hide TickerOf, Contains, Lower;
    TickerOfPlainName(stem, "txt");
    NotContained(Lower(name), "etfs", 'e');
  }

  lemma NoLetterE(stem: string)
    requires 'e' !in Lower(stem)
    ensures 'e' !in Lower(stem + ".txt")
  {
    assert Lower(stem + ".txt") == Lower(stem) + ".txt";
  }

  lemma UsMembers()
    ensures IsDataFile("a.us.txt") && MemberSymbol("a.us.txt") == ("A.US", "STOCK")
    ensures IsDataFile("a.txt") && MemberSymbol("a.txt") == ("A", "STOCK")
  {
    hide IsDataFile, MemberSymbol;
    StockMember("a.us");
    StockMember("a");
    assert "a.us" + ".txt" == "a.us.txt" && "a" + ".txt" == "a.txt";
    assert Upper("a.us") == "A.US" && Upper("a") == "A";
  }

  lemma SymbolsOfTwo(z: ZipArchive, first: string, second: string)
    requires z.members == Some([first, second]) && IsDataFile(first) && IsDataFile(second)
    requires TickerOf(first) != "" && TickerOf(second) != ""
    ensures SymbolsOf(z) == {MemberSymbol(first), MemberSymbol(second)}
  {
    hide IsDataFile, MemberSymbol, TickerOf;
    assert [first, second][0] == first && [first, second][1] == second;
    assert forall m :: m in [first, second] <==> m == first || m == second;
  }

  lemma UsSymbols()
    ensures SymbolsOf(US_ARCHIVES[0]) == US_SYMBOLS
  {
    UsMembers();
    assert TickerOf("a.us.txt") == "A.US" && TickerOf("a.txt") == "A";
    hide IsDataFile, MemberSymbol, TickerOf, SymbolsOf;
    SymbolsOfTwo(US_ARCHIVES[0], "a.us.txt", "a.txt");
  }

  /** The archive's pack holds the two symbols. */
  lemma UsPackIsCollected()
    ensures PackSymbols(map[US_PACK := US_SYMBOLS], Contributions(US_ARCHIVES))
  {
    UsPackId();
    UsSymbols();
    hide PackIdOf, SymbolsOf;
    var added := [(US_PACK, US_SYMBOLS)];
    assert Contributions(US_ARCHIVES) == added;
    hide Contributions;
    assert ("A", "STOCK") in US_SYMBOLS;
    forall p, s ensures p == US_PACK && s in US_SYMBOLS <==> Collected(added, p, s) {
      assert added[0] == (US_PACK, US_SYMBOLS);
    }
  }

  lemma UsSuffix()
    ensures forall c :: c in "US" ==> c in CAPITALS
  {
    CapitalIff('U');
    CapitalIff('S');
    assert forall c :: c in "US" ==> c == 'U' || c == 'S';
  }

  lemma UsStripping()
    ensures StripExchangeSuffix("A.US") == Some("A") && StripExchangeSuffix("A") == Some("A")
  {
    assert LastIndexOf("A", '.') == -1;
    assert StripExchangeSuffix("A") == Some("A");
    hide StripExchangeSuffix;
    UsSuffix();
    StripIff("A", "US");
    assert "A" + "." + "US" == "A.US";
  }

  /** The two blocks are a script of the archive. */
  lemma UsScript()
    ensures PackSymbols(map[US_PACK := US_SYMBOLS], Contributions(US_ARCHIVES))
    ensures Planned(US_BLOCKS) && CarriesOut(US_BLOCKS, map[US_PACK := US_SYMBOLS])
  {
    UsPackIsCollected();
    UsStripping();
    UsStrategy();
    hide PackSymbols, StripExchangeSuffix, StrategyOfPack;
    assert Upper("A.US") == "A.US" && Upper("A") == "A";
    assert RowFor(Stock, ("A.US", "STOCK")) == Some((SuffixMap, SUFFIX_BLOCK.rows[0]));
    assert RowFor(Stock, ("A", "STOCK")) == Some((DirectMap, DIRECT_BLOCK.rows[0]));
    hide RowFor;
    forall p, kind, row ensures InBlocks(US_BLOCKS, p, kind, row) <==> p == US_PACK && Due(p, US_SYMBOLS, kind, row) {
      InTwoBlocks(p, kind, row);
    }
  }

  lemma InTwoBlocks(p: string, kind: Kind, row: MapRow)
    requires StrategyOfPack(US_PACK) == Stock
    requires RowFor(Stock, ("A.US", "STOCK")) == Some((SuffixMap, SUFFIX_BLOCK.rows[0]))
    requires RowFor(Stock, ("A", "STOCK")) == Some((DirectMap, DIRECT_BLOCK.rows[0]))
    ensures InBlocks(US_BLOCKS, p, kind, row) <==> p == US_PACK && Due(p, US_SYMBOLS, kind, row)
  {
    hide RowFor, StrategyOfPack;
    if InBlocks(US_BLOCKS, p, kind, row) {
      var n :| 0 <= n < |US_BLOCKS| && US_BLOCKS[n].packId == p && US_BLOCKS[n].kind == kind &&
               row in US_BLOCKS[n].rows;
      assert (if n == 0 then ("A.US", "STOCK") else ("A", "STOCK")) in US_SYMBOLS;
    }
    if p == US_PACK && Due(p, US_SYMBOLS, kind, row) {
      var s :| s in US_SYMBOLS && RowFor(Stock, s) == Some((kind, row));
      var n := if s.0 == "A.US" then 0 else 1;
      assert US_BLOCKS[n].kind == kind && row in US_BLOCKS[n].rows;
    }
  }

  // --- its runs ---

  /** The run that picks `a` for A.US and `b` for A. */
  function UsRun(a: Id, b: Id): seq<Step> {
    [Step(SUFFIX_BLOCK, map["A.US" := a]), Step(DIRECT_BLOCK, map["A" := b])]
  }

  /** The instruments all match both symbols under the same name. */
  ghost predicate AllMatch(instruments: seq<Instrument>) {
    forall n :: 0 <= n < |instruments| ==> instruments[n] in {INSTRUMENT_U, INSTRUMENT_V}
  }

  lemma UsChoice(instruments: seq<Instrument>, n: nat, id: Id)
    requires AllMatch(instruments) && n < 2
    ensures Choice(US_BLOCKS[n], instruments, US_TABLE[n].symbol, id) <==>
              exists m :: 0 <= m < |instruments| && instruments[m].id == id
    ensures forall sym :: Matchable(US_BLOCKS[n], instruments, sym) <==> instruments != [] && sym == US_TABLE[n].symbol
  {
    var block, sym := US_BLOCKS[n], US_TABLE[n].symbol;
    SplitUnbroken("A", '.');
    StrLeTotal("Alpha", "Alpha");
    assert block.rows[0].sym == sym;
    forall m | 0 <= m < |instruments| ensures Joined(block, instruments, sym, m) && instruments[m].name == "Alpha" {
      assert Joins(block.rows[0], instruments, instruments[m]);
    }
    hide Joins, StrLe;
    forall m | 0 <= m < |instruments| ensures Preferred(block, instruments, sym, m) { }
    if instruments != [] {
      assert Joined(block, instruments, sym, 0);
    }
  }

  lemma UsStepIsValid(instruments: seq<Instrument>, n: nat, m: nat)
    requires AllMatch(instruments) && m < |instruments| && n < 2
    ensures ValidStep(Step(US_BLOCKS[n], map[US_TABLE[n].symbol := instruments[m].id]), instruments)
  {
    UsChoice(instruments, n, instruments[m].id);
    hide Choice, Matchable;
  }

  lemma UsRunIsValid(instruments: seq<Instrument>, a: nat, b: nat)
    requires AllMatch(instruments) && a < |instruments| && b < |instruments|
    ensures ValidRun(UsRun(instruments[a].id, instruments[b].id), US_BLOCKS, instruments)
  {
    hide ValidStep;
    UsStepIsValid(instruments, 0, a);
    UsStepIsValid(instruments, 1, b);
  }

  lemma UsRowsAreDecided(instruments: seq<Instrument>)
    requires AllMatch(instruments) && instruments != []
    ensures Decides(US_BLOCKS, instruments, US_TABLE[0], 0) && Decides(US_BLOCKS, instruments, US_TABLE[1], 1)
    ensures KeysUnique(US_TABLE) && |US_TABLE| == 2 && SameScope(US_TABLE[0], US_TABLE[1]) && NoneEmpty(US_BLOCKS)
  {
    UsChoice(instruments, 0, "");
    UsChoice(instruments, 1, "");
    assert Upper("A") == "A" && "A.US" != "A";
    hide Matchable, Choice;
    assert Untouched(US_BLOCKS[0], instruments, US_TABLE[1]);
  }

  /** The table after the first block, and after both. */
  function UsTable(a: Id): seq<Coverage> {
    [Coverage(US_PACK, "A.US", "1d", "USD", a, Some("pack-1")), US_TABLE[1]]
  }

  function UsBridged(a: Id, b: Id): seq<Coverage> {
    [UsTable(a)[0], Coverage(US_PACK, "A", "1d", "USD", b, Some("pack-2"))]
  }

  lemma UsUpdates(a: Id, b: Id)
    ensures UpdateTable(UsRun(a, b)[0], US_TABLE) == UsTable(a)
    ensures UpdateTable(UsRun(a, b)[1], UsTable(a)) == UsBridged(a, b)
  {
    assert Upper("A") == "A" && "A.US" != "A";
    assert Hits(UsRun(a, b)[0], US_TABLE[0]) && !Hits(UsRun(a, b)[0], US_TABLE[1]);
    assert !Hits(UsRun(a, b)[1], UsTable(a)[0]) && Hits(UsRun(a, b)[1], UsTable(a)[1]);
  }

  lemma UsTables(a: Id, b: Id)
    ensures RunTable(UsRun(a, b)[..0], US_TABLE) == US_TABLE
    ensures RunTable(UsRun(a, b)[..1], US_TABLE) == UsTable(a)
    ensures RunTable(UsRun(a, b), US_TABLE) == UsBridged(a, b)
  {
    UsUpdates(a, b);
    RunTableOfNone(US_TABLE);
    hide UpdateTable, RunTable;
    assert UsRun(a, b)[..0] == [] && UsRun(a, b)[..2] == UsRun(a, b);
    RunTableUpTo(UsRun(a, b), US_TABLE, 0);
    RunTableUpTo(UsRun(a, b), US_TABLE, 1);
  }

  /** With fresh database ids, the second block is rejected in every order if both picks are equal, and both blocks are
      accepted in every order if they differ. */
  lemma UsRunAccepted(a: Id, b: Id, scans: nat -> seq<nat>)
    requires a !in {"pack-1", "pack-2"} && b !in {"pack-1", "pack-2"} && ScanOrders(scans, 2)
    ensures Accepted(UsRun(a, b), US_TABLE, scans, 2) <==> a != b
  {
    assert ScanOrder(scans(0), 2) && ScanOrder(scans(1), 2);
    UsTables(a, b);
    if a == b {
      UsSecondRejected(a, scans(1));
    } else {
      UsFirstAccepted(a, b, scans(0));
      UsSecondAccepted(a, b, scans(1));
    }
    hide UpdateTable, RunTable, Rejected, UsTable;
  }

  lemma UsSecondRejected(a: Id, order: seq<nat>)
    requires ScanOrder(order, 2)
    ensures Rejected(UsRun(a, a)[1], UsTable(a), order)
  {
    UsUpdates(a, a);
    assert KeyColumns(UsBridged(a, a)[0]) == KeyColumns(UsBridged(a, a)[1]);
    hide UpdateTable;
    RepeatedKeyRejects(UsRun(a, a)[1], UsTable(a), order);
  }

  lemma UsFirstAccepted(a: Id, b: Id, order: seq<nat>)
    requires a !in {"pack-1", "pack-2"} && ScanOrder(order, 2)
    ensures !Rejected(UsRun(a, b)[0], US_TABLE, order)
  {
    UsUpdates(a, b);
    NoClashAccepted(UsRun(a, b)[0], US_TABLE, UsTable(a), order);
  }

  lemma UsSecondAccepted(a: Id, b: Id, order: seq<nat>)
    requires a != b && a != "pack-2" && ScanOrder(order, 2)
    ensures !Rejected(UsRun(a, b)[1], UsTable(a), order)
  {
    UsUpdates(a, b);
    NoClashAccepted(UsRun(a, b)[1], UsTable(a), UsBridged(a, b), order);
  }

  /** Two rows none of which takes an id of the other. */
  lemma NoClashAccepted(step: Step, table: seq<Coverage>, next: seq<Coverage>, order: seq<nat>)
    requires |table| == 2 && next == UpdateTable(step, table) && ScanOrder(order, 2)
    requires table[0].instrumentId !in {table[1].instrumentId, next[1].instrumentId}
    requires next[0].instrumentId !in {table[1].instrumentId, next[1].instrumentId}
    ensures !Rejected(step, table, order)
  {
    assert UpdateRow(step, table[0]) == next[0] && UpdateRow(step, table[1]) == next[1];
    hide UpdateTable;
    assert !HasClash(step, table);
    RejectedUnderSomeOrderIff(step, table);
  }

  // --- what re-running does ---

  const TIED := [INSTRUMENT_U, INSTRUMENT_V]

  const ALONE := [INSTRUMENT_U]

  lemma AllMatchHere()
    ensures AllMatch(TIED) && AllMatch(ALONE)
  {
  }

  /** With two instruments tied for the symbol, a first run that picks the same one twice is rejected in every visiting
      order; a second run that picks both commits in every order and changes the table. No row of the pack holds a
      database id before. */
  lemma RollbackThenCommit(scans: nat -> seq<nat>)
    requires ScanOrders(scans, 2)
    ensures KeysUnique(US_TABLE) && NoneEmpty(US_BLOCKS)
    ensures forall row, i :: row in US_TABLE && i in TIED ==> row.instrumentId != i.id
    ensures ValidRun(UsRun("u", "u"), US_BLOCKS, TIED) && ValidRun(UsRun("u", "v"), US_BLOCKS, TIED)
    ensures !Accepted(UsRun("u", "u"), US_TABLE, scans, 2) && Accepted(UsRun("u", "v"), US_TABLE, scans, 2)
    ensures RunTable(UsRun("u", "v"), US_TABLE) != US_TABLE
  {
    AllMatchHere();
    hide ValidRun, Accepted, RunTable, KeysUnique, AllMatch, Decides;
    UsRowsAreDecided(TIED);
    UsRunIsValid(TIED, 0, 0);
    UsRunIsValid(TIED, 0, 1);
    UsTables("u", "v");
    UsRunAccepted("u", "u", scans);
    UsRunAccepted("u", "v", scans);
  }

  lemma TiedScriptCanCommit(scans: nat -> seq<nat>)
    requires ScanOrders(scans, 2)
    ensures CanCommit(US_BLOCKS, TIED, US_TABLE)
  {
    RollbackThenCommit(scans);
    hide ScanOrders, ValidRun, Accepted, KeysUnique, NoneEmpty, CanCommit;
    assert |UsRun("u", "v")| == 2;
    assert Commits(US_BLOCKS, TIED, US_TABLE, UsRun("u", "v"), scans);
    SomeRunCommitsIff(US_BLOCKS, TIED, US_TABLE);
  }

  lemma TiedScriptMayCollide(scans: nat -> seq<nat>)
    requires ScanOrders(scans, 2)
    ensures KeysUnique(US_TABLE) && MayCollide(US_BLOCKS, TIED, US_TABLE)
  {
    RollbackThenCommit(scans);
    hide ScanOrders, ValidRun, Accepted, KeysUnique, NoneEmpty, MayCollide;
    assert |UsRun("u", "u")| == 2;
    if !MayCollide(US_BLOCKS, TIED, US_TABLE) {
      NothingRejected(UsRun("u", "u"), US_BLOCKS, TIED, US_TABLE, scans, 2);
    }
  }

  /** So this script is not safe to re-run: some run of it commits, but rows may meet. */
  lemma TiedScriptIsUnsafe()
    ensures CanCommit(US_BLOCKS, TIED, US_TABLE) && MayCollide(US_BLOCKS, TIED, US_TABLE)
    ensures !SafeToRerun(US_BLOCKS, TIED, US_TABLE)
  {
    var order := AllRows(2);
    var scans := (n: nat) => order;
    assert ScanOrders(scans, 2);
    hide *;
    TiedScriptCanCommit(scans);
    TiedScriptMayCollide(scans);
    SafeToRerunIff(US_BLOCKS, TIED, US_TABLE);
  }

  /** With one instrument both rows can only take its id, so no run ever commits, and re-running changes nothing. */
  lemma TwinSymbolsNeverCommit()
    ensures MayCollide(US_BLOCKS, ALONE, US_TABLE) && !CanCommit(US_BLOCKS, ALONE, US_TABLE)
    ensures SafeToRerun(US_BLOCKS, ALONE, US_TABLE)
  {
    AllMatchHere();
    hide ValidRun, Accepted, KeysUnique, AllMatch, Decides, CanCommit, SafeToRerun, MayCollide, ScanOrders;
    UsRowsAreDecided(ALONE);
    forall row, n: nat, id | CanTake(US_BLOCKS, ALONE, row, n, id) ensures id == "u" {
      OnlyIdIsU(row, n, id);
    }
    if steps, scans :| Commits(US_BLOCKS, ALONE, US_TABLE, steps, scans) {
      SoleChoiceNeverCommits(US_BLOCKS, ALONE, US_TABLE, 0, 1, 0, 1, "u", steps, scans);
    }
    SomeRunCommitsIff(US_BLOCKS, ALONE, US_TABLE);
    SafeToRerunIff(US_BLOCKS, ALONE, US_TABLE);
    RowsMeet();
  }

  lemma OnlyIdIsU(row: Coverage, n: nat, id: Id)
    requires CanTake(US_BLOCKS, ALONE, row, n, id)
    ensures id == "u"
  {
  }

  lemma RowsMeet()
    ensures MayCollide(US_BLOCKS, ALONE, US_TABLE)
  {
    AllMatchHere();
    UsRowsAreDecided(ALONE);
    UsChoice(ALONE, 0, "u");
    UsChoice(ALONE, 1, "u");
    assert ALONE[0].id == "u" && Upper("A") == "A";
    hide Decides, Choice, KeysUnique;
    assert CanTake(US_BLOCKS, ALONE, US_TABLE[0], 0, "u") && CanTake(US_BLOCKS, ALONE, US_TABLE[1], 1, "u");
    assert CanMeet(US_BLOCKS, ALONE, US_TABLE[1], US_TABLE[0], 1, "u");
  }
}
