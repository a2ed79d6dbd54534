/** The generated UPDATE statements as steps on the coverage table.
    DISTINCT ON and LIMIT 1 may pick any row the ordering leaves them. */
module Bridging {
  import opened Options
  import opened Text
  import opened Ordering

  type Id = string

  datatype Instrument = Instrument(
    id: Id, normalizedSymbol: string, name: string, assetType: string,
    baseCurrency: Option<string>, quoteCurrency: Option<string>)

  /** A row of market_data_pack_coverage; its primary key is (packId, instrumentId, interval, quoteCurrency). */
  datatype Coverage = Coverage(
    packId: string, symbol: string, interval: string, quoteCurrency: string,
    instrumentId: Id, packInstrumentId: Option<Id>)

  /** A tuple of the VALUES list a block starts with. */
  datatype MapRow =
    | SuffixRow(sym: string, stripped: string, assetType: string)
    | DirectRow(sym: string, assetType: string)
    | FxRow(sym: string, base: string, quote: string)
    | MacroRow(sym: string)

  datatype Kind = SuffixMap | DirectMap | FxMap | MacroMap

  predicate Fits(kind: Kind, r: MapRow) {
    match kind
    case SuffixMap => r.SuffixRow?
    case DirectMap => r.DirectRow?
    case FxMap => r.FxRow?
    case MacroMap => r.MacroRow?
  }

  /** One WITH ... UPDATE block. */
  datatype Block = Block(kind: Kind, packId: string, rows: seq<MapRow>)

  predicate MarketType(assetType: string) {
    assetType in {"STOCK", "FUND", "ETF"}
  }

  predicate TypesAgree(mapped: string, instrument: string) {
    (MarketType(mapped) && MarketType(instrument)) || (mapped == "INDEX" && instrument == "INDEX")
  }

  /** `LOWER(split_part(normalized_symbol, '.', 1))` */
  function BaseSymbol(i: Instrument): string {
    Lower(Split(i.normalizedSymbol, '.')[0])
  }

  predicate QuotesPair(i: Instrument, base: string, quote: string) {
    && i.assetType == "CURRENCY"
    && i.baseCurrency.Some? && Upper(i.baseCurrency.value) == Upper(base)
    && i.quoteCurrency.Some? && Upper(i.quoteCurrency.value) == Upper(quote)
  }

  predicate HasPair(instruments: seq<Instrument>, base: string, quote: string) {
    exists n :: 0 <= n < |instruments| && QuotesPair(instruments[n], base, quote)
  }

  /** The rows a map row is matched with. For currencies the inverse pair is used only if the direct one is missing. */
  predicate Joins(r: MapRow, instruments: seq<Instrument>, i: Instrument) {
    match r
    case SuffixRow(_, stripped, assetType) => BaseSymbol(i) == Lower(stripped) && TypesAgree(assetType, i.assetType)
    case DirectRow(sym, assetType) => BaseSymbol(i) == Lower(sym) && TypesAgree(assetType, i.assetType)
    case MacroRow(sym) => BaseSymbol(i) == Lower(sym)
    case FxRow(_, base, quote) =>
      if HasPair(instruments, base, quote) then QuotesPair(i, base, quote) else QuotesPair(i, quote, base)
  }

  /** The text a map row compares with instruments' base symbols. */
  function ComparedSymbol(r: MapRow): string {
    if r.SuffixRow? then r.stripped else r.sym
  }

  /** Types an instrument of which some join condition accepts; a macro row accepts every type. */
  predicate TypeCanMatch(r: MapRow) {
    r.MacroRow? || (!r.FxRow? && (MarketType(r.assetType) || r.assetType == "INDEX"))
  }

  /** A base symbol ends before its first dot. So an instrument that joins a row of a stock or macro block can exist
      exactly if the symbol the row compares has no dot left in it and the row's type is one the condition knows. */
  lemma CanJoinIff(r: MapRow, instruments: seq<Instrument>)
    requires !r.FxRow?
    ensures (exists i: Instrument :: Joins(r, instruments, i)) <==> '.' !in ComparedSymbol(r) && TypeCanMatch(r)
  {
    forall i: Instrument | Joins(r, instruments, i) ensures '.' !in ComparedSymbol(r) {
      BaseSymbolHasNoDot(i, ComparedSymbol(r));
    }
    if '.' !in ComparedSymbol(r) && TypeCanMatch(r) {
      SplitUnbroken(ComparedSymbol(r), '.');
      var i := Instrument("", ComparedSymbol(r), "", if r.MacroRow? then "" else r.assetType, None, None);
      assert Joins(r, instruments, i);
    }
  }

  lemma BaseSymbolHasNoDot(i: Instrument, compared: string)
    requires BaseSymbol(i) == Lower(compared)
    ensures '.' !in compared
  {
    var first := Split(i.normalizedSymbol, '.')[0];
    SplitHasNoSeparator(i.normalizedSymbol, '.');
    assert first in Split(i.normalizedSymbol, '.');
    forall k | 0 <= k < |compared| ensures compared[k] != '.' {
      assert Lower(compared)[k] == LowerChar(first[k]) && first[k] in first;
    }
  }

  /** Some map row for `sym` is matched with instrument number `n`. */
  predicate Joined(block: Block, instruments: seq<Instrument>, sym: string, n: nat)
    requires n < |instruments|
  {
    exists k :: 0 <= k < |block.rows| && block.rows[k].sym == sym && Joins(block.rows[k], instruments, instruments[n])
  }

  predicate Matchable(block: Block, instruments: seq<Instrument>, sym: string) {
    exists n :: 0 <= n < |instruments| && Joined(block, instruments, sym, n)
  }

  /** `ORDER BY sym, i.name` leaves the matches with the first name; the currency block has no order. */
  predicate Preferred(block: Block, instruments: seq<Instrument>, sym: string, n: nat)
    requires n < |instruments|
  {
    && Joined(block, instruments, sym, n)
    && (block.kind == FxMap ||
        forall m :: 0 <= m < |instruments| && Joined(block, instruments, sym, m) ==>
          StrLe(instruments[n].name, instruments[m].name))
  }

  predicate Choice(block: Block, instruments: seq<Instrument>, sym: string, id: Id) {
    exists n :: 0 <= n < |instruments| && instruments[n].id == id && Preferred(block, instruments, sym, n)
  }

  /** A block together with the instrument id its DISTINCT ON picked for each matched symbol. */
  datatype Step = Step(block: Block, matched: map<string, Id>)

  ghost predicate ValidStep(step: Step, instruments: seq<Instrument>) {
    && (forall sym :: sym in step.matched <==> Matchable(step.block, instruments, sym))
    && (forall sym :: sym in step.matched ==> Choice(step.block, instruments, sym, step.matched[sym]))
  }

  /** The map symbol a coverage row is compared with: as written in the suffix block, upper-cased in the others. */
  function MatchKey(kind: Kind, row: Coverage): string {
    if kind == SuffixMap then row.symbol else Upper(row.symbol)
  }

  /** The WHERE condition of the blocks on a map symbol. */
  predicate SymbolCondition(kind: Kind, row: Coverage, sym: string) {
    if kind == SuffixMap then row.symbol == sym else Upper(row.symbol) == Upper(sym)
  }

  lemma MatchKeyIsSymbolCondition(kind: Kind, row: Coverage, sym: string)
    requires Upper(sym) == sym
    ensures SymbolCondition(kind, row, sym) <==> MatchKey(kind, row) == sym
  {
  }

  predicate Hits(step: Step, row: Coverage) {
    row.packId == step.block.packId && row.packInstrumentId.None? && MatchKey(step.block.kind, row) in step.matched
  }

  /** What one UPDATE does to one row. */
  function UpdateRow(step: Step, row: Coverage): Coverage {
    if Hits(step, row) then
      row.(instrumentId := step.matched[MatchKey(step.block.kind, row)], packInstrumentId := Some(row.instrumentId))
    else row
  }

  function RunRow(steps: seq<Step>, row: Coverage): Coverage {
    if steps == [] then row else RunRow(steps[1..], UpdateRow(steps[0], row))
  }

  function UpdateTable(step: Step, table: seq<Coverage>): (r: seq<Coverage>)
    ensures |r| == |table|
  {
    seq(|table|, k requires 0 <= k < |table| => UpdateRow(step, table[k]))
  }

  function RunTable(steps: seq<Step>, table: seq<Coverage>): (r: seq<Coverage>)
    ensures |r| == |table|
  {
    seq(|table|, k requires 0 <= k < |table| => RunRow(steps, table[k]))
  }

  lemma {:induction false} RunRowSnoc(steps: seq<Step>, step: Step, row: Coverage)
    ensures RunRow(steps + [step], row) == UpdateRow(step, RunRow(steps, row))
  {
    if steps == [] {
      assert steps + [step] == [step];
    } else {
      assert (steps + [step])[1..] == steps[1..] + [step];
      RunRowSnoc(steps[1..], step, UpdateRow(steps[0], row));
    }
  }

  /** The id the pack gave to the row. */
  function OriginalId(row: Coverage): Id {
    if row.packInstrumentId.Some? then row.packInstrumentId.value else row.instrumentId
  }

  /** How many of the steps rewrite the row. */
  function Rewrites(steps: seq<Step>, row: Coverage): nat {
    if steps == [] then 0
    else (if Hits(steps[0], row) then 1 else 0) + Rewrites(steps[1..], UpdateRow(steps[0], row))
  }

  lemma {:induction false} BridgedRowIsFinal(steps: seq<Step>, row: Coverage)
    requires row.packInstrumentId.Some?
    ensures RunRow(steps, row) == row && Rewrites(steps, row) == 0
  {
    if steps != [] {
      BridgedRowIsFinal(steps[1..], row);
    }
  }

  /** Any sequence of updates keeps the pack's id and identity of a row, and rewrites it at most once. */
  lemma {:induction false} OriginalIdKept(steps: seq<Step>, row: Coverage)
    ensures var row' := RunRow(steps, row);
            && OriginalId(row') == OriginalId(row)
            && row'.packId == row.packId && row'.symbol == row.symbol
            && row'.interval == row.interval && row'.quoteCurrency == row.quoteCurrency
            && Rewrites(steps, row) <= 1
            && (Rewrites(steps, row) == 0 <==> row' == row)
            && (Rewrites(steps, row) == 1 ==> row'.packInstrumentId == Some(row.instrumentId))
  {
    if steps != [] {
      if Hits(steps[0], row) {
        BridgedRowIsFinal(steps[1..], UpdateRow(steps[0], row));
      } else {
        OriginalIdKept(steps[1..], row);
      }
    }
  }

  /** The first step that hits the row decides it. */
  lemma {:induction false} FirstHitDecides(steps: seq<Step>, row: Coverage)
    ensures (forall s :: s in steps ==> !Hits(s, row)) ==> RunRow(steps, row) == row
    ensures (exists s :: s in steps && Hits(s, row)) ==>
              exists s :: s in steps && Hits(s, row) && RunRow(steps, row) == UpdateRow(s, row)
  {
    if steps != [] {
      assert forall s :: s in steps <==> s == steps[0] || s in steps[1..];
      if Hits(steps[0], row) {
        BridgedRowIsFinal(steps[1..], UpdateRow(steps[0], row));
      } else {
        FirstHitDecides(steps[1..], row);
      }
    }
  }

  /** A run of the script's blocks with some choice of instruments. */
  ghost predicate ValidRun(steps: seq<Step>, blocks: seq<Block>, instruments: seq<Instrument>) {
    |steps| == |blocks| &&
    forall n :: 0 <= n < |steps| ==> steps[n].block == blocks[n] && ValidStep(steps[n], instruments)
  }

  lemma SameHits(s: Step, t: Step, instruments: seq<Instrument>, row: Coverage)
    requires s.block == t.block && ValidStep(s, instruments) && ValidStep(t, instruments)
    ensures Hits(s, row) <==> Hits(t, row)
  {
  }

  /** Running the script again, with any other picks of DISTINCT ON and LIMIT 1, changes no row. */
  lemma Idempotent(blocks: seq<Block>, instruments: seq<Instrument>, first: seq<Step>, second: seq<Step>, row: Coverage)
    requires ValidRun(first, blocks, instruments) && ValidRun(second, blocks, instruments)
    ensures RunRow(second, RunRow(first, row)) == RunRow(first, row)
  {
    FirstHitDecides(first, row);
    FirstHitDecides(second, row);
    if s :| s in first && Hits(s, row) {
      BridgedRowIsFinal(second, RunRow(first, row));
    } else {
      forall t | t in second ensures !Hits(t, row) {
        var n :| 0 <= n < |second| && second[n] == t;
        assert first[n] in first;
        SameHits(first[n], t, instruments, row);
      }
    }
  }

  lemma TableIdempotent(blocks: seq<Block>, instruments: seq<Instrument>,
                        first: seq<Step>, second: seq<Step>, table: seq<Coverage>)
    requires ValidRun(first, blocks, instruments) && ValidRun(second, blocks, instruments)
    ensures RunTable(second, RunTable(first, table)) == RunTable(first, table)
  {
    forall k | 0 <= k < |table| ensures RunRow(second, RunRow(first, table[k])) == RunRow(first, table[k]) {
      Idempotent(blocks, instruments, first, second, table[k]);
    }
  }

  /** No row is hit by two different steps. */
  ghost predicate RowDisjoint(steps: seq<Step>) {
    forall s, t, row :: s in steps && t in steps && s != t && Hits(s, row) ==> !Hits(t, row)
  }

  /** Disjoint steps can be executed in any order. */
  lemma AnyOrder(steps: seq<Step>, reordered: seq<Step>, row: Coverage)
    requires RowDisjoint(steps) && multiset(steps) == multiset(reordered)
    ensures RunRow(reordered, row) == RunRow(steps, row)
  {
    assert forall s :: s in steps <==> s in multiset(steps);
    assert forall s :: s in reordered <==> s in multiset(reordered);
    FirstHitDecides(steps, row);
    FirstHitDecides(reordered, row);
  }

  /** A rewritten row gets the id of an instrument that some block of its pack matched with its symbol. */
  lemma RewriteIsJustified(steps: seq<Step>, blocks: seq<Block>, instruments: seq<Instrument>, row: Coverage)
    requires ValidRun(steps, blocks, instruments)
    ensures RunRow(steps, row) != row ==>
              exists b :: b in blocks && b.packId == row.packId &&
                          Choice(b, instruments, MatchKey(b.kind, row), RunRow(steps, row).instrumentId)
    ensures RunRow(steps, row) == row <==>
              row.packInstrumentId.Some? ||
              forall b :: b in blocks && b.packId == row.packId ==> !Matchable(b, instruments, MatchKey(b.kind, row))
  {
    FirstHitDecides(steps, row);
    forall n | 0 <= n < |steps|
      ensures Hits(steps[n], row) <==> row.packInstrumentId.None? && row.packId == blocks[n].packId &&
                                       Matchable(blocks[n], instruments, MatchKey(blocks[n].kind, row))
    {
    }
    if s :| s in steps && Hits(s, row) && RunRow(steps, row) == UpdateRow(s, row) {
      var n :| 0 <= n < |steps| && steps[n] == s;
      assert blocks[n] in blocks;
    } else {
      forall b | b in blocks && b.packId == row.packId
        ensures row.packInstrumentId.Some? || !Matchable(b, instruments, MatchKey(b.kind, row))
      {
        var n :| 0 <= n < |blocks| && blocks[n] == b;
        assert steps[n] in steps;
      }
    }
  }

  // --- the join conditions, spelled out ---

  /** A suffix or direct row joins an instrument exactly if their base symbols agree but for case, and the types are
      both among stock, fund and ETF, in whatever combination, or both index. */
  lemma StockJoinsIff(r: MapRow, instruments: seq<Instrument>, i: Instrument)
    requires r.SuffixRow? || r.DirectRow?
    ensures Joins(r, instruments, i) <==>
              && Lower(Split(i.normalizedSymbol, '.')[0]) == Lower(if r.SuffixRow? then r.stripped else r.sym)
              && ((r.assetType in ["STOCK", "FUND", "ETF"] && i.assetType in ["STOCK", "FUND", "ETF"]) ||
                  (r.assetType == "INDEX" && i.assetType == "INDEX"))
  {
  }

  /** A macro row joins every instrument of its base symbol. */
  lemma MacroJoinsIff(r: MapRow, instruments: seq<Instrument>, i: Instrument)
    requires r.MacroRow?
    ensures Joins(r, instruments, i) <==> Lower(Split(i.normalizedSymbol, '.')[0]) == Lower(r.sym)
  {
  }

  /** A currency row joins a currency of its pair, or one of the inverse pair if there is none of the pair. */
  lemma FxJoinsIff(r: MapRow, instruments: seq<Instrument>, i: Instrument)
    requires r.FxRow? && i in instruments
    ensures Joins(r, instruments, i) <==>
              && i.assetType == "CURRENCY"
              && (CurrencyPair(i) == Some((Upper(r.base), Upper(r.quote))) ||
                  (CurrencyPair(i) == Some((Upper(r.quote), Upper(r.base))) &&
                   forall j :: j in instruments && j.assetType == "CURRENCY" ==>
                     CurrencyPair(j) != Some((Upper(r.base), Upper(r.quote)))))
  {
    forall j ensures QuotesPair(j, r.base, r.quote) <==>
                       j.assetType == "CURRENCY" && CurrencyPair(j) == Some((Upper(r.base), Upper(r.quote)))
             ensures QuotesPair(j, r.quote, r.base) <==>
                       j.assetType == "CURRENCY" && CurrencyPair(j) == Some((Upper(r.quote), Upper(r.base)))
    {
    }
    assert HasPair(instruments, r.base, r.quote) <==>
             exists j :: j in instruments && QuotesPair(j, r.base, r.quote) by {
      if j :| j in instruments && QuotesPair(j, r.base, r.quote) {
        var n :| 0 <= n < |instruments| && instruments[n] == j;
      }
    }
    hide QuotesPair, CurrencyPair;
  }

  /** An instrument's two currencies, if it has both. */
  function CurrencyPair(i: Instrument): Option<(string, string)> {
    if i.baseCurrency.Some? && i.quoteCurrency.Some? then
      Some((Upper(i.baseCurrency.value), Upper(i.quoteCurrency.value)))
    else None
  }

  lemma MatchableIff(b: Block, instruments: seq<Instrument>, sym: string)
    ensures Matchable(b, instruments, sym) <==>
              exists r, i :: r in b.rows && i in instruments && r.sym == sym && Joins(r, instruments, i)
  {
    hide Joins;
    if n :| 0 <= n < |instruments| && Joined(b, instruments, sym, n) {
      var k :| 0 <= k < |b.rows| && b.rows[k].sym == sym && Joins(b.rows[k], instruments, instruments[n]);
      assert b.rows[k] in b.rows && instruments[n] in instruments;
    }
    if r, i :| r in b.rows && i in instruments && r.sym == sym && Joins(r, instruments, i) {
      var k :| 0 <= k < |b.rows| && b.rows[k] == r;
      var n :| 0 <= n < |instruments| && instruments[n] == i;
      assert Joined(b, instruments, sym, n);
    }
  }

  /** What the queries of suffix and direct blocks ask of a map row, a coverage row and an instrument: the symbol is the
      row's, as written or in upper case, the base symbols agree but for case, and the types go together. */
  predicate Reaches(r: MapRow, row: Coverage, i: Instrument) {
    && (r.SuffixRow? || r.DirectRow?)
    && r.sym == (if r.SuffixRow? then row.symbol else Upper(row.symbol))
    && Lower(Split(i.normalizedSymbol, '.')[0]) == Lower(if r.SuffixRow? then r.stripped else r.sym)
    && ((r.assetType in ["STOCK", "FUND", "ETF"] && i.assetType in ["STOCK", "FUND", "ETF"]) ||
        (r.assetType == "INDEX" && i.assetType == "INDEX"))
  }

  lemma StockBlockMatchesIff(b: Block, instruments: seq<Instrument>, row: Coverage)
    requires b.kind in {SuffixMap, DirectMap} && forall r :: r in b.rows ==> Fits(b.kind, r)
    ensures Matchable(b, instruments, MatchKey(b.kind, row)) <==>
              exists r, i :: r in b.rows && i in instruments && Reaches(r, row, i)
  {
    MatchableIff(b, instruments, MatchKey(b.kind, row));
    forall r, i | r in b.rows
      ensures r.sym == MatchKey(b.kind, row) && Joins(r, instruments, i) <==> Reaches(r, row, i)
    {
      StockJoinsIff(r, instruments, i);
      hide Joins;
    }
    hide Matchable, Joins, Reaches, MatchKey;
  }

  /** A pack of suffix and direct blocks rewrites an unbridged row exactly if one of its map rows reaches an instrument
      for it. */
  lemma StockRowRewrittenIff(steps: seq<Step>, blocks: seq<Block>, instruments: seq<Instrument>, row: Coverage)
    requires ValidRun(steps, blocks, instruments) && row.packInstrumentId.None?
    requires forall b :: b in blocks && b.packId == row.packId ==>
               b.kind in {SuffixMap, DirectMap} && forall r :: r in b.rows ==> Fits(b.kind, r)
    ensures RunRow(steps, row) != row <==>
              exists b, r, i :: b in blocks && b.packId == row.packId && r in b.rows && i in instruments &&
                                Reaches(r, row, i)
  {
    hide Matchable, Joins, Reaches, MatchKey, RunRow, ValidRun, Fits;
    RewriteIsJustified(steps, blocks, instruments, row);
    forall b | b in blocks && b.packId == row.packId
      ensures Matchable(b, instruments, MatchKey(b.kind, row)) <==>
                exists r, i :: r in b.rows && i in instruments && Reaches(r, row, i)
    {
      StockBlockMatchesIff(b, instruments, row);
    }
  }

  /** For example, a fund's row reaches the ETF of its symbol. */
  lemma FundReachesEtf(id: Id, name: string, row: Coverage)
    requires row.symbol == "SPY.US"
    ensures Reaches(SuffixRow("SPY.US", "SPY", "FUND"), row, Instrument(id, "SPY", name, "ETF", None, None))
  {
    SplitUnbroken("SPY", '.');
  }

  /** Outside currency blocks, the pick for a symbol is an instrument that some map row of the symbol joins, and no
      other such instrument has a name before its own. */
  lemma PickHasFirstName(b: Block, instruments: seq<Instrument>, sym: string, id: Id)
    requires b.kind != FxMap && Choice(b, instruments, sym, id)
    ensures exists i :: i in instruments && i.id == id &&
                        (exists r :: r in b.rows && r.sym == sym && Joins(r, instruments, i)) &&
                        forall j, r :: j in instruments && r in b.rows && r.sym == sym && Joins(r, instruments, j) ==>
                          i.name <= j.name || exists k: nat :: SmallerAt(i.name, j.name, k)
  {
    hide Joins;
    var n :| 0 <= n < |instruments| && instruments[n].id == id && Preferred(b, instruments, sym, n);
    var i := instruments[n];
    var k :| 0 <= k < |b.rows| && b.rows[k].sym == sym && Joins(b.rows[k], instruments, i);
    assert b.rows[k] in b.rows;
    forall j, r | j in instruments && r in b.rows && r.sym == sym && Joins(r, instruments, j)
      ensures i.name <= j.name || exists k: nat :: SmallerAt(i.name, j.name, k)
    {
      var m :| 0 <= m < |instruments| && instruments[m] == j;
      var l :| 0 <= l < |b.rows| && b.rows[l] == r;
      assert Joined(b, instruments, sym, m);
      StrLeIff(i.name, j.name);
    }
  }
}
