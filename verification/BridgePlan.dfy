/** Generating the bridging script: symbols are collected per pack and split into UPDATE blocks. */
module BridgePlan {
  import opened Options
  import opened Text
  import opened Ordering
  import opened ArchiveNames
  import opened PackNames
  import opened Bridging
  import MarketRows

  /** A ZIP archive: its file name and its member names, or None if it cannot be scanned. */
  datatype ZipArchive = ZipArchive(fileName: string, members: Option<seq<string>>)

  /** A symbol and its detected asset type. */
  type Symbol = (string, string)

  function PackIdOf(z: ZipArchive): string {
    DerivePackId(CleanRegionName(z.fileName))
  }

  function DetectAssetType(member: string): string {
    var lower := Lower(member);
    if TickerOf(member) != "" && TickerOf(member)[0] == '^' then "INDEX"
    else if Contains(lower, "etfs") then "FUND"
    else "STOCK"
  }

  /** The ingestion and this script give a member the same asset type exactly if it is no index and its name does not
      contain both "stocks" and "etfs", which they test in opposite order. */
  lemma LabelsAgreeIff(member: string)
    ensures DetectAssetType(member) == MarketRows.AssetTypeOf(member) <==>
              !("^" <= TickerOf(member)) && !(Contains(Lower(member), "stocks") && Contains(Lower(member), "etfs"))
  {
    hide TickerOf, Contains;
    assert "^" <= TickerOf(member) <==> TickerOf(member) != "" && TickerOf(member)[0] == '^';
  }

  /** They differ on an index, which the ingestion takes for a stock. */
  lemma IndexIsLabelledApart()
    ensures DetectAssetType("^spx.txt") == "INDEX" != MarketRows.AssetTypeOf("^spx.txt")
  {
    hide TickerOf, Contains;
    assert "^spx.txt" == "^spx" + "." + "txt";
    assert "^spx"[0] != '.';
    TickerOfPlainName("^spx", "txt");
    LabelsAgreeIff("^spx.txt");
  }

  function MemberSymbol(member: string): Symbol {
    (TickerOf(member), DetectAssetType(member))
  }

  /** The symbols an archive contributes to its pack. */
  function SymbolsOf(z: ZipArchive): set<Symbol> {
    if z.members.None? then {}
    else set m | m in z.members.value && IsDataFile(m) && TickerOf(m) != "" :: MemberSymbol(m)
  }

  /** What each archive adds: its pack and symbols. */
  function Contributions(archives: seq<ZipArchive>): (r: seq<(string, set<Symbol>)>)
    ensures |r| == |archives|
  {
    seq(|archives|, n requires 0 <= n < |archives| => (PackIdOf(archives[n]), SymbolsOf(archives[n])))
  }

  ghost predicate Collected(added: seq<(string, set<Symbol>)>, packId: string, s: Symbol) {
    exists n :: 0 <= n < |added| && added[n].0 == packId && s in added[n].1
  }

  /** The symbols of each pack; archives of the same region share one. */
  ghost predicate PackSymbols(packs: map<string, set<Symbol>>, added: seq<(string, set<Symbol>)>) {
    && (forall p :: p in packs ==> packs[p] != {})
    && (forall p, s :: (p in packs && s in packs[p]) <==> Collected(added, p, s))
  }

  /** The loop over the archives: each one's symbols join its pack's set. */
  method CollectSymbols(added: seq<(string, set<Symbol>)>) returns (packs: map<string, set<Symbol>>)
    ensures PackSymbols(packs, added)
  {
    packs := map[];
    for n := 0 to |added|
      invariant PackSymbols(packs, added[..n])
    {
      var (p, found) := added[n];
      ghost var before := packs;
      if found != {} {
        packs := packs[p := (if p in packs then packs[p] else {}) + found];
      }
      SymbolsAdded(before, packs, p, found, added, n);
    }
    assert added[..|added|] == added;
  }

  lemma SymbolsAdded(packs: map<string, set<Symbol>>, packs': map<string, set<Symbol>>, p: string, found: set<Symbol>,
                     added: seq<(string, set<Symbol>)>, n: nat)
    requires n < |added| && added[n] == (p, found) && PackSymbols(packs, added[..n])
    requires packs' == if found == {} then packs else packs[p := (if p in packs then packs[p] else {}) + found]
    ensures PackSymbols(packs', added[..n + 1])
  {
    CollectedStep(added, n);
    var shorter, longer := added[..n], added[..n + 1];
    forall q, s ensures (q in packs' && s in packs'[q]) <==> Collected(longer, q, s) {
      assert (q in packs && s in packs[q]) <==> Collected(shorter, q, s);
      assert Collected(longer, q, s) <==> Collected(shorter, q, s) || (q == p && s in found);
    }
    assert PackSymbols(packs', longer);
  }

  lemma CollectedStep(added: seq<(string, set<Symbol>)>, n: nat)
    requires n < |added|
    ensures forall p, s :: Collected(added[..n + 1], p, s) <==>
              Collected(added[..n], p, s) || (p == added[n].0 && s in added[n].1)
  {
  }

  /** The symbol loses a recognised exchange suffix. */
  predicate Strips(symbol: string) {
    StripExchangeSuffix(symbol).Some? && StripExchangeSuffix(symbol).value != symbol
  }

  /** The block and the map row a symbol of a pack goes to, if any. */
  function RowFor(strategy: Strategy, s: Symbol): Option<(Kind, MapRow)> {
    match strategy
    case Stock =>
      var stripped := StripExchangeSuffix(s.0);
      if stripped.None? then None
      else if stripped.value != s.0 then Some((SuffixMap, SuffixRow(s.0, stripped.value, s.1)))
      else Some((DirectMap, DirectRow(s.0, s.1)))
    case Fx =>
      var sym := Upper(Strip(s.0));
      if |sym| != 6 then None else Some((FxMap, FxRow(sym, sym[..3], sym[3..6])))
    case Macro => Some((MacroMap, MacroRow(s.0)))
  }

  /** A stock symbol with a recognised exchange suffix goes to the suffix block with its base. */
  lemma SuffixRowOf(base: string, suffix: string, assetType: string)
    requires '.' !in suffix && 2 <= |suffix| <= 3 && !("^" <= base)
    requires forall c :: c in suffix ==> c in CAPITALS || c in SMALL_LETTERS
    ensures RowFor(Stock, (base + "." + suffix, assetType)) ==
            Some((SuffixMap, SuffixRow(base + "." + suffix, base, assetType)))
  {
    StripIff(base, suffix);
    hide StripExchangeSuffix;
  }

  /** Any other stock symbol goes to the direct block, an index with its type. */
  lemma DirectRowOf(sym: string, assetType: string)
    requires sym != ""
    requires "^" <= sym || forall base, suffix :: sym == base + "." + suffix && 2 <= |suffix| <= 3 ==>
               exists c :: c in suffix && c !in CAPITALS && c !in SMALL_LETTERS
    ensures RowFor(Stock, (sym, assetType)) == Some((DirectMap, DirectRow(sym, assetType)))
  {
    StripDecomposes(sym);
    var stripped := StripExchangeSuffix(sym);
    assert "^" <= sym ==> stripped == Some(sym);
    hide StripExchangeSuffix;
    if stripped.value != sym && !("^" <= sym) {
      var suffix :| RecognisedSuffix(suffix) && sym == stripped.value + "." + suffix;
      RecognisedIff(suffix);
    }
  }

  /** A currency symbol of six characters goes to the currency block with its first three as base and its last three as
      quote currency; no other does. */
  lemma FxRowOf(sym: string, assetType: string, kind: Kind, row: MapRow)
    ensures RowFor(Fx, (sym, assetType)) == Some((kind, row)) <==>
              kind == FxMap && row.FxRow? && |row.base| == 3 && |row.quote| == 3 &&
              row.sym == row.base + row.quote == Upper(Strip(sym))
  {
    var s := Upper(Strip(sym));
    if |s| == 6 {
      assert s == s[..3] + s[3..6];
    }
    if row.FxRow? && |row.base| == 3 && |row.quote| == 3 && s == row.base + row.quote {
      assert s[..3] == row.base && s[3..6] == row.quote;
    }
    hide Strip;
  }

  /** A macro symbol goes to the macro block. */
  lemma MacroRowOf(sym: string, assetType: string)
    ensures RowFor(Macro, (sym, assetType)) == Some((MacroMap, MacroRow(sym)))
  {
  }

  /** The comments' bond example: its one-letter suffix is kept, so it goes to the direct block and joins nothing. */
  lemma BondSymbolNeverMatches(instruments: seq<Instrument>, i: Instrument)
    ensures RowFor(Stock, ("10YUSY.B", "STOCK")) == Some((DirectMap, DirectRow("10YUSY.B", "STOCK")))
    ensures !Joins(DirectRow("10YUSY.B", "STOCK"), instruments, i)
  {
    var symbol := "10YUSY.B";
    assert symbol[6] == '.' && symbol[0] == '1';
    assert LastIndexOf(symbol, '.') == 6;
    assert |symbol[7..]| == 1;
    CanJoinIff(DirectRow(symbol, "STOCK"), instruments);
  }

  function StrategyOfPack(packId: string): Strategy {
    ClassifyBridgingStrategy(RegionOfPackId(packId))
  }

  /** Map row `row` is due in the block of kind `kind` for some symbol of the pack. */
  ghost predicate Due(packId: string, symbols: set<Symbol>, kind: Kind, row: MapRow) {
    exists s :: s in symbols && RowFor(StrategyOfPack(packId), s) == Some((kind, row))
  }

  ghost predicate InBlocks(blocks: seq<Block>, packId: string, kind: Kind, row: MapRow) {
    exists n :: 0 <= n < |blocks| && blocks[n].packId == packId && blocks[n].kind == kind && row in blocks[n].rows
  }

  /** The blocks hold exactly the map rows due to the packs' symbols. */
  ghost predicate CarriesOut(blocks: seq<Block>, packs: map<string, set<Symbol>>) {
    forall p, kind, row :: InBlocks(blocks, p, kind, row) <==> p in packs && Due(p, packs[p], kind, row)
  }

  predicate UpperSymbols(symbols: set<Symbol>) {
    forall s :: s in symbols ==> Upper(s.0) == s.0
  }

  /** What the script guarantees of a block's symbols. */
  predicate ProperBlock(b: Block) {
    && (b.rows == [] ==> b.kind == FxMap)
    && forall r :: r in b.rows ==>
      && Fits(b.kind, r) && Upper(r.sym) == r.sym
      && (b.kind == SuffixMap ==> Strips(r.sym)) && (b.kind == DirectMap ==> !Strips(r.sym))
  }

  /** Blocks of one pack are a suffix block followed by a direct block, or a single one. */
  ghost predicate Planned(blocks: seq<Block>) {
    && (forall n :: 0 <= n < |blocks| ==> ProperBlock(blocks[n]))
    && (forall i, j :: 0 <= i < j < |blocks| && blocks[i].packId == blocks[j].packId ==>
          blocks[i].kind == SuffixMap && blocks[j].kind == DirectMap)
  }

  predicate PairLe(a: Symbol, b: Symbol) {
    if a.0 == b.0 then StrLe(a.1, b.1) else StrLe(a.0, b.0)
  }

  lemma PairLeIsTotalOrder()
    ensures Comparison(PairLe) && Antisymmetric(PairLe)
  {
    forall a, b ensures PairLe(a, b) || PairLe(b, a) {
      StrLeTotal(a.0, b.0);
      StrLeTotal(a.1, b.1);
    }
    forall a, b | PairLe(a, b) && PairLe(b, a) ensures a == b {
      if a.0 == b.0 { StrLeAntisymmetric(a.1, b.1); } else { StrLeAntisymmetric(a.0, b.0); }
    }
    forall a, b, c | PairLe(a, b) && PairLe(b, c) ensures PairLe(a, c) {
      if a.0 == b.0 == c.0 {
        StrLeTransitive(a.1, b.1, c.1);
      } else if a.0 != b.0 && b.0 != c.0 {
        StrLeTransitive(a.0, b.0, c.0);
        if a.0 == c.0 { StrLeAntisymmetric(a.0, b.0); }
      }
    }
  }

  /** The blocks of one pack. */
  method PackBlocks(packId: string, symbols: set<Symbol>) returns (blocks: seq<Block>)
    requires UpperSymbols(symbols) && symbols != {}
    ensures Planned(blocks)
    ensures forall n :: 0 <= n < |blocks| ==> blocks[n].packId == packId
    ensures forall kind, row :: InBlocks(blocks, packId, kind, row) <==> Due(packId, symbols, kind, row)
  {
    hide StrategyOfPack, PairLe, Strips, RowFor, Due;
    PairLeIsTotalOrder();
    hide Ascending, Comparison;
    var sorted := SortedSet(symbols, PairLe);
    var strategy := StrategyOfPack(packId);
    var suffix: seq<MapRow>, direct: seq<MapRow>, other: seq<MapRow> := [], [], [];
    for n := 0 to |sorted|
      invariant forall row :: row in suffix <==> Emitted(strategy, sorted, n, SuffixMap, row)
      invariant forall row :: row in direct <==> Emitted(strategy, sorted, n, DirectMap, row)
      invariant forall row :: row in other <==>
                  Emitted(strategy, sorted, n, FxMap, row) || Emitted(strategy, sorted, n, MacroMap, row)
    {
      EmittedStep(strategy, sorted, n);
      match RowFor(strategy, sorted[n]) {
        case None =>
        case Some(placed) =>
          match placed.0 {
            case SuffixMap => suffix := suffix + [placed.1];
            case DirectMap => direct := direct + [placed.1];
            case _ => other := other + [placed.1];
          }
      }
    }
    EmittedIsDue(packId, symbols, sorted);
    EmittedIsProper(strategy, symbols, sorted);
    MacroEmits(symbols, sorted);
    if strategy == Stock {
      blocks := (if suffix == [] then [] else [Block(SuffixMap, packId, suffix)]) +
                (if direct == [] then [] else [Block(DirectMap, packId, direct)]);
      InStockBlocks(packId, suffix, direct);
    } else {
      var block := Block(if strategy == Fx then FxMap else MacroMap, packId, other);
      blocks := [block];
      InOneBlock(block);
    }
  }

  /** One of the first n symbols goes to `row` of the block of kind `kind`. */
  ghost predicate Emitted(strategy: Strategy, sorted: seq<Symbol>, n: nat, kind: Kind, row: MapRow)
    requires n <= |sorted|
  {
    exists k :: 0 <= k < n && RowFor(strategy, sorted[k]) == Some((kind, row))
  }

  lemma EmittedStep(strategy: Strategy, sorted: seq<Symbol>, n: nat)
    requires n < |sorted|
    ensures forall kind, row :: Emitted(strategy, sorted, n + 1, kind, row) <==>
              Emitted(strategy, sorted, n, kind, row) || RowFor(strategy, sorted[n]) == Some((kind, row))
  {
  }

  lemma EmittedIsDue(packId: string, symbols: set<Symbol>, sorted: seq<Symbol>)
    requires Elements(sorted) == symbols
    ensures forall kind, row :: Emitted(StrategyOfPack(packId), sorted, |sorted|, kind, row) <==>
              Due(packId, symbols, kind, row)
  {
  }

  /** A macro pack always has a row. */
  lemma MacroEmits(symbols: set<Symbol>, sorted: seq<Symbol>)
    requires Elements(sorted) == symbols && symbols != {}
    ensures exists row :: Emitted(Macro, sorted, |sorted|, MacroMap, row)
  {
    EmptyIfNoElements(sorted);
    assert Emitted(Macro, sorted, |sorted|, MacroMap, MacroRow(sorted[0].0));
  }

  lemma EmittedIsProper(strategy: Strategy, symbols: set<Symbol>, sorted: seq<Symbol>)
    requires Elements(sorted) == symbols && UpperSymbols(symbols)
    ensures forall kind, row :: Emitted(strategy, sorted, |sorted|, kind, row) ==>
              && Fits(kind, row) && Upper(row.sym) == row.sym
              && (kind == SuffixMap ==> Strips(row.sym)) && (kind == DirectMap ==> !Strips(row.sym))
              && (strategy == Stock <==> kind == SuffixMap || kind == DirectMap)
              && (strategy == Fx <==> kind == FxMap)
  {
  }

  /** The script's main loop over the packs in sorted order. */
  method BuildBlocks(packs: map<string, set<Symbol>>) returns (blocks: seq<Block>)
    requires forall p :: p in packs ==> UpperSymbols(packs[p]) && packs[p] != {}
    ensures Planned(blocks) && CarriesOut(blocks, packs)
  {
    hide Planned, InBlocks, BlocksFor, Due, CarriesOut;
    StrLeIsTotalOrder();
    hide StrLe, Ascending, Comparison;
    var ids := SortedSet(packs.Keys, StrLe);
    blocks := [];
    NoBlocks(packs);
    for n := 0 to |ids|
      invariant BlocksFor(blocks, packs, ids[..n])
    {
      assert ids[n] in Elements(ids);
      assert ids[n] !in ids[..n];
      assert ids[..n + 1] == ids[..n] + [ids[n]];
      var more := PackBlocks(ids[n], packs[ids[n]]);
      BlocksGrow(blocks, more, packs, ids[..n], ids[n]);
      blocks := blocks + more;
    }
    assert ids[..|ids|] == ids;
    BlocksForAll(blocks, packs, ids);
  }

  /** Planned blocks that hold exactly the map rows due to the given packs. */
  ghost predicate BlocksFor(blocks: seq<Block>, packs: map<string, set<Symbol>>, ids: seq<string>) {
    && Planned(blocks)
    && (forall k :: 0 <= k < |blocks| ==> blocks[k].packId in ids)
    && (forall p, kind, row :: InBlocks(blocks, p, kind, row) <==>
          p in ids && p in packs && Due(p, packs[p], kind, row))
  }

  lemma NoBlocks(packs: map<string, set<Symbol>>)
    ensures BlocksFor([], packs, [])
  {
  }

  lemma BlocksGrow(blocks: seq<Block>, more: seq<Block>, packs: map<string, set<Symbol>>, ids: seq<string>, id: string)
    requires BlocksFor(blocks, packs, ids) && Planned(more) && id !in ids && id in packs
    requires forall n :: 0 <= n < |more| ==> more[n].packId == id
    requires forall kind, row :: InBlocks(more, id, kind, row) <==> Due(id, packs[id], kind, row)
    ensures BlocksFor(blocks + more, packs, ids + [id])
  {
    InBlocksOfConcat(blocks, more);
    InOnePack(more, id);
    PlannedOfConcat(blocks, more, ids, id);
    hide Planned, InBlocks, Due;
  }

  lemma BlocksForAll(blocks: seq<Block>, packs: map<string, set<Symbol>>, ids: seq<string>)
    requires BlocksFor(blocks, packs, ids) && Elements(ids) == packs.Keys
    ensures Planned(blocks) && CarriesOut(blocks, packs)
  {
    forall p ensures p in ids <==> p in packs {
      assert p in Elements(ids) <==> p in ids;
    }
  }

  lemma PlannedOfConcat(a: seq<Block>, b: seq<Block>, ids: seq<string>, id: string)
    requires Planned(a) && Planned(b) && id !in ids
    requires forall n :: 0 <= n < |a| ==> a[n].packId in ids
    requires forall n :: 0 <= n < |b| ==> b[n].packId == id
    ensures Planned(a + b)
  {
  }

  lemma InOnePack(blocks: seq<Block>, id: string)
    requires forall n :: 0 <= n < |blocks| ==> blocks[n].packId == id
    ensures forall p, kind, row :: InBlocks(blocks, p, kind, row) ==> p == id
  {
  }

  lemma InOneBlock(b: Block)
    ensures forall p, kind, row :: InBlocks([b], p, kind, row) <==> p == b.packId && kind == b.kind && row in b.rows
    ensures forall p, kind, row :: !InBlocks([], p, kind, row)
  {
    assert [b][0] == b;
  }

  lemma InStockBlocks(packId: string, suffix: seq<MapRow>, direct: seq<MapRow>)
    ensures var blocks := (if suffix == [] then [] else [Block(SuffixMap, packId, suffix)]) +
                          (if direct == [] then [] else [Block(DirectMap, packId, direct)]);
            forall p, kind, row :: InBlocks(blocks, p, kind, row) <==>
              p == packId && ((kind == SuffixMap && row in suffix) || (kind == DirectMap && row in direct))
  {
    var a := if suffix == [] then [] else [Block(SuffixMap, packId, suffix)];
    var b := if direct == [] then [] else [Block(DirectMap, packId, direct)];
    InBlocksOfConcat(a, b);
    InOneBlock(Block(SuffixMap, packId, suffix));
    InOneBlock(Block(DirectMap, packId, direct));
  }

  lemma InBlocksOfConcat(a: seq<Block>, b: seq<Block>)
    ensures forall p, kind, row ::
              InBlocks(a + b, p, kind, row) <==> InBlocks(a, p, kind, row) || InBlocks(b, p, kind, row)
  {
    forall p, kind, row
      ensures InBlocks(a + b, p, kind, row) <==> InBlocks(a, p, kind, row) || InBlocks(b, p, kind, row)
    {
      if InBlocks(a, p, kind, row) {
        var n :| 0 <= n < |a| && a[n].packId == p && a[n].kind == kind && row in a[n].rows;
        assert (a + b)[n] == a[n];
      }
      if InBlocks(b, p, kind, row) {
        var n :| 0 <= n < |b| && b[n].packId == p && b[n].kind == kind && row in b[n].rows;
        assert (a + b)[|a| + n] == b[n];
      }
    }
  }

  lemma PackSymbolsAreUpper(packs: map<string, set<Symbol>>, archives: seq<ZipArchive>)
    requires PackSymbols(packs, Contributions(archives))
    ensures forall p :: p in packs ==> UpperSymbols(packs[p])
  {
  }

  /** Scanning the archives and generating the script. */
  method GenerateScript(archives: seq<ZipArchive>) returns (blocks: seq<Block>, packs: map<string, set<Symbol>>)
    ensures PackSymbols(packs, Contributions(archives)) && Planned(blocks) && CarriesOut(blocks, packs)
  {
    packs := CollectSymbols(Contributions(archives));
    PackSymbolsAreUpper(packs, archives);
    blocks := BuildBlocks(packs);
  }

  /** A row is hit under a symbol of the block. */
  lemma HitSymbolIsProper(step: Step, instruments: seq<Instrument>, row: Coverage)
    requires ValidStep(step, instruments) && ProperBlock(step.block) && Hits(step, row)
    ensures var sym := MatchKey(step.block.kind, row);
            && Upper(sym) == sym
            && (step.block.kind == SuffixMap ==> Strips(sym))
            && (step.block.kind == DirectMap ==> !Strips(sym))
  {
    var sym := MatchKey(step.block.kind, row);
    var n :| 0 <= n < |instruments| && Joined(step.block, instruments, sym, n);
    var k :| 0 <= k < |step.block.rows| && step.block.rows[k].sym == sym;
    assert step.block.rows[k] in step.block.rows;
  }

  /** A row that a suffix block can rewrite is never hit by the direct block of its pack. */
  lemma SuffixAndDirectDisjoint(a: Step, b: Step, instruments: seq<Instrument>, row: Coverage)
    requires ValidStep(a, instruments) && ValidStep(b, instruments)
    requires ProperBlock(a.block) && ProperBlock(b.block)
    requires a.block.kind == SuffixMap && b.block.kind == DirectMap
    ensures !(Hits(a, row) && Hits(b, row))
  {
    if Hits(a, row) { HitSymbolIsProper(a, instruments, row); }
    if Hits(b, row) { HitSymbolIsProper(b, instruments, row); }
  }

  lemma PlannedPairDisjoint(blocks: seq<Block>, instruments: seq<Instrument>, steps: seq<Step>,
                            i: nat, j: nat, row: Coverage)
    requires Planned(blocks) && ValidRun(steps, blocks, instruments) && i < |steps| && j < |steps| && i != j
    ensures !(Hits(steps[i], row) && Hits(steps[j], row))
  {
    if steps[i].block.packId == steps[j].block.packId {
      var a, b := if i < j then steps[i] else steps[j], if i < j then steps[j] else steps[i];
      SuffixAndDirectDisjoint(a, b, instruments, row);
    }
  }

  /** No two blocks of a generated script rewrite the same row, whatever they match. */
  lemma PlannedIsRowDisjoint(blocks: seq<Block>, instruments: seq<Instrument>, steps: seq<Step>)
    requires Planned(blocks) && ValidRun(steps, blocks, instruments)
    ensures RowDisjoint(steps)
  {
    forall s, t, row | s in steps && t in steps && s != t ensures !(Hits(s, row) && Hits(t, row)) {
      var i :| 0 <= i < |steps| && steps[i] == s;
      var j :| 0 <= j < |steps| && steps[j] == t;
      PlannedPairDisjoint(blocks, instruments, steps, i, j, row);
    }
  }

  /** The UPDATEs of a generated script can be executed in any order. */
  lemma ScriptInAnyOrder(blocks: seq<Block>, instruments: seq<Instrument>,
                         steps: seq<Step>, reordered: seq<Step>, table: seq<Coverage>)
    requires Planned(blocks) && ValidRun(steps, blocks, instruments) && multiset(steps) == multiset(reordered)
    ensures RunTable(reordered, table) == RunTable(steps, table)
  {
    PlannedIsRowDisjoint(blocks, instruments, steps);
    forall k | 0 <= k < |table| ensures RunRow(reordered, table[k]) == RunRow(steps, table[k]) {
      AnyOrder(steps, reordered, table[k]);
    }
  }

  /** A member ending in .txt or .csv stands for its ticker, if it has one, and its asset type. */
  predicate GivesSymbol(m: string, s: Symbol) {
    && |m| >= 4 && m[|m| - 4..] in [".txt", ".csv"]
    && TickerOf(m) != "" && s == (TickerOf(m), DetectAssetType(m))
  }

  /** A pack's symbols are those that the members of its archives give, and no others. */
  lemma PackHoldsIff(packs: map<string, set<Symbol>>, archives: seq<ZipArchive>, p: string, s: Symbol)
    requires PackSymbols(packs, Contributions(archives))
    ensures p in packs && s in packs[p] <==>
              exists z, m :: z in archives && z.members.Some? && m in z.members.value && PackIdOf(z) == p &&
                             GivesSymbol(m, s)
  {
    var added := Contributions(archives);
    assert p in packs && s in packs[p] <==> Collected(added, p, s);
    forall z ensures s in SymbolsOf(z) <==>
                       z.members.Some? && (exists m :: m in z.members.value && GivesSymbol(m, s))
    {
      SymbolOfArchive(z, s);
    }
    hide GivesSymbol, PackIdOf, SymbolsOf;
    if Collected(added, p, s) {
      var n :| 0 <= n < |added| && added[n].0 == p && s in added[n].1;
      assert archives[n] in archives;
    }
    if z :| z in archives && PackIdOf(z) == p && s in SymbolsOf(z) {
      var n :| 0 <= n < |archives| && archives[n] == z;
      assert added[n] == (p, SymbolsOf(z));
    }
  }

  lemma SymbolOfArchive(z: ZipArchive, s: Symbol)
    ensures s in SymbolsOf(z) <==>
              z.members.Some? && (exists m :: m in z.members.value && GivesSymbol(m, s))
  {
    hide TickerOf, MemberSymbol, IsDataFile, GivesSymbol;
    if z.members.Some? {
      forall m | m in z.members.value
        ensures GivesSymbol(m, s) <==> IsDataFile(m) && TickerOf(m) != "" && MemberSymbol(m) == s
      {
        GivesSymbolIff(m, s);
      }
    }
  }

  lemma GivesSymbolIff(m: string, s: Symbol)
    ensures GivesSymbol(m, s) <==> IsDataFile(m) && TickerOf(m) != "" && MemberSymbol(m) == s
  {
    hide TickerOf, DetectAssetType;
  }

  /** A member of a scanned archive is a symbol of its pack: the file's name without its directories and ending, in
      upper case; an index if that starts with a caret, otherwise a fund if the member's path mentions "etfs", and
      otherwise a stock. */
  lemma MemberJoinsPack(packs: map<string, set<Symbol>>, archives: seq<ZipArchive>, z: ZipArchive,
                        dir: string, stem: string, ext: string)
    requires PackSymbols(packs, Contributions(archives)) && z in archives && ext in {"txt", "csv"}
    requires z.members.Some? && dir + "/" + stem + "." + ext in z.members.value
    requires (exists i :: 0 <= i < |stem| && stem[i] != '.') && '/' !in stem
    ensures PackIdOf(z) in packs
    ensures (Upper(stem),
             if stem[0] == '^' then "INDEX"
             else if Contains(Lower(dir + "/" + stem + "." + ext), "etfs") then "FUND"
             else "STOCK") in packs[PackIdOf(z)]
  {
    PathMember(dir, stem, ext);
    hide IsDataFile, MemberSymbol, Contains;
    SymbolIsCollected(packs, archives, z, dir + "/" + stem + "." + ext);
  }

  lemma PathMember(dir: string, stem: string, ext: string)
    requires ext in {"txt", "csv"} && (exists i :: 0 <= i < |stem| && stem[i] != '.') && '/' !in stem
    ensures var m := dir + "/" + stem + "." + ext;
            && IsDataFile(m) && TickerOf(m) != ""
            && MemberSymbol(m) == (Upper(stem),
                                   if stem[0] == '^' then "INDEX"
                                   else if Contains(Lower(m), "etfs") then "FUND"
                                   else "STOCK")
  {
    hide TickerOf, Contains, IsDataFile, Lower, Upper, MemberSymbol;
    TickerOfPath(dir, stem, ext);
    DataEnding(dir + "/" + stem, ext);
    SymbolOfStem(dir + "/" + stem + "." + ext, stem);
  }

  lemma DataEnding(head: string, ext: string)
    requires ext in {"txt", "csv"}
    ensures IsDataFile(head + "." + ext)
  {
    var m := head + "." + ext;
    assert m[|m| - 4..] == "." + ext;
    assert "." + "txt" == ".txt" && "." + "csv" == ".csv";
  }

  lemma SymbolOfStem(m: string, stem: string)
    requires stem != "" && TickerOf(m) == Upper(stem)
    ensures TickerOf(m) != ""
    ensures MemberSymbol(m) == (Upper(stem),
                                if stem[0] == '^' then "INDEX"
                                else if Contains(Lower(m), "etfs") then "FUND"
                                else "STOCK")
  {
    assert UpperChar(stem[0]) == '^' <==> stem[0] == '^';
    hide TickerOf, Contains, Lower;
  }

  lemma SymbolIsCollected(packs: map<string, set<Symbol>>, archives: seq<ZipArchive>, z: ZipArchive, m: string)
    requires PackSymbols(packs, Contributions(archives)) && z in archives
    requires z.members.Some? && m in z.members.value && IsDataFile(m) && TickerOf(m) != ""
    ensures PackIdOf(z) in packs && MemberSymbol(m) in packs[PackIdOf(z)]
  {
    hide TickerOf, IsDataFile, PackIdOf, MemberSymbol;
    assert MemberSymbol(m) in SymbolsOf(z);
    var n :| 0 <= n < |archives| && archives[n] == z;
    assert Contributions(archives)[n] == (PackIdOf(z), SymbolsOf(z));
    hide SymbolsOf, Contributions;
    assert Collected(Contributions(archives), PackIdOf(z), MemberSymbol(m));
  }

  /** The blocks of a script have a map row for a symbol of a pack exactly as its region's strategy says. */
  lemma SymbolIsCarriedOut(blocks: seq<Block>, packs: map<string, set<Symbol>>, region: string, s: Symbol,
                           kind: Kind, row: MapRow)
    requires CarriesOut(blocks, packs) && !Contains(region, PACK_SUFFIX)
    requires DerivePackId(region) in packs && s in packs[DerivePackId(region)]
    requires RowFor(ClassifyBridgingStrategy(region), s) == Some((kind, row))
    ensures exists b :: b in blocks && b.packId == DerivePackId(region) && b.kind == kind && row in b.rows
  {
    StrategyFromRegion(region);
    hide ClassifyBridgingStrategy, RegionOfPackId, RowFor, Contains;
    var p := DerivePackId(region);
    assert Due(p, packs[p], kind, row);
    var n :| 0 <= n < |blocks| && blocks[n].packId == p && blocks[n].kind == kind && row in blocks[n].rows;
    assert blocks[n] in blocks;
  }
}
