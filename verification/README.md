# Sigma Finance: verified models

Dafny models of the parts of Sigma Finance that hold state and transform data, with proofs of what they promise.
`dafny verify dfyconfig.toml` checks everything.

| part | files |
|---|---|
| Stooq ingestion: buffer, batches, year-by-year consolidation | `MarketRows`, `Ingestion`, `IngestionRun`, `IngestionLaws`, `Calendar` |
| Coverage bridging: script generation, its text, its meaning as table updates | `PackNames`, `BridgePlan`, `SqlValues`, `ScriptText`, `Bridging`, `CoverageTables` |
| Coverage bridging: commits, roll-backs and re-runs under the primary key | `PrimaryKey`, `CommittingRuns`, `BlockOrders`, `RerunExamples` |
| Real-time dashboard reducer, on values and on the heap | `DashboardLog`, `Dashboard` |
| Position index and portfolio weights | `PositionIndex`, `Weights` |
| Back-fill polling | `BackfillMonitoring` |
| Pack registry merge, asset catalog, admin bootstrap | `Registry`, `Catalog`, `AdminEmails` |
| Shared | `Text`, `ArchiveNames`, `Ordering`, `Sequences`, `Options` |

How the models stand for the code:

- The ingestion, the coverage table, the Maps of the dashboard, the poller, the catalog builder and the user
  repository are classes whose methods change their fields where the code does. Lists and dictionaries the code
  mutates are fields of type `seq` and `map`.
- Whatever the code does not control is arbitrary: memory readings, row-group sizes, directory and map iteration
  order, ties of DISTINCT ON and LIMIT 1, the order in which an UPDATE visits rows, failing lookups and updates.
  Results hold for every choice. A batch is always read whole and in its row order.
- The dashboard's `State` is a value holding references to Map objects, because the reducer never assigns a state's
  field but does write the old state's Maps. Consecutive reducer calls are a recursive method, since the loop over
  actions is React's.
- Timestamps are microseconds since 0001-01-01 00:00 and file names carry a `Date` value. Letters are ASCII.

Where the code and its own words differ:

- The per-year windows end at 23:59:59, so a row in the open last second of a year is lost
  (`IngestionLaws.LastHalfSecondIsLost`); `NothingLostIffCovered` is the exact condition.
- Which row a file keeps for a new symbol can depend on the flush schedule and the listing order of the batches
  together: `KeptRowScheduleFreeIff` says exactly when it does not, `IndexOrderHidesSchedule` that the schedule alone is
  harmless if batches are read in index order, and `ScheduleDecidesPrice` is an input where it is not.
- The script calls itself safe to re-run. The table's primary key
  (server/cmd/bun/migrations/39052026_repair_market_data_pack_tables.go:48) can make a run roll back, and then a later
  run with other picks may change rows: `RollbackThenCommit` is an archive and a fresh pack for which it does.
  `EveryRunCommitsIff` and `SomeRunCommitsIff` say from blocks, instruments and table when every run and when some run
  commits, and `CommittingRuns.SafeToRerunIff` combines them. `TwinSymbolsNeverCommit` is a script that no run can
  apply.
- The comments say bond and volatility symbols (10YUSY.B) are matched directly. The join compares with the part of
  the instrument's symbol before its first dot, so a symbol that keeps a dot is never matched
  (`Bridging.CanJoinIff`, `BridgePlan.BondSymbolNeverMatches`).
- The two Python scripts test "stocks" and "etfs" in opposite order and treat indices differently
  (`BridgePlan.LabelsAgreeIff`, `BridgePlan.IndexIsLabelledApart`).
- A region that contains the pack suffix is not recovered from its pack id, and may then get another strategy
  (`PackNames.RegionRoundTripIff`, `PackNames.StrategyCanChange`).
- The unread counter drifts when an acknowledgement clears no alert or several, as it does after the provider's effect
  has added an alert again: `UnreadExactIff` and `NeverExceedsIff` are the exact conditions, `RepeatedIdOvercounts` an
  input.
- The reducer looks pure but writes the old state's Maps, and `initialState` is shared by all mounts: `Remount` gives
  the exact condition under which a second mount starts clean, `RemountShowsOldPrice` a run where it does not.
- A token file that vanishes between listing and reading, or a dangling link, ends the walk of its chain without an
  error (server/tools/generate_trustwallet_catalog.go:140-176); `NothingDroppedIff` says when no token is lost.

## Model

| member | source | states |
|---|---|---|
| `IngestionRun.Ingestor.Run` | tools/ingest_stooq.py:331-396 | For every archive list, every memory reading, row-group size and listing order: the members are put whole and in order into batches, each output file is the first-wins merge of what was there with exactly the covered rows of its date and asset type, whole batches in some listing order and each in its row order; the temporary directory ends empty; no file is written twice, and the files written are exactly those with a row. |
| `IngestionRun.Ingestor.LoadArchives` | tools/ingest_stooq.py:376-389 | The loading phase ends with an empty buffer and batches 0..n-1, none empty, each below 2,000,000 rows plus the largest archive member and holding whole members, whose concatenation in batch order is the input in reading order. |
| `IngestionRun.Ingestor.ProcessFile` | tools/ingest_stooq.py:240-324 | With the two memory readings given: the buffer including this member's rows becomes one batch exactly if the member was not skipped, the buffer is not empty, and a reading or the 2,000,000-row limit asks for it; otherwise it stays in the buffer. Either way the buffer is below 2,000,000 rows at the next file boundary, also when the member is skipped or its read fails. |
| `IngestionRun.Ingestor.ProcessZipFile` | tools/ingest_stooq.py:220-324 | An archive adds exactly the rows of its .txt and .csv members in order; an unreadable archive adds nothing and loses nothing. |
| `IngestionRun.Ingestor.AppendQuotes` | tools/ingest_stooq.py:291-301 | The append loop adds one row per dated quote, in order, under the member's ticker and asset type. |
| `IngestionRun.Ingestor.FlushBatchToTemp` | tools/ingest_stooq.py:77-103 | An empty buffer is not written and takes no index; otherwise the next index gets a file holding exactly the buffer, older batches are untouched and the buffer is empty. |
| `IngestionRun.Ingestor.DetectYears` | tools/ingest_stooq.py:115-142 | The years of the row-group minima and maxima span the year of every buffered row, and each is the year of some row, whatever the row groups and the listing order. |
| `IngestionRun.Ingestor.ReadYear` | tools/ingest_stooq.py:151-162 | A year's table is the rows in the year's window, whole batches read in some listing order and each batch in its row order. |
| `IngestionRun.Ingestor.WriteGroup` | tools/ingest_stooq.py:183-205 | A group is appended to an existing file and deduplicated first-wins, or becomes the file; no other file changes. |
| `IngestionRun.Ingestor.ConsolidateYear` | tools/ingest_stooq.py:151-205 | Consolidating a year settles exactly that year's files and writes each once, in any order of the groups. |
| `IngestionRun.Ingestor.PartitionTempBatchesToFinal` | tools/ingest_stooq.py:105-218 | The years from the least to the greatest detected one together write every file that has rows, each once; an empty temporary directory changes nothing. |
| `IngestionRun.LeastAndGreatest` | tools/ingest_stooq.py:145 | The least and the greatest detected year are detected years and bound all of them. |
| `Ingestion.GroupIsRowsFor` | tools/ingest_stooq.py:178-183 | A date and asset-type group of a year's table is exactly the rows of the group's file in the whole batches, in the order read. |
| `Ingestion.GroupRowsPermute` | tools/ingest_stooq.py:178-183 | Up to their order these are all input rows that belong to the file. |
| `Ingestion.OtherFilesReceiveNothing` | tools/ingest_stooq.py:178-181 | A file of the year without a group has no covered input row. |
| `Ingestion.SpannedByStatistics` | tools/ingest_stooq.py:126-140 | Sound row-group statistics bound the year of each row of the group. |
| `IngestionLaws.FirstRunPartitions` | tools/ingest_stooq.py:151-205 | On an empty output every row is stored in a file as often as the input holds it if it is covered and belongs there, and never otherwise; a file exists exactly if some covered row belongs to it. |
| `IngestionLaws.FilesHoldTheirRows` | tools/ingest_stooq.py:175-181 | After a first run over any archives a row is in a stock_daily file exactly if its type is STOCK, in an etf_daily file exactly if it is FUND, and always in the file of its own day. |
| `IngestionLaws.QuoteIsStored` | tools/ingest_stooq.py:240-301 | Every covered quote of a data file ends, under the file's ticker, in the stock file of its day if the file's name contains stocks or does not contain etfs, otherwise in the ETF file of its day, and in no file of the other folder. |
| `IngestionLaws.SchedulesAgree` | tools/ingest_stooq.py:306-324 | Two first runs over the same input under different flush schedules write the same files with the same rows, up to their order. |
| `IngestionLaws.NothingLostIffCovered` | tools/ingest_stooq.py:152-153 | A run loses no row exactly when no timestamp lies in the open last second of its year. |
| `IngestionLaws.WholeSecondsLoseNothing` | tools/ingest_stooq.py:152-153 | Inputs with whole-second timestamps lose nothing. |
| `IngestionLaws.LastHalfSecondIsLost` | tools/ingest_stooq.py:153 | A row half a second before New Year is written to no file. |
| `IngestionLaws.SecondRunDeduplicates` | tools/ingest_stooq.py:186-190 | A second run over the same archive members, in any order, under any schedule and from any earlier output, turns every file it writes into its first-occurrence-per-symbol form. |
| `IngestionLaws.ReingestionReachesFixedPoint` | tools/ingest_stooq.py:186-190 | A third run changes nothing; the second changes nothing either if all its files existed before the first. |
| `IngestionLaws.MemberKeepsItsOrder` | tools/ingest_stooq.py:178-190 | Every file holds the rows of each archive member contiguously and in the member's order: all of them in a new file, in a merged file the first row of each symbol not in front of them. |
| `IngestionLaws.KeptRowScheduleFreeIff` | tools/ingest_stooq.py:178-190 | The row a file keeps for a symbol is the same under every flush schedule and listing order exactly when the file already had the symbol or the first rows the archive members have for it are all equal. |
| `IngestionLaws.IndexOrderHidesSchedule` | tools/ingest_stooq.py:151-190 | If batches are read in the order of their indices, every flush schedule gives the same file. |
| `IngestionLaws.ReverseOrderShowsSchedule` | tools/ingest_stooq.py:178-190 | If the last batch is read first, the schedule decides which of two competing members' rows a file keeps. |
| `IngestionLaws.ScheduleDecidesPrice` | tools/ingest_stooq.py:178-190 | Such an input: one ticker in two archives, where a flush between them changes the price kept. |
| `MarketRows.MergeFirstWins` | tools/ingest_stooq.py:186-190 | A merge keeps each existing symbol's first row, adds each new symbol's first row, holds every symbol of the union once, and keeps the existing rows in front in their order. |
| `MarketRows.DedupKeepsFirstRows` | tools/ingest_stooq.py:190 | drop_duplicates keeps the first row of every symbol. |
| `MarketRows.DedupExtends` | tools/ingest_stooq.py:190 | Rows appended later never change or reorder the rows already kept. |
| `Calendar.WindowIffCovered` | tools/ingest_stooq.py:151-153 | A timestamp lies in the window of its own year if it is covered and in no other window; uncovered ones lie in none. |
| `Calendar.WholeSecondsAreCovered` | tools/ingest_stooq.py:152-153 | Whole-second timestamps are covered, and an uncovered one is a fraction inside the last second of a day. |
| `Calendar.DateOfDayNumber` | tools/ingest_stooq.py:176 | The calendar date determines the day: with DayNumberOfDate, days and valid Gregorian dates are in bijection. |
| `Calendar.DayNumberOfDate` | tools/ingest_stooq.py:176 | Every day number has a valid Gregorian date that gives the day number back. |
| `Calendar.DateDeterminesYear` | tools/ingest_stooq.py:151-176 | The year in a row's file name is the year of its window. |
| `Calendar.DatesInSequence` | tools/ingest_stooq.py:176 | The calendar begins on January 1st of year 1 and every day is followed by the next date of a twelve-month table with leap years, which determines every date. |
| `Calendar.StampDateOfDay` | tools/ingest_stooq.py:176 | A timestamp's date is that of its day of 24 hours. |
| `Calendar.UncoveredIff` | tools/ingest_stooq.py:152-153 | The timestamps in no window are exactly those after 23:59:59 on a December 31st. |
| `PackNames.RegionRoundTripIff` | tools/seed_instruments_from_stooq.py:54-56 | Replacing the pack suffix in a derived pack id gives the region back exactly for regions that do not contain the suffix. |
| `PackNames.PackSuffixUnbordered` | tools/seed_instruments_from_stooq.py:54-56 | The pack suffix cannot overlap itself. |
| `Text.RemoveAppendedIff` | tools/seed_instruments_from_stooq.py:180 | For any part that cannot overlap itself, appending it and removing all occurrences is the identity exactly on texts without it. |
| `PackNames.RegionOfDerivedId` | tools/seed_instruments_from_stooq.py:180 | For every region, recovering it from its pack id removes every occurrence of the suffix from it. |
| `PackNames.StrategyFromRegion` | tools/seed_instruments_from_stooq.py:180-181 | The strategy of a pack is the one of its region without pack suffixes, so of the region itself if it has none. |
| `PackNames.StrategyCanChange` | tools/seed_instruments_from_stooq.py:180-181 | The region f-stooq-dailyx is a stock region but its pack is treated as a currency pack. |
| `PackNames.StrategyIff` | tools/seed_instruments_from_stooq.py:84-97 | A region is a currency region exactly if its name contains fx, and a macro region exactly if it contains macro and not fx, in any case. |
| `Text.ContainsIff` | tools/seed_instruments_from_stooq.py:93-95 | A text contains a part exactly if it is something, the part, and something. |
| `Text.LetterCases` | tools/seed_instruments_from_stooq.py:45-47 | The two cases of the alphabet correspond letter by letter. |
| `Text.OtherCharacters` | tools/seed_instruments_from_stooq.py:45-47 | No other character changes with the case. |
| `PackNames.PackIdInjective` | tools/seed_instruments_from_stooq.py:54-56 | Different regions have different pack ids. |
| `PackNames.ArchiveNameRoundTrip` | tools/seed_instruments_from_stooq.py:45-52 | The archive named d_<region>_txt.zip is read back as that region. |
| `PackNames.RegionOfArchive` | tools/seed_instruments_from_stooq.py:45-52 | The region is read from a name in any case, with or without the d_ in front and the _txt behind. |
| `PackNames.StripIff` | tools/seed_instruments_from_stooq.py:58-82 | base.suffix loses its suffix exactly if that is two or three letters of the alphabet and the symbol does not start with ^. |
| `PackNames.StripDecomposes` | tools/seed_instruments_from_stooq.py:58-82 | Whatever is stripped is a recognised suffix with its dot; only the empty symbol is left out. |
| `SqlValues.LiteralRoundTrip` | tools/seed_instruments_from_stooq.py:211-213 | A quoted literal with doubled quotes reads back as the original string, for all strings. |
| `SqlValues.LiteralText` | tools/seed_instruments_from_stooq.py:211-213 | The text of a literal: quotes around it, and every quote in it doubled. |
| `SqlValues.PrintValuesConcat` | tools/seed_instruments_from_stooq.py:208-217 | The tuples stand on lines of their own, with a comma after each but the last. |
| `SqlValues.ValuesRoundTrip` | tools/seed_instruments_from_stooq.py:208-217 | A printed VALUES list reads back as exactly the tuples it was printed from, and the reader stops at the closing parenthesis. |
| `SqlValues.PrintValuesInjective` | tools/seed_instruments_from_stooq.py:208-217 | Different tuple lists are never printed alike. |
| `SqlValues.WriteValues` | tools/seed_instruments_from_stooq.py:209-217 | The loop and join of the printer produce a text that reads back as its tuples. |
| `ScriptText.PrintBlock` | tools/seed_instruments_from_stooq.py:247-252 | The printed suffix, direct and macro blocks read back as exactly the block's map rows, under the block's own column list. |
| `ScriptText.PrintedLines` | tools/seed_instruments_from_stooq.py:208-332 | Which columns each kind of map row prints, in the order of its block's column list. |
| `ScriptText.PrintScript` | tools/seed_instruments_from_stooq.py:247-332 | Every stock and macro block of a generated script has a text that reads back as its rows. |
| `BridgePlan.CollectSymbols` | tools/seed_instruments_from_stooq.py:127-155 | Each pack's set is exactly the union of the symbols of the archives with its id; no pack is empty. |
| `BridgePlan.PackHoldsIff` | tools/seed_instruments_from_stooq.py:127-155 | The symbols of a pack are exactly the tickers, with their types, of the .txt and .csv members of its archives that have one. |
| `ArchiveNames.TickerOfPath` | tools/seed_instruments_from_stooq.py:140-141 | A member's ticker is its file name without directories and ending, in upper case. |
| `ArchiveNames.TickerOfDotFile` | tools/seed_instruments_from_stooq.py:140-141 | Dots at the start of a file name begin no ending, so such a name is its own ticker. |
| `ArchiveNames.IsDataFileIff` | tools/seed_instruments_from_stooq.py:132 | Exactly the members ending in .txt or .csv are read. |
| `BridgePlan.MemberJoinsPack` | tools/seed_instruments_from_stooq.py:127-155 | A data member dir/stem.ext of a scanned archive puts the upper-case stem in the archive's pack: an index if it starts with ^, else a fund if the path contains etfs, else a stock. |
| `BridgePlan.SuffixRowOf` | tools/seed_instruments_from_stooq.py:189-193 | In a stock pack, base.suffix with two or three letters after the dot goes to the suffix block with that base. |
| `BridgePlan.DirectRowOf` | tools/seed_instruments_from_stooq.py:194-199 | Every other symbol of a stock pack, each index among them, goes to the direct block unchanged with its type. |
| `BridgePlan.FxRowOf` | tools/seed_instruments_from_stooq.py:281-293 | In a currency pack exactly the six-character symbols become map rows: the first three are the base, the last three the quote currency. |
| `Text.StripSlice` | tools/seed_instruments_from_stooq.py:285 | strip cuts the whitespace off both ends of a symbol, all of it and nothing else. |
| `BridgePlan.MacroRowOf` | tools/seed_instruments_from_stooq.py:327-332 | Every symbol of a macro pack goes to the macro block. |
| `BridgePlan.SymbolIsCarriedOut` | tools/seed_instruments_from_stooq.py:178-332 | A generated script holds that map row for each symbol of a pack, in a block of the pack, by the strategy of the region. |
| `BridgePlan.PackBlocks` | tools/seed_instruments_from_stooq.py:179-199 | One pack's blocks hold exactly the map rows due to its symbols, symbols are upper-case, suffix rows strip and direct rows do not. |
| `BridgePlan.BuildBlocks` | tools/seed_instruments_from_stooq.py:178-352 | The whole script's blocks hold exactly the map rows due to all packs' symbols; two blocks share a pack only as its suffix and direct block. |
| `BridgePlan.GenerateScript` | tools/seed_instruments_from_stooq.py:121-352 | Scanning and generating together give such a script for every list of archives. |
| `BridgePlan.PlannedIsRowDisjoint` | tools/seed_instruments_from_stooq.py:234-275 | No two blocks of a generated script hit the same coverage row, whatever they matched. |
| `BridgePlan.SuffixAndDirectDisjoint` | tools/seed_instruments_from_stooq.py:189-199 | The exact comparison of the suffix block and the upper-casing one of the direct block never hit the same row. |
| `BridgePlan.ScriptInAnyOrder` | tools/seed_instruments_from_stooq.py:178-352 | For fixed picks the updates of a generated script give the same table in any order. |
| `Bridging.Idempotent` | tools/seed_instruments_from_stooq.py:174 | Running the blocks again, whatever DISTINCT ON and LIMIT 1 pick this time, changes no row. |
| `Bridging.OriginalIdKept` | tools/seed_instruments_from_stooq.py:234-240 | Any sequence of updates keeps the pack's own id of a row, rewrites it at most once, and saves the replaced id. |
| `Bridging.RewriteIsJustified` | tools/seed_instruments_from_stooq.py:218-277 | A row changes exactly if it is unbridged and some block of its pack matches its symbol; its new id is one the block's query may pick. |
| `Bridging.AnyOrder` | tools/seed_instruments_from_stooq.py:234-275 | Row-disjoint updates can be reordered arbitrarily. |
| `Bridging.CanJoinIff` | tools/seed_instruments_from_stooq.py:225-230 | For a row of a stock or macro block: some instrument can join it exactly if the symbol it compares has no dot left and its type is a stock, fund, ETF or index type (a macro row: any). |
| `Bridging.StockJoinsIff` | tools/seed_instruments_from_stooq.py:225-263 | A suffix or direct row joins an instrument exactly if the base symbols agree but for case and both types are among stock, fund and ETF, in any combination, or both are index. |
| `Bridging.StockRowRewrittenIff` | tools/seed_instruments_from_stooq.py:218-277 | In a pack of suffix and direct blocks an unbridged row is rewritten exactly if a map row with its symbol reaches an instrument by those conditions, written out. |
| `Bridging.FundReachesEtf` | tools/seed_instruments_from_stooq.py:225-230 | A fund's row reaches the ETF of its symbol. |
| `Bridging.FxJoinsIff` | tools/seed_instruments_from_stooq.py:294-322 | A currency row joins a currency of its pair, or one of the inverse pair exactly if there is none of the pair. |
| `Bridging.MacroJoinsIff` | tools/seed_instruments_from_stooq.py:333-345 | A macro row joins every instrument of its base symbol, whatever its type. |
| `Bridging.PickHasFirstName` | tools/seed_instruments_from_stooq.py:220-233 | Outside currency blocks a pick is a joined instrument, and no joined instrument has a name before its own. |
| `BridgePlan.BondSymbolNeverMatches` | tools/seed_instruments_from_stooq.py:58-64 | 10YUSY.B goes to the direct block unchanged, and no instrument joins it. |
| `BridgePlan.LabelsAgreeIff` | tools/seed_instruments_from_stooq.py:145-153 | The two scripts label a member alike exactly if it is no index and its name does not contain both folder names. |
| `BridgePlan.IndexIsLabelledApart` | tools/seed_instruments_from_stooq.py:145-153 | ^spx.txt is an index here and not in the ingestion. |
| `Bridging.MatchKeyIsSymbolCondition` | tools/seed_instruments_from_stooq.py:238-274 | For upper-case map symbols, the lookup by key is the WHERE condition of the block. |
| `CoverageTables.PickInstrument` | tools/seed_instruments_from_stooq.py:220-233 | The query picks an instrument exactly if one matches, and among the matches one with the first name (any one for currencies). |
| `CoverageTables.Match` | tools/seed_instruments_from_stooq.py:220-243 | DISTINCT ON gives every matchable symbol one instrument and no other symbol any. |
| `CoverageTables.CoverageTable.Update` | tools/seed_instruments_from_stooq.py:234-240 | One UPDATE visits the rows in the given order and is accepted exactly if no two rows ever share a key; then exactly the rows the block hits are rewritten. |
| `PrimaryKey.KeysUniqueIff` | server/cmd/bun/migrations/39052026_repair_market_data_pack_tables.go:48 | The key: no two rows agree in pack, instrument, interval and currency together; rows that differ in one of them may agree in the rest. |
| `PrimaryKey.RejectedUnderSomeOrderIff` | tools/seed_instruments_from_stooq.py:234-240 | An UPDATE can be rejected under some visiting order exactly if some rewritten row takes the old or the new key of another row. |
| `PrimaryKey.EveryRunCommitsIff` | tools/seed_instruments_from_stooq.py:174-354 | Every run commits, whatever the queries pick and however rows are visited, exactly if no VALUES list is empty and no two rows of one pack, interval and currency may meet in one instrument id. |
| `CommittingRuns.AcceptedOrderIff` | tools/seed_instruments_from_stooq.py:234-240 | An UPDATE is accepted in a visiting order exactly if its final keys are unique and no row takes the old key of a row visited after it. |
| `CommittingRuns.AcceptedUnderSomeOrderIff` | tools/seed_instruments_from_stooq.py:234-240 | It can be accepted exactly if its final keys are unique and no rows take each other's old keys in a circle. |
| `CommittingRuns.SomeRunCommitsIff` | tools/seed_instruments_from_stooq.py:174-354 | Some run commits exactly if no VALUES list is empty and the queries can make picks under which every block ends with distinct keys and swaps no ids in a circle. |
| `CommittingRuns.SafeToRerunIff` | tools/seed_instruments_from_stooq.py:174 | Re-running is safe exactly if the script can never commit, by that condition on blocks, instruments and table, or no two rows may meet. |
| `BlockOrders.EveryOrderCommitsIff` | tools/seed_instruments_from_stooq.py:178-352 | Every run of every order of a generated script's blocks commits exactly if no VALUES list is empty and no row can take an id that another row of its scope has or can take. |
| `BlockOrders.SameTableInAnyOrder` | tools/seed_instruments_from_stooq.py:178-352 | Under that condition the same updates in any order are all accepted and give the same table. |
| `PrimaryKey.SomeRunRejected` | tools/seed_instruments_from_stooq.py:218-240 | If two rows may meet, some picks and some visiting order reject a run. |
| `PrimaryKey.NothingRejected` | tools/seed_instruments_from_stooq.py:234-240 | If no two rows may meet, every UPDATE of every run is accepted. |
| `PrimaryKey.AcceptedRunKeepsKey` | tools/seed_instruments_from_stooq.py:234-240 | An accepted run keeps the primary key unique after every block. |
| `PrimaryKey.AcceptedRunLeavesNothing` | tools/seed_instruments_from_stooq.py:240-275 | After an accepted run no block can change any row and no two rows may meet. |
| `PrimaryKey.SoleChoiceNeverCommits` | tools/seed_instruments_from_stooq.py:218-240 | If two rows of one scope can only take the same id, no run commits. |
| `CoverageTables.CoverageTable.RunScript` | tools/seed_instruments_from_stooq.py:176-354 | The transaction commits exactly if no VALUES list is empty and no UPDATE is rejected by the primary key: always if no two rows may meet, never if no workable picks exist; committed, every block has been applied in order; otherwise the table is as it was; the key stays unique. |
| `CoverageTables.CoverageTable.RunTwice` | tools/seed_instruments_from_stooq.py:174 | The table after two runs, whichever of them commit; the first commits if no VALUES list is empty and no two rows may meet, and after a committed run a second one commits and leaves its table. |
| `RerunExamples.UsScript` | tools/seed_instruments_from_stooq.py:121-199 | The archive d_us_txt.zip with A.US and A collects one pack, and the two blocks of the examples are a script of it. |
| `RerunExamples.RollbackThenCommit` | tools/seed_instruments_from_stooq.py:174 | That script with two tied instruments on a fresh pack: equal picks are rejected in every visiting order, different picks commit in every order and change the table. |
| `RerunExamples.TiedScriptIsUnsafe` | tools/seed_instruments_from_stooq.py:174 | So it is not safe to re-run. |
| `RerunExamples.TwinSymbolsNeverCommit` | tools/seed_instruments_from_stooq.py:189-199 | With one instrument no run of that script ever commits, so re-running is safe although rows may meet. |
| `Dashboard.Reduce` | client/src/contexts/RealTimeDashboardContext.tsx:105-173 | One reducer call: the new state shows the action's effect, its connection fields are the action's or the old ones; a map worked on is a new object; a set action has also written the old state's Map, and nothing else of the old state changed. |
| `Dashboard.RunActions` | client/src/contexts/RealTimeDashboardContext.tsx:105-173 | Over every action sequence the last state's connection fields and the entries of its three Maps are those of the last action that sets them, or the base's; its Maps never alias, and the base's Maps keep at most the entry of the first set. |
| `Dashboard.Replay` | client/src/contexts/RealTimeDashboardContext.tsx:108-118 | Reducing the same whole sequence twice from the same, by then mutated, base shows the same state both times. |
| `Dashboard.Remount` | client/src/contexts/RealTimeDashboardContext.tsx:94-103 | Two mounts share initialState: the second behaves as if started clean exactly when its actions touch every key leaked by the first. |
| `Dashboard.RemountShowsOldPrice` | client/src/contexts/RealTimeDashboardContext.tsx:94-109 | A price set by one mount is shown by the next before any update of its own. |
| `Dashboard.OldPriceShowsThrough` | client/src/contexts/RealTimeDashboardContext.tsx:94-109 | For such a pair of mounts the condition of Remount fails. |
| `DashboardLog.RunShows` | client/src/contexts/RealTimeDashboardContext.tsx:105-173 | The same of the pure fold, with no action's effect named: each field and each key shows its last writer. |
| `DashboardLog.NextAlerts` | client/src/contexts/RealTimeDashboardContext.tsx:121-137 | A new alert comes first and pushes out what exceeds fifty; an acknowledgement marks exactly the alerts with its id. |
| `Dashboard.RunOfLeaked` | client/src/contexts/RealTimeDashboardContext.tsx:108-152 | A run from a mutated base equals the run from the clean base exactly when no leaked entry shows through. |
| `DashboardLog.RunOfMaps` | client/src/contexts/RealTimeDashboardContext.tsx:107-168 | Each map's contents are the fold of its own actions only. |
| `DashboardLog.LastWriteWins` | client/src/contexts/RealTimeDashboardContext.tsx:108-168 | A key's entry is decided by the last action that touches it, and is the base's if none does. |
| `DashboardLog.LeakHiddenIff` | client/src/contexts/RealTimeDashboardContext.tsx:108-152 | For one map: the leaked entry is invisible exactly if the key is touched later or the base already had that value. |
| `DashboardLog.AlertsAreLogWindow` | client/src/contexts/RealTimeDashboardContext.tsx:121-137 | The alert list is the first 50 entries of the unbounded newest-first log. |
| `DashboardLog.UnreadExactIff` | client/src/contexts/RealTimeDashboardContext.tsx:125-136 | For every run, repeated ids or not: the counter is exact after every action if and only if every acknowledgement clears exactly one alert or comes when there is none. |
| `DashboardLog.CounterAtMost` | client/src/contexts/RealTimeDashboardContext.tsx:125-136 | The counter is the largest net of additions and acknowledgements over the actions so far, from the start's count or from any later point on. |
| `DashboardLog.NeverExceedsIff` | client/src/contexts/RealTimeDashboardContext.tsx:125-136 | For every run: the counter never exceeds the log's unacknowledged count exactly when these nets are bounded before every acknowledgement, a condition on the actions and the log alone. |
| `DashboardLog.UnreadNeverExceeds` | client/src/contexts/RealTimeDashboardContext.tsx:125-136 | If no acknowledgement clears two alerts at once, the counter never exceeds the count. |
| `DashboardLog.UnreadOfDistinctIds` | client/src/contexts/RealTimeDashboardContext.tsx:125-136 | With distinct alert ids the counter never exceeds the count, and is exact throughout exactly when every acknowledgement names a still-unacknowledged alert or comes when there is none. |
| `DashboardLog.RepeatedIdOvercounts` | client/src/contexts/RealTimeDashboardContext.tsx:130-137 | With a repeated id the counter can exceed the unacknowledged count. |
| `PositionIndex.IdsByAsset` | client/src/components/PortfolioProvider.tsx:197-203 | The nested grouping collects exactly the non-empty position ids per non-empty asset id. |
| `PositionIndex.ResolvePortfolio` | client/src/components/PortfolioProvider.tsx:204-208 | An asset is published with an id exactly if that id is its only position id. |
| `PositionIndex.PositionIdByPortfolioAsset` | client/src/components/PortfolioProvider.tsx:194-212 | The index has an entry per portfolio id, right for the last portfolio with that id. |
| `PositionIndex.LookupPosition` | client/src/components/PortfolioProvider.tsx:214-220 | For distinct portfolios the lookup gives an id exactly if the portfolio exists and the asset's position ids in it are that singleton. |
| `PositionIndex.OrderIrrelevant` | client/src/components/PortfolioProvider.tsx:198-203 | Reordering the valuations never changes the index. |
| `Weights.PortfolioWeights` | client/src/components/PortfolioProvider.tsx:284-290 | When the total is positive every weight is a whole number of hundredths nearest to its exact share, and the n weights sum to within n * 0.005 of 100; otherwise all are 0. No sign of the single values is assumed. |
| `Weights.ToFixed2Close` | client/src/components/PortfolioProvider.tsx:289 | A rounded weight is within half a hundredth, and rounding is symmetric in the sign. |
| `Weights.ToFixed2Nearest` | client/src/components/PortfolioProvider.tsx:289 | Below 10^21 in magnitude, rounding gives a whole number of hundredths, none is closer, and a tie goes away from 0. |
| `Weights.RoundHundredthsNearest` | client/src/components/PortfolioProvider.tsx:289 | Rounding gives a nearest hundredth, the larger one on a tie. |
| `Weights.WeightsAreOrdered` | client/src/components/PortfolioProvider.tsx:286-290 | For non-negative values a larger value never gets a smaller weight, and weights lie between 0 and 100. |
| `BackfillMonitoring.BackfillMonitor.Poll` | client/src/hooks/use-asset-mutations.ts:256-299 | One poll: reschedules without dismissing while the answer is not terminal and attempts remain; otherwise dismisses and shows the answer's verdict. |
| `BackfillMonitoring.BackfillMonitor.Monitor` | client/src/hooks/use-asset-mutations.ts:248-301 | For every stream of answers the monitor stops, at the first terminal answer among the first 48 or after 48 queries, and that answer decides how it ends: a refetch and the success toast exactly for a complete job, the yfinance toast for an unsupported asset, the job's own message or the default one otherwise, and nothing of the kind without a terminal answer. Without an asset id it does nothing. |
| `BackfillMonitoring.TraceShape` | client/src/hooks/use-asset-mutations.ts:265-297 | Every trace dismisses the loading toast once, after all of its at most 48 queries, and shows a final toast exactly if one of the first 48 answers is terminal, once and last. |
| `BackfillMonitoring.StoppedUnique` | client/src/hooks/use-asset-mutations.ts:254-299 | The number of queries is determined by the answers. |
| `BackfillMonitoring.VerdictCases` | client/src/hooks/use-asset-mutations.ts:265-297 | The toast of each status, with its text. |
| `Registry.MergeRegistries` | server/generate-combined-registry.py:31-48 | The repeated filter-and-append equals the remote entries whose key no local entry has, in order, followed by the last local entry of each key; unreadable files change nothing. |
| `Registry.LocalWins` | server/generate-combined-registry.py:39-44 | A key with a local entry occurs once, with the last such entry; any other entry occurs exactly as often as in the remote registry. |
| `Registry.MergedByPair` | server/generate-combined-registry.py:39-44 | By pairs of pack id and version: an entry is in the result exactly if it is a local one no later local one of its pair replaces, or a remote one of a pair without a local entry. |
| `Registry.LastOfEachDistinct` | server/generate-combined-registry.py:43-44 | No two local entries of the result share a key. |
| `Registry.LastOfEachMembers` | server/generate-combined-registry.py:43-44 | The local part of the result holds exactly the last entry of each local key. |
| `Registry.LastOfEachInOrder` | server/generate-combined-registry.py:43-44 | It lists, in their order, exactly the local entries that no later one replaces. |
| `Catalog.CatalogBuilder.BuildCatalog` | server/tools/generate_trustwallet_catalog.go:63-96 | The build fails exactly if the chains cannot be listed or some chain's coin or walk fails; otherwise the records are strictly increasing by ExternalID and exactly the last write of each id, each under its own id. |
| `Catalog.CatalogBuilder.CollectNativeCoin` | server/tools/generate_trustwallet_catalog.go:98-125 | A readable coin with a symbol and a name is stored under chain:coin with upper-case symbol, trimmed name and no platforms, and no other id changes; otherwise nothing is stored; it fails exactly on a read error other than a missing file. |
| `Catalog.CatalogBuilder.CollectTokenAssets` | server/tools/generate_trustwallet_catalog.go:127-177 | The walk ends at its first stopping event, fails exactly if that is a real error, and has written the acceptable tokens before it, in order. |
| `Catalog.NothingDroppedIff` | server/tools/generate_trustwallet_catalog.go:140-176 | A walk that does not fail writes every acceptable token exactly if none comes after an info.json that vanished. |
| `Catalog.VanishedFileHidesToken` | server/tools/generate_trustwallet_catalog.go:140-176 | One vanished file hides the acceptable token after it, and the walk does not fail. |
| `Catalog.CatalogBuilder.SortedRecords` | server/tools/generate_trustwallet_catalog.go:88-95 | Listing the map in any order and sorting gives a catalog of the writes. |
| `Catalog.CatalogIsUnique` | server/tools/generate_trustwallet_catalog.go:88-95 | The writes have only one catalog, so the output is the same for every map iteration order. |
| `Catalog.WalkWritesTokens` | server/tools/generate_trustwallet_catalog.go:145-170 | Every token record is stored under chain:assetID for the asset id in its platforms, which is non-empty and without spaces. |
| `Catalog.WalkFailsIff` | server/tools/generate_trustwallet_catalog.go:129-176 | A walk fails exactly if, before anything else ends it, it comes to a directory that exists but cannot be visited or to an info.json, in any case, that exists but cannot be read. |
| `Catalog.WalkWritesIff` | server/tools/generate_trustwallet_catalog.go:129-172 | It writes exactly the records of the acceptable info.json files it comes to before anything ends it. |
| `Catalog.ChainOfName` | server/tools/generate_trustwallet_catalog.go:71-78 | The chains are the directories, by their names in lower case without surrounding whitespace, unless nothing is left. |
| `Catalog.TokenOfFile` | server/tools/generate_trustwallet_catalog.go:145-170 | When a token file is acceptable, and the symbol, name, status, id, platforms and image address its record then has. |
| `Catalog.NormalizeStatus` | server/tools/generate_trustwallet_catalog.go:191-197 | A status is never empty and always lower-case. |
| `Catalog.StatusOf` | server/tools/generate_trustwallet_catalog.go:191-197 | It is the text without surrounding whitespace in lower case, and active exactly if nothing is left. |
| `AdminEmails.ParseAdminEmails` | server/cmd/app.go:515-534 | The result is strictly sorted and holds exactly the non-empty, trimmed, lower-cased tokens of all values. |
| `AdminEmails.ArgumentOrderIrrelevant` | server/cmd/app.go:515-534 | The result depends only on the set of values, not on their order or repetition. |
| `AdminEmails.ParseTwice` | server/cmd/app.go:515-534 | Re-parsing the comma-joined output gives the same list. |
| `AdminEmails.ParsedEmailsAreClean` | server/cmd/app.go:518-524 | Parsed emails are trimmed, lower-case, non-empty and free of every separator. |
| `AdminEmails.EmailsOfConcat` | server/cmd/app.go:518-520 | Comma, semicolon, line feed and tab each separate: the emails of two texts joined by one are the emails of both. |
| `AdminEmails.EmailsOfOne` | server/cmd/app.go:521-527 | A text without separators lists exactly itself without surrounding whitespace and in lower case, or nothing if it is blank. |
| `AdminEmails.UserRepository.GrantAll` | server/cmd/app.go:490-512 | The loop stops exactly at the first email whose lookup or needed update fails, and grants ADMIN to exactly the existing non-admins among the emails before it, one update each, in order. |
| `AdminEmails.UserRepository.BootstrapAdminRoles` | server/cmd/app.go:481-513 | The same for the sorted emails of the two variables. |
| `AdminEmails.UserRepository.BootstrapTwice` | server/cmd/app.go:500-507 | After an error-free run another run updates nobody, wherever it stops. |
| `AdminEmails.GrantedAdmins` | server/cmd/app.go:500-507 | The administrators afterwards are the earlier ones and the listed existing users; nobody else changes. |
| `AdminEmails.IsAdminIff` | server/internal/domain/model/user.go:20-72 | A role counts as administrator exactly if it is ADMIN but for case and surrounding whitespace. |

## Left out

- Reading and writing ZIP, CSV, JSON and Parquet, `/proc`, progress bars and logging: successful reads are given
  values, unreadable inputs are explicit cases, writes succeed.
- Stale temporary batches of a crashed run, and the default year range for batches without statistics: the temporary
  directory starts empty and row-group statistics are sound, so neither occurs.
- `strftime` text: file names are compared as `Date` values, which are in bijection with days.
- The currency printer does not escape and is not part of the round trip; its block is part of the table model, and
  an empty list makes the transaction roll back.
- Pack ids are written into the script unescaped; the model uses them as values.
- `ORDER BY i.name` is by code point; another collation changes which instruments `Choice` allows and nothing else.
- ScriptInAnyOrder: is about the updates themselves; `BlockOrders` adds the primary-key check between them.
- The effects that dispatch dashboard actions: every sequence of actions is covered, repeated alerts included.
- Insertion order of JavaScript Maps: only their contents are modelled.
- Floating point in weights and prices: exact reals.
- The library sorts are insertion sorts here; only their results matter.
- Timers, Apollo, GraphQL, fiber, bun and PostgreSQL beyond the statements modelled.
- User interface components, routes, hooks without state, and the database scripts of server/tools: single calls or
  easy members.
