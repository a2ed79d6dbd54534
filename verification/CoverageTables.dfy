/** Executing the bridging script: one transaction over the coverage table. */
module CoverageTables {
  import opened Options
  import opened Ordering
  import opened Bridging
  import opened PrimaryKey
  import opened CommittingRuns

  /** The instrument a block's query picks for one symbol. */
  method PickInstrument(block: Block, instruments: seq<Instrument>, sym: string) returns (pick: Option<Id>)
    ensures pick.Some? <==> Matchable(block, instruments, sym)
    ensures pick.Some? ==> Choice(block, instruments, sym, pick.value)
  {
    var best: Option<nat> := None;
    for n := 0 to |instruments|
      invariant best.None? ==> forall m :: 0 <= m < n ==> !Joined(block, instruments, sym, m)
      invariant best.Some? ==> best.value < n && Joined(block, instruments, sym, best.value)
      invariant best.Some? && block.kind != FxMap ==>
                  forall m :: 0 <= m < n && Joined(block, instruments, sym, m) ==>
                    StrLe(instruments[best.value].name, instruments[m].name)
    {
      if Joined(block, instruments, sym, n) {
        var tie: bool := *;
        if best.None? {
          best := Some(n);
          StrLeTotal(instruments[n].name, instruments[n].name);
        } else if block.kind == FxMap {
          best := if tie then Some(n) else best;
        } else {
          var bestName, nextName := instruments[best.value].name, instruments[n].name;
          StrLeTotal(bestName, nextName);
          StrLeTotal(nextName, nextName);
          forall m | 0 <= m < n && Joined(block, instruments, sym, m) && StrLe(nextName, bestName)
            ensures StrLe(nextName, instruments[m].name)
          {
            StrLeTransitive(nextName, bestName, instruments[m].name);
          }
          if StrLe(nextName, bestName) && (tie || !StrLe(bestName, nextName)) {
            best := Some(n);
          }
        }
      }
    }
    if best.Some? {
      assert Preferred(block, instruments, sym, best.value);
      pick := Some(instruments[best.value].id);
    } else {
      pick := None;
    }
  }

  /** A block's DISTINCT ON query. */
  method Match(block: Block, instruments: seq<Instrument>) returns (step: Step)
    ensures step.block == block && ValidStep(step, instruments)
  {
    var matched: map<string, Id> := map[];
    for k := 0 to |block.rows|
      invariant forall sym :: sym in matched ==>
                  Matchable(block, instruments, sym) && Choice(block, instruments, sym, matched[sym])
      invariant forall j :: 0 <= j < k && Matchable(block, instruments, block.rows[j].sym) ==>
                  block.rows[j].sym in matched
    {
      var pick := PickInstrument(block, instruments, block.rows[k].sym);
      if pick.Some? {
        matched := matched[block.rows[k].sym := pick.value];
      }
    }
    step := Step(block, matched);
    forall sym | Matchable(block, instruments, sym) ensures sym in matched {
      var n :| 0 <= n < |instruments| && Joined(block, instruments, sym, n);
      var k :| 0 <= k < |block.rows| && block.rows[k].sym == sym;
    }
  }

  class CoverageTable {
    var rows: seq<Coverage>

    constructor (rows: seq<Coverage>)
      ensures this.rows == rows
    {
      this.rows := rows;
    }

    /** One UPDATE visits the rows in the given order and checks the key of each row it rewrites against all others;
        the first violation ends it. */
    method Update(step: Step, order: seq<nat>) returns (ok: bool)
      requires KeysUnique(rows) && ScanOrder(order, |rows|)
      modifies this
      ensures ok <==> !Rejected(step, old(rows), order)
      ensures ok ==> rows == UpdateTable(step, old(rows)) && KeysUnique(rows)
    {
      ghost var before := rows;
      assert PartialUpdate(step, before, order[..0]) == before;
      for n := 0 to |order|
        invariant rows == PartialUpdate(step, before, order[..n])
        invariant forall m :: 0 <= m <= n ==> KeysUnique(PartialUpdate(step, before, order[..m]))
      {
        var k := order[n];
        assert k in order;
        ghost var partial := rows;
        rows := rows[k := UpdateRow(step, rows[k])];
        assert order[..n + 1] == order[..n] + [k];
        assert rows == PartialUpdate(step, before, order[..n + 1]);
        if exists other :: 0 <= other < |rows| && other != k && KeyColumns(rows[other]) == KeyColumns(rows[k]) {
          assert !KeysUnique(PartialUpdate(step, before, order[..n + 1]));
          return false;
        }
        assert KeysUnique(rows);
      }
      assert order[..|order|] == order;
      WholeScan(step, before, order);
      ok := true;
    }

    /** The whole script in one transaction. It is rolled back if a VALUES list is empty (a syntax error), or at the
        first UPDATE that the primary key rejects; `scans` says in which order each UPDATE visits the rows. */
    method RunScript(blocks: seq<Block>, instruments: seq<Instrument>, scans: nat -> seq<nat>)
      returns (committed: bool, ghost steps: seq<Step>)
      requires KeysUnique(rows) && ScanOrders(scans, |rows|)
      modifies this
      ensures KeysUnique(rows)
      ensures |steps| <= |blocks| && ValidRun(steps, blocks[..|steps|], instruments)
      ensures committed <==> NoneEmpty(blocks) && |steps| == |blocks| && Accepted(steps, old(rows), scans, |steps|)
      ensures rows == if committed then RunTable(steps, old(rows)) else old(rows)
      ensures !committed && NoneEmpty(blocks) ==>
                steps != [] && Accepted(steps, old(rows), scans, |steps| - 1) &&
                Rejected(steps[|steps| - 1], RunTable(steps[..|steps| - 1], old(rows)), scans(|steps| - 1))
      ensures NoneEmpty(blocks) && !MayCollide(blocks, instruments, old(rows)) ==> committed
      ensures committed ==> CanCommit(blocks, instruments, old(rows)) && forall b :: b in blocks ==> b.rows != []
    {
      hide KeysUnique, ValidStep, Rejected, MayCollide, ScanOrder, ValidRun, Accepted;
      var before := rows;
      steps := [];
      EmptyRun(blocks, instruments, before, scans);
      if exists n :: 0 <= n < |blocks| && blocks[n].rows == [] {
        return false, steps;
      }
      for n := 0 to |blocks|
        invariant |steps| == n && ValidRun(steps, blocks[..n], instruments)
        invariant KeysUnique(rows) && rows == RunTable(steps, before)
        invariant Accepted(steps, before, scans, n)
      {
        var step := Match(blocks[n], instruments);
        var ok := Update(step, scans(n));
        RunTableSnoc(steps, step, before);
        AcceptedSnoc(steps, step, before, scans);
        ValidRunSnoc(steps, step, blocks, instruments);
        steps := steps + [step];
        if !ok {
          rows := before;
          RejectionIsForeseen(blocks, instruments, steps, before, scans);
          return false, steps;
        }
      }
      assert blocks[..|blocks|] == blocks;
      assert Commits(blocks, instruments, before, steps, scans);
      SomeRunCommitsIff(blocks, instruments, before);
      committed := true;
    }

    /** Running the script twice: after a committed run the second commits and leaves the table of the first, and the
        first commits whenever no two rows may meet. */
    method RunTwice(blocks: seq<Block>, instruments: seq<Instrument>, scans: nat -> seq<nat>, later: nat -> seq<nat>)
      returns (first: bool, second: bool, ghost steps: seq<Step>, ghost again: seq<Step>)
      requires KeysUnique(rows) && ScanOrders(scans, |rows|) && ScanOrders(later, |rows|)
      modifies this
      ensures NoneEmpty(blocks) && !MayCollide(blocks, instruments, old(rows)) ==> first
      ensures first ==> second && ValidRun(steps, blocks, instruments) && rows == RunTable(steps, old(rows))
      ensures !first && second ==> ValidRun(again, blocks, instruments) && rows == RunTable(again, old(rows))
      ensures !first && !second ==> rows == old(rows)
      ensures second ==> CanCommit(blocks, instruments, old(rows))
    {
      first, steps := RunScript(blocks, instruments, scans);
      second, again := RunScript(blocks, instruments, later);
      assert blocks[..|blocks|] == blocks;
      if first {
        AcceptedRunLeavesNothing(blocks, instruments, steps, old(rows));
        TableIdempotent(blocks, instruments, steps, again, old(rows));
      }
    }
  }

  lemma EmptyRun(blocks: seq<Block>, instruments: seq<Instrument>, table: seq<Coverage>, scans: nat -> seq<nat>)
    ensures ValidRun([], blocks[..0], instruments) && RunTable([], table) == table && Accepted([], table, scans, 0)
  {
  }

  lemma ValidRunSnoc(steps: seq<Step>, step: Step, blocks: seq<Block>, instruments: seq<Instrument>)
    requires |steps| < |blocks| && ValidRun(steps, blocks[..|steps|], instruments)
    requires step.block == blocks[|steps|] && ValidStep(step, instruments)
    ensures ValidRun(steps + [step], blocks[..|steps| + 1], instruments)
  {
  }

  lemma AcceptedSnoc(steps: seq<Step>, step: Step, table: seq<Coverage>, scans: nat -> seq<nat>)
    requires Accepted(steps, table, scans, |steps|)
    ensures Accepted(steps + [step], table, scans, |steps|)
    ensures Accepted(steps + [step], table, scans, |steps| + 1) <==>
              !Rejected(step, RunTable(steps, table), scans(|steps|))
    ensures (steps + [step])[..|steps|] == steps
  {
    forall m: nat | m < |steps| ensures (steps + [step])[..m] == steps[..m] && (steps + [step])[m] == steps[m] { }
    assert (steps + [step])[..|steps|] == steps;
  }

  /** A run that was rejected in its last step shows that two rows may meet. */
  lemma RejectionIsForeseen(blocks: seq<Block>, instruments: seq<Instrument>, steps: seq<Step>, table: seq<Coverage>,
                            scans: nat -> seq<nat>)
    requires 0 < |steps| <= |blocks| && ValidRun(steps, blocks[..|steps|], instruments)
    requires KeysUnique(table) && ScanOrders(scans, |table|)
    requires Accepted(steps, table, scans, |steps| - 1) && !Accepted(steps, table, scans, |steps|)
    ensures MayCollide(blocks, instruments, table)
  {
    var shorter := blocks[..|steps|];
    if !MayCollide(shorter, instruments, table) {
      NothingRejected(steps, shorter, instruments, table, scans, |steps|);
    }
    MoreBlocksMayCollide(blocks, |steps|, instruments, table);
  }

  lemma MoreBlocksMayCollide(blocks: seq<Block>, n: nat, instruments: seq<Instrument>, table: seq<Coverage>)
    requires n <= |blocks| && MayCollide(blocks[..n], instruments, table)
    ensures MayCollide(blocks, instruments, table)
  {
    var i, j, m: nat, id :| 0 <= i < |table| && 0 <= j < |table| && i != j &&
      CanMeet(blocks[..n], instruments, table[i], table[j], m, id);
    MoreBlocksCanTake(blocks, n, instruments, table[i], m, id);
    if k: nat :| k <= m && CanTake(blocks[..n], instruments, table[j], k, id) {
      MoreBlocksCanTake(blocks, n, instruments, table[j], k, id);
    } else {
      MoreBlocksUntouched(blocks, n, instruments, table[j], m);
    }
    assert CanMeet(blocks, instruments, table[i], table[j], m, id);
  }

  lemma MoreBlocksUntouched(blocks: seq<Block>, n: nat, instruments: seq<Instrument>, row: Coverage, m: nat)
    requires n <= |blocks| && UntouchedBefore(blocks[..n], instruments, row, m)
    ensures UntouchedBefore(blocks, instruments, row, m)
  {
    hide Untouched;
    forall k | 0 <= k < m ensures blocks[..n][k] == blocks[k] { }
  }

  lemma MoreBlocksCanTake(blocks: seq<Block>, n: nat, instruments: seq<Instrument>, row: Coverage, m: nat, id: Id)
    requires n <= |blocks| && CanTake(blocks[..n], instruments, row, m, id)
    ensures CanTake(blocks, instruments, row, m, id)
  {
    hide Untouched, Choice;
    MoreBlocksUntouched(blocks, n, instruments, row, m);
  }
}
