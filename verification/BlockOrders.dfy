/** The generated script's blocks in any order: when every order of them always commits, and to the same table. */
module BlockOrders {
  import opened Options
  import opened Sequences
  import opened Bridging
  import opened BridgePlan
  import opened PrimaryKey

  /** Some run gives the row this id in the block, if no earlier block does. */
  ghost predicate CanPick(block: Block, instruments: seq<Instrument>, row: Coverage, id: Id) {
    !Untouched(block, instruments, row) && Choice(block, instruments, MatchKey(block.kind, row), id)
  }

  /** Row a can take an id that row b has, or can take too. */
  ghost predicate Compete(blocks: seq<Block>, instruments: seq<Instrument>, a: Coverage, b: Coverage, id: Id) {
    && SameScope(a, b)
    && (exists block :: block in blocks && CanPick(block, instruments, a, id))
    && (b.instrumentId == id || exists block :: block in blocks && CanPick(block, instruments, b, id))
  }

  /** Whatever the order of the blocks, two rows may meet. */
  ghost predicate MayMeet(blocks: seq<Block>, instruments: seq<Instrument>, table: seq<Coverage>) {
    exists i, j, id :: 0 <= i < |table| && 0 <= j < |table| && i != j &&
      Compete(blocks, instruments, table[i], table[j], id)
  }

  /** Rows that cannot meet cannot collide in any order of the blocks. */
  lemma NoMeetingNoCollision(blocks: seq<Block>, reordered: seq<Block>, instruments: seq<Instrument>,
                             table: seq<Coverage>)
    requires forall b :: b in reordered ==> b in blocks
    requires MayCollide(reordered, instruments, table)
    ensures MayMeet(blocks, instruments, table)
  {
    var i, j, n: nat, id :| 0 <= i < |table| && 0 <= j < |table| && i != j &&
      CanMeet(reordered, instruments, table[i], table[j], n, id);
    TakenIsPicked(reordered, instruments, table[i], n, id);
    if m: nat :| m <= n && CanTake(reordered, instruments, table[j], m, id) {
      TakenIsPicked(reordered, instruments, table[j], m, id);
    }
    assert Compete(blocks, instruments, table[i], table[j], id);
  }

  lemma TakenIsPicked(blocks: seq<Block>, instruments: seq<Instrument>, row: Coverage, n: nat, id: Id)
    requires CanTake(blocks, instruments, row, n, id)
    ensures blocks[n] in blocks && CanPick(blocks[n], instruments, row, id)
  {
  }

  /** At most one block of a generated script can match a row. */
  lemma OneBlockMatches(blocks: seq<Block>, instruments: seq<Instrument>, row: Coverage, m: nat, n: nat)
    requires Planned(blocks) && m < |blocks| && n < |blocks| && m != n
    ensures Untouched(blocks[m], instruments, row) || Untouched(blocks[n], instruments, row)
  {
    var steps := FavouringRun(blocks, instruments, "");
    PlannedPairDisjoint(blocks, instruments, steps, m, n, row);
    HitsIff(steps, blocks, instruments, row, m);
    HitsIff(steps, blocks, instruments, row, n);
  }

  lemma HitsIff(steps: seq<Step>, blocks: seq<Block>, instruments: seq<Instrument>, row: Coverage, n: nat)
    requires ValidRun(steps, blocks, instruments) && n < |steps|
    ensures Hits(steps[n], row) <==> !Untouched(blocks[n], instruments, row)
  {
  }

  lemma PickedIsTaken(blocks: seq<Block>, instruments: seq<Instrument>, row: Coverage, block: Block, id: Id)
    returns (n: nat)
    requires Planned(blocks) && block in blocks && CanPick(block, instruments, row, id)
    ensures CanTake(blocks, instruments, row, n, id)
  {
    n :| n < |blocks| && blocks[n] == block;
    forall m: nat | m < n ensures Untouched(blocks[m], instruments, row) {
      OneBlockMatches(blocks, instruments, row, m, n);
    }
  }

  /** Rows that may meet collide in some order of the blocks. */
  lemma SomeOrderCollides(blocks: seq<Block>, instruments: seq<Instrument>, table: seq<Coverage>)
    returns (reordered: seq<Block>)
    requires Planned(blocks) && MayMeet(blocks, instruments, table)
    ensures Permutation(reordered, blocks) && MayCollide(reordered, instruments, table)
  {
    var i, j, id :| 0 <= i < |table| && 0 <= j < |table| && i != j &&
      Compete(blocks, instruments, table[i], table[j], id);
    var b :| b in blocks && CanPick(b, instruments, table[i], id);
    if table[j].instrumentId == id {
      var rest := MoveToFront(blocks, b);
      reordered := [b] + rest;
      assert CanTake(reordered, instruments, table[i], 0, id);
      assert UntouchedBefore(reordered, instruments, table[j], 0);
      assert CanMeet(reordered, instruments, table[i], table[j], 0, id);
    } else {
      var c :| c in blocks && CanPick(c, instruments, table[j], id);
      var n := PickedIsTaken(blocks, instruments, table[i], b, id);
      var m := PickedIsTaken(blocks, instruments, table[j], c, id);
      reordered := blocks;
      if m <= n {
        assert CanMeet(blocks, instruments, table[i], table[j], n, id);
      } else {
        assert CanMeet(blocks, instruments, table[j], table[i], m, id);
      }
    }
  }

  ghost predicate EveryOrderCommits(blocks: seq<Block>, instruments: seq<Instrument>, table: seq<Coverage>) {
    forall reordered :: Permutation(reordered, blocks) ==> EveryRunCommits(reordered, instruments, table)
  }

  /** Every run of every order of a generated script's blocks commits exactly if no VALUES list is empty and no two rows
      may meet. */
  lemma EveryOrderCommitsIff(blocks: seq<Block>, instruments: seq<Instrument>, table: seq<Coverage>)
    requires Planned(blocks) && KeysUnique(table)
    ensures EveryOrderCommits(blocks, instruments, table) <==>
              NoneEmpty(blocks) && !MayMeet(blocks, instruments, table)
  {
    hide Planned, KeysUnique, MayMeet, MayCollide;
    assert Permutation(blocks, blocks);
    EveryRunCommitsIff(blocks, instruments, table);
    if MayMeet(blocks, instruments, table) {
      var reordered := SomeOrderCollides(blocks, instruments, table);
      EveryRunCommitsIff(reordered, instruments, table);
    } else if NoneEmpty(blocks) {
      forall reordered | Permutation(reordered, blocks) ensures EveryRunCommits(reordered, instruments, table) {
        PermutationElements(reordered, blocks);
        EveryRunCommitsIff(reordered, instruments, table);
        assert forall n :: 0 <= n < |reordered| ==> reordered[n] in blocks;
        if MayCollide(reordered, instruments, table) {
          NoMeetingNoCollision(blocks, reordered, instruments, table);
        }
      }
    }
  }

  /** Where no two rows may meet, the same updates in any order are all accepted and give the same table. */
  lemma SameTableInAnyOrder(blocks: seq<Block>, instruments: seq<Instrument>, steps: seq<Step>, reordered: seq<Step>,
                            table: seq<Coverage>, scans: nat -> seq<nat>)
    requires Planned(blocks) && ValidRun(steps, blocks, instruments) && Permutation(reordered, steps)
    requires KeysUnique(table) && ScanOrders(scans, |table|) && !MayMeet(blocks, instruments, table)
    ensures Accepted(reordered, table, scans, |reordered|)
    ensures RunTable(reordered, table) == RunTable(steps, table)
  {
    ScriptInAnyOrder(blocks, instruments, steps, reordered, table);
    var others := seq(|reordered|, n requires 0 <= n < |reordered| => reordered[n].block);
    PermutationElements(reordered, steps);
    forall n | 0 <= n < |reordered| ensures others[n] in blocks && ValidStep(reordered[n], instruments) {
      assert reordered[n] in steps;
      var m :| 0 <= m < |steps| && steps[m] == reordered[n];
      assert blocks[m] == others[n];
    }
    hide ValidStep, MayMeet, MayCollide, Planned, RunTable, KeysUnique, ScanOrders;
    if MayCollide(others, instruments, table) {
      NoMeetingNoCollision(blocks, others, instruments, table);
    }
    NothingRejected(reordered, others, instruments, table, scans, |reordered|);
  }
}
