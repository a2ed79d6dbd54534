/** The coverage table's primary key: when an UPDATE, and the whole bridging script, can be rejected by it. */
module PrimaryKey {
  import opened Options
  import opened Ordering
  import opened Bridging

  /** The table's primary key. */
  predicate KeysUnique(rows: seq<Coverage>) {
    forall i, j :: 0 <= i < j < |rows| ==> KeyColumns(rows[i]) != KeyColumns(rows[j])
  }

  function KeyColumns(row: Coverage): (string, Id, string, string) {
    (row.packId, row.instrumentId, row.interval, row.quoteCurrency)
  }

  /** No two rows may agree in pack, instrument, interval and currency together; three of these may repeat. */
  lemma KeysUniqueIff(rows: seq<Coverage>)
    ensures KeysUnique(rows) <==>
              forall i, j :: 0 <= i < |rows| && 0 <= j < |rows| && i != j && rows[i].packId == rows[j].packId &&
                             rows[i].interval == rows[j].interval && rows[i].quoteCurrency == rows[j].quoteCurrency ==>
                rows[i].instrumentId != rows[j].instrumentId
  {
    forall i, j | 0 <= i < |rows| && 0 <= j < |rows|
      ensures KeyColumns(rows[i]) == KeyColumns(rows[j]) <==>
                rows[i].packId == rows[j].packId && rows[i].instrumentId == rows[j].instrumentId &&
                rows[i].interval == rows[j].interval && rows[i].quoteCurrency == rows[j].quoteCurrency
    {
    }
    hide KeyColumns;
  }

  /** An UPDATE visits every row once, in an order the database chooses. */
  ghost predicate ScanOrder(order: seq<nat>, n: nat) {
    && (forall k: nat :: k in order <==> k < n)
    && (forall i, j :: 0 <= i < j < |order| ==> order[i] != order[j])
  }

  /** The table after the rows in `visited` have been updated. */
  function PartialUpdate(step: Step, table: seq<Coverage>, visited: seq<nat>): (r: seq<Coverage>)
    ensures |r| == |table|
  {
    seq(|table|, k requires 0 <= k < |table| => if k in visited then UpdateRow(step, table[k]) else table[k])
  }

  /** The key is checked after every row: the UPDATE is rejected if two rows share one at any point. */
  ghost predicate Rejected(step: Step, table: seq<Coverage>, order: seq<nat>) {
    exists n :: 0 < n <= |order| && !KeysUnique(PartialUpdate(step, table, order[..n]))
  }

  /** Row i is rewritten to the key that row j has before or after the UPDATE. */
  predicate KeyClash(step: Step, table: seq<Coverage>, i: nat, j: nat)
    requires i < |table| && j < |table|
  {
    && i != j && Hits(step, table[i])
    && (KeyColumns(UpdateRow(step, table[i])) == KeyColumns(table[j]) ||
        KeyColumns(UpdateRow(step, table[i])) == KeyColumns(UpdateRow(step, table[j])))
  }

  ghost predicate HasClash(step: Step, table: seq<Coverage>) {
    exists i, j :: 0 <= i < |table| && 0 <= j < |table| && KeyClash(step, table, i, j)
  }

  /** The rows 0 to n-1 except i. */
  function OthersBelow(n: nat, i: nat): (r: seq<nat>)
    ensures forall k: nat :: k in r <==> k < n && k != i
    ensures forall a, b :: 0 <= a < b < |r| ==> r[a] < r[b]
  {
    if n == 0 then []
    else
      var rest := OthersBelow(n - 1, i);
      assert forall a :: 0 <= a < |rest| ==> rest[a] in rest;
      if n - 1 == i then rest else rest + [n - 1]
  }

  /** A visiting order can start with any row. */
  lemma StartWith(n: nat, i: nat) returns (order: seq<nat>)
    requires i < n
    ensures ScanOrder(order, n) && order != [] && order[0] == i
  {
    var rest := OthersBelow(n, i);
    assert forall a :: 0 <= a < |rest| ==> rest[a] in rest;
    order := [i] + rest;
    assert forall a :: 0 < a < |order| ==> order[a] == rest[a - 1];
  }

  lemma WholeScan(step: Step, table: seq<Coverage>, order: seq<nat>)
    requires ScanOrder(order, |table|)
    ensures PartialUpdate(step, table, order) == UpdateTable(step, table)
  {
  }

  /** An UPDATE can be rejected under some visiting order exactly if some rewritten row takes the old or the new key
      of another row. */
  lemma RejectedUnderSomeOrderIff(step: Step, table: seq<Coverage>)
    requires KeysUnique(table)
    ensures (exists order :: ScanOrder(order, |table|) && Rejected(step, table, order)) <==> HasClash(step, table)
  {
    if HasClash(step, table) {
      var i, j :| 0 <= i < |table| && 0 <= j < |table| && KeyClash(step, table, i, j);
      var order := StartWith(|table|, i);
      ClashRejects(step, table, i, j, order);
    }
    forall order | ScanOrder(order, |table|) && Rejected(step, table, order) ensures HasClash(step, table) {
      RejectionClashes(step, table, order);
    }
  }

  lemma ClashRejects(step: Step, table: seq<Coverage>, i: nat, j: nat, order: seq<nat>)
    requires i < |table| && j < |table| && KeyClash(step, table, i, j)
    requires ScanOrder(order, |table|) && order != [] && order[0] == i
    ensures Rejected(step, table, order)
  {
    if KeyColumns(UpdateRow(step, table[i])) == KeyColumns(table[j]) {
      var partial := PartialUpdate(step, table, order[..1]);
      assert partial[i] == UpdateRow(step, table[i]) && partial[j] == table[j];
      assert !KeysUnique(partial);
    } else {
      var whole := UpdateTable(step, table);
      assert KeyColumns(whole[i]) == KeyColumns(whole[j]);
      RepeatedKeyRejects(step, table, order);
    }
  }

  /** An UPDATE that would leave a repeated key is rejected in every order. */
  lemma RepeatedKeyRejects(step: Step, table: seq<Coverage>, order: seq<nat>)
    requires ScanOrder(order, |table|) && !KeysUnique(UpdateTable(step, table))
    ensures Rejected(step, table, order)
  {
    WholeScan(step, table, order);
    assert 0 in order && order[..|order|] == order;
    assert !KeysUnique(PartialUpdate(step, table, order[..|order|]));
  }

  lemma RejectionClashes(step: Step, table: seq<Coverage>, order: seq<nat>)
    requires KeysUnique(table) && Rejected(step, table, order)
    ensures HasClash(step, table)
  {
    var n :| 0 < n <= |order| && !KeysUnique(PartialUpdate(step, table, order[..n]));
    var partial := PartialUpdate(step, table, order[..n]);
    var a, b :| 0 <= a < b < |partial| && KeyColumns(partial[a]) == KeyColumns(partial[b]);
    assert KeyColumns(table[a]) != KeyColumns(table[b]);
    if a in order[..n] && Hits(step, table[a]) {
      assert KeyClash(step, table, a, b);
    } else {
      assert KeyClash(step, table, b, a);
    }
  }

  lemma RunTableSnoc(steps: seq<Step>, step: Step, table: seq<Coverage>)
    ensures RunTable(steps + [step], table) == UpdateTable(step, RunTable(steps, table))
  {
    forall k | 0 <= k < |table|
      ensures RunRow(steps + [step], table[k]) == UpdateRow(step, RunRow(steps, table[k]))
    {
      RunRowSnoc(steps, step, table[k]);
    }
  }

  /** No VALUES list is empty. */
  ghost predicate NoneEmpty(blocks: seq<Block>) {
    forall n :: 0 <= n < |blocks| ==> blocks[n].rows != []
  }

  /** The first n UPDATEs of the script are accepted. */
  ghost predicate Accepted(steps: seq<Step>, table: seq<Coverage>, scans: nat -> seq<nat>, n: nat)
    requires n <= |steps|
  {
    forall m: nat :: m < n ==> !Rejected(steps[m], RunTable(steps[..m], table), scans(m))
  }

  ghost predicate ScanOrders(scans: nat -> seq<nat>, n: nat) {
    forall m :: ScanOrder(scans(m), n)
  }

  /** No pick of the block's query can change the row. */
  ghost predicate Untouched(block: Block, instruments: seq<Instrument>, row: Coverage) {
    || row.packInstrumentId.Some?
    || row.packId != block.packId
    || !Matchable(block, instruments, MatchKey(block.kind, row))
  }

  ghost predicate UntouchedBefore(blocks: seq<Block>, instruments: seq<Instrument>, row: Coverage, n: nat) {
    n <= |blocks| && forall m :: 0 <= m < n ==> Untouched(blocks[m], instruments, row)
  }

  /** Block n is the first that matches the row, whatever it picks. */
  ghost predicate Decides(blocks: seq<Block>, instruments: seq<Instrument>, row: Coverage, n: nat) {
    UntouchedBefore(blocks, instruments, row, n) && n < |blocks| && !Untouched(blocks[n], instruments, row)
  }

  /** Some run of the script gives the row this id, in block n. */
  ghost predicate CanTake(blocks: seq<Block>, instruments: seq<Instrument>, row: Coverage, n: nat, id: Id) {
    Decides(blocks, instruments, row, n) && Choice(blocks[n], instruments, MatchKey(blocks[n].kind, row), id)
  }

  /** The key columns that no UPDATE changes. */
  predicate SameScope(a: Coverage, b: Coverage) {
    a.packId == b.packId && a.interval == b.interval && a.quoteCurrency == b.quoteCurrency
  }

  /** Row a can take an id in block n that row b still has then, or can have taken by then. */
  ghost predicate CanMeet(blocks: seq<Block>, instruments: seq<Instrument>, a: Coverage, b: Coverage, n: nat, id: Id) {
    && SameScope(a, b) && CanTake(blocks, instruments, a, n, id)
    && ((b.instrumentId == id && UntouchedBefore(blocks, instruments, b, n)) ||
        exists m: nat :: m <= n && CanTake(blocks, instruments, b, m, id))
  }

  ghost predicate MayCollide(blocks: seq<Block>, instruments: seq<Instrument>, table: seq<Coverage>) {
    exists i, j, n: nat, id :: 0 <= i < |table| && 0 <= j < |table| && i != j &&
      CanMeet(blocks, instruments, table[i], table[j], n, id)
  }

  lemma RunRowUpTo(steps: seq<Step>, row: Coverage, n: nat)
    requires n < |steps|
    ensures RunRow(steps[..n + 1], row) == UpdateRow(steps[n], RunRow(steps[..n], row))
  {
    assert steps[..n + 1] == steps[..n] + [steps[n]];
    RunRowSnoc(steps[..n], steps[n], row);
  }

  lemma RunTableUpTo(steps: seq<Step>, table: seq<Coverage>, n: nat)
    requires n < |steps|
    ensures RunTable(steps[..n + 1], table) == UpdateTable(steps[n], RunTable(steps[..n], table))
  {
    assert steps[..n + 1] == steps[..n] + [steps[n]];
    RunTableSnoc(steps[..n], steps[n], table);
  }

  lemma RewrittenStays(s: Step, t: Step, row: Coverage)
    requires Hits(s, row)
    ensures UpdateRow(t, UpdateRow(s, row)) == UpdateRow(s, row)
  {
  }

  /** Before the block that decides a row, a run has not changed it; that block rewrites it. */
  lemma {:induction false} RowBefore(steps: seq<Step>, blocks: seq<Block>, instruments: seq<Instrument>,
                                     row: Coverage, n: nat)
    requires ValidRun(steps, blocks, instruments) && UntouchedBefore(blocks, instruments, row, n)
    ensures RunRow(steps[..n], row) == row
    ensures n < |steps| ==> (Hits(steps[n], row) <==> Decides(blocks, instruments, row, n))
  {
    hide Matchable, MatchKey, Choice;
    if n > 0 {
      RowBefore(steps, blocks, instruments, row, n - 1);
      RunRowUpTo(steps, row, n - 1);
    }
  }

  lemma HitWhereDecided(steps: seq<Step>, blocks: seq<Block>, instruments: seq<Instrument>, row: Coverage, m: nat)
    requires ValidRun(steps, blocks, instruments) && Decides(blocks, instruments, row, m)
    ensures m < |steps| && RunRow(steps[..m], row) == row && Hits(steps[m], row)
  {
    RowBefore(steps, blocks, instruments, row, m);
  }

  lemma {:induction false} RowAfter(steps: seq<Step>, blocks: seq<Block>, instruments: seq<Instrument>,
                                    row: Coverage, m: nat, n: nat)
    requires ValidRun(steps, blocks, instruments) && Decides(blocks, instruments, row, m) && m < n <= |steps|
    ensures Hits(steps[m], row) && RunRow(steps[..n], row) == UpdateRow(steps[m], row)
  {
    hide *;
    HitWhereDecided(steps, blocks, instruments, row, m);
    RunRowUpTo(steps, row, n - 1);
    if m < n - 1 {
      RowAfter(steps, blocks, instruments, row, m, n - 1);
      RewrittenStays(steps[m], steps[n - 1], row);
    }
  }

  /** After n blocks a row is as it was, or has an id it can take. */
  lemma {:induction false} RowAt(steps: seq<Step>, blocks: seq<Block>, instruments: seq<Instrument>,
                                 row: Coverage, n: nat)
    requires ValidRun(steps, blocks, instruments) && n <= |steps|
    ensures SameScope(RunRow(steps[..n], row), row)
    ensures || (RunRow(steps[..n], row) == row && UntouchedBefore(blocks, instruments, row, n))
            || exists m: nat :: m < n && CanTake(blocks, instruments, row, m, RunRow(steps[..n], row).instrumentId)
  {
    OriginalIdKept(steps[..n], row);
    if UntouchedBefore(blocks, instruments, row, n) {
      RowBefore(steps, blocks, instruments, row, n);
    } else {
      var m := FirstDecider(blocks, instruments, row, n);
      RowAfter(steps, blocks, instruments, row, m, n);
      assert CanTake(blocks, instruments, row, m, RunRow(steps[..n], row).instrumentId);
    }
  }

  lemma {:induction false} FirstDecider(blocks: seq<Block>, instruments: seq<Instrument>, row: Coverage, n: nat)
    returns (m: nat)
    requires n <= |blocks| && !UntouchedBefore(blocks, instruments, row, n)
    ensures m < n && Decides(blocks, instruments, row, m)
  {
    if UntouchedBefore(blocks, instruments, row, n - 1) {
      m := n - 1;
    } else {
      m := FirstDecider(blocks, instruments, row, n - 1);
    }
  }

  /** A row that a run rewrites in block n is decided there and takes one of its ids. */
  lemma TakesAt(steps: seq<Step>, blocks: seq<Block>, instruments: seq<Instrument>, row: Coverage, n: nat)
    requires ValidRun(steps, blocks, instruments) && n < |steps| && Hits(steps[n], RunRow(steps[..n], row))
    ensures RunRow(steps[..n], row) == row
    ensures CanTake(blocks, instruments, row, n, UpdateRow(steps[n], row).instrumentId)
  {
    if UntouchedBefore(blocks, instruments, row, n) {
      RowBefore(steps, blocks, instruments, row, n);
    } else {
      var m := FirstDecider(blocks, instruments, row, n);
      RowAfter(steps, blocks, instruments, row, m, n);
    }
  }

  lemma MeetAt(steps: seq<Step>, blocks: seq<Block>, instruments: seq<Instrument>, a: Coverage, b: Coverage, n: nat)
    requires ValidRun(steps, blocks, instruments) && n < |steps| && Hits(steps[n], RunRow(steps[..n], a))
    requires var key := KeyColumns(UpdateRow(steps[n], RunRow(steps[..n], a)));
             key == KeyColumns(RunRow(steps[..n], b)) || key == KeyColumns(RunRow(steps[..n + 1], b))
    ensures CanMeet(blocks, instruments, a, b, n, UpdateRow(steps[n], a).instrumentId)
  {
    hide CanTake, UntouchedBefore, RunRow, ValidRun, Hits;
    TakesAt(steps, blocks, instruments, a, n);
    ScopeKept(steps[n], a);
    RowAt(steps, blocks, instruments, b, n);
    RowAt(steps, blocks, instruments, b, n + 1);
    UntouchedEarlier(blocks, instruments, b, n);
    hide UpdateRow;
  }

  lemma UntouchedEarlier(blocks: seq<Block>, instruments: seq<Instrument>, row: Coverage, n: nat)
    ensures UntouchedBefore(blocks, instruments, row, n + 1) ==> UntouchedBefore(blocks, instruments, row, n)
  {
  }

  /** A key clash in block n of a run is one the static condition foresees. */
  lemma ClashIsForeseen(steps: seq<Step>, blocks: seq<Block>, instruments: seq<Instrument>, table: seq<Coverage>,
                        n: nat)
    requires ValidRun(steps, blocks, instruments) && n < |steps|
    requires HasClash(steps[n], RunTable(steps[..n], table))
    ensures MayCollide(blocks, instruments, table)
  {
    var now := RunTable(steps[..n], table);
    var i, j :| 0 <= i < |now| && 0 <= j < |now| && KeyClash(steps[n], now, i, j);
    hide ValidRun, RunRow, CanMeet, Hits, UpdateRow;
    RunRowUpTo(steps, table[j], n);
    MeetAt(steps, blocks, instruments, table[i], table[j], n);
  }

  lemma AcceptedKeepsKey(step: Step, table: seq<Coverage>, order: seq<nat>)
    requires KeysUnique(table) && ScanOrder(order, |table|) && !Rejected(step, table, order)
    ensures KeysUnique(UpdateTable(step, table))
  {
    if !KeysUnique(UpdateTable(step, table)) {
      RepeatedKeyRejects(step, table, order);
    }
  }

  /** An accepted run keeps the primary key after every block. */
  lemma {:induction false} AcceptedRunKeepsKey(steps: seq<Step>, table: seq<Coverage>, scans: nat -> seq<nat>, n: nat)
    requires n <= |steps| && KeysUnique(table) && ScanOrders(scans, |table|) && Accepted(steps, table, scans, n)
    ensures KeysUnique(RunTable(steps[..n], table))
  {
    if n == 0 {
      assert RunTable(steps[..0], table) == table;
    } else {
      AcceptedRunKeepsKey(steps, table, scans, n - 1);
      RunTableUpTo(steps, table, n - 1);
      AcceptedKeepsKey(steps[n - 1], RunTable(steps[..n - 1], table), scans(n - 1));
    }
  }

  /** If no two rows may collide, every UPDATE of every run is accepted. */
  lemma {:induction false} NothingRejected(steps: seq<Step>, blocks: seq<Block>, instruments: seq<Instrument>,
                                           table: seq<Coverage>, scans: nat -> seq<nat>, n: nat)
    requires ValidRun(steps, blocks, instruments) && n <= |steps|
    requires KeysUnique(table) && ScanOrders(scans, |table|) && !MayCollide(blocks, instruments, table)
    ensures Accepted(steps, table, scans, n)
  {
    hide ValidRun, MayCollide, Rejected, KeysUnique, ScanOrder, RunTable;
    if n > 0 {
      NothingRejected(steps, blocks, instruments, table, scans, n - 1);
      AcceptedRunKeepsKey(steps, table, scans, n - 1);
      var now := RunTable(steps[..n - 1], table);
      if Rejected(steps[n - 1], now, scans(n - 1)) {
        RejectionClashes(steps[n - 1], now, scans(n - 1));
        ClashIsForeseen(steps, blocks, instruments, table, n - 1);
      }
    }
  }

  /** A matchable symbol has a pick. */
  lemma ChoiceExists(block: Block, instruments: seq<Instrument>, sym: string)
    requires Matchable(block, instruments, sym)
    ensures exists id :: Choice(block, instruments, sym, id)
  {
    var n :| 0 <= n < |instruments| && Joined(block, instruments, sym, n);
    var best := FirstName(block, instruments, sym, |instruments|);
    assert Preferred(block, instruments, sym, best);
    assert Choice(block, instruments, sym, instruments[best].id);
  }

  lemma {:induction false} FirstName(block: Block, instruments: seq<Instrument>, sym: string, n: nat)
    returns (best: nat)
    requires n <= |instruments| && exists m :: 0 <= m < n && Joined(block, instruments, sym, m)
    ensures best < n && Joined(block, instruments, sym, best)
    ensures forall m :: 0 <= m < n && Joined(block, instruments, sym, m) ==>
              StrLe(instruments[best].name, instruments[m].name)
  {
    var last := instruments[n - 1].name;
    StrLeTotal(last, last);
    if exists m :: 0 <= m < n - 1 && Joined(block, instruments, sym, m) {
      best := FirstName(block, instruments, sym, n - 1);
      StrLeTotal(instruments[best].name, last);
      if Joined(block, instruments, sym, n - 1) && !StrLe(instruments[best].name, last) {
        forall m | 0 <= m < n - 1 && Joined(block, instruments, sym, m)
          ensures StrLe(last, instruments[m].name)
        {
          StrLeTransitive(last, instruments[best].name, instruments[m].name);
        }
        best := n - 1;
      }
    } else {
      best := n - 1;
    }
  }

  /** A pick for a matchable symbol: `id` if the query may pick it. */
  ghost function Pick(block: Block, instruments: seq<Instrument>, sym: string, id: Id): (r: Id)
    requires Matchable(block, instruments, sym)
    ensures Choice(block, instruments, sym, r)
    ensures Choice(block, instruments, sym, id) ==> r == id
  {
    ChoiceExists(block, instruments, sym);
    if Choice(block, instruments, sym, id) then id
    else
      var other :| Choice(block, instruments, sym, other);
      other
  }

  /** The block's step that picks `id` wherever it may. */
  ghost function Favour(block: Block, instruments: seq<Instrument>, id: Id): Step {
    var syms := set r | r in block.rows :: r.sym;
    Step(block, map sym | sym in syms && Matchable(block, instruments, sym) :: Pick(block, instruments, sym, id))
  }

  lemma FavourIsValid(block: Block, instruments: seq<Instrument>, id: Id)
    ensures ValidStep(Favour(block, instruments, id), instruments)
  {
    forall sym | Matchable(block, instruments, sym) ensures sym in Favour(block, instruments, id).matched {
      var n :| 0 <= n < |instruments| && Joined(block, instruments, sym, n);
      var k :| 0 <= k < |block.rows| && block.rows[k].sym == sym;
      assert block.rows[k] in block.rows;
    }
  }

  /** The run that picks `id` wherever it may. */
  lemma FavouringRun(blocks: seq<Block>, instruments: seq<Instrument>, id: Id) returns (steps: seq<Step>)
    ensures ValidRun(steps, blocks, instruments)
    ensures forall row, n: nat :: n < |steps| && CanTake(blocks, instruments, row, n, id) ==>
              Hits(steps[n], row) && UpdateRow(steps[n], row).instrumentId == id
  {
    steps := seq(|blocks|, n requires 0 <= n < |blocks| => Favour(blocks[n], instruments, id));
    forall n | 0 <= n < |blocks| ensures ValidStep(steps[n], instruments) {
      FavourIsValid(blocks[n], instruments, id);
    }
  }

  /** A run in which row i takes an id in block n that row j has before or after the block is rejected there, if the
      UPDATE visits row i first. */
  lemma MeetingIsRejected(steps: seq<Step>, blocks: seq<Block>, instruments: seq<Instrument>, table: seq<Coverage>,
                          i: nat, j: nat, n: nat, id: Id, order: seq<nat>)
    requires ValidRun(steps, blocks, instruments) && n < |steps|
    requires i < |table| && j < |table| && i != j && CanMeet(blocks, instruments, table[i], table[j], n, id)
    requires forall row, m: nat :: m < |steps| && CanTake(blocks, instruments, row, m, id) ==>
               Hits(steps[m], row) && UpdateRow(steps[m], row).instrumentId == id
    requires ScanOrder(order, |table|) && order != [] && order[0] == i
    ensures Rejected(steps[n], RunTable(steps[..n], table), order)
  {
    hide ValidStep, Rejected, ScanOrder, Choice, Matchable, RunRow;
    RowBefore(steps, blocks, instruments, table[i], n);
    RunTableUpTo(steps, table, n);
    if table[j].instrumentId == id && UntouchedBefore(blocks, instruments, table[j], n) {
      RowBefore(steps, blocks, instruments, table[j], n);
      TakenKeyRejects(steps[n], RunTable(steps[..n], table), i, j, order);
    } else {
      var m: nat :| m <= n && CanTake(blocks, instruments, table[j], m, id);
      TakenAfter(steps, blocks, instruments, table[i], n, n + 1, id);
      TakenAfter(steps, blocks, instruments, table[j], m, n + 1, id);
      SameKeyRejects(steps[n], RunTable(steps[..n], table), RunTable(steps[..n + 1], table), i, j, order);
    }
  }

  lemma TakenAfter(steps: seq<Step>, blocks: seq<Block>, instruments: seq<Instrument>, row: Coverage, m: nat, n: nat,
                   id: Id)
    requires ValidRun(steps, blocks, instruments) && m < n <= |steps| && CanTake(blocks, instruments, row, m, id)
    requires UpdateRow(steps[m], row).instrumentId == id
    ensures RunRow(steps[..n], row).instrumentId == id && SameScope(RunRow(steps[..n], row), row)
  {
    assert Decides(blocks, instruments, row, m);
    hide *;
    RowAfter(steps, blocks, instruments, row, m, n);
    ScopeKept(steps[m], row);
  }

  lemma ScopeKept(step: Step, row: Coverage)
    ensures SameScope(UpdateRow(step, row), row)
  {
  }

  lemma TakenKeyRejects(step: Step, now: seq<Coverage>, i: nat, j: nat, order: seq<nat>)
    requires i < |now| && j < |now| && i != j && Hits(step, now[i]) && SameScope(now[i], now[j])
    requires UpdateRow(step, now[i]).instrumentId == now[j].instrumentId
    requires ScanOrder(order, |now|) && order != [] && order[0] == i
    ensures Rejected(step, now, order)
  {
    assert KeyClash(step, now, i, j);
    ClashRejects(step, now, i, j, order);
  }

  lemma SameKeyRejects(step: Step, now: seq<Coverage>, next: seq<Coverage>, i: nat, j: nat, order: seq<nat>)
    requires i < |now| && j < |now| && i != j && next == UpdateTable(step, now)
    requires SameScope(next[i], next[j]) && next[i].instrumentId == next[j].instrumentId
    requires ScanOrder(order, |now|)
    ensures Rejected(step, now, order)
  {
    assert KeyColumns(next[i]) == KeyColumns(next[j]);
    RepeatedKeyRejects(step, now, order);
  }

  /** Two rows that may meet are rejected by some run. */
  lemma SomeRunRejected(blocks: seq<Block>, instruments: seq<Instrument>, table: seq<Coverage>)
    returns (steps: seq<Step>, scans: nat -> seq<nat>)
    requires MayCollide(blocks, instruments, table)
    ensures ValidRun(steps, blocks, instruments) && ScanOrders(scans, |table|)
    ensures !Accepted(steps, table, scans, |steps|)
  {
    var i, j, n: nat, id :| 0 <= i < |table| && 0 <= j < |table| && i != j &&
      CanMeet(blocks, instruments, table[i], table[j], n, id);
    steps := FavouringRun(blocks, instruments, id);
    assert n < |steps|;
    var order := StartWith(|table|, i);
    scans := _ => order;
    hide ValidStep, CanMeet, CanTake, Rejected, ScanOrder;
    MeetingIsRejected(steps, blocks, instruments, table, i, j, n, id, order);
    assert Rejected(steps[n], RunTable(steps[..n], table), scans(n));
  }

  /** Whatever the queries pick and whatever order the UPDATEs visit the rows in, the script commits. */
  ghost predicate EveryRunCommits(blocks: seq<Block>, instruments: seq<Instrument>, table: seq<Coverage>) {
    NoneEmpty(blocks) &&
    forall steps, scans :: ValidRun(steps, blocks, instruments) && ScanOrders(scans, |table|) ==>
      Accepted(steps, table, scans, |steps|)
  }

  /** Every run commits exactly if no VALUES list is empty and no two rows of the same pack, interval and currency may
      meet in one id: the first taking it in the block that decides it while the second still has it, or has taken it
      too. */
  lemma EveryRunCommitsIff(blocks: seq<Block>, instruments: seq<Instrument>, table: seq<Coverage>)
    requires KeysUnique(table)
    ensures EveryRunCommits(blocks, instruments, table) <==>
              NoneEmpty(blocks) && !MayCollide(blocks, instruments, table)
  {
    if MayCollide(blocks, instruments, table) {
      var steps, scans := SomeRunRejected(blocks, instruments, table);
    } else {
      forall steps, scans | ValidRun(steps, blocks, instruments) && ScanOrders(scans, |table|)
        ensures Accepted(steps, table, scans, |steps|)
      {
        NothingRejected(steps, blocks, instruments, table, scans, |steps|);
      }
    }
  }

  /** The table after a run: rolled back unless the script commits. */
  ghost function Outcome(blocks: seq<Block>, steps: seq<Step>, table: seq<Coverage>, scans: nat -> seq<nat>)
    : seq<Coverage>
  {
    if NoneEmpty(blocks) && Accepted(steps, table, scans, |steps|) then RunTable(steps, table) else table
  }

  /** Whatever two runs pick and in whatever order they visit the rows, the second changes nothing. */
  ghost predicate SafeToRerun(blocks: seq<Block>, instruments: seq<Instrument>, table: seq<Coverage>) {
    forall first, second, scans, later ::
      && ValidRun(first, blocks, instruments) && ScanOrders(scans, |table|)
      && ValidRun(second, blocks, instruments) && ScanOrders(later, |table|)
      ==> Outcome(blocks, second, Outcome(blocks, first, table, scans), later) == Outcome(blocks, first, table, scans)
  }

  /** No run changes the table. */
  ghost predicate NoRunChanges(blocks: seq<Block>, instruments: seq<Instrument>, table: seq<Coverage>) {
    forall steps, scans :: ValidRun(steps, blocks, instruments) && ScanOrders(scans, |table|) ==>
      Outcome(blocks, steps, table, scans) == table
  }

  /** In terms of runs: the script is safe to re-run exactly if every run of it commits, or none changes the table. */
  lemma SafeToRerunByRuns(blocks: seq<Block>, instruments: seq<Instrument>, table: seq<Coverage>)
    ensures SafeToRerun(blocks, instruments, table) <==>
              EveryRunCommits(blocks, instruments, table) || NoRunChanges(blocks, instruments, table)
  {
    hide ValidRun, ScanOrders, Accepted, RunTable;
    if SafeToRerun(blocks, instruments, table) && !EveryRunCommits(blocks, instruments, table) {
      forall second, later | ValidRun(second, blocks, instruments) && ScanOrders(later, |table|)
        ensures Outcome(blocks, second, table, later) == table
      {
        if NoneEmpty(blocks) {
          var first, scans :| ValidRun(first, blocks, instruments) && ScanOrders(scans, |table|) &&
                              !Accepted(first, table, scans, |first|);
          assert Outcome(blocks, first, table, scans) == table;
        }
      }
    }
    if EveryRunCommits(blocks, instruments, table) {
      forall first, second, scans, later |
        && ValidRun(first, blocks, instruments) && ScanOrders(scans, |table|)
        && ValidRun(second, blocks, instruments) && ScanOrders(later, |table|)
        ensures Outcome(blocks, second, Outcome(blocks, first, table, scans), later) ==
                Outcome(blocks, first, table, scans)
      {
        TableIdempotent(blocks, instruments, first, second, table);
      }
    }
  }

  /** After an accepted run every row is untouched by every block, so no two rows may meet in a second run. */
  lemma AcceptedRunLeavesNothing(blocks: seq<Block>, instruments: seq<Instrument>, steps: seq<Step>,
                                 table: seq<Coverage>)
    requires ValidRun(steps, blocks, instruments)
    ensures forall b, row :: b in blocks && row in RunTable(steps, table) ==> Untouched(b, instruments, row)
    ensures !MayCollide(blocks, instruments, RunTable(steps, table))
  {
    forall b, row | b in blocks && row in RunTable(steps, table) ensures Untouched(b, instruments, row) {
      var k :| 0 <= k < |table| && RunRow(steps, table[k]) == row;
      OriginalIdKept(steps, table[k]);
      RewriteIsJustified(steps, blocks, instruments, table[k]);
    }
  }

  /** If two rows of one scope can only take the same id, no run commits. */
  lemma SoleChoiceNeverCommits(blocks: seq<Block>, instruments: seq<Instrument>, table: seq<Coverage>,
                               i: nat, j: nat, m: nat, n: nat, id: Id, steps: seq<Step>, scans: nat -> seq<nat>)
    requires KeysUnique(table) && i < |table| && j < |table| && i != j && SameScope(table[i], table[j])
    requires Decides(blocks, instruments, table[i], m) && Decides(blocks, instruments, table[j], n)
    requires forall x :: CanTake(blocks, instruments, table[i], m, x) ==> x == id
    requires forall x :: CanTake(blocks, instruments, table[j], n, x) ==> x == id
    requires ValidRun(steps, blocks, instruments) && ScanOrders(scans, |table|)
    ensures !Accepted(steps, table, scans, |steps|)
  {
    hide RunRow, ValidRun, Decides, CanTake, Accepted, KeysUnique, SameScope;
    SoleId(steps, blocks, instruments, table[i], m, id);
    SoleId(steps, blocks, instruments, table[j], n, id);
    ScopesAgree(RunRow(steps, table[i]), table[i], table[j], RunRow(steps, table[j]));
    if Accepted(steps, table, scans, |steps|) {
      AcceptedRunKeepsKey(steps, table, scans, |steps|);
      assert steps[..|steps|] == steps;
      RepeatedKey(RunTable(steps, table), i, j);
    }
  }

  lemma ScopesAgree(a: Coverage, b: Coverage, c: Coverage, d: Coverage)
    requires SameScope(a, b) && SameScope(b, c) && SameScope(d, c)
    ensures SameScope(a, d)
  {
  }

  lemma RepeatedKey(table: seq<Coverage>, i: nat, j: nat)
    requires i < |table| && j < |table| && i != j && SameScope(table[i], table[j])
    requires table[i].instrumentId == table[j].instrumentId
    ensures !KeysUnique(table)
  {
    assert KeyColumns(table[i]) == KeyColumns(table[j]);
  }

  lemma SoleId(steps: seq<Step>, blocks: seq<Block>, instruments: seq<Instrument>, row: Coverage, m: nat, id: Id)
    requires ValidRun(steps, blocks, instruments) && Decides(blocks, instruments, row, m)
    requires forall x :: CanTake(blocks, instruments, row, m, x) ==> x == id
    ensures RunRow(steps, row).instrumentId == id && SameScope(RunRow(steps, row), row)
  {
    RowAfter(steps, blocks, instruments, row, m, |steps|);
    assert steps[..|steps|] == steps;
    hide UntouchedBefore, RunRow;
    assert CanTake(blocks, instruments, row, m, UpdateRow(steps[m], row).instrumentId);
  }
}
