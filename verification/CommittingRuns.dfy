/** When some run of the bridging script commits: the visiting orders in which one UPDATE is accepted, the picks under
    which all of them can be, and from that when re-running the script is safe. */
module CommittingRuns {
  import opened Options
  import opened Bridging
  import opened PrimaryKey

  // --- one UPDATE ---

  /** Row i is rewritten to the key that row j has before the UPDATE. */
  predicate Takes(step: Step, table: seq<Coverage>, i: nat, j: nat) {
    && i < |table| && j < |table| && i != j && Hits(step, table[i])
    && KeyColumns(UpdateRow(step, table[i])) == KeyColumns(table[j])
  }

  /** No row takes the old key of a row visited after it. */
  predicate NoneTakesLater(step: Step, table: seq<Coverage>, order: seq<nat>) {
    forall p, q :: 0 <= p < q < |order| ==> !Takes(step, table, order[p], order[q])
  }

  /** An UPDATE is accepted in a visiting order exactly if its final keys are unique and no row takes the old key of a
      row visited after it. */
  lemma AcceptedOrderIff(step: Step, table: seq<Coverage>, order: seq<nat>)
    requires KeysUnique(table) && ScanOrder(order, |table|)
    ensures !Rejected(step, table, order) <==>
              KeysUnique(UpdateTable(step, table)) && NoneTakesLater(step, table, order)
  {
    if !KeysUnique(UpdateTable(step, table)) {
      RepeatedKeyRejects(step, table, order);
    } else if !NoneTakesLater(step, table, order) {
      var p, q :| 0 <= p < q < |order| && Takes(step, table, order[p], order[q]);
      TakingLaterRejects(step, table, order, p, q);
    } else if Rejected(step, table, order) {
      RejectedTakesLater(step, table, order);
    }
  }

  lemma TakingLaterRejects(step: Step, table: seq<Coverage>, order: seq<nat>, p: nat, q: nat)
    requires ScanOrder(order, |table|) && p < q < |order| && Takes(step, table, order[p], order[q])
    ensures Rejected(step, table, order)
  {
    var visited := order[..p + 1];
    var partial := PartialUpdate(step, table, visited);
    assert visited[p] == order[p];
    assert order[p] in visited && order[q] !in visited;
    assert KeyColumns(partial[order[p]]) == KeyColumns(partial[order[q]]);
    assert !KeysUnique(partial);
  }

  lemma RejectedTakesLater(step: Step, table: seq<Coverage>, order: seq<nat>)
    requires KeysUnique(table) && ScanOrder(order, |table|) && Rejected(step, table, order)
    requires KeysUnique(UpdateTable(step, table))
    ensures !NoneTakesLater(step, table, order)
  {
    var n :| 0 < n <= |order| && !KeysUnique(PartialUpdate(step, table, order[..n]));
    var partial := PartialUpdate(step, table, order[..n]);
    var a, b :| 0 <= a < b < |partial| && KeyColumns(partial[a]) == KeyColumns(partial[b]);
    assert KeyColumns(table[a]) != KeyColumns(table[b]);
    assert KeyColumns(UpdateTable(step, table)[a]) != KeyColumns(UpdateTable(step, table)[b]);
    if a in order[..n] {
      TakesUnvisited(step, table, order, n, a, b);
    } else {
      TakesUnvisited(step, table, order, n, b, a);
    }
  }

  /** A visited row with the key of one not yet visited. */
  lemma TakesUnvisited(step: Step, table: seq<Coverage>, order: seq<nat>, n: nat, i: nat, j: nat)
    requires ScanOrder(order, |table|) && n <= |order| && i < |table| && j < |table|
    requires i in order[..n] && j !in order[..n] && KeyColumns(table[i]) != KeyColumns(table[j])
    requires KeyColumns(UpdateRow(step, table[i])) == KeyColumns(table[j])
    ensures !NoneTakesLater(step, table, order)
  {
    assert j in order;
    var p :| 0 <= p < n && order[..n][p] == i;
    var q :| 0 <= q < |order| && order[q] == j;
    forall m | 0 <= m < n ensures order[m] != j {
      assert order[..n][m] == order[m] && order[m] in order[..n];
    }
    assert Takes(step, table, order[p], order[q]);
  }

  /** Rows that take each other's keys in a circle. */
  ghost predicate Exchange(step: Step, table: seq<Coverage>, circle: seq<nat>) {
    circle != [] &&
    forall k :: 0 <= k < |circle| ==> Takes(step, table, circle[k], circle[if k + 1 < |circle| then k + 1 else 0])
  }

  ghost predicate NoExchange(step: Step, table: seq<Coverage>) {
    forall circle :: !Exchange(step, table, circle)
  }

  /** An UPDATE can be accepted exactly if its final keys are unique and no rows exchange their keys in a circle. */
  lemma AcceptedUnderSomeOrderIff(step: Step, table: seq<Coverage>)
    requires KeysUnique(table)
    ensures (exists order :: ScanOrder(order, |table|) && !Rejected(step, table, order)) <==>
              KeysUnique(UpdateTable(step, table)) && NoExchange(step, table)
  {
    forall order | ScanOrder(order, |table|) && !Rejected(step, table, order)
      ensures KeysUnique(UpdateTable(step, table)) && NoExchange(step, table)
    {
      AcceptedOrderIff(step, table, order);
      forall circle ensures !Exchange(step, table, circle) {
        NoExchangeInOrder(step, table, order, circle);
      }
    }
    if KeysUnique(UpdateTable(step, table)) && NoExchange(step, table) {
      var order := TakenFirst(step, table, set k | k in OthersBelow(|table|, |table|));
      AcceptedOrderIff(step, table, order);
    }
  }

  /** Where a row is visited. */
  function Position(order: seq<nat>, k: nat): (p: nat)
    requires k in order
    ensures p < |order| && order[p] == k
  {
    if order[0] == k then 0 else 1 + Position(order[1..], k)
  }

  lemma TakenIsEarlier(step: Step, table: seq<Coverage>, order: seq<nat>, i: nat, j: nat)
    requires ScanOrder(order, |table|) && NoneTakesLater(step, table, order) && Takes(step, table, i, j)
    ensures i in order && j in order && Position(order, j) < Position(order, i)
  {
    var p, q := Position(order, i), Position(order, j);
    assert !(p < q);
  }

  lemma {:induction false} CircleGoesBack(step: Step, table: seq<Coverage>, order: seq<nat>, circle: seq<nat>, k: nat)
    requires ScanOrder(order, |table|) && NoneTakesLater(step, table, order)
    requires Exchange(step, table, circle) && k < |circle|
    ensures circle[0] in order && circle[k] in order && Position(order, circle[k]) <= Position(order, circle[0])
  {
    assert Takes(step, table, circle[k], circle[if k + 1 < |circle| then k + 1 else 0]);
    assert Takes(step, table, circle[0], circle[if 1 < |circle| then 1 else 0]);
    if k > 0 {
      CircleGoesBack(step, table, order, circle, k - 1);
      assert Takes(step, table, circle[k - 1], circle[k]);
      TakenIsEarlier(step, table, order, circle[k - 1], circle[k]);
    }
  }

  lemma NoExchangeInOrder(step: Step, table: seq<Coverage>, order: seq<nat>, circle: seq<nat>)
    requires ScanOrder(order, |table|) && NoneTakesLater(step, table, order)
    ensures !Exchange(step, table, circle)
  {
    if Exchange(step, table, circle) {
      var last := |circle| - 1;
      CircleGoesBack(step, table, order, circle, last);
      assert Takes(step, table, circle[last], circle[0]);
      TakenIsEarlier(step, table, order, circle[last], circle[0]);
      assert false;
    }
  }

  /** Each row takes the key of the next. */
  ghost predicate Chain(step: Step, table: seq<Coverage>, chain: seq<nat>) {
    forall k :: 0 < k < |chain| ==> Takes(step, table, chain[k - 1], chain[k])
  }

  lemma ChainIsDistinct(step: Step, table: seq<Coverage>, chain: seq<nat>)
    requires NoExchange(step, table) && Chain(step, table, chain)
    ensures forall a, b :: 0 <= a < b < |chain| ==> chain[a] != chain[b]
  {
    forall a, b | 0 <= a < b < |chain| ensures chain[a] != chain[b] {
      var circle := chain[a..b];
      if chain[a] == chain[b] {
        forall k | 0 <= k < |circle|
          ensures Takes(step, table, circle[k], circle[if k + 1 < |circle| then k + 1 else 0])
        {
          assert circle[k] == chain[a + k + 1 - 1];
        }
        assert Exchange(step, table, circle);
      }
    }
  }

  lemma {:induction false} DistinctFits(xs: seq<nat>, s: set<nat>)
    requires forall a, b :: 0 <= a < b < |xs| ==> xs[a] != xs[b]
    requires forall a :: 0 <= a < |xs| ==> xs[a] in s
    ensures |xs| <= |s|
  {
    if xs != [] {
      var last := xs[|xs| - 1];
      assert last in s;
      DistinctFits(xs[..|xs| - 1], s - {last});
    }
  }

  /** Row i takes the key of one of the rows. */
  ghost predicate TakesAmong(step: Step, table: seq<Coverage>, i: nat, rows: set<nat>) {
    exists j :: j in rows && Takes(step, table, i, j)
  }

  lemma {:induction false} LongChain(step: Step, table: seq<Coverage>, rows: set<nat>, n: nat) returns (chain: seq<nat>)
    requires rows != {}
    requires forall i :: i in rows ==> TakesAmong(step, table, i, rows)
    ensures |chain| == n + 1 && Chain(step, table, chain) && forall k :: 0 <= k < |chain| ==> chain[k] in rows
  {
    hide Takes;
    if n == 0 {
      var i :| i in rows;
      chain := [i];
    } else {
      var shorter := LongChain(step, table, rows, n - 1);
      assert TakesAmong(step, table, shorter[n - 1], rows);
      var j :| j in rows && Takes(step, table, shorter[n - 1], j);
      chain := shorter + [j];
    }
  }

  /** Among some rows, one takes the key of none of the others. */
  lemma FreeRow(step: Step, table: seq<Coverage>, rows: set<nat>) returns (i: nat)
    requires NoExchange(step, table) && rows != {}
    ensures i in rows && !TakesAmong(step, table, i, rows)
  {
    hide *;
    if forall i :: i in rows ==> TakesAmong(step, table, i, rows) {
      var chain := LongChain(step, table, rows, |rows|);
      ChainIsDistinct(step, table, chain);
      DistinctFits(chain, rows);
      assert false;
    }
    i :| i in rows && !TakesAmong(step, table, i, rows);
  }

  /** An order of the rows in which a row whose key is taken is visited before the row that takes it. */
  lemma {:induction false} TakenFirst(step: Step, table: seq<Coverage>, rows: set<nat>) returns (order: seq<nat>)
    requires NoExchange(step, table)
    ensures forall k :: k in order <==> k in rows
    ensures forall p, q :: 0 <= p < q < |order| ==> order[p] != order[q]
    ensures NoneTakesLater(step, table, order)
    decreases rows
  {
    if rows == {} {
      order := [];
    } else {
      var i := FreeRow(step, table, rows);
      var rest := TakenFirst(step, table, rows - {i});
      order := [i] + rest;
      assert forall q :: 0 <= q < |rest| ==> rest[q] in rest;
      assert forall p :: 0 < p < |order| ==> order[p] == rest[p - 1];
    }
  }

  // --- the whole script ---

  /** Block n decides both rows, under the same symbol. */
  ghost predicate MatchedAlike(blocks: seq<Block>, instruments: seq<Instrument>, a: Coverage, b: Coverage, n: nat) {
    && Decides(blocks, instruments, a, n) && Decides(blocks, instruments, b, n)
    && MatchKey(blocks[n].kind, a) == MatchKey(blocks[n].kind, b)
  }

  /** An id for each row that the blocks' queries can pick together: rows that one block matches under the same symbol
      get the same id. The ids of rows that no block matches play no part. */
  ghost predicate PossiblePicks(blocks: seq<Block>, instruments: seq<Instrument>, table: seq<Coverage>,
                                picks: seq<Id>) {
    && |picks| == |table|
    && (forall i, n: nat :: 0 <= i < |table| && Decides(blocks, instruments, table[i], n) ==>
          CanTake(blocks, instruments, table[i], n, picks[i]))
    && (forall i, j, n: nat ::
          0 <= i < |table| && 0 <= j < |table| && MatchedAlike(blocks, instruments, table[i], table[j], n) ==>
            picks[i] == picks[j])
  }

  /** The id a row has after the first n blocks if it is to take `pick`. */
  ghost function IdAfter(blocks: seq<Block>, instruments: seq<Instrument>, row: Coverage, pick: Id, n: nat): Id {
    if UntouchedBefore(blocks, instruments, row, n) then row.instrumentId else pick
  }

  /** After the first n blocks no two rows of the same pack, interval and currency have the same id. */
  ghost predicate DistinctAfter(blocks: seq<Block>, instruments: seq<Instrument>, table: seq<Coverage>,
                                picks: seq<Id>, n: nat)
    requires |picks| == |table|
  {
    forall i, j :: 0 <= i < j < |table| && SameScope(table[i], table[j]) ==>
      IdAfter(blocks, instruments, table[i], picks[i], n) != IdAfter(blocks, instruments, table[j], picks[j], n)
  }

  /** Block n gives row i the id that row j has until then. */
  ghost predicate TakesId(blocks: seq<Block>, instruments: seq<Instrument>, table: seq<Coverage>, picks: seq<Id>,
                          n: nat, i: nat, j: nat)
    requires |picks| == |table|
  {
    && i < |table| && j < |table| && i != j && SameScope(table[i], table[j])
    && Decides(blocks, instruments, table[i], n)
    && picks[i] == IdAfter(blocks, instruments, table[j], picks[j], n)
  }

  /** Rows that block n makes take each other's ids in a circle. */
  ghost predicate Swap(blocks: seq<Block>, instruments: seq<Instrument>, table: seq<Coverage>, picks: seq<Id>,
                       n: nat, circle: seq<nat>)
    requires |picks| == |table|
  {
    circle != [] &&
    forall k :: 0 <= k < |circle| ==>
      TakesId(blocks, instruments, table, picks, n, circle[k], circle[if k + 1 < |circle| then k + 1 else 0])
  }

  /** Block n ends with distinct keys and swaps no ids in a circle. */
  ghost predicate BlockWorks(blocks: seq<Block>, instruments: seq<Instrument>, table: seq<Coverage>, picks: seq<Id>,
                             n: nat)
    requires |picks| == |table|
  {
    && DistinctAfter(blocks, instruments, table, picks, n + 1)
    && forall circle :: !Swap(blocks, instruments, table, picks, n, circle)
  }

  /** Possible picks under which every block works. */
  ghost predicate WorkablePicks(blocks: seq<Block>, instruments: seq<Instrument>, table: seq<Coverage>,
                                picks: seq<Id>) {
    && PossiblePicks(blocks, instruments, table, picks)
    && forall n: nat :: n < |blocks| ==> BlockWorks(blocks, instruments, table, picks, n)
  }

  ghost predicate CanCommit(blocks: seq<Block>, instruments: seq<Instrument>, table: seq<Coverage>) {
    NoneEmpty(blocks) && exists picks :: WorkablePicks(blocks, instruments, table, picks)
  }

  /** A run in which the decided rows take the given picks. */
  ghost predicate Realises(steps: seq<Step>, blocks: seq<Block>, instruments: seq<Instrument>, table: seq<Coverage>,
                           picks: seq<Id>) {
    && ValidRun(steps, blocks, instruments) && |picks| == |table|
    && forall i, n: nat :: 0 <= i < |table| && n < |steps| && Decides(blocks, instruments, table[i], n) ==>
         UpdateRow(steps[n], table[i]).instrumentId == picks[i]
  }

  lemma RowIs(steps: seq<Step>, blocks: seq<Block>, instruments: seq<Instrument>, table: seq<Coverage>,
              picks: seq<Id>, i: nat, n: nat)
    requires Realises(steps, blocks, instruments, table, picks) && i < |table| && n <= |steps|
    ensures var row := RunRow(steps[..n], table[i]);
            && SameScope(row, table[i])
            && row.instrumentId == IdAfter(blocks, instruments, table[i], picks[i], n)
            && (n < |steps| ==> (Hits(steps[n], row) <==> Decides(blocks, instruments, table[i], n)))
            && (UntouchedBefore(blocks, instruments, table[i], n) ==> row == table[i])
  {
    if UntouchedBefore(blocks, instruments, table[i], n) {
      RowBefore(steps, blocks, instruments, table[i], n);
    } else {
      var m := FirstDecider(blocks, instruments, table[i], n);
      assert UpdateRow(steps[m], table[i]).instrumentId == picks[i];
      hide ValidRun;
      RowAfter(steps, blocks, instruments, table[i], m, n);
      ScopeKept(steps[m], table[i]);
    }
  }

  /** The keys of a run are the ids its rows have by then, within their scopes. */
  lemma UniqueIff(steps: seq<Step>, blocks: seq<Block>, instruments: seq<Instrument>, table: seq<Coverage>,
                  picks: seq<Id>, n: nat)
    requires Realises(steps, blocks, instruments, table, picks) && n <= |steps|
    ensures KeysUnique(RunTable(steps[..n], table)) <==> DistinctAfter(blocks, instruments, table, picks, n)
  {
    var now := RunTable(steps[..n], table);
    forall i, j | 0 <= i < j < |table|
      ensures KeyColumns(now[i]) == KeyColumns(now[j]) <==>
                SameScope(table[i], table[j]) &&
                IdAfter(blocks, instruments, table[i], picks[i], n) ==
                IdAfter(blocks, instruments, table[j], picks[j], n)
    {
      RowIs(steps, blocks, instruments, table, picks, i, n);
      RowIs(steps, blocks, instruments, table, picks, j, n);
      hide IdAfter, RunRow, Realises;
    }
    hide IdAfter, RunRow, Realises, KeyColumns;
  }

  lemma SameTakes(steps: seq<Step>, blocks: seq<Block>, instruments: seq<Instrument>, table: seq<Coverage>,
                  picks: seq<Id>, n: nat, i: nat, j: nat)
    requires Realises(steps, blocks, instruments, table, picks) && n < |steps|
    ensures Takes(steps[n], RunTable(steps[..n], table), i, j) <==>
              TakesId(blocks, instruments, table, picks, n, i, j)
  {
    if i < |table| && j < |table| {
      RowIs(steps, blocks, instruments, table, picks, i, n);
      RowIs(steps, blocks, instruments, table, picks, j, n);
      ScopeKept(steps[n], table[i]);
      hide IdAfter, RunRow, ValidRun, Hits, UpdateRow, UntouchedBefore;
      assert Decides(blocks, instruments, table[i], n) ==> UpdateRow(steps[n], table[i]).instrumentId == picks[i];
    }
  }

  /** A block can be accepted exactly if it ends with distinct keys and swaps no ids in a circle. */
  lemma BlockIff(steps: seq<Step>, blocks: seq<Block>, instruments: seq<Instrument>, table: seq<Coverage>,
                 picks: seq<Id>, n: nat)
    requires Realises(steps, blocks, instruments, table, picks) && n < |steps|
    requires KeysUnique(RunTable(steps[..n], table))
    ensures (exists order :: ScanOrder(order, |table|) && !Rejected(steps[n], RunTable(steps[..n], table), order)) <==>
              BlockWorks(blocks, instruments, table, picks, n)
  {
    var now := RunTable(steps[..n], table);
    AcceptedUnderSomeOrderIff(steps[n], now);
    RunTableUpTo(steps, table, n);
    UniqueIff(steps, blocks, instruments, table, picks, n + 1);
    forall i, j ensures Takes(steps[n], now, i, j) <==> TakesId(blocks, instruments, table, picks, n, i, j) {
      SameTakes(steps, blocks, instruments, table, picks, n, i, j);
    }
    hide Takes, TakesId, KeysUnique, DistinctAfter, Realises, Rejected, ScanOrder, RunTable, UpdateTable;
    forall circle
      ensures Exchange(steps[n], now, circle) <==> Swap(blocks, instruments, table, picks, n, circle)
    {
    }
  }

  /** An accepted run shows workable picks: those it made. */
  lemma AcceptedRunWorks(steps: seq<Step>, blocks: seq<Block>, instruments: seq<Instrument>, table: seq<Coverage>,
                         scans: nat -> seq<nat>)
    returns (picks: seq<Id>)
    requires ValidRun(steps, blocks, instruments) && ScanOrders(scans, |table|) && KeysUnique(table)
    requires Accepted(steps, table, scans, |steps|)
    ensures WorkablePicks(blocks, instruments, table, picks)
  {
    picks := PicksOf(steps, blocks, instruments, table);
    forall n: nat | n < |blocks| ensures BlockWorks(blocks, instruments, table, picks, n) {
      assert Accepted(steps, table, scans, n) && !Rejected(steps[n], RunTable(steps[..n], table), scans(n));
      assert ScanOrder(scans(n), |table|);
      hide *;
      AcceptedRunKeepsKey(steps, table, scans, n);
      BlockIff(steps, blocks, instruments, table, picks, n);
    }
  }

  lemma PicksOf(steps: seq<Step>, blocks: seq<Block>, instruments: seq<Instrument>, table: seq<Coverage>)
    returns (picks: seq<Id>)
    requires ValidRun(steps, blocks, instruments)
    ensures Realises(steps, blocks, instruments, table, picks) && PossiblePicks(blocks, instruments, table, picks)
  {
    picks := seq(|table|, i requires 0 <= i < |table| => RunRow(steps, table[i]).instrumentId);
    assert steps[..|steps|] == steps;
    forall i, n: nat | 0 <= i < |table| && Decides(blocks, instruments, table[i], n)
      ensures n < |steps| && Hits(steps[n], table[i])
      ensures picks[i] == steps[n].matched[MatchKey(blocks[n].kind, table[i])]
      ensures UpdateRow(steps[n], table[i]).instrumentId == picks[i]
      ensures CanTake(blocks, instruments, table[i], n, picks[i])
    {
      RowAfter(steps, blocks, instruments, table[i], n, |steps|);
    }
    hide Decides, CanTake, RunRow, UpdateRow, ValidRun;
  }

  /** Block n decides the row, under this symbol. */
  ghost predicate DecidedUnder(blocks: seq<Block>, instruments: seq<Instrument>, row: Coverage, n: nat, sym: string) {
    Decides(blocks, instruments, row, n) && MatchKey(blocks[n].kind, row) == sym
  }

  /** The id block n is to pick for a symbol: the one of a row it decides under that symbol, if there is one. */
  ghost function PickFor(blocks: seq<Block>, instruments: seq<Instrument>, table: seq<Coverage>, picks: seq<Id>,
                         n: nat, sym: string): (r: Id)
    requires PossiblePicks(blocks, instruments, table, picks) && n < |blocks| && Matchable(blocks[n], instruments, sym)
    ensures Choice(blocks[n], instruments, sym, r)
    ensures forall i :: 0 <= i < |table| && DecidedUnder(blocks, instruments, table[i], n, sym) ==> r == picks[i]
  {
    if i: nat :| i < |table| && DecidedUnder(blocks, instruments, table[i], n, sym) then
      assert forall j :: 0 <= j < |table| && DecidedUnder(blocks, instruments, table[j], n, sym) ==>
               MatchedAlike(blocks, instruments, table[i], table[j], n);
      picks[i]
    else Pick(blocks[n], instruments, sym, "")
  }

  /** Block n's step under the picks. */
  ghost function StepFor(blocks: seq<Block>, instruments: seq<Instrument>, table: seq<Coverage>, picks: seq<Id>,
                         n: nat): Step
    requires PossiblePicks(blocks, instruments, table, picks) && n < |blocks|
  {
    var syms := set r | r in blocks[n].rows :: r.sym;
    Step(blocks[n], map sym | sym in syms && Matchable(blocks[n], instruments, sym) ::
           PickFor(blocks, instruments, table, picks, n, sym))
  }

  lemma StepForIsValid(blocks: seq<Block>, instruments: seq<Instrument>, table: seq<Coverage>, picks: seq<Id>, n: nat)
    requires PossiblePicks(blocks, instruments, table, picks) && n < |blocks|
    ensures ValidStep(StepFor(blocks, instruments, table, picks, n), instruments)
  {
    hide PossiblePicks, PickFor, Choice;
    forall sym | Matchable(blocks[n], instruments, sym)
      ensures sym in StepFor(blocks, instruments, table, picks, n).matched
    {
      var m :| 0 <= m < |instruments| && Joined(blocks[n], instruments, sym, m);
      var k :| 0 <= k < |blocks[n].rows| && blocks[n].rows[k].sym == sym;
      assert blocks[n].rows[k] in blocks[n].rows;
    }
  }

  /** Possible picks are made by some run. */
  lemma RunWith(blocks: seq<Block>, instruments: seq<Instrument>, table: seq<Coverage>, picks: seq<Id>)
    returns (steps: seq<Step>)
    requires PossiblePicks(blocks, instruments, table, picks)
    ensures Realises(steps, blocks, instruments, table, picks)
  {
    steps := seq(|blocks|, n requires 0 <= n < |blocks| => StepFor(blocks, instruments, table, picks, n));
    forall n | 0 <= n < |blocks| ensures steps[n].block == blocks[n] && ValidStep(steps[n], instruments) {
      StepForIsValid(blocks, instruments, table, picks, n);
    }
    assert ValidRun(steps, blocks, instruments);
    forall i, n: nat | 0 <= i < |table| && n < |steps| && Decides(blocks, instruments, table[i], n)
      ensures UpdateRow(steps[n], table[i]).instrumentId == picks[i]
    {
      HitWhereDecided(steps, blocks, instruments, table[i], n);
      assert DecidedUnder(blocks, instruments, table[i], n, MatchKey(blocks[n].kind, table[i]));
      hide ValidRun, PossiblePicks, Decides, PickFor;
    }
  }

  ghost function AllRows(n: nat): (order: seq<nat>)
    ensures ScanOrder(order, n)
  {
    OthersBelow(n, n)
  }

  /** An order in which the UPDATE is accepted, if there is one. */
  ghost function BestOrder(step: Step, table: seq<Coverage>): (order: seq<nat>)
    ensures ScanOrder(order, |table|)
    ensures (exists other :: ScanOrder(other, |table|) && !Rejected(step, table, other)) ==>
              !Rejected(step, table, order)
  {
    if order :| ScanOrder(order, |table|) && !Rejected(step, table, order) then order
    else AllRows(|table|)
  }

  lemma RunTableOfNone(table: seq<Coverage>)
    ensures RunTable([], table) == table
  {
  }

  lemma KeysAfterBlock(steps: seq<Step>, blocks: seq<Block>, instruments: seq<Instrument>, table: seq<Coverage>,
                       picks: seq<Id>, n: nat)
    requires Realises(steps, blocks, instruments, table, picks) && n < |steps|
    requires WorkablePicks(blocks, instruments, table, picks)
    ensures KeysUnique(RunTable(steps[..n + 1], table))
  {
    assert BlockWorks(blocks, instruments, table, picks, n);
    UniqueIff(steps, blocks, instruments, table, picks, n + 1);
  }

  /** Workable picks are made by an accepted run. */
  lemma WorkablePicksAreAccepted(blocks: seq<Block>, instruments: seq<Instrument>, table: seq<Coverage>,
                                 picks: seq<Id>)
    returns (steps: seq<Step>, scans: nat -> seq<nat>)
    requires KeysUnique(table) && WorkablePicks(blocks, instruments, table, picks)
    ensures ValidRun(steps, blocks, instruments) && ScanOrders(scans, |table|)
    ensures Accepted(steps, table, scans, |steps|)
  {
    steps := RunWith(blocks, instruments, table, picks);
    ghost var run := steps;
    scans := (n: nat) =>
      if n < |run| then BestOrder(run[n], RunTable(run[..n], table)) else AllRows(|table|);
    forall n ensures ScanOrder(scans(n), |table|) { }
    hide ScanOrder, Rejected, RunTable, KeysUnique, BlockWorks;
    RunTableOfNone(table);
    forall n: nat | n < |steps| ensures !Rejected(steps[n], RunTable(steps[..n], table), scans(n)) {
      assert BlockWorks(blocks, instruments, table, picks, n);
      if n > 0 {
        KeysAfterBlock(steps, blocks, instruments, table, picks, n - 1);
      } else {
        assert steps[..0] == [];
      }
      BlockIff(steps, blocks, instruments, table, picks, n);
    }
  }

  ghost predicate Commits(blocks: seq<Block>, instruments: seq<Instrument>, table: seq<Coverage>, steps: seq<Step>,
                          scans: nat -> seq<nat>) {
    && ValidRun(steps, blocks, instruments) && ScanOrders(scans, |table|)
    && NoneEmpty(blocks) && Accepted(steps, table, scans, |steps|)
  }

  ghost predicate SomeRunCommits(blocks: seq<Block>, instruments: seq<Instrument>, table: seq<Coverage>) {
    exists steps, scans :: Commits(blocks, instruments, table, steps, scans)
  }

  /** Some run of the script commits exactly if no VALUES list is empty and the queries can make picks under which every
      block ends with distinct keys and swaps no ids in a circle. */
  lemma SomeRunCommitsIff(blocks: seq<Block>, instruments: seq<Instrument>, table: seq<Coverage>)
    requires KeysUnique(table)
    ensures SomeRunCommits(blocks, instruments, table) <==> CanCommit(blocks, instruments, table)
  {
    hide ValidRun, ScanOrders, Accepted, WorkablePicks, KeysUnique;
    if steps, scans :| Commits(blocks, instruments, table, steps, scans) {
      var picks := AcceptedRunWorks(steps, blocks, instruments, table, scans);
    }
    if NoneEmpty(blocks) {
      if picks :| WorkablePicks(blocks, instruments, table, picks) {
        var steps, scans := WorkablePicksAreAccepted(blocks, instruments, table, picks);
        assert Commits(blocks, instruments, table, steps, scans);
      }
    }
  }

  lemma DecidedRowChanges(blocks: seq<Block>, instruments: seq<Instrument>, steps: seq<Step>, row: Coverage, n: nat)
    requires ValidRun(steps, blocks, instruments) && Decides(blocks, instruments, row, n)
    ensures RunRow(steps, row) != row
  {
    assert steps[..|steps|] == steps;
    hide ValidRun, RunRow, Matchable;
    HitWhereDecided(steps, blocks, instruments, row, n);
    RowAfter(steps, blocks, instruments, row, n, |steps|);
  }

  /** Where two rows may meet, an accepted run changes the table. */
  lemma MeetingRowsChange(blocks: seq<Block>, instruments: seq<Instrument>, table: seq<Coverage>, steps: seq<Step>)
    requires MayCollide(blocks, instruments, table) && ValidRun(steps, blocks, instruments)
    ensures RunTable(steps, table) != table
  {
    var i, j, n: nat, id :| 0 <= i < |table| && 0 <= j < |table| && i != j &&
      CanMeet(blocks, instruments, table[i], table[j], n, id);
    assert Decides(blocks, instruments, table[i], n);
    hide ValidRun, RunRow, CanMeet, Decides;
    DecidedRowChanges(blocks, instruments, steps, table[i], n);
    assert RunTable(steps, table)[i] == RunRow(steps, table[i]);
  }

  /** Where two rows may meet, no run changes the table exactly if none can commit. */
  lemma NoRunChangesIff(blocks: seq<Block>, instruments: seq<Instrument>, table: seq<Coverage>)
    requires KeysUnique(table) && MayCollide(blocks, instruments, table)
    ensures NoRunChanges(blocks, instruments, table) <==> !CanCommit(blocks, instruments, table)
  {
    SomeRunCommitsIff(blocks, instruments, table);
    hide ValidRun, ScanOrders, Accepted, CanCommit, MayCollide, KeysUnique, NoneEmpty, RunTable;
    if steps, scans :| Commits(blocks, instruments, table, steps, scans) {
      MeetingRowsChange(blocks, instruments, table, steps);
      assert Outcome(blocks, steps, table, scans) != table;
    } else {
      forall steps, scans | ValidRun(steps, blocks, instruments) && ScanOrders(scans, |table|)
        ensures Outcome(blocks, steps, table, scans) == table
      {
        assert !Commits(blocks, instruments, table, steps, scans);
      }
    }
  }

  /** The script is safe to re-run exactly if it is never applied, because a VALUES list is empty or no workable picks
      exist, or is always applied, because no two rows may meet. */
  lemma SafeToRerunIff(blocks: seq<Block>, instruments: seq<Instrument>, table: seq<Coverage>)
    requires KeysUnique(table)
    ensures SafeToRerun(blocks, instruments, table) <==>
              !CanCommit(blocks, instruments, table) || !MayCollide(blocks, instruments, table)
  {
    SafeToRerunByRuns(blocks, instruments, table);
    EveryRunCommitsIff(blocks, instruments, table);
    if MayCollide(blocks, instruments, table) {
      NoRunChangesIff(blocks, instruments, table);
    } else if !NoneEmpty(blocks) {
      EmptyListChangesNothing(blocks, instruments, table);
    }
    hide *;
  }

  lemma EmptyListChangesNothing(blocks: seq<Block>, instruments: seq<Instrument>, table: seq<Coverage>)
    requires !NoneEmpty(blocks)
    ensures NoRunChanges(blocks, instruments, table)
  {
  }
}
