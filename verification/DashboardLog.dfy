/** The real-time dashboard's reducer on values: what each action means for the three maps, for the alert window
    and for the unread counter. */
module DashboardLog {
  import opened Options

  datatype PriceData = PriceData(price: real, change: real, changePercent: real, timestamp: int)

  datatype PortfolioData = PortfolioData(
    totalValue: real, totalCost: real, gainLoss: real, gainLossPercent: real, timestamp: int)

  type Fields = map<string, string>

  /** What the state's Maps hold. */
  datatype Value = Price(price: PriceData) | Portfolio(portfolio: PortfolioData) | Optimistic(fields: Fields)

  datatype Alert = Alert(id: string, kind: string, title: string, message: string, timestamp: int, acknowledged: bool)

  datatype Action =
    | UpdatePrice(assetId: string, price: PriceData)
    | UpdatePortfolio(portfolioId: string, portfolio: PortfolioData)
    | AddAlert(alert: Alert)
    | AcknowledgeAlert(alertId: string)
    | SetConnectionState(connected: bool, connecting: bool, error: Option<string>)
    | AddOptimisticUpdate(key: string, fields: Fields)
    | RemoveOptimisticUpdate(key: string)
    | ClearOptimisticUpdates

  const ALERT_LIMIT: nat := 50

  /** What a state shows: its maps' contents and its plain fields. */
  datatype View = View(
    prices: map<string, Value>, portfolios: map<string, Value>, optimistic: map<string, Value>,
    alerts: seq<Alert>, unread: nat, isConnected: bool, isConnecting: bool, connectionError: Option<string>)

  function Acknowledge(alerts: seq<Alert>, id: string): (r: seq<Alert>)
    ensures |r| == |alerts|
  {
    seq(|alerts|, i requires 0 <= i < |alerts| =>
      if alerts[i].id == id then alerts[i].(acknowledged := true) else alerts[i])
  }

  function Window(log: seq<Alert>): seq<Alert> {
    if |log| > ALERT_LIMIT then log[..ALERT_LIMIT] else log
  }

  function Step(v: View, a: Action): View {
    match a
    case UpdatePrice(id, data) => v.(prices := v.prices[id := Price(data)])
    case UpdatePortfolio(id, data) => v.(portfolios := v.portfolios[id := Portfolio(data)])
    case AddAlert(alert) =>
      v.(alerts := Window([alert] + v.alerts), unread := if alert.acknowledged then v.unread else v.unread + 1)
    case AcknowledgeAlert(id) =>
      v.(alerts := Acknowledge(v.alerts, id), unread := if v.unread == 0 then 0 else v.unread - 1)
    case SetConnectionState(connected, connecting, error) =>
      v.(isConnected := connected, isConnecting := connecting, connectionError := error)
    case AddOptimisticUpdate(key, fields) => v.(optimistic := v.optimistic[key := Optimistic(fields)])
    case RemoveOptimisticUpdate(key) => v.(optimistic := v.optimistic - {key})
    case ClearOptimisticUpdates => v.(optimistic := map[])
  }

  function Run(v: View, actions: seq<Action>): View {
    if actions == [] then v else Step(Run(v, actions[..|actions| - 1]), actions[|actions| - 1])
  }

  // --- the maps ---

  datatype MapOp = Set(key: string, value: Value) | Delete(key: string) | Clear

  function ApplyOp(m: map<string, Value>, op: MapOp): map<string, Value> {
    match op
    case Set(k, v) => m[k := v]
    case Delete(k) => m - {k}
    case Clear => map[]
  }

  function ApplyOps(m: map<string, Value>, ops: seq<MapOp>): map<string, Value> {
    if ops == [] then m else ApplyOp(ApplyOps(m, ops[..|ops| - 1]), ops[|ops| - 1])
  }

  function PriceOp(a: Action): seq<MapOp> {
    if a.UpdatePrice? then [Set(a.assetId, Price(a.price))] else []
  }

  function PortfolioOp(a: Action): seq<MapOp> {
    if a.UpdatePortfolio? then [Set(a.portfolioId, Portfolio(a.portfolio))] else []
  }

  function OptimisticOp(a: Action): seq<MapOp> {
    match a
    case AddOptimisticUpdate(key, fields) => [Set(key, Optimistic(fields))]
    case RemoveOptimisticUpdate(key) => [Delete(key)]
    case ClearOptimisticUpdates => [Clear]
    case _ => []
  }

  function PriceOps(actions: seq<Action>): seq<MapOp> {
    if actions == [] then [] else PriceOps(actions[..|actions| - 1]) + PriceOp(actions[|actions| - 1])
  }

  function PortfolioOps(actions: seq<Action>): seq<MapOp> {
    if actions == [] then [] else PortfolioOps(actions[..|actions| - 1]) + PortfolioOp(actions[|actions| - 1])
  }

  function OptimisticOps(actions: seq<Action>): seq<MapOp> {
    if actions == [] then [] else OptimisticOps(actions[..|actions| - 1]) + OptimisticOp(actions[|actions| - 1])
  }

  lemma ApplyOpsSnoc(m: map<string, Value>, ops: seq<MapOp>, more: seq<MapOp>)
    requires |more| <= 1
    ensures ApplyOps(m, ops + more) == if more == [] then ApplyOps(m, ops) else ApplyOp(ApplyOps(m, ops), more[0])
  {
    if more == [] {
      assert ops + more == ops;
    } else {
      assert (ops + more)[..|ops|] == ops;
    }
  }

  lemma StepOfMaps(v: View, a: Action)
    ensures var w := Step(v, a);
            && w.prices == (if PriceOp(a) == [] then v.prices else ApplyOp(v.prices, PriceOp(a)[0]))
            && w.portfolios == (if PortfolioOp(a) == [] then v.portfolios else ApplyOp(v.portfolios, PortfolioOp(a)[0]))
            && w.optimistic ==
                 (if OptimisticOp(a) == [] then v.optimistic else ApplyOp(v.optimistic, OptimisticOp(a)[0]))
    ensures |PriceOp(a)| <= 1 && |PortfolioOp(a)| <= 1 && |OptimisticOp(a)| <= 1
  {
  }

  /** A run writes each map independently of the others. */
  lemma {:induction false} RunOfMaps(v: View, actions: seq<Action>)
    ensures Run(v, actions).prices == ApplyOps(v.prices, PriceOps(actions))
    ensures Run(v, actions).portfolios == ApplyOps(v.portfolios, PortfolioOps(actions))
    ensures Run(v, actions).optimistic == ApplyOps(v.optimistic, OptimisticOps(actions))
  {
    if actions != [] {
      var init, last := actions[..|actions| - 1], actions[|actions| - 1];
      hide Step, PriceOp, PortfolioOp, OptimisticOp, ApplyOp, ApplyOps;
      RunOfMaps(v, init);
      StepOfMaps(Run(v, init), last);
      ApplyOpsSnoc(v.prices, PriceOps(init), PriceOp(last));
      ApplyOpsSnoc(v.portfolios, PortfolioOps(init), PortfolioOp(last));
      ApplyOpsSnoc(v.optimistic, OptimisticOps(init), OptimisticOp(last));
    }
  }

  predicate TouchesKey(op: MapOp, k: string) {
    op.Clear? || op.key == k
  }

  predicate Touches(ops: seq<MapOp>, k: string) {
    exists i :: 0 <= i < |ops| && TouchesKey(ops[i], k)
  }

  /** Last write wins: a key's entry is decided by the last operation that touches it. */
  lemma {:induction false} LastWriteWins(m: map<string, Value>, ops: seq<MapOp>, k: string, i: nat)
    requires i <= |ops| && forall j :: i <= j < |ops| ==> !TouchesKey(ops[j], k)
    ensures Lookup(ApplyOps(m, ops), k) ==
            if i == 0 then Lookup(m, k)
            else Lookup(ApplyOp(ApplyOps(m, ops[..i - 1]), ops[i - 1]), k)
    ensures i > 0 && TouchesKey(ops[i - 1], k) ==>
              Lookup(ApplyOps(m, ops), k) == if ops[i - 1].Set? then Some(ops[i - 1].value) else None
  {
    if i < |ops| {
      LastWriteWins(m, ops[..|ops| - 1], k, i);
      assert !TouchesKey(ops[|ops| - 1], k);
      assert i > 0 ==> ops[..|ops| - 1][..i - 1] == ops[..i - 1];
    } else {
      assert i > 0 ==> ops[..i - 1] == ops[..|ops| - 1];
    }
  }

  lemma {:induction false} TouchedKeyForgetsBase(m: map<string, Value>, m': map<string, Value>,
                                                 ops: seq<MapOp>, k: string)
    ensures Touches(ops, k) || Lookup(m, k) == Lookup(m', k) ==>
              Lookup(ApplyOps(m, ops), k) == Lookup(ApplyOps(m', ops), k)
    ensures !Touches(ops, k) ==> Lookup(ApplyOps(m, ops), k) == Lookup(m, k)
  {
    if ops != [] {
      var init, last := ops[..|ops| - 1], ops[|ops| - 1];
      TouchedKeyForgetsBase(m, m', init, k);
      assert forall i :: 0 <= i < |init| ==> init[i] == ops[i];
      assert Touches(ops, k) <==> Touches(init, k) || TouchesKey(last, k);
    }
  }

  /** What a run leaves behind in the Map object it started from: the entry of its first operation, if that is a
      `set`; every later operation works on a copy. */
  function Leak(m: map<string, Value>, ops: seq<MapOp>): map<string, Value> {
    if ops != [] && ops[0].Set? then m[ops[0].key := ops[0].value] else m
  }

  /** The leaked entry cannot be seen by a later run `ops` from the same base. */
  predicate LeakHidden(m: map<string, Value>, first: seq<MapOp>, ops: seq<MapOp>) {
    first != [] && first[0].Set? ==>
      Touches(ops, first[0].key) || Lookup(m, first[0].key) == Some(first[0].value)
  }

  lemma LeakHiddenIff(m: map<string, Value>, first: seq<MapOp>, ops: seq<MapOp>)
    ensures ApplyOps(Leak(m, first), ops) == ApplyOps(m, ops) <==> LeakHidden(m, first, ops)
  {
    var leaked, clean := ApplyOps(Leak(m, first), ops), ApplyOps(m, ops);
    forall k ensures k in leaked <==> Lookup(leaked, k).Some? { }
    if LeakHidden(m, first, ops) {
      forall k ensures Lookup(leaked, k) == Lookup(clean, k) {
        TouchedKeyForgetsBase(Leak(m, first), m, ops, k);
      }
      SameLookups(leaked, clean);
    } else {
      var k := first[0].key;
      TouchedKeyForgetsBase(Leak(m, first), m, ops, k);
      TouchedKeyForgetsBase(m, m, ops, k);
    }
  }

  /** Replaying the same operations hides their own leak. */
  lemma ReplayHidesLeak(m: map<string, Value>, ops: seq<MapOp>)
    ensures LeakHidden(m, ops, ops)
    ensures ApplyOps(Leak(m, ops), ops) == ApplyOps(m, ops)
  {
    LeakHiddenIff(m, ops, ops);
  }

  // --- what a view shows, action by action ---

  /** The connection fields are those of the last action that sets them, or the base's. */
  ghost predicate ShowsConnection(v: View, actions: seq<Action>, w: View) {
    && (forall n :: 0 <= n < |actions| && actions[n].SetConnectionState? &&
                    (forall m :: n < m < |actions| ==> !actions[m].SetConnectionState?) ==>
          && w.isConnected == actions[n].connected
          && w.isConnecting == actions[n].connecting
          && w.connectionError == actions[n].error)
    && ((forall n :: 0 <= n < |actions| ==> !actions[n].SetConnectionState?) ==>
          && w.isConnected == v.isConnected
          && w.isConnecting == v.isConnecting
          && w.connectionError == v.connectionError)
  }

  predicate UpdatesPrice(a: Action, id: string) {
    a.UpdatePrice? && a.assetId == id
  }

  /** An asset's price is the data of its last update, or the base's. */
  ghost predicate ShowsPrices(v: View, actions: seq<Action>, w: View) {
    && (forall n, id :: 0 <= n < |actions| && UpdatesPrice(actions[n], id) &&
                        (forall m :: n < m < |actions| ==> !UpdatesPrice(actions[m], id)) ==>
          Lookup(w.prices, id) == Some(Price(actions[n].price)))
    && (forall id :: (forall n :: 0 <= n < |actions| ==> !UpdatesPrice(actions[n], id)) ==>
          Lookup(w.prices, id) == Lookup(v.prices, id))
  }

  predicate UpdatesPortfolio(a: Action, id: string) {
    a.UpdatePortfolio? && a.portfolioId == id
  }

  /** A portfolio's values are the data of its last update, or the base's. */
  ghost predicate ShowsPortfolios(v: View, actions: seq<Action>, w: View) {
    && (forall n, id :: 0 <= n < |actions| && UpdatesPortfolio(actions[n], id) &&
                        (forall m :: n < m < |actions| ==> !UpdatesPortfolio(actions[m], id)) ==>
          Lookup(w.portfolios, id) == Some(Portfolio(actions[n].portfolio)))
    && (forall id :: (forall n :: 0 <= n < |actions| ==> !UpdatesPortfolio(actions[n], id)) ==>
          Lookup(w.portfolios, id) == Lookup(v.portfolios, id))
  }

  predicate ConcernsKey(a: Action, key: string) {
    || (a.AddOptimisticUpdate? && a.key == key)
    || (a.RemoveOptimisticUpdate? && a.key == key)
    || a.ClearOptimisticUpdates?
  }

  /** A key's optimistic update is the last one added, unless removed or cleared since, or the base's. */
  ghost predicate ShowsOptimistic(v: View, actions: seq<Action>, w: View) {
    && (forall n, key :: 0 <= n < |actions| && ConcernsKey(actions[n], key) &&
                         (forall m :: n < m < |actions| ==> !ConcernsKey(actions[m], key)) ==>
          Lookup(w.optimistic, key) ==
          if actions[n].AddOptimisticUpdate? then Some(Optimistic(actions[n].fields)) else None)
    && (forall key :: (forall n :: 0 <= n < |actions| ==> !ConcernsKey(actions[n], key)) ==>
          Lookup(w.optimistic, key) == Lookup(v.optimistic, key))
  }

  ghost predicate Shows(v: View, actions: seq<Action>, w: View) {
    && ShowsConnection(v, actions, w)
    && ShowsPrices(v, actions, w)
    && ShowsPortfolios(v, actions, w)
    && ShowsOptimistic(v, actions, w)
  }

  lemma RunLast(v: View, actions: seq<Action>)
    requires actions != []
    ensures Run(v, actions) == Step(Run(v, actions[..|actions| - 1]), actions[|actions| - 1])
  {
  }

  lemma StepOfConnection(v: View, a: Action)
    ensures var w := Step(v, a);
            if a.SetConnectionState? then
              w.isConnected == a.connected && w.isConnecting == a.connecting && w.connectionError == a.error
            else
              && w.isConnected == v.isConnected
              && w.isConnecting == v.isConnecting
              && w.connectionError == v.connectionError
  {
  }

  lemma {:induction false} ConnectionOfRun(v: View, actions: seq<Action>, n: nat)
    requires n <= |actions| && forall m :: n <= m < |actions| ==> !actions[m].SetConnectionState?
    requires n > 0 ==> actions[n - 1].SetConnectionState?
    ensures var w := Run(v, actions);
            if n == 0 then
              && w.isConnected == v.isConnected
              && w.isConnecting == v.isConnecting
              && w.connectionError == v.connectionError
            else
              && w.isConnected == actions[n - 1].connected
              && w.isConnecting == actions[n - 1].connecting
              && w.connectionError == actions[n - 1].error
  {
    if actions != [] {
      hide Run, Step;
      RunLast(v, actions);
      StepOfConnection(Run(v, actions[..|actions| - 1]), actions[|actions| - 1]);
      if n < |actions| {
        ConnectionOfRun(v, actions[..|actions| - 1], n);
      }
    }
  }

  lemma {:induction false} PriceOfRun(v: View, actions: seq<Action>, id: string, n: nat)
    requires n <= |actions| && forall m :: n <= m < |actions| ==> !UpdatesPrice(actions[m], id)
    requires n > 0 ==> UpdatesPrice(actions[n - 1], id)
    ensures Lookup(Run(v, actions).prices, id) ==
            if n == 0 then Lookup(v.prices, id) else Some(Price(actions[n - 1].price))
  {
    if actions != [] {
      RunLast(v, actions);
      hide Run;
      if n < |actions| {
        PriceOfRun(v, actions[..|actions| - 1], id, n);
        assert !UpdatesPrice(actions[|actions| - 1], id);
      }
    }
  }

  lemma {:induction false} PortfolioOfRun(v: View, actions: seq<Action>, id: string, n: nat)
    requires n <= |actions| && forall m :: n <= m < |actions| ==> !UpdatesPortfolio(actions[m], id)
    requires n > 0 ==> UpdatesPortfolio(actions[n - 1], id)
    ensures Lookup(Run(v, actions).portfolios, id) ==
            if n == 0 then Lookup(v.portfolios, id) else Some(Portfolio(actions[n - 1].portfolio))
  {
    if actions != [] {
      RunLast(v, actions);
      hide Run;
      if n < |actions| {
        PortfolioOfRun(v, actions[..|actions| - 1], id, n);
        assert !UpdatesPortfolio(actions[|actions| - 1], id);
      }
    }
  }

  lemma {:induction false} OptimisticOfRun(v: View, actions: seq<Action>, key: string, n: nat)
    requires n <= |actions| && forall m :: n <= m < |actions| ==> !ConcernsKey(actions[m], key)
    requires n > 0 ==> ConcernsKey(actions[n - 1], key)
    ensures Lookup(Run(v, actions).optimistic, key) ==
            if n == 0 then Lookup(v.optimistic, key)
            else if actions[n - 1].AddOptimisticUpdate? then Some(Optimistic(actions[n - 1].fields))
            else None
  {
    if actions != [] {
      RunLast(v, actions);
      hide Run;
      if n < |actions| {
        OptimisticOfRun(v, actions[..|actions| - 1], key, n);
        assert !ConcernsKey(actions[|actions| - 1], key);
      }
    }
  }

  /** Every run shows the last updates. */
  lemma RunShows(v: View, actions: seq<Action>)
    ensures Shows(v, actions, Run(v, actions))
  {
    hide *;
    RunShowsConnection(v, actions);
    RunShowsPrices(v, actions);
    RunShowsPortfolios(v, actions);
    RunShowsOptimistic(v, actions);
    ShowsAll(v, actions, Run(v, actions));
  }

  lemma ShowsAll(v: View, actions: seq<Action>, w: View)
    requires ShowsConnection(v, actions, w) && ShowsPrices(v, actions, w)
    requires ShowsPortfolios(v, actions, w) && ShowsOptimistic(v, actions, w)
    ensures Shows(v, actions, w)
  {
  }

  lemma RunShowsConnection(v: View, actions: seq<Action>)
    ensures ShowsConnection(v, actions, Run(v, actions))
  {
    hide Run;
    forall n | 0 <= n < |actions| && actions[n].SetConnectionState? &&
               forall m :: n < m < |actions| ==> !actions[m].SetConnectionState?
      ensures Run(v, actions).isConnected == actions[n].connected
      ensures Run(v, actions).isConnecting == actions[n].connecting
      ensures Run(v, actions).connectionError == actions[n].error
    {
      ConnectionOfRun(v, actions, n + 1);
    }
    if forall n :: 0 <= n < |actions| ==> !actions[n].SetConnectionState? {
      ConnectionOfRun(v, actions, 0);
    }
  }

  lemma RunShowsPrices(v: View, actions: seq<Action>)
    ensures ShowsPrices(v, actions, Run(v, actions))
  {
    hide Run, Lookup;
    forall n, id | 0 <= n < |actions| && UpdatesPrice(actions[n], id) &&
                   forall m :: n < m < |actions| ==> !UpdatesPrice(actions[m], id)
      ensures Lookup(Run(v, actions).prices, id) == Some(Price(actions[n].price))
    {
      PriceOfRun(v, actions, id, n + 1);
    }
    forall id | forall n :: 0 <= n < |actions| ==> !UpdatesPrice(actions[n], id)
      ensures Lookup(Run(v, actions).prices, id) == Lookup(v.prices, id)
    {
      PriceOfRun(v, actions, id, 0);
    }
  }

  lemma RunShowsPortfolios(v: View, actions: seq<Action>)
    ensures ShowsPortfolios(v, actions, Run(v, actions))
  {
    hide Run, Lookup;
    forall n, id | 0 <= n < |actions| && UpdatesPortfolio(actions[n], id) &&
                   forall m :: n < m < |actions| ==> !UpdatesPortfolio(actions[m], id)
      ensures Lookup(Run(v, actions).portfolios, id) == Some(Portfolio(actions[n].portfolio))
    {
      PortfolioOfRun(v, actions, id, n + 1);
    }
    forall id | forall n :: 0 <= n < |actions| ==> !UpdatesPortfolio(actions[n], id)
      ensures Lookup(Run(v, actions).portfolios, id) == Lookup(v.portfolios, id)
    {
      PortfolioOfRun(v, actions, id, 0);
    }
  }

  lemma RunShowsOptimistic(v: View, actions: seq<Action>)
    ensures ShowsOptimistic(v, actions, Run(v, actions))
  {
    hide Run, ConcernsKey, Lookup;
    forall n, key | 0 <= n < |actions| && ConcernsKey(actions[n], key) &&
                    forall m :: n < m < |actions| ==> !ConcernsKey(actions[m], key)
      ensures Lookup(Run(v, actions).optimistic, key) ==
              if actions[n].AddOptimisticUpdate? then Some(Optimistic(actions[n].fields)) else None
    {
      OptimisticOfRun(v, actions, key, n + 1);
    }
    forall key | forall n :: 0 <= n < |actions| ==> !ConcernsKey(actions[n], key)
      ensures Lookup(Run(v, actions).optimistic, key) == Lookup(v.optimistic, key)
    {
      OptimisticOfRun(v, actions, key, 0);
    }
  }

  /** A new alert comes first and pushes out what exceeds fifty; an acknowledgement marks the alerts with its id and
      changes nothing else in the list. */
  lemma NextAlerts(v: View, a: Action)
    ensures var w := Step(v, a);
            match a
            case AddAlert(alert) =>
              && |w.alerts| <= 50 && w.alerts <= [alert] + v.alerts
              && (|w.alerts| == 50 || |w.alerts| == |v.alerts| + 1)
            case AcknowledgeAlert(id) =>
              && |w.alerts| == |v.alerts|
              && forall i :: 0 <= i < |w.alerts| ==>
                   w.alerts[i] == v.alerts[i].(acknowledged := v.alerts[i].id == id || v.alerts[i].acknowledged)
            case _ => w.alerts == v.alerts
  {
  }

  // --- the alerts ---

  function LogStep(log: seq<Alert>, a: Action): seq<Alert> {
    match a
    case AddAlert(alert) => [alert] + log
    case AcknowledgeAlert(id) => Acknowledge(log, id)
    case _ => log
  }

  /** The newest-first log of every alert, without the window. */
  function Log(log: seq<Alert>, actions: seq<Action>): seq<Alert> {
    if actions == [] then log else LogStep(Log(log, actions[..|actions| - 1]), actions[|actions| - 1])
  }

  /** The state's alerts are the first 50 of the log. */
  lemma {:induction false} AlertsAreLogWindow(v: View, log: seq<Alert>, actions: seq<Action>)
    requires v.alerts == Window(log)
    ensures Run(v, actions).alerts == Window(Log(log, actions))
    ensures |Log(log, actions)| <= 50 ==> Run(v, actions).alerts == Log(log, actions)
    ensures |Log(log, actions)| > 50 ==> Run(v, actions).alerts == Log(log, actions)[..50]
  {
    if actions != [] {
      AlertsAreLogWindow(v, log, actions[..|actions| - 1]);
      var before := Log(log, actions[..|actions| - 1]);
      if actions[|actions| - 1].AddAlert? {
        WindowOfAdd(before, actions[|actions| - 1].alert);
      } else if actions[|actions| - 1].AcknowledgeAlert? {
        WindowOfAcknowledge(before, actions[|actions| - 1].alertId);
      }
    }
  }

  lemma WindowOfAdd(log: seq<Alert>, alert: Alert)
    ensures Window([alert] + Window(log)) == Window([alert] + log)
  {
  }

  lemma WindowOfAcknowledge(log: seq<Alert>, id: string)
    ensures Acknowledge(Window(log), id) == Window(Acknowledge(log, id))
  {
  }

  function Unacknowledged(log: seq<Alert>): nat {
    if log == [] then 0 else (if log[0].acknowledged then 0 else 1) + Unacknowledged(log[1..])
  }

  /** How many unacknowledged alerts an acknowledgement of `id` clears. */
  function Cleared(log: seq<Alert>, id: string): nat {
    if log == [] then 0
    else (if log[0].id == id && !log[0].acknowledged then 1 else 0) + Cleared(log[1..], id)
  }

  lemma {:induction false} AcknowledgeCount(log: seq<Alert>, id: string)
    ensures Unacknowledged(Acknowledge(log, id)) == Unacknowledged(log) - Cleared(log, id)
  {
    if log != [] {
      AcknowledgeCount(log[1..], id);
      assert Acknowledge(log, id)[1..] == Acknowledge(log[1..], id);
    }
  }

  /** One action keeps the counter right exactly if it is no acknowledgement, or one that clears one alert, or one that
      finds nothing unacknowledged; and keeps it from exceeding the count exactly if an acknowledgement clears at most
      one alert more than the counter lags behind, or the counter is 0 already. */
  lemma StepOfUnread(v: View, log: seq<Alert>, a: Action)
    ensures v.unread == Unacknowledged(log) ==>
              (Step(v, a).unread == Unacknowledged(LogStep(log, a)) <==>
               (a.AcknowledgeAlert? ==> Cleared(log, a.alertId) == 1 || Unacknowledged(log) == 0))
    ensures v.unread <= Unacknowledged(log) ==>
              (Step(v, a).unread <= Unacknowledged(LogStep(log, a)) <==>
               (a.AcknowledgeAlert? ==>
                  v.unread == 0 || Cleared(log, a.alertId) <= Unacknowledged(log) - v.unread + 1))
  {
    if a.AcknowledgeAlert? {
      AcknowledgeCount(log, a.alertId);
    } else if a.AddAlert? {
      assert ([a.alert] + log)[1..] == log;
    }
  }

  /** The counter is right after every action. */
  ghost predicate AlwaysExact(v: View, log: seq<Alert>, actions: seq<Action>) {
    forall n :: 0 <= n <= |actions| ==> Run(v, actions[..n]).unread == Unacknowledged(Log(log, actions[..n]))
  }

  /** After the first n actions the counter does not exceed the log's unacknowledged count. */
  ghost predicate Within(v: View, log: seq<Alert>, actions: seq<Action>, n: nat)
    requires n <= |actions|
  {
    Run(v, actions[..n]).unread <= Unacknowledged(Log(log, actions[..n]))
  }

  /** The counter never exceeds the number of unacknowledged alerts ever received. */
  ghost predicate NeverExceeds(v: View, log: seq<Alert>, actions: seq<Action>) {
    forall n: nat :: n <= |actions| ==> Within(v, log, actions, n)
  }

  /** Every acknowledgement clears exactly one alert, or comes when there is none to clear. */
  ghost predicate AcksExact(log: seq<Alert>, actions: seq<Action>) {
    forall n :: 0 <= n < |actions| && actions[n].AcknowledgeAlert? ==>
      Cleared(Log(log, actions[..n]), actions[n].alertId) == 1 || Unacknowledged(Log(log, actions[..n])) == 0
  }

  function Change(a: Action): int {
    if a.AddAlert? && !a.alert.acknowledged then 1 else if a.AcknowledgeAlert? then -1 else 0
  }

  /** Unacknowledged additions less acknowledgements among the actions i to n-1. */
  function Net(actions: seq<Action>, i: nat, n: nat): int
    requires n <= |actions|
  {
    if n <= i then 0 else Net(actions, i, n - 1) + Change(actions[n - 1])
  }

  /** The net of all actions so far, counted from the start, and of those from any point on are at most `room`. */
  ghost predicate NetBounded(start: nat, actions: seq<Action>, n: nat, room: int)
    requires n <= |actions|
  {
    start + Net(actions, 0, n) <= room && forall i :: 0 <= i <= n ==> Net(actions, i, n) <= room
  }

  lemma NetBoundedStep(start: nat, actions: seq<Action>, n: nat, room: nat)
    requires 0 < n <= |actions|
    ensures NetBounded(start, actions, n, room) <==> NetBounded(start, actions, n - 1, room - Change(actions[n - 1]))
  {
    forall i: nat | i < n ensures Net(actions, i, n) == Net(actions, i, n - 1) + Change(actions[n - 1]) { }
    assert Net(actions, n, n) == 0 && Net(actions, n - 1, n - 1) == 0;
    hide Net;
    var m, less := n - 1, room - Change(actions[n - 1]);
    if NetBounded(start, actions, n, room) {
      forall i | 0 <= i <= m ensures Net(actions, i, m) <= less {
        assert Net(actions, i, n) <= room;
      }
    }
    if NetBounded(start, actions, m, less) {
      forall i | 0 <= i <= n ensures Net(actions, i, n) <= room {
        assert i < n ==> Net(actions, i, m) <= less;
      }
    }
  }

  /** The counter is the largest of these nets: its floor at 0 forgets what was before. */
  lemma {:induction false} CounterAtMost(v: View, actions: seq<Action>, n: nat, room: int)
    requires n <= |actions|
    ensures Run(v, actions[..n]).unread <= room <==> NetBounded(v.unread, actions, n, room)
  {
    if room < 0 {
      assert Net(actions, n, n) == 0;
    } else if n > 0 {
      assert actions[..n][..n - 1] == actions[..n - 1];
      var before := Run(v, actions[..n - 1]);
      assert Run(v, actions[..n]) == Step(before, actions[n - 1]);
      hide Net, Run, NetBounded;
      NetBoundedStep(v.unread, actions, n, room);
      CounterAtMost(v, actions, n - 1, room - Change(actions[n - 1]));
    }
  }

  /** One more than the unacknowledged alerts that acknowledgement n leaves. */
  function Room(log: seq<Alert>, actions: seq<Action>, n: nat): int
    requires n < |actions| && actions[n].AcknowledgeAlert?
  {
    Unacknowledged(Log(log, actions[..n])) - Cleared(Log(log, actions[..n]), actions[n].alertId) + 1
  }

  /** Before every acknowledgement, neither all additions and acknowledgements so far nor those from any point on have
      a net that exceeds its room. */
  ghost predicate AcksBounded(start: nat, log: seq<Alert>, actions: seq<Action>) {
    forall n :: 0 <= n < |actions| && actions[n].AcknowledgeAlert? ==>
      NetBounded(start, actions, n, Room(log, actions, n))
  }

  lemma RunUpTo(v: View, log: seq<Alert>, actions: seq<Action>, n: nat)
    requires n < |actions|
    ensures Run(v, actions[..n + 1]) == Step(Run(v, actions[..n]), actions[n])
    ensures Log(log, actions[..n + 1]) == LogStep(Log(log, actions[..n]), actions[n])
  {
    assert actions[..n + 1][..n] == actions[..n];
  }

  /** For every run, with repeated alert ids or not: the counter equals the log's unacknowledged count after every
      action exactly when every acknowledgement clears one alert or comes when there is none to clear. */
  lemma UnreadExactIff(v: View, log: seq<Alert>, actions: seq<Action>)
    requires v.unread == Unacknowledged(log)
    ensures AlwaysExact(v, log, actions) <==> AcksExact(log, actions)
  {
    hide Step, LogStep, Run, Log, Cleared, Unacknowledged;
    if AlwaysExact(v, log, actions) {
      forall n | 0 <= n < |actions| && actions[n].AcknowledgeAlert?
        ensures Cleared(Log(log, actions[..n]), actions[n].alertId) == 1 || Unacknowledged(Log(log, actions[..n])) == 0
      {
        RunUpTo(v, log, actions, n);
        StepOfUnread(Run(v, actions[..n]), Log(log, actions[..n]), actions[n]);
      }
    } else if AcksExact(log, actions) {
      forall n | 0 <= n <= |actions| ensures Run(v, actions[..n]).unread == Unacknowledged(Log(log, actions[..n])) {
        ExactAfter(v, log, actions, n);
      }
    }
  }

  lemma {:induction false} ExactAfter(v: View, log: seq<Alert>, actions: seq<Action>, n: nat)
    requires v.unread == Unacknowledged(log) && AcksExact(log, actions) && n <= |actions|
    ensures Run(v, actions[..n]).unread == Unacknowledged(Log(log, actions[..n]))
  {
    if n > 0 {
      hide Step, LogStep, Run, Log, Cleared, Unacknowledged;
      ExactAfter(v, log, actions, n - 1);
      RunUpTo(v, log, actions, n - 1);
      StepOfUnread(Run(v, actions[..n - 1]), Log(log, actions[..n - 1]), actions[n - 1]);
    }
  }

  lemma {:induction false} ClearedAtMost(log: seq<Alert>, id: string)
    ensures Cleared(log, id) <= Unacknowledged(log)
  {
    if log != [] {
      ClearedAtMost(log[1..], id);
    }
  }

  /** An action keeps the counter within the count exactly if it is no acknowledgement or the net of the actions before
      it is bounded. */
  lemma StepOfBound(v: View, log: seq<Alert>, actions: seq<Action>, n: nat)
    requires n < |actions| && Within(v, log, actions, n)
    ensures Within(v, log, actions, n + 1) <==>
              (actions[n].AcknowledgeAlert? ==> NetBounded(v.unread, actions, n, Room(log, actions, n)))
  {
    hide Run, Log, Cleared, Unacknowledged, Net, NetBounded;
    var before := Log(log, actions[..n]);
    RunUpTo(v, log, actions, n);
    StepOfUnread(Run(v, actions[..n]), before, actions[n]);
    if actions[n].AcknowledgeAlert? {
      AcknowledgeCount(before, actions[n].alertId);
      ClearedAtMost(before, actions[n].alertId);
      CounterAtMost(v, actions, n, Room(log, actions, n));
    }
  }

  /** For every run: the counter never exceeds the count exactly when the additions and acknowledgements before every
      acknowledgement are bounded as in `AcksBounded`. */
  lemma NeverExceedsIff(v: View, log: seq<Alert>, actions: seq<Action>)
    requires v.unread <= Unacknowledged(log)
    ensures NeverExceeds(v, log, actions) <==> AcksBounded(v.unread, log, actions)
  {
    hide Within, NetBounded, Room, Unacknowledged;
    if NeverExceeds(v, log, actions) {
      forall n | 0 <= n < |actions| && actions[n].AcknowledgeAlert?
        ensures NetBounded(v.unread, actions, n, Room(log, actions, n))
      {
        assert Within(v, log, actions, n) && Within(v, log, actions, n + 1);
        StepOfBound(v, log, actions, n);
      }
    } else if AcksBounded(v.unread, log, actions) {
      forall n: nat | n <= |actions| ensures Within(v, log, actions, n) {
        BoundedAfter(v, log, actions, n);
      }
    }
  }

  lemma WithinAtStart(v: View, log: seq<Alert>, actions: seq<Action>)
    requires v.unread <= Unacknowledged(log)
    ensures Within(v, log, actions, 0)
  {
  }

  lemma {:induction false} BoundedAfter(v: View, log: seq<Alert>, actions: seq<Action>, n: nat)
    requires v.unread <= Unacknowledged(log) && AcksBounded(v.unread, log, actions) && n <= |actions|
    ensures Within(v, log, actions, n)
  {
    hide Within, NetBounded, Room, Unacknowledged;
    if n > 0 {
      BoundedAfter(v, log, actions, n - 1);
      StepOfBound(v, log, actions, n - 1);
    } else {
      WithinAtStart(v, log, actions);
    }
  }

  /** No acknowledgement clears two alerts at once. */
  ghost predicate AcksClearAtMostOne(log: seq<Alert>, actions: seq<Action>) {
    forall n :: 0 <= n < |actions| && actions[n].AcknowledgeAlert? ==>
      Cleared(Log(log, actions[..n]), actions[n].alertId) <= 1
  }

  /** If no acknowledgement clears two alerts at once, the counter never exceeds the number of unacknowledged alerts
      ever received, however often an alert is added again. */
  lemma UnreadNeverExceeds(v: View, log: seq<Alert>, actions: seq<Action>)
    requires v.unread <= Unacknowledged(log) && AcksClearAtMostOne(log, actions)
    ensures NeverExceeds(v, log, actions)
  {
    hide Within, Unacknowledged, AcksClearAtMostOne;
    forall n: nat | n <= |actions| ensures Within(v, log, actions, n) {
      AtMostOneAfter(v, log, actions, n);
    }
  }

  lemma {:induction false} AtMostOneAfter(v: View, log: seq<Alert>, actions: seq<Action>, n: nat)
    requires v.unread <= Unacknowledged(log) && AcksClearAtMostOne(log, actions) && n <= |actions|
    ensures Within(v, log, actions, n)
  {
    if n > 0 {
      hide Step, LogStep, Run, Log, Cleared, Unacknowledged;
      AtMostOneAfter(v, log, actions, n - 1);
      RunUpTo(v, log, actions, n - 1);
      StepOfUnread(Run(v, actions[..n - 1]), Log(log, actions[..n - 1]), actions[n - 1]);
    } else {
      WithinAtStart(v, log, actions);
    }
  }

  predicate DistinctIds(log: seq<Alert>) {
    forall i, j :: 0 <= i < j < |log| ==> log[i].id != log[j].id
  }

  /** The alert named is in the log and still unacknowledged. */
  predicate Names(log: seq<Alert>, id: string) {
    exists i :: 0 <= i < |log| && log[i].id == id && !log[i].acknowledged
  }

  lemma {:induction false} ClearedOfAbsent(log: seq<Alert>, id: string)
    requires forall i :: 0 <= i < |log| ==> log[i].id != id
    ensures Cleared(log, id) == 0
  {
    if log != [] {
      ClearedOfAbsent(log[1..], id);
    }
  }

  /** With distinct ids an acknowledgement clears the alert it names, if that is still unacknowledged. */
  lemma {:induction false} ClearedOfDistinct(log: seq<Alert>, id: string)
    requires DistinctIds(log)
    ensures Cleared(log, id) == if Names(log, id) then 1 else 0
  {
    if log != [] {
      if log[0].id == id {
        assert forall i :: 0 <= i < |log[1..]| ==> log[1..][i] == log[i + 1];
        ClearedOfAbsent(log[1..], id);
      } else {
        ClearedOfDistinct(log[1..], id);
        NamesTail(log, id);
      }
    }
  }

  lemma NamesTail(log: seq<Alert>, id: string)
    requires log != [] && log[0].id != id
    ensures Names(log, id) <==> Names(log[1..], id)
  {
  }

  /** Ids of an earlier log are distinct if those of a later one are. */
  lemma DistinctBefore(log: seq<Alert>, a: Action)
    requires DistinctIds(LogStep(log, a))
    ensures DistinctIds(log)
  {
    if a.AddAlert? {
      forall i, j | 0 <= i < j < |log| ensures log[i].id != log[j].id {
        assert ([a.alert] + log)[i + 1] == log[i] && ([a.alert] + log)[j + 1] == log[j];
      }
    } else if a.AcknowledgeAlert? {
      assert forall i :: 0 <= i < |log| ==> Acknowledge(log, a.alertId)[i].id == log[i].id;
    }
  }

  lemma {:induction false} DistinctPrefix(log: seq<Alert>, actions: seq<Action>, n: nat)
    requires n <= |actions| && DistinctIds(Log(log, actions))
    ensures DistinctIds(Log(log, actions[..n]))
  {
    if n == |actions| {
      assert actions[..n] == actions;
    } else {
      var init := actions[..|actions| - 1];
      DistinctBefore(Log(log, init), actions[|actions| - 1]);
      DistinctPrefix(log, init, n);
      assert init[..n] == actions[..n];
    }
  }

  /** With distinct alert ids the counter never exceeds the count, and is always right exactly when every
      acknowledgement names a still-unacknowledged alert or comes when there is none. */
  lemma UnreadOfDistinctIds(v: View, log: seq<Alert>, actions: seq<Action>)
    requires DistinctIds(Log(log, actions)) && v.unread == Unacknowledged(log)
    ensures NeverExceeds(v, log, actions)
    ensures AlwaysExact(v, log, actions) <==>
              forall n :: 0 <= n < |actions| && actions[n].AcknowledgeAlert? ==>
                Names(Log(log, actions[..n]), actions[n].alertId) || Unacknowledged(Log(log, actions[..n])) == 0
  {
    hide Step, LogStep, Run, Log, Cleared, Unacknowledged, DistinctIds, Names;
    forall n | 0 <= n < |actions| && actions[n].AcknowledgeAlert?
      ensures Cleared(Log(log, actions[..n]), actions[n].alertId) ==
              if Names(Log(log, actions[..n]), actions[n].alertId) then 1 else 0
    {
      DistinctPrefix(log, actions, n);
      ClearedOfDistinct(Log(log, actions[..n]), actions[n].alertId);
    }
    UnreadNeverExceeds(v, log, actions);
    UnreadExactIff(v, log, actions);
  }

  /** Repeated ids break the bound: one acknowledgement clears two alerts but counts once. */
  lemma RepeatedIdOvercounts(v: View, a: Alert)
    requires v.unread == 0 && v.alerts == [] && !a.acknowledged
    ensures var actions := [AddAlert(a), AddAlert(a), AcknowledgeAlert(a.id)];
            Run(v, actions).unread == 1 && Unacknowledged(Log([], actions)) == 0
  {
    var one, two := [AddAlert(a)], [AddAlert(a), AddAlert(a)];
    var three := two + [AcknowledgeAlert(a.id)];
    assert three[..2] == two && two[..1] == one && one[..0] == [];
    assert three == [AddAlert(a), AddAlert(a), AcknowledgeAlert(a.id)];
    assert Run(v, one).unread == 1 && Run(v, two).unread == 2;
    assert Log([], one) == [a] && Log([], two) == [a, a];
    var cleared := Log([], three);
    assert |cleared| == 2 && cleared[0].acknowledged && cleared[1].acknowledged;
    assert Unacknowledged(cleared[1..]) == 0;
  }
}
