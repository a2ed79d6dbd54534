/** The dashboard reducer on the heap. `map.set(...)` inside the reducer mutates the old state's Map before it is
    copied, so the old state changes under the reader's feet; this module says exactly how. */
module Dashboard {
  import opened Options
  import opened DashboardLog

  /** A JavaScript Map object. */
  class JsMap {
    var entries: map<string, Value>

    constructor ()
      ensures entries == map[]
    {
      entries := map[];
    }

    method Put(k: string, v: Value)
      modifies this
      ensures entries == old(entries)[k := v]
    {
      entries := entries[k := v];
    }

    method Remove(k: string)
      modifies this
      ensures entries == old(entries) - {k}
    {
      entries := entries - {k};
    }
  }

  /** `new Map()` */
  method EmptyMap() returns (m: JsMap)
    ensures fresh(m) && m.entries == map[]
  {
    m := new JsMap();
  }

  /** `new Map(other)` */
  method CopyMap(other: JsMap) returns (m: JsMap)
    ensures fresh(m) && m.entries == other.entries
  {
    m := new JsMap();
    m.entries := other.entries;
  }

  /** A state object: its fields never change, but its Map objects do. */
  datatype State = State(
    assetPrices: JsMap, portfolioValues: JsMap, optimisticUpdates: JsMap,
    alerts: seq<Alert>, unreadAlertCount: nat,
    isConnected: bool, isConnecting: bool, connectionError: Option<string>)
  {
    ghost function Maps(): set<JsMap> {
      {assetPrices, portfolioValues, optimisticUpdates}
    }

    /** The three Maps are three objects. */
    ghost predicate NoAlias() {
      && assetPrices != portfolioValues
      && assetPrices != optimisticUpdates
      && portfolioValues != optimisticUpdates
    }

    ghost function Show(): View
      reads assetPrices, portfolioValues, optimisticUpdates
    {
      View(assetPrices.entries, portfolioValues.entries, optimisticUpdates.entries,
           alerts, unreadAlertCount, isConnected, isConnecting, connectionError)
    }
  }

  const EMPTY_VIEW := View(map[], map[], map[], [], 0, false, false, None)

  /** `initialState`: one module-level object shared by every mount of the provider. */
  method InitialState() returns (s: State)
    ensures s.NoAlias() && fresh(s.Maps()) && s.Show() == EMPTY_VIEW
  {
    var p := EmptyMap();
    var q := EmptyMap();
    var o := EmptyMap();
    s := State(p, q, o, [], 0, false, false, None);
  }

  /** One reducer call: the new state shows the action applied to what the old state showed; a map the action works
      on is a fresh object in the new state, and a `set` action has also written the old state's object. */
  method Reduce(state: State, action: Action) returns (next: State)
    requires state.NoAlias()
    modifies state.assetPrices, state.portfolioValues, state.optimisticUpdates
    ensures next.NoAlias()
    ensures next.Show() == Step(old(state.Show()), action)
    ensures if action.SetConnectionState? then
              && next.isConnected == action.connected
              && next.isConnecting == action.connecting
              && next.connectionError == action.error
            else
              && next.isConnected == state.isConnected
              && next.isConnecting == state.isConnecting
              && next.connectionError == state.connectionError
    ensures if PriceOp(action) == [] then next.assetPrices == state.assetPrices else fresh(next.assetPrices)
    ensures if PortfolioOp(action) == [] then next.portfolioValues == state.portfolioValues
            else fresh(next.portfolioValues)
    ensures if OptimisticOp(action) == [] then next.optimisticUpdates == state.optimisticUpdates
            else fresh(next.optimisticUpdates)
    ensures state.assetPrices.entries == Leak(old(state.assetPrices.entries), PriceOp(action))
    ensures state.portfolioValues.entries == Leak(old(state.portfolioValues.entries), PortfolioOp(action))
    ensures state.optimisticUpdates.entries == Leak(old(state.optimisticUpdates.entries), OptimisticOp(action))
  {
    match action {
      case UpdatePrice(assetId, data) =>
        state.assetPrices.Put(assetId, Price(data));
        var copy := CopyMap(state.assetPrices);
        next := state.(assetPrices := copy);
      case UpdatePortfolio(portfolioId, data) =>
        state.portfolioValues.Put(portfolioId, Portfolio(data));
        var copy := CopyMap(state.portfolioValues);
        next := state.(portfolioValues := copy);
      case AddAlert(alert) =>
        next := state.(
          alerts := Window([alert] + state.alerts),
          unreadAlertCount := if alert.acknowledged then state.unreadAlertCount else state.unreadAlertCount + 1);
      case AcknowledgeAlert(alertId) =>
        next := state.(
          alerts := Acknowledge(state.alerts, alertId),
          unreadAlertCount := if state.unreadAlertCount == 0 then 0 else state.unreadAlertCount - 1);
      case SetConnectionState(connected, connecting, error) =>
        next := state.(isConnected := connected, isConnecting := connecting, connectionError := error);
      case AddOptimisticUpdate(key, data) =>
        state.optimisticUpdates.Put(key, Optimistic(data));
        var copy := CopyMap(state.optimisticUpdates);
        next := state.(optimisticUpdates := copy);
      case RemoveOptimisticUpdate(key) =>
        var copy := CopyMap(state.optimisticUpdates);
        copy.Remove(key);
        next := state.(optimisticUpdates := copy);
      case ClearOptimisticUpdates =>
        var empty := EmptyMap();
        next := state.(optimisticUpdates := empty);
    }
  }

  lemma LeakOfConcat(m: map<string, Value>, ops: seq<MapOp>, more: seq<MapOp>)
    ensures Leak(m, ops + more) == if ops == [] then Leak(m, more) else Leak(m, ops)
    ensures ops == [] ==> Leak(m, ops) == m
    ensures ops + more == [] <==> ops == [] && more == []
  {
  }

  lemma OpsStep(v: View, actions: seq<Action>)
    requires actions != []
    ensures var init, last := actions[..|actions| - 1], actions[|actions| - 1];
            && PriceOps(actions) == PriceOps(init) + PriceOp(last)
            && PortfolioOps(actions) == PortfolioOps(init) + PortfolioOp(last)
            && OptimisticOps(actions) == OptimisticOps(init) + OptimisticOp(last)
            && Run(v, actions) == Step(Run(v, init), last)
  {
  }

  /** Any sequence of actions, each reduced from the state before it. A map that no action worked on is still the
      base's object; any other is fresh, and the base's object keeps the entry of the first `set`. */
  method ReduceAll(base: State, actions: seq<Action>) returns (state: State)
    requires base.NoAlias()
    modifies base.assetPrices, base.portfolioValues, base.optimisticUpdates
    ensures state.NoAlias()
    ensures state.Show() == Run(old(base.Show()), actions)
    ensures base.assetPrices.entries == Leak(old(base.assetPrices.entries), PriceOps(actions))
    ensures if PriceOps(actions) == [] then state.assetPrices == base.assetPrices else fresh(state.assetPrices)
    ensures base.portfolioValues.entries == Leak(old(base.portfolioValues.entries), PortfolioOps(actions))
    ensures if PortfolioOps(actions) == [] then state.portfolioValues == base.portfolioValues
            else fresh(state.portfolioValues)
    ensures base.optimisticUpdates.entries == Leak(old(base.optimisticUpdates.entries), OptimisticOps(actions))
    ensures if OptimisticOps(actions) == [] then state.optimisticUpdates == base.optimisticUpdates
            else fresh(state.optimisticUpdates)
    decreases |actions|
  {
    if actions == [] {
      return base;
    }
    hide Step, Run, PriceOp, PortfolioOp, OptimisticOp, PriceOps, PortfolioOps, OptimisticOps, Leak;
    ghost var v := base.Show();
    var init, last := actions[..|actions| - 1], actions[|actions| - 1];
    OpsStep(v, actions);
    LeakOfConcat(v.prices, PriceOps(init), PriceOp(last));
    LeakOfConcat(v.portfolios, PortfolioOps(init), PortfolioOp(last));
    LeakOfConcat(v.optimistic, OptimisticOps(init), OptimisticOp(last));
    var before := ReduceAll(base, init);
    state := Reduce(before, last);
  }

  /** The same, and what the last state shows, action by action: its connection fields and the entries of its maps are
      those of the last action that sets them, or the base's. */
  method RunActions(base: State, actions: seq<Action>) returns (state: State)
    requires base.NoAlias()
    modifies base.assetPrices, base.portfolioValues, base.optimisticUpdates
    ensures state.NoAlias()
    ensures state.Show() == Run(old(base.Show()), actions)
    ensures Shows(old(base.Show()), actions, state.Show())
    ensures base.assetPrices.entries == Leak(old(base.assetPrices.entries), PriceOps(actions))
    ensures if PriceOps(actions) == [] then state.assetPrices == base.assetPrices else fresh(state.assetPrices)
    ensures base.portfolioValues.entries == Leak(old(base.portfolioValues.entries), PortfolioOps(actions))
    ensures if PortfolioOps(actions) == [] then state.portfolioValues == base.portfolioValues
            else fresh(state.portfolioValues)
    ensures base.optimisticUpdates.entries == Leak(old(base.optimisticUpdates.entries), OptimisticOps(actions))
    ensures if OptimisticOps(actions) == [] then state.optimisticUpdates == base.optimisticUpdates
            else fresh(state.optimisticUpdates)
  {
    hide Run, Leak, Shows, PriceOps, PortfolioOps, OptimisticOps;
    RunShows(base.Show(), actions);
    state := ReduceAll(base, actions);
  }

  /** Reducing the same whole sequence twice from the same base object shows the same both times, although the first
      pass has mutated the base. */
  method Replay(base: State, actions: seq<Action>) returns (once: State, twice: State)
    requires base.NoAlias()
    modifies base.assetPrices, base.portfolioValues, base.optimisticUpdates
    ensures once.Show() == Run(old(base.Show()), actions)
    ensures twice.Show() == Run(old(base.Show()), actions)
    ensures PriceOps(actions) != [] ==> once.assetPrices != twice.assetPrices
  {
    once := RunActions(base, actions);
    twice := RunActions(base, actions);
    RunOfMaps(old(base.Show()), actions);
    ghost var leaked := View(
      Leak(old(base.assetPrices.entries), PriceOps(actions)),
      Leak(old(base.portfolioValues.entries), PortfolioOps(actions)),
      Leak(old(base.optimisticUpdates.entries), OptimisticOps(actions)),
      base.alerts, base.unreadAlertCount, base.isConnected, base.isConnecting, base.connectionError);
    RunOfLeaked(old(base.Show()), leaked, actions, actions);
    ReplayHidesLeak(old(base.assetPrices.entries), PriceOps(actions));
    ReplayHidesLeak(old(base.portfolioValues.entries), PortfolioOps(actions));
    ReplayHidesLeak(old(base.optimisticUpdates.entries), OptimisticOps(actions));
  }

  /** What a run of `first` leaves in its base. */
  ghost predicate LeakedView(v: View, leaked: View, first: seq<Action>) {
    && leaked.prices == Leak(v.prices, PriceOps(first))
    && leaked.portfolios == Leak(v.portfolios, PortfolioOps(first))
    && leaked.optimistic == Leak(v.optimistic, OptimisticOps(first))
    && SameFields(v, leaked)
  }

  /** No leaked entry of `first` can be seen by `actions`. */
  predicate NothingShowsThrough(v: View, first: seq<Action>, actions: seq<Action>) {
    && LeakHidden(v.prices, PriceOps(first), PriceOps(actions))
    && LeakHidden(v.portfolios, PortfolioOps(first), PortfolioOps(actions))
    && LeakHidden(v.optimistic, OptimisticOps(first), OptimisticOps(actions))
  }

  /** The views differ at most in their maps. */
  ghost predicate SameFields(v: View, w: View) {
    w == v.(prices := w.prices, portfolios := w.portfolios, optimistic := w.optimistic)
  }

  lemma StepOfFields(v: View, w: View, a: Action)
    requires SameFields(v, w)
    ensures SameFields(Step(v, a), Step(w, a))
  {
  }

  lemma {:induction false} RunOfFields(v: View, w: View, actions: seq<Action>)
    requires SameFields(v, w)
    ensures SameFields(Run(v, actions), Run(w, actions))
  {
    if actions != [] {
      hide Step, SameFields;
      var init, last := actions[..|actions| - 1], actions[|actions| - 1];
      RunOfFields(v, w, init);
      StepOfFields(Run(v, init), Run(w, init), last);
    }
  }

  /** A run from a leaked base shows the same as one from the original base exactly when nothing shows through. */
  lemma RunOfLeaked(v: View, leaked: View, first: seq<Action>, actions: seq<Action>)
    requires LeakedView(v, leaked, first)
    ensures Run(leaked, actions) == Run(v, actions) <==> NothingShowsThrough(v, first, actions)
  {
    hide LeakHidden, Leak;
    RunOfFields(v, leaked, actions);
    RunOfMaps(v, actions);
    RunOfMaps(leaked, actions);
    LeakHiddenIff(v.prices, PriceOps(first), PriceOps(actions));
    LeakHiddenIff(v.portfolios, PortfolioOps(first), PortfolioOps(actions));
    LeakHiddenIff(v.optimistic, OptimisticOps(first), OptimisticOps(actions));
  }

  /** Two mounts of the provider share `initialState`: the second starts clean exactly when its own actions cover
      whatever entry the first mount wrote into the shared Maps. */
  method Remount(first: seq<Action>, second: seq<Action>) returns (state: State)
    ensures state.Show() == Run(EMPTY_VIEW, second) <==> NothingShowsThrough(EMPTY_VIEW, first, second)
  {
    var initial := InitialState();
    var mounted := RunActions(initial, first);
    ghost var leaked := initial.Show();
    state := RunActions(initial, second);
    RunOfLeaked(EMPTY_VIEW, leaked, first, second);
  }

  /** For example, a price set by one mount is shown by the next one before any of its own updates. */
  method RemountShowsOldPrice(assetId: string, price: PriceData) returns (state: State)
    ensures state.assetPrices.entries == map[assetId := Price(price)] && state.Show() != EMPTY_VIEW
  {
    var initial := InitialState();
    var first := [UpdatePrice(assetId, price)];
    assert first[..0] == [] && PriceOps(first) == [Set(assetId, Price(price))];
    var mounted := RunActions(initial, first);
    state := RunActions(initial, []);
    assert assetId in state.Show().prices && assetId !in EMPTY_VIEW.prices;
  }

  /** The same, seen from the condition. */
  lemma OldPriceShowsThrough(assetId: string, price: PriceData)
    ensures !NothingShowsThrough(EMPTY_VIEW, [UpdatePrice(assetId, price)], [])
  {
    var first := [UpdatePrice(assetId, price)];
    assert first[..0] == [] && PriceOps(first) == [Set(assetId, Price(price))];
    assert !Touches(PriceOps([]), assetId);
  }
}
