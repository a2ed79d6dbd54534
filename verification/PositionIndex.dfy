/** The index from (portfolio, asset) to the one server position, and its lookup. */
module PositionIndex {
  import opened Options

  /** Ids may be missing or empty; both are skipped. */
  datatype Valuation = Valuation(assetId: Option<string>, positionId: Option<string>)

  datatype Portfolio = Portfolio(id: string, valuations: seq<Valuation>)

  predicate Truthy(s: Option<string>) {
    s.Some? && s.value != ""
  }

  /** The position ids published for an asset of a portfolio. */
  ghost function PositionIds(valuations: seq<Valuation>, assetId: string): set<string> {
    set v | v in valuations && Truthy(v.assetId) && Truthy(v.positionId) && v.assetId.value == assetId
      :: v.positionId.value
  }

  /** The index of one portfolio is right: an asset has an entry exactly if it has a single position id. */
  ghost predicate Resolves(resolved: map<string, string>, valuations: seq<Valuation>) {
    forall a, id :: (a in resolved && resolved[a] == id) <==> PositionIds(valuations, a) == {id}
  }

  lemma PositionIdsStep(valuations: seq<Valuation>, n: nat, a: string)
    requires n < |valuations|
    ensures var v := valuations[n];
            PositionIds(valuations[..n + 1], a) ==
            PositionIds(valuations[..n], a) +
            (if Truthy(v.assetId) && Truthy(v.positionId) && v.assetId.value == a then {v.positionId.value} else {})
  {
  }

  /** Group a portfolio's position ids by asset. */
  method IdsByAsset(valuations: seq<Valuation>) returns (idsByAsset: map<string, set<string>>)
    ensures forall a :: a in idsByAsset <==> PositionIds(valuations, a) != {}
    ensures forall a :: a in idsByAsset ==> idsByAsset[a] == PositionIds(valuations, a)
  {
    idsByAsset := map[];
    for n := 0 to |valuations|
      invariant forall a :: a in idsByAsset <==> PositionIds(valuations[..n], a) != {}
      invariant forall a :: a in idsByAsset ==> idsByAsset[a] == PositionIds(valuations[..n], a)
    {
      var v := valuations[n];
      forall a {
        PositionIdsStep(valuations, n, a);
      }
      if Truthy(v.assetId) && Truthy(v.positionId) {
        var ids := if v.assetId.value in idsByAsset then idsByAsset[v.assetId.value] else {};
        idsByAsset := idsByAsset[v.assetId.value := ids + {v.positionId.value}];
      }
    }
    assert valuations[..|valuations|] == valuations;
  }

  lemma SingletonIff(s: set<string>, x: string)
    requires x in s
    ensures |s| == 1 <==> s == {x}
  {
    if |s| == 1 {
      assert |s - {x}| == 0;
    }
  }

  /** Keep the assets with one position id. */
  method ResolvePortfolio(valuations: seq<Valuation>) returns (resolved: map<string, string>)
    ensures Resolves(resolved, valuations)
  {
    var idsByAsset := IdsByAsset(valuations);
    resolved := map[];
    var remaining := idsByAsset.Keys;
    while remaining != {}
      invariant remaining <= idsByAsset.Keys
      invariant forall a, id :: (a in resolved && resolved[a] == id) <==>
                  a in idsByAsset && a !in remaining && idsByAsset[a] == {id}
      decreases remaining
    {
      var assetId :| assetId in remaining;
      var ids := idsByAsset[assetId];
      var onlyId :| onlyId in ids;
      SingletonIff(ids, onlyId);
      assert onlyId in PositionIds(valuations, assetId);
      assert onlyId != "";
      ghost var before := resolved;
      if |ids| == 1 && onlyId != "" {
        resolved := resolved[assetId := onlyId];
      }
      remaining := remaining - {assetId};
      forall a, id
        ensures (a in resolved && resolved[a] == id) <==> a in idsByAsset && a !in remaining && idsByAsset[a] == {id}
      {
        assert (a in before && before[a] == id) <==>
               a in idsByAsset && a !in remaining + {assetId} && idsByAsset[a] == {id};
        if a == assetId {
          assert ids == {id} ==> onlyId in {id};
        }
      }
    }
    forall a, id ensures (a in resolved && resolved[a] == id) <==> PositionIds(valuations, a) == {id} {
      assert PositionIds(valuations, a) == {id} ==> id in PositionIds(valuations, a);
    }
  }

  /** The last portfolio with the given id. */
  function LastWithId(portfolios: seq<Portfolio>, id: string): Option<Portfolio> {
    if portfolios == [] then None
    else if portfolios[|portfolios| - 1].id == id then Some(portfolios[|portfolios| - 1])
    else LastWithId(portfolios[..|portfolios| - 1], id)
  }

  method PositionIdByPortfolioAsset(portfolios: seq<Portfolio>) returns (index: map<string, map<string, string>>)
    ensures forall p :: p in index <==> LastWithId(portfolios, p).Some?
    ensures forall p :: p in index ==> Resolves(index[p], LastWithId(portfolios, p).value.valuations)
  {
    index := map[];
    for n := 0 to |portfolios|
      invariant forall p :: p in index <==> LastWithId(portfolios[..n], p).Some?
      invariant forall p :: p in index ==> Resolves(index[p], LastWithId(portfolios[..n], p).value.valuations)
    {
      assert portfolios[..n + 1][..n] == portfolios[..n];
      var resolved := ResolvePortfolio(portfolios[n].valuations);
      index := index[portfolios[n].id := resolved];
    }
    assert portfolios[..|portfolios|] == portfolios;
  }

  /** `resolvePositionId` on the index. */
  function ResolvePositionId(index: map<string, map<string, string>>, portfolioId: string, assetId: Option<string>)
    : Option<string>
  {
    if !Truthy(assetId) then None
    else if portfolioId !in index then None
    else Lookup(index[portfolioId], assetId.value)
  }

  predicate DistinctPortfolios(portfolios: seq<Portfolio>) {
    forall i, j :: 0 <= i < j < |portfolios| ==> portfolios[i].id != portfolios[j].id
  }

  /** For portfolios with distinct ids, the last one with an id is the one with that id. */
  lemma {:induction false} LastWithIdOfDistinct(portfolios: seq<Portfolio>, id: string, p: Portfolio)
    requires DistinctPortfolios(portfolios)
    ensures LastWithId(portfolios, id) == Some(p) <==> p in portfolios && p.id == id
  {
    if portfolios != [] {
      var init, last := portfolios[..|portfolios| - 1], portfolios[|portfolios| - 1];
      LastWithIdOfDistinct(init, id, p);
      assert forall q :: q in portfolios <==> q in init || q == last;
      assert forall n :: 0 <= n < |init| ==> init[n] == portfolios[n] && init[n].id != last.id;
    }
  }

  /** A lookup gives a position id exactly when it is the only one published for the asset in that portfolio: two
      accounts holding the asset, or none, or an unknown portfolio, give no id. */
  method LookupPosition(portfolios: seq<Portfolio>, portfolioId: string, assetId: Option<string>)
    returns (r: Option<string>)
    requires DistinctPortfolios(portfolios)
    ensures forall id :: r == Some(id) <==>
              Truthy(assetId) && exists p :: p in portfolios && p.id == portfolioId &&
                                             PositionIds(p.valuations, assetId.value) == {id}
  {
    var index := PositionIdByPortfolioAsset(portfolios);
    r := ResolvePositionId(index, portfolioId, assetId);
    forall p ensures LastWithId(portfolios, portfolioId) == Some(p) <==> p in portfolios && p.id == portfolioId {
      LastWithIdOfDistinct(portfolios, portfolioId, p);
    }
    if portfolioId in index {
      assert LastWithId(portfolios, portfolioId).value in portfolios;
    }
  }

  /** The index is determined by the valuations as a collection: reordering them changes nothing. */
  lemma OrderIrrelevant(valuations: seq<Valuation>, reordered: seq<Valuation>,
                        r: map<string, string>, r': map<string, string>)
    requires multiset(valuations) == multiset(reordered)
    requires Resolves(r, valuations) && Resolves(r', reordered)
    ensures r == r'
  {
    forall v ensures v in valuations <==> v in reordered {
      assert v in multiset(valuations) <==> v in multiset(reordered);
    }
    forall a ensures PositionIds(valuations, a) == PositionIds(reordered, a) { }
    forall a ensures Lookup(r, a) == Lookup(r', a) {
      if a in r { assert PositionIds(valuations, a) == {r[a]}; }
      if a in r' { assert PositionIds(reordered, a) == {r'[a]}; }
    }
    SameLookups(r, r');
  }
}
