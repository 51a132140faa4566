/**
 * The ETF-aware holdings ledger of one trader (`TraderStateWithETF`).
 *
 * Trades and own-order changes on the designated ETF asset are fanned out
 * over the ETF's component assets, each scaled by its weight; everything
 * else is handed to the base ledger, whose rules are not part of this model
 * and enter only as the function values of a `BaseLedger`.
 */
module TraderState {
  import opened Dicts
  import opened Orders

  /** Cash and per-asset quantities, each both available and settled. */
  datatype Holdings = Holdings(
    availableCash: int,
    settledCash: int,
    availableAssets: map<string, int>,
    settledAssets: map<string, int>)

  /** The designated ETF asset and its composition (component -> unit weight). */
  datatype EtfSpec = EtfSpec(etfAssetName: string, composition: Entries<int>)

  /** The base class's update rules for plain assets, left uninterpreted. */
  datatype BaseLedger = BaseLedger(
    updateHoldingsTrade: (Holdings, int, int, bool, string) -> Holdings,
    updateHoldingsAvailable: (Holdings, Order, bool) -> Holdings)

  /** The unit weight of `asset` in the composition, 0 when it is not a component. */
  function Weight(comp: Entries<int>, asset: string): int {
    if asset in Keys(comp) then Lookup(comp, asset) else 0
  }

  /** Every component has a slot in the dictionary the update touches. */
  predicate Covers(comp: Entries<int>, m: map<string, int>) {
    Keys(comp) <= m.Keys
  }

  /**
   * The loop over `Object.entries(etfComposition)`: add `factor * weight` to
   * each component's entry, one component after the other.
   */
  function AddComposition(m: map<string, int>, comp: Entries<int>, factor: int): (r: map<string, int>)
    requires DistinctKeys(comp) && Covers(comp, m)
    ensures r.Keys == m.Keys
    ensures forall a :: a in m ==> r[a] == m[a] + factor * Weight(comp, a)
    decreases |comp|
  {
    if |comp| == 0 then m
    else
      var (asset, amount) := comp[0];
      assert Keys(comp) == {asset} + Keys(comp[1..]);
      assert asset !in Keys(comp[1..]);
      assert forall a :: a in Keys(comp[1..]) ==> Lookup(comp[1..], a) == Lookup(comp, a);
      AddComposition(AddAt(m, asset, factor * amount), comp[1..], factor)
  }

  /** Scaling by the negated volume subtracts what scaling by the volume adds. */
  lemma NegatedFactor(volume: int, comp: Entries<int>)
    ensures forall a :: -volume * Weight(comp, a) == -(volume * Weight(comp, a))
    ensures forall a :: volume * 1 * Weight(comp, a) == volume * Weight(comp, a)
  {
  }

  /** The ETF spec is usable on these holdings: distinct components, each with a slot. */
  predicate EtfReady(etf: EtfSpec, h: Holdings) {
    && DistinctKeys(etf.composition)
    && Covers(etf.composition, h.availableAssets)
    && Covers(etf.composition, h.settledAssets)
  }

  /**
   * `update_holdings_trade`: a settled trade leg at `price` for `volume` units.
   * A bid on the ETF adds `volume * weight` of every component to both the
   * available and the settled quantities and pays `price * volume` from both
   * cash fields; an ask does the opposite.
   */
  function UpdateHoldingsTrade(etf: EtfSpec, base: BaseLedger, h: Holdings,
                               price: int, volume: int, isBid: bool, assetName: string): (r: Holdings)
    requires assetName == etf.etfAssetName ==> EtfReady(etf, h)
    ensures assetName != etf.etfAssetName ==> r == base.updateHoldingsTrade(h, price, volume, isBid, assetName)
    ensures assetName == etf.etfAssetName ==>
      && r.availableAssets.Keys == h.availableAssets.Keys
      && r.settledAssets.Keys == h.settledAssets.Keys
    ensures assetName == etf.etfAssetName && isBid ==>
      && (forall a :: a in h.availableAssets ==>
            r.availableAssets[a] == h.availableAssets[a] + volume * Weight(etf.composition, a))
      && (forall a :: a in h.settledAssets ==>
            r.settledAssets[a] == h.settledAssets[a] + volume * Weight(etf.composition, a))
      && r.availableCash == h.availableCash - price * volume
      && r.settledCash == h.settledCash - price * volume
    ensures assetName == etf.etfAssetName && !isBid ==>
      && (forall a :: a in h.availableAssets ==>
            r.availableAssets[a] == h.availableAssets[a] - volume * Weight(etf.composition, a))
      && (forall a :: a in h.settledAssets ==>
            r.settledAssets[a] == h.settledAssets[a] - volume * Weight(etf.composition, a))
      && r.availableCash == h.availableCash + price * volume
      && r.settledCash == h.settledCash + price * volume
  {
    if assetName != etf.etfAssetName then
      base.updateHoldingsTrade(h, price, volume, isBid, assetName)
    else if isBid then
      Holdings(
        h.availableCash - price * volume,
        h.settledCash - price * volume,
        AddComposition(h.availableAssets, etf.composition, volume),
        AddComposition(h.settledAssets, etf.composition, volume))
    else
      NegatedFactor(volume, etf.composition);
      Holdings(
        h.availableCash + price * volume,
        h.settledCash + price * volume,
        AddComposition(h.availableAssets, etf.composition, -volume),
        AddComposition(h.settledAssets, etf.composition, -volume))
  }

  /**
   * `update_holdings_available`: the trader's own order entered (`removed`
   * false) or left (`removed` true) the book. Only an ask on the ETF is
   * handled here: it reserves, or releases, `volume * weight` of every
   * component's available quantity.
   */
  function UpdateHoldingsAvailable(etf: EtfSpec, base: BaseLedger, h: Holdings,
                                   order: Order, removed: bool): (r: Holdings)
    requires !order.isBid && order.assetName == etf.etfAssetName ==> EtfReady(etf, h)
    ensures order.isBid || order.assetName != etf.etfAssetName ==>
      r == base.updateHoldingsAvailable(h, order, removed)
    ensures !order.isBid && order.assetName == etf.etfAssetName ==>
      && r.availableCash == h.availableCash
      && r.settledCash == h.settledCash
      && r.settledAssets == h.settledAssets
      && r.availableAssets.Keys == h.availableAssets.Keys
      && (forall a :: a in h.availableAssets ==>
           r.availableAssets[a] == h.availableAssets[a]
             + (if removed then order.volume * Weight(etf.composition, a) else -(order.volume * Weight(etf.composition, a))))
  {
    if order.isBid || order.assetName != etf.etfAssetName then
      base.updateHoldingsAvailable(h, order, removed)
    else
      var sign := if removed then 1 else -1;
      NegatedFactor(order.volume, etf.composition);
      h.(availableAssets := AddComposition(h.availableAssets, etf.composition, order.volume * sign))
  }

  /** An ETF trade touches only the components: every other slot, the ETF's own included, keeps its quantity. */
  lemma EtfTradeFrame(etf: EtfSpec, base: BaseLedger, h: Holdings, price: int, volume: int, isBid: bool, a: string)
    requires EtfReady(etf, h)
    requires a !in Keys(etf.composition)
    ensures var r := UpdateHoldingsTrade(etf, base, h, price, volume, isBid, etf.etfAssetName);
      && (a in h.availableAssets ==> r.availableAssets[a] == h.availableAssets[a])
      && (a in h.settledAssets ==> r.settledAssets[a] == h.settledAssets[a])
  {
  }

  /** An ETF bid trade followed by the ETF ask trade at the same price and volume restores the holdings. */
  lemma EtfBidThenAskRestores(etf: EtfSpec, base: BaseLedger, h: Holdings, price: int, volume: int)
    requires EtfReady(etf, h)
    ensures var name := etf.etfAssetName;
      var bought := UpdateHoldingsTrade(etf, base, h, price, volume, true, name);
      EtfReady(etf, bought) &&
      UpdateHoldingsTrade(etf, base, bought, price, volume, false, name) == h
  {
    var name := etf.etfAssetName;
    var bought := UpdateHoldingsTrade(etf, base, h, price, volume, true, name);
    var sold := UpdateHoldingsTrade(etf, base, bought, price, volume, false, name);
    forall a | a in h.availableAssets
      ensures sold.availableAssets[a] == h.availableAssets[a]
    {
      var d := volume * Weight(etf.composition, a);
      assert bought.availableAssets[a] == h.availableAssets[a] + d;
      assert sold.availableAssets[a] == bought.availableAssets[a] - d;
    }
    forall a | a in h.settledAssets
      ensures sold.settledAssets[a] == h.settledAssets[a]
    {
      var d := volume * Weight(etf.composition, a);
      assert bought.settledAssets[a] == h.settledAssets[a] + d;
      assert sold.settledAssets[a] == bought.settledAssets[a] - d;
    }
    assert sold.availableAssets == h.availableAssets;
    assert sold.settledAssets == h.settledAssets;
  }

  /** Placing an ETF ask and then removing it leaves the holdings as they were. */
  lemma EtfAskPlaceThenRemoveRestores(etf: EtfSpec, base: BaseLedger, h: Holdings, order: Order)
    requires EtfReady(etf, h)
    requires !order.isBid && order.assetName == etf.etfAssetName
    ensures var placed := UpdateHoldingsAvailable(etf, base, h, order, false);
      EtfReady(etf, placed) &&
      UpdateHoldingsAvailable(etf, base, placed, order, true) == h
  {
    var placed := UpdateHoldingsAvailable(etf, base, h, order, false);
    var restored := UpdateHoldingsAvailable(etf, base, placed, order, true);
    assert restored.availableAssets == h.availableAssets;
  }
}
