/**
 * Facts that tie the components together: the ledger's ETF fan-out against
 * the payoff rule, and the entered-order record against the book counters.
 */
module Consistency {
  import opened Wrappers
  import opened Dicts
  import opened Orders
  import opened Assets
  import opened TraderState
  import opened AssetTable
  import opened AssetCell
  import opened Models
  import ConfigManager

  /** The ETF is configured as the payoff rule expects: its components are plain assets with a payoff in `state`. */
  predicate EtfConfigured(structure: Structure, etfName: string, state: string) {
    && DistinctKeys(structure)
    && etfName in Keys(structure)
    && var spec := Lookup(structure, etfName);
       && spec.isEtf
       && DistinctKeys(spec.etfWeights)
       && forall c :: c in Keys(spec.etfWeights) ==>
            c in Keys(structure) && !Lookup(structure, c).isEtf && state in Lookup(structure, c).payoffs
  }

  /** Adding `d` to one settled quantity moves the portfolio value by that asset's value times `d`. */
  lemma {:induction false} ValueAfterPointUpdate(structure: Structure, assets: Structure, m: map<string, int>,
                                                 c: string, d: int, state: string)
    requires DistinctKeys(assets) && c in m
    requires forall i :: 0 <= i < |assets| ==> Valuable(structure, assets[i].0, state) && assets[i].0 in m
    requires c in Keys(assets) ==> Valuable(structure, c, state)
    ensures forall i :: 0 <= i < |assets| ==> assets[i].0 in AddAt(m, c, d)
    ensures PortfolioValue(structure, assets, AddAt(m, c, d), state)
         == PortfolioValue(structure, assets, m, state)
            + (if c in Keys(assets) then AssetValue(structure, c, state) * d else 0)
    decreases |assets|
  {
    if |assets| > 0 {
      var tail := assets[1..];
      assert Keys(assets) == {assets[0].0} + Keys(tail);
      assert forall i :: 0 <= i < |tail| ==> tail[i] == assets[i + 1];
      assert assets[0].0 == c ==> c !in Keys(tail);
      ValueAfterPointUpdate(structure, tail, m, c, d, state);
      var v := AssetValue(structure, assets[0].0, state);
      if assets[0].0 == c {
        assert v * (m[c] + d) == v * m[c] + v * d;
      }
    }
  }

  /**
   * Fanning `factor` units of the ETF out over its components moves the
   * settled portfolio value by `factor` times the ETF's value.
   */
  lemma {:induction false} ValueAfterComposition(structure: Structure, m: map<string, int>,
                                                 comp: Entries<int>, factor: int, state: string)
    requires PayoffReady(structure, m, state)
    requires DistinctKeys(comp) && Covers(comp, m)
    requires forall c :: c in Keys(comp) ==>
      c in Keys(structure) && !Lookup(structure, c).isEtf && state in Lookup(structure, c).payoffs
    ensures PayoffReady(structure, AddComposition(m, comp, factor), state)
    ensures SettledValue(structure, AddComposition(m, comp, factor), state)
         == SettledValue(structure, m, state) + factor * ComponentSum(structure, comp, state)
    decreases |comp|
  {
    if |comp| > 0 {
      var (c, w) := comp[0];
      var rest := comp[1..];
      assert Keys(comp) == {c} + Keys(rest);
      assert c !in Keys(rest);
      assert forall k :: k in Keys(rest) ==> Lookup(rest, k) == Lookup(comp, k);
      var m1 := AddAt(m, c, factor * w);
      assert AddComposition(m, comp, factor) == AddComposition(m1, rest, factor);
      var p := Lookup(structure, c).payoffs[state];
      assert AssetValue(structure, c, state) == p;
      ValueAfterPointUpdate(structure, structure, m, c, factor * w, state);
      var v0 := SettledValue(structure, m, state);
      var v1 := SettledValue(structure, m1, state);
      assert v1 == v0 + p * (factor * w);
      ValueAfterComposition(structure, m1, rest, factor, state);
      var rs := ComponentSum(structure, rest, state);
      assert ComponentSum(structure, comp, state) == p * w + rs;
      Distribute(factor, p, w, rs);
    }
  }

  lemma Distribute(f: int, p: int, w: int, rs: int)
    ensures p * (f * w) + f * rs == f * (p * w + rs)
  {
  }

  /**
   * Value conservation of an ETF trade: a bid of `volume` ETF units at
   * `price` adds `volume` times the ETF's value in every state to the
   * settled portfolio and pays `price * volume` in settled cash; an ask
   * does the reverse.
   */
  lemma EtfTradeSettledValue(structure: Structure, etfName: string, base: BaseLedger, h: Holdings,
                             price: int, volume: int, isBid: bool, state: string)
    requires EtfConfigured(structure, etfName, state)
    requires PayoffReady(structure, h.settledAssets, state)
    requires EtfReady(EtfSpec(etfName, Lookup(structure, etfName).etfWeights), h)
    ensures var etf := EtfSpec(etfName, Lookup(structure, etfName).etfWeights);
      var r := UpdateHoldingsTrade(etf, base, h, price, volume, isBid, etfName);
      && PayoffReady(structure, r.settledAssets, state)
      && SettledValue(structure, r.settledAssets, state)
         == SettledValue(structure, h.settledAssets, state)
            + (if isBid then volume else -volume) * AssetValue(structure, etfName, state)
      && r.settledCash == h.settledCash + (if isBid then -(price * volume) else price * volume)
  {
    var weights := Lookup(structure, etfName).etfWeights;
    ValueAfterComposition(structure, h.settledAssets, weights, if isBid then volume else -volume, state);
  }

  /** The book order an entered order becomes once the market accepts it from trader `pcode`. */
  function Accepted(entered: EnteredOrder, pcode: string): Order {
    Order(pcode, entered.assetName, entered.isBid, entered.price, entered.volume)
  }

  /**
   * An entered order that reaches the book as a one-order insertion raises
   * the counter of its asset by exactly one and leaves every other counter
   * as it was.
   */
  lemma EnteredOrderCounted(names: set<string>, book: seq<Order>, pcode: string,
                            entered: EnteredOrder, index: int)
    requires entered.assetName in names
    requires OwnedAssetsListed(book, pcode, names)
    requires 0 <= index <= |book|
    ensures var after := book[..index] + [Accepted(entered, pcode)] + book[index..];
      var counts := ApplySplice(Tally(names, book, pcode), Splice(index, [], 1, after), pcode);
      && SpliceApplicable(Splice(index, [], 1, after), pcode, names)
      && counts == Tally(names, after, pcode)
      && counts[entered.assetName] == CountOwned(book, pcode, entered.assetName) + 1
      && forall a :: a in names && a != entered.assetName ==> counts[a] == CountOwned(book, pcode, a)
  {
    var order := Accepted(entered, pcode);
    var after := book[..index] + [order] + book[index..];
    var s := Splice(index, [], 1, after);
    assert after[index] == order;
    assert OwnedAssetsListed(after, pcode, names) by {
      forall i | 0 <= i < |after| && OwnedBy(after[i], pcode)
        ensures after[i].assetName in names
      {
        if i < index {
          assert after[i] == book[i];
        } else if i > index {
          assert after[i] == book[i - 1];
        }
      }
    }
    assert SpliceStep(book, s, after) by {
      assert Added(s) == [order];
      assert book[index..index] == [];
      assert book[..index] + book[index..] == book;
    }
    SpliceKeepsTally(names, book, s, after, pcode);
    forall a | a in names
      ensures CountOwned(after, pcode, a)
           == CountOwned(book, pcode, a) + (if a == entered.assetName then 1 else 0)
    {
      CountOwnedAppend(book[..index] + [order], book[index..], pcode, a);
      CountOwnedAppend(book[..index], [order], pcode, a);
      CountOwnedAppend(book[..index], book[index..], pcode, a);
      assert [order][1..] == [];
      assert book[..index] + book[index..] == book;
    }
  }

  /**
   * The held cells show the endowment: on the dict `Player.asset_endowment`
   * hands out, each asset's cell is that asset's selected endowment.
   */
  lemma HeldCellShowsEndowment(structure: Structure, idInGroup: int, i: int)
    requires DistinctKeys(structure) && EndowmentsCover(structure, idInGroup)
    requires 0 <= i < |structure|
    ensures var endowed := AssetEndowment(structure, idInGroup);
      && endowed.Success?
      && GetHeldAsset(structure[i].0, Some(endowed.value))
         == Some(SelectEndowment(structure[i].1.endowment, idInGroup).value)
  {
  }

  /**
   * The held cells follow the ledger: after an ETF trade, a component's
   * available and settled cells move by `volume * weight` in the trade's
   * direction, and an asset the ledger has no slot for shows nothing.
   */
  lemma HeldCellAfterEtfTrade(etf: EtfSpec, base: BaseLedger, h: Holdings,
                              price: int, volume: int, isBid: bool, a: string)
    requires EtfReady(etf, h)
    ensures var r := UpdateHoldingsTrade(etf, base, h, price, volume, isBid, etf.etfAssetName);
      var delta := if isBid then volume * Weight(etf.composition, a) else -(volume * Weight(etf.composition, a));
      && GetHeldAsset(a, Some(r.availableAssets))
         == (if a in h.availableAssets then Some(h.availableAssets[a] + delta) else None)
      && GetHeldAsset(a, Some(r.settledAssets))
         == (if a in h.settledAssets then Some(h.settledAssets[a] + delta) else None)
  {
    var r := UpdateHoldingsTrade(etf, base, h, price, volume, isBid, etf.etfAssetName);
    var w := volume * Weight(etf.composition, a);
    if a in h.availableAssets {
      assert r.availableAssets[a] == h.availableAssets[a] + (if isBid then w else -w);
    }
    if a in h.settledAssets {
      assert r.settledAssets[a] == h.settledAssets[a] + (if isBid then w else -w);
    }
  }

  /**
   * The round gate of `creating_session` and the round data of `get` agree:
   * a round is grouped exactly when `get` found round data for it, so the
   * group size is never read from a config past the last round.
   */
  lemma RoundGateMatchesRoundData<V, P>(caches: ConfigManager.Caches<V>, fs: ConfigManager.FileSystem,
                                        loaders: ConfigManager.Loaders<V>, sessionConfigName: string,
                                        roundNumber: int, players: seq<P>, ppg: int)
    requires roundNumber >= 1
    requires ConfigManager.Get(caches, fs, loaders, sessionConfigName, roundNumber).config.Success?
    ensures var config := ConfigManager.Get(caches, fs, loaders, sessionConfigName, roundNumber).config.value;
      && (roundNumber <= config.numRounds <==> config.roundData.Some?)
      && (CreatingSession(roundNumber, config.numRounds, players, ppg) == Success(None) <==>
            config.roundData.None?)
      && (roundNumber <= config.numRounds ==>
            ConfigManager.GetField(config, "players_per_group") != Failure(ConfigManager.NoRoundData))
  {
    var config := ConfigManager.Get(caches, fs, loaders, sessionConfigName, roundNumber).config.value;
    if roundNumber <= config.numRounds {
      assert CreatingSession(roundNumber, config.numRounds, players, ppg) != Success(None);
    }
  }
}
