# otree_etf_cda — a Dafny model of the ETF trading core

This project models the parts of the oTree continuous double auction with an
ETF (a composite asset) that keep numbers correct:

- the trader's **holdings ledger**, where a trade or an own-order change on the
  ETF is fanned out over the ETF's component assets, each scaled by its weight
  (`TraderState`, trader_state.dfy);
- the **requested/offered counters** of the asset table, recomputed in full
  from the bid and ask arrays or updated incrementally from the arrays'
  splice records, with gcd-reduced probabilities, ETF payoffs and the
  table's cell rules (`AssetTable`, asset_table.dfy);
- the **round rules** of `models.py`: grouping, the round gate, endowments and
  the final payoff (`Models`, models.dfy), valuing assets through the shared
  asset structure (`Assets`, assets.dfy);
- **configuration resolution** (`ConfigManager`, config_manager.dfy): the
  mtime-keyed caches, the row-over-round-config merge and field lookup;
- the market cell's **trade label and order entry** (`AssetCell`,
  asset_cell.dfy);
- facts that tie these together (`Consistency`, consistency.dfy):
  - an ETF trade moves the settled portfolio value by exactly `volume` times
    the ETF's value;
  - an entered order raises exactly its own asset's counter by one;
  - the held cells show the endowment, and after an ETF trade they show the
    ledger's quantities;
  - the round gate of session creation agrees with the round data `get`
    returns.

Shared pieces: `Wrappers` (Option/Result), `Dicts` (ordered entry lists for
iterated JavaScript objects and Python dicts, point updates of counters) and
`Orders` (order and trade records).

Everything is pure: records in, records out. The file system, the clock
(modification times), the CSV/YAML/JSON readers, the currency scaler, the
float parser and the base ledger's plain-asset rules are parameters. The
participant code is a parameter.

The in-place mutation in `ETFConfig.get` is reproduced rather than hidden:
`ConfigManager.Get` writes the merged dict back into the round cache, and
`ConfigManager.OverridePersists` proves the consequence for the next read. A
session-config cell that overrides a field for one round is still in force for
a later round that reuses the same round-config file, as long as that file is
not modified, the later row does not override the field itself, and no round
read in between that reuses the file overrides it either.
`ConfigManager.LaterOverrideWins` covers that last case: the most recent
override is the one a later round sees. A `get` past the last session row
leaves the round cache as it was, so it does not disturb a persisted override.

## Model

| member | source | states |
|---|---|---|
| `Dicts.AddAt` | static/otree_etf_cda/asset_table.js:253-256 | `_updateSubproperty` changes only the named key, by exactly `amount`; the key set is unchanged |
| `TraderState.AddComposition` | static/otree_etf_cda/trader_state_index.js:20-23 | the loop over the ETF composition adds `factor * weight` to every component and leaves every other entry alone |
| `TraderState.UpdateHoldingsTrade` | static/otree_etf_cda/trader_state_index.js:13-37 | non-ETF trades go to the base rule unchanged; an ETF bid adds `volume*weight` of every component to available and settled quantities and takes `price*volume` from both cash fields; an ETF ask does the opposite |
| `TraderState.UpdateHoldingsAvailable` | static/otree_etf_cda/trader_state_index.js:39-49 | bids and non-ETF orders go to the base rule; an ETF ask lowers each component's available quantity by `volume*weight` when placed and raises it by the same when removed, and never touches settled quantities or cash |
| `TraderState.EtfTradeFrame` | static/otree_etf_cda/trader_state_index.js:18-32 | an ETF trade leaves every asset outside the composition unchanged, the ETF's own slot included |
| `TraderState.EtfBidThenAskRestores` | static/otree_etf_cda/trader_state_index.js:18-36 | an ETF bid trade followed by an ETF ask trade at the same price and volume restores the holdings exactly |
| `TraderState.EtfAskPlaceThenRemoveRestores` | static/otree_etf_cda/trader_state_index.js:45-48 | placing an ETF ask and then removing it is the identity on the holdings |
| `AssetTable.ComputeCounts` | static/otree_etf_cda/asset_table.js:191-217 | the full recount has exactly the asset names as keys, and each counter is the number of this trader's orders on that asset; no names gives `{}`, no orders gives all zeros |
| `AssetTable.RemoveOrders` | static/otree_etf_cda/asset_table.js:222-226 | each counter drops by the number of this trader's removed orders on that asset |
| `AssetTable.AddOrders` | static/otree_etf_cda/asset_table.js:227-232 | each counter rises by the number of this trader's orders in `object[index..index+addedCount)` |
| `AssetTable.ApplySplice` | static/otree_etf_cda/asset_table.js:221-233 | one splice changes each counter by added-minus-removed orders of this trader on that asset |
| `AssetTable.ObserveSplices` | static/otree_etf_cda/asset_table.js:219-234 | a missing change record and an empty splice list both leave the counters unchanged; the key set is kept |
| `AssetTable.ObserveSnoc` | static/otree_etf_cda/asset_table.js:220-233 | the splices of a change record take effect in order: observing one more splice applies it to the counters reached after the earlier ones |
| `AssetTable.SpliceKeepsTally` | static/otree_etf_cda/asset_table.js:219-251 | counters equal to the recount of the array before a splice equal the recount of the array after it |
| `AssetTable.ObserveKeepsTally` | static/otree_etf_cda/asset_table.js:221-233 | after every prefix of a change record the counters equal the recount of the array reached |
| `AssetTable.ObserveKeepsCountsNonNegative` | static/otree_etf_cda/asset_table.js:222-231 | under the recount invariant no counter is ever negative |
| `AssetTable.ForeignSpliceChangesNothing` | static/otree_etf_cda/asset_table.js:223-229 | a splice that moves only other traders' orders changes no counter |
| `AssetTable.Gcd` | static/otree_etf_cda/asset_table.js:8-15 | for positive arguments the result divides both, and every common divisor divides it and is at most it |
| `AssetTable.ReducedFraction` | static/otree_etf_cda/asset_table.js:277-280 | dividing weight and total by their gcd gives a positive proper fraction, equal to weight/total, in lowest terms |
| `AssetTable.ReducedCoprime` | static/otree_etf_cda/asset_table.js:277-280 | the weight and the total divided by their greatest common divisor have no common divisor but 1 |
| `AssetTable.GetProbability` | static/otree_etf_cda/asset_table.js:268-281 | '' without probabilities, '0' exactly for weight 0, '1' exactly when the weight is the whole total, otherwise `n/d` in lowest terms with `n/d = weight/total` |
| `AssetTable.GetPayoff` | static/otree_etf_cda/asset_table.js:283-297 | an ETF's payoff is the weighted sum of its components' payoffs in the state, a plain asset's is its own, nothing without a structure |
| `AssetTable.GetTradedAsset` | static/otree_etf_cda/asset_table.js:263-266 | a cell shows the counter exactly when it is present and positive, and '-' otherwise |
| `AssetTable.TradedCellShowsOutstanding` | static/otree_etf_cda/asset_table.js:263-266 | against a recount, a cell shows the number of this trader's outstanding orders on the asset when there are any, '-' when there are none |
| `AssetTable.GetHeldAsset` | static/otree_etf_cda/asset_table.js:258-261 | 0 before holdings are known, the stored quantity when the asset has an entry, undefined when it has none |
| `Models.Chunks` | models.py:32-33 | for a positive group size the groups concatenate to the player list in order; all but the last have exactly `ppg` players; the last is non-empty with at most `ppg` |
| `Models.DoGrouping` | models.py:28-34 | a group size of 0 raises, a negative one gives no groups, a positive one chunks as above and gives no groups exactly when there are no players |
| `Models.CreatingSession` | models.py:36-40 | rounds past the configured number do no grouping; other rounds group the players |
| `Models.SelectEndowment` | models.py:67-71 | a list endowment yields element `id_in_group-1` or an index error; a scalar yields the scalar for every player |
| `Models.AssetEndowment` | models.py:64-72 | succeeds exactly when every list endowment covers the player; then it has exactly the structure's asset names as keys, each with its selected endowment |
| `Models.CashEndowment` | models.py:74-79 | the cash endowment follows the same list-or-scalar rule |
| `Models.EndowmentRulesAgree` | models.py:64-79 | whenever the asset endowment succeeds, each asset's entry is what the cash rule gives for that asset's endowment; an asset whose endowment the cash rule rejects makes the whole asset endowment fail with the index error |
| `Models.AssetEndowmentFailure` | models.py:67-71 | the only error the asset endowment raises is the missing list entry |
| `Models.SetPayoff` | models.py:81-92 | the payoff grows by Σ over assets of value(asset, realized state) × settled quantity, an ETF valued as Σ weight × component payoff |
| `ConfigManager.LoadCached` | configmanager.py:37-63 | a missing file is an error; the entry is reloaded exactly when absent or older than the file, otherwise returned as cached; afterwards the entry is present and not stale |
| `ConfigManager.LoadCachedTwiceHits` | configmanager.py:45-49 | reading an unchanged file a second time is served from the cache and changes nothing |
| `ConfigManager.AddSessionConfigFields` | configmanager.py:65-77 | every row key other than `round_config` with a non-empty cell overwrites the field with its parsed value; `round_config` and empty cells are never copied; every other field is unchanged |
| `ConfigManager.AddSessionConfigFieldsIdempotent` | configmanager.py:71-77 | merging the same row twice is the same as merging it once |
| `ConfigManager.Get` | configmanager.py:79-90 | `num_rounds` is the number of session rows; past it there is no round data; otherwise row `round_number-1` names the round config, which is loaded through the cache by the mtime rule; the round data is that dict merged with the row, and the round cache is the refreshed cache with that entry's dict replaced by the merged one at the same mtime; the session cache is the one the session read leaves; a missing round file gives the round-config-not-found error; a failed `get`, and a `get` past the last row, leave the round cache alone |
| `ConfigManager.GetField` | configmanager.py:96-99 | a present field yields its value, a missing one the invalid-round-config error |
| `ConfigManager.LaterOverrideWins` | configmanager.py:86-89 | when two rounds reusing one unmodified round-config file both override a field, a third round reading it without overriding sees the second round's value |
| `ConfigManager.OverridePersists` | configmanager.py:86-89 | an override made for one round stays in the cached round dict and is seen by a later round that reuses the same, unmodified file without overriding that field |
| `AssetCell.OwnsSide` | static/otree_etf_cda/asset_cell.js:138-139 | true exactly when some order of this trader is on the given side |
| `AssetCell.BuySellIndicator` | static/otree_etf_cda/asset_cell.js:136-146 | ' BS' exactly when the trader owns a bid and an ask among the making and taking orders, ' B' for only a bid, ' S' for only an ask, '' for none |
| `AssetCell.ForeignTradeUnmarked` | static/otree_etf_cda/asset_cell.js:143 | a trade with none of the trader's orders gets no indicator |
| `AssetCell.TradeDisplayFormat` | static/otree_etf_cda/asset_cell.js:135-151 | '$', then the first making order's price in human units, then the indicator; needs a making order |
| `AssetCell.EnterOrder` | static/otree_etf_cda/asset_cell.js:154-166 | `is_bid` exactly when the button is 'bid', the price from that side's input, volume 1 and the cell's asset |
| `Consistency.ValueAfterComposition` | models.py:84-92 | fanning `factor` ETF units out over the components moves the settled value by `factor` times Σ weight × component payoff |
| `Consistency.EtfTradeSettledValue` | static/otree_etf_cda/trader_state_index.js:18-36 | an ETF trade of `volume` moves the settled value in every state by ± `volume` times the ETF's value, against ∓ `price*volume` in settled cash |
| `Consistency.HeldCellShowsEndowment` | static/otree_etf_cda/asset_table.js:258-261 | on the dict the asset endowment hands out, each asset's held cell shows that asset's selected endowment |
| `Consistency.HeldCellAfterEtfTrade` | static/otree_etf_cda/asset_table.js:258-261 | after an ETF trade, a component's available and settled cells move by `volume*weight` in the trade's direction; an asset without a ledger slot shows nothing |
| `Consistency.RoundGateMatchesRoundData` | models.py:36-40 | with `num_rounds` from a successful `get`, a round is grouped exactly when `get` found round data for it, and `players_per_group` is never read from a config past the last round |
| `Consistency.EnteredOrderCounted` | static/otree_etf_cda/asset_cell.js:158-164 | an entered order inserted into the book by one splice raises its asset's counter by one and leaves every other counter unchanged |

## Left out

- The base `TraderState` class (`/static/otree_markets/trader_state.js`) is not part of this model: its trade and availability rules for plain assets enter as the function values of `TraderState.BaseLedger`. Its `_update_subproperty` is assumed to be "old + amount" on a key that is present.
- Missing-key arithmetic (`undefined + 1` giving NaN) is excluded by preconditions: every component of the ETF has a holdings slot, and every order of this trader is on one of the counted assets.
- `AssetTable.GetProbability`: returns a label datatype rather than the string `'n/d'`; number-to-text formatting is not modelled. Probability weights are required to be non-negative, and the state must be one of the keys.
- `AssetTable.GetPayoff` requires every component of an ETF to be in the structure and every payoff it reads to have the state. JavaScript does not reject these cases: a missing component throws a `TypeError` at `assetStructure[componentAsset].payoffs`, and a missing state yields `undefined` or `NaN`. Neither outcome is modelled.
- `AssetTable.Gcd` is modelled for positive arguments only, which is how the table calls it. JavaScript's truncating `%` agrees with Dafny's for these.
- JavaScript numbers are IEEE doubles, so `price*volume`, `volume*weight`, the payoff sums and the requested/offered counters are exact in the source only while they stay below 2^53 in magnitude. The model's integers are unbounded, and rounding beyond that range is not modelled.
- Probability weights, prices, ETF weights, payoffs and endowments are integers in the model. A non-integer YAML weight would enter the total at `asset_table.js` line 274 and `gcd`'s `%` at lines 8-15 as a float, and the ledger and payoff arithmetic would be floating point. Neither is modelled.
- The currency scaler (`currency_scaler.js`) is floating-point division and `Math.round` over a module-global factor; it appears only as the function parameters of `AssetCell.TradeDisplayFormat` and `AssetCell.EnterOrder`. `parseFloat` is a parameter too.
- Polymer reactivity, templates, styling, the custom events and the participant-code wiring are left out. The participant code is a parameter.
- The interface overlay (`disable-interface-overlay.js`) is left out: it is UI transitions and timers.
- The CSV export (`output.py`) is left out: it iterates database querysets and divides floats.
- The page display predicates in `pages.py` are left out: they are the same round gate as `Models.CreatingSession`.
- `Group.do_realized_state_draw` is left out: it is random sampling. The realized state is a parameter of `Models.SetPayoff`.
- `set_group_matrix`, the framework's own `creating_session` and oTree's currency type for `payoff` are left out. They are framework code; payoffs are plain integers here.
- `Models.CreatingSession`: takes `num_rounds` and `players_per_group` as integers. `Consistency.RoundGateMatchesRoundData` ties `num_rounds` to `ConfigManager.Get`, but a round config without a `players_per_group` field is not an error path of `Models.CreatingSession` itself.
- `Models.AssetEndowment` and `Models.CashEndowment`: endowment values are integers already. Python's `int()` truncation of non-integer YAML values is not modelled. `id_in_group >= 1` is required, as oTree guarantees, so Python's negative indexing never arises.
- `Models.SetPayoff` requires every asset of the structure to have a settled entry and every payoff it reads to exist. The Python raises `KeyError` otherwise.
- `ConfigManager.Get` requires `round_number >= 1`, as oTree guarantees. The actual file reading and the CSV, YAML and JSON parsing are abstract loaders; a JSON cell that fails to parse is not an error path here. Modification times are integers. A `ConfigManager.EtfConfig` holds the round data as a value. The Python object instead shares the cached dict, so later merges would also show through older config objects; that aliasing is not modelled.
- `ConfigManager.GetField` models only `__getattr__`. `num_rounds` and `round_data` are ordinary attributes and never reach it.
