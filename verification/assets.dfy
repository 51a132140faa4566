/**
 * The asset structure of a round configuration, shared by the trading
 * screen and the payoff computation: for each asset whether it is an ETF,
 * its payoff in each state, its ETF weights and its endowment.
 */
module Assets {
  import opened Dicts

  /** An endowment is one amount for everyone or one amount per player, by position in the group. */
  datatype Endowment = Scalar(amount: int) | PerPlayer(amounts: seq<int>)

  datatype AssetSpec = AssetSpec(
    isEtf: bool,
    payoffs: map<string, int>,
    etfWeights: Entries<int>,
    endowment: Endowment)

  /** The asset structure, in configuration order. */
  type Structure = Entries<AssetSpec>

  /** `structure[name].payoffs[state]` exists. */
  predicate HasPayoff(structure: Structure, name: string, state: string) {
    name in Keys(structure) && state in Lookup(structure, name).payoffs
  }

  /** Everything the valuation of `name` in `state` reads is present. */
  predicate Valuable(structure: Structure, name: string, state: string) {
    && name in Keys(structure)
    && var spec := Lookup(structure, name);
       if spec.isEtf then forall c :: c in Keys(spec.etfWeights) ==> HasPayoff(structure, c, state)
       else state in spec.payoffs
  }

  /** The loop over an ETF's weights: Σ payoff(component, state) * weight. */
  function ComponentSum(structure: Structure, weights: Entries<int>, state: string): int
    requires forall c :: c in Keys(weights) ==> HasPayoff(structure, c, state)
  {
    if |weights| == 0 then 0
    else
      assert weights[0].0 in Keys(weights);
      assert HasPayoff(structure, weights[0].0, state);
      assert Keys(weights[1..]) <= Keys(weights);
      Lookup(structure, weights[0].0).payoffs[state] * weights[0].1
        + ComponentSum(structure, weights[1..], state)
  }

  /**
   * The value of one unit of `name` in `state`: its own payoff, or for an ETF
   * the weighted sum of its components' payoffs.
   */
  function AssetValue(structure: Structure, name: string, state: string): int
    requires Valuable(structure, name, state)
  {
    var spec := Lookup(structure, name);
    if spec.isEtf then ComponentSum(structure, spec.etfWeights, state)
    else spec.payoffs[state]
  }
}
