/**
 * The per-round rules of the experiment (`Subsession`, `Player`): grouping
 * players into fixed-size groups, the round gate of session creation,
 * endowments and the final payoff.
 */
module Models {
  import opened Wrappers
  import opened Dicts
  import opened Assets

  /** Errors the Python code raises. */
  datatype ModelError =
    | ZeroStep      // `range` with a step of 0 raises ValueError
    | IndexOutOfRange  // a per-player endowment list without an entry for this player

  // ---------------------------------------------------------------------
  // Grouping
  // ---------------------------------------------------------------------

  function Min(a: int, b: int): int {
    if a <= b then a else b
  }

  /** The groups concatenated, in order. */
  function Flatten<P>(groups: seq<seq<P>>): seq<P> {
    if |groups| == 0 then [] else groups[0] + Flatten(groups[1..])
  }

  /** `players[i:i+ppg]` for i in range(0, len(players), ppg), for a positive group size. */
  function Chunks<P>(players: seq<P>, ppg: int): (groups: seq<seq<P>>)
    requires ppg > 0
    ensures Flatten(groups) == players
    ensures forall i :: 0 <= i < |groups| - 1 ==> |groups[i]| == ppg
    ensures |groups| > 0 ==> 0 < |groups[|groups| - 1]| <= ppg
    ensures |groups| == 0 <==> |players| == 0
    decreases |players|
  {
    if |players| == 0 then []
    else
      var size := Min(ppg, |players|);
      var rest := Chunks(players[size..], ppg);
      var groups := [players[..size]] + rest;
      assert groups[1..] == rest;
      assert players[..size] + players[size..] == players;
      groups
  }

  /**
   * `Subsession.do_grouping`: the group matrix handed to the framework.
   * Python's `range` rejects a step of 0 and yields nothing for a negative one.
   */
  function DoGrouping<P>(players: seq<P>, ppg: int): (r: Result<seq<seq<P>>, ModelError>)
    ensures r.Failure? <==> ppg == 0
    ensures ppg < 0 ==> r == Success([])
    ensures ppg > 0 ==> r.Success? && Flatten(r.value) == players
    ensures ppg > 0 ==> r.Success? && forall i :: 0 <= i < |r.value| - 1 ==> |r.value[i]| == ppg
    ensures ppg > 0 ==> r.Success? && (|r.value| == 0 <==> |players| == 0)
    ensures ppg > 0 && |players| > 0 ==>
      r.Success? && |r.value| > 0 && 0 < |r.value[|r.value| - 1]| <= ppg
  {
    if ppg == 0 then Failure(ZeroStep)
    else if ppg < 0 then Success([])
    else Success(Chunks(players, ppg))
  }

  /**
   * `Subsession.creating_session`: rounds past the configured number do no
   * grouping (None); other rounds are grouped (the framework's own session
   * set-up that follows is not part of this model).
   */
  function CreatingSession<P>(roundNumber: int, numRounds: int, players: seq<P>, ppg: int)
    : (r: Result<Option<seq<seq<P>>>, ModelError>)
    ensures roundNumber > numRounds ==> r == Success(None)
    ensures roundNumber <= numRounds && ppg != 0 ==>
      r.Success? && r.value.Some? && DoGrouping(players, ppg) == Success(r.value.value)
    ensures roundNumber <= numRounds && ppg == 0 ==> r.Failure?
  {
    if roundNumber > numRounds then Success(None)
    else
      match DoGrouping(players, ppg)
      case Failure(e) => Failure(e)
      case Success(groups) => Success(Some(groups))
  }

  // ---------------------------------------------------------------------
  // Endowments
  // ---------------------------------------------------------------------

  /** The list-or-scalar rule: element `id_in_group - 1` of a list, or the scalar itself. */
  function SelectEndowment(e: Endowment, idInGroup: int): (r: Result<int, ModelError>)
    requires idInGroup >= 1
    ensures e.Scalar? ==> r == Success(e.amount)
    ensures e.PerPlayer? ==> (r.Success? <==> idInGroup <= |e.amounts|)
    ensures e.PerPlayer? && r.Success? ==> r.value == e.amounts[idInGroup - 1]
  {
    match e
    case Scalar(amount) => Success(amount)
    case PerPlayer(amounts) =>
      if idInGroup - 1 < |amounts| then Success(amounts[idInGroup - 1]) else Failure(IndexOutOfRange)
  }

  /** Every per-player list in the structure has an entry for this player. */
  predicate EndowmentsCover(structure: Structure, idInGroup: int) {
    idInGroup >= 1 && forall i :: 0 <= i < |structure| ==> SelectEndowment(structure[i].1.endowment, idInGroup).Success?
  }

  /** `Player.asset_endowment`: one endowment per asset of the structure. */
  function AssetEndowment(structure: Structure, idInGroup: int): (r: Result<map<string, int>, ModelError>)
    requires idInGroup >= 1
    requires DistinctKeys(structure)
    ensures r.Success? <==> EndowmentsCover(structure, idInGroup)
    ensures r.Success? ==> r.value.Keys == Keys(structure)
    ensures r.Success? ==> forall i :: 0 <= i < |structure| ==>
      r.value[structure[i].0] == SelectEndowment(structure[i].1.endowment, idInGroup).value
    decreases |structure|
  {
    if |structure| == 0 then Success(map[])
    else
      var (name, spec) := structure[0];
      assert Keys(structure) == {name} + Keys(structure[1..]);
      assert forall i :: 0 <= i < |structure[1..]| ==> structure[1..][i] == structure[i + 1];
      match SelectEndowment(spec.endowment, idInGroup)
      case Failure(e) => Failure(e)
      case Success(amount) =>
        match AssetEndowment(structure[1..], idInGroup)
        case Failure(e) => Failure(e)
        case Success(rest) =>
          assert name !in rest;
          Success(rest[name := amount])
  }

  /** `Player.cash_endowment`: the same list-or-scalar rule applied to the cash endowment. */
  function CashEndowment(endowment: Endowment, idInGroup: int): (r: Result<int, ModelError>)
    requires idInGroup >= 1
    ensures endowment.Scalar? ==> r == Success(endowment.amount)
    ensures endowment.PerPlayer? ==>
      r == if idInGroup <= |endowment.amounts| then Success(endowment.amounts[idInGroup - 1])
           else Failure(IndexOutOfRange)
  {
    SelectEndowment(endowment, idInGroup)
  }

  /**
   * Cash and assets follow one endowment rule: whenever the asset endowment
   * succeeds, each asset's entry is what `CashEndowment` gives for that
   * asset's endowment, and one failing asset fails the whole dict.
   */
  lemma EndowmentRulesAgree(structure: Structure, idInGroup: int, i: int)
    requires idInGroup >= 1 && DistinctKeys(structure)
    requires 0 <= i < |structure|
    ensures var assets := AssetEndowment(structure, idInGroup);
      var cash := CashEndowment(structure[i].1.endowment, idInGroup);
      && (assets.Success? ==> cash == Success(assets.value[structure[i].0]))
      && (cash.Failure? ==> assets == Failure(IndexOutOfRange))
  {
    if CashEndowment(structure[i].1.endowment, idInGroup).Failure? {
      AssetEndowmentFailure(structure, idInGroup);
    }
  }

  /** The only error the asset endowment raises is a missing list entry. */
  lemma {:induction false} AssetEndowmentFailure(structure: Structure, idInGroup: int)
    requires idInGroup >= 1 && DistinctKeys(structure)
    ensures AssetEndowment(structure, idInGroup).Failure? ==>
      AssetEndowment(structure, idInGroup).error == IndexOutOfRange
    decreases |structure|
  {
    if |structure| > 0 {
      assert forall i :: 0 <= i < |structure[1..]| ==> structure[1..][i] == structure[i + 1];
      AssetEndowmentFailure(structure[1..], idInGroup);
    }
  }

  // ---------------------------------------------------------------------
  // Payoff
  // ---------------------------------------------------------------------

  /** Everything the payoff loop reads is present. */
  predicate PayoffReady(structure: Structure, settled: map<string, int>, state: string) {
    DistinctKeys(structure) && forall i :: 0 <= i < |structure| ==>
      && Valuable(structure, structure[i].0, state)
      && structure[i].0 in settled
  }

  /** Σ over the assets of the structure of value(asset, state) * settled[asset]. */
  function SettledValue(structure: Structure, settled: map<string, int>, state: string): int
    requires PayoffReady(structure, settled, state)
  {
    PortfolioValue(structure, structure, settled, state)
  }

  /** The payoff sum over the entries `assets` (a suffix of `structure`). */
  function PortfolioValue(structure: Structure, assets: Structure, settled: map<string, int>, state: string): int
    requires forall i :: 0 <= i < |assets| ==>
      Valuable(structure, assets[i].0, state) && assets[i].0 in settled
  {
    if |assets| == 0 then 0
    else
      AssetValue(structure, assets[0].0, state) * settled[assets[0].0]
        + PortfolioValue(structure, assets[1..], settled, state)
  }

  /**
   * `Player.set_payoff`: the loop over the asset structure adding each
   * asset's value in the realized state times the settled quantity.
   */
  method SetPayoff(payoff: int, realizedState: string, structure: Structure, settled: map<string, int>)
    returns (total: int)
    requires PayoffReady(structure, settled, realizedState)
    ensures total == payoff + SettledValue(structure, settled, realizedState)
  {
    total := payoff;
    var i := 0;
    while i < |structure|
      invariant 0 <= i <= |structure|
      invariant total + PortfolioValue(structure, structure[i..], settled, realizedState)
             == payoff + SettledValue(structure, settled, realizedState)
    {
      var (assetName, spec) := structure[i];
      assert structure[i..][0] == structure[i] && structure[i..][1..] == structure[i + 1..];
      LookupEntry(structure, i);
      assert Valuable(structure, assetName, realizedState);
      var assetValue: int;
      if spec.isEtf {
        assetValue := 0;
        var j := 0;
        while j < |spec.etfWeights|
          invariant 0 <= j <= |spec.etfWeights|
          invariant Keys(spec.etfWeights[j..]) <= Keys(spec.etfWeights)
          invariant assetValue + ComponentSum(structure, spec.etfWeights[j..], realizedState)
                 == AssetValue(structure, assetName, realizedState)
        {
          var (componentAsset, weight) := spec.etfWeights[j];
          SuffixKeys(spec.etfWeights, j);
          assert spec.etfWeights[j..][0] == spec.etfWeights[j] && spec.etfWeights[j..][1..] == spec.etfWeights[j + 1..];
          assetValue := assetValue + Lookup(structure, componentAsset).payoffs[realizedState] * weight;
          j := j + 1;
        }
      } else {
        assetValue := spec.payoffs[realizedState];
      }
      total := total + assetValue * settled[assetName];
      i := i + 1;
    }
  }
}
