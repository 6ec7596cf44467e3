/** Price cards with context tiers, and the cost of a request's tokens. Prices are exact
    non-negative numbers; the precision of the decimal type is not part of this model. */
module Pricing {
  import opened Wrappers
  import opened Int64

  type Price = x: real | x >= 0.0

  datatype PriceRates = PriceRates(input: Option<Price>, output: Option<Price>, cacheRead: Option<Price>,
                                   cacheWrite: Option<Price>)
  {
    // The rate of a charge, by its place in the source's tables.
    function Rate(charge: nat): Option<Price>
      requires charge < 4
    {
      if charge == 0 then input else if charge == 1 then output else if charge == 2 then cacheRead else cacheWrite
    }
  }

  datatype ContextPriceTier = ContextPriceTier(overTotalInputTokens: i64, rates: PriceRates)

  datatype PriceCard = PriceCard(base: PriceRates, tiers: seq<ContextPriceTier>) {
    // The tier that applies: the last one whose threshold is below the total, or 0 for the base.
    function TierIndexForUsage(usage: Usage): nat {
      LastBelow(tiers, TotalInputTokens(usage))
    }

    function RatesForTier(tierIndex: int): Option<PriceRates> {
      if tierIndex == 0 then Some(base)
      else if 0 < tierIndex <= |tiers| then Some(tiers[tierIndex - 1].rates)
      else None
    }

    function CostForUsage(usage: Usage, tierIndex: int): Option<PricedCost> {
      match RatesForTier(tierIndex)
      case None => None
      case Some(rates) =>
        var input := ComponentCost(usage.inputTokens, rates.input);
        var cacheRead := ComponentCost(usage.cacheReadInputTokens, rates.cacheRead);
        var cacheWrite := ComponentCost(usage.cacheCreationInputTokens, rates.cacheWrite);
        var output := ComponentCost(usage.outputTokens, rates.output);
        if input.Some? && cacheRead.Some? && cacheWrite.Some? && output.Some? then
          Some(PricedCost(input.value + cacheRead.value + cacheWrite.value, output.value))
        else None
    }

    // Thresholds are positive and strictly increasing.
    ghost predicate Ordered() {
      && (forall k :: 0 <= k < |tiers| ==> tiers[k].overTotalInputTokens > 0)
      && (forall j, k :: 0 <= j < k < |tiers| ==> tiers[j].overTotalInputTokens < tiers[k].overTotalInputTokens)
    }
  }

  datatype PricedCost = PricedCost(inputUsd: real, outputUsd: real)

  datatype Usage = Usage(
    inputTokens: i64,
    outputTokens: i64,
    cacheReadInputTokens: i64,
    cacheCreationInputTokens: i64)
  {
    function Tokens(charge: nat): i64
      requires charge < 4
    {
      if charge == 0 then inputTokens else if charge == 1 then outputTokens
      else if charge == 2 then cacheReadInputTokens else cacheCreationInputTokens
    }
  }

  function TotalInputTokens(usage: Usage): (total: i64)
    ensures total == Clamp(Max(usage.inputTokens, 0) + Max(usage.cacheReadInputTokens, 0)
                           + Max(usage.cacheCreationInputTokens, 0))
  {
    SatAdd(SatAdd(Max(usage.inputTokens, 0), Max(usage.cacheReadInputTokens, 0)),
           Max(usage.cacheCreationInputTokens, 0))
  }

  function LastBelow(tiers: seq<ContextPriceTier>, total: i64): (index: nat)
    ensures index <= |tiers|
    ensures index > 0 ==> tiers[index - 1].overTotalInputTokens < total
    ensures forall k :: index <= k < |tiers| ==> tiers[k].overTotalInputTokens >= total
  {
    if tiers == [] then 0
    else if total > tiers[|tiers| - 1].overTotalInputTokens then |tiers|
    else LastBelow(tiers[..|tiers| - 1], total)
  }

  function ComponentCost(tokens: i64, rate: Option<Price>): Option<real> {
    if Max(tokens, 0) == 0 then Some(0.0)
    else if rate.Some? then Some(Usd(Max(tokens, 0), rate.value))
    else None
  }

  // Rates are for a million tokens.
  function Usd(tokens: int, rate: Price): real {
    tokens as real * rate / 1000000.0
  }

  // What one kind of token costs: tokens that were never used cost nothing.
  function Charge(usage: Usage, rates: PriceRates, charge: nat): real
    requires charge < 4
  {
    if usage.Tokens(charge) <= 0 || rates.Rate(charge).None? then 0.0
    else Usd(usage.Tokens(charge), rates.Rate(charge).value)
  }

  // Whether a kind of token that was used has no rate.
  predicate Unpriced(usage: Usage, rates: PriceRates, charge: nat)
    requires charge < 4
  {
    usage.Tokens(charge) > 0 && rates.Rate(charge).None?
  }

  lemma ComponentIsCharge(usage: Usage, rates: PriceRates, charge: nat)
    requires charge < 4
    ensures ComponentCost(usage.Tokens(charge), rates.Rate(charge)) ==
      if Unpriced(usage, rates, charge) then None else Some(Charge(usage, rates, charge))
  {
    hide Usd;
    assert usage.Tokens(charge) > 0 ==> Max(usage.Tokens(charge), 0) == usage.Tokens(charge);
  }

  // A request has a cost exactly when every kind of token it used has a rate in the tier that
  // applies, and the cost is then the sum over the four kinds.
  lemma CostExactly(card: PriceCard, usage: Usage)
    ensures card.RatesForTier(card.TierIndexForUsage(usage)).Some?
    ensures
      var rates := card.RatesForTier(card.TierIndexForUsage(usage)).value;
      var cost := card.CostForUsage(usage, card.TierIndexForUsage(usage));
      && (cost.Some? <==> forall c: nat | c < 4 :: !Unpriced(usage, rates, c))
      && (cost.Some? ==> cost.value.outputUsd == Charge(usage, rates, 1))
      && (cost.Some? ==>
            cost.value.inputUsd == Charge(usage, rates, 0) + Charge(usage, rates, 2) + Charge(usage, rates, 3))
  {
    hide ComponentCost, Charge, Unpriced, TotalInputTokens;
    var rates := card.RatesForTier(card.TierIndexForUsage(usage)).value;
    ComponentIsCharge(usage, rates, 0);
    ComponentIsCharge(usage, rates, 1);
    ComponentIsCharge(usage, rates, 2);
    ComponentIsCharge(usage, rates, 3);
  }

  // ---------- A request's bill ----------

  // What counts as used: no negative count does.
  function Used(tokens: i64): nat {
    if tokens > 0 then tokens else 0
  }

  // The price of some tokens, in millionths of a dollar.
  function Micros(tokens: i64, rate: Option<Price>): real {
    if tokens > 0 && rate.Some? then tokens as real * rate.value else 0.0
  }

  // The total that selects the tier is all the input used, cached or not, up to the 64-bit maximum.
  lemma TotalExactly(usage: Usage)
    ensures
      var sum := Used(usage.inputTokens) + Used(usage.cacheReadInputTokens) + Used(usage.cacheCreationInputTokens);
      TotalInputTokens(usage) == if sum <= 0x7FFF_FFFF_FFFF_FFFF then sum else 0x7FFF_FFFF_FFFF_FFFF
  {
  }

  // With rising thresholds, the rates that apply are those of the one tier whose threshold is below
  // the total with no other between, and the base rates if the total is above none.
  lemma TierApplies(card: PriceCard, usage: Usage, k: nat)
    requires card.Ordered()
    ensures
      var total := TotalInputTokens(usage);
      var rates := card.RatesForTier(card.TierIndexForUsage(usage));
      && (card.tiers == [] || total <= card.tiers[0].overTotalInputTokens ==> rates == Some(card.base))
      && (k < |card.tiers| && card.tiers[k].overTotalInputTokens < total
          && (k + 1 < |card.tiers| ==> total <= card.tiers[k + 1].overTotalInputTokens) ==>
            rates == Some(card.tiers[k].rates))
  {
    hide TotalInputTokens, LastBelow;
  }

  // A million tokens of a kind cost its rate: the bill is the rates that apply times the tokens used,
  // input and cached input apart from output, and there is none exactly when a kind used has no rate.
  lemma BillExactly(card: PriceCard, usage: Usage, rates: PriceRates)
    requires card.RatesForTier(card.TierIndexForUsage(usage)) == Some(rates)
    ensures
      var bill := card.CostForUsage(usage, card.TierIndexForUsage(usage));
      && (bill.Some? <==>
            && (usage.inputTokens > 0 ==> rates.input.Some?) && (usage.outputTokens > 0 ==> rates.output.Some?)
            && (usage.cacheReadInputTokens > 0 ==> rates.cacheRead.Some?)
            && (usage.cacheCreationInputTokens > 0 ==> rates.cacheWrite.Some?))
      && (bill.Some? ==>
            && bill.value.inputUsd * 1_000_000.0
               == Micros(usage.inputTokens, rates.input) + Micros(usage.cacheReadInputTokens, rates.cacheRead)
                  + Micros(usage.cacheCreationInputTokens, rates.cacheWrite)
            && bill.value.outputUsd * 1_000_000.0 == Micros(usage.outputTokens, rates.output))
  {
    hide TotalInputTokens, LastBelow;
  }
}
