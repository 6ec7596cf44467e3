/** The stored form of a price card. Spelling numbers is a parameter, and so is reading them back;
    error texts are left out, so a rejected value is `None`. */
module PriceStorage {
  import opened Wrappers
  import opened Int64
  import opened JsonTree
  import opened Pricing

  // `parse` reads a decimal that is not negative.
  datatype Numbers = Numbers(show: Price -> string, parse: string -> Option<Price>,
                             showInt: i64 -> string, parseInt: string -> Option<i64>)
  {
    // The rates set are read back as they were written.
    ghost predicate Keeps(rates: PriceRates) {
      forall c: nat | c < 4 :: rates.Rate(c).Some? ==> parse(show(rates.Rate(c).value)) == rates.Rate(c)
    }

    // So are all the numbers of a card.
    ghost predicate Faithful(card: PriceCard) {
      && Keeps(card.base) && KeepsTiers(card.tiers)
      && forall i: i64 :: parseInt(showInt(i)) == Some(i)
    }

    ghost predicate KeepsTiers(tiers: seq<ContextPriceTier>) {
      forall k :: 0 <= k < |tiers| ==> Keeps(tiers[k].rates)
    }
  }

  const PRICE_SCHEMA_VERSION: i64 := 2
  const PRICE_UNIT: string := "usd_per_million_tokens"

  // ---------- Writing ----------

  function RateToJson(rate: Option<Price>, n: Numbers): Json {
    if rate.Some? then Str(n.show(rate.value)) else Null
  }

  function RatesToJson(rates: PriceRates, n: Numbers): Json {
    Obj(map["input" := RateToJson(rates.input, n), "output" := RateToJson(rates.output, n),
            "cache_read" := RateToJson(rates.cacheRead, n), "cache_write" := RateToJson(rates.cacheWrite, n)])
  }

  function TiersToJson(tiers: seq<ContextPriceTier>, n: Numbers): seq<Json> {
    if tiers == [] then []
    else
      [Obj(map["over_total_input_tokens" := Number(n.showInt(tiers[0].overTotalInputTokens)),
               "rates" := RatesToJson(tiers[0].rates, n)])]
      + TiersToJson(tiers[1..], n)
  }

  function ToJson(card: PriceCard, n: Numbers): Json {
    Obj(map["schema_version" := Number(n.showInt(PRICE_SCHEMA_VERSION)), "unit" := Str(PRICE_UNIT),
            "base" := RatesToJson(card.base, n), "tiers" := Arr(TiersToJson(card.tiers, n))])
  }

  // ---------- Reading ----------

  function ParseRate(v: Json, n: Numbers): Option<Option<Price>> {
    match v
    case Null => Some(None)
    case Str(text) => if n.parse(text).Some? then Some(n.parse(text)) else None
    case Number(text) => if n.parse(text).Some? then Some(n.parse(text)) else None
    case _ => None
  }

  function RequiredRate(v: Json, key: string, n: Numbers): Option<Option<Price>>
    requires v.Obj?
  {
    if key in v.members then ParseRate(v.members[key], n) else None
  }

  function ParseRates(v: Json, n: Numbers): Option<PriceRates> {
    if !v.Obj? then None
    else
      var input := RequiredRate(v, "input", n);
      var output := RequiredRate(v, "output", n);
      var cacheRead := RequiredRate(v, "cache_read", n);
      var cacheWrite := RequiredRate(v, "cache_write", n);
      if input.Some? && output.Some? && cacheRead.Some? && cacheWrite.Some? then
        Some(PriceRates(input.value, output.value, cacheRead.value, cacheWrite.value))
      else None
  }

  function ParseTier(v: Json, n: Numbers): Option<ContextPriceTier> {
    match (Get(v, ["over_total_input_tokens"]), Get(v, ["rates"]))
    case (Some(Number(text)), Some(rates)) =>
      var threshold := n.parseInt(text);
      if threshold.Some? && ParseRates(rates, n).Some? then
        Some(ContextPriceTier(threshold.value, ParseRates(rates, n).value))
      else None
    case _ => None
  }

  function ParseTiers(items: seq<Json>, previous: i64, n: Numbers): Option<seq<ContextPriceTier>> {
    if items == [] then Some([])
    else
      var tier := ParseTier(items[0], n);
      if tier.None? || tier.value.overTotalInputTokens <= 0 || tier.value.overTotalInputTokens <= previous then None
      else
        var rest := ParseTiers(items[1..], tier.value.overTotalInputTokens, n);
        if rest.Some? then Some([tier.value] + rest.value) else None
  }

  function ParseCard(v: Json, n: Numbers): Option<PriceCard> {
    if !v.Obj? || "schema_version" !in v.members || "unit" !in v.members
       || "base" !in v.members || "tiers" !in v.members then None
    else
      var version := v.members["schema_version"];
      if !version.Number? || n.parseInt(version.text) != Some(PRICE_SCHEMA_VERSION)
         || v.members["unit"] != Str(PRICE_UNIT) then None
      else
        var base := ParseRates(v.members["base"], n);
        if base.None? || !v.members["tiers"].Arr? then None
        else
          var tiers := ParseTiers(v.members["tiers"].items, 0, n);
          if tiers.Some? then Some(PriceCard(base.value, tiers.value)) else None
  }

  method FromV2Json(v: Json, n: Numbers) returns (card: Option<PriceCard>)
    ensures card == ParseCard(v, n)
  {
    hide ParseTier, ParseTiers, ParseRates;
    if !v.Obj? || "schema_version" !in v.members || "unit" !in v.members
       || "base" !in v.members || "tiers" !in v.members {
      return None;
    }
    var version := v.members["schema_version"];
    if !version.Number? || n.parseInt(version.text) != Some(PRICE_SCHEMA_VERSION)
       || v.members["unit"] != Str(PRICE_UNIT) {
      return None;
    }
    var base := ParseRates(v.members["base"], n);
    if base.None? || !v.members["tiers"].Arr? {
      return None;
    }
    var tiers := ReadTiers(v.members["tiers"].items, n);
    return if tiers.Some? then Some(PriceCard(base.value, tiers.value)) else None;
  }

  method ReadTiers(items: seq<Json>, n: Numbers) returns (r: Option<seq<ContextPriceTier>>)
    ensures r == ParseTiers(items, 0, n)
  {
    hide ParseTier;
    var tiers: seq<ContextPriceTier>, previous: i64 := [], 0;
    ghost var all := ParseTiers(items, 0, n);
    assert items[0..] == items && (all.Some? ==> [] + all.value == all.value);
    for i := 0 to |items|
      invariant Resumes(ParseTiers(items, 0, n), tiers, ParseTiers(items[i..], previous, n))
    {
      assert items[i..][1..] == items[i + 1..];
      var tier := ParseTier(items[i], n);
      if tier.None? {
        return None;
      }
      var threshold := tier.value.overTotalInputTokens;
      if threshold <= 0 || threshold <= previous {
        return None;
      }
      ghost var rest := ParseTiers(items[i + 1..], threshold, n);
      assert rest.Some? ==> tiers + ([tier.value] + rest.value) == (tiers + [tier.value]) + rest.value;
      previous := threshold;
      tiers := tiers + [tier.value];
    }
    assert tiers + [] == tiers;
    return Some(tiers);
  }

  // Reading everything gives what was read so far followed by the rest.
  predicate Resumes(all: Option<seq<ContextPriceTier>>, done: seq<ContextPriceTier>,
                    rest: Option<seq<ContextPriceTier>>) {
    all == if rest.Some? then Some(done + rest.value) else None
  }

  // ---------- Storing and reading back ----------

  lemma RatesReadBack(rates: PriceRates, n: Numbers)
    requires n.Keeps(rates)
    ensures ParseRates(RatesToJson(rates, n), n) == Some(rates)
  {
    assert rates.Rate(0) == rates.input && rates.Rate(1) == rates.output;
    assert rates.Rate(2) == rates.cacheRead && rates.Rate(3) == rates.cacheWrite;
  }

  predicate Increasing(tiers: seq<ContextPriceTier>, previous: i64) {
    tiers == [] || (tiers[0].overTotalInputTokens > 0 && tiers[0].overTotalInputTokens > previous
                    && Increasing(tiers[1..], tiers[0].overTotalInputTokens))
  }

  lemma {:induction false} TiersReadBack(tiers: seq<ContextPriceTier>, previous: i64, n: Numbers)
    requires n.KeepsTiers(tiers) && forall i: i64 :: n.parseInt(n.showInt(i)) == Some(i)
    ensures ParseTiers(TiersToJson(tiers, n), previous, n) == if Increasing(tiers, previous) then Some(tiers) else None
    decreases |tiers|
  {
    hide ParseRates, RatesToJson;
    if tiers != [] {
      TiersReadBack(tiers[1..], tiers[0].overTotalInputTokens, n);
      RatesReadBack(tiers[0].rates, n);
      var items := TiersToJson(tiers, n);
      assert items[1..] == TiersToJson(tiers[1..], n) && [tiers[0]] + tiers[1..] == tiers;
      assert ParseTier(items[0], n) == Some(tiers[0]) by {
        var m := items[0].members;
        assert Get(m["rates"], ["rates"][1..]) == Some(m["rates"]);
        assert Get(m["over_total_input_tokens"], ["over_total_input_tokens"][1..])
          == Some(m["over_total_input_tokens"]);
      }
    }
  }

  lemma {:induction false} IncreasingMeansOrdered(tiers: seq<ContextPriceTier>, previous: i64)
    requires previous >= 0
    ensures Increasing(tiers, previous) <==>
      PriceCard(PriceRates(None, None, None, None), tiers).Ordered()
      && forall k :: 0 <= k < |tiers| ==> tiers[k].overTotalInputTokens > previous
    decreases |tiers|
  {
    if tiers != [] && tiers[0].overTotalInputTokens > 0 {
      IncreasingMeansOrdered(tiers[1..], tiers[0].overTotalInputTokens);
      assert forall k | 0 < k < |tiers| :: tiers[1..][k - 1] == tiers[k];
    }
  }

  // A stored card reads back as itself exactly when its thresholds are positive and increasing;
  // rates may be missing.
  lemma StoredCardReadsBack(card: PriceCard, n: Numbers)
    requires n.Faithful(card)
    ensures ParseCard(ToJson(card, n), n) == if card.Ordered() then Some(card) else None
  {
    hide ParseRates, RatesToJson, ParseTiers, TiersToJson, Increasing;
    RatesReadBack(card.base, n);
    TiersReadBack(card.tiers, 0, n);
    IncreasingMeansOrdered(card.tiers, 0);
  }

  // ---------- Every card can be spelled ----------

  function RatesOf(rates: PriceRates): seq<Price> {
    AsSeq(rates.input) + AsSeq(rates.output) + AsSeq(rates.cacheRead) + AsSeq(rates.cacheWrite)
  }

  function AsSeq(rate: Option<Price>): seq<Price> {
    if rate.Some? then [rate.value] else []
  }

  function PricesOf(tiers: seq<ContextPriceTier>): seq<Price> {
    if tiers == [] then [] else RatesOf(tiers[0].rates) + PricesOf(tiers[1..])
  }

  function Place(prices: seq<Price>, p: Price): (i: nat)
    ensures i <= |prices| && (p in prices ==> i < |prices| && prices[i] == p)
  {
    if prices == [] || prices[0] == p then 0 else 1 + Place(prices[1..], p)
  }

  function Unary(n: nat): (s: string)
    ensures |s| == n
  {
    if n == 0 then "" else "1" + Unary(n - 1)
  }

  function Code(i: i64): nat {
    if i >= 0 then 2 * i else -2 * i - 1
  }

  function Uncode(n: nat): Option<i64> {
    var i := if n % 2 == 0 then n / 2 else -(n + 1) / 2;
    if MIN <= i <= MAX then Some(i) else None
  }

  // Spells the prices listed by their places, and integers by counting.
  function Listing(prices: seq<Price>): Numbers {
    Numbers((p: Price) => Unary(Place(prices, p)), s => if |s| < |prices| then Some(prices[|s|]) else None,
            (i: i64) => Unary(Code(i)), s => Uncode(|s|))
  }

  lemma CodeReadsBack(i: i64)
    ensures Uncode(Code(i)) == Some(i)
  {
  }

  lemma ListingKeeps(prices: seq<Price>, rates: PriceRates)
    requires forall p | p in RatesOf(rates) :: p in prices
    ensures Listing(prices).Keeps(rates)
  {
    forall c: nat | c < 4 && rates.Rate(c).Some?
      ensures Listing(prices).parse(Listing(prices).show(rates.Rate(c).value)) == rates.Rate(c)
    {
      assert rates.Rate(c).value in RatesOf(rates);
    }
  }

  lemma {:induction false} TierPrices(tiers: seq<ContextPriceTier>, k: nat)
    requires k < |tiers|
    ensures forall p | p in RatesOf(tiers[k].rates) :: p in PricesOf(tiers)
    decreases |tiers|
  {
    if k > 0 {
      TierPrices(tiers[1..], k - 1);
    }
  }

  // The law about stored cards speaks of every card: some spelling is faithful to it.
  lemma SpellingExists(card: PriceCard) returns (n: Numbers)
    ensures n.Faithful(card)
  {
    hide RatesOf, Place, Code, Uncode;
    var prices := RatesOf(card.base) + PricesOf(card.tiers);
    n := Listing(prices);
    ListingKeeps(prices, card.base);
    forall k | 0 <= k < |card.tiers| ensures n.Keeps(card.tiers[k].rates) {
      TierPrices(card.tiers, k);
      ListingKeeps(prices, card.tiers[k].rates);
    }
    forall i: i64 ensures n.parseInt(n.showInt(i)) == Some(i) {
      CodeReadsBack(i);
    }
  }

  // A card whose thresholds fall: it is written, and then refused.
  lemma FallingThresholdsAreLost() returns (card: PriceCard, n: Numbers)
    ensures n.Faithful(card) && ParseCard(ToJson(card, n), n) == None
  {
    var rates := PriceRates(Some(1.0), None, None, None);
    card := PriceCard(rates, [ContextPriceTier(200000, rates), ContextPriceTier(100000, rates)]);
    n := SpellingExists(card);
    StoredCardReadsBack(card, n);
    assert card.tiers[0].overTotalInputTokens > card.tiers[1].overTotalInputTokens;
  }

  // ---------- The stored form ----------

  ghost predicate SpellsRate(v: Json, n: Numbers, rate: Option<Price>) {
    || (v == Null && rate == None)
    || ((v.Str? || v.Number?) && rate.Some? && n.parse(v.text) == rate)
  }

  // The value of a member, if the value is an object that has it.
  predicate Holds(v: Json, name: string) {
    v.Obj? && name in v.members
  }

  ghost predicate SpellsRates(v: Json, n: Numbers, rates: PriceRates) {
    && Holds(v, "input") && SpellsRate(v.members["input"], n, rates.input)
    && Holds(v, "output") && SpellsRate(v.members["output"], n, rates.output)
    && Holds(v, "cache_read") && SpellsRate(v.members["cache_read"], n, rates.cacheRead)
    && Holds(v, "cache_write") && SpellsRate(v.members["cache_write"], n, rates.cacheWrite)
  }

  predicate SpellsInt(v: Json, n: Numbers, i: i64) {
    v.Number? && n.parseInt(v.text) == Some(i)
  }

  ghost predicate SpellsTier(v: Json, n: Numbers, tier: ContextPriceTier) {
    && Holds(v, "over_total_input_tokens")
    && SpellsInt(v.members["over_total_input_tokens"], n, tier.overTotalInputTokens)
    && Holds(v, "rates") && SpellsRates(v.members["rates"], n, tier.rates)
  }

  // A value in version 2 of the stored form, for one card: per million tokens, with every rate named
  // and null where there is none.
  ghost predicate SpellsCard(v: Json, n: Numbers, card: PriceCard) {
    && Holds(v, "schema_version") && SpellsInt(v.members["schema_version"], n, 2)
    && Holds(v, "unit") && v.members["unit"] == Str("usd_per_million_tokens")
    && Holds(v, "base") && SpellsRates(v.members["base"], n, card.base)
    && Holds(v, "tiers") && v.members["tiers"].Arr? && |v.members["tiers"].items| == |card.tiers|
    && (forall k :: 0 <= k < |card.tiers| ==> SpellsTier(v.members["tiers"].items[k], n, card.tiers[k]))
  }

  lemma RateMeans(v: Json, n: Numbers, rate: Option<Price>)
    ensures ParseRate(v, n) == Some(rate) <==> SpellsRate(v, n, rate)
  {
  }

  lemma RatesMean(v: Json, n: Numbers, rates: PriceRates)
    ensures ParseRates(v, n) == Some(rates) <==> SpellsRates(v, n, rates)
  {
    hide ParseRate, SpellsRate;
    if v.Obj? {
      forall name | name in v.members && ParseRate(v.members[name], n).Some?
        ensures SpellsRate(v.members[name], n, ParseRate(v.members[name], n).value)
      {
        RateMeans(v.members[name], n, ParseRate(v.members[name], n).value);
      }
      if SpellsRates(v, n, rates) {
        RateMeans(v.members["input"], n, rates.input);
        RateMeans(v.members["output"], n, rates.output);
        RateMeans(v.members["cache_read"], n, rates.cacheRead);
        RateMeans(v.members["cache_write"], n, rates.cacheWrite);
      }
    }
  }

  lemma TierMeans(v: Json, n: Numbers, tier: ContextPriceTier)
    ensures ParseTier(v, n) == Some(tier) <==> SpellsTier(v, n, tier)
  {
    hide ParseRates, SpellsRates;
    GetMember(v, "over_total_input_tokens");
    GetMember(v, "rates");
    if Holds(v, "rates") {
      RatesMean(v.members["rates"], n, tier.rates);
    }
  }

  lemma GetMember(v: Json, name: string)
    ensures Get(v, [name]) == if Holds(v, name) then Some(v.members[name]) else None
  {
    assert [name][1..] == [];
  }

  lemma {:induction false} TiersMean(items: seq<Json>, previous: i64, n: Numbers, tiers: seq<ContextPriceTier>)
    ensures ParseTiers(items, previous, n) == Some(tiers) <==>
      && |items| == |tiers| && Increasing(tiers, previous)
      && forall k :: 0 <= k < |tiers| ==> SpellsTier(items[k], n, tiers[k])
    decreases |items|
  {
    hide ParseTier, SpellsTier;
    if items != [] && tiers != [] {
      TierMeans(items[0], n, tiers[0]);
      TiersMean(items[1..], tiers[0].overTotalInputTokens, n, tiers[1..]);
      assert [tiers[0]] + tiers[1..] == tiers;
      if |items| == |tiers| {
        forall k | 0 < k < |tiers| ensures items[k] == items[1..][k - 1] && tiers[k] == tiers[1..][k - 1] {
        }
      }
    }
  }

  // A stored value is read as a card exactly when it spells that card and the card's thresholds are
  // positive and increasing.
  lemma ReadsExactly(v: Json, n: Numbers, card: PriceCard)
    ensures ParseCard(v, n) == Some(card) <==> SpellsCard(v, n, card) && card.Ordered()
  {
    hide ParseRates, ParseTiers, SpellsRates, SpellsTier, Increasing;
    if Holds(v, "base") && Holds(v, "tiers") && v.members["tiers"].Arr? {
      RatesMean(v.members["base"], n, card.base);
      TiersMean(v.members["tiers"].items, 0, n, card.tiers);
      IncreasingMeansOrdered(card.tiers, 0);
    }
  }

  // What is written spells the card, whatever its thresholds, in four members and no more.
  lemma WritesExactly(card: PriceCard, n: Numbers)
    requires n.Faithful(card)
    ensures SpellsCard(ToJson(card, n), n, card)
    ensures ToJson(card, n).members.Keys == {"schema_version", "unit", "base", "tiers"}
  {
    hide ParseRates, SpellsRates, RatesToJson;
    RatesReadBack(card.base, n);
    RatesMean(RatesToJson(card.base, n), n, card.base);
    var items := TiersToJson(card.tiers, n);
    TiersWritten(card.tiers, n);
    forall k | 0 <= k < |card.tiers| ensures SpellsTier(items[k], n, card.tiers[k]) {
      var tier := card.tiers[k];
      RatesReadBack(tier.rates, n);
      RatesMean(RatesToJson(tier.rates, n), n, tier.rates);
    }
  }

  lemma {:induction false} TiersWritten(tiers: seq<ContextPriceTier>, n: Numbers)
    ensures |TiersToJson(tiers, n)| == |tiers|
    ensures forall k :: 0 <= k < |tiers| ==>
      TiersToJson(tiers, n)[k] ==
        Obj(map["over_total_input_tokens" := Number(n.showInt(tiers[k].overTotalInputTokens)),
                "rates" := RatesToJson(tiers[k].rates, n)])
    decreases |tiers|
  {
    hide RatesToJson;
    if tiers != [] {
      TiersWritten(tiers[1..], n);
    }
  }
}
