/** Compiling a LiteLLM row, whose sparse overrides sit in key names, into a card with cumulative
    tiers. Decimal arithmetic is a parameter: `perMillion` is the price of a million tokens a value
    spells, if it spells one. */
module PriceCatalogue {
  import opened Wrappers
  import opened Int64
  import opened JsonTree
  import opened Maps
  import opened Pricing

  // A row's members in the order the JSON library keeps them.
  type Fields = seq<(string, Json)>

  type Values = s: seq<Option<Price>> | |s| == 4 witness [None, None, None, None]

  type PerMillion = Json -> Option<Price>

  const NONE: Values := [None, None, None, None]

  const LITELLM_RATES: seq<string> :=
    ["input_cost_per_token", "output_cost_per_token", "cache_read_input_token_cost", "cache_creation_input_token_cost"]

  datatype CardError = BadPrice | NoTokenPrices | BadThreshold

  function Rates(values: Values): PriceRates {
    PriceRates(values[0], values[1], values[2], values[3])
  }

  // ---------- Tier keys ----------

  function StripPrefix(s: string, prefix: string): Option<string> {
    if prefix <= s then Some(s[|prefix|..]) else None
  }

  function StripSuffix(s: string, suffix: string): Option<string> {
    if |suffix| <= |s| && s[|s| - |suffix|..] == suffix then Some(s[..|s| - |suffix|]) else None
  }

  predicate AllDigits(s: string) {
    forall i :: 0 <= i < |s| ==> '0' <= s[i] <= '9'
  }

  function Decimal(digits: string): nat
    requires AllDigits(digits)
  {
    if digits == [] then 0
    else Decimal(digits[..|digits| - 1]) * 10 + (digits[|digits| - 1] as int - '0' as int)
  }

  // What a key says to the compiler.
  datatype TierKey = Plain | Unusable | Tier(charge: nat, threshold: i64)

  // The threshold in `<rate>_above_<digits>[k]_tokens`; a span that is not all digits qualifies the
  // price by something other than context.
  function KeyFor(key: string, charge: nat): (r: TierKey)
    requires charge < 4
    ensures r.Tier? ==> r.charge == charge && r.threshold > 0
  {
    match StripPrefix(key, LITELLM_RATES[charge] + "_above_")
    case None => Plain
    case Some(rest) =>
      match StripSuffix(rest, "_tokens")
      case None => Plain
      case Some(span) =>
        var thousands := StripSuffix(span, "k");
        var digits := if thousands.Some? then thousands.value else span;
        if !AllDigits(digits) then Plain
        else
          var n := Decimal(digits);
          var threshold := if thousands.Some? then n * 1000 else n;
          if digits == [] || n > MAX || !(0 < threshold <= MAX) then Unusable
          else Tier(charge, threshold)
  }

  function KeyFrom(key: string, charge: nat): (r: TierKey)
    requires charge <= 4
    ensures r.Tier? ==> charge <= r.charge < 4 && r.threshold > 0
    decreases 4 - charge
  {
    if charge == 4 then Plain
    else if KeyFor(key, charge).Plain? then KeyFrom(key, charge + 1)
    else KeyFor(key, charge)
  }

  method ParseKey(key: string) returns (r: TierKey)
    ensures r == KeyFrom(key, 0)
  {
    for i := 0 to 4
      invariant KeyFrom(key, 0) == KeyFrom(key, i)
    {
      var k := KeyFor(key, i);
      if !k.Plain? {
        return k;
      }
    }
    return Plain;
  }

  // ---------- What a row says ----------

  predicate Skipped(f: (string, Json)) {
    f.0 in LITELLM_RATES || f.1 == Null
  }

  // Whether a member is an override of `charge` above `threshold`.
  predicate Names(f: (string, Json), charge: nat, threshold: i64) {
    !Skipped(f) && KeyFrom(f.0, 0) == Tier(charge, threshold)
  }

  predicate Usable(f: (string, Json), perMillion: PerMillion) {
    Skipped(f) || KeyFrom(f.0, 0).Plain? || (KeyFrom(f.0, 0).Tier? && perMillion(f.1).Some?)
  }

  function Lookup(fields: Fields, key: string): Option<Json> {
    if fields == [] then None
    else if fields[0].0 == key then Some(fields[0].1)
    else Lookup(fields[1..], key)
  }

  // The member that sets a base rate, unless it is absent or null.
  function BaseField(fields: Fields, charge: nat): Option<Json>
    requires charge < 4
  {
    match Lookup(fields, LITELLM_RATES[charge])
    case Some(v) => if v == Null then None else Some(v)
    case None => None
  }

  function BaseRate(fields: Fields, charge: nat, perMillion: PerMillion): Option<Price>
    requires charge < 4
  {
    if BaseField(fields, charge).Some? then perMillion(BaseField(fields, charge).value) else None
  }

  // A row compiles exactly when it sets a base rate, every rate it sets is a price and every tier
  // key has a usable threshold.
  ghost predicate RowOk(fields: Fields, perMillion: PerMillion) {
    && (forall c: nat | c < 4 :: BaseField(fields, c).Some? ==> perMillion(BaseField(fields, c).value).Some?)
    && (exists c: nat :: c < 4 && BaseField(fields, c).Some?)
    && (forall f | f in fields :: Usable(f, perMillion))
  }

  // Some price of the row has no place in the card.
  predicate Unplaced(f: (string, Json)) {
    !Skipped(f) && KeyFrom(f.0, 0).Plain? && Contains(f.0, "cost")
  }

  predicate Contains(s: string, part: string) {
    part <= s || (s != [] && Contains(s[1..], part))
  }

  // Member `i` is the override of `charge` that governs a total of `total` tokens: the one with the
  // highest threshold below it, the last of them if a threshold is spelled twice.
  ghost predicate Governs(fields: Fields, charge: nat, total: int, i: nat, threshold: i64) {
    && i < |fields| && Names(fields[i], charge, threshold) && threshold < total
    && forall j, t: i64 :: 0 <= j < |fields| && Names(fields[j], charge, t) && t < total ==>
         t < threshold || (t == threshold && j <= i)
  }

  // The rate a row means for a charge at a total.
  ghost predicate RowRate(fields: Fields, charge: nat, total: int, perMillion: PerMillion, rate: Option<Price>)
    requires charge < 4
  {
    if exists j, t: i64 :: 0 <= j < |fields| && Names(fields[j], charge, t) && t < total then
      exists i: nat, t: i64 :: Governs(fields, charge, total, i, t) && rate == perMillion(fields[i].1)
    else rate == BaseRate(fields, charge, perMillion)
  }

  // ---------- The overrides by threshold ----------

  function Overrides(fields: Fields, perMillion: PerMillion): map<i64, Values> {
    if fields == [] then map[]
    else
      var tiers := Overrides(fields[..|fields| - 1], perMillion);
      var f := fields[|fields| - 1];
      var key := KeyFrom(f.0, 0);
      if Skipped(f) || !key.Tier? then tiers else Entry(tiers, key, perMillion(f.1))
  }

  function Entry(tiers: map<i64, Values>, key: TierKey, price: Option<Price>): map<i64, Values>
    requires key.Tier? && key.charge < 4
  {
    var row := if key.threshold in tiers then tiers[key.threshold] else NONE;
    tiers[key.threshold := row[key.charge := price]]
  }

  // The last member that names a charge and threshold.
  ghost predicate Last(fields: Fields, charge: nat, threshold: i64, i: nat) {
    && i < |fields| && Names(fields[i], charge, threshold)
    && forall j :: i < j < |fields| ==> !Names(fields[j], charge, threshold)
  }

  lemma {:induction false} LastExists(fields: Fields, charge: nat, threshold: i64, j: nat) returns (i: nat)
    requires j < |fields| && Names(fields[j], charge, threshold)
    ensures Last(fields, charge, threshold, i) && j <= i
    decreases |fields| - j
  {
    if k :| j < k < |fields| && Names(fields[k], charge, threshold) {
      i := LastExists(fields, charge, threshold, k);
    } else {
      i := j;
    }
  }

  lemma LastOfInit(fields: Fields, charge: nat, threshold: i64, i: nat)
    requires fields != []
    ensures
      var init, f := fields[..|fields| - 1], fields[|fields| - 1];
      Last(fields, charge, threshold, i) <==>
        if Names(f, charge, threshold) then i == |fields| - 1 else Last(init, charge, threshold, i)
  {
    hide Names;
    var init := fields[..|fields| - 1];
    assert forall j | 0 <= j < |init| :: init[j] == fields[j];
  }

  lemma {:induction false} LastIsPriced(fields: Fields, perMillion: PerMillion, charge: nat, threshold: i64, i: nat)
    requires charge < 4 && Last(fields, charge, threshold, i) && forall f | f in fields :: Usable(f, perMillion)
    ensures
      var tiers := Overrides(fields, perMillion);
      threshold in tiers && tiers[threshold][charge] == perMillion(fields[i].1) && perMillion(fields[i].1).Some?
    decreases |fields|
  {
    LastIsIn(fields, charge, threshold, i);
    hide KeyFrom, Last;
    var init, f := fields[..|fields| - 1], fields[|fields| - 1];
    LastOfInit(fields, charge, threshold, i);
    assert f in fields && Usable(f, perMillion);
    if !Names(f, charge, threshold) {
      LastIsPriced(init, perMillion, charge, threshold, i);
      LastIsIn(init, charge, threshold, i);
    }
  }

  lemma LastIsIn(fields: Fields, charge: nat, threshold: i64, i: nat)
    requires Last(fields, charge, threshold, i)
    ensures i < |fields|
  {
  }

  lemma {:induction false} PricedIsLast(fields: Fields, perMillion: PerMillion, charge: nat, threshold: i64)
    returns (i: nat)
    requires charge < 4 && threshold in Overrides(fields, perMillion)
    requires Overrides(fields, perMillion)[threshold][charge].Some?
    ensures Last(fields, charge, threshold, i)
    decreases |fields|
  {
    hide KeyFrom, Last;
    var init, f := fields[..|fields| - 1], fields[|fields| - 1];
    if Names(f, charge, threshold) {
      i := |fields| - 1;
    } else {
      i := PricedIsLast(init, perMillion, charge, threshold);
    }
    LastOfInit(fields, charge, threshold, i);
  }

  // The table has a price for a charge and threshold exactly when some member names them, and it is
  // that of the last one.
  lemma OverridesExactly(fields: Fields, perMillion: PerMillion, charge: nat, threshold: i64)
    requires charge < 4
    requires forall f | f in fields :: Usable(f, perMillion)
    ensures forall i: nat | Last(fields, charge, threshold, i) ::
      var tiers := Overrides(fields, perMillion);
      threshold in tiers && tiers[threshold][charge] == perMillion(fields[i].1) && perMillion(fields[i].1).Some?
    ensures threshold in Overrides(fields, perMillion) && Overrides(fields, perMillion)[threshold][charge].Some? ==>
      exists i: nat :: Last(fields, charge, threshold, i)
  {
    hide Overrides, Usable, Names;
    forall i: nat | Last(fields, charge, threshold, i)
      ensures
        var tiers := Overrides(fields, perMillion);
        threshold in tiers && tiers[threshold][charge] == perMillion(fields[i].1) && perMillion(fields[i].1).Some?
    {
      LastIsPriced(fields, perMillion, charge, threshold, i);
    }
    if threshold in Overrides(fields, perMillion) && Overrides(fields, perMillion)[threshold][charge].Some? {
      var i := PricedIsLast(fields, perMillion, charge, threshold);
    }
  }

  // ---------- Cumulative tiers ----------

  // Threshold `t` is the highest below `total` with a price for the charge.
  ghost predicate Highest(tiers: map<i64, Values>, charge: nat, total: int, t: i64)
    requires charge < 4
  {
    && Prices(tiers, charge, t) && t < total
    && forall u: i64 :: Prices(tiers, charge, u) && u < total ==> u <= t
  }

  predicate Prices(tiers: map<i64, Values>, charge: nat, t: i64)
    requires charge < 4
  {
    t in tiers && tiers[t][charge].Some?
  }

  ghost predicate TierRate(tiers: map<i64, Values>, base: Values, charge: nat, total: int, rate: Option<Price>)
    requires charge < 4
  {
    || (exists t: i64 :: Highest(tiers, charge, total, t) && rate == tiers[t][charge])
    || (rate == base[charge] && forall t: i64 :: Prices(tiers, charge, t) ==> t >= total)
  }

  function Merge(values: Values, updates: Values): Values {
    [ if updates[0].Some? then updates[0] else values[0],
      if updates[1].Some? then updates[1] else values[1],
      if updates[2].Some? then updates[2] else values[2],
      if updates[3].Some? then updates[3] else values[3] ]
  }

  // Between two totals with no priced threshold from the first up to the second the rate stays.
  lemma SameRate(tiers: map<i64, Values>, base: Values, charge: nat, low: int, high: int, rate: Option<Price>)
    requires charge < 4 && low <= high
    requires TierRate(tiers, base, charge, low, rate)
    requires forall t: i64 :: Prices(tiers, charge, t) && t < high ==> t < low
    ensures TierRate(tiers, base, charge, high, rate)
  {
    if t: i64 :| Highest(tiers, charge, low, t) && rate == tiers[t][charge] {
      assert Highest(tiers, charge, high, t);
    }
  }

  lemma MergeRates(tiers: map<i64, Values>, base: Values, charge: nat, last: i64, t: i64, values: Values)
    requires charge < 4 && last < t && t in tiers
    requires TierRate(tiers, base, charge, last + 1, values[charge])
    requires forall u: i64 | u in tiers && u > last :: u >= t
    ensures TierRate(tiers, base, charge, t + 1, Merge(values, tiers[t])[charge])
  {
    if tiers[t][charge].Some? {
      assert Highest(tiers, charge, t + 1, t);
    } else {
      SameRate(tiers, base, charge, last + 1, t + 1, values[charge]);
    }
  }

  // The cumulative tiers of a table of overrides.
  ghost predicate Cumulative(tiers: map<i64, Values>, base: Values, out: seq<ContextPriceTier>) {
    && (forall k :: 0 <= k < |out| ==> out[k].overTotalInputTokens in tiers)
    && (forall j, k :: 0 <= j < k < |out| ==> out[j].overTotalInputTokens < out[k].overTotalInputTokens)
    && (forall k, c: nat | 0 <= k < |out| && c < 4 ::
          TierRate(tiers, base, c, out[k].overTotalInputTokens + 1, out[k].rates.Rate(c)))
  }

  predicate Emitted(out: seq<ContextPriceTier>, t: i64) {
    exists k :: 0 <= k < |out| && out[k].overTotalInputTokens == t
  }

  method Cumulate(base: Values, tiers: map<i64, Values>) returns (out: seq<ContextPriceTier>)
    requires forall t | t in tiers :: t > 0
    ensures Cumulative(tiers, base, out) && forall t | t in tiers :: Emitted(out, t)
  {
    hide TierRate, Cumulative, Emitted, Merge;
    out := [];
    var values, rest := base, tiers;
    ghost var last: i64 := 0;
    NothingEmitted(tiers, base);
    while rest != map[]
      invariant Above(tiers, last, rest)
      invariant forall c: nat | c < 4 :: TierRate(tiers, base, c, last + 1, values[c])
      invariant Cumulative(tiers, base, out) && forall t: i64 | Emitted(out, t) :: t <= last
      invariant forall t | t in tiers && t <= last :: Emitted(out, t)
      decreases |rest|
    {
      var t, updates, others := PopFirst(rest, Less);
      TakenInOrder(tiers, last, rest, t);
      forall c: nat | c < 4 ensures TierRate(tiers, base, c, t as int + 1, Merge(values, updates)[c]) {
        MergeRates(tiers, base, c, last, t, values);
      }
      values := Merge(values, updates);
      Emits(tiers, base, out, t, values);
      out := out + [ContextPriceTier(t, Rates(values))];
      rest := others;
      last := t;
    }
  }

  // The entries whose threshold is past the last one taken.
  ghost predicate Above(tiers: map<i64, Values>, last: i64, rest: map<i64, Values>) {
    forall t: i64 :: (t in rest <==> t in tiers && t > last) && (t in rest ==> rest[t] == tiers[t])
  }

  predicate Less(t: i64, u: i64) {
    t < u
  }

  lemma TakenInOrder(tiers: map<i64, Values>, last: i64, rest: map<i64, Values>, t: i64)
    requires Above(tiers, last, rest) && t in rest && forall u | u in rest && u != t :: Less(t, u)
    ensures t in tiers && t > last && rest[t] == tiers[t] && Above(tiers, t, rest - {t})
    ensures forall u | u in tiers && u > last :: u >= t
  {
  }

  lemma NothingEmitted(tiers: map<i64, Values>, base: Values)
    requires forall t | t in tiers :: t > 0
    ensures forall c: nat | c < 4 :: TierRate(tiers, base, c, 1, base[c])
    ensures Cumulative(tiers, base, []) && forall t: i64 :: !Emitted([], t)
    ensures Above(tiers, 0, tiers)
  {
  }

  lemma Emits(tiers: map<i64, Values>, base: Values, out: seq<ContextPriceTier>, t: i64, values: Values)
    requires Cumulative(tiers, base, out) && t in tiers
    requires forall u: i64 | Emitted(out, u) :: u < t
    requires forall c: nat | c < 4 :: TierRate(tiers, base, c, t + 1, values[c])
    ensures
      var next := out + [ContextPriceTier(t, Rates(values))];
      Cumulative(tiers, base, next) && forall u: i64 :: Emitted(next, u) <==> Emitted(out, u) || u == t
  {
    hide TierRate;
    var next := out + [ContextPriceTier(t, Rates(values))];
    forall u: i64 ensures Emitted(next, u) <==> Emitted(out, u) || u == t {
      assert next[|out|].overTotalInputTokens == t;
      if k :| 0 <= k < |out| && out[k].overTotalInputTokens == u {
        assert next[k] == out[k];
      }
    }
    assert forall k | 0 <= k < |out| :: Emitted(out, out[k].overTotalInputTokens);
    forall k, c: nat | 0 <= k < |next| && c < 4
      ensures TierRate(tiers, base, c, next[k].overTotalInputTokens + 1, next[k].rates.Rate(c))
    {
      if k == |out| {
        assert next[k].rates.Rate(c) == values[c];
      } else {
        assert next[k] == out[k];
      }
    }
  }

  // ---------- The compiler ----------

  function BaseRates(fields: Fields, perMillion: PerMillion): Values {
    [BaseRate(fields, 0, perMillion), BaseRate(fields, 1, perMillion), BaseRate(fields, 2, perMillion),
     BaseRate(fields, 3, perMillion)]
  }

  // The card of a row: its base rates, and tiers that accumulate its overrides.
  ghost predicate Compiled(fields: Fields, perMillion: PerMillion, card: PriceCard) {
    var tiers := Overrides(fields, perMillion);
    && card.base == Rates(BaseRates(fields, perMillion))
    && card.Ordered()
    && Cumulative(tiers, BaseRates(fields, perMillion), card.tiers)
    && forall t | t in tiers :: Emitted(card.tiers, t)
  }

  method LitellmCard(fields: Fields, perMillion: PerMillion) returns (r: Result<(PriceCard, bool), CardError>)
    ensures r.Ok? <==> RowOk(fields, perMillion)
    ensures r.Ok? ==> Compiled(fields, perMillion, r.value.0)
    ensures r.Ok? ==> (r.value.1 <==> exists f :: f in fields && Unplaced(f))
  {
    hide Compiled, Cumulative, KeyFrom, Overrides, Entry, Contains;
    var values := NONE;
    for i := 0 to 4
      invariant forall c: nat | c < i :: BaseField(fields, c).Some? ==> perMillion(BaseField(fields, c).value).Some?
      invariant forall c: nat | c < 4 :: values[c] == if c < i then BaseRate(fields, c, perMillion) else None
    {
      var v := BaseField(fields, i);
      if v.Some? {
        var price := perMillion(v.value);
        if price.None? {
          return Err(BadPrice);
        }
        values := values[i := price];
      }
    }
    if values[0].None? && values[1].None? && values[2].None? && values[3].None? {
      return Err(NoTokenPrices);
    }
    assert values == BaseRates(fields, perMillion);
    assert exists c: nat :: c < 4 && BaseField(fields, c).Some? by {
      var c := if values[0].Some? then 0 else if values[1].Some? then 1 else if values[2].Some? then 2 else 3;
      assert BaseField(fields, c).Some?;
    }
    var tiers, partial, bad := CollectOverrides(fields, perMillion);
    if bad.Some? {
      return Err(bad.value);
    }
    OverridesPositive(fields, perMillion);
    var out := Cumulate(values, tiers);
    Compiles(fields, perMillion, PriceCard(Rates(values), out));
    return Ok((PriceCard(Rates(values), out), partial));
  }

  lemma Compiles(fields: Fields, perMillion: PerMillion, card: PriceCard)
    requires card.base == Rates(BaseRates(fields, perMillion))
    requires Cumulative(Overrides(fields, perMillion), BaseRates(fields, perMillion), card.tiers)
    requires forall t | t in Overrides(fields, perMillion) :: t > 0 && Emitted(card.tiers, t)
    ensures Compiled(fields, perMillion, card)
  {
    hide TierRate, Overrides, Emitted;
  }

  lemma {:induction false} OverridesPositive(fields: Fields, perMillion: PerMillion)
    ensures forall t | t in Overrides(fields, perMillion) :: t > 0
    decreases |fields|
  {
    if fields != [] {
      OverridesPositive(fields[..|fields| - 1], perMillion);
    }
  }

  method CollectOverrides(fields: Fields, perMillion: PerMillion)
    returns (tiers: map<i64, Values>, partial: bool, bad: Option<CardError>)
    ensures bad.None? <==> forall f | f in fields :: Usable(f, perMillion)
    ensures bad.None? ==> tiers == Overrides(fields, perMillion)
    ensures bad.None? ==> (partial <==> exists f :: f in fields && Unplaced(f))
  {
    hide KeyFrom, Entry, Contains;
    tiers, partial, bad := map[], false, None;
    for i := 0 to |fields|
      invariant forall j :: 0 <= j < i ==> Usable(fields[j], perMillion)
      invariant tiers == Overrides(fields[..i], perMillion)
      invariant partial <==> exists j :: 0 <= j < i && Unplaced(fields[j])
    {
      var f := fields[i];
      assert fields[..i + 1][..i] == fields[..i] && fields[..i + 1][i] == f;
      if Skipped(f) {
        continue;
      }
      var key := ParseKey(f.0);
      match key {
        case Unusable =>
          bad := Some(BadThreshold);
          assert f in fields && !Usable(f, perMillion);
          return;
        case Tier(_, _) =>
          var price := perMillion(f.1);
          if price.None? {
            bad := Some(BadPrice);
            assert f in fields && !Usable(f, perMillion);
            return;
          }
          tiers := Entry(tiers, key, price);
        case Plain =>
          partial := partial || Contains(f.0, "cost");
      }
    }
    assert fields[..|fields|] == fields;
  }

  // ---------- What a compiled card charges ----------

  // The tier selected for a total carries the rates the table of overrides gives at that total.
  lemma SelectedRate(fields: Fields, perMillion: PerMillion, card: PriceCard, usage: Usage, charge: nat)
    requires charge < 4 && Compiled(fields, perMillion, card)
    ensures card.Ordered()
    ensures card.RatesForTier(card.TierIndexForUsage(usage)).Some?
    ensures TierRate(Overrides(fields, perMillion), BaseRates(fields, perMillion), charge, TotalInputTokens(usage),
                     card.RatesForTier(card.TierIndexForUsage(usage)).value.Rate(charge))
  {
    hide Overrides, BaseRate, TotalInputTokens, LastBelow;
    var tiers, base := Overrides(fields, perMillion), BaseRates(fields, perMillion);
    var total, k := TotalInputTokens(usage), card.TierIndexForUsage(usage);
    assert forall t | Prices(tiers, charge, t) :: Emitted(card.tiers, t);
    if k > 0 {
      var t := card.tiers[k - 1];
      SameRate(tiers, base, charge, t.overTotalInputTokens + 1, total, t.rates.Rate(charge));
    } else {
      assert card.base.Rate(charge) == base[charge];
    }
  }

  lemma NamedIsPriced(fields: Fields, perMillion: PerMillion, charge: nat, j: nat, t: i64)
    requires charge < 4 && j < |fields| && Names(fields[j], charge, t)
    requires forall f | f in fields :: Usable(f, perMillion)
    ensures Prices(Overrides(fields, perMillion), charge, t)
  {
    hide Overrides, Names, Usable;
    OverridesExactly(fields, perMillion, charge, t);
    var i := LastExists(fields, charge, t, j);
  }

  lemma TableMeansRow(fields: Fields, perMillion: PerMillion, charge: nat, total: int, rate: Option<Price>)
    requires charge < 4 && forall f | f in fields :: Usable(f, perMillion)
    requires TierRate(Overrides(fields, perMillion), BaseRates(fields, perMillion), charge, total, rate)
    ensures RowRate(fields, charge, total, perMillion, rate)
  {
    hide Overrides, Names, Usable, BaseRate;
    var tiers, base := Overrides(fields, perMillion), BaseRates(fields, perMillion);
    if t: i64 :| Highest(tiers, charge, total, t) && rate == tiers[t][charge] {
      OverridesExactly(fields, perMillion, charge, t);
      var i: nat :| Last(fields, charge, t, i);
      forall j, u: i64 | 0 <= j < |fields| && Names(fields[j], charge, u) && u < total
        ensures u < t || (u == t && j <= i)
      {
        NamedIsPriced(fields, perMillion, charge, j, u);
      }
      assert Governs(fields, charge, total, i, t) && rate == perMillion(fields[i].1);
    } else {
      assert base[charge] == BaseRate(fields, charge, perMillion);
      forall j, u: i64 | 0 <= j < |fields| && Names(fields[j], charge, u) ensures u >= total {
        NamedIsPriced(fields, perMillion, charge, j, u);
      }
    }
  }

  lemma RowUsable(fields: Fields, perMillion: PerMillion)
    requires RowOk(fields, perMillion)
    ensures forall f | f in fields :: Usable(f, perMillion)
  {
  }

  // A row means one rate only.
  lemma RowRateIsOne(fields: Fields, charge: nat, total: int, perMillion: PerMillion,
                     r: Option<Price>, s: Option<Price>)
    requires charge < 4
    requires RowRate(fields, charge, total, perMillion, r) && RowRate(fields, charge, total, perMillion, s)
    ensures r == s
  {
    hide Names, BaseRate;
    if exists j, t: i64 :: 0 <= j < |fields| && Names(fields[j], charge, t) && t < total {
      var i: nat, t: i64 :| Governs(fields, charge, total, i, t) && r == perMillion(fields[i].1);
      var j: nat, u: i64 :| Governs(fields, charge, total, j, u) && s == perMillion(fields[j].1);
      assert i == j;
    }
  }

  // The rate charged for each kind of token is the one the row means at the request's total input:
  // the override with the highest threshold below the total that names the charge, else the base.
  lemma CardMeansRow(fields: Fields, perMillion: PerMillion, card: PriceCard, usage: Usage, charge: nat)
    requires charge < 4
    requires RowOk(fields, perMillion) && Compiled(fields, perMillion, card)
    ensures card.Ordered()
    ensures card.RatesForTier(card.TierIndexForUsage(usage)).Some?
    ensures RowRate(fields, charge, TotalInputTokens(usage), perMillion,
                    card.RatesForTier(card.TierIndexForUsage(usage)).value.Rate(charge))
  {
    hide *;
    RowUsable(fields, perMillion);
    SelectedRate(fields, perMillion, card, usage, charge);
    TableMeansRow(fields, perMillion, charge, TotalInputTokens(usage),
                  card.RatesForTier(card.TierIndexForUsage(usage)).value.Rate(charge));
  }
}
