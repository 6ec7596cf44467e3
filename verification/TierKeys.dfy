/** What the keys of a LiteLLM row mean: the keys spelled out, the digits of a threshold by a printer,
    and the compiler's reading of them. */
module TierKeys {
  import opened Wrappers
  import opened Int64
  import opened JsonTree
  import opened Pricing
  import opened PriceCatalogue

  function RateName(charge: nat): string
    requires charge < 4
  {
    match charge
    case 0 => "input_cost_per_token"
    case 1 => "output_cost_per_token"
    case 2 => "cache_read_input_token_cost"
    case _ => "cache_creation_input_token_cost"
  }

  // ---------- Printing a threshold ----------

  function Digits(n: nat): (s: string)
    ensures s != []
  {
    if n < 10 then ["0123456789"[n]] else Digits(n / 10) + ["0123456789"[n % 10]]
  }

  // The digits of `n` after any number of zeros.
  function Numeral(zeros: nat, n: nat): (s: string)
    ensures s != []
  {
    if zeros == 0 then Digits(n) else "0" + Numeral(zeros - 1, n)
  }

  function TierName(charge: nat, number: string, kilo: bool): string
    requires charge < 4
  {
    RateName(charge) + "_above_" + number + (if kilo then "k" else "") + "_tokens"
  }

  // ---------- Reading it back ----------

  lemma {:induction false} DecimalLast(s: string, c: char)
    requires AllDigits(s) && '0' <= c <= '9'
    ensures AllDigits(s + [c]) && Decimal(s + [c]) == Decimal(s) * 10 + (c as int - '0' as int)
  {
    assert (s + [c])[..|s|] == s;
  }

  lemma {:induction false} DigitsRead(n: nat)
    ensures AllDigits(Digits(n)) && Decimal(Digits(n)) == n
    decreases n
  {
    hide Decimal;
    assert forall d | 0 <= d < 10 :: "0123456789"[d] as int == '0' as int + d;
    if n < 10 {
      DecimalLast([], "0123456789"[n]);
      DecimalNothing();
      assert [] + ["0123456789"[n]] == Digits(n);
    } else {
      DigitsRead(n / 10);
      DecimalLast(Digits(n / 10), "0123456789"[n % 10]);
    }
  }

  lemma DecimalNothing()
    ensures Decimal([]) == 0
  {
  }

  lemma {:induction false} ZeroInFront(s: string)
    requires AllDigits(s)
    ensures AllDigits("0" + s) && Decimal("0" + s) == Decimal(s)
    decreases |s|
  {
    if s == [] {
      assert ("0" + s)[..0] == [] && "0" + s == "0";
      DecimalNothing();
    } else {
      var n := |s| - 1;
      ZeroInFront(s[..n]);
      assert ("0" + s)[..n + 1] == "0" + s[..n];
    }
  }

  lemma {:induction false} NumeralReads(zeros: nat, n: nat)
    ensures AllDigits(Numeral(zeros, n)) && Decimal(Numeral(zeros, n)) == n
    decreases zeros
  {
    if zeros == 0 {
      DigitsRead(n);
    } else {
      NumeralReads(zeros - 1, n);
      ZeroInFront(Numeral(zeros - 1, n));
    }
  }

  lemma {:induction false} NumeralGrows(zeros: nat, n: nat, d: nat) returns (z: nat)
    requires d < 10
    ensures Numeral(zeros, n) + ["0123456789"[d]] == Numeral(z, n * 10 + d)
    decreases zeros
  {
    if zeros == 0 {
      if n == 0 {
        z := 1;
        assert Digits(0) == "0" && Numeral(0, d) == ["0123456789"[d]];
      } else {
        z := 0;
      }
    } else {
      z := NumeralGrows(zeros - 1, n, d);
      z := z + 1;
      assert ("0" + Numeral(zeros - 1, n)) + ["0123456789"[d]] == "0" + (Numeral(zeros - 1, n) + ["0123456789"[d]]);
    }
  }

  // Every row of digits is a numeral.
  lemma {:induction false} DigitsAreNumeral(s: string) returns (zeros: nat)
    requires s != [] && AllDigits(s)
    ensures s == Numeral(zeros, Decimal(s))
    decreases |s|
  {
    var n := |s| - 1;
    var d := s[n] as int - '0' as int;
    assert "0123456789"[d] == s[n];
    if n == 0 {
      zeros := 0;
      DecimalNothing();
      assert s[..0] == [] && s == ["0123456789"[d]];
    } else {
      zeros := DigitsAreNumeral(s[..n]);
      zeros := NumeralGrows(zeros, Decimal(s[..n]), d);
      assert s == s[..n] + [s[n]];
    }
  }

  // ---------- Reading a key ----------

  lemma RatesAreNamed(charge: nat)
    requires charge < 4
    ensures LITELLM_RATES[charge] == RateName(charge)
  {
  }

  // A key that starts with one rate's name starts with no other's.
  lemma OneRate(charge: nat, other: nat, rest: string)
    requires charge < 4 && other < 4 && charge != other
    ensures !(RateName(other) + "_above_" <= RateName(charge) + "_above_" + rest)
  {
    var key, prefix := RateName(charge) + "_above_" + rest, RateName(other) + "_above_";
    var i := if (charge == 2 || charge == 3) && (other == 2 || other == 3) then 7 else 0;
    assert key[i] == RateName(charge)[i] && prefix[i] == RateName(other)[i];
    assert key[i] != prefix[i];
  }

  lemma KeyOfRate(charge: nat, rest: string)
    requires charge < 4
    ensures
      var key := RateName(charge) + "_above_" + rest;
      KeyFrom(key, 0) == KeyFor(key, charge)
  {
    hide KeyFor, RateName;
    var key := RateName(charge) + "_above_" + rest;
    forall other: nat | other < 4 && other != charge ensures KeyFor(key, other).Plain? {
      OneRate(charge, other, rest);
      NoPrefix(key, other);
    }
    assert KeyFrom(key, 4).Plain?;
    assert KeyFrom(key, 3) == if charge == 3 then KeyFor(key, 3) else Plain;
    assert KeyFrom(key, 2) == if charge >= 2 then KeyFor(key, charge) else Plain;
    assert KeyFrom(key, 1) == if charge >= 1 then KeyFor(key, charge) else Plain;
  }

  lemma NoPrefix(key: string, charge: nat)
    requires charge < 4 && !(RateName(charge) + "_above_" <= key)
    ensures KeyFor(key, charge).Plain?
  {
    RatesAreNamed(charge);
    hide RateName;
  }

  lemma Strips(prefix: string, span: string, suffix: string)
    ensures StripPrefix(prefix + span, prefix) == Some(span)
    ensures StripSuffix(span + suffix, suffix) == Some(span)
  {
    assert (prefix + span)[|prefix|..] == span;
    assert (span + suffix)[|span|..] == suffix && (span + suffix)[..|span|] == span;
  }

  // What a rate's key with a row of digits says: its number, or a thousand times it.
  lemma NumberReads(charge: nat, number: string, kilo: bool)
    requires charge < 4 && AllDigits(number)
    ensures
      var threshold := if kilo then 1000 * Decimal(number) else Decimal(number);
      KeyFrom(TierName(charge, number, kilo), 0) ==
        if number != [] && 0 < threshold <= Int64.MAX then Tier(charge, threshold) else Unusable
  {
    hide RateName, Decimal, KeyFrom;
    var key := TierName(charge, number, kilo);
    var prefix := RateName(charge) + "_above_";
    var span := number + if kilo then "k" else "";
    assert key == prefix + (span + "_tokens");
    KeyOfRate(charge, span + "_tokens");
    RatesAreNamed(charge);
    Strips(prefix, span + "_tokens", "");
    Strips("", span, "_tokens");
    if kilo {
      Strips("", number, "k");
    } else if number == [] {
      assert span == [];
    } else {
      assert span == number && span[|span| - 1] != 'k';
      assert span[|span| - 1..] == [span[|span| - 1]];
      assert StripSuffix(span, "k") == None;
    }
  }

  // For each of the four rates, whatever the number and the zeros in front of it: the key names the
  // rate above that number, or above a thousand times it with a `k`, and is unusable exactly when that
  // is 0 or no 64-bit integer.
  lemma KeysRead(charge: nat, zeros: nat, n: nat, kilo: bool)
    requires charge < 4
    ensures
      var threshold := if kilo then 1000 * n else n;
      KeyFrom(TierName(charge, Numeral(zeros, n), kilo), 0) ==
        if 0 < threshold <= 0x7FFF_FFFF_FFFF_FFFF then Tier(charge, threshold) else Unusable
  {
    hide Numeral, TierName, KeyFrom;
    NumeralReads(zeros, n);
    NumberReads(charge, Numeral(zeros, n), kilo);
  }

  ghost predicate Spells(key: string, charge: nat, threshold: i64)
    requires charge < 4
  {
    exists zeros: nat, n: nat, kilo: bool ::
      key == TierName(charge, Numeral(zeros, n), kilo) && threshold == (if kilo then 1000 * n else n)
  }

  // And no other key does: a key is read as a rate above a threshold exactly when it spells that.
  lemma KeysMean(key: string, charge: nat, threshold: i64)
    requires charge < 4 && threshold > 0
    ensures KeyFrom(key, 0) == Tier(charge, threshold) <==> Spells(key, charge, threshold)
  {
    hide TierName, Numeral, KeyFrom;
    if KeyFrom(key, 0) == Tier(charge, threshold) {
      TierKeysSpell(key, charge, threshold);
    }
    if Spells(key, charge, threshold) {
      var zeros: nat, n: nat, kilo: bool :|
        key == TierName(charge, Numeral(zeros, n), kilo) && threshold == (if kilo then 1000 * n else n);
      KeysRead(charge, zeros, n, kilo);
    }
  }

  lemma {:induction false} KeyForIsRead(key: string, from: nat) returns (charge: nat)
    requires from <= 4 && !KeyFrom(key, from).Plain?
    ensures charge < 4 && KeyFor(key, charge) == KeyFrom(key, from)
    ensures KeyFrom(key, from).Tier? ==> charge == KeyFrom(key, from).charge
    decreases 4 - from
  {
    hide KeyFor;
    if KeyFor(key, from).Plain? {
      charge := KeyForIsRead(key, from + 1);
    } else {
      charge := from;
    }
  }

  lemma StripsBack(s: string, prefix: string, suffix: string)
    ensures StripPrefix(s, prefix).Some? ==> s == prefix + StripPrefix(s, prefix).value
    ensures StripSuffix(s, suffix).Some? ==> s == StripSuffix(s, suffix).value + suffix
  {
  }

  // The parts of a key that is read as something.
  lemma TierParts(key: string, charge: nat) returns (number: string, kilo: bool)
    requires charge < 4 && !KeyFor(key, charge).Plain?
    ensures key == TierName(charge, number, kilo) && AllDigits(number)
  {
    RatesAreNamed(charge);
    hide Decimal, RateName;
    var prefix := RateName(charge) + "_above_";
    var rest := StripPrefix(key, prefix).value;
    var span := StripSuffix(rest, "_tokens").value;
    kilo := StripSuffix(span, "k").Some?;
    number := if kilo then StripSuffix(span, "k").value else span;
    StripsBack(key, prefix, "");
    StripsBack(rest, "", "_tokens");
    StripsBack(span, "", "k");
    hide StripPrefix, StripSuffix, AllDigits, TierName;
    assert !kilo ==> number + "" == number;
    NameParts(charge, number, kilo);
  }

  lemma TierKeysSpell(key: string, charge: nat, threshold: i64)
    requires charge < 4 && KeyFrom(key, 0) == Tier(charge, threshold)
    ensures Spells(key, charge, threshold)
  {
    var _ := KeyForIsRead(key, 0);
    var number, kilo := TierParts(key, charge);
    hide Decimal, KeyFrom, KeyFor, AllDigits, TierName;
    NumberReads(charge, number, kilo);
    var zeros := DigitsAreNumeral(number);
    assert key == TierName(charge, Numeral(zeros, Decimal(number)), kilo);
  }

  // A tier's name without digits, or with digits for 0 or for no 64-bit integer.
  ghost predicate Misspells(key: string) {
    exists charge: nat, number: string, kilo: bool ::
      && charge < 4 && key == TierName(charge, number, kilo)
      && (number == "" || exists zeros: nat, n: nat ::
            number == Numeral(zeros, n) && !(0 < (if kilo then 1000 * n else n) <= 0x7FFF_FFFF_FFFF_FFFF))
  }

  // A key makes its row unusable exactly when it is such a name.
  lemma UnusableExactly(key: string)
    ensures KeyFrom(key, 0) == Unusable <==> Misspells(key)
  {
    hide TierName, Numeral, KeyFrom, Decimal;
    if KeyFrom(key, 0) == Unusable {
      var charge := KeyForIsRead(key, 0);
      var number, kilo := TierParts(key, charge);
      NumberReads(charge, number, kilo);
      if number != "" {
        var zeros := DigitsAreNumeral(number);
        assert number == Numeral(zeros, Decimal(number));
      }
      assert key == TierName(charge, number, kilo);
    }
    if Misspells(key) {
      var charge: nat, number: string, kilo: bool :|
        && charge < 4 && key == TierName(charge, number, kilo)
        && (number == "" || exists zeros: nat, n: nat ::
              number == Numeral(zeros, n) && !(0 < (if kilo then 1000 * n else n) <= 0x7FFF_FFFF_FFFF_FFFF));
      if number == "" {
        NumberReads(charge, number, kilo);
      } else {
        var zeros: nat, n: nat :|
          number == Numeral(zeros, n) && !(0 < (if kilo then 1000 * n else n) <= 0x7FFF_FFFF_FFFF_FFFF);
        KeysRead(charge, zeros, n, kilo);
      }
    }
  }

  lemma NameParts(charge: nat, number: string, kilo: bool)
    requires charge < 4
    ensures TierName(charge, number, kilo)
         == RateName(charge) + "_above_" + (number + (if kilo then "k" else "") + "_tokens")
  {
    hide RateName;
  }

  // The key of the long-context price, and one that qualifies a price by something else.
  lemma TwoHundredThousand()
    ensures KeyFrom("input_cost_per_token_above_200k_tokens", 0) == Tier(0, 200_000)
    ensures KeyFrom("input_cost_per_token_above_200k_tokens_priority", 0) == Plain
  {
    hide KeyFrom, KeyFor;
    assert Digits(2) == "2" && Digits(20) == "20" && Digits(200) == "200";
    KeysRead(0, 0, 200, true);
    NameParts(0, "200", true);
    assert TierName(0, "200", true) == "input_cost_per_token_above_200k_tokens";
    PriorityIsPlain();
  }

  lemma PriorityIsPlain()
    ensures KeyFrom("input_cost_per_token_above_200k_tokens_priority", 0) == Plain
  {
    hide KeyFrom, KeyFor;
    KeyOfRate(0, "200k_tokens_priority");
    assert RateName(0) + "_above_" + "200k_tokens_priority" == "input_cost_per_token_above_200k_tokens_priority";
    NoSuffix(0, "200k_tokens_priority");
  }

  lemma NoSuffix(charge: nat, rest: string)
    requires charge < 4 && |rest| >= 7 && rest[|rest| - 7] != '_'
    ensures KeyFor(RateName(charge) + "_above_" + rest, charge) == Plain
  {
    RatesAreNamed(charge);
    hide RateName;
    Strips(RateName(charge) + "_above_", rest, "");
    assert rest[|rest| - 7..][0] == rest[|rest| - 7];
  }

  // ---------- The base rates ----------

  // The member's value, unless it is missing or null.
  ghost predicate Sets(fields: Fields, name: string, v: Json) {
    v != Null && exists i :: 0 <= i < |fields| && fields[i] == (name, v) && forall j | 0 <= j < i :: fields[j].0 != name
  }

  lemma {:induction false} LookupFinds(fields: Fields, name: string, v: Json)
    ensures Lookup(fields, name) == Some(v)
      <==> exists i :: 0 <= i < |fields| && fields[i] == (name, v) && forall j | 0 <= j < i :: fields[j].0 != name
    decreases |fields|
  {
    if fields != [] && fields[0].0 != name {
      LookupFinds(fields[1..], name, v);
      if i :| 0 <= i < |fields| && fields[i] == (name, v) && forall j | 0 <= j < i :: fields[j].0 != name {
        assert fields[1..][i - 1] == (name, v) && forall j | 0 <= j < i - 1 :: fields[1..][j].0 == fields[j + 1].0;
      }
      if i :| 0 <= i < |fields| - 1 && fields[1..][i] == (name, v)
              && forall j | 0 <= j < i :: fields[1..][j].0 != name {
        assert fields[i + 1] == (name, v);
        assert forall j | 0 < j < i + 1 :: fields[j].0 == fields[1..][j - 1].0;
      }
    }
  }

  lemma BaseSets(fields: Fields, perMillion: PerMillion, charge: nat, v: Json)
    requires charge < 4
    ensures Sets(fields, RateName(charge), v) ==> BaseRate(fields, charge, perMillion) == perMillion(v)
    ensures (forall w :: !Sets(fields, RateName(charge), w)) ==> BaseRate(fields, charge, perMillion) == None
  {
    RatesAreNamed(charge);
    hide RateName;
    LookupFinds(fields, RateName(charge), v);
    if BaseField(fields, charge).Some? {
      LookupFinds(fields, RateName(charge), BaseField(fields, charge).value);
      assert Sets(fields, RateName(charge), BaseField(fields, charge).value);
    }
  }

  // The price of each kind of token in a compiled card comes from the member with its name, and is
  // missing if there is none.
  lemma BaseRatesByName(fields: Fields, perMillion: PerMillion, card: PriceCard, v: Json)
    requires Compiled(fields, perMillion, card)
    ensures Sets(fields, "input_cost_per_token", v) ==> card.base.input == perMillion(v)
    ensures Sets(fields, "output_cost_per_token", v) ==> card.base.output == perMillion(v)
    ensures Sets(fields, "cache_read_input_token_cost", v) ==> card.base.cacheRead == perMillion(v)
    ensures Sets(fields, "cache_creation_input_token_cost", v) ==> card.base.cacheWrite == perMillion(v)
    ensures (forall w :: !Sets(fields, "input_cost_per_token", w)) ==> card.base.input == None
    ensures (forall w :: !Sets(fields, "output_cost_per_token", w)) ==> card.base.output == None
    ensures (forall w :: !Sets(fields, "cache_read_input_token_cost", w)) ==> card.base.cacheRead == None
    ensures (forall w :: !Sets(fields, "cache_creation_input_token_cost", w)) ==> card.base.cacheWrite == None
  {
    hide Sets, Cumulative, Overrides, BaseRate, Emitted;
    BaseSets(fields, perMillion, 0, v);
    BaseSets(fields, perMillion, 1, v);
    BaseSets(fields, perMillion, 2, v);
    BaseSets(fields, perMillion, 3, v);
  }

  // ---------- Prices without a place ----------

  // A text contains a part exactly when it is something, the part, and something more.
  lemma ContainsMeans(s: string, part: string)
    ensures Contains(s, part) <==> exists before: string, after: string :: s == before + part + after
  {
    if Contains(s, part) {
      var before, after := PartWithin(s, part);
    }
    if before: string, after: string :| s == before + part + after {
      WithinContains(before, part, after);
    }
  }

  lemma {:induction false} PartWithin(s: string, part: string) returns (before: string, after: string)
    requires Contains(s, part)
    ensures s == before + part + after
    decreases |s|
  {
    if part <= s {
      before, after := "", s[|part|..];
    } else {
      before, after := PartWithin(s[1..], part);
      before := [s[0]] + before;
    }
  }

  lemma {:induction false} WithinContains(before: string, part: string, after: string)
    ensures Contains(before + part + after, part)
    decreases |before|
  {
    var s := before + part + after;
    if before == [] {
      assert s[..|part|] == part;
    } else {
      assert s[1..] == before[1..] + part + after;
      WithinContains(before[1..], part, after);
    }
  }

  // ---------- What a member says ----------

  lemma RateIsNoTier(charge: nat, other: nat, number: string, kilo: bool)
    requires charge < 4 && other < 4
    ensures RateName(charge) != TierName(other, number, kilo)
  {
    var name, tier := RateName(charge), TierName(other, number, kilo);
    assert |tier| >= |RateName(other)| + |"_above_"| + |"_tokens"|;
    if charge != other {
      var i := if (charge == 2 || charge == 3) && (other == 2 || other == 3) then 7 else 0;
      assert name[i] != RateName(other)[i] && tier[i] == RateName(other)[i];
    }
  }

  // A member overrides a rate above a threshold exactly when its key spells that and its value is not
  // null.
  lemma NamesExactly(f: (string, Json), charge: nat, threshold: i64)
    requires charge < 4 && threshold > 0
    ensures Names(f, charge, threshold) <==> f.1 != Null && Spells(f.0, charge, threshold)
  {
    hide KeyFrom, Spells;
    KeysMean(f.0, charge, threshold);
    if Spells(f.0, charge, threshold) {
      SpelledIsNoRate(f.0, charge, threshold);
    }
  }

  lemma SpelledIsNoRate(key: string, charge: nat, threshold: i64)
    requires charge < 4 && Spells(key, charge, threshold)
    ensures key !in LITELLM_RATES
  {
    hide TierName, Numeral, RateName;
    var zeros: nat, n: nat, kilo: bool :|
      key == TierName(charge, Numeral(zeros, n), kilo) && threshold == (if kilo then 1000 * n else n);
    forall c: nat | c < 4 ensures LITELLM_RATES[c] != key {
      RatesAreNamed(c);
      RateIsNoTier(c, charge, Numeral(zeros, n), kilo);
    }
  }

  // A price has no place in the card exactly when its key, which holds the letters `cost`, is none of
  // the four rates and no tier's name, spelled well or not, and its value is not null.
  lemma UnplacedExactly(f: (string, Json))
    ensures Unplaced(f) <==>
      && f.1 != Null && (forall c: nat | c < 4 :: f.0 != RateName(c))
      && (forall c: nat, t: i64 | c < 4 :: !(t > 0 && Spells(f.0, c, t))) && !Misspells(f.0)
      && exists before: string, after: string :: f.0 == before + "cost" + after
  {
    hide KeyFrom, Spells, Misspells, RateName, Contains;
    ContainsMeans(f.0, "cost");
    UnusableExactly(f.0);
    forall c: nat | c < 4 ensures LITELLM_RATES[c] == RateName(c) {
      RatesAreNamed(c);
    }
    forall c: nat, t: i64 | c < 4 && t > 0 ensures KeyFrom(f.0, 0) == Tier(c, t) <==> Spells(f.0, c, t) {
      KeysMean(f.0, c, t);
    }
    TierIsInRange(f.0);
  }

  lemma TierIsInRange(key: string)
    ensures KeyFrom(key, 0).Tier? ==> KeyFrom(key, 0).charge < 4 && KeyFrom(key, 0).threshold > 0
  {
  }
}
