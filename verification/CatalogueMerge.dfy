/** Merging the rows of a price catalogue: duplicated names are dropped, and an alias becomes a name
    of its own when exactly one surviving model claims it. */
module CatalogueMerge {
  import opened Wrappers
  import opened Maps

  // A name by its UTF-8 bytes or, which orders the same, its characters.
  datatype Name = Name(text: string)

  const EMPTY := Name("")

  // `details` are the members merging does not look at.
  datatype CatalogModel = CatalogModel(modelName: Name, aliases: seq<Name>, priced: bool, details: int)

  // ---------- The order of names ----------

  predicate TextBelow(s: string, t: string) {
    if t == [] then false
    else if s == [] then true
    else s[0] < t[0] || (s[0] == t[0] && TextBelow(s[1..], t[1..]))
  }

  predicate Below(a: Name, b: Name) {
    TextBelow(a.text, b.text)
  }

  // The order of a dictionary: at the first place where two texts differ the smaller character is
  // first, and a text is before its continuations.
  predicate DiffersAt(s: string, t: string, i: nat) {
    i <= |s| && i < |t| && (forall j :: 0 <= j < i ==> s[j] == t[j]) && (i == |s| || s[i] < t[i])
  }

  lemma {:induction false} BelowMeans(s: string, t: string)
    ensures TextBelow(s, t) <==> exists i: nat :: DiffersAt(s, t, i)
    decreases |s|
  {
    if t != [] && s != [] && s[0] == t[0] {
      BelowMeans(s[1..], t[1..]);
      if i: nat :| DiffersAt(s[1..], t[1..], i) {
        assert DiffersAt(s, t, i + 1) by {
          assert forall j | 0 < j < i + 1 :: s[j] == s[1..][j - 1] && t[j] == t[1..][j - 1];
        }
      }
      if i: nat :| DiffersAt(s, t, i) {
        assert i > 0 && DiffersAt(s[1..], t[1..], i - 1);
      }
    } else if t != [] {
      assert TextBelow(s, t) ==> DiffersAt(s, t, 0);
    }
  }

  lemma {:induction false} NeverBelowItself(s: string)
    ensures !TextBelow(s, s)
    decreases |s|
  {
    if s != [] {
      NeverBelowItself(s[1..]);
    }
  }

  lemma {:induction false} AlwaysComparable(s: string, t: string)
    ensures s == t || TextBelow(s, t) || TextBelow(t, s)
    decreases |s|
  {
    if s != [] && t != [] {
      AlwaysComparable(s[1..], t[1..]);
      assert s == [s[0]] + s[1..] && t == [t[0]] + t[1..];
    }
  }

  lemma {:induction false} BelowChains(s: string, t: string, u: string)
    requires TextBelow(s, t) && TextBelow(t, u)
    ensures TextBelow(s, u)
    decreases |s|
  {
    if s != [] && s[0] == t[0] == u[0] {
      BelowChains(s[1..], t[1..], u[1..]);
    }
  }

  lemma Order(a: Name, b: Name, c: Name)
    ensures !Below(a, a)
    ensures a == b || Below(a, b) || Below(b, a)
    ensures Below(a, b) && Below(b, c) ==> Below(a, c)
  {
    NeverBelowItself(a.text);
    AlwaysComparable(a.text, b.text);
    if Below(a, b) && Below(b, c) {
      BelowChains(a.text, b.text, c.text);
    }
  }

  lemma NamesAreOrdered()
    ensures StrictOrder(Below)
  {
    hide Below;
    forall a, b, c
      ensures !Below(a, a) && (a == b || Below(a, b) || Below(b, a)) && (Below(a, b) && Below(b, c) ==> Below(a, c))
    {
      Order(a, b, c);
    }
  }

  ghost predicate Sorted(models: seq<CatalogModel>) {
    forall i, j :: 0 <= i < j < |models| ==> Below(models[i].modelName, models[j].modelName)
  }

  // ---------- Groups ----------

  function Named(models: seq<CatalogModel>, name: Name): seq<CatalogModel> {
    if models == [] then []
    else
      Named(models[..|models| - 1], name) +
      if models[|models| - 1].modelName == name then [models[|models| - 1]] else []
  }

  // How many rows have a name among `names`.
  function CountNamed(models: seq<CatalogModel>, names: set<Name>): nat {
    if models == [] then 0
    else CountNamed(models[..|models| - 1], names) + if models[|models| - 1].modelName in names then 1 else 0
  }

  predicate Surviving(models: seq<CatalogModel>, m: CatalogModel) {
    Named(models, m.modelName) == [m]
  }

  lemma {:induction false} CountOneMore(models: seq<CatalogModel>, names: set<Name>, name: Name)
    requires name !in names
    ensures CountNamed(models, names + {name}) == CountNamed(models, names) + |Named(models, name)|
    decreases |models|
  {
    if models != [] {
      CountOneMore(models[..|models| - 1], names, name);
    }
  }

  lemma {:induction false} CountNone(models: seq<CatalogModel>)
    ensures CountNamed(models, {}) == 0
    decreases |models|
  {
    if models != [] {
      CountNone(models[..|models| - 1]);
    }
  }

  lemma {:induction false} CountAll(models: seq<CatalogModel>, names: set<Name>)
    requires forall m | m in models :: m.modelName in names
    ensures CountNamed(models, names) == |models|
    decreases |models|
  {
    if models != [] {
      CountAll(models[..|models| - 1], names);
      assert models[|models| - 1] in models;
    }
  }

  lemma {:induction false} NamedMembers(models: seq<CatalogModel>, name: Name)
    ensures forall m :: m in Named(models, name) <==> m in models && m.modelName == name
    decreases |models|
  {
    if models != [] {
      var last := models[|models| - 1];
      NamedMembers(models[..|models| - 1], name);
      assert forall m :: m in models <==> m in models[..|models| - 1] || m == last;
    }
  }

  ghost predicate Grouped(models: seq<CatalogModel>, grouped: map<Name, seq<CatalogModel>>) {
    forall a :: (a in grouped <==> Named(models, a) != []) && (a in grouped ==> grouped[a] == Named(models, a))
  }

  method GroupByName(models: seq<CatalogModel>) returns (grouped: map<Name, seq<CatalogModel>>)
    ensures Grouped(models, grouped)
  {
    grouped := map[];
    for i := 0 to |models|
      invariant Grouped(models[..i], grouped)
    {
      var m := models[i];
      assert models[..i + 1][..i] == models[..i] && models[..i + 1][i] == m;
      var group := if m.modelName in grouped then grouped[m.modelName] else [];
      grouped := grouped[m.modelName := group + [m]];
    }
    assert models[..|models|] == models;
  }

  // The originals kept: every model whose name no other row has, in the order of names.
  ghost predicate Originals(models: seq<CatalogModel>, out: seq<CatalogModel>) {
    Sorted(out) && forall m :: m in out <==> Surviving(models, m)
  }

  // The same, looking only at the names done.
  ghost predicate OriginalsIn(models: seq<CatalogModel>, out: seq<CatalogModel>, done: set<Name>) {
    Sorted(out) && forall m :: m in out <==> m.modelName in done && Surviving(models, m)
  }

  lemma SortedNext(models: seq<CatalogModel>, m: CatalogModel)
    requires Sorted(models) && forall w | w in models :: Below(w.modelName, m.modelName)
    ensures Sorted(models + [m])
  {
    hide Below;
    assert forall i | 0 <= i < |models| :: models[i] in models;
  }

  lemma OriginalsNext(models: seq<CatalogModel>, out: seq<CatalogModel>, done: set<Name>, name: Name)
    requires OriginalsIn(models, out, done) && name !in done
    requires forall m | m in out :: Below(m.modelName, name)
    ensures
      var group := Named(models, name);
      OriginalsIn(models, if |group| == 1 then out + group else out, done + {name})
  {
    hide Below, Named, Sorted;
    var group := Named(models, name);
    NamedMembers(models, name);
    if |group| == 1 {
      assert group[0] in group && group == [group[0]];
      SortedNext(out, group[0]);
      assert forall m :: m in out + group <==> m in out || m == group[0];
    }
  }

  method KeepUnique(models: seq<CatalogModel>, grouped: map<Name, seq<CatalogModel>>, failedBefore: nat)
    returns (out: seq<CatalogModel>, failed: nat)
    requires Grouped(models, grouped)
    ensures Originals(models, out)
    ensures |out| + failed == |models| + failedBefore
  {
    hide Below, Named, Sorted, Surviving, OriginalsIn;
    NamesAreOrdered();
    out, failed := [], failedBefore;
    var rest := grouped;
    ghost var done: set<Name> := {};
    CountNone(models);
    NothingDone(models);
    while rest != map[]
      invariant done !! rest.Keys && done + rest.Keys == grouped.Keys
      invariant forall a | a in rest :: rest[a] == grouped[a]
      invariant OriginalsIn(models, out, done)
      invariant forall m, a | m in out && a in rest :: Below(m.modelName, a)
      invariant |out| + failed == CountNamed(models, done) + failedBefore
      decreases |rest|
    {
      var name, group, others := PopFirst(rest, Below);
      CountOneMore(models, done, name);
      NamedMembers(models, name);
      OriginalsNext(models, out, done, name);
      if |group| == 1 {
        assert group[0] in group && group == [group[0]];
        out := out + [group[0]];
      } else {
        failed := failed + |group|;
      }
      done := done + {name};
      rest := others;
    }
    AllDone(models, grouped, out);
  }

  lemma NothingDone(models: seq<CatalogModel>)
    ensures OriginalsIn(models, [], {})
  {
  }

  lemma AllDone(models: seq<CatalogModel>, grouped: map<Name, seq<CatalogModel>>, out: seq<CatalogModel>)
    requires Grouped(models, grouped) && OriginalsIn(models, out, grouped.Keys)
    ensures Originals(models, out) && CountNamed(models, grouped.Keys) == |models|
  {
    hide Named, Sorted;
    forall m | m in models ensures m.modelName in grouped.Keys {
      NamedMembers(models, m.modelName);
      assert m in Named(models, m.modelName);
    }
    CountAll(models, grouped.Keys);
    assert forall m | Surviving(models, m) :: m.modelName in grouped;
  }

  // ---------- Aliases ----------

  predicate Claims(m: CatalogModel, canonical: set<Name>, alias: Name) {
    alias in m.aliases && alias != EMPTY && alias !in canonical
  }

  // Model `m` is the one kept model that claims the alias.
  ghost predicate SoleClaim(kept: seq<CatalogModel>, canonical: set<Name>, alias: Name, m: CatalogModel) {
    m in kept && Claims(m, canonical, alias) && forall w | w in kept && Claims(w, canonical, alias) :: w == m
  }

  // The models added: a copy under each alias that has a sole claim, in the order of names.
  ghost predicate Aliased(kept: seq<CatalogModel>, canonical: set<Name>, added: seq<CatalogModel>) {
    && Sorted(added)
    && forall w :: w in added <==>
         exists m :: SoleClaim(kept, canonical, w.modelName, m) && w == m.(modelName := w.modelName)
  }

  predicate Has(claims: map<Name, seq<nat>>, a: Name, k: nat) {
    a in claims && k in claims[a]
  }

  // Which models claim each alias, looking at the first `i` and at the first `j` aliases of the next.
  ghost predicate Collected(kept: seq<CatalogModel>, canonical: set<Name>, i: nat, j: nat, claims: map<Name, seq<nat>>)
    requires i <= |kept| && (i < |kept| ==> j <= |kept[i].aliases|)
  {
    && (forall a | a in claims :: claims[a] != [])
    && forall a, k: nat :: Has(claims, a, k) <==>
         (k < i && Claims(kept[k], canonical, a))
         || (k == i && i < |kept| && a in kept[i].aliases[..j] && a != EMPTY && a !in canonical)
  }

  function Pushed(claims: map<Name, seq<nat>>, a: Name, i: nat): map<Name, seq<nat>> {
    claims[a := (if a in claims then claims[a] else []) + [i]]
  }

  lemma CollectedNext(kept: seq<CatalogModel>, canonical: set<Name>, i: nat, j: nat, claims: map<Name, seq<nat>>)
    requires i < |kept| && j < |kept[i].aliases| && Collected(kept, canonical, i, j, claims)
    ensures
      var a := kept[i].aliases[j];
      Collected(kept, canonical, i, j + 1, if a != EMPTY && a !in canonical then Pushed(claims, a, i) else claims)
  {
    hide Claims;
    var aliases := kept[i].aliases;
    var a := aliases[j];
    assert aliases[..j + 1] == aliases[..j] + [a];
    assert forall b, k: nat :: Has(Pushed(claims, a, i), b, k) <==> Has(claims, b, k) || (b == a && k == i);
  }

  method CollectClaims(kept: seq<CatalogModel>, canonical: set<Name>) returns (claims: map<Name, seq<nat>>)
    ensures Collected(kept, canonical, |kept|, 0, claims)
  {
    claims := map[];
    for i := 0 to |kept|
      invariant Collected(kept, canonical, i, 0, claims)
    {
      var aliases := kept[i].aliases;
      for j := 0 to |aliases|
        invariant Collected(kept, canonical, i, j, claims)
      {
        hide Collected;
        CollectedNext(kept, canonical, i, j, claims);
        var a := aliases[j];
        if a != EMPTY && a !in canonical {
          claims := Pushed(claims, a, i);
        }
      }
      assert aliases[..|aliases|] == aliases;
    }
  }

  // Whether sorting the indices and dropping repeats leaves one.
  predicate OneIndex(indices: seq<nat>) {
    indices != [] && forall k :: 0 <= k < |indices| ==> indices[k] == indices[0]
  }

  lemma OneIndexIsSole(kept: seq<CatalogModel>, canonical: set<Name>, claims: map<Name, seq<nat>>, a: Name)
    requires Sorted(kept) && Collected(kept, canonical, |kept|, 0, claims) && a in claims
    ensures claims[a] != []
    ensures OneIndex(claims[a]) ==> claims[a][0] < |kept| && SoleClaim(kept, canonical, a, kept[claims[a][0]])
    ensures !OneIndex(claims[a]) ==> forall m :: !SoleClaim(kept, canonical, a, m)
  {
    hide Below, Claims;
    var indices := claims[a];
    forall k | 0 <= k < |indices| ensures indices[k] < |kept| && Claims(kept[indices[k]], canonical, a) {
      var i := indices[k];
      assert Has(claims, a, i);
    }
    if OneIndex(indices) {
      forall w | w in kept && Claims(w, canonical, a) ensures w == kept[indices[0]] {
        var k :| 0 <= k < |kept| && kept[k] == w;
        assert Has(claims, a, k);
      }
    } else {
      var k :| 0 <= k < |indices| && indices[k] != indices[0];
      assert Claims(kept[indices[k]], canonical, a);
      NamesDiffer(kept, indices[0], indices[k]);
    }
  }

  lemma NamesDiffer(models: seq<CatalogModel>, i: nat, j: nat)
    requires Sorted(models) && i < |models| && j < |models| && i != j
    ensures models[i].modelName != models[j].modelName
  {
    hide Below;
    Order(models[i].modelName, models[i].modelName, models[i].modelName);
  }

  // The same, looking only at the aliases done.
  ghost predicate AliasedIn(kept: seq<CatalogModel>, canonical: set<Name>, added: seq<CatalogModel>, done: set<Name>) {
    && Sorted(added)
    && forall w :: w in added <==>
         w.modelName in done
         && exists m :: SoleClaim(kept, canonical, w.modelName, m) && w == m.(modelName := w.modelName)
  }

  lemma AliasedNext(kept: seq<CatalogModel>, canonical: set<Name>, added: seq<CatalogModel>, done: set<Name>,
                    alias: Name, copies: seq<CatalogModel>)
    requires AliasedIn(kept, canonical, added, done) && alias !in done
    requires forall w | w in added :: Below(w.modelName, alias)
    requires
      || (copies == [] && forall m :: !SoleClaim(kept, canonical, alias, m))
      || (exists m :: SoleClaim(kept, canonical, alias, m) && copies == [m.(modelName := alias)])
    ensures AliasedIn(kept, canonical, added + copies, done + {alias})
  {
    hide Below, Sorted, SoleClaim;
    if copies == [] {
      assert added + copies == added;
    } else {
      var m :| SoleClaim(kept, canonical, alias, m) && copies == [m.(modelName := alias)];
      SortedNext(added, copies[0]);
      SoleIsOne(kept, canonical, alias, m);
      assert forall w :: w in added + copies <==> w in added || w == copies[0];
    }
  }

  lemma NoAliasDone(kept: seq<CatalogModel>, canonical: set<Name>)
    ensures AliasedIn(kept, canonical, [], {})
  {
  }

  method AddAliases(kept: seq<CatalogModel>, canonical: set<Name>) returns (added: seq<CatalogModel>)
    requires Sorted(kept)
    ensures Aliased(kept, canonical, added)
  {
    hide Below, Sorted, Claims, Collected, OneIndex, SoleClaim, AliasedIn;
    NamesAreOrdered();
    var claims := CollectClaims(kept, canonical);
    var rest := claims;
    added := [];
    ghost var done: set<Name> := {};
    NoAliasDone(kept, canonical);
    while rest != map[]
      invariant done !! rest.Keys && done + rest.Keys == claims.Keys
      invariant forall a | a in rest :: rest[a] == claims[a]
      invariant AliasedIn(kept, canonical, added, done)
      invariant forall w, a | w in added && a in rest :: Below(w.modelName, a)
      decreases |rest|
    {
      var alias, indices, others := PopFirst(rest, Below);
      OneIndexIsSole(kept, canonical, claims, alias);
      var copies := if OneIndex(indices) then [kept[indices[0]].(modelName := alias)] else [];
      AliasedNext(kept, canonical, added, done, alias, copies);
      added := added + copies;
      done := done + {alias};
      rest := others;
    }
    AllAliasesDone(kept, canonical, claims, added);
  }

  lemma AllAliasesDone(kept: seq<CatalogModel>, canonical: set<Name>, claims: map<Name, seq<nat>>,
                       added: seq<CatalogModel>)
    requires Collected(kept, canonical, |kept|, 0, claims) && AliasedIn(kept, canonical, added, claims.Keys)
    ensures Aliased(kept, canonical, added)
  {
    hide Sorted, SoleClaim, Collected;
    forall w, m | SoleClaim(kept, canonical, w, m) ensures w in claims {
      ClaimsAreCollected(kept, canonical, claims, w, m);
    }
  }

  lemma SoleIsOne(kept: seq<CatalogModel>, canonical: set<Name>, alias: Name, m: CatalogModel)
    requires SoleClaim(kept, canonical, alias, m)
    ensures forall w | SoleClaim(kept, canonical, alias, w) :: w == m
  {
  }

  lemma ClaimsAreCollected(kept: seq<CatalogModel>, canonical: set<Name>, claims: map<Name, seq<nat>>,
                           a: Name, m: CatalogModel)
    requires Collected(kept, canonical, |kept|, 0, claims) && SoleClaim(kept, canonical, a, m)
    ensures a in claims
  {
    var k :| 0 <= k < |kept| && kept[k] == m;
    assert Claims(kept[k], canonical, a) && Has(claims, a, k);
  }

  // ---------- Merging ----------

  function Canonical(models: seq<CatalogModel>): set<Name> {
    set m | m in models :: m.modelName
  }

  // The catalogue of some rows: the originals kept, then the aliases; rows kept and rows newly
  // failed add up to all of them.
  ghost predicate Merged(models: seq<CatalogModel>, failedBefore: nat, out: seq<CatalogModel>, failed: nat, n: nat) {
    && n <= |out|
    && Originals(models, out[..n])
    && Aliased(out[..n], Canonical(models), out[n..])
    && n + failed == |models| + failedBefore
  }

  // No rows survive with a price: the catalogue is refused.
  method Finalize(models: seq<CatalogModel>, failedBefore: nat)
    returns (r: Option<(seq<CatalogModel>, nat)>, ghost kept: nat)
    ensures r.Some? <==> exists m :: m in models && Surviving(models, m) && m.priced
    ensures r.Some? ==> Merged(models, failedBefore, r.value.0, r.value.1, kept)
  {
    hide Sorted, Aliased, Surviving, Named, Grouped;
    var grouped := GroupByName(models);
    var canonical := grouped.Keys;
    GroupNames(models, grouped);
    var out, failed := KeepUnique(models, grouped, failedBefore);
    kept := |out|;
    SurvivorsAreRows(models);
    if out == [] || forall m | m in out :: !m.priced {
      return None, kept;
    }
    assert exists m :: m in models && Surviving(models, m) && m.priced by {
      var m :| m in out && m.priced;
    }
    var added := AddAliases(out, canonical);
    assert (out + added)[..kept] == out && (out + added)[kept..] == added;
    return Some((out + added, failed)), kept;
  }

  lemma GroupNames(models: seq<CatalogModel>, grouped: map<Name, seq<CatalogModel>>)
    requires Grouped(models, grouped)
    ensures grouped.Keys == Canonical(models)
  {
    hide Named;
    forall a ensures a in grouped.Keys <==> a in Canonical(models) {
      NamedMembers(models, a);
      if a in grouped {
        assert grouped[a][0] in grouped[a];
      }
    }
  }

  lemma SurvivorsAreRows(models: seq<CatalogModel>)
    ensures forall m | Surviving(models, m) :: m in models
  {
    hide Named;
    forall m | Surviving(models, m) ensures m in models {
      NamedMembers(models, m.modelName);
      assert m in Named(models, m.modelName);
    }
  }

  // ---------- What a merged catalogue promises ----------

  lemma MergedNamesAreUnique(models: seq<CatalogModel>, failedBefore: nat, out: seq<CatalogModel>, failed: nat, n: nat)
    requires Merged(models, failedBefore, out, failed, n)
    ensures forall i, j :: 0 <= i < j < |out| ==> out[i].modelName != out[j].modelName
  {
    hide Surviving, Sorted;
    SurvivorsAreRows(models);
    forall i: nat, j: nat | i < j < |out| ensures out[i].modelName != out[j].modelName {
      if j < n {
        NamesDiffer(out[..n], i, j);
      } else if i >= n {
        NamesDiffer(out[n..], i - n, j - n);
      } else {
        assert out[..n][i] in out[..n] && out[n..][j - n] in out[n..];
        assert out[i] in models;
      }
    }
  }

  // A name that two rows share is nobody's: it is dropped, and it is no alias either.
  lemma DuplicatesAreDropped(models: seq<CatalogModel>, failedBefore: nat, out: seq<CatalogModel>, failed: nat, n: nat,
                             name: Name)
    requires Merged(models, failedBefore, out, failed, n)
    requires |Named(models, name)| >= 2
    ensures forall m | m in out :: m.modelName != name
  {
    hide Named, Sorted;
    forall m | m in out ensures m.modelName != name {
      NamedMembers(models, name);
      assert Named(models, name)[0] in Named(models, name);
      assert name in Canonical(models);
      assert m in out[..n] || m in out[n..];
    }
  }

  ghost predicate SoleSurvivor(models: seq<CatalogModel>, alias: Name, m: CatalogModel) {
    && alias != EMPTY && Surviving(models, m) && alias in m.aliases
    && forall v | Surviving(models, v) && alias in v.aliases :: v == m
  }

  // A name no row has is in the catalogue exactly when it is an alias that exactly one surviving
  // row claims, and it then carries that row's data.
  lemma AliasesExactly(models: seq<CatalogModel>, failedBefore: nat, out: seq<CatalogModel>, failed: nat, n: nat,
                       alias: Name, w: CatalogModel)
    requires Merged(models, failedBefore, out, failed, n)
    requires alias !in Canonical(models) && w.modelName == alias
    ensures w in out <==>
      exists m :: SoleSurvivor(models, alias, m) && w == m.(modelName := alias)
  {
    hide Surviving, Sorted;
    SurvivorsAreRows(models);
    assert w in out <==> w in out[..n] || w in out[n..];
    assert w !in out[..n];
    forall m ensures SoleClaim(out[..n], Canonical(models), alias, m) <==>
      SoleSurvivor(models, alias, m)
    {
      assert m in out[..n] <==> Surviving(models, m);
    }
  }
}
