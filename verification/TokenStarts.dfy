/** Where a run of the refresh protocol may start: from every consistent store, with the owners of its
    leases as attempts that may still write. */
module TokenStarts {
  import opened Wrappers
  import opened Int64
  import opened AccountStore
  import opened RefreshLease
  import opened TokenHistory

  predicate Leased(t: Tables, key: int) {
    key in t.accounts && t.accounts[key].leaseOwner.Some?
  }

  function LeasedKeys(t: Tables): set<int> {
    set k | k in t.accounts && t.accounts[k].leaseOwner.Some?
  }

  // Every stored lease is held by an attempt, and these are all the attempts there are.
  ghost predicate AllHolding(s: State) {
    && (forall k | Leased(s.tables, k) ::
          s.tables.accounts[k].leaseOwner.value in s.attempts
          && s.attempts[s.tables.accounts[k].leaseOwner.value].Holding?
          && s.attempts[s.tables.accounts[k].leaseOwner.value].key == k)
    && (forall o | o in s.attempts :: s.attempts[o].Holding? && Leased(s.tables, s.attempts[o].key)
                                    && s.tables.accounts[s.attempts[o].key].leaseOwner == Some(o))
  }

  ghost predicate OwnersDiffer(t: Tables) {
    forall j, k | Leased(t, j) && Leased(t, k) && t.accounts[j].leaseOwner == t.accounts[k].leaseOwner :: j == k
  }

  // The two lease columns are set and cleared together.
  ghost predicate LeasesWhole(t: Tables) {
    forall k | k in t.accounts :: t.accounts[k].leaseOwner.Some? <==> t.accounts[k].leaseUntil.Some?
  }

  function WithoutLease(t: Tables, key: int): Tables
    requires key in t.accounts
  {
    t.(accounts := t.accounts[key := t.accounts[key].(leaseOwner := None, leaseUntil := None)])
  }

  lemma {:induction false} StoreStarts(t: Tables, tokens: Token) returns (s: State)
    requires StoreOk(t) && OwnersDiffer(t) && LeasesWhole(t)
    ensures Start(s) && AllHolding(s) && s.tables == t && s.tokens == tokens && s.edits == map[]
    ensures forall i | 0 <= i < |s.log| :: s.log[i].LeaseTaken?
    ensures forall o | o in s.attempts ::
      s.attempts[o].at <= |s.log| && s.attempts[o].credentials == t.accounts[s.attempts[o].key].credentials
    decreases LeasedKeys(t)
  {
    hide StoreOk, OwnersDiffer, Start, AllHolding;
    assert forall k | k in LeasedKeys(t) :: t.accounts[k].leaseUntil.Some?;
    hide LeasesWhole;
    if k :| k in LeasedKeys(t) {
      var t' := WithoutLease(t, k);
      LeaseRemoved(t, k);
      var s' := StoreStarts(t', tokens);
      var o := t.accounts[k].leaseOwner.value;
      s := State(t, s'.attempts[o := Holding(k, t.accounts[k].credentials, |s'.log|, |s'.log|)], map[], tokens,
                 s'.log + [LeaseTaken(k, o, t.accounts[k].leaseUntil.value)], t, tokens);
      OneMoreLease(s', s, k, o);
    } else {
      s := State(t, map[], map[], tokens, [], t, tokens);
      NoLeases(s);
    }
  }

  lemma LeaseRemoved(t: Tables, k: int)
    requires StoreOk(t) && OwnersDiffer(t) && LeasesWhole(t) && k in LeasedKeys(t)
    ensures StoreOk(WithoutLease(t, k)) && OwnersDiffer(WithoutLease(t, k)) && LeasesWhole(WithoutLease(t, k))
    ensures LeasedKeys(WithoutLease(t, k)) == LeasedKeys(t) - {k}
  {
    assert forall j | Leased(WithoutLease(t, k), j) :: Leased(t, j) && j != k;
  }

  lemma NoLeases(s: State)
    requires StoreOk(s.tables) && LeasesWhole(s.tables) && (forall k :: k !in LeasedKeys(s.tables))
    requires s.attempts == map[] && s.log == []
    ensures Start(s) && AllHolding(s)
  {
    assert forall j | j in s.tables.accounts :: j !in LeasedKeys(s.tables);
  }

  // `s'` is `s` with one more lease, held by an attempt that has just taken it.
  ghost predicate LeaseAdded(s: State, s': State, k: int, o: Owner) {
    && k in s'.tables.accounts && s'.tables.accounts[k].leaseOwner == Some(o)
    && s'.tables.accounts[k].leaseUntil.Some?
    && s.tables == WithoutLease(s'.tables, k)
    && s'.attempts == s.attempts[o := Holding(k, s'.tables.accounts[k].credentials, |s.log|, |s.log|)]
    && s'.log == s.log + [LeaseTaken(k, o, s'.tables.accounts[k].leaseUntil.value)]
  }

  lemma OwnerIsNew(s: State, s': State, k: int, o: Owner)
    requires AllHolding(s) && OwnersDiffer(s'.tables) && LeaseAdded(s, s', k, o)
    ensures o !in s.attempts && forall p | p in s.attempts :: s.attempts[p].Holding? && s.attempts[p].key != k
  {
    assert forall p | p in s.attempts ::
      Leased(s'.tables, s.attempts[p].key) && s.attempts[p].key != k
      && s'.tables.accounts[s.attempts[p].key].leaseOwner == Some(p);
  }

  lemma HoldingAdded(s: State, s': State, k: int, o: Owner)
    requires AllHolding(s) && LeaseAdded(s, s', k, o) && o !in s.attempts
    ensures AllHolding(s')
  {
    assert forall j | j != k :: Leased(s.tables, j) <==> Leased(s'.tables, j);
    assert forall j | j in s.tables.accounts && j != k :: s.tables.accounts[j] == s'.tables.accounts[j];
    assert !Leased(s.tables, k);
  }

  lemma AttemptsAdded(s: State, s': State, k: int, o: Owner)
    requires AttemptsOk(s) && LeaseAdded(s, s', k, o)
    requires o !in s.attempts && forall p | p in s.attempts :: s.attempts[p].Holding? && s.attempts[p].key != k
    ensures AttemptsOk(s')
  {
    assert forall i | 0 <= i < |s.log| :: s'.log[i] == s.log[i];
    forall p | p in s'.attempts ensures AttemptOk(s', p) {
      if p != o {
        assert AttemptOk(s, p);
      }
    }
  }

  lemma OneMoreLease(s: State, s': State, k: int, o: Owner)
    requires Start(s) && AllHolding(s) && StoreOk(s'.tables) && OwnersDiffer(s'.tables) && LeaseAdded(s, s', k, o)
    ensures Start(s') && AllHolding(s')
  {
    hide StoreOk, AllHolding, AttemptOk, OwnersDiffer;
    OwnerIsNew(s, s', k, o);
    HoldingAdded(s, s', k, o);
    AttemptsAdded(s, s', k, o);
    assert forall i | 0 <= i < |s.log| :: s'.log[i] == s.log[i];
    assert forall i | 0 <= i < |s.log| && s.log[i].LeaseTaken? :: s.log[i].owner != o;
    forall j | j in s'.tables.accounts ensures LeaseStored(s'.tables.accounts[j], Lease(s'.log, j)) {
      assert s'.log[..|s'.log| - 1] == s.log;
      if j != k {
        assert s.tables.accounts[j] == s'.tables.accounts[j];
      }
    }
  }

  ghost predicate Numbered(t: Tables, tokens: Token) {
    && (forall k | k in t.keys :: t.keys[k].secret <= tokens)
    && (forall k | k in t.accounts :: t.accounts[k].credentials <= tokens && t.accounts[k].storedBy <= tokens)
  }

  // Runs may start from every consistent store, whatever leases it holds, with their owners alive,
  // and whether or not its tokens are paired.
  lemma EveryStoreStarts(t: Tables, tokens: Token) returns (s: State)
    requires StoreOk(t) && OwnersDiffer(t) && LeasesWhole(t) && Numbered(t, tokens)
    ensures Start(s) && TokensOk(s) && AllHolding(s) && s.tables == t
  {
    hide Start, StoreOk, OwnersDiffer;
    var u := StoreStarts(t, tokens);
    s := u.(initial := t, base := tokens);
    StartsAlike(u, s);
    forall k, n: nat | n <= |s.log| ensures
      && SecretAt(s.log, t, k, n) == FirstSecret(t, k) && RefreshAt(s.log, t, k, n) == FirstRefresh(t, k)
      && StorerAt(s.log, t, k, n) == FirstStorer(t, k)
    {
      NoWrites(s.log, k, n);
    }
  }

  lemma StartsAlike(u: State, s: State)
    requires Start(u) && AllHolding(u) && s == u.(initial := s.initial, base := s.base)
    ensures Start(s) && AllHolding(s)
  {
    assert forall o | o in u.attempts :: AttemptOk(u, o) ==> AttemptOk(s, o);
  }

  lemma {:induction false} NoWrites(log: seq<Entry>, key: int, n: nat)
    requires n <= |log| && forall i | 0 <= i < |log| :: log[i].LeaseTaken?
    ensures LastWrite(log, key, n) == None && SecretOrigin(log, key, n) == None && RefreshOrigin(log, key, n) == None
    decreases n
  {
    if n > 0 {
      NoWrites(log, key, n - 1);
    }
  }
}
