/** Whether the access token of a key belongs to its stored credentials, and whether an attempt refreshes
    with the stored refresh token: the exact conditions, over every run. */
module TokenOutcomes {
  import opened Wrappers
  import opened Int64
  import opened AccountStore
  import opened RefreshLease
  import opened TokenHistory

  // ---------- Whether access token and refresh token belong together ----------

  ghost predicate Paired(t: Tables, key: int) {
    key in t.keys && key in t.accounts && t.keys[key].secret == t.accounts[key].storedBy
  }

  // Two tokens of a key are the same exactly when they come from the same write.
  lemma SameTokenSameWrite(s: State, key: int, o: Option<nat>, p: Option<nat>, first: Token, second: Token)
    requires NumbersOk(s) && first <= s.base && second <= s.base
    requires o.Some? ==> o.value < |s.log| && IsWrite(s.log[o.value])
    requires p.Some? ==> p.value < |s.log| && IsWrite(s.log[p.value])
    ensures Issued(s.log, o, first) == Issued(s.log, p, second) <==> o == p && (o.None? ==> first == second)
  {
    if o.Some? && p.Some? && o != p {
      assert s.log[o.value].write != s.log[p.value].write;
    }
  }

  // The access token of a key belongs to its stored credentials exactly when the history leads from
  // it to the last write, or there was none and they belonged together at the start.
  lemma PairedExactly(start: State, es: seq<Event>, key: int)
    requires Start(start) && TokensOk(start) && key in Run(start, es).tables.accounts
    ensures
      var s := Run(start, es);
      var last := LastWrite(s.log, key, |s.log|);
      Paired(s.tables, key) <==>
        SecretOrigin(s.log, key, |s.log|) == last
        && (last.None? ==> FirstSecret(start.initial, key) == FirstStorer(start.initial, key))
  {
    hide Run, Start, FirstSecret, FirstStorer, SecretOrigin, LastWrite, SeenOk;
    EveryRunKeepsTokens(start, es);
    var s := Run(start, es);
    SameTokenSameWrite(s, key, SecretOrigin(s.log, key, |s.log|), LastWrite(s.log, key, |s.log|),
                       FirstSecret(s.initial, key), FirstStorer(s.initial, key));
  }

  // Edit `e` landed after write `w` and had read before it.
  ghost predicate PutsBack(log: seq<Entry>, key: int, w: nat, e: nat) {
    w < e < |log| && Edits(log[e], key) && log[e].readAt <= w
  }

  // Each edit of the key read after the one before it had landed.
  ghost predicate OneAtATime(log: seq<Entry>, key: int) {
    forall i, j | 0 <= i < j < |log| && Edits(log[i], key) && Edits(log[j], key) :: i < log[j].readAt
  }

  lemma {:induction false} NothingPutBack(log: seq<Entry>, key: int, w: nat, n: nat)
    requires w < n <= |log| && LastWrite(log, key, |log|) == Some(w)
    requires forall e: nat :: e < n ==> !PutsBack(log, key, w, e)
    requires forall i | 0 <= i < |log| && log[i].KeyEdited? :: log[i].readAt <= i
    ensures SecretOrigin(log, key, n) == Some(w)
    decreases n
  {
    LastWriteIsLast(log, key, |log|, n - 1);
    if n - 1 > w {
      assert !PutsBack(log, key, w, n - 1);
      if Edits(log[n - 1], key) {
        NothingPutBack(log, key, w, log[n - 1].readAt);
      } else {
        NothingPutBack(log, key, w, n - 1);
      }
    }
  }

  lemma {:induction false} LastWriteIsLast(log: seq<Entry>, key: int, n: nat, i: nat)
    requires n <= |log| && i < n
    ensures match LastWrite(log, key, n) {
      case Some(w) => Writes(log[w], key) && (i > w ==> !Writes(log[i], key))
      case None => !Writes(log[i], key)
    }
    decreases n
  {
    if !Writes(log[n - 1], key) && i < n - 1 {
      LastWriteIsLast(log, key, n - 1, i);
    }
  }

  lemma {:induction false} PutBackStays(log: seq<Entry>, key: int, w: nat, e: nat, n: nat)
    requires LastWrite(log, key, |log|) == Some(w) && PutsBack(log, key, w, e) && e < n <= |log|
    requires OneAtATime(log, key) && forall i | 0 <= i < |log| && log[i].KeyEdited? :: log[i].readAt <= i
    ensures SecretOrigin(log, key, n) != Some(w)
    decreases n
  {
    LastWriteIsLast(log, key, |log|, n - 1);
    if n - 1 > e {
      if Edits(log[n - 1], key) {
        PutBackStays(log, key, w, e, log[n - 1].readAt);
      } else {
        PutBackStays(log, key, w, e, n - 1);
      }
    }
  }

  // After a write the tokens belong together as long as no edit that read before it lands; and when
  // edits of the key are made one at a time, they do not from the moment one does.
  lemma PairedUnlessPutBack(start: State, es: seq<Event>, key: int, w: nat)
    requires Start(start) && TokensOk(start) && key in Run(start, es).tables.accounts
    requires LastWrite(Run(start, es).log, key, |Run(start, es).log|) == Some(w)
    ensures
      var s := Run(start, es);
      && ((forall e: nat :: !PutsBack(s.log, key, w, e)) ==> Paired(s.tables, key))
      && (OneAtATime(s.log, key) ==> (Paired(s.tables, key) <==> forall e: nat :: !PutsBack(s.log, key, w, e)))
  {
    hide Run, Start, LastWrite, SecretOrigin, Paired, PutsBack, FirstOk, TablesOk, SeenOk;
    PairedExactly(start, es, key);
    EveryRunKeepsTokens(start, es);
    var s := Run(start, es);
    if forall e: nat :: !PutsBack(s.log, key, w, e) {
      NothingPutBack(s.log, key, w, |s.log|);
    } else if OneAtATime(s.log, key) {
      var e: nat :| PutsBack(s.log, key, w, e);
      PutBackIsIn(s.log, key, w, e);
      PutBackStays(s.log, key, w, e, |s.log|);
    }
  }

  lemma PutBackIsIn(log: seq<Entry>, key: int, w: nat, e: nat)
    requires PutsBack(log, key, w, e)
    ensures e < |log|
  {
  }

  // ---------- Whether an attempt refreshes with the stored token ----------

  ghost predicate Unwritten(log: seq<Entry>, from: nat, key: int) {
    forall i | from <= i < |log| :: !Writes(log[i], key)
  }

  ghost predicate Unrotated(log: seq<Entry>, from: nat, to: nat, key: int)
    requires to <= |log|
  {
    forall i | from <= i < to :: !Rotates(log[i], key)
  }

  // Every refresh that kept its token had loaded after the last new one.
  ghost predicate KeepsWhatIsStored(log: seq<Entry>, key: int) {
    forall j | 0 <= j < |log| && Writes(log[j], key) && !Rotates(log[j], key) ::
      log[j].loadedAt <= j && Unrotated(log, log[j].loadedAt, j, key)
  }

  // The account is loaded before the lease is taken: an attempt holds the stored refresh token
  // exactly when the history leads from both to the same write.
  lemma RefreshesWithStoredCredentialsExactly(start: State, es: seq<Event>, o: Owner)
    requires Start(start) && TokensOk(start) && o in Run(start, es).attempts && !Run(start, es).attempts[o].Over?
    ensures
      var s := Run(start, es);
      var a := s.attempts[o];
      && a.key in s.tables.accounts && a.at <= |s.log|
      && (a.credentials == s.tables.accounts[a.key].credentials
          <==> RefreshOrigin(s.log, a.key, a.at) == RefreshOrigin(s.log, a.key, |s.log|))
  {
    hide Run, Start, FirstSecret, FirstStorer, FirstRefresh, RefreshOrigin;
    EveryRunKeepsTokens(start, es);
    var s := Run(start, es);
    var a := s.attempts[o];
    assert AttemptOk(s, o);
    SameTokenSameWrite(s, a.key, RefreshOrigin(s.log, a.key, a.at), RefreshOrigin(s.log, a.key, |s.log|),
                       FirstRefresh(s.initial, a.key), FirstRefresh(s.initial, a.key));
  }

  lemma {:induction false} UnwrittenKeepsOrigin(log: seq<Entry>, from: nat, key: int, n: nat)
    requires from <= n <= |log| && Unwritten(log, from, key)
    ensures RefreshOrigin(log, key, n) == RefreshOrigin(log, key, from)
    decreases n
  {
    if n > from {
      UnwrittenKeepsOrigin(log, from, key, n - 1);
    }
  }

  // With every kept token still the stored one, the origin is simply the last new token.
  function LastRotation(log: seq<Entry>, key: int, n: nat): Option<nat>
    requires n <= |log|
  {
    if n == 0 then None else if Rotates(log[n - 1], key) then Some(n - 1) else LastRotation(log, key, n - 1)
  }

  lemma {:induction false} SameRotation(log: seq<Entry>, key: int, from: nat, n: nat)
    requires from <= n <= |log|
    ensures LastRotation(log, key, n) == LastRotation(log, key, from) <==> Unrotated(log, from, n, key)
    ensures LastRotation(log, key, n).Some? ==> LastRotation(log, key, n).value < n
    decreases n
  {
    if n > from {
      SameRotation(log, key, from, n - 1);
    }
    RotationIsBefore(log, key, from);
    RotationIsBefore(log, key, n);
  }

  lemma {:induction false} RotationIsBefore(log: seq<Entry>, key: int, n: nat)
    requires n <= |log|
    ensures LastRotation(log, key, n).Some? ==> LastRotation(log, key, n).value < n
    decreases n
  {
    if n > 0 {
      RotationIsBefore(log, key, n - 1);
    }
  }

  lemma {:induction false} OriginIsRotation(log: seq<Entry>, key: int, n: nat)
    requires n <= |log| && KeepsWhatIsStored(log, key)
    ensures RefreshOrigin(log, key, n) == LastRotation(log, key, n)
    decreases n
  {
    if n > 0 && !Rotates(log[n - 1], key) {
      OriginIsRotation(log, key, n - 1);
      if Writes(log[n - 1], key) {
        OriginIsRotation(log, key, log[n - 1].loadedAt);
        SameRotation(log, key, log[n - 1].loadedAt, n - 1);
      }
    }
  }

  // No write since the load is enough. When every refresh that kept its token had loaded after the
  // last new one, no new token since the load is exact.
  lemma RotationDecides(start: State, es: seq<Event>, o: Owner)
    requires Start(start) && TokensOk(start) && o in Run(start, es).attempts && !Run(start, es).attempts[o].Over?
    ensures
      var s := Run(start, es);
      var a := s.attempts[o];
      && a.key in s.tables.accounts && a.at <= |s.log|
      && (Unwritten(s.log, a.at, a.key) ==> a.credentials == s.tables.accounts[a.key].credentials)
      && (KeepsWhatIsStored(s.log, a.key) ==>
            (a.credentials == s.tables.accounts[a.key].credentials <==> Unrotated(s.log, a.at, |s.log|, a.key)))
  {
    hide Run, Start, RefreshOrigin, KeepsWhatIsStored, Unrotated, Unwritten, LastRotation;
    RefreshesWithStoredCredentialsExactly(start, es, o);
    var s := Run(start, es);
    var a := s.attempts[o];
    if Unwritten(s.log, a.at, a.key) {
      UnwrittenKeepsOrigin(s.log, a.at, a.key, |s.log|);
    }
    if KeepsWhatIsStored(s.log, a.key) {
      OriginIsRotation(s.log, a.key, a.at);
      OriginIsRotation(s.log, a.key, |s.log|);
      SameRotation(s.log, a.key, a.at, |s.log|);
    }
  }
}
