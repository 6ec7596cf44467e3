/** Which write the stored tokens of a key come from. A refresh that brings no new refresh token stores
    the one that was loaded, and an edit of a key stores the access token that was read: both put back
    what they saw, so the history has to be followed to the write that first stored a token. */
module TokenHistory {
  import opened Wrappers
  import opened Int64
  import opened AccountStore
  import opened RefreshLease

  // ---------- Following the history ----------

  // A write that stores a new refresh token: a login, or a refresh that brought one.
  predicate Rotates(entry: Entry, key: int) {
    entry.key == key && (entry.LoginWritten? || (entry.RefreshWritten? && entry.rotated))
  }

  predicate Edits(entry: Entry, key: int) {
    entry.key == key && entry.KeyEdited?
  }

  // The last write to the key among the first `n` entries.
  function LastWrite(log: seq<Entry>, key: int, n: nat): (r: Option<nat>)
    requires n <= |log|
    ensures r.Some? ==> r.value < n && Writes(log[r.value], key)
  {
    if n == 0 then None
    else if Writes(log[n - 1], key) then Some(n - 1)
    else LastWrite(log, key, n - 1)
  }

  // The write the access token of the key comes from, after `n` entries; None if it was there before.
  function SecretOrigin(log: seq<Entry>, key: int, n: nat): (r: Option<nat>)
    requires n <= |log|
    ensures r.Some? ==> r.value < n && Writes(log[r.value], key)
  {
    if n == 0 then None
    else if Writes(log[n - 1], key) then Some(n - 1)
    else if Edits(log[n - 1], key) && log[n - 1].readAt < n then SecretOrigin(log, key, log[n - 1].readAt)
    else SecretOrigin(log, key, n - 1)
  }

  // The write the refresh token of the key comes from.
  function RefreshOrigin(log: seq<Entry>, key: int, n: nat): (r: Option<nat>)
    requires n <= |log|
    ensures r.Some? ==> r.value < n && Writes(log[r.value], key)
  {
    if n == 0 then None
    else if Rotates(log[n - 1], key) then Some(n - 1)
    else if Writes(log[n - 1], key) && log[n - 1].loadedAt < n then RefreshOrigin(log, key, log[n - 1].loadedAt)
    else RefreshOrigin(log, key, n - 1)
  }

  lemma {:induction false} OriginsOfPrefix(log: seq<Entry>, entry: Entry, key: int, n: nat)
    requires n <= |log|
    ensures LastWrite(log + [entry], key, n) == LastWrite(log, key, n)
    ensures SecretOrigin(log + [entry], key, n) == SecretOrigin(log, key, n)
    ensures RefreshOrigin(log + [entry], key, n) == RefreshOrigin(log, key, n)
    decreases n
  {
    if n > 0 {
      var last := log[n - 1];
      assert (log + [entry])[n - 1] == last;
      OriginsOfPrefix(log, entry, key, n - 1);
      if last.KeyEdited? && last.readAt < n {
        OriginsOfPrefix(log, entry, key, last.readAt);
      }
      if last.RefreshWritten? && last.loadedAt < n {
        OriginsOfPrefix(log, entry, key, last.loadedAt);
      }
    }
  }

  // ---------- The tokens the history calls for ----------

  function Issued(log: seq<Entry>, origin: Option<nat>, first: Token): Token
    requires origin.Some? ==>
      origin.value < |log| && (log[origin.value].RefreshWritten? || log[origin.value].LoginWritten?)
  {
    if origin.Some? then log[origin.value].write else first
  }

  function FirstSecret(initial: Tables, key: int): Token {
    if key in initial.keys then initial.keys[key].secret else 0
  }

  function FirstRefresh(initial: Tables, key: int): Token {
    if key in initial.accounts then initial.accounts[key].credentials else 0
  }

  function FirstStorer(initial: Tables, key: int): Token {
    if key in initial.accounts then initial.accounts[key].storedBy else 0
  }

  function SecretAt(log: seq<Entry>, initial: Tables, key: int, n: nat): Token
    requires n <= |log|
  {
    Issued(log, SecretOrigin(log, key, n), FirstSecret(initial, key))
  }

  function RefreshAt(log: seq<Entry>, initial: Tables, key: int, n: nat): Token
    requires n <= |log|
  {
    Issued(log, RefreshOrigin(log, key, n), FirstRefresh(initial, key))
  }

  function StorerAt(log: seq<Entry>, initial: Tables, key: int, n: nat): Token
    requires n <= |log|
  {
    Issued(log, LastWrite(log, key, n), FirstStorer(initial, key))
  }

  lemma TokensOfPrefix(log: seq<Entry>, entry: Entry, initial: Tables, key: int, n: nat)
    requires n <= |log|
    ensures SecretAt(log + [entry], initial, key, n) == SecretAt(log, initial, key, n)
    ensures RefreshAt(log + [entry], initial, key, n) == RefreshAt(log, initial, key, n)
    ensures StorerAt(log + [entry], initial, key, n) == StorerAt(log, initial, key, n)
  {
    hide LastWrite, SecretOrigin, RefreshOrigin;
    OriginsOfPrefix(log, entry, key, n);
    assert forall i | 0 <= i < |log| :: (log + [entry])[i] == log[i];
  }

  // What one more entry does to the tokens of a key.
  lemma TokensAfter(log: seq<Entry>, entry: Entry, initial: Tables, key: int)
    ensures
      var all, n := log + [entry], |log| + 1;
      && StorerAt(all, initial, key, n) ==
           (if Writes(entry, key) then entry.write else StorerAt(log, initial, key, |log|))
      && SecretAt(all, initial, key, n) ==
           (if Writes(entry, key) then entry.write
            else if Edits(entry, key) && entry.readAt <= |log| then SecretAt(log, initial, key, entry.readAt)
            else SecretAt(log, initial, key, |log|))
      && RefreshAt(all, initial, key, n) ==
           (if Rotates(entry, key) then entry.write
            else if Writes(entry, key) && entry.loadedAt <= |log| then RefreshAt(log, initial, key, entry.loadedAt)
            else RefreshAt(log, initial, key, |log|))
  {
    TokensOfPrefix(log, entry, initial, key, |log|);
    if Edits(entry, key) && entry.readAt <= |log| {
      TokensOfPrefix(log, entry, initial, key, entry.readAt);
    }
    if entry.RefreshWritten? && entry.loadedAt <= |log| {
      TokensOfPrefix(log, entry, initial, key, entry.loadedAt);
    }
  }

  // ---------- What every reachable state satisfies ----------

  predicate IsWrite(entry: Entry) {
    entry.RefreshWritten? || entry.LoginWritten?
  }

  // Writes are numbered upwards from the base, and an entry put back what was seen before it.
  ghost predicate NumbersOk(s: State) {
    && s.base <= s.tokens
    && (forall i | 0 <= i < |s.log| && IsWrite(s.log[i]) :: s.base < s.log[i].write <= s.tokens)
    && (forall i, j | 0 <= i < j < |s.log| && IsWrite(s.log[i]) && IsWrite(s.log[j]) :: s.log[i].write < s.log[j].write)
    && (forall i | 0 <= i < |s.log| && s.log[i].KeyEdited? :: s.log[i].readAt <= i)
    && (forall i | 0 <= i < |s.log| && s.log[i].RefreshWritten? :: s.log[i].loadedAt <= i)
  }

  ghost predicate FirstOk(s: State) {
    forall k ::
      FirstSecret(s.initial, k) <= s.base && FirstRefresh(s.initial, k) <= s.base && FirstStorer(s.initial, k) <= s.base
  }

  // The tables hold the tokens the history calls for.
  ghost predicate TablesOk(s: State) {
    && (forall k | k in s.tables.keys :: s.tables.keys[k].secret == SecretAt(s.log, s.initial, k, |s.log|))
    && (forall k | k in s.tables.accounts ::
          && s.tables.accounts[k].credentials == RefreshAt(s.log, s.initial, k, |s.log|)
          && s.tables.accounts[k].storedBy == StorerAt(s.log, s.initial, k, |s.log|))
  }

  // So do the attempts and edits under way, as of when they read.
  ghost predicate SeenOk(s: State) {
    && (forall o | o in s.attempts && !s.attempts[o].Over? ::
          && s.attempts[o].at <= |s.log|
          && s.attempts[o].credentials == RefreshAt(s.log, s.initial, s.attempts[o].key, s.attempts[o].at))
    && (forall e | e in s.edits ::
          && s.edits[e].readAt <= |s.log|
          && s.edits[e].secret == SecretAt(s.log, s.initial, s.edits[e].key, s.edits[e].readAt))
  }

  ghost predicate TokensOk(s: State) {
    NumbersOk(s) && FirstOk(s) && TablesOk(s) && SeenOk(s)
  }

  lemma Unlogged(s: State, e: Event)
    requires Enabled(s, e) && TokensOk(s) && Step(s, e).log == s.log
    ensures TokensOk(Step(s, e))
  {
    hide SecretAt, RefreshAt, StorerAt;
  }

  lemma NumbersStep(s: State, e: Event)
    requires Enabled(s, e) && TokensOk(s) && Step(s, e).log != s.log
    ensures NumbersOk(Step(s, e)) && FirstOk(Step(s, e))
  {
    hide SecretAt, RefreshAt, StorerAt, FirstSecret, FirstRefresh, FirstStorer;
    LogGrows(s, e);
    var s' := Step(s, e);
    assert forall i | 0 <= i < |s.log| :: s'.log[i] == s.log[i];
  }

  lemma TablesStep(s: State, e: Event)
    requires Enabled(s, e) && TokensOk(s) && Step(s, e).log != s.log
    ensures TablesOk(Step(s, e))
  {
    hide SecretAt, RefreshAt, StorerAt;
    LogGrows(s, e);
    var s' := Step(s, e);
    var entry := s'.log[|s.log|];
    forall k ensures
      && (k in s'.tables.keys ==> s'.tables.keys[k].secret == SecretAt(s'.log, s.initial, k, |s'.log|))
      && (k in s'.tables.accounts ==>
            && s'.tables.accounts[k].credentials == RefreshAt(s'.log, s.initial, k, |s'.log|)
            && s'.tables.accounts[k].storedBy == StorerAt(s'.log, s.initial, k, |s'.log|))
    {
      TokensAfter(s.log, entry, s.initial, k);
    }
  }

  lemma SeenStep(s: State, e: Event)
    requires Enabled(s, e) && TokensOk(s) && Step(s, e).log != s.log
    ensures SeenOk(Step(s, e))
  {
    hide SecretAt, RefreshAt, StorerAt;
    LogGrows(s, e);
    var s' := Step(s, e);
    var entry := s'.log[|s.log|];
    forall o | o in s'.attempts && !s'.attempts[o].Over?
      ensures s'.attempts[o].at <= |s'.log|
      ensures s'.attempts[o].credentials == RefreshAt(s'.log, s.initial, s'.attempts[o].key, s'.attempts[o].at)
    {
      assert o in s.attempts && !s.attempts[o].Over?;
      TokensOfPrefix(s.log, entry, s.initial, s.attempts[o].key, s.attempts[o].at);
    }
    forall d | d in s'.edits
      ensures s'.edits[d].readAt <= |s'.log|
      ensures s'.edits[d].secret == SecretAt(s'.log, s.initial, s'.edits[d].key, s'.edits[d].readAt)
    {
      assert d in s.edits;
      TokensOfPrefix(s.log, entry, s.initial, s.edits[d].key, s.edits[d].readAt);
    }
  }

  lemma TokensStep(s: State, e: Event)
    requires TokensOk(s)
    ensures TokensOk(Step(s, e))
  {
    hide Apply, NumbersOk, FirstOk, TablesOk, SeenOk;
    if Enabled(s, e) {
      if Step(s, e).log == s.log {
        Unlogged(s, e);
      } else {
        NumbersStep(s, e);
        TablesStep(s, e);
        SeenStep(s, e);
      }
    }
  }

  lemma {:induction false} TokensRun(s: State, es: seq<Event>)
    requires TokensOk(s)
    ensures TokensOk(Run(s, es)) && Run(s, es).initial == s.initial
    decreases |es|
  {
    hide Step, TokensOk;
    if es != [] {
      TokensStep(s, es[0]);
      FirstStays(s, es[0]);
      TokensRun(Step(s, es[0]), es[1..]);
    }
  }

  lemma FirstStays(s: State, e: Event)
    ensures Step(s, e).initial == s.initial
  {
  }

  lemma EveryRunKeepsTokens(start: State, es: seq<Event>)
    requires Start(start) && TokensOk(start)
    ensures Inv(Run(start, es)) && TokensOk(Run(start, es)) && Run(start, es).initial == start.initial
  {
    EveryRun(start, es);
    TokensRun(start, es);
  }
}
