/** Token refresh by any number of gateways against one database, with administrators editing keys
    beside them. Each event is one statement or one transaction; the history records, per key, who
    acquired the lease, which writes landed and which edits. */
module RefreshLease {
  import opened Wrappers
  import opened Int64
  import opened AccountStore

  // A refresh attempt: the account it loaded (and how long the history was then), and the lease.
  datatype Attempt =
    | Loaded(key: int, credentials: Token, at: nat)
    | Holding(key: int, credentials: Token, at: nat, acquiredAt: nat)
    | Over

  datatype Entry =
    | LeaseTaken(key: int, owner: Owner, until: i64)
    | LeaseGivenUp(key: int, owner: Owner)
    | RefreshWritten(key: int, owner: Owner, write: Token, loadedAt: nat, rotated: bool)
    | LoginWritten(key: int, write: Token)
    | KeyEdited(key: int, readAt: nat)

  // An edit under way: the key and the secret it has read, and how long the history was then.
  datatype Edit = Edit(key: int, secret: Token, readAt: nat)

  datatype State = State(
    tables: Tables,
    attempts: map<Owner, Attempt>,
    edits: map<nat, Edit>,
    tokens: Token,    // the number of the last write, landed or not
    log: seq<Entry>,
    initial: Tables,  // the tables before the first entry of the history
    base: Token)      // the last write before it

  datatype Event =
    | Load(owner: Owner, key: int)
    | Reload(owner: Owner)
    | TryAcquire(owner: Owner, until: i64, now: i64)
    | Persist(owner: Owner, rotated: bool, status: string)  // whether a new refresh token came
    | Release(owner: Owner)
    | Stop(owner: Owner)
    | SaveLogin(key: int, provider: int, accountHash: string)
    | SetStatus(key: int, status: string)
    | ReadKey(editor: nat, key: int)
    | WriteKey(editor: nat)

  ghost predicate Enabled(s: State, e: Event) {
    match e
    case Load(owner, key) => owner !in s.attempts && key in s.tables.accounts
    case Reload(owner) =>
      owner in s.attempts && s.attempts[owner].Loaded? && s.attempts[owner].key in s.tables.accounts
    case TryAcquire(owner, _, _) => owner in s.attempts && s.attempts[owner].Loaded?
    case Persist(owner, _, _) => owner in s.attempts && s.attempts[owner].Holding?
    case Release(owner) => owner in s.attempts && s.attempts[owner].Holding?
    case Stop(owner) => owner in s.attempts
    case SaveLogin(key, provider, accountHash) => LoginTarget(s.tables, provider, accountHash, key)
    case SetStatus(_, _) => true
    case ReadKey(editor, key) => editor !in s.edits && key in s.tables.keys
    case WriteKey(editor) => editor in s.edits
  }

  function Note(s: State, tables: Tables, entry: Entry): State {
    s.(tables := tables, log := s.log + [entry])
  }

  ghost function Apply(s: State, e: Event): State
    requires Enabled(s, e)
  {
    match e
    case Load(owner, key) =>
      s.(attempts := s.attempts[owner := Loaded(key, s.tables.accounts[key].credentials, |s.log|)])
    case Reload(owner) =>
      var key := s.attempts[owner].key;
      s.(attempts := s.attempts[owner := Loaded(key, s.tables.accounts[key].credentials, |s.log|)])
    case TryAcquire(owner, until, now) =>
      var a := s.attempts[owner];
      if Acquires(s.tables, a.key, owner, now) then
        Note(s, Acquired(s.tables, a.key, owner, until, now), LeaseTaken(a.key, owner, until))
        .(attempts := s.attempts[owner := Holding(a.key, a.credentials, a.at, |s.log|)])
      else s
    case Persist(owner, rotated, status) =>
      var a := s.attempts[owner];
      var write := s.tokens + 1;
      var s' := s.(attempts := s.attempts[owner := Over], tokens := write);
      if Holds(s.tables, a.key, owner) then
        var refresh := if rotated then write else a.credentials;
        Note(s', Persisted(s.tables, a.key, owner, write, refresh, status),
             RefreshWritten(a.key, owner, write, a.at, rotated))
      else s'
    case Release(owner) =>
      var key := s.attempts[owner].key;
      var s' := s.(attempts := s.attempts[owner := Over]);
      if Holds(s.tables, key, owner) then Note(s', Released(s.tables, key, owner), LeaseGivenUp(key, owner)) else s'
    case Stop(owner) => s.(attempts := s.attempts[owner := Over])
    case SaveLogin(key, provider, accountHash) =>
      var login := Login(provider, None, accountHash, s.tokens + 1);
      Note(s, LoggedIn(s.tables, key, login), LoginWritten(key, s.tokens + 1)).(tokens := s.tokens + 1)
    case SetStatus(key, status) => s.(tables := StatusSet(s.tables, key, status))
    case ReadKey(editor, key) =>
      s.(edits := s.edits[editor := Edit(key, s.tables.keys[key].secret, |s.log|)])
    case WriteKey(editor) =>
      var e := s.edits[editor];
      Note(s, s.tables.(keys := SecretSet(s.tables, e.key, e.secret)), KeyEdited(e.key, e.readAt))
      .(edits := s.edits - {editor})
  }

  ghost function Step(s: State, e: Event): State {
    if Enabled(s, e) then Apply(s, e) else s
  }

  ghost function Run(s: State, es: seq<Event>): State
    decreases |es|
  {
    if es == [] then s else Run(Step(s, es[0]), es[1..])
  }

  // ---------- The history says who holds a lease ----------

  // An entry that says something about the lease or the credentials of a key; an edit does not.
  predicate Touches(entry: Entry, key: int) {
    entry.key == key && !entry.KeyEdited?
  }

  // The lease of a key after a history: the last entry that touches it, if it took the lease.
  function Lease(log: seq<Entry>, key: int): (r: Option<Entry>)
    ensures r.Some? ==> r.value.LeaseTaken?
  {
    if log == [] then None
    else
      var last := log[|log| - 1];
      if !Touches(last, key) then Lease(log[..|log| - 1], key)
      else if last.LeaseTaken? then Some(last) else None
  }

  predicate Takes(entry: Entry, key: int, owner: Owner) {
    entry.LeaseTaken? && entry.key == key && entry.owner == owner
  }

  predicate Writes(entry: Entry, key: int) {
    entry.key == key && (entry.RefreshWritten? || entry.LoginWritten?)
  }

  ghost predicate Quiet(log: seq<Entry>, from: nat, key: int) {
    forall i | from <= i < |log| :: !Touches(log[i], key)
  }

  // A row shows a lease taken with this entry, or none.
  predicate LeaseStored(a: Account, taken: Option<Entry>)
    requires taken.Some? ==> taken.value.LeaseTaken?
  {
    match taken
    case Some(entry) => a.leaseOwner == Some(entry.owner) && a.leaseUntil == Some(entry.until)
    case None => a.leaseOwner == None && a.leaseUntil == None
  }

  ghost predicate LeasesOk(s: State) {
    forall k | k in s.tables.accounts :: LeaseStored(s.tables.accounts[k], Lease(s.log, k))
  }

  // An attempt that is not over knows its account, and a holding one stands in the history where it
  // says.
  ghost predicate AttemptOk(s: State, o: Owner)
    requires o in s.attempts
  {
    var a := s.attempts[o];
    && (a.Over? || (a.key in s.tables.accounts && a.at <= |s.log|))
    && (a.Holding? ==> a.at <= a.acquiredAt < |s.log| && Takes(s.log[a.acquiredAt], a.key, o))
    && (forall i | 0 <= i < |s.log| && s.log[i].LeaseTaken? && s.log[i].owner == o ::
          a.Over? || (a.Holding? && i == a.acquiredAt))
  }

  ghost predicate AttemptsOk(s: State) {
    && (forall o | o in s.attempts :: AttemptOk(s, o))
    && (forall i | 0 <= i < |s.log| && (s.log[i].LeaseTaken? || s.log[i].LeaseGivenUp? || s.log[i].RefreshWritten?) ::
          s.log[i].owner in s.attempts)
  }

  // Entry `i` is the acquisition of the write at `j`, and nothing between touches the key.
  ghost predicate Acquisition(log: seq<Entry>, i: int, j: nat)
    requires j < |log| && log[j].RefreshWritten?
  {
    && 0 <= i < j && Takes(log[i], log[j].key, log[j].owner)
    && forall m | i < m < j :: !Touches(log[m], log[j].key)
  }

  // A refresh write stands right after its own acquisition, with nothing on the key between.
  ghost predicate Fenced(log: seq<Entry>, j: nat)
    requires j < |log|
  {
    log[j].RefreshWritten? ==> exists i :: Acquisition(log, i, j)
  }

  ghost predicate LogOk(s: State) {
    && (forall j | 0 <= j < |s.log| :: Fenced(s.log, j))
    && (forall i, j | 0 <= i < j < |s.log| && s.log[i].LeaseTaken? && s.log[j].LeaseTaken? ::
          s.log[i].owner != s.log[j].owner)
  }

  ghost predicate Inv(s: State) {
    StoreOk(s.tables) && LeasesOk(s) && AttemptsOk(s) && LogOk(s)
  }

  lemma {:induction false} LeaseStands(log: seq<Entry>, key: int) returns (i: nat)
    requires Lease(log, key).Some?
    ensures i < |log| && log[i] == Lease(log, key).value && log[i].key == key
    ensures forall m | i < m < |log| :: !Touches(log[m], key)
    decreases |log|
  {
    var n := |log| - 1;
    if Touches(log[n], key) {
      i := n;
    } else {
      i := LeaseStands(log[..n], key);
    }
  }

  lemma {:induction false} QuietKeepsLease(log: seq<Entry>, i: nat, key: int)
    requires i < |log| && Touches(log[i], key) && Quiet(log, i + 1, key)
    ensures Lease(log, key) == if log[i].LeaseTaken? then Some(log[i]) else None
    decreases |log|
  {
    var n := |log| - 1;
    if i < n {
      assert log[..n][i] == log[i];
      QuietKeepsLease(log[..n], i, key);
    }
  }

  lemma StoreStep(s: State, e: Event)
    requires StoreOk(s.tables)
    ensures StoreOk(Step(s, e).tables)
  {
    if e.SaveLogin? && Enabled(s, e) {
      var t := Step(s, e).tables;
      forall k | k in t.accounts && k != e.key
        ensures (t.accounts[k].provider, t.accounts[k].accountHash) != (e.provider, e.accountHash)
      {
        assert !AttachedTo(s.tables, e.provider, e.accountHash, k);
      }
    }
  }

  lemma LeasesStep(s: State, e: Event)
    requires LeasesOk(s)
    ensures LeasesOk(Step(s, e))
  {
    var s' := Step(s, e);
    assert s'.log != s.log ==> s'.log[..|s'.log| - 1] == s.log;
  }

  // ---------- One event at a time ----------

  lemma FencedExtends(log: seq<Entry>, entry: Entry, j: nat)
    requires j < |log| && Fenced(log, j)
    ensures Fenced(log + [entry], j)
  {
    var log' := log + [entry];
    assert log'[j] == log[j];
    if log[j].RefreshWritten? {
      var i :| Acquisition(log, i, j);
      assert forall m | i <= m <= j :: log'[m] == log[m];
      assert Acquisition(log', i, j);
    }
  }

  lemma LogStep(s: State, e: Event)
    requires Inv(s)
    ensures LogOk(Step(s, e))
  {
    var s' := Step(s, e);
    if s'.log != s.log {
      var entry := s'.log[|s.log|];
      assert s'.log == s.log + [entry];
      forall j | 0 <= j < |s.log| ensures Fenced(s'.log, j) {
        FencedExtends(s.log, entry, j);
      }
      if e.Persist? {
        var i := LeaseStands(s.log, entry.key);
        assert forall m | i <= m < |s.log| :: s'.log[m] == s.log[m];
        assert Acquisition(s'.log, i, |s.log|);
      }
      if e.TryAcquire? {
        assert AttemptOk(s, e.owner);
      }
    }
  }

  lemma LogGrows(s: State, e: Event)
    ensures
      || Step(s, e).log == s.log
      || (|Step(s, e).log| == |s.log| + 1 && Step(s, e).log == s.log + [Step(s, e).log[|s.log|]])
  {
  }

  lemma AttemptNext(s: State, e: Event, o: Owner)
    requires Inv(s) && Enabled(s, e) && o in s.attempts
    ensures o in Step(s, e).attempts && AttemptOk(Step(s, e), o)
  {
    hide StoreOk, LeasesOk, LogOk, Lease;
    assert AttemptOk(s, o);
    LogGrows(s, e);
  }

  lemma AttemptsStep(s: State, e: Event)
    requires Inv(s)
    ensures AttemptsOk(Step(s, e))
  {
    hide StoreOk, LeasesOk, LogOk, Lease;
    var s' := Step(s, e);
    if Enabled(s, e) {
      LogGrows(s, e);
      forall o | o in s'.attempts ensures AttemptOk(s', o) {
        if o in s.attempts {
          AttemptNext(s, e, o);
        }
      }
    }
  }

  lemma StepKeepsInv(s: State, e: Event)
    requires Inv(s)
    ensures Inv(Step(s, e))
  {
    hide Step, StoreOk, LeasesOk, AttemptsOk, LogOk;
    StoreStep(s, e);
    LeasesStep(s, e);
    AttemptsStep(s, e);
    LogStep(s, e);
  }

  lemma {:induction false} RunKeepsInv(s: State, es: seq<Event>)
    requires Inv(s)
    ensures Inv(Run(s, es))
    decreases |es|
  {
    hide Step, Inv;
    if es != [] {
      StepKeepsInv(s, es[0]);
      RunKeepsInv(Step(s, es[0]), es[1..]);
    }
  }

  // Where a run may start: any consistent tables, without attempts or with some from before that may
  // still hold the leases the tables show.
  ghost predicate Start(s: State) {
    && StoreOk(s.tables) && LeasesOk(s) && AttemptsOk(s)
    && (forall i | 0 <= i < |s.log| :: s.log[i].LeaseTaken? || s.log[i].LoginWritten?)
    && (forall i, j | 0 <= i < j < |s.log| && s.log[i].LeaseTaken? && s.log[j].LeaseTaken? ::
          s.log[i].owner != s.log[j].owner)
  }

  lemma EveryRun(start: State, es: seq<Event>)
    requires Start(start)
    ensures Inv(Run(start, es))
  {
    RunKeepsInv(start, es);
  }

  // ---------- What holds over whole runs ----------

  // A refresh write lands only while nothing else happened to the key's lease or credentials since
  // its own acquisition.
  lemma WritesAreFenced(start: State, es: seq<Event>, j: nat)
    requires Start(start) && j < |Run(start, es).log| && Run(start, es).log[j].RefreshWritten?
    ensures
      var log := Run(start, es).log;
      exists i :: Acquisition(log, i, j)
  {
    EveryRun(start, es);
    assert Fenced(Run(start, es).log, j);
  }

  // The persist of a holding attempt writes exactly when no other acquisition, login or write has
  // touched its key since it took the lease, whatever edits have; otherwise it leaves the tables as
  // they are.
  lemma PersistWritesExactly(start: State, es: seq<Event>, o: Owner, rotated: bool, status: string)
    requires Start(start) && o in Run(start, es).attempts && Run(start, es).attempts[o].Holding?
    ensures
      var s := Run(start, es);
      var a := s.attempts[o];
      var s' := Step(s, Persist(o, rotated, status));
      if Quiet(s.log, a.acquiredAt + 1, a.key) then
        && s'.log == s.log + [RefreshWritten(a.key, o, s.tokens + 1, a.at, rotated)]
        && a.key in s'.tables.accounts && s'.tables.accounts[a.key].storedBy == s.tokens + 1
        && s'.tables.accounts[a.key].credentials == (if rotated then s.tokens + 1 else a.credentials)
        && s'.tables.accounts[a.key].authStatus == status && s'.tables.accounts[a.key].leaseOwner == None
        && s'.tables.accounts[a.key].leaseUntil == None
        && a.key in s'.tables.keys && s'.tables.keys[a.key].secret == s.tokens + 1
        && s'.tables.accounts - {a.key} == s.tables.accounts - {a.key}
        && s'.tables.keys - {a.key} == s.tables.keys - {a.key}
      else s'.tables == s.tables && s'.log == s.log
  {
    EveryRun(start, es);
    var s := Run(start, es);
    var a := s.attempts[o];
    assert AttemptOk(s, o);
    if Quiet(s.log, a.acquiredAt + 1, a.key) {
      QuietKeepsLease(s.log, a.acquiredAt, a.key);
    } else if Holds(s.tables, a.key, o) {
      var i := LeaseStands(s.log, a.key);
      assert false;
    }
  }

  // An attempt that asks for a lease gets it exactly when nobody has taken it, the last to touch the
  // key gave it up or wrote, or the time at which it was taken until has come. A lease is then taken
  // until the time asked for; a refusal changes nothing.
  lemma LeaseTakenExactly(start: State, es: seq<Event>, o: Owner, until: i64, now: i64)
    requires Start(start) && o in Run(start, es).attempts && Run(start, es).attempts[o].Loaded?
    ensures
      var s := Run(start, es);
      var key := s.attempts[o].key;
      var s' := Step(s, TryAcquire(o, until, now));
      && key in s.tables.accounts && o in s'.attempts
      && (Quiet(s.log, 0, key) ==> s'.attempts[o].Holding?)
      && (forall i: nat | i < |s.log| && Touches(s.log[i], key) && Quiet(s.log, i + 1, key) ::
            && (s'.attempts[o].Holding? <==> (s.log[i].LeaseTaken? ==> now >= s.log[i].until))
            && (s.log[i].LeaseTaken? ==> s.log[i].owner != o))
      && (if s'.attempts[o].Holding? then
            && s'.log == s.log + [LeaseTaken(key, o, until)] && s'.tables.keys == s.tables.keys
            && s'.tables.accounts == s.tables.accounts[key :=
                 s.tables.accounts[key].(leaseOwner := Some(o), leaseUntil := Some(until))]
          else s' == s)
  {
    EveryRun(start, es);
    var s := Run(start, es);
    var key := s.attempts[o].key;
    hide Run;
    assert AttemptOk(s, o);
    if Quiet(s.log, 0, key) {
      QuietHasNoLease(s.log, key);
    }
    forall i: nat | i < |s.log| && Touches(s.log[i], key) && Quiet(s.log, i + 1, key)
      ensures Lease(s.log, key) == if s.log[i].LeaseTaken? then Some(s.log[i]) else None
    {
      QuietKeepsLease(s.log, i, key);
    }
  }

  lemma {:induction false} QuietHasNoLease(log: seq<Entry>, key: int)
    requires Quiet(log, 0, key)
    ensures Lease(log, key) == None
    decreases |log|
  {
    if log != [] {
      QuietHasNoLease(log[..|log| - 1], key);
    }
  }

  // One acquisition, one write: no attempt writes twice.
  lemma OneWritePerAcquisition(start: State, es: seq<Event>, i: nat, j: nat)
    requires Start(start) && i < j < |Run(start, es).log|
    requires Run(start, es).log[i].RefreshWritten? && Run(start, es).log[j].RefreshWritten?
    ensures Run(start, es).log[i].owner != Run(start, es).log[j].owner
  {
    EveryRun(start, es);
    var log := Run(start, es).log;
    assert Fenced(log, i) && Fenced(log, j);
    var p :| Acquisition(log, p, i);
    var q :| Acquisition(log, q, j);
    if log[i].owner == log[j].owner {
      assert false;
    }
  }

  // The refresh writes of a key land in the order in which their leases were taken.
  lemma WritesFollowAcquisitions(start: State, es: seq<Event>, i: nat, j: nat, p: nat, q: nat)
    requires Start(start) && i < j < |Run(start, es).log| && p < i && q < j
    requires
      var log := Run(start, es).log;
      && log[i].RefreshWritten? && log[j].RefreshWritten? && log[i].key == log[j].key
      && Takes(log[p], log[i].key, log[i].owner) && Takes(log[q], log[j].key, log[j].owner)
    ensures p < i < q < j
  {
    EveryRun(start, es);
    var log := Run(start, es).log;
    assert Fenced(log, j);
    var r :| Acquisition(log, r, j);
    assert r == q;
  }

  // A login leaves its account active, with the new tokens and without a lease, and no other row
  // changes; setting a status changes that status only.
  lemma LoginsAndStatuses(start: State, es: seq<Event>, key: int, provider: int, accountHash: string, status: string)
    requires Start(start)
    ensures
      var s := Run(start, es);
      var after := Step(s, SaveLogin(key, provider, accountHash)).tables;
      (forall k | AttachedTo(s.tables, provider, accountHash, k) :: k == key)
      && (key in s.tables.keys ==> s.tables.keys[key].provider == provider) ==>
        && key in after.accounts && key in after.keys && after.keys[key].secret == s.tokens + 1
        && after.accounts[key] == Account(provider, accountHash, s.tokens + 1, s.tokens + 1, "active", None, None)
        && after.accounts - {key} == s.tables.accounts - {key} && after.keys - {key} == s.tables.keys - {key}
    ensures
      var s := Run(start, es);
      var after := Step(s, SetStatus(key, status)).tables;
      && after.keys == s.tables.keys && after.accounts.Keys == s.tables.accounts.Keys
      && after.accounts - {key} == s.tables.accounts - {key}
      && (key in s.tables.accounts ==>
            after.accounts[key] == s.tables.accounts[key].(authStatus := status))
  {
  }

  // An account is attached to one key.
  lemma OneKeyPerAccount(start: State, es: seq<Event>, key: int)
    requires Start(start) && key in Run(start, es).tables.accounts
    ensures
      var t := Run(start, es).tables;
      key in t.keys && forall k | AttachedTo(t, t.accounts[key].provider, t.accounts[key].accountHash, k) :: k == key
  {
    EveryRun(start, es);
  }
}
