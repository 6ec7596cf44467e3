/** The two database tables behind a Codex account, one method per statement or transaction. A token
    is the number of the write that first stored it; `secret` is the access token of a key,
    `credentials` the refresh token of its account, and `storedBy` the write that stored the account's
    credentials last, which may have kept an older refresh token. */
module AccountStore {
  import opened Wrappers
  import opened Int64

  type Owner = nat  // identifiers of refresh attempts, never reused
  type Token = nat

  datatype KeyRow = KeyRow(provider: int, secret: Token)

  datatype Account = Account(
    provider: int,
    accountHash: string,
    credentials: Token,
    storedBy: Token,
    authStatus: string,
    leaseOwner: Option<Owner>,
    leaseUntil: Option<i64>)

  datatype Tables = Tables(keys: map<int, KeyRow>, accounts: map<int, Account>)

  datatype Login = Login(provider: int, replaceKey: Option<int>, accountHash: string, token: Token)

  datatype LoginError = ReplacementMissing | OtherProvider | AttachedElsewhere

  // ---------- What the statements do ----------

  predicate LeaseFree(a: Account, owner: Owner, now: i64) {
    a.leaseUntil.None? || a.leaseUntil.value <= now || a.leaseOwner == Some(owner)
  }

  predicate Acquires(t: Tables, key: int, owner: Owner, now: i64) {
    key in t.accounts && LeaseFree(t.accounts[key], owner, now)
  }

  function Acquired(t: Tables, key: int, owner: Owner, until: i64, now: i64): Tables {
    if Acquires(t, key, owner, now) then
      t.(accounts := t.accounts[key := t.accounts[key].(leaseOwner := Some(owner), leaseUntil := Some(until))])
    else t
  }

  predicate Holds(t: Tables, key: int, owner: Owner) {
    key in t.accounts && t.accounts[key].leaseOwner == Some(owner)
  }

  function Released(t: Tables, key: int, owner: Owner): Tables {
    if Holds(t, key, owner) then
      t.(accounts := t.accounts[key := t.accounts[key].(leaseOwner := None, leaseUntil := None)])
    else t
  }

  function SecretSet(t: Tables, key: int, token: Token): map<int, KeyRow> {
    if key in t.keys then t.keys[key := t.keys[key].(secret := token)] else t.keys
  }

  // Write `write` stores the access token it brought and the refresh token `refresh`, which is the
  // one it brought or, if it brought none, the one that was loaded.
  function Persisted(t: Tables, key: int, owner: Owner, write: Token, refresh: Token, status: string): Tables {
    if Holds(t, key, owner) then
      Tables(SecretSet(t, key, write),
             t.accounts[key := t.accounts[key].(credentials := refresh, storedBy := write, authStatus := status,
                                                leaseOwner := None, leaseUntil := None)])
    else t
  }

  function StatusSet(t: Tables, key: int, status: string): Tables {
    if key in t.accounts then t.(accounts := t.accounts[key := t.accounts[key].(authStatus := status)]) else t
  }

  // The key already attached to the signed-in account, if any.
  ghost predicate AttachedTo(t: Tables, provider: int, accountHash: string, key: int) {
    key in t.accounts && t.accounts[key].provider == provider && t.accounts[key].accountHash == accountHash
  }

  // A key the login may go to: of its provider, or new, and the only one the account is attached to.
  ghost predicate LoginTarget(t: Tables, provider: int, accountHash: string, key: int) {
    && (key in t.keys ==> t.keys[key].provider == provider)
    && forall k | AttachedTo(t, provider, accountHash, k) :: k == key
  }

  // The row a login leaves for its key; the lease is cleared whoever held it.
  function LoggedInAccount(login: Login): Account {
    Account(login.provider, login.accountHash, login.token, login.token, "active", None, None)
  }

  function LoggedIn(t: Tables, key: int, login: Login): Tables {
    var keys := if key in t.keys then t.keys else t.keys[key := KeyRow(login.provider, login.token)];
    Tables(keys[key := keys[key].(secret := login.token)], t.accounts[key := LoggedInAccount(login)])
  }

  // ---------- What the schema and the code keep true ----------

  // The foreign key and the unique index on (provider, account).
  ghost predicate StoreOk(t: Tables) {
    && (forall k | k in t.accounts :: k in t.keys && t.keys[k].provider == t.accounts[k].provider)
    && (forall j, k | j in t.accounts && k in t.accounts && j != k ::
          (t.accounts[j].provider, t.accounts[j].accountHash) != (t.accounts[k].provider, t.accounts[k].accountHash))
  }

  // ---------- What a lease is for ----------

  // Once taken, a lease keeps others out until its time has come, and not a moment longer; its owner
  // may take it again at any time and give it up, and no one else's release touches it.
  lemma LeaseExcludes(t: Tables, key: int, owner: Owner, until: i64, now: i64, other: Owner, later: i64)
    requires Acquires(t, key, owner, now) && other != owner
    ensures
      var t' := Acquired(t, key, owner, until, now);
      && t'.accounts.Keys == t.accounts.Keys && t'.accounts - {key} == t.accounts - {key} && t'.keys == t.keys
      && (Acquires(t', key, other, later) <==> later >= until)
      && (later < until ==> Acquired(t', key, other, until, later) == t')
      && Acquires(t', key, owner, later) && Released(t', key, other) == t'
      && Acquires(Released(t', key, owner), key, other, later)
  {
  }

  class Database {
    var keys: map<int, KeyRow>
    var accounts: map<int, Account>

    ghost function Contents(): Tables
      reads this
    {
      Tables(keys, accounts)
    }

    method TryAcquireRefreshLease(key: int, owner: Owner, until: i64, now: i64) returns (acquired: bool)
      modifies this`accounts
      ensures acquired == Acquires(old(Contents()), key, owner, now)
      ensures Contents() == Acquired(old(Contents()), key, owner, until, now)
    {
      if key !in accounts {
        return false;
      }
      var a := accounts[key];
      if !(a.leaseUntil.None? || a.leaseUntil.value <= now || a.leaseOwner == Some(owner)) {
        return false;
      }
      accounts := accounts[key := a.(leaseOwner := Some(owner), leaseUntil := Some(until))];
      return true;
    }

    method ReleaseRefreshLease(key: int, owner: Owner)
      modifies this`accounts
      ensures Contents() == Released(old(Contents()), key, owner)
    {
      if key in accounts && accounts[key].leaseOwner == Some(owner) {
        accounts := accounts[key := accounts[key].(leaseOwner := None, leaseUntil := None)];
      }
    }

    method PersistTokenRefresh(key: int, owner: Owner, write: Token, refresh: Token, status: string)
      returns (written: bool)
      modifies this
      ensures written == Holds(old(Contents()), key, owner)
      ensures Contents() == Persisted(old(Contents()), key, owner, write, refresh, status)
    {
      if key !in accounts || accounts[key].leaseOwner != Some(owner) {
        return false;
      }
      var a := accounts[key].(credentials := refresh, storedBy := write, authStatus := status);
      accounts := accounts[key := a.(leaseOwner := None, leaseUntil := None)];
      if key in keys {
        keys := keys[key := keys[key].(secret := write)];
      }
      return true;
    }

    // An edit of a key writes every column back, the secret included.
    method UpdateUpstreamKey(key: int, secret: Token)
      modifies this`keys
      ensures Contents() == old(Contents()).(keys := SecretSet(old(Contents()), key, secret))
    {
      if key in keys {
        keys := keys[key := keys[key].(secret := secret)];
      }
    }

    method UpdateAuthStatus(key: int, status: string)
      modifies this`accounts
      ensures Contents() == StatusSet(old(Contents()), key, status)
    {
      if key in accounts {
        accounts := accounts[key := accounts[key].(authStatus := status)];
      }
    }

    // `inserted` is the row id the database would give a new key. An account is attached to the
    // key it replaces, else to the key it already has, else to a new one.
    method SaveLogin(login: Login, inserted: int) returns (r: Result<int, LoginError>)
      requires StoreOk(Contents()) && inserted !in keys
      modifies this
      ensures StoreOk(Contents())
      ensures r.Err? ==> Contents() == old(Contents())
      ensures r.Ok? ==>
        && LoginTarget(old(Contents()), login.provider, login.accountHash, r.value)
        && Contents() == LoggedIn(old(Contents()), r.value, login)
      ensures r.Ok? <==>
        (login.replaceKey.Some? ==>
          && login.replaceKey.value in old(keys)
          && LoginTarget(old(Contents()), login.provider, login.accountHash, login.replaceKey.value))
      ensures r.Ok? ==>
        match login.replaceKey
        case Some(k) => r.value == k
        case None =>
          || AttachedTo(old(Contents()), login.provider, login.accountHash, r.value)
          || (r.value == inserted && forall k :: !AttachedTo(old(Contents()), login.provider, login.accountHash, k))
    {
      var existing: Option<int> := None;
      if k :| k in accounts && accounts[k].provider == login.provider && accounts[k].accountHash == login.accountHash {
        existing := Some(k);
      }
      assert existing.Some? ==> AttachedTo(Contents(), login.provider, login.accountHash, existing.value);
      var key: int;
      if login.replaceKey.Some? {
        key := login.replaceKey.value;
        if key !in keys {
          return Err(ReplacementMissing);
        }
        if keys[key].provider != login.provider {
          return Err(OtherProvider);
        }
        if existing.Some? && existing.value != key {
          return Err(AttachedElsewhere);
        }
      } else if existing.Some? {
        key := existing.value;
      } else {
        key := inserted;
        keys := keys[key := KeyRow(login.provider, login.token)];
      }
      keys := keys[key := keys[key].(secret := login.token)];
      accounts := accounts[key := LoggedInAccount(login)];
      return Ok(key);
    }
  }
}
