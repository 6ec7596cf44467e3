/** Runs in which stored tokens go stale or come apart, and one in which they come together again. */
module TokenRuns {
  import opened Wrappers
  import opened Int64
  import opened AccountStore
  import opened RefreshLease
  import opened TokenHistory
  import opened TokenOutcomes

  const ACCOUNT := Account(1, "account", 0, 0, "active", None, None)
  const TABLES := Tables(map[1 := KeyRow(1, 0)], map[1 := ACCOUNT])
  const START := State(TABLES, map[], map[], 0, [], TABLES, 0)

  lemma StartStarts()
    ensures Start(START) && TokensOk(START)
  {
    assert forall k :: Lease([], k) == None;
  }

  lemma {:induction false} RunUnfolds(s: State, es: seq<Event>, states: seq<State>)
    requires |es| == |states| > 0 && states[0] == Step(s, es[0])
    requires forall i :: 0 < i < |es| ==> states[i] == Step(states[i - 1], es[i])
    ensures Run(s, es) == states[|states| - 1]
    decreases |es|
  {
    hide Step;
    if |es| > 1 {
      RunUnfolds(states[0], es[1..], states[1..]);
    }
  }

  lemma {:induction false} RunAppend(s: State, xs: seq<Event>, ys: seq<Event>)
    ensures Run(s, xs + ys) == Run(Run(s, xs), ys)
    decreases |xs|
  {
    hide Step;
    if xs == [] {
      assert [] + ys == ys;
    } else {
      assert (xs + ys)[0] == xs[0] && (xs + ys)[1..] == xs[1..] + ys;
      RunAppend(Step(s, xs[0]), xs[1..], ys);
    }
  }

  // Attempt 1 loads, then attempt 2 loads and refreshes.
  function OtherRefresh(rotated: bool): seq<Event> {
    [Load(1, 1), Load(2, 1), TryAcquire(2, 10, 0), Persist(2, rotated, "active")]
  }

  lemma OtherRefreshes(rotated: bool)
    ensures
      var s := Run(START, OtherRefresh(rotated));
      && s.tables.accounts == map[1 := Account(1, "account", if rotated then 1 else 0, 1, "active", None, None)]
      && s.attempts == map[1 := Loaded(1, 0, 0), 2 := Over] && s.tokens == 1
      && s.log == [LeaseTaken(1, 2, 10), RefreshWritten(1, 2, 1, 0, rotated)]
  {
    var es := OtherRefresh(rotated);
    var a := Step(START, es[0]);
    var b := Step(a, es[1]);
    var c := Step(b, es[2]);
    assert c.attempts[2] == Holding(1, 0, 0, 0) && Holds(c.tables, 1, 2);
    var d := Step(c, es[3]);
    RunUnfolds(START, es, [a, b, c, d]);
  }

  // Now attempt 1 takes the lease. If the refresh brought a new refresh token, attempt 1 holds the
  // lease with one that is no longer stored; if it kept the old one, attempt 1 still holds what is
  // stored although a write has landed.
  lemma StaleRefreshHappens(rotated: bool)
    ensures Start(START) && TokensOk(START)
    ensures
      var s := Run(START, OtherRefresh(rotated) + [TryAcquire(1, 20, 5)]);
      && 1 in s.attempts && s.attempts[1].Holding? && s.attempts[1].key == 1 && s.attempts[1].at == 0
      && 1 in s.tables.accounts && Holds(s.tables, 1, 1) && |s.log| == 3 && Writes(s.log[1], 1)
      && (s.attempts[1].credentials == s.tables.accounts[1].credentials <==> !rotated)
  {
    StartStarts();
    hide Start, TokensOk;
    OtherRefreshes(rotated);
    RunAppend(START, OtherRefresh(rotated), [TryAcquire(1, 20, 5)]);
    var s := Run(START, OtherRefresh(rotated));
    RunUnfolds(s, [TryAcquire(1, 20, 5)], [Step(s, TryAcquire(1, 20, 5))]);
  }

  // The refresh brought a new refresh token, attempt 3 loads it, and attempt 1 refreshes and keeps the
  // token it had loaded: the replaced token is stored again, and attempt 3 is left with another
  // although no new token has come since its load.
  const RETURNING: seq<Event> := [Load(3, 1), TryAcquire(1, 20, 5), Persist(1, false, "active")]

  lemma OldTokenComesBack()
    ensures
      var s := Run(START, OtherRefresh(true) + RETURNING);
      && 1 in s.tables.accounts && s.tables.accounts[1].credentials == 0
      && 3 in s.attempts && s.attempts[3] == Loaded(1, 1, 2) && |s.log| == 4 && Unrotated(s.log, 2, 4, 1)
  {
    hide SecretOrigin, RefreshOrigin, LastWrite, Run, Lease;
    OtherRefreshes(true);
    RunAppend(START, OtherRefresh(true), RETURNING);
    var d := Run(START, OtherRefresh(true));
    var e := Step(d, RETURNING[0]);
    var f := Step(e, RETURNING[1]);
    assert f.attempts[1] == Holding(1, 0, 0, 2) && Holds(f.tables, 1, 1);
    var g := Step(f, RETURNING[2]);
    RunUnfolds(d, RETURNING, [e, f, g]);
  }

  // An edit reads the key, and a refresh lands before the edit does.
  const OVERLAP: seq<Event> := [ReadKey(8, 1), Load(1, 1), TryAcquire(1, 10, 0), Persist(1, true, "active")]

  lemma RefreshUnderEdit()
    ensures
      var s := Run(START, OVERLAP);
      && s.tables == Tables(map[1 := KeyRow(1, 1)], map[1 := Account(1, "account", 1, 1, "active", None, None)])
      && s.edits == map[8 := Edit(1, 0, 0)]
      && s.log == [LeaseTaken(1, 1, 10), RefreshWritten(1, 1, 1, 0, true)]
  {
    var a := Step(START, OVERLAP[0]);
    var b := Step(a, OVERLAP[1]);
    var c := Step(b, OVERLAP[2]);
    assert c.attempts[1] == Holding(1, 0, 0, 0) && Holds(c.tables, 1, 1);
    var d := Step(c, OVERLAP[3]);
    RunUnfolds(START, OVERLAP, [a, b, c, d]);
  }

  // The edit writes the old access token back beside the new credentials.
  lemma RenamePutsOldTokenBack()
    ensures
      var s := Run(START, OVERLAP + [WriteKey(8)]);
      && s.tables.keys == map[1 := KeyRow(1, 0)]
      && s.tables.accounts == map[1 := Account(1, "account", 1, 1, "active", None, None)]
      && !Paired(s.tables, 1)
  {
    RefreshUnderEdit();
    RunAppend(START, OVERLAP, [WriteKey(8)]);
    var s := Run(START, OVERLAP);
    RunUnfolds(s, [WriteKey(8)], [Step(s, WriteKey(8))]);
  }

  // A second edit that had read between the refresh and the first edit restores the new token. So with
  // edits that overlap, one that puts a token back does not decide it alone.
  const REPAIRING: seq<Event> := [ReadKey(9, 1), WriteKey(8), WriteKey(9)]

  lemma OverlappingEditRestores()
    ensures
      var s := Run(START, OVERLAP + REPAIRING);
      Paired(s.tables, 1) && LastWrite(s.log, 1, |s.log|) == Some(1) && PutsBack(s.log, 1, 1, 2)
  {
    hide SecretOrigin, RefreshOrigin, LastWrite, Run, Lease;
    RefreshUnderEdit();
    RunAppend(START, OVERLAP, REPAIRING);
    var d := Run(START, OVERLAP);
    var e := Step(d, REPAIRING[0]);
    assert e.edits == map[8 := Edit(1, 0, 0), 9 := Edit(1, 1, 2)];
    var f := Step(e, REPAIRING[1]);
    assert f.edits == map[9 := Edit(1, 1, 2)];
    var g := Step(f, REPAIRING[2]);
    RunUnfolds(d, REPAIRING, [e, f, g]);
    LastWriteHere(g.log);
  }

  lemma LastWriteHere(log: seq<Entry>)
    requires log == [LeaseTaken(1, 1, 10), RefreshWritten(1, 1, 1, 0, true), KeyEdited(1, 0), KeyEdited(1, 2)]
    ensures LastWrite(log, 1, 4) == Some(1) && PutsBack(log, 1, 1, 2)
  {
    assert LastWrite(log, 1, 3) == LastWrite(log, 1, 2) == Some(1);
  }
}
