/** Every interleaving of the sign-in tasks. An event is one lock hold, one database write, or the
    end of a task; an event that is not enabled leaves the state alone, so every list of events is a
    run. The clock readings are arbitrary. */
module OAuthProtocol {
  import opened Wrappers
  import opened Int64
  import opened OAuthSessions

  // Where the one background task of a session stands. From `Gated` to `Saved` it holds the
  // session's save gate.
  datatype Runner =
    | Polling
    | Exchanged
    | Gated
    | NotCancelled
    | Overdue
    | NotExpired
    | Targeted(target: Target)
    | Saved(key: int)
    | AfterSave(key: int)
    | Done

  datatype State = State(
    sessions: Sessions,
    starting: set<Target>,
    starters: map<nat, Target>,     // start_session calls holding an armed guard
    runners: map<SessionId, Runner>,
    issued: set<SessionId>,         // every session id so far: identifiers are fresh
    written: map<SessionId, int>,   // the sessions whose login was saved, with the key it went to
    cancelled: set<SessionId>,      // the sessions ever moved to Cancelled
    handed: seq<SessionId>)         // the sessions whose authorization code was handed out, in order

  datatype Event =
    | Prune(now: i64)
    | Reserve(starter: nat, target: Target)
    | StartFails(starter: nat)
    | Commit(starter: nat, id: SessionId, flow: FlowData, expiresAt: i64)
    | Get(id: SessionId, now: i64)
    | Cancel(id: SessionId, now: i64)
    | Claim(id: SessionId, callback: Callback, now: i64)
    | DeviceReady(id: SessionId)
    | TaskFails(id: SessionId, expired: bool, code: string, now: i64)
    | TaskStops(id: SessionId)
    | EnterGate(id: SessionId)
    | CheckCancelled(id: SessionId)
    | CheckExpired(id: SessionId, now: i64)
    | ReadTarget(id: SessionId)
    | Save(id: SessionId, key: int)
    | MarkFinalizing(id: SessionId)
    | Complete(id: SessionId, now: i64)

  const INIT := State(map[], {}, map[], map[], {}, map[], {}, [])

  predicate HoldsGate(r: Runner) {
    r.Gated? || r.NotCancelled? || r.Overdue? || r.NotExpired? || r.Targeted? || r.Saved?
  }

  // Whether the session's save gate is free: only its own task holds it across other events.
  predicate GateFree(s: State, id: SessionId) {
    id !in s.runners || !HoldsGate(s.runners[id])
  }

  predicate TaskAt(s: State, id: SessionId, r: Runner) {
    id in s.runners && s.runners[id] == r
  }

  predicate Enabled(s: State, e: Event) {
    match e
    case Prune(_) => true
    case Reserve(starter, _) => starter !in s.starters
    case StartFails(starter) => starter in s.starters
    case Commit(starter, id, flow, _) =>
      starter in s.starters && id !in s.issued && (flow.Browser? ==> !flow.callbackClaimed)
    case Get(id, _) => GateFree(s, id)
    case Cancel(id, _) => GateFree(s, id)
    case Claim(id, _, _) => GateFree(s, id)
    case DeviceReady(id) => TaskAt(s, id, Polling)
    // Expiry is reported while polling or after the check inside the gate, any other error while
    // polling, exchanging the code, reading the claims, or saving; the save may have landed all the
    // same.
    case TaskFails(id, expired, _, _) =>
      && id in s.runners
      && var r := s.runners[id];
      if expired then r.Polling? || r.Overdue? else r.Polling? || r.Exchanged? || r.Targeted? || r.Saved?
    // After a save there is no point at which the task could stop before it marks the stage.
    case TaskStops(id) => id in s.runners && !s.runners[id].Saved?
    case EnterGate(id) => TaskAt(s, id, Exchanged)
    case CheckCancelled(id) => TaskAt(s, id, Gated)
    case CheckExpired(id, _) => TaskAt(s, id, NotCancelled)
    case ReadTarget(id) => TaskAt(s, id, NotExpired)
    case Save(id, _) => id in s.runners && s.runners[id].Targeted?
    case MarkFinalizing(id) => id in s.runners && s.runners[id].Saved?
    case Complete(id, _) => id in s.runners && s.runners[id].AfterSave?
  }

  function Move(s: State, id: SessionId, r: Runner): State {
    s.(runners := s.runners[id := r])
  }

  function Apply(s: State, e: Event): State
    requires Enabled(s, e)
  {
    match e
    case Prune(now) => s.(sessions := Pruned(s.sessions, now))
    case Reserve(starter, target) =>
      if TargetBusy(s.sessions, s.starting, target) then s
      else s.(starting := s.starting + {target}, starters := s.starters[starter := target])
    case StartFails(starter) =>
      s.(starting := s.starting - {s.starters[starter]}, starters := s.starters - {starter})
    case Commit(starter, id, flow, expiresAt) =>
      var target := s.starters[starter];
      s.(sessions := s.sessions[id := NewRecord(target, flow, expiresAt)],
         starting := s.starting - {target}, starters := s.starters - {starter},
         issued := s.issued + {id},
         runners := if flow.Device? then s.runners[id := Polling] else s.runners)
    case Get(id, now) => s.(sessions := Refreshed(s.sessions, id, now))
    case Cancel(id, now) =>
      var sessions := CancelRequested(s.sessions, id, now);
      s.(sessions := sessions, cancelled := if sessions == s.sessions then s.cancelled else s.cancelled + {id})
    case Claim(id, callback, now) =>
      var (sessions, r) := Claimed(s.sessions, id, callback, now);
      if r.Ok? then s.(sessions := sessions, runners := s.runners[id := Exchanged], handed := s.handed + [id])
      else s.(sessions := sessions)
    case DeviceReady(id) =>
      if IsCancelled(s.sessions, id) then Move(s, id, Done)
      else Move(s.(sessions := Staged(s.sessions, id, Exchanging)), id, Exchanged)
    case TaskFails(id, expired, code, now) =>
      Move(s.(sessions := Errored(s.sessions, id, if expired then Expired else Failed, code, now)), id, Done)
    case TaskStops(id) => Move(s, id, Done)
    case EnterGate(id) => Move(s, id, Gated)
    case CheckCancelled(id) => Move(s, id, if IsCancelled(s.sessions, id) then Done else NotCancelled)
    case CheckExpired(id, now) =>
      Move(s, id, if IsExpired(s.sessions, id, now) then Overdue else NotExpired)
    case ReadTarget(id) =>
      if id in s.sessions then Move(s, id, Targeted(s.sessions[id].target)) else Move(s, id, Done)
    case Save(id, key) => Move(s.(written := s.written[id := key]), id, Saved(key))
    case MarkFinalizing(id) =>
      if IsCancelled(s.sessions, id) then Move(s, id, Done)
      else Move(s.(sessions := Staged(s.sessions, id, Finalizing)), id, AfterSave(s.runners[id].key))
    case Complete(id, now) =>
      Move(s.(sessions := CompletedWith(s.sessions, id, s.runners[id].key, now)), id, Done)
  }

  function Step(s: State, e: Event): State {
    if Enabled(s, e) then Apply(s, e) else s
  }

  function Run(s: State, es: seq<Event>): State
    decreases |es|
  {
    if es == [] then s else Run(Step(s, es[0]), es[1..])
  }

  // ---------- What every reachable state satisfies ----------

  // Terminal status, stage Finished and a terminal time coincide; a key exactly when Completed; an
  // error code exactly when Failed or Expired; a cancel flag only on a session that ended.
  predicate RecordOk(r: SessionRecord) {
    && (r.status.Terminal() <==> r.stage == Finished)
    && (r.status.Terminal() <==> r.terminalAt.Some?)
    && (r.status == Completed <==> r.keyId.Some?)
    && (r.status == Failed || r.status == Expired <==> r.errorCode.Some?)
    && (r.cancelRequested ==> r.status == Cancelled || r.status == Expired)
  }

  ghost predicate RecordsOk(s: State) {
    forall id | id in s.sessions :: RecordOk(s.sessions[id])
  }

  // At most one start in flight or Pending session for each target.
  ghost predicate TargetsOk(s: State) {
    && s.starting == s.starters.Values
    && (forall a, b | a in s.starters && b in s.starters && a != b :: s.starters[a] != s.starters[b])
    && (forall id | id in s.sessions && s.sessions[id].status == Pending :: s.sessions[id].target !in s.starting)
    && (forall a, b | a in s.sessions && b in s.sessions && a != b
          && s.sessions[a].status == Pending && s.sessions[b].status == Pending ::
          s.sessions[a].target != s.sessions[b].target)
  }

  ghost predicate IdsOk(s: State) {
    && s.sessions.Keys <= s.issued && s.runners.Keys <= s.issued && s.written.Keys <= s.runners.Keys
    && s.cancelled <= s.issued && (forall i | 0 <= i < |s.handed| :: s.handed[i] in s.issued)
  }

  // A browser session has a task exactly from the claim that handed its code out.
  ghost predicate ClaimsOk(s: State) {
    && (forall i, j | 0 <= i < j < |s.handed| :: s.handed[i] != s.handed[j])
    && (forall i | 0 <= i < |s.handed| ::
          s.handed[i] in s.sessions ==>
            s.sessions[s.handed[i]].flow.Browser? && s.sessions[s.handed[i]].flow.callbackClaimed)
    && (forall id | id in s.sessions && s.sessions[id].flow.Browser? && !s.sessions[id].flow.callbackClaimed ::
          id !in s.runners)
  }

  // What a task knows about its own session.
  ghost predicate TaskOk(s: State, id: SessionId)
    requires id in s.runners
  {
    var r := s.runners[id];
    && (r.NotCancelled? || r.Overdue? || r.NotExpired? || r.Targeted? || r.Saved? ==>
          id !in s.cancelled && (id in s.sessions ==> s.sessions[id].status == Pending))
    && (r.Targeted? && id in s.sessions ==> s.sessions[id].target == r.target)
    && (id in s.written ==> r.Saved? || r.AfterSave? || r.Done?)
    && (r.Saved? || r.AfterSave? ==> id in s.written && s.written[id] == r.key)
    && (id in s.written && !r.Saved? && id in s.sessions ==>
          var record := s.sessions[id];
          || (record.status == Pending && record.stage == Finalizing)
          || record.status == Expired || record.status == Failed
          || (record.status == Completed && record.keyId == Some(s.written[id])))
  }

  ghost predicate TasksOk(s: State) {
    forall id | id in s.runners :: TaskOk(s, id)
  }

  // A session never has both a written login and a cancellation, and a Completed one has its login.
  ghost predicate WriteOk(s: State, id: SessionId) {
    && !(id in s.written && id in s.cancelled)
    && (id in s.sessions ==>
      && (s.sessions[id].status == Cancelled <==> id in s.cancelled)
      && (s.sessions[id].status == Completed ==> id in s.written && s.sessions[id].keyId == Some(s.written[id])))
  }

  ghost predicate WritesOk(s: State) {
    forall id :: WriteOk(s, id)
  }

  ghost predicate Inv(s: State) {
    RecordsOk(s) && TargetsOk(s) && IdsOk(s) && ClaimsOk(s) && TasksOk(s) && WritesOk(s)
  }

  lemma StarterLeaves(starters: map<nat, Target>, k: nat)
    requires k in starters
    requires forall a, b | a in starters && b in starters && a != b :: starters[a] != starters[b]
    ensures (starters - {k}).Values == starters.Values - {starters[k]}
  {
    var rest := starters - {k};
    forall t | t in starters.Values - {starters[k]} ensures t in rest.Values {
      var a :| a in starters && starters[a] == t;
      assert a in rest && rest[a] == t;
    }
  }

  lemma StarterJoins(starters: map<nat, Target>, k: nat, t: Target)
    requires k !in starters
    ensures starters[k := t].Values == starters.Values + {t}
  {
    var all := starters[k := t];
    assert all[k] == t;
    forall u | u in starters.Values ensures u in all.Values {
      var a :| a in starters && starters[a] == u;
      assert all[a] == u;
    }
  }

  // How one event may change a record: a terminal record never, the target never, the claimed
  // mark only from unset to set, and consistency is kept.
  predicate RecordNext(r: SessionRecord, r': SessionRecord) {
    && (r.status.Terminal() ==> r' == r)
    && r'.target == r.target && r'.expiresAt == r.expiresAt
    && (r'.flow == r.flow
        || (r.flow.Browser? && !r.flow.callbackClaimed && r'.flow == r.flow.(callbackClaimed := true)))
    && (RecordOk(r) ==> RecordOk(r'))
  }

  predicate OneRecordMoves(m: Sessions, n: Sessions, id: SessionId) {
    n == m || (id in m && id in n && n == m[id := n[id]] && RecordNext(m[id], n[id]))
  }

  predicate AboutSession(e: Event) {
    !e.Prune? && !e.Reserve? && !e.StartFails? && !e.Commit?
  }

  lemma RefreshedMoves(m: Sessions, id: SessionId, now: i64)
    ensures OneRecordMoves(m, Refreshed(m, id, now), id)
  {
  }

  lemma CancelMoves(m: Sessions, id: SessionId, now: i64)
    ensures OneRecordMoves(m, CancelRequested(m, id, now), id)
  {
  }

  lemma ClaimMoves(m: Sessions, id: SessionId, callback: Callback, now: i64)
    ensures OneRecordMoves(m, Claimed(m, id, callback, now).0, id)
  {
  }

  lemma StageMoves(m: Sessions, id: SessionId, stage: SessionStage)
    requires stage != Finished
    ensures OneRecordMoves(m, Staged(m, id, stage), id)
  {
  }

  lemma ErrorMoves(m: Sessions, id: SessionId, status: SessionStatus, code: string, now: i64)
    requires status == Failed || status == Expired
    ensures OneRecordMoves(m, Errored(m, id, status, code, now), id)
  {
  }

  lemma CompletionMoves(m: Sessions, id: SessionId, key: int, now: i64)
    ensures OneRecordMoves(m, CompletedWith(m, id, key, now), id)
  {
  }

  lemma TableMoves(s: State, e: Event)
    requires Enabled(s, e) && AboutSession(e)
    ensures OneRecordMoves(s.sessions, Apply(s, e).sessions, e.id)
    ensures Apply(s, e).starting == s.starting && Apply(s, e).starters == s.starters
    ensures Apply(s, e).issued == s.issued
  {
    hide Refreshed, CancelRequested, Claimed, Staged, Errored, CompletedWith, RecordNext;
    match e
    case Get(id, now) => RefreshedMoves(s.sessions, id, now);
    case Cancel(id, now) => CancelMoves(s.sessions, id, now);
    case Claim(id, callback, now) => ClaimMoves(s.sessions, id, callback, now);
    case DeviceReady(id) => StageMoves(s.sessions, id, Exchanging);
    case TaskFails(id, expired, code, now) =>
      ErrorMoves(s.sessions, id, if expired then Expired else Failed, code, now);
    case MarkFinalizing(id) => StageMoves(s.sessions, id, Finalizing);
    case Complete(id, now) => CompletionMoves(s.sessions, id, s.runners[id].key, now);
    case _ =>
  }

  lemma CommitTable(s: State, e: Event)
    requires Enabled(s, e) && e.Commit?
    ensures Apply(s, e).sessions == s.sessions[e.id := NewRecord(s.starters[e.starter], e.flow, e.expiresAt)]
    ensures Apply(s, e).starting == s.starting - {s.starters[e.starter]}
    ensures Apply(s, e).starters == s.starters - {e.starter}
    ensures Apply(s, e).issued == s.issued + {e.id} && Apply(s, e).handed == s.handed
    ensures Apply(s, e).runners == if e.flow.Device? then s.runners[e.id := Polling] else s.runners
    ensures Apply(s, e).written == s.written && Apply(s, e).cancelled == s.cancelled
  {
  }

  lemma StartsStep(s: State, e: Event)
    requires TargetsOk(s) && Enabled(s, e) && (e.Reserve? || e.StartFails? || e.Prune?)
    ensures TargetsOk(Step(s, e))
  {
    match e
    case Reserve(starter, target) => StarterJoins(s.starters, starter, target);
    case StartFails(starter) => StarterLeaves(s.starters, starter);
    case Prune(_) =>
  }

  lemma TargetsStep(s: State, e: Event)
    requires TargetsOk(s) && IdsOk(s)
    ensures TargetsOk(Step(s, e))
  {
    hide Apply;
    if Enabled(s, e) {
      if e.Commit? {
        CommitTable(s, e);
        StarterLeaves(s.starters, e.starter);
      } else if AboutSession(e) {
        TableMoves(s, e);
      } else {
        StartsStep(s, e);
      }
    }
  }

  lemma RecordsStep(s: State, e: Event)
    requires RecordsOk(s)
    ensures RecordsOk(Step(s, e))
  {
    if Enabled(s, e) {
      if AboutSession(e) {
        hide Apply, RecordOk;
        TableMoves(s, e);
      } else if e.Commit? {
        hide Apply;
        CommitTable(s, e);
      }
    }
  }

  lemma IdsStep(s: State, e: Event)
    requires IdsOk(s)
    ensures IdsOk(Step(s, e))
  {
  }

  lemma ClaimsStep(s: State, e: Event)
    requires IdsOk(s) && ClaimsOk(s)
    ensures ClaimsOk(Step(s, e))
  {
    if Enabled(s, e) {
      if AboutSession(e) {
        TableMoves(s, e);
        RunnersMove(s, e);
        hide Apply, RecordOk;
      } else if e.Commit? {
        hide Apply;
        CommitTable(s, e);
      }
    }
  }

  // Only a claim hands a code out and starts a task; every other event keeps the set of tasks.
  lemma RunnersMove(s: State, e: Event)
    requires Enabled(s, e) && AboutSession(e)
    ensures
      var s' := Apply(s, e);
      if s'.handed != s.handed then
        && s'.handed == s.handed + [e.id] && s'.runners.Keys == s.runners.Keys + {e.id}
        && e.id in s.sessions && s.sessions[e.id].flow.Browser? && !s.sessions[e.id].flow.callbackClaimed
        && s'.sessions[e.id].flow.callbackClaimed
      else s'.runners.Keys == s.runners.Keys
  {
  }

  // The session the event is about; every other one keeps its record, its task and its history.
  ghost predicate SameFor(s: State, s': State, id: SessionId) {
    && (id in s'.sessions <==> id in s.sessions) && (id in s.sessions ==> s'.sessions[id] == s.sessions[id])
    && (id in s'.runners <==> id in s.runners) && (id in s.runners ==> s'.runners[id] == s.runners[id])
    && (id in s'.written <==> id in s.written) && (id in s.written ==> s'.written[id] == s.written[id])
    && (id in s'.cancelled <==> id in s.cancelled)
  }

  lemma OthersUntouched(s: State, e: Event, id: SessionId)
    requires Enabled(s, e) && !e.Prune?
    requires !(e.Reserve? || e.StartFails?) ==> e.id != id
    ensures SameFor(s, Apply(s, e), id)
  {
    if AboutSession(e) {
      TableMoves(s, e);
    }
  }

  lemma TasksStep(s: State, e: Event)
    requires RecordsOk(s) && IdsOk(s) && ClaimsOk(s) && TasksOk(s) && WritesOk(s)
    ensures TasksOk(Step(s, e))
  {
    var s' := Step(s, e);
    if Enabled(s, e) {
      forall id | id in s'.runners ensures TaskOk(s', id) {
        if !e.Prune? && ((e.Reserve? || e.StartFails?) || e.id != id) {
          hide Apply;
          OthersUntouched(s, e, id);
        } else {
          hide Apply;
          TaskStep(s, e, id);
        }
      }
    }
  }

  lemma SavingStep(s: State, e: Event)
    requires RecordsOk(s) && IdsOk(s) && TasksOk(s) && WritesOk(s)
    requires Enabled(s, e) && (e.Save? || e.MarkFinalizing? || e.Complete?)
    ensures e.id in Apply(s, e).runners && TaskOk(Apply(s, e), e.id)
  {
    hide Refreshed, CancelRequested, Claimed, Errored;
    assert e.id in s.sessions ==> RecordOk(s.sessions[e.id]);
    assert TaskOk(s, e.id) && WriteOk(s, e.id);
  }

  // Events of a task that leave the table alone.
  predicate OnlyMovesTask(e: Event) {
    e.TaskStops? || e.EnterGate? || e.CheckCancelled? || e.CheckExpired? || e.ReadTarget?
  }

  lemma GateStep(s: State, e: Event)
    requires RecordsOk(s) && IdsOk(s) && TasksOk(s) && WritesOk(s)
    requires Enabled(s, e) && OnlyMovesTask(e)
    ensures e.id in Apply(s, e).runners && TaskOk(Apply(s, e), e.id) && WriteOk(Apply(s, e), e.id)
  {
    hide Refreshed, CancelRequested, Claimed, Staged, Errored, CompletedWith;
    assert e.id in s.sessions ==> RecordOk(s.sessions[e.id]);
    assert TaskOk(s, e.id) && WriteOk(s, e.id);
  }

  lemma TaskStep(s: State, e: Event, id: SessionId)
    requires RecordsOk(s) && IdsOk(s) && ClaimsOk(s) && TasksOk(s) && WritesOk(s)
    requires Enabled(s, e) && !e.Reserve? && !e.StartFails? && (!e.Prune? ==> e.id == id)
    requires id in Apply(s, e).runners
    ensures TaskOk(Apply(s, e), id)
  {
    if e.Save? || e.MarkFinalizing? || e.Complete? {
      SavingStep(s, e);
    } else if OnlyMovesTask(e) {
      GateStep(s, e);
    } else {
      hide CompletedWith;
      assert id in s.sessions ==> RecordOk(s.sessions[id]);
      assert id in s.runners ==> TaskOk(s, id);
      assert WriteOk(s, id);
    }
  }

  // Events that touch the history of writes and cancellations, or end a session.
  predicate Decides(e: Event) {
    e.Save? || e.Cancel? || e.Complete?
  }

  lemma DecisionStep(s: State, e: Event)
    requires RecordsOk(s) && IdsOk(s) && TasksOk(s) && WritesOk(s)
    requires Enabled(s, e) && Decides(e)
    ensures WriteOk(Apply(s, e), e.id)
  {
    hide Refreshed, Claimed, Staged, Errored;
    assert e.id in s.sessions ==> RecordOk(s.sessions[e.id]);
    assert e.id in s.runners ==> TaskOk(s, e.id);
    assert WriteOk(s, e.id);
  }

  lemma WriteStep(s: State, e: Event)
    requires RecordsOk(s) && IdsOk(s) && TasksOk(s) && WritesOk(s)
    requires Enabled(s, e) && !e.Prune? && !e.Reserve? && !e.StartFails?
    ensures WriteOk(Apply(s, e), e.id)
  {
    if Decides(e) {
      DecisionStep(s, e);
    } else if OnlyMovesTask(e) {
      GateStep(s, e);
    } else {
      hide CancelRequested, CompletedWith;
      assert e.id in s.sessions ==> RecordOk(s.sessions[e.id]);
      assert WriteOk(s, e.id);
    }
  }

  lemma WritesStep(s: State, e: Event)
    requires RecordsOk(s) && IdsOk(s) && TasksOk(s) && WritesOk(s)
    ensures WritesOk(Step(s, e))
  {
    var s' := Step(s, e);
    if Enabled(s, e) {
      forall id ensures WriteOk(s', id) {
        assert WriteOk(s, id);
        if !e.Prune? && ((e.Reserve? || e.StartFails?) || e.id != id) {
          hide Apply;
          OthersUntouched(s, e, id);
        } else if !e.Prune? {
          hide Apply;
          WriteStep(s, e);
        }
      }
    }
  }

  lemma StepKeepsInv(s: State, e: Event)
    requires Inv(s)
    ensures Inv(Step(s, e))
  {
    hide Step, RecordsOk, TargetsOk, IdsOk, ClaimsOk, TasksOk, WritesOk;
    RecordsStep(s, e);
    TargetsStep(s, e);
    IdsStep(s, e);
    ClaimsStep(s, e);
    TasksStep(s, e);
    WritesStep(s, e);
  }

  lemma InitOk()
    ensures Inv(INIT)
  {
  }

  lemma {:induction false} RunKeepsInv(s: State, es: seq<Event>)
    requires Inv(s)
    ensures Inv(Run(s, es))
    decreases |es|
  {
    if es != [] {
      StepKeepsInv(s, es[0]);
      RunKeepsInv(Step(s, es[0]), es[1..]);
    }
  }

  // ---------- What holds over whole runs ----------

  lemma EveryRun(es: seq<Event>)
    ensures Inv(Run(INIT, es))
  {
    InitOk();
    RunKeepsInv(INIT, es);
  }

  // In no interleaving is a session both cancelled and written, in either order; the table shows
  // Cancelled exactly for the sessions that were cancelled.
  lemma CancelledNeverWritten(es: seq<Event>)
    ensures
      var s := Run(INIT, es);
      && s.cancelled !! s.written.Keys
      && forall id | id in s.sessions :: s.sessions[id].status == Cancelled <==> id in s.cancelled
  {
    EveryRun(es);
    var s := Run(INIT, es);
    forall id ensures !(id in s.cancelled && id in s.written) {
      assert WriteOk(s, id);
    }
    forall id | id in s.sessions ensures s.sessions[id].status == Cancelled <==> id in s.cancelled {
      assert WriteOk(s, id);
    }
  }

  ghost function PendingFor(s: State, target: Target): set<SessionId> {
    set id | id in s.sessions && s.sessions[id].status == Pending && s.sessions[id].target == target
  }

  ghost function StartsFor(s: State, target: Target): set<nat> {
    set k | k in s.starters && s.starters[k] == target
  }

  // A target has at most one start in flight or Pending session, and is refused exactly then.
  lemma OneSignInPerTarget(es: seq<Event>, target: Target)
    ensures
      var s := Run(INIT, es);
      && |PendingFor(s, target)| + |StartsFor(s, target)| <= 1
      && (TargetBusy(s.sessions, s.starting, target) <==> |PendingFor(s, target)| + |StartsFor(s, target)| == 1)
  {
    EveryRun(es);
    var s := Run(INIT, es);
    AtMostOne(PendingFor(s, target));
    AtMostOne(StartsFor(s, target));
    if target in s.starting {
      var k :| k in s.starters && s.starters[k] == target;
      assert k in StartsFor(s, target);
    }
    if id :| id in s.sessions && s.sessions[id].status == Pending && s.sessions[id].target == target {
      assert id in PendingFor(s, target);
    }
  }

  lemma AtMostOne(xs: set<nat>)
    requires forall a, b | a in xs && b in xs :: a == b
    ensures |xs| <= 1 && (|xs| == 0 <==> xs == {})
  {
    if xs != {} {
      var a :| a in xs;
      assert xs == {a};
    }
  }

  lemma {:induction false} RunMovesRecord(s: State, es: seq<Event>, id: SessionId)
    requires IdsOk(s) && id in s.issued
    ensures id in Run(s, es).issued
    ensures id in Run(s, es).sessions ==> id in s.sessions
    ensures id in Run(s, es).sessions && s.sessions[id].status.Terminal() ==> Run(s, es).sessions[id] == s.sessions[id]
    decreases |es|
  {
    if es != [] {
      var s' := Step(s, es[0]);
      IdsStep(s, es[0]);
      if Enabled(s, es[0]) {
        if AboutSession(es[0]) {
          TableMoves(s, es[0]);
        } else if es[0].Commit? {
          CommitTable(s, es[0]);
        }
      }
      hide Step, IdsOk, Apply;
      RunMovesRecord(s', es[1..], id);
    }
  }

  // A session that ended keeps its record, to the last field, for as long as the table shows it,
  // and it never comes back once pruned.
  lemma TerminalForever(es: seq<Event>, later: seq<Event>, id: SessionId)
    requires id in Run(INIT, es).issued
    ensures
      var s, s' := Run(INIT, es), Run(Run(INIT, es), later);
      && (id !in s.sessions ==> id !in s'.sessions)
      && (id in s.sessions && s.sessions[id].status.Terminal() && id in s'.sessions ==>
            s'.sessions[id] == s.sessions[id])
  {
    EveryRun(es);
    RunMovesRecord(Run(INIT, es), later, id);
  }

  // Terminal status, the Finished stage, a terminal time and, for a completed sign-in, the key the
  // login was saved under, all agree in every reachable record.
  lemma RecordsAgree(es: seq<Event>, id: SessionId)
    requires id in Run(INIT, es).sessions
    ensures
      var s := Run(INIT, es);
      && RecordOk(s.sessions[id])
      && (s.sessions[id].status == Completed ==> id in s.written && s.sessions[id].keyId == Some(s.written[id]))
  {
    EveryRun(es);
    assert WriteOk(Run(INIT, es), id);
  }

  // The authorization code of a session is handed out at most once.
  lemma CodeHandedOutOnce(es: seq<Event>, i: nat, j: nat)
    requires i < j < |Run(INIT, es).handed|
    ensures Run(INIT, es).handed[i] != Run(INIT, es).handed[j]
  {
    EveryRun(es);
  }

  // What can become of a Pending session whose login is written: its task completes it with that
  // key, or fails it because the save that landed was reported as an error; a late callback expires
  // it, or it is dropped a tombstone period after its expiry.
  lemma WrittenOutcomes(es: seq<Event>, e: Event, id: SessionId)
    requires
      var s := Run(INIT, es);
      id in s.written && id in s.sessions && s.sessions[id].status == Pending
    ensures
      var s, s' := Run(INIT, es), Step(Run(INIT, es), e);
      var r := s.sessions[id];
      if id !in s'.sessions then e.Prune? && e.now >= SatAdd(r.expiresAt, TOMBSTONE_MS)
      else
        var r' := s'.sessions[id];
        || (r'.status == Pending && (r'.stage == r.stage || r'.stage == Finalizing))
        || (e.Complete? && r'.status == Completed && r'.keyId == Some(s.written[id]))
        || (e.TaskFails? && r'.status == Failed && id in s.runners && s.runners[id].Saved?)
        || (e.Claim? && e.now >= r.expiresAt && r'.status == Expired)
  {
    EveryRun(es);
    var s := Run(INIT, es);
    assert WriteOk(s, id) && TaskOk(s, id) && RecordOk(s.sessions[id]);
    if Enabled(s, e) && !e.Prune? && ((e.Reserve? || e.StartFails?) || e.id != id) {
      hide Apply;
      OthersUntouched(s, e, id);
    }
  }

  // The undisturbed way of a browser sign-in from its callback to the end of its save.
  function SignIn(id: SessionId, callback: Callback, now: i64, key: int): seq<Event> {
    [Claim(id, callback, now), EnterGate(id), CheckCancelled(id), CheckExpired(id, now), ReadTarget(id),
     Save(id, key), MarkFinalizing(id)]
  }

  ghost predicate Answerable(s: State, id: SessionId, callback: Callback, now: i64) {
    && id in s.sessions && s.sessions[id].flow == Browser(callback.state, false)
    && s.sessions[id].status == Pending && now < s.sessions[id].expiresAt
    && callback.error.None? && callback.code.Some?
  }

  lemma ClaimStarts(s: State, id: SessionId, callback: Callback, now: i64) returns (t: State)
    requires Inv(s) && Answerable(s, id, callback, now)
    ensures t == Step(Step(s, Claim(id, callback, now)), EnterGate(id))
    ensures t.sessions == s.sessions[id := s.sessions[id].(flow := Browser(callback.state, true), stage := Exchanging)]
    ensures TaskAt(t, id, Gated) && Live(t.sessions[id])
  {
    assert RecordOk(s.sessions[id]);
    var u := Step(s, Claim(id, callback, now));
    assert TaskAt(u, id, Exchanged);
    t := Step(u, EnterGate(id));
  }

  lemma GateChecks(s: State, id: SessionId, now: i64) returns (t: State)
    requires TaskAt(s, id, Gated) && id in s.sessions && Live(s.sessions[id]) && now < s.sessions[id].expiresAt
    ensures t == Step(Step(Step(s, CheckCancelled(id)), CheckExpired(id, now)), ReadTarget(id))
    ensures t.sessions == s.sessions && TaskAt(t, id, Targeted(s.sessions[id].target))
  {
    var u := Step(s, CheckCancelled(id));
    assert TaskAt(u, id, NotCancelled);
    var v := Step(u, CheckExpired(id, now));
    assert TaskAt(v, id, NotExpired);
    t := Step(v, ReadTarget(id));
  }

  lemma SaveFinishes(s: State, id: SessionId, key: int) returns (t: State)
    requires id in s.runners && s.runners[id].Targeted? && id in s.sessions && Live(s.sessions[id])
    ensures t == Step(Step(s, Save(id, key)), MarkFinalizing(id))
    ensures t.sessions == s.sessions[id := s.sessions[id].(stage := Finalizing)]
    ensures TaskAt(t, id, AfterSave(key)) && id in t.written && t.written[id] == key
  {
    var u := Step(s, Save(id, key));
    assert TaskAt(u, id, Saved(key));
    t := Step(u, MarkFinalizing(id));
  }

  lemma {:induction false} RunAppend(s: State, xs: seq<Event>, ys: seq<Event>)
    ensures Run(s, xs + ys) == Run(Run(s, xs), ys)
    decreases |xs|
  {
    hide Step;
    if xs == [] {
      assert [] + ys == ys;
    } else {
      assert (xs + ys)[0] == xs[0] && (xs + ys)[1..] == xs[1..] + ys;
      RunAppend(Step(s, xs[0]), xs[1..], ys);
    }
  }

  // From every reachable state a callback in time can be saved; the task then completes the session
  // with its key. But a repeated callback after the deadline expires the same session although its
  // login is written: Finalizing does not mean Completed later.
  lemma SavedThenCompletedOrExpired(es: seq<Event>, id: SessionId, callback: Callback, now: i64, key: int, late: i64)
    requires Answerable(Run(INIT, es), id, callback, now)
    requires late >= Run(INIT, es).sessions[id].expiresAt
    ensures
      var s := Run(INIT, es + SignIn(id, callback, now, key));
      && id in s.sessions && s.sessions[id].status == Pending && s.sessions[id].stage == Finalizing
      && id in s.written && s.written[id] == key
      && var done, overdue := Step(s, Complete(id, now)), Step(s, Claim(id, callback, late));
      && id in done.sessions && done.sessions[id].status == Completed && done.sessions[id].keyId == Some(key)
      && id in overdue.sessions && overdue.sessions[id].status == Expired && id in overdue.written
  {
    hide Step, Run, Inv;
    EveryRun(es);
    var s0 := Run(INIT, es);
    RunAppend(INIT, es, SignIn(id, callback, now, key));
    SignInRuns(s0, id, callback, now, key);
    FinalizingEnds(Run(s0, SignIn(id, callback, now, key)), id, callback, now, key, late);
  }

  lemma FinalizingEnds(s: State, id: SessionId, callback: Callback, now: i64, key: int, late: i64)
    requires id in s.sessions && Live(s.sessions[id]) && s.sessions[id].flow == Browser(callback.state, true)
    requires TaskAt(s, id, AfterSave(key)) && id in s.written && late >= s.sessions[id].expiresAt
    ensures
      var done, overdue := Step(s, Complete(id, now)), Step(s, Claim(id, callback, late));
      && id in done.sessions && done.sessions[id].status == Completed && done.sessions[id].keyId == Some(key)
      && id in overdue.sessions && overdue.sessions[id].status == Expired && id in overdue.written
  {
  }

  lemma SignInRuns(s: State, id: SessionId, callback: Callback, now: i64, key: int)
    requires Inv(s) && Answerable(s, id, callback, now)
    ensures
      var t := Run(s, SignIn(id, callback, now, key));
      && id in t.sessions && Live(t.sessions[id]) && t.sessions[id].stage == Finalizing
      && t.sessions[id].flow == Browser(callback.state, true) && t.sessions[id].expiresAt == s.sessions[id].expiresAt
      && TaskAt(t, id, AfterSave(key)) && id in t.written && t.written[id] == key
  {
    hide Step, Run, Inv;
    var s1 := ClaimStarts(s, id, callback, now);
    var s2 := GateChecks(s1, id, now);
    var s3 := SaveFinishes(s2, id, key);
    RunUnfolds(s, SignIn(id, callback, now, key), [
      Step(s, Claim(id, callback, now)), s1, Step(s1, CheckCancelled(id)),
      Step(Step(s1, CheckCancelled(id)), CheckExpired(id, now)), s2, Step(s2, Save(id, key)), s3]);
  }

  lemma {:induction false} RunUnfolds(s: State, es: seq<Event>, states: seq<State>)
    requires |es| == |states| > 0
    requires states[0] == Step(s, es[0])
    requires forall i :: 0 < i < |es| ==> states[i] == Step(states[i - 1], es[i])
    ensures Run(s, es) == states[|states| - 1]
    decreases |es|
  {
    hide Step;
    if |es| > 1 {
      RunUnfolds(states[0], es[1..], states[1..]);
    }
  }

  // ---------- A written login whose session does not complete ----------

  const STARTED: seq<Event> := [Reserve(0, (1, None)), Commit(0, 1, Browser("state", false), 600_000)]
  const ANSWER := Callback("state", Some("code"), None)

  // A sign-in is started and answered, its login is saved under key 7, and the callback sent once
  // more at the deadline expires the session.
  lemma LateCallbackExpiresWritten()
    ensures Answerable(Run(INIT, STARTED), 1, ANSWER, 0)
    ensures
      var s := Run(INIT, STARTED + SignIn(1, ANSWER, 0, 7) + [Claim(1, ANSWER, 600_000)]);
      && 1 in s.written && s.written[1] == 7
      && 1 in s.sessions && s.sessions[1].status == Expired && s.sessions[1].keyId == None
  {
    var a := Step(INIT, STARTED[0]);
    assert a.starters == map[0 := (1, None)];
    var b := Step(a, STARTED[1]);
    assert b.sessions == map[1 := NewRecord((1, None), Browser("state", false), 600_000)];
    RunUnfolds(INIT, STARTED, [a, b]);
    hide Step, SignIn, Answerable, Inv;
    AnswerableHere(b);
    EveryRun(STARTED);
    SavedThenCompletedOrExpired(STARTED, 1, ANSWER, 0, 7, 600_000);
    RunAppend(INIT, STARTED + SignIn(1, ANSWER, 0, 7), [Claim(1, ANSWER, 600_000)]);
    var t := Run(INIT, STARTED + SignIn(1, ANSWER, 0, 7));
    RunUnfolds(t, [Claim(1, ANSWER, 600_000)], [Step(t, Claim(1, ANSWER, 600_000))]);
    EveryRun(STARTED + SignIn(1, ANSWER, 0, 7) + [Claim(1, ANSWER, 600_000)]);
    ExpiredHasNoKey(Run(INIT, STARTED + SignIn(1, ANSWER, 0, 7) + [Claim(1, ANSWER, 600_000)]));
    KeyStaysWritten(t, Claim(1, ANSWER, 600_000));
  }

  lemma AnswerableHere(s: State)
    requires s.sessions == map[1 := NewRecord((1, None), Browser("state", false), 600_000)]
    ensures Answerable(s, 1, ANSWER, 0)
  {
  }

  lemma ExpiredHasNoKey(s: State)
    requires Inv(s) && 1 in s.sessions && s.sessions[1].status == Expired
    ensures s.sessions[1].keyId == None
  {
    assert RecordOk(s.sessions[1]);
  }

  lemma KeyStaysWritten(s: State, e: Event)
    requires e.Claim? && 1 in s.written
    ensures 1 in Step(s, e).written && Step(s, e).written[1] == s.written[1]
  {
  }
}
