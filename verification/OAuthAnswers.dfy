/** What each request and each step of a sign-in task does to the session it is about, in every
    reachable state, and what it rules out from then on. */
module OAuthAnswers {
  import opened Wrappers
  import opened Int64
  import opened OAuthSessions
  import opened OAuthProtocol

  // Nothing but the record of one session differs.
  ghost predicate OnlyRecord(s: State, s': State, id: SessionId) {
    && s'.sessions.Keys == s.sessions.Keys
    && (forall j | j in s.sessions && j != id :: s'.sessions[j] == s.sessions[j])
    && s'.starting == s.starting && s'.starters == s.starters && s'.issued == s.issued && s'.written == s.written
  }

  // The same record, ended: everything about it but how and when it ended is kept.
  predicate Ended(r: SessionRecord, r': SessionRecord, status: SessionStatus, code: Option<string>, now: i64) {
    && r'.status == status && r'.stage == Finished && r'.terminalAt == Some(now) && r'.errorCode == code
    && r'.target == r.target && r'.expiresAt == r.expiresAt && r'.keyId == None
  }

  // ---------- Polls and cancellations ----------

  // A poll expires a Pending session exactly when its deadline has come and its save is not past the
  // gate, and changes nothing else. No login is or will be written for a session expired so.
  lemma PollExpiresExactly(es: seq<Event>, id: SessionId, now: i64, later: seq<Event>)
    requires GateFree(Run(INIT, es), id)
    ensures
      var s, s' := Run(INIT, es), Step(Run(INIT, es), Get(id, now));
      && OnlyRecord(s, s', id) && s'.runners == s.runners && s'.handed == s.handed && s'.cancelled == s.cancelled
      && (id in s.sessions ==>
            var r, r' := s.sessions[id], s'.sessions[id];
            && (r.status == Pending && r.stage != Finalizing && now >= r.expiresAt <==> r' != r)
            && (r' != r ==>
                  && Ended(r, r', Expired, Some("oauth_session_expired"), now)
                  && r'.flow == r.flow && r'.cancelRequested
                  && id !in s.written && id !in Run(s', later).written))
  {
    EveryRun(es);
    var s, s' := Run(INIT, es), Step(Run(INIT, es), Get(id, now));
    StepKeepsInv(s, Get(id, now));
    if id in s.sessions && s'.sessions[id] != s.sessions[id] {
      assert RecordOk(s.sessions[id]);
      EndedUnwritten(s, id);
      hide Step, Run, Inv;
      StaysUnwritten(s', later, id);
    }
  }

  // A cancellation ends a Pending session whose save is not past the gate as Cancelled, and changes
  // nothing else.
  lemma CancelEndsExactly(es: seq<Event>, id: SessionId, now: i64, later: seq<Event>)
    requires GateFree(Run(INIT, es), id)
    ensures
      var s, s' := Run(INIT, es), Step(Run(INIT, es), Cancel(id, now));
      && OnlyRecord(s, s', id) && s'.runners == s.runners && s'.handed == s.handed
      && (id in s.sessions ==>
            var r, r' := s.sessions[id], s'.sessions[id];
            && (r.status == Pending && r.stage != Finalizing <==> r' != r)
            && (r' != r ==>
                  && Ended(r, r', Cancelled, None, now) && r'.flow == r.flow && r'.cancelRequested
                  && id in s'.cancelled && id !in s.written && id !in Run(s', later).written))
  {
    EveryRun(es);
    var s, s' := Run(INIT, es), Step(Run(INIT, es), Cancel(id, now));
    StepKeepsInv(s, Cancel(id, now));
    if id in s.sessions && s'.sessions[id] != s.sessions[id] {
      assert RecordOk(s.sessions[id]);
      EndedUnwritten(s, id);
      hide Step, Run, Inv;
      StaysUnwritten(s', later, id);
    }
  }

  // A Pending session whose task is outside the gate and which is not Finalizing has no login yet.
  lemma EndedUnwritten(s: State, id: SessionId)
    requires Inv(s) && id in s.sessions && GateFree(s, id)
    requires s.sessions[id].status == Pending && s.sessions[id].stage != Finalizing
    ensures id !in s.written
  {
    assert id in s.runners ==> TaskOk(s, id);
  }

  // The task of a session that is over or gone, and unwritten, is not between the checks and the save.
  ghost predicate NoSaveAhead(s: State, id: SessionId) {
    && id in s.issued && id !in s.written
    && (id in s.sessions ==> s.sessions[id].status.Terminal())
    && (id in s.runners ==>
          !s.runners[id].NotCancelled? && !s.runners[id].NotExpired? && !s.runners[id].Targeted?)
  }

  lemma NoSaveStep(s: State, e: Event, id: SessionId)
    requires NoSaveAhead(s, id)
    ensures NoSaveAhead(Step(s, e), id)
  {
    if Enabled(s, e) && !e.Prune? && ((e.Reserve? || e.StartFails?) || e.id != id) {
      IssuedStays(s, e);
      hide Apply;
      OthersUntouched(s, e, id);
    }
  }

  lemma IssuedStays(s: State, e: Event)
    ensures s.issued <= Step(s, e).issued
  {
  }

  lemma {:induction false} NoSaveRun(s: State, es: seq<Event>, id: SessionId)
    requires NoSaveAhead(s, id)
    ensures id !in Run(s, es).written
    decreases |es|
  {
    hide Step;
    if es != [] {
      NoSaveStep(s, es[0], id);
      NoSaveRun(Step(s, es[0]), es[1..], id);
    }
  }

  // A session that ended without its login stays without it.
  lemma StaysUnwritten(s: State, es: seq<Event>, id: SessionId)
    requires Inv(s) && id in s.sessions && s.sessions[id].status.Terminal() && id !in s.written
    ensures id !in Run(s, es).written
  {
    assert id in s.runners ==> TaskOk(s, id);
    NoSaveRun(s, es, id);
  }

  // ---------- Callbacks ----------

  // A callback hands the code out exactly when the session is Pending, in time, not answered before
  // and waiting for this very state, and the callback brings a code and no error; the session then
  // goes on Exchanging.
  lemma CallbackAnsweredExactly(es: seq<Event>, id: SessionId, callback: Callback, now: i64)
    requires GateFree(Run(INIT, es), id)
    ensures
      var s, s' := Run(INIT, es), Step(Run(INIT, es), Claim(id, callback, now));
      var answer := Claimed(s.sessions, id, callback, now).1;
      && (answer.Ok? <==> Answerable(s, id, callback, now))
      && (answer.Ok? ==>
            && OnlyRecord(s, s', id) && s'.cancelled == s.cancelled
            && callback.code == Some(answer.value) && s'.handed == s.handed + [id]
            && s'.runners == s.runners[id := Exchanged]
            && s'.sessions[id] == s.sessions[id].(stage := Exchanging, flow := Browser(callback.state, true)))
  {
    hide Inv;
  }

  // Whether a session waits for a callback with this state.
  predicate Awaits(r: SessionRecord, callback: Callback) {
    r.flow.Browser? && r.flow.state == callback.state && r.status == Pending
  }

  // A callback that is not answered expires the session it is too late for, or fails the session it
  // brings an error for; with another state, for a session that is over or answered, or without a
  // code it has no effect at all.
  lemma CallbackRefused(es: seq<Event>, id: SessionId, callback: Callback, now: i64)
    requires GateFree(Run(INIT, es), id) && !Answerable(Run(INIT, es), id, callback, now)
    ensures
      var s, s' := Run(INIT, es), Step(Run(INIT, es), Claim(id, callback, now));
      && s' == s.(sessions := s'.sessions) && OnlyRecord(s, s', id)
      && (id in s.sessions ==>
            var r, r' := s.sessions[id], s'.sessions[id];
            if Awaits(r, callback) && now >= r.expiresAt then
              Ended(r, r', Expired, Some("oauth_session_expired"), now) && r'.flow == r.flow
            else if Awaits(r, callback) && !r.flow.callbackClaimed && callback.error.Some? then
              && Ended(r, r', Failed, Some("oauth_authorization_failed"), now)
              && r'.flow == Browser(callback.state, true)
            else r' == r)
  {
    EveryRun(es);
    var s := Run(INIT, es);
    assert id in s.sessions ==> RecordOk(s.sessions[id]);
    ClaimMoves(s.sessions, id, callback, now);
    RefusedRecord(s, id, callback, now);
    hide Claimed, RecordOk, Answerable, Ended, Inv;
  }

  lemma RefusedRecord(s: State, id: SessionId, callback: Callback, now: i64)
    requires !Answerable(s, id, callback, now) && (id in s.sessions ==> RecordOk(s.sessions[id]))
    ensures Claimed(s.sessions, id, callback, now).1.Err?
    ensures id in s.sessions ==> id in Claimed(s.sessions, id, callback, now).0
    ensures id in s.sessions ==>
      var r, r' := s.sessions[id], Claimed(s.sessions, id, callback, now).0[id];
      if Awaits(r, callback) && now >= r.expiresAt then
        Ended(r, r', Expired, Some("oauth_session_expired"), now) && r'.flow == r.flow
      else if Awaits(r, callback) && !r.flow.callbackClaimed && callback.error.Some? then
        && Ended(r, r', Failed, Some("oauth_authorization_failed"), now)
        && r'.flow == Browser(callback.state, true)
      else r' == r
  {
  }

  // The reasons, in the order they are looked for.
  lemma CallbackRejections(es: seq<Event>, id: SessionId, callback: Callback, now: i64)
    ensures
      var m := Run(INIT, es).sessions;
      var answer := Claimed(m, id, callback, now).1;
      answer.Err? ==>
        match answer.error {
          case SessionNotFound => id !in m
          case FlowMismatch => id in m && m[id].flow.Device?
          case StateInvalid => id in m && m[id].flow.Browser? && m[id].flow.state != callback.state
          case SessionNotPending => id in m && m[id].status.Terminal()
          case SessionExpiredNow => id in m && m[id].status == Pending && now >= m[id].expiresAt
          case AlreadySubmitted => id in m && m[id].status == Pending && m[id].flow.callbackClaimed
          case AuthorizationFailed => id in m && callback.error.Some?
          case CodeMissing => id in m && callback.error.None? && callback.code.None?
        }
  {
  }

  // ---------- Starts and forgetting ----------

  // A committed start shows a Pending session waiting for the user, for the target it had reserved,
  // and gives the reservation back.
  lemma CommitShows(es: seq<Event>, starter: nat, id: SessionId, flow: FlowData, expiresAt: i64)
    requires Enabled(Run(INIT, es), Commit(starter, id, flow, expiresAt))
    ensures
      var s, s' := Run(INIT, es), Step(Run(INIT, es), Commit(starter, id, flow, expiresAt));
      && id !in s.sessions && s'.sessions.Keys == s.sessions.Keys + {id}
      && (forall j | j in s.sessions :: s'.sessions[j] == s.sessions[j])
      && var r := s'.sessions[id];
      && r.status == Pending && r.stage == WaitingForUser && r.expiresAt == expiresAt && r.flow == flow
      && r.target == s.starters[starter] && r.target !in s'.starting && starter !in s'.starters
      && r.terminalAt == None && r.keyId == None && r.errorCode == None && !r.cancelRequested
      && (id in s'.runners <==> flow.Device?)
  {
    EveryRun(es);
  }

  // Pruning forgets a session exactly when 300 s have passed since it ended or, if it is Pending,
  // since its deadline; the clock's last value forgets everything.
  lemma PruneForgetsExactly(es: seq<Event>, now: i64, id: SessionId)
    ensures
      var s, s' := Run(INIT, es), Step(Run(INIT, es), Prune(now));
      && s' == s.(sessions := s'.sessions)
      && (id in s'.sessions ==> id in s.sessions && s'.sessions[id] == s.sessions[id])
      && (id in s.sessions ==>
            var r := s.sessions[id];
            && (r.status == Pending ==> (id in s'.sessions <==> now - r.expiresAt < 300_000 && now < Int64.MAX))
            && (r.status != Pending ==>
                  && r.terminalAt.Some?
                  && (id in s'.sessions <==> now - r.terminalAt.value < 300_000 && now < Int64.MAX)))
  {
    EveryRun(es);
    var s := Run(INIT, es);
    assert id in s.sessions ==> RecordOk(s.sessions[id]);
  }

  // ---------- The task ----------

  // A task that finds its session's deadline past at the check inside the gate never saves, whatever
  // follows; one that finds it in time goes on, and the check changes no record.
  lemma OverdueNeverWritten(es: seq<Event>, id: SessionId, now: i64, later: seq<Event>)
    requires TaskAt(Run(INIT, es), id, NotCancelled)
    ensures
      var s, s' := Run(INIT, es), Step(Run(INIT, es), CheckExpired(id, now));
      && s' == s.(runners := s'.runners)
      && (id in s.sessions && now < s.sessions[id].expiresAt <==> TaskAt(s', id, NotExpired))
      && (!TaskAt(s', id, NotExpired) ==> id !in s.written && id !in Run(s', later).written)
  {
    EveryRun(es);
    var s, s' := Run(INIT, es), Step(Run(INIT, es), CheckExpired(id, now));
    assert TaskOk(s, id);
    StepKeepsInv(s, CheckExpired(id, now));
    if !TaskAt(s', id, NotExpired) {
      hide Step, Run, Inv;
      OverRun(s', later, id);
    }
  }

  // The task of the session reports what it found or has ended, and no callback can start another.
  ghost predicate Overtaken(s: State, id: SessionId) {
    && id in s.issued && id in s.runners && (s.runners[id].Overdue? || s.runners[id].Done?) && id !in s.written
    && (id in s.sessions && s.sessions[id].flow.Browser? ==> s.sessions[id].flow.callbackClaimed)
  }

  lemma OverStep(s: State, e: Event, id: SessionId)
    requires Overtaken(s, id)
    ensures Overtaken(Step(s, e), id)
  {
    if Enabled(s, e) && !e.Prune? && ((e.Reserve? || e.StartFails?) || e.id != id) {
      IssuedStays(s, e);
      hide Apply;
      OthersUntouched(s, e, id);
    }
  }

  lemma {:induction false} OverRun(s: State, es: seq<Event>, id: SessionId)
    requires Overtaken(s, id)
    ensures id !in Run(s, es).written
    decreases |es|
  {
    hide Step;
    if es != [] {
      OverStep(s, es[0], id);
      OverRun(Step(s, es[0]), es[1..], id);
    }
  }

  // A device sign-in that the user has approved goes on Exchanging if it is still wanted; else its task
  // ends and the table stays as it is.
  lemma DeviceReadyShows(es: seq<Event>, id: SessionId)
    requires TaskAt(Run(INIT, es), id, Polling)
    ensures
      var s, s' := Run(INIT, es), Step(Run(INIT, es), DeviceReady(id));
      if id in s.sessions && s.sessions[id].status == Pending then
        && OnlyRecord(s, s', id) && s'.sessions[id] == s.sessions[id].(stage := Exchanging)
        && s'.runners == s.runners[id := Exchanged]
      else s' == s.(runners := s.runners[id := Done])
  {
    EveryRun(es);
    var s := Run(INIT, es);
    assert id in s.sessions ==> RecordOk(s.sessions[id]);
  }

  // A task that fails ends its session, if that is still Pending, with the code it reports.
  lemma FailureShows(es: seq<Event>, id: SessionId, expired: bool, code: string, now: i64)
    requires Enabled(Run(INIT, es), TaskFails(id, expired, code, now))
    ensures
      var s, s' := Run(INIT, es), Step(Run(INIT, es), TaskFails(id, expired, code, now));
      && OnlyRecord(s, s', id) && s'.runners == s.runners[id := Done]
      && (id in s.sessions ==>
            if s.sessions[id].status == Pending then
              Ended(s.sessions[id], s'.sessions[id], if expired then Expired else Failed, Some(code), now)
            else s'.sessions[id] == s.sessions[id])
  {
    EveryRun(es);
    var s := Run(INIT, es);
    assert id in s.sessions ==> RecordOk(s.sessions[id]);
  }

  // After a save the session is Finalizing, which keeps polls and cancellations off it, and completes
  // with the key of the login, unless a late callback has ended it or it is forgotten.
  lemma CompletionShows(es: seq<Event>, id: SessionId, now: i64)
    requires
      var s := Run(INIT, es);
      id in s.runners && s.runners[id].AfterSave?
    ensures
      var s, s' := Run(INIT, es), Step(Run(INIT, es), Complete(id, now));
      && OnlyRecord(s, s', id) && s'.runners == s.runners[id := Done] && id in s.written
      && (id in s.sessions && s.sessions[id].status == Pending ==>
            && s.sessions[id].stage == Finalizing
            && s'.sessions[id] == s.sessions[id].(status := Completed, stage := Finished, terminalAt := Some(now),
                                                  keyId := Some(s.written[id])))
      && (id in s.sessions && s.sessions[id].status != Pending ==> s'.sessions[id] == s.sessions[id])
  {
    EveryRun(es);
    var s := Run(INIT, es);
    assert TaskOk(s, id) && WriteOk(s, id);
    assert id in s.sessions ==> RecordOk(s.sessions[id]);
  }
}
