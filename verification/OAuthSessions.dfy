/** The Codex sign-in manager: its session table and start reservations, one method for each time
    the code holds their locks. What each method does to the table is a function on maps, which the
    protocol in OAuthProtocol runs in every order. */
module OAuthSessions {
  import opened Wrappers
  import opened Int64

  const TOMBSTONE_MS: i64 := 300_000

  type SessionId = nat
  type Target = (int, Option<int>)  // provider, key to replace

  datatype SessionStatus = Pending | Completed | Failed | Cancelled | Expired {
    predicate Terminal() {
      this != Pending
    }
  }

  datatype SessionStage = WaitingForUser | Exchanging | Finalizing | Finished

  datatype FlowData = Device | Browser(state: string, callbackClaimed: bool)

  datatype SessionRecord = SessionRecord(
    target: Target,
    flow: FlowData,
    stage: SessionStage,
    expiresAt: i64,
    terminalAt: Option<i64>,
    status: SessionStatus,
    cancelRequested: bool,
    keyId: Option<int>,
    errorCode: Option<string>)

  type Sessions = map<SessionId, SessionRecord>

  datatype Callback = Callback(state: string, code: Option<string>, error: Option<string>)

  datatype ClaimError =
    | SessionNotFound
    | FlowMismatch
    | StateInvalid
    | SessionNotPending
    | SessionExpiredNow
    | AlreadySubmitted
    | AuthorizationFailed
    | CodeMissing

  function NewRecord(target: Target, flow: FlowData, expiresAt: i64): SessionRecord {
    SessionRecord(target, flow, WaitingForUser, expiresAt, None, Pending, false, None, None)
  }

  // ---------- One record ----------

  function ExpiredRecord(r: SessionRecord, now: i64): SessionRecord {
    r.(status := Expired, stage := Finished, terminalAt := Some(now),
       errorCode := Some("oauth_session_expired"), cancelRequested := true)
  }

  function CancelledRecord(r: SessionRecord, now: i64): SessionRecord {
    r.(cancelRequested := true, status := Cancelled, stage := Finished, terminalAt := Some(now), errorCode := None)
  }

  predicate Kept(r: SessionRecord, now: i64) {
    if !r.status.Terminal() then now < SatAdd(r.expiresAt, TOMBSTONE_MS)
    else r.terminalAt.Some? ==> now < SatAdd(r.terminalAt.value, TOMBSTONE_MS)
  }

  predicate Live(r: SessionRecord) {
    r.status == Pending && !r.cancelRequested
  }

  // ---------- The table ----------

  function Pruned(m: Sessions, now: i64): Sessions {
    map id | id in m && Kept(m[id], now) :: m[id]
  }

  predicate TargetBusy(m: Sessions, starting: set<Target>, target: Target) {
    target in starting || exists id | id in m :: m[id].status == Pending && m[id].target == target
  }

  function Refreshed(m: Sessions, id: SessionId, now: i64): Sessions {
    if id in m && m[id].status == Pending && m[id].stage != Finalizing && now >= m[id].expiresAt then
      m[id := ExpiredRecord(m[id], now)]
    else m
  }

  function CancelRequested(m: Sessions, id: SessionId, now: i64): Sessions {
    if id in m && m[id].status == Pending && m[id].stage != Finalizing then
      m[id := CancelledRecord(m[id], now)]
    else m
  }

  // The table after a callback, and the code it hands out or the reason it does not.
  function Claimed(m: Sessions, id: SessionId, callback: Callback, now: i64): (Sessions, Result<string, ClaimError>) {
    if id !in m then (m, Err(SessionNotFound))
    else
      var r := m[id];
      if r.flow.Device? then (m, Err(FlowMismatch))
      else if r.flow.state != callback.state then (m, Err(StateInvalid))
      else if r.status != Pending then (m, Err(SessionNotPending))
      else if now >= r.expiresAt then (m[id := ExpiredRecord(r, now)], Err(SessionExpiredNow))
      else if r.flow.callbackClaimed then (m, Err(AlreadySubmitted))
      else
        var flow := r.flow.(callbackClaimed := true);
        if callback.error.Some? then
          (m[id := r.(flow := flow, status := Failed, stage := Finished, terminalAt := Some(now),
                      errorCode := Some("oauth_authorization_failed"))],
           Err(AuthorizationFailed))
        else if callback.code.None? then (m, Err(CodeMissing))
        else (m[id := r.(flow := flow, stage := Exchanging)], Ok(callback.code.value))
  }

  predicate IsCancelled(m: Sessions, id: SessionId) {
    id !in m || !Live(m[id])
  }

  predicate IsExpired(m: Sessions, id: SessionId, now: i64) {
    id !in m || now >= m[id].expiresAt
  }

  function Staged(m: Sessions, id: SessionId, stage: SessionStage): Sessions {
    if IsCancelled(m, id) then m else m[id := m[id].(stage := stage)]
  }

  function Errored(m: Sessions, id: SessionId, status: SessionStatus, code: string, now: i64): Sessions {
    if id !in m || m[id].status != Pending then m
    else m[id := m[id].(status := status, stage := Finished, terminalAt := Some(now), errorCode := Some(code))]
  }

  function CompletedWith(m: Sessions, id: SessionId, key: int, now: i64): Sessions {
    if IsCancelled(m, id) then m
    else m[id := m[id].(status := Completed, stage := Finished, terminalAt := Some(now), keyId := Some(key))]
  }

  // ---------- The manager ----------

  class CodexOAuthManager {
    var sessions: Sessions
    var startingTargets: set<Target>

    constructor ()
      ensures sessions == map[] && startingTargets == {}
    {
      sessions, startingTargets := map[], {};
    }

    method PruneSessions(now: i64)
      modifies this`sessions
      ensures sessions == Pruned(old(sessions), now)
    {
      sessions := map id | id in sessions && Kept(sessions[id], now) :: sessions[id];
    }

    method ReserveStartingTarget(target: Target) returns (reserved: bool)
      modifies this`startingTargets
      ensures reserved == !TargetBusy(sessions, old(startingTargets), target)
      ensures startingTargets == if reserved then old(startingTargets) + {target} else old(startingTargets)
    {
      if target in startingTargets
         || exists id | id in sessions :: sessions[id].status == Pending && sessions[id].target == target {
        return false;
      }
      startingTargets := startingTargets + {target};
      return true;
    }

    // Dropping an armed start guard.
    method ReleaseStartingTarget(target: Target)
      modifies this`startingTargets
      ensures startingTargets == old(startingTargets) - {target}
    {
      startingTargets := startingTargets - {target};
    }

    // A started session enters the table and gives its reservation back under one lock.
    method CommitSession(id: SessionId, target: Target, flow: FlowData, expiresAt: i64)
      modifies this
      ensures sessions == old(sessions)[id := NewRecord(target, flow, expiresAt)]
      ensures startingTargets == old(startingTargets) - {target}
    {
      sessions := sessions[id := NewRecord(target, flow, expiresAt)];
      startingTargets := startingTargets - {target};
    }

    // `get_session` under the save gate.
    method GetSession(id: SessionId, now: i64) returns (view: Option<SessionRecord>)
      modifies this`sessions
      ensures sessions == Refreshed(old(sessions), id, now)
      ensures view == if id in sessions then Some(sessions[id]) else None
    {
      if id !in sessions {
        return None;
      }
      var record := sessions[id];
      if record.status == Pending && record.stage != Finalizing && now >= record.expiresAt {
        record := record.(status := Expired, stage := Finished, terminalAt := Some(now));
        record := record.(errorCode := Some("oauth_session_expired"), cancelRequested := true);
        sessions := sessions[id := record];
      }
      return Some(record);
    }

    // `cancel_session` under the save gate.
    method CancelSession(id: SessionId, now: i64) returns (found: bool)
      modifies this`sessions
      ensures sessions == CancelRequested(old(sessions), id, now)
      ensures found == (id in old(sessions))
    {
      if id !in sessions {
        return false;
      }
      var record := sessions[id];
      if record.status == Pending && record.stage != Finalizing {
        record := record.(cancelRequested := true, status := Cancelled, stage := Finished);
        record := record.(terminalAt := Some(now), errorCode := None);
        sessions := sessions[id := record];
      }
      return true;
    }

    // The session a callback without a session id belongs to.
    method FindByState(state: string) returns (found: Option<SessionId>)
      ensures found.Some? ==>
        found.value in sessions && sessions[found.value].flow.Browser? && sessions[found.value].flow.state == state
      ensures found.None? ==>
        forall id | id in sessions :: sessions[id].flow.Browser? ==> sessions[id].flow.state != state
    {
      if id :| id in sessions && sessions[id].flow.Browser? && sessions[id].flow.state == state {
        return Some(id);
      }
      return None;
    }

    // `claim_browser_callback` under the save gate.
    method ClaimBrowserCallback(id: SessionId, callback: Callback, now: i64) returns (r: Result<string, ClaimError>)
      modifies this`sessions
      ensures (sessions, r) == Claimed(old(sessions), id, callback, now)
    {
      if id !in sessions {
        return Err(SessionNotFound);
      }
      var record := sessions[id];
      match record.flow {
        case Device =>
          return Err(FlowMismatch);
        case Browser(state, alreadyClaimed) =>
          if state != callback.state {
            return Err(StateInvalid);
          }
          if record.status != Pending {
            return Err(SessionNotPending);
          }
          if now >= record.expiresAt {
            record := record.(status := Expired, stage := Finished, terminalAt := Some(now));
            record := record.(errorCode := Some("oauth_session_expired"), cancelRequested := true);
            sessions := sessions[id := record];
            return Err(SessionExpiredNow);
          }
          if alreadyClaimed {
            return Err(AlreadySubmitted);
          }
          if callback.error.Some? {
            record := record.(flow := Browser(state, true));
            record := record.(status := Failed, stage := Finished, terminalAt := Some(now));
            record := record.(errorCode := Some("oauth_authorization_failed"));
            sessions := sessions[id := record];
            return Err(AuthorizationFailed);
          }
          if callback.code.None? {
            return Err(CodeMissing);
          }
          record := record.(flow := Browser(state, true));
          record := record.(stage := Exchanging);
          sessions := sessions[id := record];
          return Ok(callback.code.value);
      }
    }

    method MarkSessionStage(id: SessionId, stage: SessionStage) returns (marked: bool)
      modifies this`sessions
      ensures marked == !IsCancelled(old(sessions), id)
      ensures sessions == Staged(old(sessions), id, stage)
    {
      if id !in sessions {
        return false;
      }
      var record := sessions[id];
      if record.status != Pending || record.cancelRequested {
        return false;
      }
      sessions := sessions[id := record.(stage := stage)];
      return true;
    }

    method MarkSessionError(id: SessionId, status: SessionStatus, code: string, now: i64)
      modifies this`sessions
      ensures sessions == Errored(old(sessions), id, status, code, now)
    {
      if id !in sessions {
        return;
      }
      var record := sessions[id];
      if record.status != Pending {
        return;
      }
      record := record.(status := status, stage := Finished);
      record := record.(terminalAt := Some(now), errorCode := Some(code));
      sessions := sessions[id := record];
    }

    method MarkSessionCompleted(id: SessionId, key: int, now: i64)
      modifies this`sessions
      ensures sessions == CompletedWith(old(sessions), id, key, now)
    {
      if id !in sessions {
        return;
      }
      var record := sessions[id];
      if record.status != Pending || record.cancelRequested {
        return;
      }
      record := record.(status := Completed, stage := Finished, terminalAt := Some(now));
      record := record.(keyId := Some(key));
      sessions := sessions[id := record];
    }
  }
}
