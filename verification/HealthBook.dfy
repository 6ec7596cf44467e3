/** The circuit breaker of endpoints and keys. Generations and probe numbers are unbounded here; the
    code's wrap-around of a 64-bit counter is not part of this model. */
module HealthBook {
  import opened Wrappers
  import opened Int64
  import opened Resilience

  datatype CircuitState = Closed | Open | HalfOpen

  datatype HealthState = HealthState(
    generation: nat,
    nextProbe: nat,
    probeOwner: Option<nat>,
    consecutiveFailures: nat,
    successes: nat,
    failures: nat,
    openUntil: Option<i64>)

  datatype Token = Token(generation: nat, probe: Option<nat>)

  const FRESH := HealthState(1, 0, None, 0, 0, 0, None)

  // ---------- One target ----------

  function Kind(h: HealthState, now: i64): CircuitState {
    match h.openUntil
    case Some(until) => if until > now then Open else HalfOpen
    case None => Closed
  }

  predicate Matches(h: HealthState, t: Token) {
    h.generation == t.generation && (t.probe.Some? ==> h.probeOwner == t.probe)
  }

  function NextGeneration(h: HealthState): HealthState {
    h.(generation := h.generation + 1, probeOwner := None)
  }

  function ReleaseProbe(h: HealthState, t: Token): HealthState {
    if t.probe.Some? && h.probeOwner == t.probe then h.(probeOwner := None) else h
  }

  function Begin(h: HealthState, now: i64): (HealthState, Option<Token>) {
    match Kind(h, now)
    case Closed => (h, Some(Token(h.generation, None)))
    case Open => (h, None)
    case HalfOpen =>
      if h.probeOwner.Some? then (h, None)
      else
        var p := h.nextProbe + 1;
        (h.(nextProbe := p, probeOwner := Some(p)), Some(Token(h.generation, Some(p))))
  }

  function Neutral(h: HealthState, t: Token): HealthState {
    if Matches(h, t) then ReleaseProbe(h, t) else h
  }

  function Succeed(h: HealthState, t: Token, now: i64): HealthState {
    var h1 := h.(successes := h.successes + 1);
    if !Matches(h, t) then h1
    else
      var h2 := ReleaseProbe(h1.(consecutiveFailures := 0, openUntil := None), t);
      if Kind(h, now) == HalfOpen then NextGeneration(h2) else h2
  }

  // The configured duration applies from the threshold on, and after any failed probe.
  function Configured(threshold: nat, openMs: i64, failures: nat, kind: CircuitState): i64 {
    if failures >= threshold || kind == HalfOpen then openMs else 0
  }

  // The cooldown a failure on a current token starts.
  function Wait(h: HealthState, now: i64, threshold: nat, openMs: i64): i64 {
    var n := h.consecutiveFailures + 1;
    CooldownMs(Configured(threshold, openMs, n, Kind(h, now)), n)
  }

  function Fail(h: HealthState, t: Token, now: i64, threshold: nat, openMs: i64): HealthState {
    var h1 := h.(failures := h.failures + 1);
    if !Matches(h, t) then h1
    else
      NextGeneration(ReleaseProbe(h1, t).(consecutiveFailures := h.consecutiveFailures + 1,
                                          openUntil := Some(SatAdd(now, Wait(h, now, threshold, openMs)))))
  }

  function Reset(h: HealthState): HealthState {
    NextGeneration(h).(consecutiveFailures := 0, openUntil := None)
  }

  function Defer(h: HealthState, until: i64): HealthState {
    var current := if h.openUntil.Some? then h.openUntil.value else 0;
    NextGeneration(h.(openUntil := Some(Max(current, until))))
  }

  // ---------- The book ----------

  class RuntimeHealthBook {
    const failureThreshold: nat
    const openDurationMs: i64
    var byId: map<int, HealthState>

    constructor (failureThreshold: nat, openDurationMs: i64)
      ensures this.failureThreshold == (if failureThreshold >= 1 then failureThreshold else 1)
      ensures this.openDurationMs == Max(openDurationMs, 1)
      ensures byId == map[]
    {
      this.failureThreshold := if failureThreshold >= 1 then failureThreshold else 1;
      this.openDurationMs := Max(openDurationMs, 1);
      byId := map[];
    }

    function Of(id: int): HealthState
      reads this`byId
    {
      if id in byId then byId[id] else FRESH
    }

    method TryBeginAttempt(id: int, now: i64) returns (token: Option<Token>)
      modifies this`byId
      ensures byId == old(byId)[id := Of(id)]
      ensures (Of(id), token) == Begin(old(Of(id)), now)
    {
      var h := if id in byId then byId[id] else FRESH;
      byId := byId[id := h];
      var kind := Kind(h, now);
      if kind == Closed {
        return Some(Token(h.generation, None));
      }
      if kind == Open {
        return None;
      }
      if h.probeOwner.Some? {
        return None;
      }
      h := h.(nextProbe := h.nextProbe + 1);
      h := h.(probeOwner := Some(h.nextProbe));
      byId := byId[id := h];
      return Some(Token(h.generation, Some(h.nextProbe)));
    }

    // Also what dropping an unfinished attempt guard does.
    method FinishNeutral(id: int, token: Token)
      modifies this`byId
      ensures byId == if id in old(byId) then old(byId)[id := Neutral(old(Of(id)), token)] else old(byId)
    {
      if id !in byId {
        return;
      }
      var h := byId[id];
      if Matches(h, token) {
        byId := byId[id := ReleaseProbe(h, token)];
      }
    }

    method FinishSuccess(id: int, token: Token, now: i64)
      modifies this`byId
      ensures byId == old(byId)[id := Succeed(old(Of(id)), token, now)]
    {
      var h := if id in byId then byId[id] else FRESH;
      h := h.(successes := h.successes + 1);
      if !Matches(h, token) {
        byId := byId[id := h];
        return;
      }
      var previous := Kind(h, now);
      h := h.(consecutiveFailures := 0);
      h := h.(openUntil := None);
      h := ReleaseProbe(h, token);
      if previous == HalfOpen {
        h := NextGeneration(h);
      }
      byId := byId[id := h];
    }

    method FinishFailure(id: int, token: Token, now: i64)
      modifies this`byId
      ensures byId == old(byId)[id := Fail(old(Of(id)), token, now, failureThreshold, openDurationMs)]
    {
      var h := if id in byId then byId[id] else FRESH;
      h := h.(failures := h.failures + 1);
      if !Matches(h, token) {
        byId := byId[id := h];
        return;
      }
      var previous := Kind(h, now);
      h := ReleaseProbe(h, token);
      h := h.(consecutiveFailures := h.consecutiveFailures + 1);
      var configured: i64 := 0;
      if h.consecutiveFailures >= failureThreshold || previous == HalfOpen {
        configured := openDurationMs;
      }
      h := h.(openUntil := Some(SatAdd(now, CooldownMs(configured, h.consecutiveFailures))));
      h := NextGeneration(h);
      byId := byId[id := h];
    }

    method ResetId(id: int)
      modifies this`byId
      ensures byId == old(byId)[id := Reset(old(Of(id)))]
    {
      var h := if id in byId then byId[id] else FRESH;
      h := NextGeneration(h);
      h := h.(consecutiveFailures := 0);
      h := h.(openUntil := None);
      byId := byId[id := h];
    }

    method DeferUntil(id: int, until: i64)
      modifies this`byId
      ensures byId == old(byId)[id := Defer(old(Of(id)), until)]
    {
      var h := if id in byId then byId[id] else FRESH;
      h := h.(openUntil := Some(Max(if h.openUntil.Some? then h.openUntil.value else 0, until)));
      h := NextGeneration(h);
      byId := byId[id := h];
    }
  }

  // A target the operator's reset has been through: old attempts no longer count.
  ghost predicate Restarted(before: HealthState, after: HealthState, openUntil: Option<i64>) {
    && after.openUntil == openUntil && after.consecutiveFailures == 0 && after.probeOwner == None
    && after.generation > before.generation
  }

  // The operator's reset of one provider: every endpoint and key is closed, then a key whose quota
  // is exhausted is kept waiting until its quota returns.
  method ResetProviderCircuit(endpoints: seq<int>, keys: seq<int>, quota: map<int, i64>,
                              endpointHealth: RuntimeHealthBook, keyHealth: RuntimeHealthBook)
    requires endpointHealth != keyHealth
    modifies endpointHealth`byId, keyHealth`byId
    ensures forall id | id in endpoints :: Restarted(old(endpointHealth.Of(id)), endpointHealth.Of(id), None)
    ensures forall id | id !in endpoints :: endpointHealth.Of(id) == old(endpointHealth.Of(id))
    ensures forall id | id in keys ::
      Restarted(old(keyHealth.Of(id)), keyHealth.Of(id), if id in quota then Some(Max(0, quota[id])) else None)
    ensures forall id | id !in keys :: keyHealth.Of(id) == old(keyHealth.Of(id))
  {
    ResetEndpoints(endpoints, endpointHealth);
    ResetKeys(keys, quota, keyHealth);
  }

  method ResetEndpoints(endpoints: seq<int>, health: RuntimeHealthBook)
    modifies health`byId
    ensures forall id | id in endpoints :: Restarted(old(health.Of(id)), health.Of(id), None)
    ensures forall id | id !in endpoints :: health.Of(id) == old(health.Of(id))
  {
    for i := 0 to |endpoints|
      invariant forall id | id in endpoints[..i] :: Restarted(old(health.Of(id)), health.Of(id), None)
      invariant forall id | id !in endpoints[..i] :: health.Of(id) == old(health.Of(id))
    {
      assert endpoints[..i + 1] == endpoints[..i] + [endpoints[i]];
      health.ResetId(endpoints[i]);
    }
    assert endpoints[..|endpoints|] == endpoints;
  }

  method ResetKeys(keys: seq<int>, quota: map<int, i64>, health: RuntimeHealthBook)
    modifies health`byId
    ensures forall id | id in keys ::
      Restarted(old(health.Of(id)), health.Of(id), if id in quota then Some(Max(0, quota[id])) else None)
    ensures forall id | id !in keys :: health.Of(id) == old(health.Of(id))
  {
    for i := 0 to |keys|
      invariant forall id | id in keys[..i] ::
        Restarted(old(health.Of(id)), health.Of(id), if id in quota then Some(Max(0, quota[id])) else None)
      invariant forall id | id !in keys[..i] :: health.Of(id) == old(health.Of(id))
    {
      assert keys[..i + 1] == keys[..i] + [keys[i]];
      health.ResetId(keys[i]);
      if keys[i] in quota {
        health.DeferUntil(keys[i], quota[keys[i]]);
      }
    }
    assert keys[..|keys|] == keys;
  }
}
