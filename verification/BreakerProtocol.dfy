/** The circuit breaker of one target under every interleaving of attempts, results, dropped
    guards, deferrals and resets. Clock readings never go back; an event that is not possible leaves
    the state alone, so every list of events is a run. */
module BreakerProtocol {
  import opened Wrappers
  import opened Int64
  import opened Resilience
  import opened HealthBook

  datatype Config = Config(threshold: nat, openMs: i64)

  // The breaker, the attempts whose guard is alive, and the last clock reading.
  datatype State = State(h: HealthState, live: map<nat, Token>, clock: i64)

  datatype Event =
    | BeginAttempt(attempt: nat, now: i64)
    | Dropped(attempt: nat, now: i64)  // a neutral result, or the guard goes out of scope
    | Success(attempt: nat, now: i64)
    | Failure(attempt: nat, now: i64)
    | ResetCircuit(now: i64)
    | DeferCircuit(until: i64, now: i64)

  const INIT := State(FRESH, map[], Int64.MIN)

  predicate Enabled(s: State, e: Event) {
    && s.clock <= e.now
    && match e
       case BeginAttempt(a, _) => a !in s.live
       case Dropped(a, _) => a in s.live
       case Success(a, _) => a in s.live
       case Failure(a, _) => a in s.live
       case _ => true
  }

  function Apply(c: Config, s: State, e: Event): State
    requires Enabled(s, e)
  {
    match e
    case BeginAttempt(a, now) =>
      var (h, token) := Begin(s.h, now);
      State(h, if token.Some? then s.live[a := token.value] else s.live, now)
    case Dropped(a, now) => State(Neutral(s.h, s.live[a]), s.live - {a}, now)
    case Success(a, now) => State(Succeed(s.h, s.live[a], now), s.live - {a}, now)
    case Failure(a, now) => State(Fail(s.h, s.live[a], now, c.threshold, c.openMs), s.live - {a}, now)
    case ResetCircuit(now) => State(Reset(s.h), s.live, now)
    case DeferCircuit(until, now) => State(Defer(s.h, until), s.live, now)
  }

  function Step(c: Config, s: State, e: Event): State {
    if Enabled(s, e) then Apply(c, s, e) else s
  }

  function Run(c: Config, s: State, es: seq<Event>): State
    decreases |es|
  {
    if es == [] then s else Run(c, Step(c, s, es[0]), es[1..])
  }

  predicate Granted(s: State, e: Event) {
    e.BeginAttempt? && Enabled(s, e) && Begin(s.h, e.now).1.Some?
  }

  // ---------- What every reachable state satisfies ----------

  ghost predicate TokensOk(s: State) {
    && (forall a | a in s.live ::
          s.live[a].generation <= s.h.generation
          && (s.live[a].probe.Some? ==> s.live[a].probe.value <= s.h.nextProbe))
    && (forall a, b | a in s.live && b in s.live && a != b && s.live[a].probe.Some? ::
          s.live[a].probe != s.live[b].probe)
  }

  // The tokens of the current generation are probes exactly when open-until is set, and then the
  // wait is over; a probe slot is held by an attempt that is still alive.
  ghost predicate ProbesOk(s: State) {
    && (forall a | a in s.live && s.live[a].generation == s.h.generation ::
          && (s.live[a].probe.Some? <==> s.h.openUntil.Some?)
          && (s.h.openUntil.Some? ==> s.h.openUntil.value <= s.clock))
    && (s.h.probeOwner.Some? ==>
          s.h.openUntil.Some? && exists a :: a in s.live && s.live[a] == Token(s.h.generation, s.h.probeOwner))
  }

  ghost predicate Inv(s: State) {
    TokensOk(s) && ProbesOk(s)
  }

  lemma StepKeepsInv(c: Config, s: State, e: Event)
    requires Inv(s)
    ensures Inv(Step(c, s, e))
  {
    if Enabled(s, e) {
      var s' := Apply(c, s, e);
      if s'.h.probeOwner.Some? {
        if s.h.probeOwner == s'.h.probeOwner {
          var a :| a in s.live && s.live[a] == Token(s.h.generation, s.h.probeOwner);
          assert a in s'.live && s'.live[a] == Token(s'.h.generation, s'.h.probeOwner);
        } else {
          assert e.attempt in s'.live && s'.live[e.attempt] == Token(s'.h.generation, s'.h.probeOwner);
        }
      }
    }
  }

  lemma {:induction false} RunKeepsInv(c: Config, s: State, es: seq<Event>)
    requires Inv(s)
    ensures Inv(Run(c, s, es))
    decreases |es|
  {
    hide Step;
    if es != [] {
      StepKeepsInv(c, s, es[0]);
      RunKeepsInv(c, Step(c, s, es[0]), es[1..]);
    }
  }

  // ---------- What holds over whole runs ----------

  // While open-until is set at most one outstanding attempt can still decide the breaker's fate,
  // and it is a probe that began after the wait.
  lemma OneProbeDecides(c: Config, es: seq<Event>, a: nat, b: nat)
    requires
      var s := Run(c, INIT, es);
      && s.h.openUntil.Some? && a in s.live && b in s.live
      && Matches(s.h, s.live[a]) && Matches(s.h, s.live[b])
    ensures a == b && Run(c, INIT, es).live[a].probe.Some?
    ensures Run(c, INIT, es).h.openUntil.value <= Run(c, INIT, es).clock
  {
    RunKeepsInv(c, INIT, es);
  }

  // States that differ at most in the two totals.
  predicate Alike(s: State, t: State) {
    t == s.(h := s.h.(successes := t.h.successes, failures := t.h.failures))
  }

  lemma StepAlike(c: Config, s: State, t: State, e: Event)
    requires Alike(s, t)
    ensures Alike(Step(c, s, e), Step(c, t, e)) && (Granted(s, e) <==> Granted(t, e))
  {
  }

  lemma {:induction false} RunAlike(c: Config, s: State, t: State, es: seq<Event>)
    requires Alike(s, t)
    ensures Alike(Run(c, s, es), Run(c, t, es))
    decreases |es|
  {
    hide Step, Alike;
    if es != [] {
      StepAlike(c, s, t, es[0]);
      RunAlike(c, Step(c, s, es[0]), Step(c, t, es[0]), es[1..]);
    }
  }

  // A result of an attempt whose token is not current is, for all that can happen later, the same as
  // dropping the attempt: only the two totals ever tell the difference.
  lemma StaleResultIsADrop(c: Config, es: seq<Event>, a: nat, succeeded: bool, now: i64, later: seq<Event>)
    requires
      var s := Run(c, INIT, es);
      a in s.live && s.clock <= now && !Matches(s.h, s.live[a])
    ensures
      var s := Run(c, INIT, es);
      var reported := Step(c, s, if succeeded then Success(a, now) else Failure(a, now));
      Alike(Run(c, Step(c, s, Dropped(a, now)), later), Run(c, reported, later))
  {
    var s := Run(c, INIT, es);
    var reported := Step(c, s, if succeeded then Success(a, now) else Failure(a, now));
    assert Alike(Step(c, s, Dropped(a, now)), reported);
    RunAlike(c, Step(c, s, Dropped(a, now)), reported, later);
  }

  // An attempt is refused exactly during the wait, or while a living attempt holds the probe: no
  // run leaves the breaker shut for ever.
  lemma RefusedExactly(c: Config, es: seq<Event>, now: i64)
    ensures
      var s := Run(c, INIT, es);
      Begin(s.h, now).1.None?
      <==> s.h.openUntil.Some?
           && (s.h.openUntil.value > now
               || exists a :: a in s.live && s.live[a].probe.Some? && Matches(s.h, s.live[a]))
  {
    RunKeepsInv(c, INIT, es);
    var s := Run(c, INIT, es);
    if s.h.probeOwner.Some? {
      var a :| a in s.live && s.live[a] == Token(s.h.generation, s.h.probeOwner);
      assert Matches(s.h, s.live[a]);
    }
  }

  // From here on no attempt begins before `until` unless somebody resets the breaker.
  ghost predicate Waits(s: State, until: i64) {
    || until <= s.clock
    || (&& s.h.openUntil.Some? && until <= s.h.openUntil.value
        && forall a | a in s.live :: s.live[a].generation != s.h.generation)
  }

  lemma StepWaits(c: Config, s: State, e: Event, until: i64)
    requires Inv(s) && Waits(s, until) && !e.ResetCircuit?
    ensures Waits(Step(c, s, e), until)
    ensures Granted(s, e) ==> until <= e.now
  {
  }

  lemma {:induction false} RunWaits(c: Config, s: State, es: seq<Event>, until: i64, i: nat)
    requires Inv(s) && Waits(s, until) && i < |es|
    requires forall j | 0 <= j < i :: !es[j].ResetCircuit?
    requires Granted(Run(c, s, es[..i]), es[i])
    ensures until <= es[i].now
    decreases |es|
  {
    hide Step, Inv, Waits;
    if i == 0 {
      assert es[..0] == [];
      StepWaits(c, s, es[0], until);
    } else {
      StepWaits(c, s, es[0], until);
      StepKeepsInv(c, s, es[0]);
      assert es[..i][0] == es[0] && es[..i][1..] == es[1..][..i - 1];
      RunWaits(c, Step(c, s, es[0]), es[1..], until, i - 1);
    }
  }

  // A failure reported on a current token stores 30 s, or the longer configured duration from the
  // threshold on or after a probe, doubled for every failure before it up to ten times, and at most
  // the larger of 300 s and that duration. No token handed out so far is current any more.
  lemma FailureOpens(c: Config, es: seq<Event>, a: nat, now: i64)
    requires
      var s := Run(c, INIT, es);
      a in s.live && s.clock <= now && Matches(s.h, s.live[a])
    ensures
      var h := Run(c, INIT, es).h;
      var h' := Step(c, Run(c, INIT, es), Failure(a, now)).h;
      && h'.consecutiveFailures == h.consecutiveFailures + 1
      && h'.generation > h.generation && h'.probeOwner == None
      && var before := h.consecutiveFailures;
         var configured := before + 1 >= c.threshold || h.openUntil.Some?;
         var base := if configured && c.openMs > 30_000 then c.openMs else 30_000;
         var wait := base * Pow2(if before < 10 then before else 10);
         var most := if base > 300_000 then base else 300_000;
         h'.openUntil == Some(SatAdd(now, if wait <= most then wait else most))
  {
    RunKeepsInv(c, INIT, es);
    var s := Run(c, INIT, es);
    var n := s.h.consecutiveFailures + 1;
    CooldownIsCapped(Configured(c.threshold, c.openMs, n, Kind(s.h, now)), n);
  }

  // That wait keeps every later attempt out, in any interleaving without a reset.
  lemma FailureKeepsAttemptsOut(c: Config, es: seq<Event>, a: nat, now: i64, later: seq<Event>, i: nat)
    requires
      var s := Run(c, INIT, es);
      a in s.live && s.clock <= now && Matches(s.h, s.live[a])
    requires i < |later| && forall j | 0 <= j < i :: !later[j].ResetCircuit?
    requires Granted(Run(c, Step(c, Run(c, INIT, es), Failure(a, now)), later[..i]), later[i])
    ensures
      var h' := Step(c, Run(c, INIT, es), Failure(a, now)).h;
      h'.openUntil.Some? && later[i].now >= h'.openUntil.value
  {
    RunKeepsInv(c, INIT, es);
    var s := Run(c, INIT, es);
    var s' := Step(c, s, Failure(a, now));
    StepKeepsInv(c, s, Failure(a, now));
    assert s'.h.openUntil.Some?;
    RunWaits(c, s', later, s'.h.openUntil.value, i);
  }

  // A deferral stores the later of its time and a wait already there, and no earlier than 0; no token
  // handed out so far is current any more.
  lemma DeferralStores(c: Config, es: seq<Event>, until: i64, now: i64)
    requires Run(c, INIT, es).clock <= now
    ensures
      var h := Run(c, INIT, es).h;
      var h' := Step(c, Run(c, INIT, es), DeferCircuit(until, now)).h;
      && h'.generation > h.generation && h'.probeOwner == None
      && h'.consecutiveFailures == h.consecutiveFailures && h'.openUntil.Some?
      && h'.openUntil.value in {until, if h.openUntil.Some? then h.openUntil.value else 0}
      && h'.openUntil.value >= until && (h.openUntil.Some? ==> h'.openUntil.value >= h.openUntil.value)
      && (h.openUntil.None? ==> h'.openUntil.value >= 0)
  {
  }

  // The same for a deferral, which never shortens a wait already stored.
  lemma DeferralKeepsAttemptsOut(c: Config, es: seq<Event>, until: i64, now: i64, later: seq<Event>, i: nat)
    requires Run(c, INIT, es).clock <= now
    requires i < |later| && forall j | 0 <= j < i :: !later[j].ResetCircuit?
    requires Granted(Run(c, Step(c, Run(c, INIT, es), DeferCircuit(until, now)), later[..i]), later[i])
    ensures
      var h := Run(c, INIT, es).h;
      later[i].now >= until && (h.openUntil.Some? ==> later[i].now >= h.openUntil.value)
  {
    RunKeepsInv(c, INIT, es);
    var s := Run(c, INIT, es);
    var s' := Step(c, s, DeferCircuit(until, now));
    StepKeepsInv(c, s, DeferCircuit(until, now));
    RunWaits(c, s', later, s'.h.openUntil.value, i);
  }

  // ---------- What closes the breaker ----------

  // A current failure or a deferral: what can set a wait.
  predicate Shuts(s: State, e: Event) {
    Enabled(s, e) && (e.DeferCircuit? || (e.Failure? && Matches(s.h, s.live[e.attempt])))
  }

  lemma NotShut(c: Config, s: State, e: Event)
    requires s.h.openUntil.None? && !Shuts(s, e)
    ensures Step(c, s, e).h.openUntil.None?
    ensures e.BeginAttempt? && Enabled(s, e) ==> e.attempt in Step(c, s, e).live
  {
  }

  // Every attempt that asks while a breaker without a wait is not shut again is admitted, however
  // many are outstanding.
  lemma {:induction false} AdmitsAll(c: Config, s: State, later: seq<Event>, i: nat)
    requires s.h.openUntil.None? && i < |later| && later[i].BeginAttempt? && Enabled(Run(c, s, later[..i]), later[i])
    requires forall j | 0 <= j < i :: !Shuts(Run(c, s, later[..j]), later[j])
    ensures later[i].attempt in Step(c, Run(c, s, later[..i]), later[i]).live
    decreases i
  {
    assert later[..0] == [];
    NotShut(c, s, later[0]);
    hide Step, Enabled, Shuts;
    if i > 0 {
      var s', rest := Step(c, s, later[0]), later[1..];
      forall j | 0 <= j < i ensures Run(c, s', rest[..j]) == Run(c, s, later[..j + 1]) {
        assert later[..j + 1][0] == later[0] && later[..j + 1][1..] == rest[..j];
      }
      AdmitsAll(c, s', rest, i - 1);
    }
  }

  // A success on a current token ends the wait and the count of failures, whatever is outstanding,
  // and a probe's makes every token handed out so far stale. From then on every attempt is admitted
  // until a current failure or a deferral.
  lemma SuccessCloses(c: Config, es: seq<Event>, a: nat, now: i64, later: seq<Event>, i: nat)
    requires
      var s := Run(c, INIT, es);
      a in s.live && s.clock <= now && Matches(s.h, s.live[a])
    ensures
      var s := Run(c, INIT, es);
      var s' := Step(c, s, Success(a, now));
      && s'.h.openUntil == None && s'.h.consecutiveFailures == 0 && s'.h.probeOwner == None
      && s'.h.generation == s.h.generation + (if s.live[a].probe.Some? then 1 else 0)
      && (s.live[a].probe.Some? ==> forall b | b in s'.live :: !Matches(s'.h, s'.live[b]))
      && (i < |later| && later[i].BeginAttempt? && Enabled(Run(c, s', later[..i]), later[i])
          && (forall j | 0 <= j < i :: !Shuts(Run(c, s', later[..j]), later[j])) ==>
            later[i].attempt in Step(c, Run(c, s', later[..i]), later[i]).live)
  {
    RunKeepsInv(c, INIT, es);
    var s' := Step(c, Run(c, INIT, es), Success(a, now));
    hide Shuts;
    if i < |later| && later[i].BeginAttempt? && Enabled(Run(c, s', later[..i]), later[i])
       && forall j | 0 <= j < i :: !Shuts(Run(c, s', later[..j]), later[j]) {
      AdmitsAll(c, s', later, i);
    }
  }

  // The same after an operator's reset, which makes every token handed out so far stale.
  lemma ResetCloses(c: Config, es: seq<Event>, now: i64, later: seq<Event>, i: nat)
    requires Run(c, INIT, es).clock <= now
    ensures
      var s := Run(c, INIT, es);
      var s' := Step(c, s, ResetCircuit(now));
      && s'.h.openUntil == None && s'.h.consecutiveFailures == 0 && s'.h.probeOwner == None
      && s'.h.generation > s.h.generation && (forall b | b in s'.live :: !Matches(s'.h, s'.live[b]))
      && (i < |later| && later[i].BeginAttempt? && Enabled(Run(c, s', later[..i]), later[i])
          && (forall j | 0 <= j < i :: !Shuts(Run(c, s', later[..j]), later[j])) ==>
            later[i].attempt in Step(c, Run(c, s', later[..i]), later[i]).live)
  {
    RunKeepsInv(c, INIT, es);
    var s' := Step(c, Run(c, INIT, es), ResetCircuit(now));
    hide Shuts;
    if i < |later| && later[i].BeginAttempt? && Enabled(Run(c, s', later[..i]), later[i])
       && forall j | 0 <= j < i :: !Shuts(Run(c, s', later[..j]), later[j]) {
      AdmitsAll(c, s', later, i);
    }
  }

  // How many results of one kind a run of events reports for living attempts.
  function Reported(c: Config, s: State, es: seq<Event>, succeeded: bool): nat
    decreases |es|
  {
    if es == [] then 0
    else
      var reports := Enabled(s, es[0]) && if succeeded then es[0].Success? else es[0].Failure?;
      (if reports then 1 else 0) + Reported(c, Step(c, s, es[0]), es[1..], succeeded)
  }

  // Every result reported is counted once, on a current token or a stale one, and nothing else is.
  lemma {:induction false} TotalsCount(c: Config, s: State, es: seq<Event>)
    ensures Run(c, s, es).h.successes == s.h.successes + Reported(c, s, es, true)
    ensures Run(c, s, es).h.failures == s.h.failures + Reported(c, s, es, false)
    decreases |es|
  {
    if es != [] {
      TotalsCount(c, Step(c, s, es[0]), es[1..]);
    }
  }

  // ---------- Failure after failure ----------

  // A result that closes the breaker or an operator's reset.
  predicate Forgives(s: State, e: Event) {
    && Enabled(s, e)
    && (e.ResetCircuit? || (e.Success? && Matches(s.h, s.live[e.attempt])))
  }

  ghost predicate Unforgiven(c: Config, s: State, es: seq<Event>) {
    forall i | 0 <= i < |es| :: !Forgives(Run(c, s, es[..i]), es[i])
  }

  // A current failure is being reported.
  predicate Fails(s: State, a: nat, now: i64) {
    a in s.live && s.clock <= now && Matches(s.h, s.live[a])
  }

  lemma {:induction false} FailuresAddUp(c: Config, s: State, es: seq<Event>)
    requires s.h.openUntil.Some? && Unforgiven(c, s, es)
    ensures Run(c, s, es).h.openUntil.Some?
    ensures Run(c, s, es).h.consecutiveFailures >= s.h.consecutiveFailures
    decreases |es|
  {
    if es != [] {
      assert es[..0] == [] && !Forgives(Run(c, s, es[..0]), es[0]);
      var s' := Step(c, s, es[0]);
      NoForgiveness(c, s, es[0]);
      hide Step;
      forall i | 0 <= i < |es[1..]| ensures !Forgives(Run(c, s', es[1..][..i]), es[1..][i]) {
        assert es[..i + 1][0] == es[0] && es[..i + 1][1..] == es[1..][..i];
        assert !Forgives(Run(c, s, es[..i + 1]), es[i + 1]);
      }
      FailuresAddUp(c, s', es[1..]);
    }
  }

  lemma NoForgiveness(c: Config, s: State, e: Event)
    requires s.h.openUntil.Some? && !Forgives(s, e)
    ensures Step(c, s, e).h.openUntil.Some?
    ensures Step(c, s, e).h.consecutiveFailures >= s.h.consecutiveFailures
  {
  }

  // In every run, of two failures on current tokens with no success on a current token and no reset
  // between them the later starts the longer wait or an equal one: the count of failures grows, and
  // the configured duration, once it applies, goes on applying.
  lemma WaitsNeverShorten(c: Config, es: seq<Event>, a: nat, now: i64, later: seq<Event>, b: nat, now': i64)
    requires c.openMs >= 0 && Fails(Run(c, INIT, es), a, now)
    requires
      var s := Step(c, Run(c, INIT, es), Failure(a, now));
      Unforgiven(c, s, later) && Fails(Run(c, s, later), b, now')
    ensures
      var s := Run(c, INIT, es);
      var t := Run(c, Step(c, s, Failure(a, now)), later);
      var first, second := Wait(s.h, now, c.threshold, c.openMs), Wait(t.h, now', c.threshold, c.openMs);
      && Step(c, s, Failure(a, now)).h.openUntil == Some(SatAdd(now, first))
      && Step(c, t, Failure(b, now')).h.openUntil == Some(SatAdd(now', second))
      && t.h.consecutiveFailures > s.h.consecutiveFailures && second >= first
  {
    RunKeepsInv(c, INIT, es);
    hide Step, Run, Inv, Fails, Unforgiven, Wait;
    var s := Run(c, INIT, es);
    var s' := Step(c, s, Failure(a, now));
    StepKeepsInv(c, s, Failure(a, now));
    FailureStores(c, s, a, now);
    FailuresAddUp(c, s', later);
    RunKeepsInv(c, s', later);
    var t := Run(c, s', later);
    FailureStores(c, t, b, now');
    CurrentIsProbe(t, b, now');
    WaitGrows(c, s.h, now, t.h, now');
  }

  lemma FailureStores(c: Config, s: State, a: nat, now: i64)
    requires Fails(s, a, now)
    ensures
      var h := Step(c, s, Failure(a, now)).h;
      && h.openUntil == Some(SatAdd(now, Wait(s.h, now, c.threshold, c.openMs)))
      && h.consecutiveFailures == s.h.consecutiveFailures + 1
  {
    hide Wait;
  }

  lemma CurrentIsProbe(s: State, a: nat, now: i64)
    requires Inv(s) && Fails(s, a, now) && s.h.openUntil.Some?
    ensures Kind(s.h, now) == HalfOpen
  {
  }

  lemma WaitGrows(c: Config, h: HealthState, now: i64, h': HealthState, now': i64)
    requires c.openMs >= 0 && Kind(h', now') == HalfOpen && h.consecutiveFailures < h'.consecutiveFailures
    ensures Wait(h, now, c.threshold, c.openMs) <= Wait(h', now', c.threshold, c.openMs)
  {
    hide CooldownMs;
    var n, m := h.consecutiveFailures + 1, h'.consecutiveFailures + 1;
    CooldownMonotone(Configured(c.threshold, c.openMs, n, Kind(h, now)), c.openMs, n, m);
  }
}
