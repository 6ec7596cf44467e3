/** The retry budget one request owns across authentication replay and failover. Times are in
    milliseconds on a monotone clock; a call reads the clock when it starts and, after its pause,
    when it wakes. */
module AttemptBudget {
  import opened Resilience

  // What happens around one call: when it starts, the random part of the pause, when it wakes.
  datatype Moment = Moment(now: nat, jitter: nat, woke: nat)

  function Pause(used: nat, m: Moment): nat {
    if used == 0 then 0 else 500 * Pow2(used - 1) + m.jitter
  }

  // The pause really passes, and the jitter is one the generator can give.
  predicate Possible(used: nat, m: Moment) {
    m.jitter <= 250 && m.now + Pause(used, m) <= m.woke
  }

  datatype Budget = Budget(used: nat, deadline: nat, setupCredit: bool, sent: map<int, nat>)

  // A call is granted a counted attempt at this budget.
  predicate Grants(b: Budget, m: Moment) {
    && b.used < MAX_ATTEMPTS && m.now < b.deadline
    && (b.used > 0 ==> Pause(b.used, m) < b.deadline - m.now)
    && m.woke < b.deadline
  }

  function SentTo(b: Budget, provider: int): nat {
    if provider in b.sent then b.sent[provider] else 0
  }

  function Limit(configuredMax: int): nat {
    if configuredMax >= 1 then configuredMax else 1
  }

  function AfterBegin(b: Budget, m: Moment): Budget {
    b.(setupCredit := false, used := if Grants(b, m) then b.used + 1 else b.used)
  }

  function AfterTurn(b: Budget, m: Moment): Budget {
    if b.setupCredit then b.(setupCredit := false) else AfterBegin(b, m)
  }

  predicate TurnGrants(b: Budget, m: Moment) {
    if b.setupCredit then m.now < b.deadline else Grants(b, m)
  }

  function AfterProvider(b: Budget, provider: int, configuredMax: int, turn: bool, m: Moment): Budget {
    if turn && b.setupCredit then AfterTurn(b, m)
    else if SentTo(b, provider) < Limit(configuredMax) then AfterBegin(b, m)
    else b
  }

  predicate ProviderGrants(b: Budget, provider: int, configuredMax: int, turn: bool, m: Moment) {
    if turn && b.setupCredit then TurnGrants(b, m)
    else SentTo(b, provider) < Limit(configuredMax) && Grants(b, m)
  }

  class RetryBudget {
    var used: nat
    const deadline: nat
    var setupCredit: bool
    var sentByProvider: map<int, nat>

    constructor (start: nat, timeout: nat)
      ensures Value() == Budget(0, start + timeout, false, map[])
    {
      used, deadline, setupCredit, sentByProvider := 0, start + timeout, false, map[];
    }

    ghost function Value(): Budget
      reads this
    {
      Budget(used, deadline, setupCredit, sentByProvider)
    }

    method ProviderAvailable(provider: int, configuredMax: int) returns (r: bool)
      ensures r == (SentTo(Value(), provider) < Limit(configuredMax))
    {
      var sent := if provider in sentByProvider then sentByProvider[provider] else 0;
      r := sent < Limit(configuredMax);
    }

    method NoteSend(provider: int)
      modifies this`sentByProvider
      ensures Value() == old(Value()).(sent := old(sentByProvider)[provider := SentTo(old(Value()), provider) + 1])
    {
      var sent := if provider in sentByProvider then sentByProvider[provider] else 0;
      sentByProvider := sentByProvider[provider := sent + 1];
    }

    method CreditConnectedSetup()
      modifies this`setupCredit
      ensures Value() == old(Value()).(setupCredit := true)
    {
      setupCredit := true;
    }

    method Begin(m: Moment) returns (granted: bool)
      requires Possible(used, m)
      modifies this`used, this`setupCredit
      ensures granted == Grants(old(Value()), m)
      ensures Value() == AfterBegin(old(Value()), m)
    {
      setupCredit := false;
      if !(used < MAX_ATTEMPTS && m.now < deadline) {
        return false;
      }
      if used > 0 {
        var delay := 500 * Pow2(used - 1) + m.jitter;
        if delay >= deadline - m.now {
          return false;
        }
      }
      if m.woke >= deadline {
        return false;
      }
      used := used + 1;
      return true;
    }

    method BeginTurn(m: Moment) returns (granted: bool)
      requires Possible(used, m)
      modifies this`used, this`setupCredit
      ensures granted == TurnGrants(old(Value()), m)
      ensures Value() == AfterTurn(old(Value()), m)
    {
      if setupCredit {
        setupCredit := false;
        return m.now < deadline;
      }
      granted := Begin(m);
    }

    method BeginForProvider(provider: int, configuredMax: int, turn: bool, m: Moment) returns (granted: bool)
      requires Possible(used, m)
      modifies this`used, this`setupCredit
      ensures granted == ProviderGrants(old(Value()), provider, configuredMax, turn, m)
      ensures Value() == AfterProvider(old(Value()), provider, configuredMax, turn, m)
    {
      if turn && setupCredit {
        granted := BeginTurn(m);
        return;
      }
      var available := ProviderAvailable(provider, configuredMax);
      if !available {
        return false;
      }
      granted := Begin(m);
    }
  }

  // ---------- Every sequence of calls ----------

  datatype Call =
    | BeginCall(m: Moment)
    | TurnCall(m: Moment)
    | ProviderCall(provider: int, turn: bool, m: Moment)
    | SendCall(provider: int)
    | CreditCall

  // The budget, the clock, when the counted grants and the others were given, how many credits were
  // given, and the provider of a counted grant whose send is not yet noted.
  datatype State = State(b: Budget, clock: nat, counted: seq<nat>, uncounted: seq<nat>, credits: nat, owed: set<int>)

  // The caller's discipline: one request at a time, and each counted grant for a provider is
  // followed by one noted send before the next call.
  predicate Enabled(s: State, c: Call) {
    match c
    case BeginCall(m) => s.clock <= m.now && Possible(s.b.used, m) && s.owed == {}
    case TurnCall(m) => s.clock <= m.now && Possible(s.b.used, m) && s.owed == {}
    case ProviderCall(_, _, m) => s.clock <= m.now && Possible(s.b.used, m) && s.owed == {}
    case SendCall(p) => p in s.owed
    case CreditCall => true
  }

  function Moved(s: State, b: Budget, granted: bool, m: Moment): State {
    if b.used > s.b.used then s.(b := b, clock := m.woke, counted := s.counted + [m.woke])
    else s.(b := b, clock := m.now, uncounted := if granted then s.uncounted + [m.now] else s.uncounted)
  }

  // `limits` gives each provider its configured number of attempts.
  function Apply(limits: map<int, int>, s: State, c: Call): State {
    match c
    case BeginCall(m) => Moved(s, AfterBegin(s.b, m), Grants(s.b, m), m)
    case TurnCall(m) => Moved(s, AfterTurn(s.b, m), TurnGrants(s.b, m), m)
    case ProviderCall(p, turn, m) =>
      var limit := if p in limits then limits[p] else 0;
      var s' := Moved(s, AfterProvider(s.b, p, limit, turn, m), ProviderGrants(s.b, p, limit, turn, m), m);
      if s'.b.used > s.b.used then s'.(owed := {p}) else s'
    case SendCall(p) => s.(b := s.b.(sent := s.b.sent[p := SentTo(s.b, p) + 1]), owed := s.owed - {p})
    case CreditCall => s.(b := s.b.(setupCredit := true), credits := s.credits + 1)
  }

  function Step(limits: map<int, int>, s: State, c: Call): State {
    if Enabled(s, c) then Apply(limits, s, c) else s
  }

  function Run(limits: map<int, int>, s: State, cs: seq<Call>): State
    decreases |cs|
  {
    if cs == [] then s else Run(limits, Step(limits, s, cs[0]), cs[1..])
  }

  function Init(start: nat, timeout: nat): State {
    State(Budget(0, start + timeout, false, map[]), start, [], [], 0, {})
  }

  predicate LimitKept(limits: map<int, int>, s: State, p: int) {
    SentTo(s.b, p) + (if p in s.owed then 1 else 0) <= Limit(if p in limits then limits[p] else 0)
  }

  ghost predicate Inv(limits: map<int, int>, s: State) {
    CountsOk(s) && SendsOk(limits, s)
  }

  ghost predicate CountsOk(s: State) {
    && |s.counted| == s.b.used <= MAX_ATTEMPTS
    && (forall t | t in s.counted :: t <= s.clock && t < s.b.deadline)
    && (|s.counted| > 1 ==> s.counted[0] + 500 <= s.counted[1])
    && (|s.counted| > 2 ==> s.counted[1] + 1000 <= s.counted[2])
    && |s.uncounted| + (if s.b.setupCredit then 1 else 0) <= s.credits
    && (forall t | t in s.uncounted :: t < s.b.deadline)
  }

  ghost predicate SendsOk(limits: map<int, int>, s: State) {
    && (forall p :: LimitKept(limits, s, p))
    && (forall p | p in s.owed :: s.owed == {p})
  }

  // What one call may do to the budget: spend the credit or count one grant.
  predicate BudgetNext(b: Budget, b': Budget, granted: bool, m: Moment) {
    || (b'.used == b.used && (b'.setupCredit ==> b.setupCredit)
        && (granted ==> b.setupCredit && !b'.setupCredit && m.now < b.deadline))
    || (b'.used == b.used + 1 && Grants(b, m) && (b'.setupCredit ==> b.setupCredit))
  }

  lemma MovedCounts(s: State, b: Budget, granted: bool, m: Moment)
    requires CountsOk(s) && s.clock <= m.now && Possible(s.b.used, m)
    requires b.deadline == s.b.deadline && BudgetNext(s.b, b, granted, m)
    ensures CountsOk(Moved(s, b, granted, m))
  {
    var s' := Moved(s, b, granted, m);
    assert Pow2(0) == 1 && Pow2(1) == 2;
    assert forall i | 0 <= i < |s.counted| :: s.counted[i] in s.counted;
    assert s'.counted != s.counted ==> s'.counted[..|s.counted|] == s.counted;
    assert forall t | t in s'.uncounted :: t in s.uncounted || (granted && t == m.now);
  }

  lemma CountsStep(limits: map<int, int>, s: State, c: Call)
    requires CountsOk(s)
    ensures CountsOk(Step(limits, s, c))
  {
    if Enabled(s, c) && !c.SendCall? && !c.CreditCall? {
      hide CountsOk, Moved;
      match c
      case BeginCall(m) => MovedCounts(s, AfterBegin(s.b, m), Grants(s.b, m), m);
      case TurnCall(m) => MovedCounts(s, AfterTurn(s.b, m), TurnGrants(s.b, m), m);
      case ProviderCall(p, turn, m) =>
        var limit := if p in limits then limits[p] else 0;
        var s' := Moved(s, AfterProvider(s.b, p, limit, turn, m), ProviderGrants(s.b, p, limit, turn, m), m);
        MovedCounts(s, AfterProvider(s.b, p, limit, turn, m), ProviderGrants(s.b, p, limit, turn, m), m);
        OwedIsNotCounted(s', {p});
    }
  }

  lemma OwedIsNotCounted(s: State, owed: set<int>)
    requires CountsOk(s)
    ensures CountsOk(s.(owed := owed))
  {
  }

  lemma SendsStep(limits: map<int, int>, s: State, c: Call)
    requires SendsOk(limits, s)
    ensures SendsOk(limits, Step(limits, s, c))
  {
    hide Pow2;
    forall p ensures LimitKept(limits, Step(limits, s, c), p) {
      assert LimitKept(limits, s, p);
    }
  }

  lemma StepKeepsInv(limits: map<int, int>, s: State, c: Call)
    requires Inv(limits, s)
    ensures Inv(limits, Step(limits, s, c))
  {
    hide Step, CountsOk, SendsOk;
    CountsStep(limits, s, c);
    SendsStep(limits, s, c);
  }

  lemma {:induction false} RunKeepsInv(limits: map<int, int>, s: State, cs: seq<Call>)
    requires Inv(limits, s)
    ensures Inv(limits, Run(limits, s, cs))
    ensures Run(limits, s, cs).b.deadline == s.b.deadline
    decreases |cs|
  {
    hide Inv;
    if cs != [] {
      StepKeepsInv(limits, s, cs[0]);
      RunKeepsInv(limits, Step(limits, s, cs[0]), cs[1..]);
    }
  }

  // In every sequence of calls: three counted grants at most, the second at least 500 ms and the
  // third at least 1000 ms after the one before, no more uncounted
  // grants than setup credits, and no grant of either kind at or past the deadline.
  lemma GrantsAreBounded(limits: map<int, int>, start: nat, timeout: nat, cs: seq<Call>)
    ensures
      var s := Run(limits, Init(start, timeout), cs);
      && |s.counted| == s.b.used <= 3
      && (forall i | 0 <= i < |s.counted| :: s.counted[i] < start + timeout)
      && (forall i | 0 < i < |s.counted| :: s.counted[i] >= s.counted[i - 1] + 500 * Pow2(i - 1))
      && |s.uncounted| <= s.credits && (forall t | t in s.uncounted :: t < start + timeout)
  {
    RunKeepsInv(limits, Init(start, timeout), cs);
    var s := Run(limits, Init(start, timeout), cs);
    assert Pow2(0) == 1 && Pow2(1) == 2;
    assert forall i | 0 <= i < |s.counted| :: s.counted[i] in s.counted;
  }

  // No provider is sent to more often than its configured maximum, taken as at least one.
  lemma ProviderSendsAreBounded(limits: map<int, int>, start: nat, timeout: nat, cs: seq<Call>, p: int)
    ensures SentTo(Run(limits, Init(start, timeout), cs).b, p) <= Limit(if p in limits then limits[p] else 0)
  {
    RunKeepsInv(limits, Init(start, timeout), cs);
    assert LimitKept(limits, Run(limits, Init(start, timeout), cs), p);
  }

  // ---------- What a call is granted ----------

  // Whether one more counted attempt fits after `n`: three in all, and the pause, 500 ms before the
  // second and 1000 ms before the third beside the jitter, ends before the deadline.
  predicate Fits(n: nat, deadline: nat, m: Moment) {
    && n < 3 && m.now < deadline && m.woke < deadline
    && (n == 1 ==> m.now + 500 + m.jitter < deadline)
    && (n == 2 ==> m.now + 1000 + m.jitter < deadline)
  }

  // The state after one counted grant, or after a refusal; either ends a credit.
  predicate CountedIf(s: State, s': State, granted: bool, m: Moment) {
    && s'.counted == (if granted then s.counted + [m.woke] else s.counted) && s'.uncounted == s.uncounted
    && !s'.b.setupCredit && s'.b.sent == s.b.sent && s'.credits == s.credits
  }

  lemma FitsMeans(b: Budget, m: Moment)
    requires b.used <= 3
    ensures Grants(b, m) <==> Fits(b.used, b.deadline, m)
  {
    assert Pow2(0) == 1 && Pow2(1) == 2;
  }

  // In every sequence of calls a call for an attempt is granted exactly when one fits.
  lemma GrantedExactly(limits: map<int, int>, start: nat, timeout: nat, cs: seq<Call>, m: Moment)
    requires Enabled(Run(limits, Init(start, timeout), cs), BeginCall(m))
    ensures
      var s := Run(limits, Init(start, timeout), cs);
      CountedIf(s, Step(limits, s, BeginCall(m)), Fits(|s.counted|, start + timeout, m), m)
  {
    RunKeepsInv(limits, Init(start, timeout), cs);
    var s := Run(limits, Init(start, timeout), cs);
    FitsMeans(s.b, m);
  }

  // The call for a turn spends a credit instead, if there is one, and is then granted exactly before
  // the deadline.
  lemma TurnGrantedExactly(limits: map<int, int>, start: nat, timeout: nat, cs: seq<Call>, m: Moment)
    requires Enabled(Run(limits, Init(start, timeout), cs), TurnCall(m))
    ensures
      var s := Run(limits, Init(start, timeout), cs);
      var s' := Step(limits, s, TurnCall(m));
      if s.b.setupCredit then
        && s'.counted == s.counted && !s'.b.setupCredit && s'.b.sent == s.b.sent
        && s'.uncounted == if m.now < start + timeout then s.uncounted + [m.now] else s.uncounted
      else CountedIf(s, s', Fits(|s.counted|, start + timeout, m), m)
  {
    RunKeepsInv(limits, Init(start, timeout), cs);
    var s := Run(limits, Init(start, timeout), cs);
    FitsMeans(s.b, m);
  }

  // How many sends to a provider a sequence of calls notes.
  function Sends(limits: map<int, int>, s: State, cs: seq<Call>, p: int): nat
    decreases |cs|
  {
    if cs == [] then 0
    else
      (if Enabled(s, cs[0]) && cs[0] == SendCall(p) then 1 else 0) + Sends(limits, Step(limits, s, cs[0]), cs[1..], p)
  }

  lemma {:induction false} SendsAreCounted(limits: map<int, int>, s: State, cs: seq<Call>, p: int)
    ensures SentTo(Run(limits, s, cs).b, p) == SentTo(s.b, p) + Sends(limits, s, cs, p)
    decreases |cs|
  {
    hide Pow2, Grants;
    if cs != [] {
      SendsAreCounted(limits, Step(limits, s, cs[0]), cs[1..], p);
    }
  }

  // The call for a provider is like the others while that provider has been sent to less often than
  // its maximum, which is at least one, and else refused without spending anything; a credit for the
  // turn comes before both.
  lemma ProviderGrantedExactly(limits: map<int, int>, start: nat, timeout: nat, cs: seq<Call>, p: int, turn: bool,
                               m: Moment)
    requires Enabled(Run(limits, Init(start, timeout), cs), ProviderCall(p, turn, m))
    ensures
      var s := Run(limits, Init(start, timeout), cs);
      var s' := Step(limits, s, ProviderCall(p, turn, m));
      var most := if p in limits && limits[p] > 1 then limits[p] else 1;
      if turn && s.b.setupCredit then s' == Step(limits, s, TurnCall(m))
      else if Sends(limits, Init(start, timeout), cs, p) >= most then s' == s.(clock := m.now)
      else
        && CountedIf(s, s', Fits(|s.counted|, start + timeout, m), m)
        && (Fits(|s.counted|, start + timeout, m) ==> s'.owed == {p})
  {
    RunKeepsInv(limits, Init(start, timeout), cs);
    SendsAreCounted(limits, Init(start, timeout), cs, p);
    var s := Run(limits, Init(start, timeout), cs);
    FitsMeans(s.b, m);
    hide Pow2, Grants, Inv, Sends, Run;
  }

  // A request with time for the pauses gets its three attempts, however the jitter falls, and no
  // fourth.
  lemma ThreeAttemptsFit(limits: map<int, int>, start: nat, timeout: nat, first: nat, second: nat, m: Moment)
    requires first <= 250 && second <= 250 && timeout > 1500 + first + second
    ensures
      var cs := [BeginCall(Moment(start, 0, start)), BeginCall(Moment(start, first, start + 500 + first)),
                 BeginCall(Moment(start + 500 + first, second, start + 1500 + first + second))];
      var s := Run(limits, Init(start, timeout), cs);
      && s.counted == [start, start + 500 + first, start + 1500 + first + second]
      && Step(limits, s, BeginCall(m)).counted == s.counted
  {
    assert Pow2(0) == 1 && Pow2(1) == 2;
    var cs := [BeginCall(Moment(start, 0, start)), BeginCall(Moment(start, first, start + 500 + first)),
               BeginCall(Moment(start + 500 + first, second, start + 1500 + first + second))];
    var a := Step(limits, Init(start, timeout), cs[0]);
    assert a.b == Budget(1, start + timeout, false, map[]) && a.counted == [start];
    var b := Step(limits, a, cs[1]);
    assert b.b == Budget(2, start + timeout, false, map[]) && b.counted == [start, start + 500 + first];
    var c := Step(limits, b, cs[2]);
    assert c.b == Budget(3, start + timeout, false, map[]);
    assert cs[1..][1..] == [cs[2]] && cs[1..][1..][1..] == [];
    assert Run(limits, Init(start, timeout), cs) == Run(limits, a, cs[1..]) == Run(limits, b, cs[1..][1..]);
    assert Run(limits, b, [cs[2]]) == Run(limits, c, []) by {
      assert [cs[2]][1..] == [];
    }
  }
}
