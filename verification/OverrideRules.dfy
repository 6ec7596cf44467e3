/** Validating a list of body overrides, applying it to a request, and what the two together promise. */
module OverrideRules {
  import opened Wrappers
  import opened JsonTree
  import opened RequestOverrides

  // ---------- Validation ----------

  function LowerAscii(s: string): string {
    if s == [] then []
    else [if 'A' <= s[0] <= 'Z' then (s[0] as int + 32) as char else s[0]] + LowerAscii(s[1..])
  }

  predicate ReservedRoot(name: string) {
    LowerAscii(name) in {"model", "stream", "type"}
  }

  datatype RuleError = ConfigTooLong | TooManyRules | BadPath(error: PathError) | Managed | ValueTooLong | Duplicate

  function PathOf(r: Rule): Path
    requires Segments(r.path).Ok?
  {
    Segments(r.path).value
  }

  // One acceptable rule; `encodedLen` is the length of a value's encoding.
  predicate RuleOk(r: Rule, encodedLen: Json -> nat) {
    && Segments(r.path).Ok?
    && !ReservedRoot(PathOf(r)[0])
    && (r.operation == Set ==> encodedLen(r.value) <= MAX_BODY_VALUE_BYTES)
  }

  ghost predicate AllOk(rules: seq<Rule>, encodedLen: Json -> nat) {
    forall r | r in rules :: RuleOk(r, encodedLen)
  }

  // No two rules of one scope share a path.
  ghost predicate PathsDistinct(rules: seq<Rule>) {
    forall i, j | 0 <= i < j < |rules| && rules[i].scope == rules[j].scope ::
      Segments(rules[i].path) != Segments(rules[j].path)
  }

  predicate DotFree(s: string) {
    '.' !in s
  }

  predicate DotFreePath(p: Path) {
    forall i :: 0 <= i < |p| ==> DotFree(p[i])
  }

  lemma {:induction false} SplitIsDotFree(s: string)
    ensures DotFreePath(Split(s))
    decreases |s|
  {
    if s != [] {
      SplitIsDotFree(s[1..]);
    }
  }

  lemma TrimShortens(s: string)
    ensures forall c | c in Trim(s) :: c in s
  {
    TrimLeftShortens(s);
    TrimRightShortens(TrimLeft(s));
  }

  lemma {:induction false} TrimLeftShortens(s: string)
    ensures forall c | c in TrimLeft(s) :: c in s
    decreases |s|
  {
    if s != [] && IsWhite(s[0]) {
      TrimLeftShortens(s[1..]);
    }
  }

  lemma {:induction false} TrimRightShortens(s: string)
    ensures forall c | c in TrimRight(s) :: c in s
    decreases |s|
  {
    if s != [] && IsWhite(s[|s| - 1]) {
      TrimRightShortens(s[..|s| - 1]);
    }
  }

  lemma SegmentsAreDotFree(path: string)
    requires Segments(path).Ok?
    ensures Segments(path).value != [] && DotFreePath(Segments(path).value)
  {
    var parts := Split(Trim(path));
    SplitIsDotFree(Trim(path));
    forall i | 0 <= i < |parts| ensures DotFree(Trim(parts[i])) {
      TrimShortens(parts[i]);
    }
  }

  lemma {:induction false} SplitPrefix(a: string, s: string)
    requires DotFree(a)
    ensures Split(a + s) == [a + Split(s)[0]] + Split(s)[1..]
    decreases |a|
  {
    if a == [] {
      assert a + s == s && a + Split(s)[0] == Split(s)[0];
    } else {
      assert (a + s)[1..] == a[1..] + s;
      SplitPrefix(a[1..], s);
      assert [a[0]] + (a[1..] + Split(s)[0]) == a + Split(s)[0];
    }
  }

  // Splitting undoes joining, so joined paths are equal exactly when the paths are.
  lemma {:induction false} SplitUndoesJoin(p: Path)
    requires p != [] && DotFreePath(p)
    ensures Split(Join(p)) == p
    decreases |p|
  {
    if |p| == 1 {
      SplitPrefix(p[0], "");
      assert p[0] + "" == p[0] && p == [p[0]];
    } else {
      var rest := Join(p[1..]);
      SplitUndoesJoin(p[1..]);
      assert p[0] + "." + rest == p[0] + ("." + rest);
      SplitPrefix(p[0], "." + rest);
      assert ("." + rest)[1..] == rest;
      assert Split("." + rest) == [""] + p[1..];
      assert p[0] + "" == p[0] && p == [p[0]] + p[1..];
    }
  }

  // What the duplicate check compares.
  function Canonical(r: Rule): (Scope, string) {
    (r.scope, match Segments(r.path) { case Ok(p) => Join(p) case Err(_) => "" })
  }

  lemma CanonicalIsExact(a: Rule, b: Rule)
    requires Segments(a.path).Ok? && Segments(b.path).Ok?
    ensures Canonical(a) == Canonical(b) <==> a.scope == b.scope && Segments(a.path) == Segments(b.path)
  {
    SegmentsAreDotFree(a.path);
    SegmentsAreDotFree(b.path);
    SplitUndoesJoin(PathOf(a));
    SplitUndoesJoin(PathOf(b));
  }

  method CheckRule(rule: Rule, encodedLen: Json -> nat) returns (r: Result<(Scope, string), RuleError>)
    ensures r.Ok? <==> RuleOk(rule, encodedLen)
    ensures r.Ok? ==> r.value == Canonical(rule)
  {
    hide Segments, Join;
    var segments := BodyPathSegments(rule.path);
    if segments.Err? {
      return Err(BadPath(segments.error));
    }
    if ReservedRoot(segments.value[0]) {
      return Err(Managed);
    }
    if rule.operation == Set && encodedLen(rule.value) > MAX_BODY_VALUE_BYTES {
      return Err(ValueTooLong);
    }
    return Ok((rule.scope, Join(segments.value)));
  }

  // `configLen` is the length of the whole configuration's encoding.
  method ValidateBodyOverrides(rules: seq<Rule>, configLen: nat, encodedLen: Json -> nat)
    returns (r: Result<(), RuleError>)
    ensures r.Ok? <==>
      configLen <= MAX_CONFIG_BYTES && |rules| <= MAX_BODY_OVERRIDES
      && AllOk(rules, encodedLen) && PathsDistinct(rules)
  {
    hide RuleOk, Canonical, PathsDistinct;
    if configLen > MAX_CONFIG_BYTES {
      return Err(ConfigTooLong);
    }
    if |rules| > MAX_BODY_OVERRIDES {
      return Err(TooManyRules);
    }
    var seen: set<(Scope, string)> := {};
    NothingClashes();
    assert rules[..0] == [];
    for i := 0 to |rules|
      invariant forall j | 0 <= j < i :: RuleOk(rules[j], encodedLen)
      invariant PathsDistinct(rules[..i])
      invariant forall c :: c in seen <==> exists j :: 0 <= j < i && Canonical(rules[j]) == c
    {
      var canonical := CheckRule(rules[i], encodedLen);
      if canonical.Err? {
        assert rules[i] in rules;
        return Err(canonical.error);
      }
      PathsDistinctUpTo(rules, encodedLen, i);
      if canonical.value in seen {
        return Err(Duplicate);
      }
      seen := seen + {canonical.value};
    }
    assert rules[..|rules|] == rules;
    return Ok(());
  }

  lemma NothingClashes()
    ensures PathsDistinct([])
  {
  }

  // One more rule keeps the paths distinct exactly when its canonical path is new, and what is
  // wrong with some of the rules is wrong with all of them.
  lemma PathsDistinctUpTo(rules: seq<Rule>, encodedLen: Json -> nat, i: nat)
    requires i < |rules| && forall j | 0 <= j <= i :: RuleOk(rules[j], encodedLen)
    requires PathsDistinct(rules[..i])
    ensures
      var unseen := forall j | 0 <= j < i :: Canonical(rules[j]) != Canonical(rules[i]);
      (unseen ==> PathsDistinct(rules[..i + 1])) && (!unseen ==> !PathsDistinct(rules))
  {
    hide Segments, Canonical, ReservedRoot;
    forall j | 0 <= j < i {
      CanonicalIsExact(rules[j], rules[i]);
    }
    var t := rules[..i + 1];
    forall j, k | 0 <= j < k < |t| && t[j].scope == t[k].scope && Canonical(t[j]) != Canonical(t[k])
      ensures Segments(t[j].path) != Segments(t[k].path)
    {
      CanonicalIsExact(t[j], t[k]);
    }
    forall j, k | 0 <= j < k < i && t[j].scope == t[k].scope ensures Segments(t[j].path) != Segments(t[k].path) {
      assert rules[..i][j] == t[j] && rules[..i][k] == t[k];
    }
  }

  // ---------- Applying ----------

  function Select(rules: seq<Rule>, scope: Scope): seq<Rule> {
    if rules == [] then []
    else if rules[0].scope == scope then [rules[0]] + Select(rules[1..], scope)
    else Select(rules[1..], scope)
  }

  // The rules a request meets, in order: those for all requests, then those for its kind.
  function Applied(rules: seq<Rule>, target: RequestTarget): seq<Rule> {
    Select(rules, All) + match TargetScope(target) { case None => [] case Some(s) => Select(rules, s) }
  }

  datatype ApplyError = InvalidPath(path: PathError) | BodyNotObject

  function EditOf(r: Rule, requestId: string): Edit
    requires Segments(r.path).Ok?
  {
    Edit(PathOf(r), if r.operation == Set then Some(ExpandValue(r.value, requestId)) else None)
  }

  function ApplyRule(v: Json, r: Rule, requestId: string): Result<Json, ApplyError> {
    match Segments(r.path)
    case Err(e) => Err(InvalidPath(e))
    case Ok(_) =>
      if v.Obj? then Ok(Obj(EditIn(v.members, EditOf(r, requestId))))
      else if r.operation == Set then Err(BodyNotObject) else Ok(v)
  }

  function ApplyRules(v: Json, rs: seq<Rule>, requestId: string): Result<Json, ApplyError>
    decreases |rs|
  {
    if rs == [] then Ok(v)
    else
      match ApplyRule(v, rs[0], requestId)
      case Err(e) => Err(e)
      case Ok(w) => ApplyRules(w, rs[1..], requestId)
  }

  method ApplyOneRule(v: Json, rule: Rule, requestId: string) returns (r: Result<Json, ApplyError>)
    ensures r == ApplyRule(v, rule, requestId)
  {
    var segments := BodyPathSegments(rule.path);
    if segments.Err? {
      return Err(InvalidPath(segments.error));
    }
    if rule.operation == Set {
      var changed := SetBodyPath(v, segments.value, ExpandValue(rule.value, requestId));
      return match changed case Ok(w) => Ok(w) case Err(_) => Err(BodyNotObject);
    }
    return Ok(if v.Obj? then Obj(RemoveIn(v.members, segments.value)) else v);
  }

  lemma {:induction false} ApplyRulesConcat(v: Json, a: seq<Rule>, b: seq<Rule>, requestId: string)
    ensures ApplyRules(v, a + b, requestId) ==
      match ApplyRules(v, a, requestId) { case Err(e) => Err(e) case Ok(w) => ApplyRules(w, b, requestId) }
    decreases |a|
  {
    if a == [] {
      assert a + b == b;
    } else {
      assert (a + b)[1..] == a[1..] + b;
      var w := ApplyRule(v, a[0], requestId);
      if w.Ok? {
        ApplyRulesConcat(w.value, a[1..], b, requestId);
      }
    }
  }

  lemma {:induction false} SelectLast(rules: seq<Rule>, rule: Rule, scope: Scope)
    ensures Select(rules + [rule], scope) == Select(rules, scope) + (if rule.scope == scope then [rule] else [])
    decreases |rules|
  {
    if rules == [] {
      assert [] + [rule] == [rule];
    } else {
      assert (rules + [rule])[1..] == rules[1..] + [rule];
      SelectLast(rules[1..], rule, scope);
    }
  }

  lemma ApplyNext(v: Json, rules: seq<Rule>, i: nat, scope: Scope, requestId: string, current: Json)
    requires i < |rules| && ApplyRules(v, Select(rules[..i], scope), requestId) == Ok(current)
    ensures ApplyRules(v, Select(rules[..i + 1], scope), requestId) ==
      if rules[i].scope == scope then ApplyRule(current, rules[i], requestId) else Ok(current)
  {
    hide ApplyRule, Select;
    assert rules[..i + 1] == rules[..i] + [rules[i]];
    SelectLast(rules[..i], rules[i], scope);
    if rules[i].scope == scope {
      ApplyRulesConcat(v, Select(rules[..i], scope), [rules[i]], requestId);
    } else {
      assert Select(rules[..i], scope) + [] == Select(rules[..i], scope);
    }
  }

  lemma ApplyStops(v: Json, rules: seq<Rule>, i: nat, scope: Scope, requestId: string)
    requires i <= |rules| && ApplyRules(v, Select(rules[..i], scope), requestId).Err?
    ensures ApplyRules(v, Select(rules, scope), requestId) == ApplyRules(v, Select(rules[..i], scope), requestId)
  {
    hide ApplyRules, Select;
    SelectConcat(rules[..i], rules[i..], scope);
    assert rules[..i] + rules[i..] == rules;
    ApplyRulesConcat(v, Select(rules[..i], scope), Select(rules[i..], scope), requestId);
  }

  method ApplyScope(v: Json, rules: seq<Rule>, scope: Scope, requestId: string) returns (r: Result<Json, ApplyError>)
    ensures r == ApplyRules(v, Select(rules, scope), requestId)
  {
    hide ApplyRule, ApplyRules, Select;
    var current := v;
    NothingSelected(v, scope, requestId);
    assert rules[..0] == [];
    for i := 0 to |rules|
      invariant ApplyRules(v, Select(rules[..i], scope), requestId) == Ok(current)
    {
      ApplyNext(v, rules, i, scope, requestId, current);
      if rules[i].scope == scope {
        var next := ApplyOneRule(current, rules[i], requestId);
        if next.Err? {
          ApplyStops(v, rules, i + 1, scope, requestId);
          return next;
        }
        current := next.value;
      }
    }
    assert rules[..|rules|] == rules;
    return Ok(current);
  }

  lemma NothingSelected(v: Json, scope: Scope, requestId: string)
    ensures ApplyRules(v, Select([], scope), requestId) == Ok(v)
  {
  }

  lemma {:induction false} SelectConcat(a: seq<Rule>, b: seq<Rule>, scope: Scope)
    ensures Select(a + b, scope) == Select(a, scope) + Select(b, scope)
    decreases |a|
  {
    if a == [] {
      assert a + b == b;
    } else {
      assert (a + b)[1..] == a[1..] + b;
      SelectConcat(a[1..], b, scope);
    }
  }

  method ApplyBodyOverridesToValue(rules: seq<Rule>, target: RequestTarget, v: Json, requestId: string)
    returns (r: Result<Json, ApplyError>)
    ensures r == ApplyRules(v, Applied(rules, target), requestId)
  {
    var scope := TargetScope(target);
    ApplyRulesConcat(v, Select(rules, All), if scope.Some? then Select(rules, scope.value) else [], requestId);
    r := ApplyScope(v, rules, All, requestId);
    if r.Err? || scope.None? {
      return;
    }
    r := ApplyScope(r.value, rules, scope.value, requestId);
  }

  // ---------- What applying promises ----------

  lemma {:induction false} SelectSubset(rules: seq<Rule>, scope: Scope)
    ensures forall r | r in Select(rules, scope) :: r in rules && r.scope == scope
    decreases |rules|
  {
    if rules != [] {
      SelectSubset(rules[1..], scope);
    }
  }

  ghost predicate PathsOk(rs: seq<Rule>) {
    forall r | r in rs :: Segments(r.path).Ok?
  }

  // Rules with valid paths never fail on an object; on any other body the first Set rule does, and
  // removals alone change nothing.
  lemma {:induction false} FailsExactly(v: Json, rs: seq<Rule>, requestId: string)
    requires PathsOk(rs)
    ensures ApplyRules(v, rs, requestId).Err? <==> !v.Obj? && exists r :: r in rs && r.operation == Set
    ensures v.Obj? ==> ApplyRules(v, rs, requestId).value.Obj?
    ensures !v.Obj? && ApplyRules(v, rs, requestId).Ok? ==> ApplyRules(v, rs, requestId) == Ok(v)
    decreases |rs|
  {
    if rs != [] {
      var w := ApplyRule(v, rs[0], requestId);
      if w.Ok? {
        FailsExactly(w.value, rs[1..], requestId);
        assert forall r :: r in rs <==> r == rs[0] || r in rs[1..];
      } else {
        assert rs[0] in rs;
      }
    }
  }

  // A path that no applied rule's path is above or below keeps its value.
  lemma {:induction false} UnrelatedPathsUntouched(v: Json, rs: seq<Rule>, requestId: string, q: Path)
    requires v.Obj? && PathsOk(rs)
    requires forall r | r in rs :: !Comparable(PathOf(r), q)
    ensures ApplyRules(v, rs, requestId).Ok?
    ensures Get(ApplyRules(v, rs, requestId).value, q) == Get(v, q)
    decreases |rs|
  {
    if rs != [] {
      SegmentsAreDotFree(rs[0].path);
      EditGets(v.members, EditOf(rs[0], requestId), q);
      UnrelatedPathsUntouched(ApplyRule(v, rs[0], requestId).value, rs[1..], requestId, q);
    }
  }

  // The last rule to speak about a path decides what is there.
  lemma LastRuleDecides(v: Json, rs: seq<Rule>, requestId: string, i: nat)
    requires v.Obj? && PathsOk(rs) && i < |rs|
    requires forall j | i < j < |rs| :: !Comparable(PathOf(rs[j]), PathOf(rs[i]))
    ensures ApplyRules(v, rs, requestId).Ok?
    ensures Get(ApplyRules(v, rs, requestId).value, PathOf(rs[i])) == EditOf(rs[i], requestId).value
  {
    hide Segments, ExpandValue, EditIn, Comparable, Applied, Select;
    var q := PathOf(rs[i]);
    assert rs[i] in rs && forall r | r in rs[..i] || r in rs[i + 1..] :: r in rs;
    assert rs == rs[..i] + ([rs[i]] + rs[i + 1..]);
    ApplyRulesConcat(v, rs[..i], [rs[i]] + rs[i + 1..], requestId);
    FailsExactly(v, rs[..i], requestId);
    var u := ApplyRules(v, rs[..i], requestId).value;
    var w := ApplyRule(u, rs[i], requestId).value;
    assert ([rs[i]] + rs[i + 1..])[1..] == rs[i + 1..];
    SegmentsAreDotFree(rs[i].path);
    EditGets(u.members, EditOf(rs[i], requestId), q);
    assert q[|q|..] == [];
    UnrelatedPathsUntouched(w, rs[i + 1..], requestId, q);
  }

  // Validated overrides never fail on an object body, and leave the gateway's own members, however
  // they are capitalised, and everything below them alone.
  lemma ValidatedOverridesAreSafe(rules: seq<Rule>, encodedLen: Json -> nat, target: RequestTarget, v: Json,
                                  requestId: string, q: Path)
    requires AllOk(rules, encodedLen) && v.Obj? && q != [] && ReservedRoot(q[0])
    ensures ApplyRules(v, Applied(rules, target), requestId).Ok?
    ensures Get(ApplyRules(v, Applied(rules, target), requestId).value, q) == Get(v, q)
  {
    var rs := Applied(rules, target);
    SelectSubset(rules, All);
    SelectSubset(rules, ChatCompletions);
    SelectSubset(rules, Responses);
    forall r | r in rs ensures Segments(r.path).Ok? && !Comparable(PathOf(r), q) {
      assert RuleOk(r, encodedLen);
      SegmentsAreDotFree(r.path);
    }
    UnrelatedPathsUntouched(v, rs, requestId, q);
  }

  // A stored list that holds the rules `a` for all requests and `b` for one scope, each in its own
  // order, among rules for other scopes.
  ghost predicate Interleaves(a: seq<Rule>, b: seq<Rule>, scope: Scope, stored: seq<Rule>) {
    if stored == [] then a == [] && b == []
    else
      || (a != [] && stored[0] == a[0] && Interleaves(a[1..], b, scope, stored[1..]))
      || (b != [] && stored[0] == b[0] && Interleaves(a, b[1..], scope, stored[1..]))
      || (stored[0].scope != All && stored[0].scope != scope && Interleaves(a, b, scope, stored[1..]))
  }

  lemma {:induction false} SelectInterleaved(a: seq<Rule>, b: seq<Rule>, scope: Scope, stored: seq<Rule>)
    requires scope != All && (forall r | r in a :: r.scope == All) && (forall r | r in b :: r.scope == scope)
    requires Interleaves(a, b, scope, stored)
    ensures Select(stored, All) == a && Select(stored, scope) == b
    decreases |stored|
  {
    if stored != [] {
      if a != [] && stored[0] == a[0] && Interleaves(a[1..], b, scope, stored[1..]) {
        SelectInterleaved(a[1..], b, scope, stored[1..]);
        assert a[0] in a && a == [a[0]] + a[1..];
      } else if b != [] && stored[0] == b[0] && Interleaves(a, b[1..], scope, stored[1..]) {
        SelectInterleaved(a, b[1..], scope, stored[1..]);
        assert b[0] in b && b == [b[0]] + b[1..];
      } else {
        SelectInterleaved(a, b, scope, stored[1..]);
      }
    }
  }

  // However the rules of the scopes are interleaved in storage, a request meets those for all
  // requests and then those for its kind.
  lemma StorageOrderIrrelevant(v: Json, a: seq<Rule>, b: seq<Rule>, stored: seq<Rule>,
                               target: RequestTarget, requestId: string)
    requires TargetScope(target).Some? && TargetScope(target).value != All
    requires (forall r | r in a :: r.scope == All) && (forall r | r in b :: r.scope == TargetScope(target).value)
    requires Interleaves(a, b, TargetScope(target).value, stored)
    ensures ApplyRules(v, Applied(stored, target), requestId) == ApplyRules(v, a + b, requestId)
  {
    hide Select, Interleaves, ApplyRules;
    SelectInterleaved(a, b, TargetScope(target).value, stored);
  }

  ghost predicate Independent(rs: seq<Rule>) {
    PathsOk(rs) && forall i, j | 0 <= i < j < |rs| :: !Comparable(PathOf(rs[i]), PathOf(rs[j]))
  }

  // A rule unrelated to all that come before it may as well come first.
  lemma {:induction false} MoveToFront(v: Json, before: seq<Rule>, r: Rule, requestId: string)
    requires v.Obj? && PathsOk(before) && Segments(r.path).Ok?
    requires forall b | b in before :: !Comparable(PathOf(b), PathOf(r))
    ensures ApplyRules(v, before + [r], requestId) == ApplyRules(v, [r] + before, requestId)
    decreases |before|
  {
    assert ([r] + before)[1..] == before;
    if before == [] {
      assert before + [r] == [r] + before;
    } else {
      var b := before[0];
      SegmentsAreDotFree(r.path);
      SegmentsAreDotFree(b.path);
      EditsCommute(v.members, EditOf(b, requestId), EditOf(r, requestId));
      assert (before + [r])[1..] == before[1..] + [r];
      MoveToFront(ApplyRule(v, b, requestId).value, before[1..], r, requestId);
      assert ([r] + before[1..])[1..] == before[1..];
    }
  }

  function Without(rs: seq<Rule>, i: nat): (r: seq<Rule>)
    requires i < |rs|
    ensures |r| == |rs| - 1
  {
    rs[..i] + rs[i + 1..]
  }

  // Pairwise unrelated rules may be applied in any order.
  lemma {:induction false} OrderIrrelevant(v: Json, rs: seq<Rule>, rs': seq<Rule>, requestId: string)
    requires v.Obj? && Independent(rs) && Independent(rs') && multiset(rs) == multiset(rs')
    ensures ApplyRules(v, rs, requestId) == ApplyRules(v, rs', requestId)
    decreases |rs|
  {
    hide *;
    if rs == [] {
      BagEmpty(rs');
    } else {
      var r := rs[0];
      var i := IndexIn(rs', rs, r);
      Shorter(rs', i);
      Shorter(rs, 0);
      BagWithout(rs', i);
      BagWithout(rs, 0);
      PickFirst(v, rs', i, requestId);
      PickFirst(v, rs, 0, requestId);
      OrderIrrelevant(ApplyRule(v, r, requestId).value, Without(rs, 0), Without(rs', i), requestId);
    }
  }

  lemma BagEmpty(rs: seq<Rule>)
    requires multiset(rs) == multiset([])
    ensures rs == []
  {
    assert |multiset(rs)| == |rs|;
  }

  lemma IndexIn(rs: seq<Rule>, other: seq<Rule>, r: Rule) returns (i: nat)
    requires multiset(rs) == multiset(other) && r in other
    ensures i < |rs| && rs[i] == r
  {
    assert r in multiset(other);
    i :| 0 <= i < |rs| && rs[i] == r;
  }

  lemma BagWithout(rs: seq<Rule>, i: nat)
    requires i < |rs|
    ensures multiset(Without(rs, i)) == multiset(rs) - multiset{rs[i]}
  {
    assert rs == rs[..i] + [rs[i]] + rs[i + 1..];
  }

  lemma PickFirst(v: Json, rs: seq<Rule>, i: nat, requestId: string)
    requires v.Obj? && Independent(rs) && i < |rs|
    ensures ApplyRule(v, rs[i], requestId).Ok? && ApplyRule(v, rs[i], requestId).value.Obj?
    ensures ApplyRules(v, rs, requestId)
         == ApplyRules(ApplyRule(v, rs[i], requestId).value, Without(rs, i), requestId)
  {
    hide Segments, ExpandValue, EditIn, Comparable;
    var r, before, after := rs[i], rs[..i], rs[i + 1..];
    assert r in rs && Independent(rs);
    assert rs == before + [r] + after;
    MoveToFront(v, before, r, requestId);
    ApplyRulesConcat(v, before + [r], after, requestId);
    ApplyRulesConcat(v, [r] + before, after, requestId);
    assert ([r] + before + after)[1..] == before + after;
  }

  lemma Shorter(rs: seq<Rule>, i: nat)
    requires i < |rs| && Independent(rs)
    ensures Independent(Without(rs, i))
  {
    var t := rs[..i] + rs[i + 1..];
    forall j | 0 <= j < |t| ensures t[j] == rs[if j < i then j else j + 1] {
    }
  }
}
