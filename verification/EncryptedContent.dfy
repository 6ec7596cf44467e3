/** Recovery of Responses histories whose encrypted content was rejected: which items are stripped,
    how often, and the bounded book of digests known to be bad. A digest stands for the text it was
    computed from; bodies are decoded values, and a body that does not decode is `None`. */
module EncryptedContent {
  import opened Wrappers
  import opened Int64
  import opened JsonTree
  import opened Maps

  const MAX_DIGESTS_PER_SESSION: nat := 512
  const MAX_SESSIONS: nat := 1024

  // Stands for the hash of a text; equal digests mean equal texts.
  datatype Digest = Digest(text: string)

  // ---------- Items ----------

  function Member(v: Json, name: string): Option<Json> {
    if v.Obj? && name in v.members then Some(v.members[name]) else None
  }

  function Kind(item: Json): Option<string> {
    match Member(item, "type")
    case Some(Str(t)) => Some(t)
    case _ => None
  }

  predicate Supported(item: Json) {
    Kind(item) in {Some("reasoning"), Some("compaction"), Some("compaction_summary")}
  }

  function DigestOf(item: Json): Option<Digest> {
    match Member(item, "encrypted_content")
    case Some(Str(t)) => if t == "" then None else Some(Digest(t))
    case _ => None
  }

  predicate Encrypted(item: Json) {
    Supported(item) && Member(item, "encrypted_content").Some?
  }

  // Whether an item is to be cleaned: any supported encrypted one, or only those known to be bad.
  predicate Affected(item: Json, invalid: Option<set<Digest>>) {
    && Encrypted(item)
    && (invalid.Some? ==> DigestOf(item).Some? && DigestOf(item).value in invalid.value)
  }

  // A reasoning item without its ciphertext, and without a null content beside it.
  function Stripped(item: Json): Json {
    if !item.Obj? then item
    else
      var m := item.members - {"encrypted_content"};
      Obj(if "content" in m && m["content"] == Null then m - {"content"} else m)
  }

  // What is left of an affected item: a reasoning item with more than its type, or nothing.
  function Cleaned(item: Json): Option<Json> {
    if Kind(item) != Some("reasoning") then None
    else if Stripped(item).Obj? && |Stripped(item).members| <= 1 then None
    else Some(Stripped(item))
  }

  function CleanItems(items: seq<Json>, invalid: Option<set<Digest>>): seq<Json> {
    if items == [] then []
    else CleanItems(items[..|items| - 1], invalid) + CleanOne(items[|items| - 1], invalid)
  }

  function CleanOne(item: Json, invalid: Option<set<Digest>>): seq<Json> {
    if !Affected(item, invalid) then [item] else if Cleaned(item).Some? then [Cleaned(item).value] else []
  }

  function CountAffected(items: seq<Json>, invalid: Option<set<Digest>>): nat {
    if items == [] then 0
    else CountAffected(items[..|items| - 1], invalid) + if Affected(items[|items| - 1], invalid) then 1 else 0
  }

  // ---------- The body ----------

  function InputItems(v: Json): Option<seq<Json>> {
    match Member(v, "input")
    case Some(Arr(items)) => Some(items)
    case Some(Obj(m)) => Some([Obj(m)])
    case _ => None
  }

  // The input written back: a list stays a list, a lone item stays alone unless nothing is left.
  function WithInput(v: Json, items: seq<Json>): Json
    requires v.Obj? && "input" in v.members
  {
    if v.members["input"].Obj? && items != [] then Obj(v.members["input" := items[0]])
    else Obj(v.members["input" := Arr(items)])
  }

  predicate HasToolOutput(items: seq<Json>) {
    exists i :: 0 <= i < |items| && Kind(items[i]) == Some("function_call_output")
  }

  function Sanitized(v: Json, invalid: Option<set<Digest>>, websocket: bool): Option<(Json, nat)> {
    match InputItems(v)
    case None => None
    case Some(items) =>
      var count := CountAffected(items, invalid);
      if count == 0 then None
      else
        var kept := CleanItems(items, invalid);
        var w := WithInput(v, kept);
        Some((if websocket && !HasToolOutput(kept) then Obj(w.members - {"previous_response_id"}) else w, count))
  }

  method CleanItem(item: Json, invalid: Option<set<Digest>>) returns (left: Option<Json>, counted: bool)
    ensures counted == Affected(item, invalid)
    ensures left == if counted then Cleaned(item) else Some(item)
    ensures CleanOne(item, invalid) == if left.Some? then [left.value] else []
  {
    if !Supported(item) || Member(item, "encrypted_content").None? {
      return Some(item), false;
    }
    if invalid.Some? {
      var digest := DigestOf(item);
      if !(digest.Some? && digest.value in invalid.value) {
        return Some(item), false;
      }
    }
    if Kind(item) != Some("reasoning") {
      return None, true;
    }
    var m := item.members - {"encrypted_content"};
    if "content" in m && m["content"] == Null {
      m := m - {"content"};
    }
    return if |m| > 1 then Some(Obj(m)) else None, true;
  }

  method RetainItems(items: seq<Json>, invalid: Option<set<Digest>>) returns (kept: seq<Json>, count: nat)
    ensures kept == CleanItems(items, invalid) && count == CountAffected(items, invalid)
  {
    hide Affected, Cleaned, CleanOne;
    count := 0;
    kept := [];
    for i := 0 to |items|
      invariant kept == CleanItems(items[..i], invalid) && count == CountAffected(items[..i], invalid)
    {
      var left, counted := CleanItem(items[i], invalid);
      assert items[..i + 1][..i] == items[..i] && items[..i + 1][i] == items[i];
      count := count + if counted then 1 else 0;
      kept := kept + if left.Some? then [left.value] else [];
    }
    assert items[..|items|] == items;
  }

  method Sanitize(body: Option<Json>, invalid: Option<set<Digest>>, websocket: bool) returns (r: Option<(Json, nat)>)
    ensures r == if body.None? then None else Sanitized(body.value, invalid, websocket)
  {
    hide Affected, Cleaned, CleanItems, CountAffected, HasToolOutput;
    if body.None? {
      return None;
    }
    var v := body.value;
    if !v.Obj? || "input" !in v.members {
      return None;
    }
    var input := v.members["input"];
    var count, kept := 0, [];
    var members := v.members;
    if input.Arr? {
      kept, count := RetainItems(input.items, invalid);
      members := members["input" := Arr(kept)];
    } else if input.Obj? {
      var left, counted := CleanItem(input, invalid);
      LoneItem(input, invalid);
      count := if counted then 1 else 0;
      kept := if left.Some? then [left.value] else [];
      members := members["input" := if left.Some? then left.value else Arr([])];
    } else {
      return None;
    }
    if count == 0 {
      return None;
    }
    if websocket && !HasToolOutput(kept) {
      members := members - {"previous_response_id"};
    }
    return Some((Obj(members), count));
  }

  lemma LoneItem(item: Json, invalid: Option<set<Digest>>)
    ensures CleanItems([item], invalid) == CleanOne(item, invalid)
    ensures CountAffected([item], invalid) == if Affected(item, invalid) then 1 else 0
  {
    hide Affected, Cleaned, CleanOne;
    assert [item][..0] == [] && [] + CleanOne(item, invalid) == CleanOne(item, invalid);
  }

  // ---------- What sanitizing promises ----------

  lemma CleanedIsClean(item: Json)
    requires Encrypted(item) && Cleaned(item).Some?
    ensures !Encrypted(Cleaned(item).value) && Cleaned(item).value.Obj?
    ensures Kind(Cleaned(item).value) == Some("reasoning")
    ensures forall name | name != "encrypted_content" && name != "content" ::
      Member(Cleaned(item).value, name) == Member(item, name)
  {
  }

  // Item `k` of `kept` comes from item `from[k]`: untouched or, if that is affected, cleaned. The
  // origins are in order, and only affected items that clean away entirely have no successor.
  ghost predicate Cleans(items: seq<Json>, kept: seq<Json>, invalid: Option<set<Digest>>, from: seq<nat>) {
    && |from| == |kept|
    && (forall j, k :: 0 <= j < k < |from| ==> from[j] < from[k])
    && (forall k :: 0 <= k < |from| ==> from[k] < |items| && CleanOne(items[from[k]], invalid) == [kept[k]])
    && (forall i :: 0 <= i < |items| && i !in from ==> CleanOne(items[i], invalid) == [])
  }

  lemma {:induction false} CleanItemsOrigins(items: seq<Json>, invalid: Option<set<Digest>>) returns (from: seq<nat>)
    ensures Cleans(items, CleanItems(items, invalid), invalid, from)
    decreases |items|
  {
    hide Affected, Cleaned, CleanOne;
    if items == [] {
      from := [];
    } else {
      var n := |items| - 1;
      var before := CleanItemsOrigins(items[..n], invalid);
      CleanOneSize(items[n], invalid);
      CleansNext(items, CleanItems(items[..n], invalid), invalid, before);
      from := if CleanOne(items[n], invalid) == [] then before else before + [n];
    }
  }

  lemma CleansNext(items: seq<Json>, kept: seq<Json>, invalid: Option<set<Digest>>, from: seq<nat>)
    requires items != [] && Cleans(items[..|items| - 1], kept, invalid, from)
    requires |CleanOne(items[|items| - 1], invalid)| <= 1
    ensures
      var one := CleanOne(items[|items| - 1], invalid);
      Cleans(items, kept + one, invalid, if one == [] then from else from + [|items| - 1])
  {
    hide CleanOne;
    var n := |items| - 1;
    var one := CleanOne(items[n], invalid);
    var next := if one == [] then from else from + [n];
    forall k | 0 <= k < |next| ensures next[k] < |items| && CleanOne(items[next[k]], invalid) == [(kept + one)[k]] {
      if k < |from| {
        assert items[..n][from[k]] == items[from[k]];
      } else {
        assert next[k] == n && [one[0]] == one;
      }
    }
    forall i | 0 <= i < |items| && i !in next ensures CleanOne(items[i], invalid) == [] {
      if i < n {
        assert forall k | 0 <= k < |from| :: next[k] == from[k];
        assert items[..n][i] == items[i];
      } else {
        assert one != [] ==> next == from + [n];
        assert n in from + [n];
      }
    }
  }

  lemma CleanOneSize(item: Json, invalid: Option<set<Digest>>)
    ensures |CleanOne(item, invalid)| <= 1
    ensures forall x | x in CleanOne(item, invalid) :: !Affected(x, invalid) && (item.Obj? ==> x.Obj?)
    ensures !Affected(item, invalid) ==> CleanOne(item, invalid) == [item]
  {
    if Affected(item, invalid) && Cleaned(item).Some? {
      CleanedIsClean(item);
    }
  }

  lemma {:induction false} CleanItemsClean(items: seq<Json>, invalid: Option<set<Digest>>)
    ensures forall x | x in CleanItems(items, invalid) :: !Affected(x, invalid)
    decreases |items|
  {
    hide Affected, CleanOne;
    if items != [] {
      CleanOneSize(items[|items| - 1], invalid);
      CleanItemsClean(items[..|items| - 1], invalid);
    }
  }

  lemma {:induction false} NothingToCount(items: seq<Json>, invalid: Option<set<Digest>>)
    requires forall x | x in items :: !Affected(x, invalid)
    ensures CountAffected(items, invalid) == 0
    decreases |items|
  {
    hide Affected;
    if items != [] {
      assert items[|items| - 1] in items && forall x | x in items[..|items| - 1] :: x in items;
      NothingToCount(items[..|items| - 1], invalid);
    }
  }

  lemma InputWritten(v: Json, invalid: Option<set<Digest>>, websocket: bool)
    requires Sanitized(v, invalid, websocket).Some?
    ensures InputItems(Sanitized(v, invalid, websocket).value.0) == Some(CleanItems(InputItems(v).value, invalid))
  {
    hide Affected, CleanOne, CountAffected, HasToolOutput;
    var items := InputItems(v).value;
    if v.members["input"].Obj? {
      LoneItem(items[0], invalid);
      CleanOneSize(items[0], invalid);
      var kept := CleanItems(items, invalid);
      assert items == [items[0]];
      assert kept != [] ==> kept[0] in kept && kept == [kept[0]];
    }
  }

  // After a successful pass no item is left to clean, the other items are the same in the same
  // order, every other member of the body but previous_response_id is the same, and a second pass
  // finds nothing.
  lemma SanitizedIsClean(v: Json, invalid: Option<set<Digest>>, websocket: bool)
    requires Sanitized(v, invalid, websocket).Some?
    ensures
      var w := Sanitized(v, invalid, websocket).value.0;
      && InputItems(w).Some?
      && (forall item | item in InputItems(w).value :: !Affected(item, invalid))
      && (exists from :: Cleans(InputItems(v).value, InputItems(w).value, invalid, from))
      && (forall name | name != "input" && (name != "previous_response_id" || !websocket) ::
            Member(w, name) == Member(v, name))
      && (Member(w, "previous_response_id").None?
          || Member(w, "previous_response_id") == Member(v, "previous_response_id"))
      && (forall websocket' :: Sanitized(w, invalid, websocket') == None)
  {
    hide Affected, CountAffected, CleanItems, CleanOne, Cleans, HasToolOutput;
    InputWritten(v, invalid, websocket);
    var items := InputItems(v).value;
    CleanItemsClean(items, invalid);
    NothingToCount(CleanItems(items, invalid), invalid);
    var from := CleanItemsOrigins(items, invalid);
  }

  // ---------- The book of rejected digests ----------

  datatype SessionKey = SessionKey(text: string)

  datatype Session = Session(digests: seq<Digest>, lastSeen: i64)

  predicate NoDuplicates<T(==)>(s: seq<T>) {
    forall i, j :: 0 <= i < j < |s| ==> s[i] != s[j]
  }

  lemma TailDiffers<T>(s: seq<T>)
    requires s != [] && NoDuplicates(s)
    ensures NoDuplicates(s[1..]) && s[0] !in s[1..]
  {
    assert forall i | 0 <= i < |s[1..]| :: s[1..][i] == s[i + 1];
  }

  lemma ConcatDiffers<T>(s: seq<T>, t: seq<T>)
    requires NoDuplicates(s) && NoDuplicates(t) && forall x | x in t :: x !in s
    ensures NoDuplicates(s + t)
  {
    var u := s + t;
    forall i, j | 0 <= i < j < |u| ensures u[i] != u[j] {
      if i < |s| <= j {
        assert u[j] in t && u[i] in s;
      }
    }
  }

  // One more digest at the back; a full deque loses its front.
  function Pushed(digests: seq<Digest>, d: Digest): seq<Digest> {
    if d in digests then digests
    else if |digests| >= MAX_DIGESTS_PER_SESSION then digests[1..] + [d]
    else digests + [d]
  }

  lemma PushedMembers(digests: seq<Digest>, d: Digest)
    ensures d in Pushed(digests, d) && forall x | x in Pushed(digests, d) :: x in digests || x == d
  {
  }

  class RecoveryBook {
    const ttl: i64
    const maxSessions: nat
    var sessions: map<SessionKey, Session>

    ghost predicate Valid()
      reads this
    {
      && 1 <= maxSessions <= MAX_SESSIONS && |sessions| <= maxSessions
      && forall k | k in sessions ::
           |sessions[k].digests| <= MAX_DIGESTS_PER_SESSION && NoDuplicates(sessions[k].digests)
    }

    constructor (ttl: i64, maxSessions: nat)
      ensures Valid() && sessions == map[] && this.ttl == ttl
      ensures this.maxSessions == if maxSessions < 1 then 1 else if maxSessions > 1024 then 1024 else maxSessions
    {
      this.ttl := ttl;
      this.maxSessions :=
        if maxSessions < 1 then 1 else if maxSessions > MAX_SESSIONS then MAX_SESSIONS else maxSessions;
      sessions := map[];
    }

    // The digests a session has, if it was seen less than one time to live ago.
    ghost function Known(key: SessionKey, now: i64): set<Digest>
      reads this
    {
      KnownIn(sessions, ttl, key, now)
    }

    method Lookup(key: SessionKey, now: i64) returns (known: set<Digest>)
      requires Valid()
      modifies this`sessions
      ensures Valid() && known == old(Known(key, now))
      ensures LookedUp(old(sessions), sessions, key, ttl, now)
    {
      if key in sessions && SatSub(now, sessions[key].lastSeen) >= ttl {
        assert |sessions - {key}| <= |sessions| by { WithoutSize(sessions, key); }
        sessions := sessions - {key};
      }
      if key !in sessions {
        return {};
      }
      var s := sessions[key];
      assert sessions[key := s.(lastSeen := now)].Keys == sessions.Keys;
      assert |sessions[key := s.(lastSeen := now)].Keys| == |sessions.Keys|;
      sessions := sessions[key := s.(lastSeen := now)];
      return set d | d in s.digests;
    }

    // Keeps the sessions still alive, makes room by forgetting one seen longest ago, and adds the
    // digests to the session one by one, in the order the set hands them out.
    method Remember(key: SessionKey, digests: set<Digest>, now: i64)
      requires Valid()
      modifies this`sessions
      ensures Valid()
      ensures Remembered(old(sessions), sessions, key, digests, ttl, maxSessions, now)
    {
      hide NoDuplicates, Remembered;
      sessions := Record(sessions, key, digests, ttl, maxSessions, now);
    }
  }

  method Record(sessions: map<SessionKey, Session>, key: SessionKey, digests: set<Digest>,
                ttl: i64, maxSessions: nat, now: i64)
    returns (after: map<SessionKey, Session>)
    requires 1 <= maxSessions && |sessions| <= maxSessions
    requires forall k | k in sessions ::
      |sessions[k].digests| <= MAX_DIGESTS_PER_SESSION && NoDuplicates(sessions[k].digests)
    ensures Remembered(sessions, after, key, digests, ttl, maxSessions, now)
    ensures |after| <= maxSessions
    ensures forall k | k in after :: |after[k].digests| <= MAX_DIGESTS_PER_SESSION && NoDuplicates(after[k].digests)
  {
    hide NoDuplicates, Lists, PushAll, Kept, Remembered, DigestsOf;
    NothingRemembered(sessions, key, ttl, maxSessions, now);
    if digests == {} {
      return sessions;
    }
    var alive := map k | k in sessions && SatSub(now, sessions[k].lastSeen) < ttl :: sessions[k];
    SubmapSize(sessions, alive);
    assert alive == Alive(sessions, ttl, now);
    var room := MakeRoom(alive, key, maxSessions);
    var s := if key in room then room[key] else Session([], now);
    var queue := PushDigests(s.digests, digests);
    WithSize(room, key, Session(queue, now));
    after := room[key := Session(queue, now)];
    RememberedBy(sessions, alive, room, after, key, digests, ttl, maxSessions, now);
  }

  lemma NothingRemembered(sessions: map<SessionKey, Session>, key: SessionKey, ttl: i64, maxSessions: nat, now: i64)
    ensures Remembered(sessions, sessions, key, {}, ttl, maxSessions, now)
  {
  }

  lemma RememberedBy(before: map<SessionKey, Session>, alive: map<SessionKey, Session>, room: map<SessionKey, Session>,
                     after: map<SessionKey, Session>, key: SessionKey, digests: set<Digest>, ttl: i64, maxSessions: nat,
                     now: i64)
    requires digests != {} && alive == Alive(before, ttl, now)
    requires Kept(alive, key, maxSessions, room - {key})
    requires if key in alive then key in room && room[key] == alive[key] else key !in room
    requires key in after && after == room[key := after[key]] && after[key].lastSeen == now
    requires exists order ::
      Lists(order, digests) && after[key].digests == PushAll(if key in room then room[key].digests else [], order)
    ensures Remembered(before, after, key, digests, ttl, maxSessions, now)
  {
    hide Kept, Lists, PushAll, Alive;
    assert after - {key} == room - {key};
  }

  method MakeRoom(alive: map<SessionKey, Session>, key: SessionKey, maxSessions: nat)
    returns (room: map<SessionKey, Session>)
    requires 1 <= maxSessions
    requires |alive| <= maxSessions
    ensures Kept(alive, key, maxSessions, room - {key})
    ensures room.Keys <= alive.Keys && forall k | k in room :: room[k] == alive[k]
    ensures if key in alive then key in room else key !in room && |room| < maxSessions
    ensures |room| <= maxSessions
  {
    if key in alive || |alive| < maxSessions {
      return alive;
    }
    ghost var seen := map k | k in alive :: alive[k].lastSeen as int;
    assert seen.Keys == alive.Keys;
    ghost var least := LeastValue(seen, seen.Keys);
    assert Oldest(alive, least);
    var oldest :| oldest in alive && forall k | k in alive :: alive[oldest].lastSeen <= alive[k].lastSeen;
    WithoutSize(alive, oldest);
    room := alive - {oldest};
    assert Oldest(alive, oldest) && room - {key} == room;
  }

  method PushDigests(queue: seq<Digest>, digests: set<Digest>) returns (r: seq<Digest>)
    requires |queue| <= MAX_DIGESTS_PER_SESSION && NoDuplicates(queue)
    ensures |r| <= MAX_DIGESTS_PER_SESSION && NoDuplicates(r)
    ensures exists order :: Lists(order, digests) && r == PushAll(queue, order)
  {
    r := queue;
    var left := digests;
    ghost var order := [];
    while left != {}
      invariant |r| <= MAX_DIGESTS_PER_SESSION && NoDuplicates(r)
      invariant Lists(order, digests - left) && left <= digests
      invariant r == PushAll(queue, order)
      decreases |left|
    {
      var d :| d in left;
      PushAllLast(queue, order, d);
      r := Pushed(r, d);
      left, order := left - {d}, order + [d];
    }
    assert digests - left == digests;
  }

  ghost function KnownIn(sessions: map<SessionKey, Session>, ttl: i64, key: SessionKey, now: i64): set<Digest> {
    if key in sessions && SatSub(now, sessions[key].lastSeen) < ttl then set d | d in sessions[key].digests else {}
  }

  // The sessions seen less than one time to live ago.
  ghost function Alive(sessions: map<SessionKey, Session>, ttl: i64, now: i64): map<SessionKey, Session> {
    map k | k in sessions && SatSub(now, sessions[k].lastSeen) < ttl :: sessions[k]
  }

  ghost function DigestsOf(sessions: map<SessionKey, Session>, key: SessionKey): seq<Digest> {
    if key in sessions then sessions[key].digests else []
  }

  ghost predicate Oldest(sessions: map<SessionKey, Session>, key: SessionKey) {
    key in sessions && forall k | k in sessions :: sessions[key].lastSeen <= sessions[k].lastSeen
  }

  // `others` are the sessions beside `key`: all the live ones, but for one of the oldest when a new
  // session finds the book full.
  ghost predicate Kept(alive: map<SessionKey, Session>, key: SessionKey, maxSessions: nat,
                       others: map<SessionKey, Session>) {
    if key in alive || |alive| < maxSessions then others == alive - {key}
    else exists oldest :: Oldest(alive, oldest) && others == alive - {oldest}
  }

  // The book before and after a lookup: the session is touched, or forgotten if its time is over.
  ghost predicate LookedUp(before: map<SessionKey, Session>, after: map<SessionKey, Session>, key: SessionKey,
                           ttl: i64, now: i64)
  {
    && after - {key} == before - {key}
    && (key in after <==> key in before && SatSub(now, before[key].lastSeen) < ttl)
    && (key in after ==> after[key] == before[key].(lastSeen := now))
  }

  // The book before and after `digests` were remembered under `key`.
  ghost predicate Remembered(before: map<SessionKey, Session>, after: map<SessionKey, Session>, key: SessionKey,
                             digests: set<Digest>, ttl: i64, maxSessions: nat, now: i64)
  {
    if digests == {} then after == before
    else
      var alive := Alive(before, ttl, now);
      && Kept(alive, key, maxSessions, after - {key})
      && key in after && after[key].lastSeen == now
      && exists order :: Lists(order, digests) && after[key].digests == PushAll(DigestsOf(alive, key), order)
  }

  // Every digest of a session was there before or has just been remembered under that session.
  lemma RememberedOnlyAdds(before: map<SessionKey, Session>, after: map<SessionKey, Session>, key: SessionKey,
                           digests: set<Digest>, ttl: i64, maxSessions: nat, now: i64, session: SessionKey)
    requires Remembered(before, after, key, digests, ttl, maxSessions, now)
    ensures forall d | d in DigestsOf(after, session) ::
      d in DigestsOf(before, session) || (session == key && d in digests)
  {
    if digests != {} {
      var alive := Alive(before, ttl, now);
      if session == key {
        var order :| Lists(order, digests) && after[key].digests == PushAll(DigestsOf(alive, key), order);
        PushAllAdds(DigestsOf(alive, key), order);
      } else if session in after {
        assert session in after - {key} && (after - {key})[session] == after[session];
        assert session in alive && alive[session] == after[session];
      }
    }
  }

  // When there is room for them, all the digests remembered are there.
  lemma RememberedAll(before: map<SessionKey, Session>, after: map<SessionKey, Session>, key: SessionKey,
                      digests: set<Digest>, ttl: i64, maxSessions: nat, now: i64)
    requires Remembered(before, after, key, digests, ttl, maxSessions, now)
    requires
      var queue := DigestsOf(Alive(before, ttl, now), key);
      |queue| <= MAX_DIGESTS_PER_SESSION && NoDuplicates(queue) && RoomFor(queue, digests)
    ensures forall d | d in digests :: d in DigestsOf(after, key)
  {
    if digests != {} {
      var queue := DigestsOf(Alive(before, ttl, now), key);
      var order :| Lists(order, digests) && after[key].digests == PushAll(queue, order);
      PushAllKeeps(queue, order, digests);
    }
  }

  lemma {:induction false} PushAllAdds(queue: seq<Digest>, order: seq<Digest>)
    ensures forall d | d in PushAll(queue, order) :: d in queue || d in order
    decreases |order|
  {
    if order != [] {
      PushedMembers(queue, order[0]);
      PushAllAdds(Pushed(queue, order[0]), order[1..]);
    }
  }

  // ---------- What a full deque forgets ----------

  // `order` lists the members of `s`, each once.
  ghost predicate Lists(order: seq<Digest>, s: set<Digest>) {
    NoDuplicates(order) && forall d :: d in order <==> d in s
  }

  function PushAll(queue: seq<Digest>, order: seq<Digest>): seq<Digest>
    decreases |order|
  {
    if order == [] then queue else PushAll(Pushed(queue, order[0]), order[1..])
  }

  lemma {:induction false} PushAllLast(queue: seq<Digest>, order: seq<Digest>, d: Digest)
    ensures PushAll(queue, order + [d]) == Pushed(PushAll(queue, order), d)
    decreases |order|
  {
    if order == [] {
      assert [d][1..] == [];
    } else {
      assert (order + [d])[1..] == order[1..] + [d];
      PushAllLast(Pushed(queue, order[0]), order[1..], d);
    }
  }

  // How many digests leave the front of a queue when `count` unseen ones arrive.
  function Overflow(queue: seq<Digest>, count: nat): nat {
    if |queue| + count <= MAX_DIGESTS_PER_SESSION then 0 else |queue| + count - MAX_DIGESTS_PER_SESSION
  }

  function Unseen(queue: seq<Digest>, s: set<Digest>): set<Digest> {
    set d | d in s && d !in queue
  }

  // The digests a full deque drops to make room are none of those being remembered.
  predicate RoomFor(queue: seq<Digest>, digests: set<Digest>) {
    var e := Overflow(queue, |Unseen(queue, digests)|);
    e <= |queue| && forall i | 0 <= i < e :: queue[i] !in digests
  }

  // Whether every digest to remember is in the deque afterwards can depend on the order the set
  // hands them out; it is certain exactly when there is room for them.
  lemma RememberKeepsAll(queue: seq<Digest>, digests: set<Digest>)
    requires |queue| <= MAX_DIGESTS_PER_SESSION && NoDuplicates(queue)
    ensures (forall order | Lists(order, digests) :: forall d | d in digests :: d in PushAll(queue, order))
      <==> RoomFor(queue, digests)
  {
    if RoomFor(queue, digests) {
      forall order | Lists(order, digests) ensures forall d | d in digests :: d in PushAll(queue, order) {
        PushAllKeeps(queue, order, digests);
      }
    } else {
      var order, d := SomeOrderLoses(queue, digests);
      assert Lists(order, digests) && d in digests && d !in PushAll(queue, order);
    }
  }

  function Numbered(i: nat): Digest {
    Digest(seq(i, _ => 'd'))
  }

  // A full deque, its front remembered once more beside a new digest: handed out in this order the
  // new digest drops the old one, in the other order both are kept.
  lemma FullDequeForgets()
    ensures
      var queue := seq(MAX_DIGESTS_PER_SESSION, i requires 0 <= i => Numbered(i));
      var digests := {Numbered(0), Numbered(512)};
      && |queue| == MAX_DIGESTS_PER_SESSION && NoDuplicates(queue) && !RoomFor(queue, digests)
      && Lists([Numbered(0), Numbered(512)], digests) && Numbered(0) !in PushAll(queue, [Numbered(0), Numbered(512)])
      && Lists([Numbered(512), Numbered(0)], digests)
      && forall d | d in digests :: d in PushAll(queue, [Numbered(512), Numbered(0)])
  {
    var queue := seq(MAX_DIGESTS_PER_SESSION, i requires 0 <= i => Numbered(i));
    var front, added := Numbered(0), Numbered(512);
    forall i, j | 0 <= i < 513 && 0 <= j < 513 && i != j ensures Numbered(i) != Numbered(j) {
      assert |Numbered(i).text| == i && |Numbered(j).text| == j;
    }
    assert queue[0] == front && forall i | 0 < i < 512 :: queue[i] != front;
    assert front in queue && added !in queue;
    PushTwo(queue, front, added);
    PushTwo(queue, added, front);
    var next := queue[1..] + [added];
    assert Pushed(queue, added) == next && front !in next;
    assert (next[1..] + [front])[510] == added && (next[1..] + [front])[511] == front;
    assert Lists([front, added], {front, added}) && Lists([added, front], {front, added});
    RememberKeepsAll(queue, {front, added});
  }

  lemma PushTwo(queue: seq<Digest>, a: Digest, b: Digest)
    ensures PushAll(queue, [a, b]) == Pushed(Pushed(queue, a), b)
  {
    assert [a, b][1..] == [b] && [b][1..] == [];
    assert PushAll(queue, [a, b]) == PushAll(Pushed(queue, a), [b]);
  }

  lemma LateDiffers<T>(s: seq<T>, i: nat, e: nat)
    requires i < e <= |s| && NoDuplicates(s)
    ensures s[i] !in s[e..]
  {
    assert forall j | 0 <= j < |s[e..]| :: s[e..][j] == s[e + j];
  }

  // Without room, the order that starts with the digests already there drops one of them.
  lemma SomeOrderLoses(queue: seq<Digest>, digests: set<Digest>) returns (order: seq<Digest>, lost: Digest)
    requires |queue| <= MAX_DIGESTS_PER_SESSION && NoDuplicates(queue)
    requires !RoomFor(queue, digests)
    ensures Lists(order, digests) && lost in digests && lost !in PushAll(queue, order)
  {
    hide PushAll, NoDuplicates;
    var unseen := Unseen(queue, digests);
    var e := Overflow(queue, |unseen|);
    var first := ListSet(digests - unseen);
    var rest := ListSet(unseen);
    ListsLength(rest, unseen);
    order := first + rest;
    ConcatDiffers(first, rest);
    PushSeen(queue, first, rest);
    PushUnseen(queue, rest);
    var all := queue + rest;
    ConcatDiffers(queue, rest);
    var i := if e > |queue| then |queue| else var i :| 0 <= i < e && queue[i] in digests; i;
    lost := all[i];
    LateDiffers(all, i, e);
  }

  lemma {:induction false} PushAllKeeps(queue: seq<Digest>, order: seq<Digest>, digests: set<Digest>)
    requires |queue| <= MAX_DIGESTS_PER_SESSION && NoDuplicates(queue) && NoDuplicates(order)
    requires forall d | d in order :: d in digests
    requires forall d | d in digests :: d in order || d in queue
    requires RoomFor(queue, digests)
    ensures forall d | d in digests :: d in PushAll(queue, order)
    decreases |order|
  {
    if order != [] {
      var q := Pushed(queue, order[0]);
      if order[0] !in queue {
        assert Unseen(queue, digests) == Unseen(q, digests) + {order[0]} by {
          forall d | d in digests ensures d in queue <==> d in q && d != order[0] {
            if |queue| >= MAX_DIGESTS_PER_SESSION {
              assert order[0] in Unseen(queue, digests);
              assert queue[0] !in digests;
              assert queue == [queue[0]] + queue[1..];
            }
          }
        }
        assert order[0] in q;
      }
      PushAllKeeps(q, order[1..], digests);
    }
  }

  lemma {:induction false} PushSeen(queue: seq<Digest>, seen: seq<Digest>, order: seq<Digest>)
    requires forall d | d in seen :: d in queue
    ensures PushAll(queue, seen + order) == PushAll(queue, order)
    decreases |seen|
  {
    if seen == [] {
      assert seen + order == order;
    } else {
      assert (seen + order)[1..] == seen[1..] + order;
      assert seen[0] in queue;
      PushSeen(queue, seen[1..], order);
    }
  }

  lemma {:induction false} PushUnseen(queue: seq<Digest>, order: seq<Digest>)
    requires |queue| <= MAX_DIGESTS_PER_SESSION && NoDuplicates(order)
    requires forall d | d in order :: d !in queue
    ensures PushAll(queue, order) == (queue + order)[Overflow(queue, |order|)..]
    decreases |order|
  {
    hide NoDuplicates;
    if order == [] {
      assert queue + order == queue;
    } else {
      var q := Pushed(queue, order[0]);
      TailDiffers(order);
      assert order[0] in order && forall d | d in order[1..] :: d in order;
      PushedMembers(queue, order[0]);
      PushUnseen(q, order[1..]);
      PushedShifts(queue, order);
    }
  }

  lemma PushedShifts(queue: seq<Digest>, order: seq<Digest>)
    requires |queue| <= MAX_DIGESTS_PER_SESSION && order != [] && order[0] !in queue
    ensures
      var q := Pushed(queue, order[0]);
      (q + order[1..])[Overflow(q, |order| - 1)..] == (queue + order)[Overflow(queue, |order|)..]
  {
    var q := Pushed(queue, order[0]);
    if |queue| < MAX_DIGESTS_PER_SESSION {
      assert q + order[1..] == queue + order;
    } else {
      assert q + order[1..] == (queue + order)[1..];
    }
  }

  lemma ListSet(s: set<Digest>) returns (order: seq<Digest>)
    ensures Lists(order, s)
    decreases |s|
  {
    if s == {} {
      order := [];
    } else {
      var d :| d in s;
      var rest := ListSet(s - {d});
      order := [d] + rest;
    }
  }

  lemma {:induction false} ListsLength(order: seq<Digest>, s: set<Digest>)
    requires Lists(order, s)
    ensures |order| == |s|
    decreases |order|
  {
    if order != [] {
      assert forall d :: d in order <==> d == order[0] || d in order[1..];
      ListsLength(order[1..], s - {order[0]});
    }
  }

  // ---------- One request ----------

  class RequestRecovery {
    const enabled: bool
    const sessionKey: Option<SessionKey>
    var invalid: set<Digest>
    var filteredItems: nat
    var strippedItems: nat
    var retries: nat

    constructor (enabled: bool, sessionKey: Option<SessionKey>)
      ensures this.enabled == enabled && this.sessionKey == sessionKey
      ensures invalid == {} && filteredItems == 0 && strippedItems == 0 && retries == 0
    {
      this.enabled, this.sessionKey := enabled, sessionKey;
      invalid, filteredItems, strippedItems, retries := {}, 0, 0, 0;
    }

    // Strips only items whose digest this request recorded or its session's book entry knows.
    method FilterKnown(book: RecoveryBook, body: Option<Json>, now: i64) returns (out: Option<Json>)
      requires book.Valid()
      modifies this`filteredItems, book`sessions
      ensures book.Valid()
      ensures
        var known := invalid + if sessionKey.Some? then old(book.Known(sessionKey.value, now)) else {};
        var cleaned := if body.Some? then Sanitized(body.value, Some(known), false) else None;
        if enabled && cleaned.Some? then
          out == Some(cleaned.value.0) && filteredItems == old(filteredItems) + cleaned.value.1
        else out == body && filteredItems == old(filteredItems)
      ensures
        if enabled && sessionKey.Some? then LookedUp(old(book.sessions), book.sessions, sessionKey.value, book.ttl, now)
        else book.sessions == old(book.sessions)
    {
      if !enabled {
        return body;
      }
      var known := invalid;
      if sessionKey.Some? {
        var more := book.Lookup(sessionKey.value, now);
        known := known + more;
      }
      if known == {} {
        if body.Some? && InputItems(body.value).Some? {
          NothingKnown(InputItems(body.value).value);
        }
        return body;
      }
      var cleaned := Sanitize(body, Some(known), false);
      if cleaned.None? {
        return body;
      }
      filteredItems := filteredItems + cleaned.value.1;
      return Some(cleaned.value.0);
    }

    method RecordFailure(book: RecoveryBook, body: Option<Json>, now: i64)
      requires book.Valid()
      modifies this`invalid, book`sessions
      ensures book.Valid()
      ensures invalid == old(invalid) +
        if enabled && body.Some? && InputItems(body.value).Some? then Digests(InputItems(body.value).value) else {}
      ensures
        if enabled && sessionKey.Some? then
          Remembered(old(book.sessions), book.sessions, sessionKey.value, invalid, book.ttl, book.maxSessions, now)
        else book.sessions == old(book.sessions)
    {
      hide Remembered;
      if !enabled {
        return;
      }
      if body.Some? && body.value.Obj? && "input" in body.value.members {
        var input := body.value.members["input"];
        if input.Arr? {
          for i := 0 to |input.items|
            invariant book.Valid() && book.sessions == old(book.sessions)
            invariant invalid == old(invalid) + Digests(input.items[..i])
          {
            assert input.items[..i + 1] == input.items[..i] + [input.items[i]];
            DigestsLast(input.items[..i], input.items[i]);
            var d := DigestOf(input.items[i]);
            if Supported(input.items[i]) && d.Some? {
              invalid := invalid + {d.value};
            }
          }
          assert input.items[..|input.items|] == input.items;
        } else if input.Obj? {
          DigestsLast([], input);
          assert [] + [input] == [input];
          var d := DigestOf(input);
          if Supported(input) && d.Some? {
            invalid := invalid + {d.value};
          }
        }
      }
      if sessionKey.Some? {
        book.Remember(sessionKey.value, invalid, now);
      }
    }

    // One retry at most, and only with every supported encrypted item stripped.
    method PrepareRetry(body: Option<Json>, websocket: bool) returns (out: Option<Json>)
      modifies this`strippedItems, this`retries
      ensures out.Some? <==> enabled && old(retries) == 0 && body.Some? && Sanitized(body.value, None, websocket).Some?
      ensures out.Some? ==>
        && retries == old(retries) + 1
        && out.value == Sanitized(body.value, None, websocket).value.0
        && InputItems(out.value).Some? && forall item | item in InputItems(out.value).value :: !Encrypted(item)
      ensures out.None? ==> retries == old(retries) && strippedItems == old(strippedItems)
    {
      if !enabled || retries != 0 {
        return None;
      }
      var cleaned := Sanitize(body, None, websocket);
      if cleaned.None? {
        return None;
      }
      hide Sanitized;
      SanitizedIsClean(body.value, None, websocket);
      strippedItems := strippedItems + cleaned.value.1;
      retries := retries + 1;
      return Some(cleaned.value.0);
    }
  }

  // The digests of the supported items.
  function Digests(items: seq<Json>): set<Digest> {
    set i | 0 <= i < |items| && Supported(items[i]) && DigestOf(items[i]).Some? :: DigestOf(items[i]).value
  }

  lemma DigestsLast(items: seq<Json>, item: Json)
    ensures Digests(items + [item]) == Digests(items) +
      if Supported(item) && DigestOf(item).Some? then {DigestOf(item).value} else {}
  {
    var all := items + [item];
    assert all[|items|] == item;
    assert forall i | 0 <= i < |items| :: all[i] == items[i];
    forall d | d in Digests(items) ensures d in Digests(all) {
      var i :| 0 <= i < |items| && Supported(items[i]) && DigestOf(items[i]) == Some(d);
      assert all[i] == items[i];
    }
  }

  lemma NothingKnown(items: seq<Json>)
    ensures CountAffected(items, Some({})) == 0
  {
    NothingToCount(items, Some({}));
  }
}
