/** One request with the recovery book it shares with others: what holds in every sequence of the
    request's own calls and of the other requests' calls on the book. */
module RecoveryRuns {
  import opened Wrappers
  import opened Int64
  import opened JsonTree
  import opened EncryptedContent
  import opened SanitizedItems

  type Sessions = map<SessionKey, Session>

  datatype Call =
    | FilterCall(body: Option<Json>, now: i64)
    | FailCall(body: Option<Json>, now: i64)
    | RetryCall(body: Option<Json>, websocket: bool)
    | OtherLookup(key: SessionKey, now: i64)
    | OtherRemember(key: SessionKey, digests: set<Digest>, now: i64)

  // What a run goes by: the request's settings and the book's.
  datatype Setting = Setting(enabled: bool, sessionKey: Option<SessionKey>, ttl: i64, maxSessions: nat)

  datatype View = View(sessions: Sessions, invalid: set<Digest>, retries: nat)

  function InputDigests(body: Option<Json>): set<Digest> {
    if body.Some? && InputItems(body.value).Some? then Digests(InputItems(body.value).value) else {}
  }

  // The digests a filter goes by.
  ghost function KnownTo(c: Setting, v: View, now: i64): set<Digest> {
    v.invalid + if c.sessionKey.Some? then KnownIn(v.sessions, c.ttl, c.sessionKey.value, now) else {}
  }

  ghost function Cleaned(body: Option<Json>, invalid: Option<set<Digest>>, websocket: bool): Option<Json> {
    if body.None? || Sanitized(body.value, invalid, websocket).None? then None
    else Some(Sanitized(body.value, invalid, websocket).value.0)
  }

  // One call, from one view to the next; `out` is the body it hands on, if any.
  ghost predicate Called(c: Setting, call: Call, v: View, w: View, out: Option<Json>) {
    match call
    case FilterCall(body, now) =>
      && w.invalid == v.invalid && w.retries == v.retries
      && (if c.enabled && c.sessionKey.Some? then LookedUp(v.sessions, w.sessions, c.sessionKey.value, c.ttl, now)
          else w.sessions == v.sessions)
      && out == if c.enabled && Cleaned(body, Some(KnownTo(c, v, now)), false).Some? then
                  Cleaned(body, Some(KnownTo(c, v, now)), false)
                else body
    case FailCall(body, now) =>
      && w.retries == v.retries && w.invalid == v.invalid + (if c.enabled then InputDigests(body) else {})
      && (if c.enabled && c.sessionKey.Some? then
            Remembered(v.sessions, w.sessions, c.sessionKey.value, w.invalid, c.ttl, c.maxSessions, now)
          else w.sessions == v.sessions)
    case RetryCall(body, websocket) =>
      && w.sessions == v.sessions && w.invalid == v.invalid
      && (out.Some? <==> c.enabled && v.retries == 0 && Cleaned(body, None, websocket).Some?)
      && (out.Some? ==> out == Cleaned(body, None, websocket))
      && w.retries == v.retries + if out.Some? then 1 else 0
    case OtherLookup(key, now) =>
      w == v.(sessions := w.sessions) && LookedUp(v.sessions, w.sessions, key, c.ttl, now)
    case OtherRemember(key, digests, now) =>
      w == v.(sessions := w.sessions) && Remembered(v.sessions, w.sessions, key, digests, c.ttl, c.maxSessions, now)
  }

  ghost predicate Ran(c: Setting, calls: seq<Call>, views: seq<View>, outs: seq<Option<Json>>) {
    && |views| == |calls| + 1 && |outs| == |calls| && views[0] == View(map[], {}, 0)
    && forall i :: 0 <= i < |calls| ==> Called(c, calls[i], views[i], views[i + 1], outs[i])
  }

  ghost function SettingOf(book: RecoveryBook, request: RequestRecovery): Setting {
    Setting(request.enabled, request.sessionKey, book.ttl, book.maxSessions)
  }

  ghost function ViewOf(book: RecoveryBook, request: RequestRecovery): View
    reads book, request
  {
    View(book.sessions, request.invalid, request.retries)
  }

  method Perform(book: RecoveryBook, request: RequestRecovery, call: Call) returns (out: Option<Json>)
    requires book.Valid()
    modifies book, request
    ensures book.Valid()
    ensures Called(SettingOf(book, request), call, old(ViewOf(book, request)), ViewOf(book, request), out)
  {
    hide Remembered, LookedUp, Sanitized, Digests, NoDuplicates, KnownIn;
    out := None;
    match call {
      case FilterCall(body, now) => out := request.FilterKnown(book, body, now);
      case FailCall(body, now) => request.RecordFailure(book, body, now);
      case RetryCall(body, websocket) => out := request.PrepareRetry(body, websocket);
      case OtherLookup(key, now) =>
        var _ := book.Lookup(key, now);
      case OtherRemember(key, digests, now) => book.Remember(key, digests, now);
    }
  }

  // Every sequence of calls on a new book and a new request is a run.
  method PerformAll(enabled: bool, sessionKey: Option<SessionKey>, ttl: i64, maxSessions: nat, calls: seq<Call>)
    returns (outs: seq<Option<Json>>, ghost views: seq<View>, ghost c: Setting)
    ensures c.enabled == enabled && c.sessionKey == sessionKey && c.ttl == ttl && Ran(c, calls, views, outs)
    ensures c.maxSessions == if maxSessions < 1 then 1 else if maxSessions > 1024 then 1024 else maxSessions
  {
    hide Called, NoDuplicates;
    var book := new RecoveryBook(ttl, maxSessions);
    var request := new RequestRecovery(enabled, sessionKey);
    c := SettingOf(book, request);
    outs, views := [], [ViewOf(book, request)];
    for i := 0 to |calls|
      invariant book.Valid() && SettingOf(book, request) == c
      invariant |outs| == i && |views| == i + 1 && views[0] == View(map[], {}, 0) && views[i] == ViewOf(book, request)
      invariant forall j :: 0 <= j < i ==> Called(c, calls[j], views[j], views[j + 1], outs[j])
    {
      var out := Perform(book, request, calls[i]);
      outs, views := outs + [out], views + [ViewOf(book, request)];
    }
  }

  // ---------- What holds of every run ----------

  // The digests of the failures the request has recorded.
  function Recorded(c: Setting, calls: seq<Call>): set<Digest> {
    if calls == [] then {}
    else
      var last := calls[|calls| - 1];
      Recorded(c, calls[..|calls| - 1]) + if c.enabled && last.FailCall? then InputDigests(last.body) else {}
  }

  // The digests other requests have remembered under a session.
  function RememberedByOthers(calls: seq<Call>, session: SessionKey): set<Digest> {
    if calls == [] then {}
    else
      var last := calls[|calls| - 1];
      RememberedByOthers(calls[..|calls| - 1], session)
      + if last.OtherRemember? && last.key == session then last.digests else {}
  }

  // What the request may have recorded and others remembered under the session.
  predicate MayHold(c: Setting, calls: seq<Call>, session: SessionKey, d: Digest) {
    d in RememberedByOthers(calls, session) || (c.sessionKey == Some(session) && d in Recorded(c, calls))
  }

  lemma LookedUpOnlyForgets(before: Sessions, after: Sessions, key: SessionKey, ttl: i64, now: i64, session: SessionKey)
    requires LookedUp(before, after, key, ttl, now)
    ensures forall d | d in DigestsOf(after, session) :: d in DigestsOf(before, session)
  {
    if session in after && session != key {
      assert session in after - {key} && (after - {key})[session] == after[session];
    }
  }

  lemma SessionStep(c: Setting, call: Call, v: View, w: View, out: Option<Json>, session: SessionKey)
    requires Called(c, call, v, w, out)
    ensures forall d | d in DigestsOf(w.sessions, session) ::
      || d in DigestsOf(v.sessions, session)
      || (call.OtherRemember? && call.key == session && d in call.digests)
      || (c.sessionKey == Some(session) && d in w.invalid)
  {
    hide LookedUp, Remembered, DigestsOf, Cleaned, InputDigests, KnownTo;
    match call
    case FilterCall(_, now) =>
      if c.enabled && c.sessionKey.Some? {
        LookedUpOnlyForgets(v.sessions, w.sessions, c.sessionKey.value, c.ttl, now, session);
      }
    case FailCall(_, now) =>
      if c.enabled && c.sessionKey.Some? {
        RememberedOnlyAdds(v.sessions, w.sessions, c.sessionKey.value, w.invalid, c.ttl, c.maxSessions, now, session);
      }
    case RetryCall(_, _) =>
    case OtherLookup(key, now) => LookedUpOnlyForgets(v.sessions, w.sessions, key, c.ttl, now, session);
    case OtherRemember(key, digests, now) =>
      RememberedOnlyAdds(v.sessions, w.sessions, key, digests, c.ttl, c.maxSessions, now, session);
  }

  lemma {:induction false} RecordsExactly(c: Setting, calls: seq<Call>, views: seq<View>, outs: seq<Option<Json>>,
                                          n: nat)
    requires Ran(c, calls, views, outs) && n <= |calls|
    ensures views[n].invalid == Recorded(c, calls[..n])
    decreases n
  {
    hide InputDigests, Cleaned, LookedUp, Remembered;
    if n > 0 {
      RecordsExactly(c, calls, views, outs, n - 1);
      assert calls[..n][..n - 1] == calls[..n - 1];
      assert Called(c, calls[n - 1], views[n - 1], views[n], outs[n - 1]);
    }
  }

  // In every run the book knows of a session only digests that were remembered under that session, by
  // another request or from the failures of this one if the session is its own.
  lemma {:induction false} SessionsNeverMix(c: Setting, calls: seq<Call>, views: seq<View>, outs: seq<Option<Json>>,
                                            n: nat, session: SessionKey)
    requires Ran(c, calls, views, outs) && n <= |calls|
    ensures forall d | d in DigestsOf(views[n].sessions, session) :: MayHold(c, calls[..n], session, d)
    decreases n
  {
    hide DigestsOf, InputDigests, Called;
    if n == 0 {
      NothingHeld(session);
    } else {
      SessionsNeverMix(c, calls, views, outs, n - 1, session);
      RecordsExactly(c, calls, views, outs, n);
      assert calls[..n][..n - 1] == calls[..n - 1];
      assert Called(c, calls[n - 1], views[n - 1], views[n], outs[n - 1]);
      SessionStep(c, calls[n - 1], views[n - 1], views[n], outs[n - 1], session);
    }
  }

  lemma NothingHeld(session: SessionKey)
    ensures DigestsOf(map[], session) == []
  {
  }

  // In every run a filter cleans away or strips an item only if the item's digest was recorded from a
  // failure of this request or remembered by another under this request's session.
  lemma StrippedWasRejected(c: Setting, calls: seq<Call>, views: seq<View>, outs: seq<Option<Json>>, i: nat, item: Json)
    requires Ran(c, calls, views, outs) && i < |calls| && calls[i].FilterCall? && outs[i] != calls[i].body
    requires calls[i].body.Some? && InputItems(calls[i].body.value).Some?
    requires item in InputItems(calls[i].body.value).value
    requires CleanOne(item, Some(KnownTo(c, views[i], calls[i].now))) != [item]
    ensures DigestOf(item).Some?
    ensures
      || DigestOf(item).value in Recorded(c, calls[..i])
      || (c.sessionKey.Some? && DigestOf(item).value in RememberedByOthers(calls[..i], c.sessionKey.value))
  {
    assert |views| == |calls| + 1;
    hide Ran, KnownIn, InputItems;
    var d := DigestOf(item).value;
    RecordsExactly(c, calls, views, outs, i);
    if c.sessionKey.Some? && d in KnownIn(views[i].sessions, c.ttl, c.sessionKey.value, calls[i].now) {
      KnownIsHeld(views[i].sessions, c.ttl, c.sessionKey.value, calls[i].now, d);
      SessionsNeverMix(c, calls, views, outs, i, c.sessionKey.value);
    }
  }

  lemma KnownIsHeld(sessions: Sessions, ttl: i64, key: SessionKey, now: i64, d: Digest)
    requires d in KnownIn(sessions, ttl, key, now)
    ensures d in DigestsOf(sessions, key)
  {
  }

  lemma {:induction false} RetriesGrow(c: Setting, calls: seq<Call>, views: seq<View>, outs: seq<Option<Json>>,
                                       i: nat, j: nat)
    requires Ran(c, calls, views, outs) && i <= j <= |calls|
    ensures views[i].retries <= views[j].retries
    decreases j - i
  {
    hide Cleaned, InputDigests, KnownTo, LookedUp, Remembered;
    if i < j {
      RetriesGrow(c, calls, views, outs, i, j - 1);
      assert Called(c, calls[j - 1], views[j - 1], views[j], outs[j - 1]);
    }
  }

  // In every run a request is retried at most once.
  lemma OneRetry(c: Setting, calls: seq<Call>, views: seq<View>, outs: seq<Option<Json>>, i: nat, j: nat)
    requires Ran(c, calls, views, outs) && i < j < |calls| && calls[i].RetryCall? && calls[j].RetryCall?
    ensures outs[i].None? || outs[j].None?
  {
    hide Cleaned, InputDigests, KnownTo, LookedUp, Remembered;
    RetriesGrow(c, calls, views, outs, i + 1, j);
    assert Called(c, calls[i], views[i], views[i + 1], outs[i]);
    assert Called(c, calls[j], views[j], views[j + 1], outs[j]);
  }

  // In every run a filter leaves no ciphered item whose text a failure of this request has recorded,
  // and one that finds nothing to clean hands on the very body it was given.
  lemma RecordedAreStripped(c: Setting, calls: seq<Call>, views: seq<View>, outs: seq<Option<Json>>, i: nat,
                            items: seq<Json>, out: seq<Json>)
    requires Ran(c, calls, views, outs) && i < |calls| && calls[i].FilterCall? && c.enabled
    requires calls[i].body.Some? && HasInput(calls[i].body.value, items)
    requires outs[i].Some? && HasInput(outs[i].value, out)
    ensures forall item, text | item in out && Ciphered(item) && text != "" && HasText(item, text) ::
      Digest(text) !in Recorded(c, calls[..i])
    ensures (forall k | 0 <= k < |items| :: !Ciphered(items[k])) ==> outs[i] == calls[i].body
  {
    RecordsExactly(c, calls, views, outs, i);
    assert Called(c, calls[i], views[i], views[i + 1], outs[i]);
    var known := KnownTo(c, views[i], calls[i].now);
    assert forall d | d in Recorded(c, calls[..i]) :: d in known;
    hide Ran, Called, Recorded, KnownTo, HasInput, HasText, Ciphered, Sanitized;
    InputMeans(calls[i].body.value);
    InputMeans(outs[i].value);
    CleansExactly(calls[i].body.value, Some(known), false, items);
    FilteredIsClean(calls[i].body.value, outs[i].value, known, items, out);
  }

  // What a filter by some digests hands on has no item with one of them.
  lemma FilteredIsClean(v: Json, w: Json, known: set<Digest>, items: seq<Json>, out: seq<Json>)
    requires HasInput(v, items) && HasInput(w, out)
    requires
      var cleaned := Sanitized(v, Some(known), false);
      w == if cleaned.Some? then cleaned.value.0 else v
    ensures forall item | item in out :: !ToClean(item, Some(known))
  {
    hide HasInput, ToClean, Affected, Sanitized;
    InputMeans(v);
    InputMeans(w);
    if Sanitized(v, Some(known), false).Some? {
      SanitizedIsClean(v, Some(known), false);
      forall item | item in out ensures !ToClean(item, Some(known)) {
        AffectedMeans(item, Some(known));
      }
    } else {
      CleansExactly(v, Some(known), false, items);
      assert out == items;
    }
  }

  lemma {:induction false} RetriesCounted(c: Setting, calls: seq<Call>, views: seq<View>, outs: seq<Option<Json>>,
                                          n: nat)
    requires Ran(c, calls, views, outs) && n <= |calls|
    ensures views[n].retries == 0 <==> forall j | 0 <= j < n && calls[j].RetryCall? :: outs[j].None?
    decreases n
  {
    hide Cleaned, InputDigests, KnownTo, LookedUp, Remembered;
    if n > 0 {
      RetriesCounted(c, calls, views, outs, n - 1);
      assert Called(c, calls[n - 1], views[n - 1], views[n], outs[n - 1]);
    }
  }

  // In every run a call for a retry succeeds exactly when recovery is on, none has succeeded before and
  // the input has a ciphered item; the body handed on then has none.
  lemma RetriesExactly(c: Setting, calls: seq<Call>, views: seq<View>, outs: seq<Option<Json>>, i: nat,
                       items: seq<Json>)
    requires Ran(c, calls, views, outs) && i < |calls| && calls[i].RetryCall?
    requires calls[i].body.Some? && HasInput(calls[i].body.value, items)
    ensures outs[i].Some? <==>
      && c.enabled && (forall j | 0 <= j < i && calls[j].RetryCall? :: outs[j].None?)
      && exists k :: 0 <= k < |items| && Ciphered(items[k])
    ensures outs[i].Some? ==>
      InputItems(outs[i].value).Some? && forall item | item in InputItems(outs[i].value).value :: !Ciphered(item)
  {
    RetriesCounted(c, calls, views, outs, i);
    assert Called(c, calls[i], views[i], views[i + 1], outs[i]);
    var v, websocket := calls[i].body.value, calls[i].websocket;
    hide Ran, Called, HasInput, Ciphered, Sanitized, Encrypted, InputItems;
    CleansExactly(v, None, websocket, items);
    if outs[i].Some? {
      SanitizedIsClean(v, None, websocket);
      forall item | item in InputItems(outs[i].value).value ensures !Ciphered(item) {
        AffectedMeans(item, None);
      }
    }
  }
}
