/** What becomes of the items of a Responses history, by the types and members they show, and how long
    the book knows a digest. */
module SanitizedItems {
  import opened Wrappers
  import opened Int64
  import opened JsonTree
  import opened EncryptedContent

  // ---------- Items ----------

  predicate HasType(item: Json, t: string) {
    item.Obj? && "type" in item.members && item.members["type"] == Str(t)
  }

  // An item whose ciphertext the gateway knows how to do without.
  predicate Ciphered(item: Json) {
    && (HasType(item, "reasoning") || HasType(item, "compaction") || HasType(item, "compaction_summary"))
    && "encrypted_content" in item.members
  }

  predicate HasText(item: Json, text: string) {
    item.Obj? && "encrypted_content" in item.members && item.members["encrypted_content"] == Str(text)
  }

  // Whether an item is to be cleaned: any ciphered one, or one whose text is among those known.
  ghost predicate ToClean(item: Json, invalid: Option<set<Digest>>) {
    && Ciphered(item)
    && (invalid.Some? ==> exists text :: text != "" && HasText(item, text) && Digest(text) in invalid.value)
  }

  // The members of an item without its ciphertext, and without a null content.
  function Left(item: Json): map<string, Json>
    requires item.Obj?
  {
    map name | name in item.members && name != "encrypted_content"
               && !(name == "content" && item.members[name] == Null) :: item.members[name]
  }

  // An item to clean survives exactly if it is reasoning and shows more than its type.
  predicate Survives(item: Json) {
    HasType(item, "reasoning") && |Left(item)| > 1
  }

  lemma KindMeans(item: Json, t: string)
    ensures Kind(item) == Some(t) <==> HasType(item, t)
  {
  }

  lemma EncryptedMeans(item: Json)
    ensures Encrypted(item) <==> Ciphered(item)
  {
    hide Kind, HasType;
    KindMeans(item, "reasoning");
    KindMeans(item, "compaction");
    KindMeans(item, "compaction_summary");
    if HasType(item, "reasoning") || HasType(item, "compaction") || HasType(item, "compaction_summary") {
      TypedIsObject(item);
    }
  }

  lemma TypedIsObject(item: Json)
    ensures Kind(item).Some? ==> item.Obj?
  {
  }

  lemma AffectedMeans(item: Json, invalid: Option<set<Digest>>)
    ensures Affected(item, invalid) <==> ToClean(item, invalid)
  {
    hide Encrypted, Ciphered;
    EncryptedMeans(item);
    if Encrypted(item) && DigestOf(item).Some? {
      assert HasText(item, DigestOf(item).value.text);
    }
  }

  lemma StrippedMeans(item: Json)
    requires item.Obj? && "encrypted_content" in item.members
    ensures Stripped(item) == Obj(Left(item))
  {
    assert Stripped(item).members == Left(item);
  }

  // What one item becomes: itself, what is left of it, or nothing.
  lemma FateExactly(item: Json, invalid: Option<set<Digest>>)
    ensures CleanOne(item, invalid) ==
      if !ToClean(item, invalid) then [item] else if Survives(item) then [Obj(Left(item))] else []
  {
    hide Affected, Stripped;
    AffectedMeans(item, invalid);
    if ToClean(item, invalid) {
      KindMeans(item, "reasoning");
      StrippedMeans(item);
    }
  }

  // ---------- Bodies ----------

  // Item `k` of `kept` is what is left of item `from[k]`, in order, and only items cleaned away
  // entirely have no successor.
  ghost predicate Follows(items: seq<Json>, kept: seq<Json>, invalid: Option<set<Digest>>, from: seq<nat>) {
    && |from| == |kept|
    && (forall j, k :: 0 <= j < k < |from| ==> from[j] < from[k])
    && (forall k :: 0 <= k < |from| ==>
          && from[k] < |items|
          && var item := items[from[k]];
             if ToClean(item, invalid) then Survives(item) && kept[k] == Obj(Left(item)) else kept[k] == item)
    && (forall i :: 0 <= i < |items| && i !in from ==> ToClean(items[i], invalid) && !Survives(items[i]))
  }

  lemma FollowsClean(items: seq<Json>, kept: seq<Json>, invalid: Option<set<Digest>>, from: seq<nat>)
    requires Cleans(items, kept, invalid, from)
    ensures Follows(items, kept, invalid, from)
  {
    hide CleanOne, ToClean, Left;
    forall i | 0 <= i < |items| ensures CleanOne(items[i], invalid) ==
      if !ToClean(items[i], invalid) then [items[i]]
      else if Survives(items[i]) then [Obj(Left(items[i]))] else []
    {
      FateExactly(items[i], invalid);
    }
  }

  ghost function PlacesToClean(items: seq<Json>, invalid: Option<set<Digest>>): set<int> {
    set i | 0 <= i < |items| && ToClean(items[i], invalid)
  }

  lemma {:induction false} CountExactly(items: seq<Json>, invalid: Option<set<Digest>>)
    ensures CountAffected(items, invalid) == |PlacesToClean(items, invalid)|
    decreases |items|
  {
    hide ToClean, Affected;
    if items != [] {
      var n := |items| - 1;
      CountExactly(items[..n], invalid);
      AffectedMeans(items[n], invalid);
      assert PlacesToClean(items, invalid)
        == PlacesToClean(items[..n], invalid) + if ToClean(items[n], invalid) then {n} else {};
    }
  }

  // The items of a body's input: those of a list, or one alone.
  predicate HasInput(v: Json, items: seq<Json>) {
    && v.Obj? && "input" in v.members
    && (v.members["input"] == Arr(items) || (v.members["input"].Obj? && items == [v.members["input"]]))
  }

  lemma InputMeans(v: Json)
    ensures InputItems(v).Some? ==> HasInput(v, InputItems(v).value)
    ensures forall items | HasInput(v, items) :: InputItems(v) == Some(items)
  {
  }

  // A body is cleaned exactly when its input has an item to clean, and counts those items.
  lemma CleansExactly(v: Json, invalid: Option<set<Digest>>, websocket: bool, items: seq<Json>)
    requires HasInput(v, items)
    ensures Sanitized(v, invalid, websocket).Some? <==> exists i :: 0 <= i < |items| && ToClean(items[i], invalid)
    ensures Sanitized(v, invalid, websocket).Some? ==>
      Sanitized(v, invalid, websocket).value.1 == |PlacesToClean(items, invalid)|
  {
    hide ToClean, HasInput, CleanItems, WithInput;
    InputMeans(v);
    CountExactly(items, invalid);
    if i :| 0 <= i < |items| && ToClean(items[i], invalid) {
      assert i in PlacesToClean(items, invalid);
    }
    if PlacesToClean(items, invalid) != {} {
      var i :| i in PlacesToClean(items, invalid);
    }
  }

  // The cleaned body: its input lists what the items become, and a lone item stays alone unless nothing
  // is left; a continuation is dropped exactly over a websocket without a tool's output among the items
  // left; nothing else changes.
  lemma CleanedBody(v: Json, invalid: Option<set<Digest>>, websocket: bool, items: seq<Json>)
    requires HasInput(v, items) && Sanitized(v, invalid, websocket).Some?
    ensures
      var w := Sanitized(v, invalid, websocket).value.0;
      && w.Obj? && "input" in w.members
      && exists kept, from ::
        && Follows(items, kept, invalid, from)
        && w.members["input"] == (if v.members["input"].Obj? && kept != [] then kept[0] else Arr(kept))
        && (forall name | name != "input" && name != "previous_response_id" ::
              (name in w.members <==> name in v.members) && (name in v.members ==> w.members[name] == v.members[name]))
        && ("previous_response_id" in w.members <==>
              && "previous_response_id" in v.members
              && (websocket ==> exists k :: 0 <= k < |kept| && HasType(kept[k], "function_call_output")))
        && ("previous_response_id" in w.members ==>
              w.members["previous_response_id"] == v.members["previous_response_id"])
  {
    hide ToClean, Survives, Affected, CleanOne, CountAffected, Follows, Cleans, CleanItems, Kind, HasType;
    InputMeans(v);
    var kept := CleanItems(items, invalid);
    var from := CleanItemsOrigins(items, invalid);
    FollowsClean(items, kept, invalid, from);
    forall k | 0 <= k < |kept| ensures Kind(kept[k]) == Some("function_call_output")
      <==> HasType(kept[k], "function_call_output")
    {
      KindMeans(kept[k], "function_call_output");
    }
    var w := Sanitized(v, invalid, websocket).value.0;
    assert w.members["input"] == (if v.members["input"].Obj? && kept != [] then kept[0] else Arr(kept));
  }

  // The digests recorded from a body are those of the ciphered items' texts that are not empty.
  lemma DigestsExactly(items: seq<Json>, text: string)
    ensures Digest(text) in Digests(items) <==>
      text != "" && exists i :: 0 <= i < |items| && Ciphered(items[i]) && HasText(items[i], text)
  {
    hide Supported;
    forall i | 0 <= i < |items|
      ensures Supported(items[i]) && DigestOf(items[i]) == Some(Digest(text))
        <==> text != "" && Ciphered(items[i]) && HasText(items[i], text)
    {
      DigestMeans(items[i], text);
    }
  }

  lemma DigestMeans(item: Json, text: string)
    ensures Supported(item) && DigestOf(item) == Some(Digest(text)) <==>
      text != "" && Ciphered(item) && HasText(item, text)
  {
    hide Supported, Ciphered;
    EncryptedMeans(item);
  }

  // ---------- How long the book knows a digest ----------

  // Digests that found room are known under their session from then on for one time to live, and not a
  // moment longer.
  lemma KnownWhileAlive(before: map<SessionKey, Session>, after: map<SessionKey, Session>, key: SessionKey,
                        digests: set<Digest>, ttl: i64, maxSessions: nat, now: i64, later: i64, d: Digest)
    requires ttl >= 0 && Remembered(before, after, key, digests, ttl, maxSessions, now) && d in digests
    requires
      var queue := DigestsOf(Alive(before, ttl, now), key);
      |queue| <= MAX_DIGESTS_PER_SESSION && NoDuplicates(queue) && RoomFor(queue, digests)
    ensures d in KnownIn(after, ttl, key, later) <==> later - now < ttl
  {
    RememberedAll(before, after, key, digests, ttl, maxSessions, now);
    hide NoDuplicates, Lists, PushAll, Kept, RoomFor, Alive;
  }

  // A lookup in time gives the session another time to live; one that comes too late ends it.
  lemma LookupExtends(before: map<SessionKey, Session>, after: map<SessionKey, Session>, key: SessionKey, ttl: i64,
                      now: i64, later: i64)
    requires ttl >= 0 && key in before && LookedUp(before, after, key, ttl, now)
    ensures now - before[key].lastSeen >= ttl ==> KnownIn(after, ttl, key, later) == {}
    ensures now - before[key].lastSeen < ttl ==>
      && KnownIn(before, ttl, key, now) == (set d | d in before[key].digests)
      && KnownIn(after, ttl, key, later) ==
           if later - now < ttl then KnownIn(before, ttl, key, now) else {}
  {
  }

  // Remembering keeps every other session that is alive, if its own is there already or the book has
  // room for one more; else all of them but one of those seen longest ago.
  lemma OthersRemembered(before: map<SessionKey, Session>, after: map<SessionKey, Session>, key: SessionKey,
                         digests: set<Digest>, ttl: i64, maxSessions: nat, now: i64, other: SessionKey)
    requires ttl >= 0 && Remembered(before, after, key, digests, ttl, maxSessions, now) && digests != {}
    requires other != key && other in before && now - before[other].lastSeen < ttl
    ensures other in after ==> after[other] == before[other]
    ensures (key in before && now - before[key].lastSeen < ttl) || |before| < maxSessions ==> other in after
    ensures other !in after ==>
      forall k | k in before && now - before[k].lastSeen < ttl :: before[other].lastSeen <= before[k].lastSeen
    ensures other !in after ==>
      forall k | k in before && now - before[k].lastSeen < ttl && k != other :: k in after
  {
    var alive := Alive(before, ttl, now);
    assert other in alive && alive[other] == before[other];
    assert alive.Keys <= before.Keys;
    SizesOf(alive, before);
    hide Lists, PushAll;
    assert forall k | k in before && now - before[k].lastSeen < ttl :: k in alive && alive[k] == before[k];
    assert after - {key} == after - {key} && (other in after <==> other in after - {key});
    assert other in after ==> (after - {key})[other] == after[other];
    if other !in after {
      var oldest :| Oldest(alive, oldest) && after - {key} == alive - {oldest};
      forall k | k in alive && k != other && k != key ensures k in after {
        assert k in after - {key};
      }
    }
  }

  // Remembering forgets every session whose time is over: another is gone, and the one remembered under
  // starts with the digests given alone.
  lemma ExpiredForgotten(before: map<SessionKey, Session>, after: map<SessionKey, Session>, key: SessionKey,
                         digests: set<Digest>, ttl: i64, maxSessions: nat, now: i64, expired: SessionKey)
    requires ttl >= 0 && Remembered(before, after, key, digests, ttl, maxSessions, now) && digests != {}
    requires expired in before && now - before[expired].lastSeen >= ttl
    ensures expired != key ==> expired !in after
    ensures expired == key ==> forall d | d in after[key].digests :: d in digests
  {
    var alive := Alive(before, ttl, now);
    assert expired !in alive;
    if expired == key {
      var order :| Lists(order, digests) && after[key].digests == PushAll(DigestsOf(alive, key), order);
      PushAllAdds([], order);
    } else {
      hide Lists, PushAll;
      assert expired in after ==> expired in after - {key};
    }
  }

  lemma SizesOf(m: map<SessionKey, Session>, n: map<SessionKey, Session>)
    requires m.Keys <= n.Keys
    ensures |m| <= |n|
  {
    assert n.Keys == m.Keys + (n.Keys - m.Keys);
    assert |m| == |m.Keys| && |n| == |n.Keys|;
  }
}
