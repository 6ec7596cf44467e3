/** Session affinity: a bounded map with a sliding time to live, least-recently-seen eviction and
    generation-checked bindings. `made` is the history of creating claims and migrations since the
    last clear, and `ideal` the map that never forgets: per routing key the latest of them. Routing
    keys are digests, taken as injective; generations are unbounded here, so they do not wrap. */
module AffinityBook {
  import opened Wrappers
  import opened Int64
  import opened Maps

  type Key = nat

  datatype Target = Target(provider: int, upstreamKey: Option<int>, endpoint: Option<int>)

  datatype Binding = Binding(target: Target, generation: nat, confirmed: bool)

  // Something held for a key until a deadline, and when the key was last seen.
  datatype Slot<T> = Slot(item: T, until: i64, lastSeen: i64)

  type Entry = Slot<Binding>

  type Avoid = Slot<int>  // the provider to avoid

  datatype Origin = Origin(target: Target, generation: nat)

  function Touched(e: Entry, now: i64, ttl: i64): Entry {
    e.(until := SatAdd(now, ttl), lastSeen := now)
  }

  function Confirmed(e: Entry): Entry {
    e.(item := e.item.(confirmed := true))
  }

  // `n` keeps some entries of `m` as they are.
  ghost predicate Forgets<T>(m: map<Key, T>, n: map<Key, T>) {
    forall k | k in n :: k in m && n[k] == m[k]
  }

  ghost predicate LiveAt<T>(m: map<Key, Slot<T>>, k: Key, now: i64) {
    k in m && m[k].until > now
  }

  // Eviction drops what expired, then the least recently seen, and no more than it has to.
  ghost predicate Evicts<T>(m: map<Key, Slot<T>>, n: map<Key, Slot<T>>, max: nat, now: i64) {
    && Forgets(m, n) && |n| < max
    && (if |m| < max then n == m else forall k | k in n :: n[k].until > now)
    && (forall k | LiveAt(m, k, now) && k !in n ::
          |n| == max - 1 && forall j | j in n :: m[k].lastSeen <= n[j].lastSeen)
  }

  // The live keys that had to go.
  ghost function EvictedFrom<T>(m: map<Key, Slot<T>>, n: map<Key, Slot<T>>, now: i64): set<Key> {
    set k | k in m && m[k].until > now && k !in n
  }

  // Both capacity helpers of the source: `evicted` are the live keys that had to go.
  method EnsureCapacity<T>(m: map<Key, Slot<T>>, max: nat, now: i64) returns (n: map<Key, Slot<T>>, evicted: set<Key>)
    requires max >= 1
    ensures Evicts(m, n, max, now)
    ensures evicted == EvictedFrom(m, n, now)
  {
    if |m| < max {
      return m, {};
    }
    ghost var live := map k | k in m && m[k].until > now :: m[k];
    n := map k | k in m && m[k].until > now :: m[k];
    evicted := {};
    while |n| >= max
      invariant EvictedSoFar(live, n, evicted)
      invariant evicted != {} ==> |n| >= max - 1
      decreases |n|
    {
      hide EvictedSoFar;
      ghost var seen := map k | k in n :: n[k].lastSeen as int;
      assert seen.Keys == n.Keys;
      ghost var least := LeastValue(seen, seen.Keys);
      assert least in n && forall j | j in n :: n[least].lastSeen <= n[j].lastSeen;
      var oldest :| oldest in n && forall j | j in n :: n[oldest].lastSeen <= n[j].lastSeen;
      WithoutSize(n, oldest);
      EvictNext(live, n, evicted, oldest);
      n := n - {oldest};
      evicted := evicted + {oldest};
    }
  }

  // What is left of the live entries, and what went before it.
  ghost predicate EvictedSoFar<T>(live: map<Key, Slot<T>>, n: map<Key, Slot<T>>, evicted: set<Key>) {
    && Forgets(live, n)
    && (forall k :: k in evicted <==> k in live && k !in n)
    && (forall k, j | k in evicted && j in n :: live[k].lastSeen <= n[j].lastSeen)
  }

  // The other live keys seen when this one was or later.
  ghost function SeenSince<T>(m: map<Key, Slot<T>>, k: Key, now: i64): set<Key>
    requires k in m
  {
    set j | j in m && j != k && m[j].until > now && m[j].lastSeen >= m[k].lastSeen
  }

  // A live key goes only if as many others as there is room for were seen when it was or later, and
  // they are the ones that stay; so nothing live goes while it fits.
  lemma OnlyOldKeysGo<T>(m: map<Key, Slot<T>>, n: map<Key, Slot<T>>, max: nat, now: i64, k: Key)
    requires Evicts(m, n, max, now) && max >= 1 && k in m && m[k].until > now && k !in n
    ensures |SeenSince(m, k, now)| >= max - 1
    ensures n.Keys <= SeenSince(m, k, now) && |n| == max - 1 && |m| >= max
  {
    var later := SeenSince(m, k, now);
    assert n.Keys <= later;
    assert later == n.Keys + (later - n.Keys);
    assert |later| == |n.Keys| + |later - n.Keys|;
    assert |n| == |n.Keys|;
  }

  lemma EvictNext<T>(live: map<Key, Slot<T>>, n: map<Key, Slot<T>>, evicted: set<Key>, oldest: Key)
    requires EvictedSoFar(live, n, evicted)
    requires oldest in n && forall j | j in n :: n[oldest].lastSeen <= n[j].lastSeen
    ensures EvictedSoFar(live, n - {oldest}, evicted + {oldest})
  {
  }

  // Bounded, every entry the ideal one, generations distinct and bounded by the counter, and every
  // deadline one time to live after the entry was last seen.
  ghost predicate BindingsOk(entries: map<Key, Entry>, ideal: map<Key, Origin>, next: nat, ttl: i64, max: nat) {
    && |entries| <= max
    && (forall k | k in entries ::
          && k in ideal && ideal[k] == Origin(entries[k].item.target, entries[k].item.generation)
          && entries[k].until == SatAdd(entries[k].lastSeen, ttl))
    && (forall k | k in ideal :: 1 <= ideal[k].generation <= next)
    && (forall j, k | j in ideal && k in ideal && j != k :: ideal[j].generation != ideal[k].generation)
  }

  // An entry is confirmed exactly when its generation has been.
  ghost predicate MarksOk(entries: map<Key, Entry>, marks: set<nat>, next: nat) {
    && (forall k | k in entries :: entries[k].item.confirmed <==> entries[k].item.generation in marks)
    && (forall g | g in marks :: 1 <= g <= next)
  }

  lemma MarksKept(m: map<Key, Entry>, n: map<Key, Entry>, marks: set<nat>, next: nat)
    requires MarksOk(m, marks, next) && Forgets(m, n)
    ensures MarksOk(n, marks, next)
  {
  }

  lemma TouchMarks(m: map<Key, Entry>, ideal: map<Key, Origin>, marks: set<nat>, next: nat, ttl: i64, max: nat, k: Key,
                   now: i64)
    requires MarksOk(m, marks, next) && BindingsOk(m, ideal, next, ttl, max) && k in m
    ensures m[k].item.confirmed <==> m[k].item.generation in marks
    ensures MarksOk(m[k := Touched(m[k], now, ttl)], marks, next)
    ensures MarksOk(m[k := Confirmed(Touched(m[k], now, ttl))], marks + {m[k].item.generation}, next)
  {
    assert forall j | j in m && j != k :: m[j].item.generation != m[k].item.generation;
  }

  lemma NewMarks(m: map<Key, Entry>, ideal: map<Key, Origin>, marks: set<nat>, next: nat, ttl: i64, max: nat, k: Key,
                 target: Target, confirmed: bool, now: i64)
    requires MarksOk(m, marks, next) && BindingsOk(m, ideal, next, ttl, max)
    ensures MarksOk(m[k := FreshEntry(target, next + 1, confirmed, now, ttl)],
                    if confirmed then marks + {next + 1} else marks, next + 1)
    ensures next + 1 !in marks
  {
    assert forall j | j in m :: m[j].item.generation <= next;
  }

  // ---------- The history of bindings ----------

  // The creating claims and migrations since the last clear, in order: generation g is entry g - 1.
  type History = seq<(Key, Target)>

  // This generation was made for the key, with this target.
  predicate Made(made: History, k: Key, target: Target, generation: nat) {
    1 <= generation <= |made| && made[generation - 1] == (k, target)
  }

  // The binding was issued for the key.
  predicate Issued(made: History, k: Key, b: Binding) {
    Made(made, k, b.target, b.generation)
  }

  // Nothing was made for the key after this generation.
  predicate Latest(made: History, k: Key, generation: nat) {
    forall i :: generation <= i < |made| ==> made[i].0 != k
  }

  // The ideal map is what the history says, and the generation counter counts it.
  ghost predicate IdealOk(ideal: map<Key, Origin>, made: History, next: nat) {
    && |made| == next
    && (forall k | k in ideal :: Made(made, k, ideal[k].target, ideal[k].generation)
                               && Latest(made, k, ideal[k].generation))
    && (forall i :: 0 <= i < |made| ==> made[i].0 in ideal)
  }

  lemma IdealMade(ideal: map<Key, Origin>, made: History, next: nat, k: Key, target: Target)
    requires IdealOk(ideal, made, next)
    ensures IdealOk(ideal[k := Origin(target, next + 1)], made + [(k, target)], next + 1)
    ensures Made(made + [(k, target)], k, target, next + 1) && Latest(made + [(k, target)], k, next + 1)
  {
    var all := made + [(k, target)];
    assert all[next] == (k, target) && forall i | 0 <= i < |made| :: all[i] == made[i];
  }

  // What the history says of a stored binding, and of any binding issued for the same key: its
  // generation is the stored one exactly while nothing newer was made, and then so is its target.
  lemma IdealTells(ideal: map<Key, Origin>, made: History, next: nat, k: Key, b: Binding)
    requires IdealOk(ideal, made, next)
    ensures k in ideal ==> Made(made, k, ideal[k].target, ideal[k].generation) && Latest(made, k, ideal[k].generation)
    ensures k in ideal && ideal[k] == Origin(b.target, b.generation) ==> Issued(made, k, b)
    ensures Issued(made, k, b) ==>
      && k in ideal
      && (ideal[k].generation == b.generation <==> Latest(made, k, b.generation))
      && (ideal[k].generation == b.generation ==> ideal[k].target == b.target)
  {
    if Issued(made, k, b) {
      assert made[b.generation - 1].0 in ideal;
    }
  }

  function FreshEntry(target: Target, generation: nat, confirmed: bool, now: i64, ttl: i64): Entry {
    Slot(Binding(target, generation, confirmed), SatAdd(now, ttl), now)
  }

  lemma TouchKeeps(m: map<Key, Entry>, ideal: map<Key, Origin>, next: nat, ttl: i64, max: nat, k: Key, now: i64)
    requires BindingsOk(m, ideal, next, ttl, max) && k in m
    ensures ideal.Keys >= m.Keys && ideal[k] == Origin(m[k].item.target, m[k].item.generation)
    ensures m[k].until == SatAdd(m[k].lastSeen, ttl)
    ensures BindingsOk(m[k := Touched(m[k], now, ttl)], ideal, next, ttl, max)
    ensures BindingsOk(m[k := Confirmed(Touched(m[k], now, ttl))], ideal, next, ttl, max)
  {
    WithSize(m, k, Touched(m[k], now, ttl));
    WithSize(m, k, Confirmed(Touched(m[k], now, ttl)));
  }

  lemma LiveIsFresh(e: Entry, now: i64, ttl: i64)
    requires e.until == SatAdd(e.lastSeen, ttl) && now < e.until
    ensures now < e.lastSeen + ttl
  {
  }

  lemma ForgettingKeeps(m: map<Key, Entry>, n: map<Key, Entry>, ideal: map<Key, Origin>, next: nat, ttl: i64, max: nat)
    requires BindingsOk(m, ideal, next, ttl, max) && Forgets(m, n)
    ensures BindingsOk(n, ideal, next, ttl, max) && |n| <= |m| && ideal.Keys >= m.Keys
    ensures forall k | k in m :: ideal[k] == Origin(m[k].item.target, m[k].item.generation)
  {
    SubmapSize(m, n);
  }

  // A new origin for `k`.
  lemma BindingMade(m: map<Key, Entry>, ideal: map<Key, Origin>, next: nat, ttl: i64, max: nat,
                    k: Key, target: Target, confirmed: bool, now: i64)
    requires BindingsOk(m, ideal, next, ttl, max) && (k in m || |m| < max)
    ensures BindingsOk(m[k := FreshEntry(target, next + 1, confirmed, now, ttl)],
                       ideal[k := Origin(target, next + 1)], next + 1, ttl, max)
  {
    WithSize(m, k, FreshEntry(target, next + 1, confirmed, now, ttl));
  }

  lemma ForgetsNothing<T>(m: map<Key, T>)
    ensures Forgets(m, m)
  {
  }

  lemma ForgetsSome<T>(m: map<Key, T>, keys: set<Key>)
    ensures Forgets(m, m - keys) && |m - keys| <= |m|
  {
    SubmapSize(m, m - keys);
  }

  lemma ForgetsAlso<T>(m: map<Key, T>, n: map<Key, T>, k: Key)
    requires Forgets(m, n)
    ensures Forgets(m, n - {k})
  {
  }

  lemma StillAbsent<T>(m: map<Key, T>, n: map<Key, T>, k: Key)
    requires Forgets(m, n) && k !in m
    ensures k !in n
  {
  }

  lemma RoomMade(before: map<Key, Entry>, k: Key, room: map<Key, Entry>, max: nat, now: i64)
    requires Evicts(before - {k}, room, max, now)
    ensures Forgets(before, room) && |room| < max && k !in room && room - {k} == room
  {
    WithoutSize(room, k);
  }

  class AffinityBook {
    const ttl: i64
    const maxEntries: nat
    var entries: map<Key, Entry>
    var avoided: map<Key, Avoid>
    var nextGeneration: nat
    ghost var ideal: map<Key, Origin>
    ghost var made: History
    ghost var marks: set<nat>  // the generations confirmed since the last clear

    ghost predicate Valid()
      reads this
    {
      && maxEntries >= 1 && |avoided| <= maxEntries && BindingsOk(entries, ideal, nextGeneration, ttl, maxEntries)
      && IdealOk(ideal, made, nextGeneration) && MarksOk(entries, marks, nextGeneration)
    }

    constructor (ttl: i64, maxEntries: nat)
      ensures Valid() && entries == map[] && avoided == map[] && ideal == map[] && made == [] && marks == {}
      ensures this.ttl == ttl && this.maxEntries == (if maxEntries >= 1 then maxEntries else 1)
    {
      this.ttl, this.maxEntries := ttl, if maxEntries >= 1 then maxEntries else 1;
      entries, avoided, nextGeneration, ideal, made, marks := map[], map[], 0, map[], [], {};
    }

    method Clear()
      requires Valid()
      modifies this
      ensures Valid() && entries == map[] && avoided == map[] && ideal == map[] && made == [] && marks == {}
    {
      entries, avoided, nextGeneration, ideal, made, marks := map[], map[], 0, map[], [], {};
    }

    // A binding found is the latest made for the key, last refreshed less than one time to live ago.
    method Lookup(k: Key, now: i64) returns (r: Option<Binding>)
      requires Valid()
      modifies this`entries
      ensures Valid()
      ensures r.Some? <==> LiveAt(old(entries), k, now)
      ensures r.Some? <==> k in old(entries) && now < SatAdd(old(entries)[k].lastSeen, ttl)
      ensures r.Some? ==> (r.value.confirmed <==> r.value.generation in marks)
      ensures r.Some? ==>
        && k in ideal && Origin(r.value.target, r.value.generation) == ideal[k]
        && r.value == old(entries)[k].item
        && now < old(entries)[k].lastSeen + ttl
        && entries == old(entries)[k := Touched(old(entries)[k], now, ttl)]
      ensures r.Some? ==> Issued(made, k, r.value) && Latest(made, k, r.value.generation)
      ensures r.None? ==> entries == old(entries) - {k}
    {
      hide MarksOk, BindingsOk, IdealOk, Made, Latest, SatAdd;
      IdealTells(ideal, made, nextGeneration, k, Binding(Target(0, None, None), 0, false));
      if k in entries {
        TouchKeeps(entries, ideal, nextGeneration, ttl, maxEntries, k, now);
        TouchMarks(entries, ideal, marks, nextGeneration, ttl, maxEntries, k, now);
      }
      if k in entries && entries[k].until <= now {
        ForgetsSome(entries, {k});
        ForgettingKeeps(entries, entries - {k}, ideal, nextGeneration, ttl, maxEntries);
        MarksKept(entries, entries - {k}, marks, nextGeneration);
        entries := entries - {k};
        return None;
      }
      if k !in entries {
        assert entries == entries - {k};
        return None;
      }
      LiveIsFresh(entries[k], now, ttl);
      var e := entries[k];
      e := e.(until := SatAdd(now, ttl), lastSeen := now);
      entries := entries[k := e];
      return Some(e.item);
    }

    // A claim never changes a live binding; otherwise it makes the key's new ideal one. The
    // avoidances of evicted keys go with them.
    method ClaimTarget(k: Key, target: Target, now: i64) returns (r: Binding)
      requires Valid()
      modifies this`entries, this`avoided, this`nextGeneration, this`ideal, this`made, this`marks
      ensures Valid() && k in entries && r == entries[k].item && ideal[k] == Origin(r.target, r.generation)
      ensures Issued(made, k, r) && Latest(made, k, r.generation)
      ensures marks == old(marks) && (r.confirmed <==> r.generation in marks)
      ensures entries[k].lastSeen == now && Forgets(old(avoided), avoided)
      ensures made == if LiveAt(old(entries), k, now) then old(made) else old(made) + [(k, target)]
      ensures LiveAt(old(entries), k, now) ==>
        && r == old(entries)[k].item && ideal == old(ideal) && avoided == old(avoided)
        && nextGeneration == old(nextGeneration)
        && entries == old(entries)[k := Touched(old(entries)[k], now, ttl)]
      ensures !LiveAt(old(entries), k, now) ==>
        && r == Binding(target, old(nextGeneration) + 1, false) && nextGeneration == old(nextGeneration) + 1
        && ideal == old(ideal)[k := Origin(target, nextGeneration)]
        && Evicts(old(entries) - {k}, entries - {k}, maxEntries, now)
        && avoided == old(avoided) - EvictedFrom(old(entries) - {k}, entries - {k}, now)
    {
      hide MarksOk, BindingsOk, Forgets, Evicts, EvictedFrom, IdealOk, Made, Latest, SatAdd;
      IdealTells(ideal, made, nextGeneration, k, Binding(target, 0, false));
      ghost var before := entries;
      ForgetsSome(entries, {k});
      ForgettingKeeps(entries, entries - {k}, ideal, nextGeneration, ttl, maxEntries);
      MarksKept(entries, entries - {k}, marks, nextGeneration);
      if k in entries && entries[k].until <= now {
        entries := entries - {k};
      }
      if k in entries {
        TouchKeeps(entries, ideal, nextGeneration, ttl, maxEntries, k, now);
        TouchMarks(entries, ideal, marks, nextGeneration, ttl, maxEntries, k, now);
        var e := entries[k];
        e := e.(until := SatAdd(now, ttl), lastSeen := now);
        entries := entries[k := e];
        assert Forgets(avoided, avoided) by { ForgetsNothing(avoided); }
        return e.item;
      }
      WithoutSize(before, k);
      assert entries == before - {k};
      EnsureEntryCapacity(now);
      RoomMade(before, k, entries, maxEntries, now);
      r := Insert(k, target, false, now);
    }

    // Makes room for one more entry; the avoidances of live keys that had to go, go with them.
    method EnsureEntryCapacity(now: i64)
      requires Valid()
      modifies this`entries, this`avoided
      ensures Valid() && Evicts(old(entries), entries, maxEntries, now) && Forgets(old(avoided), avoided)
      ensures avoided == old(avoided) - EvictedFrom(old(entries), entries, now)
    {
      hide MarksOk, BindingsOk, IdealOk, EvictedFrom;
      var room, evicted := EnsureCapacity(entries, maxEntries, now);
      ForgettingKeeps(entries, room, ideal, nextGeneration, ttl, maxEntries);
      MarksKept(entries, room, marks, nextGeneration);
      ForgetsSome(avoided, evicted);
      entries, avoided := room, avoided - evicted;
    }

    // The next generation goes to `k`.
    method Insert(k: Key, target: Target, confirmed: bool, now: i64) returns (r: Binding)
      requires Valid() && (k in entries || |entries| < maxEntries)
      modifies this`entries, this`nextGeneration, this`ideal, this`made, this`marks
      ensures Valid()
      ensures marks == if confirmed then old(marks) + {nextGeneration} else old(marks)
      ensures confirmed <==> r.generation in marks
      ensures made == old(made) + [(k, target)] && Issued(made, k, r) && Latest(made, k, r.generation)
      ensures nextGeneration == old(nextGeneration) + 1 && r == Binding(target, nextGeneration, confirmed)
      ensures entries == old(entries)[k := FreshEntry(target, nextGeneration, confirmed, now, ttl)]
      ensures ideal == old(ideal)[k := Origin(target, nextGeneration)]
      ensures entries - {k} == old(entries) - {k}
    {
      hide MarksOk, BindingsOk, Forgets, IdealOk, Made, Latest;
      IdealMade(ideal, made, nextGeneration, k, target);
      WithSize(entries, k, FreshEntry(target, nextGeneration + 1, confirmed, now, ttl));
      BindingMade(entries, ideal, nextGeneration, ttl, maxEntries, k, target, confirmed, now);
      NewMarks(entries, ideal, marks, nextGeneration, ttl, maxEntries, k, target, confirmed, now);
      nextGeneration := nextGeneration + 1;
      var e := FreshEntry(target, nextGeneration, confirmed, now, ttl);
      entries := entries[k := e];
      ideal, made := ideal[k := Origin(target, nextGeneration)], made + [(k, target)];
      marks := if confirmed then marks + {nextGeneration} else marks;
      return e.item;
    }

    // A binding issued for the key is confirmed exactly while the key has an entry and nothing newer
    // was made for it: only on the very entry it was issued for.
    method Confirm(k: Key, b: Binding, now: i64) returns (r: bool)
      requires Valid()
      modifies this`entries, this`avoided, this`marks
      ensures Valid()
      ensures marks == if r then old(marks) + {b.generation} else old(marks)
      ensures r <==>
        k in old(entries) && ideal[k].generation == b.generation && ideal[k].target.provider == b.target.provider
      ensures Issued(made, k, b) ==> (r <==> k in old(entries) && Latest(made, k, b.generation))
      ensures Issued(made, k, b) && r ==> ideal[k] == Origin(b.target, b.generation)
      ensures r ==> 1 <= b.generation <= |made| && made[b.generation - 1].0 == k && Latest(made, k, b.generation)
      ensures r ==> entries == old(entries)[k := Confirmed(Touched(old(entries)[k], now, ttl))]
      ensures r ==> avoided == old(avoided) - {k}
      ensures !r ==> entries == old(entries) && avoided == old(avoided)
    {
      hide MarksOk, BindingsOk, IdealOk, Latest;
      IdealTells(ideal, made, nextGeneration, k, b);
      if k in entries {
        TouchKeeps(entries, ideal, nextGeneration, ttl, maxEntries, k, now);
        TouchMarks(entries, ideal, marks, nextGeneration, ttl, maxEntries, k, now);
      }
      if k !in entries {
        return false;
      }
      var e := entries[k];
      if e.item.target.provider != b.target.provider || e.item.generation != b.generation {
        return false;
      }
      e := e.(item := e.item.(confirmed := true));
      e := e.(until := SatAdd(now, ttl), lastSeen := now);
      entries := entries[k := e];
      marks := marks + {b.generation};
      WithoutSize(avoided, k);
      avoided := avoided - {k};
      return true;
    }

    method MigrateTarget(k: Key, target: Target, now: i64) returns (r: Binding)
      requires Valid()
      modifies this`entries, this`avoided, this`nextGeneration, this`ideal, this`made, this`marks
      ensures Valid() && k in entries && r == entries[k].item && k !in avoided
      ensures marks == old(marks) + {nextGeneration}
      ensures made == old(made) + [(k, target)] && Issued(made, k, r) && Latest(made, k, r.generation)
      ensures r == Binding(target, old(nextGeneration) + 1, true) && nextGeneration == old(nextGeneration) + 1
      ensures ideal == old(ideal)[k := Origin(target, nextGeneration)]
      ensures entries[k].lastSeen == now && Forgets(old(avoided), avoided)
      ensures k in old(entries) ==> entries - {k} == old(entries) - {k} && avoided == old(avoided) - {k}
      ensures k !in old(entries) ==>
        && Evicts(old(entries), entries - {k}, maxEntries, now)
        && avoided == old(avoided) - EvictedFrom(old(entries), entries - {k}, now) - {k}
    {
      hide MarksOk, BindingsOk, Forgets, EvictedFrom, IdealOk, Made, Latest, SatAdd;
      ForgetsNothing(avoided);
      WithoutSize(entries, k);
      if k !in entries {
        EnsureEntryCapacity(now);
        StillAbsent(old(entries), entries, k);
        WithoutSize(entries, k);
      }
      r := Insert(k, target, true, now);
      WithoutSize(avoided, k);
      ForgetsAlso(old(avoided), avoided, k);
      avoided := avoided - {k};
    }

    method RefreshIfProvider(k: Key, provider: int, now: i64) returns (r: bool)
      requires Valid()
      modifies this`entries, this`marks
      ensures Valid()
      ensures r <==> k in old(entries) && ideal[k].target.provider == provider
      ensures r ==> k in entries && Issued(made, k, entries[k].item) && Latest(made, k, entries[k].item.generation)
      ensures marks == if r then old(marks) + {ideal[k].generation} else old(marks)
      ensures entries == if r then old(entries)[k := Confirmed(Touched(old(entries)[k], now, ttl))] else old(entries)
    {
      hide MarksOk, BindingsOk, IdealOk, Latest;
      IdealTells(ideal, made, nextGeneration, k, Binding(Target(provider, None, None), 0, false));
      if k in entries {
        TouchKeeps(entries, ideal, nextGeneration, ttl, maxEntries, k, now);
        TouchMarks(entries, ideal, marks, nextGeneration, ttl, maxEntries, k, now);
      }
      if k !in entries || entries[k].item.target.provider != provider {
        return false;
      }
      marks := marks + {entries[k].item.generation};
      entries := entries[k := Confirmed(Touched(entries[k], now, ttl))];
      return true;
    }

    method RefreshIfTarget(k: Key, b: Binding, now: i64) returns (r: bool)
      requires Valid()
      modifies this`entries, this`marks
      ensures Valid()
      ensures marks == if r then old(marks) + {b.generation} else old(marks)
      ensures r <==> k in old(entries) && ideal[k] == Origin(b.target, b.generation)
      ensures r ==> Issued(made, k, b)
      ensures Issued(made, k, b) ==> (r <==> k in old(entries) && Latest(made, k, b.generation))
      ensures entries == if r then old(entries)[k := Confirmed(Touched(old(entries)[k], now, ttl))] else old(entries)
    {
      hide MarksOk, BindingsOk, IdealOk, Latest;
      IdealTells(ideal, made, nextGeneration, k, b);
      if k in entries {
        TouchKeeps(entries, ideal, nextGeneration, ttl, maxEntries, k, now);
        TouchMarks(entries, ideal, marks, nextGeneration, ttl, maxEntries, k, now);
      }
      if k !in entries || entries[k].item.target != b.target || entries[k].item.generation != b.generation {
        return false;
      }
      marks := marks + {b.generation};
      entries := entries[k := Confirmed(Touched(entries[k], now, ttl))];
      return true;
    }

    method ClearIfProvider(k: Key, provider: int) returns (r: bool)
      requires Valid()
      modifies this`entries
      ensures Valid()
      ensures r <==> k in old(entries) && ideal[k].target.provider == provider
      ensures entries == if r then old(entries) - {k} else old(entries)
    {
      r := k in entries && entries[k].item.target.provider == provider;
      if r {
        WithoutSize(entries, k);
        entries := entries - {k};
      }
    }

    // A failed provider loses the key's binding and is avoided for it until the given time.
    method MarkProviderFailed(k: Key, provider: int, now: i64, avoidFor: i64)
      requires Valid()
      modifies this`entries, this`avoided
      ensures Valid()
      ensures k in entries ==> entries[k].item.target.provider != provider
      ensures entries ==
        if k in old(entries) && old(entries)[k].item.target.provider == provider then old(entries) - {k}
        else old(entries)
      ensures k in avoided && avoided[k] == Slot(provider, SatAdd(now, avoidFor), now)
      ensures k in old(avoided) ==> avoided - {k} == old(avoided) - {k}
      ensures k !in old(avoided) ==> Evicts(old(avoided), avoided - {k}, maxEntries, now)
    {
      hide MarksOk, IdealOk, BindingsOk;
      ForgettingKeeps(entries, entries - {k}, ideal, nextGeneration, ttl, maxEntries);
      MarksKept(entries, entries - {k}, marks, nextGeneration);
      if k in entries && entries[k].item.target.provider == provider {
        WithoutSize(entries, k);
        entries := entries - {k};
      }
      if k !in avoided {
        var evicted;
        avoided, evicted := EnsureCapacity(avoided, maxEntries, now);
        WithoutSize(avoided, k);
      }
      var a := Slot(provider, SatAdd(now, avoidFor), now);
      WithSize(avoided, k, a);
      avoided := avoided[k := a];
    }

    method IsProviderAvoided(k: Key, provider: int, now: i64) returns (r: bool)
      requires Valid()
      modifies this`avoided
      ensures Valid()
      ensures r <==> k in old(avoided) && old(avoided)[k].until > now && old(avoided)[k].item == provider
      ensures avoided ==
        if k in old(avoided) && old(avoided)[k].until > now then old(avoided)[k := old(avoided)[k].(lastSeen := now)]
        else old(avoided) - {k}
    {
      if k !in avoided {
        assert avoided - {k} == avoided;
        return false;
      }
      var a := avoided[k];
      if a.until <= now {
        WithoutSize(avoided, k);
        avoided := avoided - {k};
        return false;
      }
      avoided := avoided[k := a.(lastSeen := now)];
      return a.item == provider;
    }

    method PurgeProvider(provider: int)
      requires Valid()
      modifies this`entries, this`avoided
      ensures Valid() && Forgets(old(entries), entries) && Forgets(old(avoided), avoided)
      ensures forall k | k in old(entries) :: k in entries <==> old(entries)[k].item.target.provider != provider
      ensures forall k | k in old(avoided) :: k in avoided <==> old(avoided)[k].item != provider
    {
      hide MarksOk, IdealOk, BindingsOk;
      ghost var all, allAvoided := entries, avoided;
      entries := map k | k in entries && entries[k].item.target.provider != provider :: entries[k];
      avoided := map k | k in avoided && avoided[k].item != provider :: avoided[k];
      ForgettingKeeps(all, entries, ideal, nextGeneration, ttl, maxEntries);
      MarksKept(all, entries, marks, nextGeneration);
      SubmapSize(allAvoided, avoided);
    }

    // How many keys are bound, and confirmed, to each provider.
    method BindingCountsByProvider(now: i64) returns (counts: map<int, nat>)
      requires Valid()
      modifies this`entries, this`avoided
      ensures Valid() && Forgets(old(entries), entries) && Forgets(old(avoided), avoided)
      ensures forall k | k in old(entries) :: k in entries <==> old(entries)[k].until > now
      ensures forall k | k in old(avoided) :: k in avoided <==> old(avoided)[k].until > now
      ensures forall p :: CountFor(counts, p) == |BoundTo(entries, entries.Keys, p)|
    {
      hide MarksOk, IdealOk, BindingsOk;
      ghost var all, allAvoided := entries, avoided;
      entries := map k | k in entries && entries[k].until > now :: entries[k];
      avoided := map k | k in avoided && avoided[k].until > now :: avoided[k];
      ForgettingKeeps(all, entries, ideal, nextGeneration, ttl, maxEntries);
      MarksKept(all, entries, marks, nextGeneration);
      SubmapSize(allAvoided, avoided);
      counts := CountConfirmed(entries);
    }
  }

  lemma OneMore(m: map<Key, Entry>, done: set<Key>, k: Key, provider: int)
    requires done <= m.Keys && k in m && k !in done
    ensures |BoundTo(m, done + {k}, provider)|
         == |BoundTo(m, done, provider)|
            + (if m[k].item.confirmed && m[k].item.target.provider == provider then 1 else 0)
  {
    if m[k].item.confirmed && m[k].item.target.provider == provider {
      assert BoundTo(m, done + {k}, provider) == BoundTo(m, done, provider) + {k};
    } else {
      assert BoundTo(m, done + {k}, provider) == BoundTo(m, done, provider);
    }
  }

  ghost function BoundTo(m: map<Key, Entry>, keys: set<Key>, provider: int): set<Key>
    requires keys <= m.Keys
  {
    set k | k in keys && m[k].item.confirmed && m[k].item.target.provider == provider
  }

  function CountFor(counts: map<int, nat>, provider: int): nat {
    if provider in counts then counts[provider] else 0
  }

  method CountConfirmed(m: map<Key, Entry>) returns (counts: map<int, nat>)
    ensures forall p :: CountFor(counts, p) == |BoundTo(m, m.Keys, p)|
  {
    counts := map[];
    var left := m.Keys;
    ghost var done := {};
    while left != {}
      invariant left <= m.Keys && done == m.Keys - left
      invariant forall p :: CountFor(counts, p) == |BoundTo(m, done, p)|
      decreases |left|
    {
      var k :| k in left;
      var b := m[k].item;
      forall p {
        OneMore(m, done, k, p);
      }
      if b.confirmed {
        counts := counts[b.target.provider := CountFor(counts, b.target.provider) + 1];
      }
      left := left - {k};
      done := done + {k};
    }
    assert done == m.Keys;
  }
}
