/** Any caller of the affinity book, between two clears: what holds of its answers in every sequence
    of calls. */
module AffinityRuns {
  import opened Wrappers
  import opened Int64
  import opened AffinityBook

  datatype Call =
    | LookupCall(k: Key, now: i64)
    | ClaimCall(k: Key, target: Target, now: i64)
    | ConfirmCall(k: Key, b: Binding, now: i64)
    | MigrateCall(k: Key, target: Target, now: i64)
    | RefreshProviderCall(k: Key, provider: int, now: i64)
    | RefreshTargetCall(k: Key, b: Binding, now: i64)
    | ClearProviderCall(k: Key, provider: int)
    | FailCall(k: Key, provider: int, now: i64, avoidFor: i64)
    | AvoidedCall(k: Key, provider: int, now: i64)
    | PurgeCall(provider: int)
    | CountCall(now: i64)

  // Calls that hand a binding out, and calls that take one back in.
  predicate Binds(c: Call) {
    c.LookupCall? || c.ClaimCall? || c.MigrateCall?
  }

  predicate Uses(c: Call) {
    c.ConfirmCall? || c.RefreshTargetCall?
  }

  // What the book has made, and which generations are confirmed.
  datatype View = View(made: History, marks: set<nat>)

  ghost function ViewOf(book: AffinityBook): View
    reads book
  {
    View(book.made, book.marks)
  }

  // The generation was made for the key and is the last made for it.
  predicate Newest(made: History, k: Key, generation: nat) {
    1 <= generation <= |made| && made[generation - 1].0 == k && Latest(made, k, generation)
  }

  // What one call confirms: the generation it migrates to, or the one it uses or refreshes with
  // success.
  function Confirms(c: Call, after: History, answer: Option<Binding>): set<nat> {
    if c.MigrateCall? then {|after|}
    else if (Uses(c) || c.RefreshProviderCall?) && answer.Some? then {answer.value.generation}
    else {}
  }

  // One call: what it adds to the history, and what its answer says. A binding answered is issued
  // and the newest, and says whether its generation is confirmed; a binding used with success is the
  // newest of its key. A refresh by provider answers with the binding it refreshed.
  ghost predicate Answered(c: Call, before: View, after: View, answer: Option<Binding>) {
    && (after.made == before.made
        || ((c.ClaimCall? || c.MigrateCall?) && after.made == before.made + [(c.k, c.target)]))
    && (c.MigrateCall? ==> after.made != before.made)
    && after.marks == before.marks + Confirms(c, after.made, answer)
    && (Binds(c) && answer.Some? ==>
          && Issued(after.made, c.k, answer.value) && Newest(after.made, c.k, answer.value.generation)
          && (answer.value.confirmed <==> answer.value.generation in after.marks))
    && (Uses(c) && answer.Some? ==> answer.value == c.b && Newest(after.made, c.k, c.b.generation))
    && (c.RefreshProviderCall? && answer.Some? ==>
          && answer.value.target.provider == c.provider
          && Issued(after.made, c.k, answer.value) && Newest(after.made, c.k, answer.value.generation))
  }

  ghost predicate Ran(calls: seq<Call>, answers: seq<Option<Binding>>, views: seq<View>) {
    && |answers| == |calls| && |views| == |calls| + 1
    && forall i :: 0 <= i < |calls| ==> Answered(calls[i], views[i], views[i + 1], answers[i])
  }

  lemma BindingAnswered(c: Call, before: View, after: View, answer: Option<Binding>)
    requires Binds(c)
    requires answer.Some? ==>
      && Issued(after.made, c.k, answer.value) && Latest(after.made, c.k, answer.value.generation)
      && (answer.value.confirmed <==> answer.value.generation in after.marks)
    requires after.made == before.made || (!c.LookupCall? && after.made == before.made + [(c.k, c.target)])
    requires c.MigrateCall? ==> after.made == before.made + [(c.k, c.target)]
    requires after.marks == if c.MigrateCall? then before.marks + {|after.made|} else before.marks
    ensures Answered(c, before, after, answer)
  {
    hide Latest;
  }

  method PerformBinding(book: AffinityBook, c: Call) returns (answer: Option<Binding>)
    requires book.Valid() && Binds(c)
    modifies book
    ensures book.Valid() && Answered(c, old(ViewOf(book)), ViewOf(book), answer)
  {
    hide Answered, Made, Latest, BindingsOk, MarksOk, IdealOk, Forgets, Evicts, EvictedFrom, LiveAt, Touched, Newest;
    ghost var before := ViewOf(book);
    GenerationsCounted(book);
    if c.LookupCall? {
      answer := book.Lookup(c.k, c.now);
    } else if c.ClaimCall? {
      var b := book.ClaimTarget(c.k, c.target, c.now);
      answer := Some(b);
    } else {
      var b := book.MigrateTarget(c.k, c.target, c.now);
      answer := Some(b);
      GenerationsCounted(book);
    }
    BindingAnswered(c, before, ViewOf(book), answer);
  }

  lemma GenerationsCounted(book: AffinityBook)
    requires book.Valid()
    ensures |book.made| == book.nextGeneration
  {
  }

  lemma UseAnswered(c: Call, v: View, w: View, ok: bool)
    requires Uses(c) && (ok ==> Newest(v.made, c.k, c.b.generation))
    requires w.made == v.made && w.marks == if ok then v.marks + {c.b.generation} else v.marks
    ensures Answered(c, v, w, if ok then Some(c.b) else None)
  {
  }

  method PerformUse(book: AffinityBook, c: Call) returns (answer: Option<Binding>)
    requires book.Valid() && Uses(c)
    modifies book`entries, book`avoided, book`marks
    ensures book.Valid() && Answered(c, old(ViewOf(book)), ViewOf(book), answer)
  {
    hide Answered, Latest, BindingsOk, MarksOk, IdealOk, Touched, Confirmed;
    ghost var before := ViewOf(book);
    var ok;
    if c.ConfirmCall? {
      ok := book.Confirm(c.k, c.b, c.now);
    } else {
      ok := book.RefreshIfTarget(c.k, c.b, c.now);
    }
    UseAnswered(c, before, ViewOf(book), ok);
    answer := if ok then Some(c.b) else None;
  }

  method PerformRefresh(book: AffinityBook, c: Call) returns (answer: Option<Binding>)
    requires book.Valid() && c.RefreshProviderCall?
    modifies book`entries, book`marks
    ensures book.Valid() && Answered(c, old(ViewOf(book)), ViewOf(book), answer)
  {
    hide Latest, BindingsOk, MarksOk, IdealOk, Touched;
    IdealAgrees(book, c.k);
    var ok := book.RefreshIfProvider(c.k, c.provider, c.now);
    answer := if ok then Some(book.entries[c.k].item) else None;
    IdealAgrees(book, c.k);
  }

  lemma IdealAgrees(book: AffinityBook, k: Key)
    requires book.Valid()
    ensures k in book.entries ==>
      k in book.ideal && book.ideal[k] == Origin(book.entries[k].item.target, book.entries[k].item.generation)
  {
  }

  method PerformOther(book: AffinityBook, c: Call)
    requires book.Valid() && !Binds(c) && !Uses(c) && !c.RefreshProviderCall?
    modifies book`entries, book`avoided
    ensures book.Valid()
  {
    hide Forgets, Evicts, Touched, Confirmed, CountFor, BoundTo;
    match c {
      case ClearProviderCall(k, provider) =>
        var _ := book.ClearIfProvider(k, provider);
      case FailCall(k, provider, now, avoidFor) => book.MarkProviderFailed(k, provider, now, avoidFor);
      case AvoidedCall(k, provider, now) =>
        var _ := book.IsProviderAvoided(k, provider, now);
      case PurgeCall(provider) => book.PurgeProvider(provider);
      case CountCall(now) =>
        var _ := book.BindingCountsByProvider(now);
    }
  }

  method Perform(book: AffinityBook, c: Call) returns (answer: Option<Binding>)
    requires book.Valid()
    modifies book
    ensures book.Valid() && Answered(c, old(ViewOf(book)), ViewOf(book), answer)
  {
    hide BindingsOk, MarksOk, IdealOk, Newest;
    if Binds(c) {
      answer := PerformBinding(book, c);
    } else if Uses(c) {
      answer := PerformUse(book, c);
    } else if c.RefreshProviderCall? {
      answer := PerformRefresh(book, c);
    } else {
      PerformOther(book, c);
      answer := None;
    }
  }

  // Every sequence of calls is a run.
  method PerformAll(book: AffinityBook, calls: seq<Call>)
    returns (answers: seq<Option<Binding>>, ghost views: seq<View>)
    requires book.Valid()
    modifies book
    ensures book.Valid() && Ran(calls, answers, views)
    ensures views[0] == old(ViewOf(book)) && views[|calls|] == ViewOf(book)
  {
    hide Answered, BindingsOk, MarksOk, IdealOk;
    answers, views := [], [ViewOf(book)];
    for i := 0 to |calls|
      invariant book.Valid() && |answers| == i && |views| == i + 1
      invariant views[0] == old(ViewOf(book)) && views[i] == ViewOf(book)
      invariant forall j :: 0 <= j < i ==> Answered(calls[j], views[j], views[j + 1], answers[j])
    {
      var answer := Perform(book, calls[i]);
      answers, views := answers + [answer], views + [ViewOf(book)];
    }
  }

  // ---------- What holds of every run ----------

  lemma {:induction false} HistoryGrows(calls: seq<Call>, answers: seq<Option<Binding>>,
                                        views: seq<View>, i: nat, j: nat)
    requires Ran(calls, answers, views) && i <= j <= |calls|
    ensures views[i].made <= views[j].made
    decreases j - i
  {
    if i < j {
      HistoryGrows(calls, answers, views, i, j - 1);
      assert Answered(calls[j - 1], views[j - 1], views[j], answers[j - 1]);
    }
  }

  lemma NewestBefore(early: History, late: History, k: Key, generation: nat)
    requires early <= late && generation <= |early| && Newest(late, k, generation)
    ensures Newest(early, k, generation)
  {
    assert forall i | 0 <= i < |early| :: early[i] == late[i];
  }

  // A binding handed out for one key is taken back with success only for that very key, and only
  // while nothing newer was made for it; so once the key is claimed anew or migrated, never again.
  lemma BindingsEndForGood(calls: seq<Call>, answers: seq<Option<Binding>>, views: seq<View>, i: nat, j: nat)
    requires Ran(calls, answers, views) && i < j < |calls|
    requires Binds(calls[i]) && answers[i].Some? && Uses(calls[j]) && calls[j].b == answers[i].value
    ensures answers[j].Some? ==> calls[j].k == calls[i].k
    ensures answers[j].Some? ==> forall m | i < m <= j + 1 :: Newest(views[m].made, calls[i].k, calls[j].b.generation)
    ensures (exists m :: i < m < j && calls[m].MigrateCall? && calls[m].k == calls[i].k) ==> answers[j].None?
  {
    hide Latest;
    var b := answers[i].value;
    assert Answered(calls[i], views[i], views[i + 1], answers[i]);
    assert Answered(calls[j], views[j], views[j + 1], answers[j]);
    HistoryGrows(calls, answers, views, i + 1, j + 1);
    if answers[j].Some? {
      assert views[j + 1].made[b.generation - 1] == views[i + 1].made[b.generation - 1];
      forall m | i < m <= j + 1 ensures Newest(views[m].made, calls[i].k, b.generation) {
        HistoryGrows(calls, answers, views, i + 1, m);
        HistoryGrows(calls, answers, views, m, j + 1);
        NewestBefore(views[m].made, views[j + 1].made, calls[i].k, b.generation);
      }
      if m :| i < m < j && calls[m].MigrateCall? && calls[m].k == calls[i].k {
        assert Answered(calls[m], views[m], views[m + 1], answers[m]);
        HistoryGrows(calls, answers, views, i + 1, m);
        MakingEnds(views[m].made, calls[i].k, calls[m].target, b.generation);
        assert false;
      }
    }
  }

  lemma MakingEnds(made: History, k: Key, target: Target, generation: nat)
    requires generation <= |made|
    ensures !Latest(made + [(k, target)], k, generation)
  {
    assert (made + [(k, target)])[|made|].0 == k;
  }

  // Bindings handed out with one generation are for one key and one target.
  lemma OneBindingPerGeneration(calls: seq<Call>, answers: seq<Option<Binding>>, views: seq<View>, i: nat, j: nat)
    requires Ran(calls, answers, views) && i < |calls| && j < |calls|
    requires Binds(calls[i]) && answers[i].Some? && Binds(calls[j]) && answers[j].Some?
    requires answers[i].value.generation == answers[j].value.generation
    ensures calls[i].k == calls[j].k && answers[i].value.target == answers[j].value.target
  {
    hide Latest;
    assert Answered(calls[i], views[i], views[i + 1], answers[i]);
    assert Answered(calls[j], views[j], views[j + 1], answers[j]);
    HistoryGrows(calls, answers, views, if i <= j then i + 1 else j + 1, if i <= j then j + 1 else i + 1);
    var g := answers[i].value.generation;
    assert views[i + 1].made[g - 1] == views[j + 1].made[g - 1];
  }

  // In every run that starts with nothing confirmed, a binding handed out says it is confirmed exactly
  // when its generation was migrated to, or used or refreshed with success by an earlier call.
  lemma ConfirmedExactly(calls: seq<Call>, answers: seq<Option<Binding>>, views: seq<View>, i: nat)
    requires Ran(calls, answers, views) && views[0].marks == {}
    requires i < |calls| && Binds(calls[i]) && answers[i].Some?
    ensures answers[i].value.confirmed <==>
      exists j :: 0 <= j <= i && answers[i].value.generation in Confirms(calls[j], views[j + 1].made, answers[j])
  {
    hide Confirms;
    assert Answered(calls[i], views[i], views[i + 1], answers[i]);
    MarksCollect(calls, answers, views, i + 1, answers[i].value.generation);
  }

  lemma {:induction false} MarksCollect(calls: seq<Call>, answers: seq<Option<Binding>>, views: seq<View>, n: nat,
                                        g: nat)
    requires Ran(calls, answers, views) && views[0].marks == {} && n <= |calls|
    ensures g in views[n].marks <==>
      exists j :: 0 <= j < n && g in Confirms(calls[j], views[j + 1].made, answers[j])
    decreases n
  {
    hide Confirms;
    if n > 0 {
      MarksCollect(calls, answers, views, n - 1, g);
      assert Answered(calls[n - 1], views[n - 1], views[n], answers[n - 1]);
    }
  }
}
