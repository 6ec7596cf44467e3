/** What `{{request_id}}` in the value of an override becomes, in every text, at every place of a value,
    and in the body of a request. */
module Templates {
  import opened Wrappers
  import opened JsonTree
  import opened RequestOverrides
  import opened OverrideRules
  import opened OverridePaths

  const TEMPLATE: string := "{{request_id}}"

  // ---------- Texts ----------

  ghost predicate Holds(s: string) {
    exists before: string, after: string :: s == before + TEMPLATE + after
  }

  lemma HoldsBehind(s: string)
    requires s != ""
    ensures Holds(s[1..]) ==> Holds(s)
    ensures TEMPLATE <= s ==> Holds(s)
  {
    if before: string, after: string :| s[1..] == before + TEMPLATE + after {
      assert s == ([s[0]] + before) + TEMPLATE + after;
    }
    if TEMPLATE <= s {
      assert s == "" + TEMPLATE + s[|TEMPLATE|..];
    }
  }

  // A text without the template is left as it is.
  lemma {:induction false} PlainTextStays(s: string, requestId: string)
    requires !Holds(s)
    ensures ExpandText(s, requestId) == s
    decreases |s|
  {
    hide Holds;
    if s != "" {
      HoldsBehind(s);
      PlainTextStays(s[1..], requestId);
    }
  }

  // A template that starts inside `a`, where `a` and a template follow one another, is all in `a`: no
  // end of the template is also its beginning.
  lemma NoneStraddles(a: string, b: string)
    requires a != ""
    ensures TEMPLATE <= a + TEMPLATE + b ==> TEMPLATE <= a
  {
    var s, n := a + TEMPLATE + b, |a|;
    if n < 14 {
      assert s[n] == TEMPLATE[0] && s[n + 1] == TEMPLATE[1];
      assert TEMPLATE[2] != '{' && (n >= 2 ==> TEMPLATE[n] != '{');
      assert s[if n == 1 then 2 else n] != TEMPLATE[if n == 1 then 2 else n];
    } else {
      assert s[..14] == a[..14];
    }
  }

  lemma ExpandsHere(b: string, requestId: string)
    ensures ExpandText(TEMPLATE + b, requestId) == requestId + ExpandText(b, requestId)
  {
    assert (TEMPLATE + b)[|TEMPLATE|..] == b;
  }

  lemma ExpandsBehind(s: string, requestId: string)
    requires s != "" && !(TEMPLATE <= s)
    ensures ExpandText(s, requestId) == [s[0]] + ExpandText(s[1..], requestId)
  {
  }

  // The first template of a text becomes the request id, and the rest is expanded likewise.
  lemma {:induction false} FirstTemplateExpands(a: string, b: string, requestId: string)
    requires !Holds(a)
    ensures ExpandText(a + TEMPLATE + b, requestId) == a + requestId + ExpandText(b, requestId)
    decreases |a|
  {
    hide Holds, ExpandText;
    var s, rest := a + TEMPLATE + b, ExpandText(b, requestId);
    if a == "" {
      ExpandsHere(b, requestId);
      assert s == TEMPLATE + b && "" + requestId + rest == requestId + rest;
    } else {
      HoldsBehind(a);
      NoneStraddles(a, b);
      ExpandsBehind(s, requestId);
      FirstTemplateExpands(a[1..], b, requestId);
      assert s[1..] == a[1..] + TEMPLATE + b && s[0] == a[0];
      assert [a[0]] + (a[1..] + requestId + rest) == a + requestId + rest;
    }
  }

  // ---------- Values ----------

  datatype Turn = Name(name: string) | At(index: nat)

  // What stands at the end of a way through objects and arrays.
  function Reach(v: Json, way: seq<Turn>): Option<Json>
    decreases |way|
  {
    if way == [] then Some(v)
    else
      match way[0]
      case Name(name) => if v.Obj? && name in v.members then Reach(v.members[name], way[1..]) else None
      case At(index) => if v.Arr? && index < |v.items| then Reach(v.items[index], way[1..]) else None
  }

  lemma {:induction false} ItemsExpand(items: seq<Json>, requestId: string, i: nat)
    requires i < |items|
    ensures ExpandItems(items, requestId)[i] == ExpandValue(items[i], requestId)
    decreases |items|
  {
    if i > 0 {
      ItemsExpand(items[1..], requestId, i - 1);
    }
  }

  // The same kind of value, with the same text but for the templates, the same members or as many
  // items.
  ghost predicate Expands(v: Json, w: Json, requestId: string) {
    match v
    case Str(text) => w == Str(ExpandText(text, requestId))
    case Arr(items) => w.Arr? && |w.items| == |items|
    case Obj(members) => w.Obj? && w.members.Keys == members.Keys
    case _ => w == v
  }

  // At every place of a value, below objects and arrays alike: the ways stay the same, texts are
  // expanded, and everything else is kept.
  lemma {:induction false} ValuesExpandEverywhere(v: Json, requestId: string, way: seq<Turn>)
    ensures Reach(v, way).Some? <==> Reach(ExpandValue(v, requestId), way).Some?
    ensures Reach(v, way).Some? ==>
      Expands(Reach(v, way).value, Reach(ExpandValue(v, requestId), way).value, requestId)
    decreases |way|
  {
    hide ExpandText;
    if way != [] {
      match way[0]
      case Name(name) =>
        if v.Obj? && name in v.members {
          ValuesExpandEverywhere(v.members[name], requestId, way[1..]);
        }
      case At(index) =>
        if v.Arr? && index < |v.items| {
          ValuesExpandEverywhere(v.items[index], requestId, way[1..]);
          ItemsExpand(v.items, requestId, index);
        }
    }
  }

  // ---------- Bodies ----------

  // The last rule to speak about a path, if it sets a text, leaves that text with its first template
  // replaced and the rest expanded, or as it is if it holds none.
  lemma LastTextDecides(v: Json, rs: seq<Rule>, requestId: string, i: nat, a: string, b: string)
    requires v.Obj? && PathsOk(rs) && i < |rs| && rs[i].operation == Set && !Holds(a)
    requires forall j | i < j < |rs| :: !Comparable(PathOf(rs[j]), PathOf(rs[i]))
    ensures ApplyRules(v, rs, requestId).Ok?
    ensures
      var found := Get(ApplyRules(v, rs, requestId).value, PathOf(rs[i]));
      && (rs[i].value == Str(a) ==> found == Some(Str(a)))
      && (rs[i].value == Str(a + TEMPLATE + b) ==> found == Some(Str(a + requestId + ExpandText(b, requestId))))
  {
    assert rs[i] in rs;
    hide Segments, ExpandText, ApplyRules, Comparable, Holds;
    LastRuleDecides(v, rs, requestId, i);
    PlainTextStays(a, requestId);
    FirstTemplateExpands(a, b, requestId);
  }

  const WINDOW_RULE := Rule(Responses, Set, "client_metadata.x-codex-window-id", Str("{{request_id}}"))
  const WINDOW_BODY := Obj(map["model" := Str("gpt-5.6-sol"), "input" := Arr([])])

  // A rule that sets a window id from the request's id, on a body without client metadata; the other
  // kind of request does not meet it.
  lemma WindowIdIsSet()
    ensures
      var applied := ApplyRules(WINDOW_BODY, Applied([WINDOW_RULE], ToResponses), "request-123");
      && applied.Ok?
      && Get(applied.value, ["client_metadata", "x-codex-window-id"]) == Some(Str("request-123"))
      && Get(applied.value, ["model"]) == Get(WINDOW_BODY, ["model"])
    ensures ApplyRules(WINDOW_BODY, Applied([WINDOW_RULE], ToChatCompletions), "request-123") == Ok(WINDOW_BODY)
  {
    hide ExpandText, ApplyRules, SpellsPath, Holds, Select, Get, Segments;
    WindowPath();
    OneRule(WINDOW_RULE);
    NothingHolds();
    assert "" + TEMPLATE + "" == "{{request_id}}" && "" + "request-123" + "" == "request-123";
    LastTextDecides(WINDOW_BODY, [WINDOW_RULE], "request-123", 0, "", "");
    PlainTextStays("", "request-123");
    assert PathOf(WINDOW_RULE)[0] != "model" by {
      assert "client_metadata"[0] != "model"[0];
    }
    UnrelatedPathsUntouched(WINDOW_BODY, [WINDOW_RULE], "request-123", ["model"]);
    NoRules(WINDOW_BODY, "request-123");
  }

  lemma OneRule(rule: Rule)
    requires rule.scope == Responses
    ensures Applied([rule], ToResponses) == [rule] && Applied([rule], ToChatCompletions) == []
  {
    assert [rule][1..] == [];
    assert forall scope | scope != Responses :: Select([rule], scope) == Select([], scope) == [];
    assert Select([rule], Responses) == [rule] + Select([], Responses) == [rule];
  }

  lemma NoRules(v: Json, requestId: string)
    ensures ApplyRules(v, [], requestId) == Ok(v)
  {
  }

  lemma NothingHolds()
    ensures !Holds("")
  {
    forall before: string, after: string ensures "" != before + TEMPLATE + after {
      assert |before + TEMPLATE + after| >= |TEMPLATE|;
    }
  }

  // A name without dots, in ASCII, with no white space at an end.
  predicate SimpleName(s: string) {
    && s != "" && 'a' <= s[0] <= 'z' && 'a' <= s[|s| - 1] <= 'z' && DotFree(s)
    && forall i :: 0 <= i < |s| ==> s[i] < '\U{80}'
  }

  lemma TwoNames(a: string, b: string)
    requires SimpleName(a) && SimpleName(b) && |a| + |b| < 512
    ensures Segments(a + "." + b) == Ok([a, b])
  {
    var text, p := a + "." + b, [a, b];
    TwoJoined(a, b);
    PadsItself(a);
    PadsItself(b);
    PadsItself(text);
    hide Segments, Utf8Len, Pads, Join, IsWhite;
    SegmentsExactly(text, p);
  }

  lemma TwoJoined(a: string, b: string)
    requires SimpleName(a) && SimpleName(b)
    ensures Join([a, b]) == a + "." + b && Utf8Len(a + "." + b) == |a| + 1 + |b|
    ensures (a + "." + b)[0] == a[0] && (a + "." + b)[|a| + |b|] == b[|b| - 1]
  {
    assert [a, b][1..] == [b];
    assert forall i | 0 <= i < |a + "." + b| :: (a + "." + b)[i] < '\U{80}';
    AsciiLength(a + "." + b);
  }

  lemma PadsItself(s: string)
    requires s != "" && 'a' <= s[0] <= 'z' && 'a' <= s[|s| - 1] <= 'z'
    ensures Pads(s, s)
  {
    assert "" + s + "" == s && AllWhite("");
  }

  lemma WindowPath()
    ensures Segments("client_metadata.x-codex-window-id") == Ok(["client_metadata", "x-codex-window-id"])
  {
    hide Segments;
    TwoNames("client_metadata", "x-codex-window-id");
    assert "client_metadata" + "." + "x-codex-window-id" == "client_metadata.x-codex-window-id";
  }
}
