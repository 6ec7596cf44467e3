/** What the streaming-usage rewrite does to a request, stated on syntax trees and on member names. */
module IncludeUsageMeaning {
  import opened Wrappers
  import opened Octets
  import opened JsonText
  import opened IncludeUsage
  import opened IncludeUsageCorrect

  // ---------- The byte edits are the tree edits ----------

  lemma ObjectText(ms: Members, tail: Text)
    ensures Render(Obj(ms, tail)) == [LBRACE] + (RenderMembers(ms) + tail) + [RBRACE]
  {
    hide RenderMembers;
  }

  lemma InnerBlank(ms: Members, tail: Text)
    requires ValueOk(Obj(ms, tail))
    ensures Blank(RenderMembers(ms) + tail) <==> ms.NoMembers?
  {
    if ms.Member? {
      MembersNotBlank(ms);
      var k :| 0 <= k < |RenderMembers(ms)| && !IsSpace(RenderMembers(ms)[k]);
      hide RenderMembers;
      assert (RenderMembers(ms) + tail)[k] == RenderMembers(ms)[k];
    }
  }

  lemma InjectedMembers(ms: Members, tail: Text)
    requires ms.Member? ==> tail == []
    ensures RenderMembers(Member([], INCLUDE_USAGE, [], [], Bool(true), tail, ms))
         == UsageMember() + (if ms.NoMembers? then [] else [COMMA]) + (RenderMembers(ms) + tail)
  {
    FreshMember(INCLUDE_USAGE, Bool(true), tail, ms);
    RenderTrue();
    RenderNone();
    hide RenderMembers, Render;
  }

  lemma InjectRewrites(ms: Members, tail: Text)
    requires ValueOk(Obj(ms, tail)) && Find(ms, INCLUDE_USAGE).None?
    ensures Inject(Render(Obj(ms, tail))) == Ok(Render(OptionsOn(Obj(ms, tail))))
  {
    hide RenderMembers, UsageMember, Inject, Render, Blank;
    var inner := RenderMembers(ms) + tail;
    var out := Member([], INCLUDE_USAGE, [], [], Bool(true), tail, ms);
    InjectShape(inner);
    InnerBlank(ms, tail);
    ObjectText(ms, tail);
    InjectedMembers(ms, tail);
    ObjectText(out, []);
    Regroup([LBRACE], UsageMember(), if ms.NoMembers? then [] else [COMMA], inner, [RBRACE]);
  }

  lemma Regroup(a: Text, b: Text, c: Text, d: Text, e: Text)
    ensures a + ((b + c + d) + []) + e == a + b + c + (d + e)
  {
  }

  lemma FreshMember(key: Text, v: Value, after: Text, rest: Members)
    ensures RenderMembers(Member([], key, [], [], v, after, rest))
         == (Quoted(key) + [COLON] + Render(v)) + after + MoreMembers(rest)
  {
    hide Render, MoreMembers, Quoted;
  }

  lemma InjectShape(inner: Text)
    ensures
      var obj := [LBRACE] + inner + [RBRACE];
      Inject(obj) == Ok([LBRACE] + UsageMember() + (if Blank(inner) then [] else [COMMA]) + (inner + [RBRACE]))
  {
    var obj := [LBRACE] + inner + [RBRACE];
    assert SkipSpace(obj, 0) == 0;
    assert obj[|obj| - 1] == RBRACE;
    assert TrimSpace(obj, |obj|) == |obj|;
    assert obj[1..|obj| - 1] == inner;
    assert obj[..1] == [LBRACE] && obj[1..] == inner + [RBRACE];
    hide UsageMember;
    assert [LBRACE] + UsageMember() + [] == [LBRACE] + UsageMember();
  }

  lemma MembersNotBlank(ms: Members)
    requires ms.Member?
    ensures exists k :: 0 <= k < |RenderMembers(ms)| && !IsSpace(RenderMembers(ms)[k])
  {
    assert RenderMembers(ms)[|ms.before|] == QUOTE;
  }

  lemma {:induction false} TrimBlank(s: Text, i: nat, t: Text)
    requires At(s, i, t) && Blank(t)
    ensures TrimSpace(s, Past(i, t)) == TrimSpace(s, i)
    decreases |t|
  {
    if t != [] {
      var n := |t| - 1;
      AtByte(s, i, t, n);
      assert t[..n] + t[n..] == t;
      AtSplit(s, i, t[..n], t[n..]);
      TrimBlank(s, i, t[..n]);
    }
  }

  lemma {:induction false} LastByte(s: Text, i: nat, ms: Members)
    requires ms.Member? && At(s, i, RenderMembers(ms)) && MembersOk(ms)
    ensures TrimSpace(s, Past(i, RenderMembers(ms))) > 0
    ensures s[TrimSpace(s, Past(i, RenderMembers(ms))) - 1] != LBRACE
    decreases ms
  {
    hide RenderMembers, Render, At;
    MemberParts(s, i, ms);
    if ms.rest.Member? {
      LastByte(s, MemberEnd(ms, i) + 1, ms.rest);
    } else {
      var v := ValueAt(ms, i);
      TrimBlank(s, Past(v, Render(ms.value)), ms.after);
      ValueEdges(ms.value);
      AtByte(s, v, Render(ms.value), |Render(ms.value)| - 1);
    }
  }

  lemma {:induction false} AppendRenders(ms: Members, m: Members)
    requires ms.Member? && m.Member?
    ensures RenderMembers(Append(ms, m)) == RenderMembers(ms) + [COMMA] + RenderMembers(m)
    decreases ms
  {
    hide Render, Quoted, RenderMembers, UpToNext;
    var rest' := Append(ms.rest, m);
    NextSplits(ms.(rest := rest'));
    UpToNextIgnoresRest(ms, rest');
    if ms.rest.Member? {
      AppendRenders(ms.rest, m);
      NextSplits(ms);
    } else {
      LastSplits(ms);
    }
  }

  lemma LastSplits(ms: Members)
    requires ms.Member? && ms.rest.NoMembers?
    ensures UpToNext(ms) == RenderMembers(ms) + [COMMA]
  {
  }

  lemma RootEndFound(doc: Document)
    requires DocumentOk(doc) && doc.root.Obj?
    ensures
      var s := RenderDocument(doc);
      var end := Past(Past(|doc.before| + 1, RenderMembers(doc.root.members)), doc.root.tail);
      && RootEnd(s) == Some(end)
      && s[..end] == doc.before + [LBRACE] + RenderMembers(doc.root.members) + doc.root.tail
      && s[end..] == [RBRACE] + doc.after
  {
    hide Render, RenderMembers, RenderDocument;
    var s := RenderDocument(doc);
    var ms, tail := doc.root.members, doc.root.tail;
    assert doc.root == Obj(ms, tail) && doc.(root := doc.root) == doc;
    RenderObject(doc, ms, tail);
    var end := Past(Past(|doc.before| + 1, RenderMembers(ms)), tail);
    var front := doc.before + [LBRACE] + RenderMembers(ms) + tail;
    assert s == front + ([RBRACE] + doc.after);
    Halves(s, front, [RBRACE] + doc.after);
    BraceIsRootEnd(s, front, doc.after);
  }

  lemma Halves(s: Text, a: Text, b: Text)
    requires s == a + b
    ensures s[..|a|] == a && s[|a|..] == b
  {
  }

  lemma BraceIsRootEnd(s: Text, front: Text, after: Text)
    requires s == front + ([RBRACE] + after) && JsonBlank(after)
    ensures RootEnd(s) == Some(|front|)
  {
    AtWhole(s, front, [RBRACE], after);
    BlankAfterBrace(s, |front|, after);
  }

  lemma BlankAfterBrace(s: Text, end: nat, after: Text)
    requires At(s, end, [RBRACE]) && At(s, end + 1, after) && |s| == end + 1 + |after| && JsonBlank(after)
    ensures RootEnd(s) == Some(end)
  {
    TrimBlank(s, end + 1, after);
    assert s[end] == [RBRACE][0];
  }

  lemma AtWhole(s: Text, a: Text, b: Text, c: Text)
    requires s == a + (b + c)
    ensures At(s, 0, a) && At(s, |a|, b) && At(s, |a| + |b|, c)
  {
  }

  lemma FreshRenders(before: Text)
    ensures RenderMembers(FreshOptions(before)) == before + NewOptions()
  {
    var usage := Member([], INCLUDE_USAGE, [], [], Bool(true), [], NoMembers);
    FreshMember(INCLUDE_USAGE, Bool(true), [], NoMembers);
    FreshMember(STREAM_OPTIONS, Obj(usage, []), [], NoMembers);
    assert RenderMembers(FreshOptions(before))
        == before + RenderMembers(Member([], STREAM_OPTIONS, [], [], Obj(usage, []), [], NoMembers));
    assert Render(Obj(usage, [])) == [LBRACE] + (RenderMembers(usage) + ([] + [RBRACE]));
  }

  lemma AppendBytes(doc: Document, info: RequestInfo)
    requires DocumentOk(doc) && doc.root.Obj? && Find(doc.root.members, STREAM_OPTIONS).None?
    requires info.stream && info.includeUsage != Some(true)
    ensures
      var ms, tail := doc.root.members, doc.root.tail;
      EnsureSpec(RenderDocument(doc), info)
      == Ok(doc.before + [LBRACE] + RenderMembers(ms) + tail
            + (if ms.NoMembers? then [] else [COMMA]) + NewOptions() + ([RBRACE] + doc.after))
  {
    hide Render, RenderMembers, RenderDocument, Find, NewOptions;
    var s := RenderDocument(doc);
    RootEndFound(doc);
    KeySearchExact(doc, STREAM_OPTIONS);
    CommaNeeded(doc);
  }

  lemma AtPrefix(s: Text, end: nat, t: Text)
    requires end <= |s| && s[..end] == t
    ensures At(s, 0, t)
  {
    forall k | 0 <= k < |t| ensures s[k] == t[k] {
      assert s[..end][k] == t[k];
    }
  }

  lemma CommaNeeded(doc: Document)
    requires DocumentOk(doc) && doc.root.Obj?
    ensures
      var s := RenderDocument(doc);
      && RootEnd(s).Some?
      && var p := TrimSpace(s, RootEnd(s).value);
      (p > 0 && s[p - 1] != LBRACE) <==> doc.root.members.Member?
  {
    hide Render, RenderMembers, RenderDocument, RootEnd;
    var s := RenderDocument(doc);
    var ms, tail := doc.root.members, doc.root.tail;
    var head := doc.before + [LBRACE];
    RootEndFound(doc);
    var end := RootEnd(s).value;
    AtPrefix(s, end, head + (RenderMembers(ms) + tail));
    AtSplit(s, 0, head, RenderMembers(ms) + tail);
    AtSplit(s, |head|, RenderMembers(ms), tail);
    TrimBlank(s, Past(|head|, RenderMembers(ms)), tail);
    if ms.NoMembers? {
      assert RenderMembers(ms) == [] by { RenderNone(); }
      AtByte(s, 0, head, |doc.before|);
    } else {
      LastByte(s, |head|, ms);
    }
  }

  lemma Insert(head: Text, members: Text, tail: Text, comma: Text, added: Text, brace: Text, last: Text)
    ensures head + members + tail + comma + added + (brace + last)
         == head + ((members + (tail + comma + added)) + ([] + brace + last))
  {
  }

  lemma AppendOptions(doc: Document, info: RequestInfo)
    requires DocumentOk(doc) && doc.root.Obj? && Find(doc.root.members, STREAM_OPTIONS).None?
    requires info.stream && info.includeUsage != Some(true)
    ensures EnsureSpec(RenderDocument(doc), info) == Ok(RenderDocument(UsageOn(doc)))
  {
    hide Render, RenderMembers, RenderDocument, Find, NewOptions, EnsureSpec;
    var ms, tail := doc.root.members, doc.root.tail;
    AppendBytes(doc, info);
    if ms.NoMembers? {
      assert RenderMembers(ms) == [] by { RenderNone(); }
      FreshRenders(tail);
      RenderObject(doc, FreshOptions(tail), []);
      Insert(doc.before + [LBRACE], [], tail, [], NewOptions(), [RBRACE], doc.after);
      assert [] + (tail + [] + NewOptions()) == tail + NewOptions();
    } else {
      FreshRenders([]);
      AppendRenders(ms, FreshOptions([]));
      RenderObject(doc, Append(ms, FreshOptions([])), []);
      Insert(doc.before + [LBRACE], RenderMembers(ms), [], [COMMA], NewOptions(), [RBRACE], doc.after);
      assert RenderMembers(ms) + ([] + [COMMA] + NewOptions()) == RenderMembers(ms) + [COMMA] + ([] + NewOptions());
    }
  }

  lemma RenderNone()
    ensures RenderMembers(NoMembers) == []
  {
  }

  lemma OptionsSpan(doc: Document)
    requires DocumentOk(doc) && doc.root.Obj? && Find(doc.root.members, STREAM_OPTIONS).Some?
    ensures
      var s := RenderDocument(doc);
      var so := FindMember(s, STREAM_OPTIONS);
      && so.Some? && s[so.value.start..so.value.end] == Render(Find(doc.root.members, STREAM_OPTIONS).value)
  {
    hide Render, RenderMembers, RenderDocument, Find, FindMember;
    KeySearchExact(doc, STREAM_OPTIONS);
    var s := RenderDocument(doc);
    var so := FindMember(s, STREAM_OPTIONS).value;
    assert |s[so.start..so.end]| == |Render(Find(doc.root.members, STREAM_OPTIONS).value)|;
  }

  lemma {:induction false} FoundOk(ms: Members, key: Text)
    requires MembersOk(ms) && Find(ms, key).Some?
    ensures ValueOk(Find(ms, key).value)
    decreases ms
  {
    if ms.key != key {
      FoundOk(ms.rest, key);
    }
  }

  // Inside an object standing alone, the search speaks about its own members.
  lemma OptionsSearch(v: Value, key: Text)
    requires ValueOk(v) && v.Obj?
    ensures
      match Find(v.members, key)
      case None => FindMember(Render(v), key) == None
      case Some(w) =>
        var at := FoundAt(v.members, key, 1);
        && FindMember(Render(v), key) == Some(Span(at, Past(at, Render(w))))
        && Past(at, Render(w)) <= |Render(v)|
        && forall w' :: Splice(Render(v), Span(at, Past(at, Render(w))), Render(w'))
                     == Render(Obj(Replace(v.members, key, w'), v.tail))
  {
    hide Render, Find, FindMember, Splice, FoundAt, Replace;
    var doc := Document([], v, []);
    Alone(v);
    KeySearchExact(doc, key);
    if Find(v.members, key).Some? {
      SpliceObject(doc, key, Null);
      forall w' ensures Splice(Render(v), FindMember(Render(v), key).value, Render(w'))
                     == Render(Obj(Replace(v.members, key, w'), v.tail)) {
        SpliceObject(doc, key, w');
        Alone(Obj(Replace(v.members, key, w'), v.tail));
      }
    }
  }

  lemma Alone(v: Value)
    ensures RenderDocument(Document([], v, [])) == Render(v)
  {
    hide Render;
    assert [] + (Render(v) + []) == Render(v);
  }

  lemma EditOptions(doc: Document, info: RequestInfo)
    requires DocumentOk(doc) && OptionsUsable(doc) && Find(doc.root.members, STREAM_OPTIONS).Some?
    requires info.stream && info.includeUsage != Some(true)
    ensures EnsureSpec(RenderDocument(doc), info) == Ok(RenderDocument(UsageOn(doc)))
  {
    hide Render, RenderMembers, RenderDocument, Find, FindMember, Splice, RootEnd, Inject, FoundAt, Replace;
    var s := RenderDocument(doc);
    var options := Find(doc.root.members, STREAM_OPTIONS).value;
    RootEndFound(doc);
    OptionsSpan(doc);
    KeySearchExact(doc, STREAM_OPTIONS);
    FoundOk(doc.root.members, STREAM_OPTIONS);
    SpliceObject(doc, STREAM_OPTIONS, OptionsOn(options));
    OptionsSearch(options, INCLUDE_USAGE);
    var so := FindMember(s, STREAM_OPTIONS).value;
    if Find(options.members, INCLUDE_USAGE).Some? {
      var iu := FindMember(Render(options), INCLUDE_USAGE).value;
      SpliceNested(s, so, iu, TRUE);
      assert Render(Bool(true)) == TRUE by { RenderTrue(); }
    } else {
      assert options == Obj(options.members, options.tail);
      InjectRewrites(options.members, options.tail);
    }
  }

  lemma RenderTrue()
    ensures Render(Bool(true)) == TRUE
  {
  }

  // On every well-formed request object whose stream_options is an object or missing, the bytes
  // written are the text of the edited tree.
  lemma EnsureRewrites(doc: Document, info: RequestInfo)
    requires DocumentOk(doc) && OptionsUsable(doc) && info.stream && info.includeUsage != Some(true)
    ensures EnsureSpec(RenderDocument(doc), info) == Ok(RenderDocument(UsageOn(doc)))
  {
    if Find(doc.root.members, STREAM_OPTIONS).Some? {
      EditOptions(doc, info);
    } else {
      AppendOptions(doc, info);
    }
  }

  // ---------- When the rewrite refuses, and when it does nothing ----------

  lemma FirstByte(v: Value)
    requires ValueOk(v)
    ensures |Render(v)| > 0 && !IsSpace(Render(v)[0])
    ensures Render(v)[0] == LBRACE <==> v.Obj?
    ensures Render(v)[|Render(v)| - 1] == RBRACE <==> v.Obj?
  {
    if Scalar(v) {
      ScalarBytes(v);
    }
  }

  lemma NoObjectNoInjection(v: Value)
    requires ValueOk(v) && !v.Obj?
    ensures FindMember(Render(v), INCLUDE_USAGE) == None
    ensures Inject(Render(v)).Err?
  {
    FirstByte(v);
    assert SkipSpace(Render(v), 0) == 0;
  }

  // The only error: a stream_options member that is there and is not an object.
  lemma RefusesExactly(doc: Document, info: RequestInfo)
    requires DocumentOk(doc) && doc.root.Obj?
    ensures EnsureSpec(RenderDocument(doc), info).Err?
       <==> info.stream && info.includeUsage != Some(true) && !OptionsUsable(doc)
  {
    if info.stream && info.includeUsage != Some(true) {
      if OptionsUsable(doc) {
        EnsureRewrites(doc, info);
      } else {
        hide Render, RenderDocument, Find, FindMember, Inject, RootEnd;
        var options := Find(doc.root.members, STREAM_OPTIONS).value;
        FoundOk(doc.root.members, STREAM_OPTIONS);
        OptionsSpan(doc);
        RootEndFound(doc);
        NoObjectNoInjection(options);
      }
    }
  }

  // A request whose root is no object is passed through.
  lemma OtherRootsUntouched(doc: Document, info: RequestInfo)
    requires DocumentOk(doc) && !doc.root.Obj?
    ensures EnsureSpec(RenderDocument(doc), info) == Ok(RenderDocument(doc))
  {
    hide Render, RenderDocument;
    var s := RenderDocument(doc);
    var e := Past(|doc.before|, Render(doc.root));
    DocumentParts(doc);
    FirstByte(doc.root);
    ValueEdges(doc.root);
    TrimBlank(s, e, doc.after);
    AtByte(s, |doc.before|, Render(doc.root), |Render(doc.root)| - 1);
  }

  // ---------- The edited tree ----------

  // The members not called `key`, in order.
  function Others(ms: Members, key: Text): seq<(Text, Value)> {
    match ms
    case NoMembers => []
    case Member(_, k, _, _, v, _, rest) => (if k == key then [] else [(k, v)]) + Others(rest, key)
  }

  ghost predicate UsageEnabled(doc: Document, doc': Document) {
    && doc.root.Obj? && doc'.root.Obj?
    && doc'.before == doc.before && doc'.after == doc.after
    && Others(doc'.root.members, STREAM_OPTIONS) == Others(doc.root.members, STREAM_OPTIONS)
    && var options' := Find(doc'.root.members, STREAM_OPTIONS);
       var options := Find(doc.root.members, STREAM_OPTIONS);
    && options'.Some? && options'.value.Obj?
    && Find(options'.value.members, INCLUDE_USAGE) == Some(Bool(true))
    && Others(options'.value.members, INCLUDE_USAGE)
       == if options.Some? && options.value.Obj? then Others(options.value.members, INCLUDE_USAGE) else []
  }

  lemma {:induction false} ReplaceKeeps(ms: Members, key: Text, v: Value)
    ensures Others(Replace(ms, key, v), key) == Others(ms, key)
    ensures Keys(Replace(ms, key, v)) == Keys(ms)
    ensures Find(ms, key).Some? ==> Find(Replace(ms, key, v), key) == Some(v)
    ensures MembersOk(ms) && ValueOk(v) ==> MembersOk(Replace(ms, key, v))
    ensures Find(ms, key) == Some(v) ==> Replace(ms, key, v) == ms
    ensures ms.NoMembers? <==> Replace(ms, key, v).NoMembers?
    decreases ms
  {
    hide RawOk, JsonBlank;
    if ms.Member? {
      ReplaceKeeps(ms.rest, key, v);
    }
  }

  lemma {:induction false} AppendKeeps(ms: Members, m: Members, key: Text)
    ensures Others(Append(ms, m), key) == Others(ms, key) + Others(m, key)
    ensures Keys(Append(ms, m)) == Keys(ms) + Keys(m)
    ensures Find(ms, key).None? ==> Find(Append(ms, m), key) == Find(m, key)
    ensures MembersOk(ms) && MembersOk(m) ==> MembersOk(Append(ms, m))
    decreases ms
  {
    hide RawOk, JsonBlank;
    if ms.Member? {
      AppendKeeps(ms.rest, m, key);
    }
  }

  lemma {:induction false} PlainIsRawOk(t: Text)
    requires forall i :: 0 <= i < |t| ==> t[i] >= 0x20 && t[i] != QUOTE && t[i] != BACKSLASH
    ensures RawOk(t)
    decreases |t|
  {
    if t != [] {
      PlainIsRawOk(t[1..]);
    }
  }

  lemma OptionsOnMeans(v: Value)
    requires v.Obj?
    ensures OptionsOn(v).Obj?
    ensures Find(OptionsOn(v).members, INCLUDE_USAGE) == Some(Bool(true))
    ensures Others(OptionsOn(v).members, INCLUDE_USAGE) == Others(v.members, INCLUDE_USAGE)
    ensures ValueOk(v) ==> ValueOk(OptionsOn(v))
    ensures OptionsOn(OptionsOn(v)) == OptionsOn(v)
  {
    hide RawOk;
    PlainIsRawOk(INCLUDE_USAGE);
    ReplaceKeeps(v.members, INCLUDE_USAGE, Bool(true));
    ReplaceKeeps(OptionsOn(v).members, INCLUDE_USAGE, Bool(true));
    if ValueOk(v) && Find(v.members, INCLUDE_USAGE).None? {
      assert MembersOk(OptionsOn(v).members);
    }
  }

  lemma FreshMeans(before: Text)
    ensures Others(FreshOptions(before), STREAM_OPTIONS) == []
    ensures Find(FreshOptions(before), STREAM_OPTIONS).Some?
    ensures
      var v := Find(FreshOptions(before), STREAM_OPTIONS).value;
      v.Obj? && Find(v.members, INCLUDE_USAGE) == Some(Bool(true)) && Others(v.members, INCLUDE_USAGE) == []
    ensures JsonBlank(before) ==> MembersOk(FreshOptions(before))
  {
    hide RawOk;
    PlainIsRawOk(INCLUDE_USAGE);
    PlainIsRawOk(STREAM_OPTIONS);
  }

  // The edited tree is a well-formed request in which only include_usage differs, and is true.
  lemma UsageOnMeans(doc: Document)
    requires OptionsUsable(doc)
    ensures UsageEnabled(doc, UsageOn(doc))
    ensures DocumentOk(doc) ==> DocumentOk(UsageOn(doc))
    ensures OptionsUsable(UsageOn(doc)) && UsageOn(UsageOn(doc)) == UsageOn(doc)
  {
    var ms, tail := doc.root.members, doc.root.tail;
    match Find(ms, STREAM_OPTIONS)
    case Some(options) =>
      OptionsOnMeans(options);
      ReplaceKeeps(ms, STREAM_OPTIONS, OptionsOn(options));
      ReplaceKeeps(UsageOn(doc).root.members, STREAM_OPTIONS, OptionsOn(options));
      if DocumentOk(doc) {
        FoundOk(ms, STREAM_OPTIONS);
      }
    case None =>
      var before := if ms.NoMembers? then tail else [];
      var options := Find(FreshOptions(before), STREAM_OPTIONS).value;
      FreshMeans(before);
      AppendKeeps(ms, FreshOptions(before), STREAM_OPTIONS);
      assert UsageOn(doc).root.members == Append(ms, FreshOptions(before));
      assert Find(UsageOn(doc).root.members, STREAM_OPTIONS) == Some(options);
      ReplaceKeeps(UsageOn(doc).root.members, STREAM_OPTIONS, options);
      assert OptionsOn(options) == options;
  }

  // ---------- Names as a decoder reads them ----------

  function HexValue(b: byte): int {
    if IsDigit(b) then b - 0x30 else if b >= 0x61 then b - 0x57 else b - 0x37
  }

  // The raw key denotes `name`, a name of ASCII letters and underscores: byte for byte, or through
  // `\u` escapes. The two-character escapes of section 7 denote none of these characters.
  predicate Spells(raw: Text, name: Text) {
    if name == [] then raw == []
    else
      || (raw != [] && raw[0] == name[0] && raw[0] != BACKSLASH && Spells(raw[1..], name[1..]))
      || (&& |raw| >= 6 && raw[0] == BACKSLASH && raw[1] == 0x75
          && IsHex(raw[2]) && IsHex(raw[3]) && IsHex(raw[4]) && IsHex(raw[5])
          && ((HexValue(raw[2]) * 16 + HexValue(raw[3])) * 16 + HexValue(raw[4])) * 16 + HexValue(raw[5]) == name[0]
          && Spells(raw[6..], name[1..]))
  }

  function Count(ms: Members, name: Text): nat {
    match ms
    case NoMembers => 0
    case Member(_, k, _, _, _, _, rest) => (if Spells(k, name) then 1 else 0) + Count(rest, name)
  }

  function Named(ms: Members, name: Text): Option<Value> {
    match ms
    case NoMembers => None
    case Member(_, k, _, _, v, _, rest) => if Spells(k, name) then Some(v) else Named(rest, name)
  }

  // What the typed decoder has checked and read when it accepts a streaming request: each known
  // name at most once, and include_usage a boolean, null or missing. The decoder also takes an array
  // of one element for the object.
  ghost predicate Reads(doc: Document, info: RequestInfo) {
    && doc.root.Obj?
    && Count(doc.root.members, STREAM_OPTIONS) <= 1
    && match Named(doc.root.members, STREAM_OPTIONS)
       case Some(Obj(ms, _)) => (
         && Count(ms, INCLUDE_USAGE) <= 1
         && info.includeUsage ==
            match Named(ms, INCLUDE_USAGE) {
              case Some(Bool(b)) => Some(b)
              case _ => None
            })
       case Some(Arr(Item(_, Bool(b), _, NoItems), _)) => info.includeUsage == Some(b)
       case _ => info.includeUsage == None
  }

  ghost predicate NamedOptionsUsable(doc: Document) {
    && doc.root.Obj?
    && (Named(doc.root.members, STREAM_OPTIONS).Some? ==> Named(doc.root.members, STREAM_OPTIONS).value.Obj?)
  }

  ghost predicate Plain(ms: Members, name: Text) {
    forall i :: 0 <= i < |Keys(ms)| && Spells(Keys(ms)[i], name) ==> Keys(ms)[i] == name
  }

  // The two names the rewrite looks for are written without escapes.
  ghost predicate PlainlySpelled(doc: Document) {
    && doc.root.Obj?
    && Plain(doc.root.members, STREAM_OPTIONS)
    && match Named(doc.root.members, STREAM_OPTIONS)
       case Some(Obj(ms, _)) => Plain(ms, INCLUDE_USAGE)
       case _ => true
  }

  lemma {:induction false} SpellsItself(name: Text)
    requires forall i :: 0 <= i < |name| ==> name[i] != BACKSLASH
    ensures Spells(name, name)
    decreases |name|
  {
    if name != [] {
      SpellsItself(name[1..]);
    }
  }

  lemma {:induction false} NamedAndFound(ms: Members, name: Text)
    requires Spells(name, name)
    ensures Find(ms, name).Some? ==> Count(ms, name) >= 1
    ensures Count(ms, name) <= 1 && Find(ms, name).Some? ==> Named(ms, name) == Find(ms, name) && Plain(ms, name)
    ensures Plain(ms, name) ==> Named(ms, name) == Find(ms, name)
    ensures Count(ms, name) == 0 <==> Named(ms, name).None?
    ensures Count(ms, name) == 0 ==> Plain(ms, name)
    ensures !Plain(ms, name) ==> Count(ms, name) >= 1
    decreases ms
  {
    if ms.Member? {
      NamedAndFound(ms.rest, name);
      assert Keys(ms)[1..] == Keys(ms.rest);
      assert Keys(ms)[0] == ms.key;
      assert forall i :: 0 <= i < |Keys(ms.rest)| ==> Keys(ms.rest)[i] == Keys(ms)[i + 1];
      assert Plain(ms, name) <==> Plain(ms.rest, name) && (Spells(ms.key, name) ==> ms.key == name);
    }
  }

  lemma {:induction false} CountByKeys(ms: Members, ms': Members, name: Text)
    requires Keys(ms) == Keys(ms')
    ensures Count(ms, name) == Count(ms', name)
    decreases ms
  {
    assert ms.Member? <==> ms'.Member?;
    if ms.Member? {
      assert Keys(ms)[0] == Keys(ms')[0] && Keys(ms)[1..] == Keys(ms')[1..];
      CountByKeys(ms.rest, ms'.rest, name);
    }
  }

  lemma {:induction false} CountAppend(ms: Members, m: Members, name: Text)
    ensures Count(Append(ms, m), name) == Count(ms, name) + Count(m, name)
    decreases ms
  {
    if ms.Member? {
      CountAppend(ms.rest, m, name);
    }
  }

  lemma NamesSpell()
    ensures Spells(STREAM_OPTIONS, STREAM_OPTIONS) && Spells(INCLUDE_USAGE, INCLUDE_USAGE)
  {
    hide Spells;
    SpellsItself(STREAM_OPTIONS);
    SpellsItself(INCLUDE_USAGE);
  }

  lemma OptionsOnCounts(v: Value)
    requires v.Obj? && Count(v.members, INCLUDE_USAGE) <= 1
    ensures Count(OptionsOn(v).members, INCLUDE_USAGE)
         == Count(v.members, INCLUDE_USAGE) + (if Find(v.members, INCLUDE_USAGE).Some? then 0 else 1)
  {
    NamesSpell();
    ReplaceKeeps(v.members, INCLUDE_USAGE, Bool(true));
    if Find(v.members, INCLUDE_USAGE).Some? {
      CountByKeys(v.members, OptionsOn(v).members, INCLUDE_USAGE);
    }
  }

  lemma FreshCounts(before: Text)
    ensures Find(FreshOptions(before), STREAM_OPTIONS).Some?
    ensures
      var v := Find(FreshOptions(before), STREAM_OPTIONS).value;
      v.Obj? && Count(v.members, INCLUDE_USAGE) == 1
  {
    hide Spells;
    NamesSpell();
  }

  lemma UsageOnCounts(doc: Document)
    requires OptionsUsable(doc) && Count(doc.root.members, STREAM_OPTIONS) <= 1
    ensures Count(UsageOn(doc).root.members, STREAM_OPTIONS)
         == Count(doc.root.members, STREAM_OPTIONS) + (if Find(doc.root.members, STREAM_OPTIONS).Some? then 0 else 1)
  {
    NamesSpell();
    var ms, tail := doc.root.members, doc.root.tail;
    if Find(ms, STREAM_OPTIONS).Some? {
      ReplaceKeeps(ms, STREAM_OPTIONS, OptionsOn(Find(ms, STREAM_OPTIONS).value));
      CountByKeys(ms, UsageOn(doc).root.members, STREAM_OPTIONS);
    } else {
      var before := if ms.NoMembers? then tail else [];
      CountAppend(ms, FreshOptions(before), STREAM_OPTIONS);
      assert UsageOn(doc).root.members == Append(ms, FreshOptions(before));
    }
  }

  lemma UsableAsNamed(doc: Document)
    requires NamedOptionsUsable(doc) && Count(doc.root.members, STREAM_OPTIONS) <= 1
    ensures OptionsUsable(doc)
  {
    NamesSpell();
    NamedAndFound(doc.root.members, STREAM_OPTIONS);
  }

  // The escape-free spelling is exactly what the rewrite needs: its output still names each of the
  // two members once, with include_usage true, if and only if the request spelled them plainly. This
  // holds of every request that is not refused, whatever value an escaped stream_options has.
  lemma SpellingDecides(doc: Document, info: RequestInfo)
    requires DocumentOk(doc) && Reads(doc, info) && OptionsUsable(doc) && info.includeUsage != Some(true)
    ensures Reads(UsageOn(doc), RequestInfo(true, Some(true))) <==> PlainlySpelled(doc)
  {
    hide Spells, RawOk, Find, Count, Named, Plain, Others, Keys;
    NamesSpell();
    UsageOnCounts(doc);
    UsageOnMeans(doc);
    var ms := doc.root.members;
    var ms' := UsageOn(doc).root.members;
    NamedAndFound(ms, STREAM_OPTIONS);
    NamedAndFound(ms', STREAM_OPTIONS);
    var options' := Find(ms', STREAM_OPTIONS).value;
    NamedAndFound(options'.members, INCLUDE_USAGE);
    match Find(ms, STREAM_OPTIONS)
    case Some(options) =>
      ReplaceKeeps(ms, STREAM_OPTIONS, OptionsOn(options));
      NamedAndFound(options.members, INCLUDE_USAGE);
      OptionsOnCounts(options);
    case None =>
      var before := if ms.NoMembers? then doc.root.tail else [];
      AppendKeeps(ms, FreshOptions(before), STREAM_OPTIONS);
      FreshMeans(before);
      assert ms' == Append(ms, FreshOptions(before));
      FreshCounts(before);
  }

  // The request the rewrite hands on.
  function Streaming(doc: Document, info: RequestInfo): Document
    requires OptionsUsable(doc)
  {
    if info.includeUsage == Some(true) then doc else UsageOn(doc)
  }

  // The promise of the front end: a plainly spelled streaming request comes out well-formed, with
  // every other member as it was and include_usage true, and a second pass changes no byte.
  lemma StreamingRequestKeepsItsMembers(doc: Document, info: RequestInfo)
    requires DocumentOk(doc) && Reads(doc, info) && info.stream
    requires NamedOptionsUsable(doc) && PlainlySpelled(doc)
    ensures OptionsUsable(doc)
    ensures EnsureSpec(RenderDocument(doc), info) == Ok(RenderDocument(Streaming(doc, info)))
    ensures DocumentOk(Streaming(doc, info)) && UsageEnabled(doc, Streaming(doc, info))
    ensures Reads(Streaming(doc, info), RequestInfo(true, Some(true)))
    ensures forall again ::
      EnsureSpec(RenderDocument(Streaming(doc, info)), again) == Ok(RenderDocument(Streaming(doc, info)))
  {
    hide RenderDocument, EnsureSpec;
    NamesSpell();
    UsableAsNamed(doc);
    UsageOnMeans(doc);
    var out := Streaming(doc, info);
    if info.includeUsage == Some(true) {
      AlreadyOn(doc, info);
      Passes(doc, info);
    } else {
      EnsureRewrites(doc, info);
      SpellingDecides(doc, info);
    }
    forall again ensures EnsureSpec(RenderDocument(out), again) == Ok(RenderDocument(out)) {
      if again.stream && again.includeUsage != Some(true) {
        EnsureRewrites(out, again);
      } else {
        Passes(out, again);
      }
    }
  }

  lemma Passes(doc: Document, info: RequestInfo)
    requires !info.stream || info.includeUsage == Some(true)
    ensures EnsureSpec(RenderDocument(doc), info) == Ok(RenderDocument(doc))
  {
  }

  lemma AlreadyOn(doc: Document, info: RequestInfo)
    requires Reads(doc, info) && NamedOptionsUsable(doc) && PlainlySpelled(doc) && info.includeUsage == Some(true)
    ensures OptionsUsable(doc) && UsageOn(doc) == doc && UsageEnabled(doc, doc)
  {
    NamesSpell();
    NamedAndFound(doc.root.members, STREAM_OPTIONS);
    var options := Find(doc.root.members, STREAM_OPTIONS).value;
    NamedAndFound(options.members, INCLUDE_USAGE);
    ReplaceKeeps(options.members, INCLUDE_USAGE, Bool(true));
    ReplaceKeeps(doc.root.members, STREAM_OPTIONS, options);
  }

  // ---------- A request that spells a name with an escape ----------

  const STREAM: Text := [0x73, 0x74, 0x72, 0x65, 0x61, 0x6D]  // stream
  const ESCAPED_LINE: Text := [0x5C, 0x75, 0x30, 0x30, 0x35, 0x66]  // \u005f
  const OPTIONS: Text := [0x6F, 0x70, 0x74, 0x69, 0x6F, 0x6E, 0x73]  // options

  // "stream":true and one more member
  function StreamAnd(key: Text, v: Value): Members {
    Member([], STREAM, [], [], Bool(true), [], Member([], key, [], [], v, [], NoMembers))
  }

  // {"stream":true,"stream\u005foptions":...}
  function EscapedRequest(options: Value): Document {
    Document([], Obj(StreamAnd(STREAM + (ESCAPED_LINE + OPTIONS), options), []), [])
  }

  lemma {:induction false} PrefixSpells(prefix: Text, raw: Text, name: Text)
    requires Spells(raw, name) && forall i :: 0 <= i < |prefix| ==> prefix[i] != BACKSLASH
    ensures Spells(prefix + raw, prefix + name)
    decreases |prefix|
  {
    if prefix == [] {
      assert prefix + raw == raw && prefix + name == name;
    } else {
      assert (prefix + raw)[1..] == prefix[1..] + raw && (prefix + name)[1..] == prefix[1..] + name;
      PrefixSpells(prefix[1..], raw, name);
    }
  }

  lemma {:induction false} PrefixIsRawOk(prefix: Text, raw: Text)
    requires RawOk(raw)
    requires forall i :: 0 <= i < |prefix| ==> prefix[i] != BACKSLASH && prefix[i] != QUOTE && prefix[i] >= 0x20
    ensures RawOk(prefix + raw)
    decreases |prefix|
  {
    if prefix == [] {
      assert prefix + raw == raw;
    } else {
      assert (prefix + raw)[1..] == prefix[1..] + raw;
      PrefixIsRawOk(prefix[1..], raw);
    }
  }

  lemma EscapeSpells(raw: Text, name: Text)
    requires Spells(raw, name) && RawOk(raw)
    ensures Spells(ESCAPED_LINE + raw, [0x5F] + name) && RawOk(ESCAPED_LINE + raw)
  {
    hide Spells, RawOk;
    var all := ESCAPED_LINE + raw;
    assert all[6..] == raw && ([0x5F] + name)[1..] == name;
    assert all[0] == 0x5C && all[1] == 0x75 && all[2] == 0x30 && all[3] == 0x30 && all[4] == 0x35 && all[5] == 0x66;
    EscapeRead(all, [0x5F] + name);
  }

  lemma EscapeRead(raw: Text, name: Text)
    requires |raw| >= 6 && raw[0] == 0x5C && raw[1] == 0x75 && raw[2] == 0x30 && raw[3] == 0x30
    requires raw[4] == 0x35 && raw[5] == 0x66 && name != [] && name[0] == 0x5F
    ensures Spells(raw, name) <==> Spells(raw[6..], name[1..])
    ensures RawOk(raw) <==> RawOk(raw[6..])
  {
  }

  // The escaped name denotes stream_options and is a well-formed key, and `stream` alone does not.
  lemma EscapedNameSpells()
    ensures Spells(STREAM + (ESCAPED_LINE + OPTIONS), STREAM_OPTIONS) && RawOk(STREAM + (ESCAPED_LINE + OPTIONS))
    ensures STREAM + (ESCAPED_LINE + OPTIONS) != STREAM_OPTIONS && STREAM != STREAM_OPTIONS && RawOk(STREAM)
    ensures !Spells(STREAM, STREAM_OPTIONS)
  {
    hide Spells, RawOk;
    var raw, name := ESCAPED_LINE + OPTIONS, [0x5F] + OPTIONS;
    SpellsItself(OPTIONS);
    PlainIsRawOk(OPTIONS);
    PlainIsRawOk(STREAM);
    EscapeSpells(OPTIONS, OPTIONS);
    PrefixSpells(STREAM, raw, name);
    PrefixIsRawOk(STREAM, raw);
    assert STREAM + name == STREAM_OPTIONS;
    assert (STREAM + raw)[6] == 0x5C && STREAM_OPTIONS[6] == 0x5F;
    ShortNeverSpells(STREAM, STREAM_OPTIONS);
  }

  lemma {:induction false} ShortNeverSpells(raw: Text, name: Text)
    requires |raw| < |name|
    ensures !Spells(raw, name)
    decreases |name|
  {
    if raw != [] {
      ShortNeverSpells(raw[1..], name[1..]);
    }
    if |raw| >= 6 {
      ShortNeverSpells(raw[6..], name[1..]);
    }
  }

  // What the tree of such a request holds, when the key denotes stream_options.
  lemma StreamAndReads(key: Text, v: Value)
    requires RawOk(key) && ValueOk(v) && Spells(key, STREAM_OPTIONS)
    ensures
      var ms := StreamAnd(key, v);
      && MembersOk(ms) && ms.Member? && Keys(ms) == [STREAM, key]
      && Count(ms, STREAM_OPTIONS) == 1 && Named(ms, STREAM_OPTIONS) == Some(v)
      && Find(ms, STREAM_OPTIONS) == (if key == STREAM_OPTIONS then Some(v) else None)
  {
    hide Spells, RawOk, STREAM, STREAM_OPTIONS;
    EscapedNameSpells();
    var second := Member([], key, [], [], v, [], NoMembers);
    assert MembersOk(second) && Keys(second) == [key] && Count(second, STREAM_OPTIONS) == 1;
    assert Find(second, STREAM_OPTIONS) == if key == STREAM_OPTIONS then Some(v) else None;
    assert STREAM != STREAM_OPTIONS;
    assert Find(StreamAnd(key, v), STREAM_OPTIONS) == Find(second, STREAM_OPTIONS);
  }

  // Whatever value the escaped member has, an object or null, the rewrite appends a second
  // stream_options, and the request it hands on names that member twice.
  lemma EscapedNameFails(options: Value)
    requires options == Obj(NoMembers, []) || options == Null
    ensures
      var doc, info := EscapedRequest(options), RequestInfo(true, None);
      && DocumentOk(doc) && Reads(doc, info) && OptionsUsable(doc) && !PlainlySpelled(doc)
      && EnsureSpec(RenderDocument(doc), info) == Ok(RenderDocument(UsageOn(doc)))
      && Count(UsageOn(doc).root.members, STREAM_OPTIONS) == 2
      && !Reads(UsageOn(doc), RequestInfo(true, Some(true)))
  {
    hide Spells, RawOk, RenderDocument, EnsureSpec, STREAM_OPTIONS, StreamAnd;
    var doc, info := EscapedRequest(options), RequestInfo(true, None);
    EscapedNameSpells();
    var key := STREAM + (ESCAPED_LINE + OPTIONS);
    var ms := doc.root.members;
    StreamAndReads(key, options);
    assert Keys(ms)[1] == key && !Plain(ms, STREAM_OPTIONS);
    EnsureRewrites(doc, info);
    UsageOnCounts(doc);
    SpellingDecides(doc, info);
  }

  // ---------- A request that is refused ----------

  // {"stream":true,"stream_options":null}
  function NullRequest(): Document {
    Document([], Obj(StreamAnd(STREAM_OPTIONS, Null), []), [])
  }

  // The decoder accepts it, its names are spelled plainly, and the rewrite refuses it.
  lemma NullOptionsRefused()
    ensures
      var doc, info := NullRequest(), RequestInfo(true, None);
      && DocumentOk(doc) && Reads(doc, info) && PlainlySpelled(doc)
      && EnsureSpec(RenderDocument(doc), info).Err?
  {
    hide Spells, RawOk, RenderDocument, EnsureSpec, StreamAnd;
    var doc, info := NullRequest(), RequestInfo(true, None);
    NamesSpell();
    PlainIsRawOk(STREAM_OPTIONS);
    StreamAndReads(STREAM_OPTIONS, Null);
    NamedAndFound(doc.root.members, STREAM_OPTIONS);
    RefusesExactly(doc, info);
  }
}
