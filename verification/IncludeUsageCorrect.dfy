/** What the byte scanners find on the text of a JSON document, and what the rewrite means. */
module IncludeUsageCorrect {
  import opened Wrappers
  import opened Octets
  import opened JsonText
  import opened IncludeUsage

  // ---------- Bytes a scanner passes over ----------

  // The position just after `t` put at `i`.
  function Past(i: nat, t: Text): nat {
    i + |t|
  }

  predicate Neutral(b: byte) {
    b != QUOTE && b != LBRACE && b != RBRACE && b != LBRACKET && b != RBRACKET
  }

  predicate NeutralText(t: Text) {
    forall k :: 0 <= k < |t| ==> Neutral(t[k])
  }

  predicate IsBracePair(open: byte, close: byte) {
    (open == LBRACE && close == RBRACE) || (open == LBRACKET && close == RBRACKET)
  }

  lemma {:induction false} StringSkips(s: Text, i: nat, raw: Text)
    requires At(s, i, raw) && RawOk(raw)
    ensures InString(s, i, false) == InString(s, i + |raw|, false)
    decreases |raw|
  {
    if raw != [] {
      AtByte(s, i, raw, 0);
      if raw[0] == BACKSLASH {
        if IsShortEscape(raw[1]) {
          AtSplit(s, i, raw[..2], raw[2..]);
          StringSkips(s, i + 2, raw[2..]);
        } else {
          forall k | 2 <= k < 6 ensures s[i + k] == raw[k] {
            AtByte(s, i, raw, k);
          }
          assert InString(s, i, false) == InString(s, i + 2, false);
          assert InString(s, i + 2, false) == InString(s, i + 4, false);
          assert InString(s, i + 4, false) == InString(s, i + 6, false);
          AtSplit(s, i, raw[..6], raw[6..]);
          StringSkips(s, i + 6, raw[6..]);
        }
      } else {
        AtSplit(s, i, raw[..1], raw[1..]);
        StringSkips(s, i + 1, raw[1..]);
      }
    }
  }

  lemma QuotedEnds(s: Text, i: nat, raw: Text)
    requires At(s, i, Quoted(raw)) && RawOk(raw)
    ensures s[i] == QUOTE
    ensures InString(s, i + 1, false) == Some(i + |Quoted(raw)|)
    ensures s[i + 1..i + |Quoted(raw)| - 1] == raw
  {
    hide At, RawOk;
    AtSplit(s, i, [QUOTE], raw + [QUOTE]);
    AtSplit(s, i + 1, raw, [QUOTE]);
    AtByte(s, i, [QUOTE], 0);
    AtByte(s, i + 1 + |raw|, [QUOTE], 0);
    AtSlice(s, i + 1, raw);
    StringSkips(s, i + 1, raw);
  }

  lemma AtSlice(s: Text, i: nat, t: Text)
    requires At(s, i, t)
    ensures i + |t| <= |s| && s[i..i + |t|] == t
  {
  }

  lemma {:induction false} NeutralSkips(s: Text, i: nat, t: Text, open: byte, close: byte,
                                        depth: int, level: int, key: Text)
    requires At(s, i, t) && NeutralText(t) && IsBracePair(open, close)
    ensures ContainerEnd(s, open, close, i, depth) == ContainerEnd(s, open, close, i + |t|, depth)
    ensures FindKey(s, key, i, level) == FindKey(s, key, i + |t|, level)
    decreases |t|
  {
    if t != [] {
      AtByte(s, i, t, 0);
      assert t[..1] + t[1..] == t;
      AtSplit(s, i, t[..1], t[1..]);
      NeutralSkips(s, i + 1, t[1..], open, close, depth, level, key);
    }
  }

  lemma BlankPasses(s: Text, i: nat, t: Text, open: byte, close: byte, depth: int, level: int, key: Text)
    requires At(s, i, t) && JsonBlank(t) && IsBracePair(open, close)
    ensures ContainerEnd(s, open, close, i, depth) == ContainerEnd(s, open, close, Past(i, t), depth)
    ensures FindKey(s, key, i, level) == FindKey(s, key, Past(i, t), level)
  {
    hide ContainerEnd, FindKey, At;
    NeutralSkips(s, i, t, open, close, depth, level, key);
  }

  lemma PunctuationPasses(s: Text, i: nat, b: byte, open: byte, close: byte, depth: int, level: int, key: Text)
    requires At(s, i, [b]) && Neutral(b) && IsBracePair(open, close)
    ensures ContainerEnd(s, open, close, i, depth) == ContainerEnd(s, open, close, i + 1, depth)
    ensures FindKey(s, key, i, level) == FindKey(s, key, i + 1, level)
  {
    AtByte(s, i, [b], 0);
  }

  // How many levels of `open` the bracket `b` stands for.
  function Counts(open: byte, b: byte): int {
    if open == b then 1 else 0
  }

  lemma OpenStep(s: Text, i: nat, b: byte, open: byte, close: byte, depth: int, level: int, key: Text)
    requires At(s, i, [b]) && (b == LBRACE || b == LBRACKET) && IsBracePair(open, close)
    ensures ContainerEnd(s, open, close, i, depth) == ContainerEnd(s, open, close, i + 1, depth + Counts(open, b))
    ensures FindKey(s, key, i, level) == FindKey(s, key, i + 1, level + 1)
  {
    AtByte(s, i, [b], 0);
  }

  lemma CloseStep(s: Text, i: nat, b: byte, open: byte, close: byte, depth: int, level: int, key: Text)
    requires At(s, i, [b]) && (b == RBRACE || b == RBRACKET) && IsBracePair(open, close)
    requires depth - Counts(close, b) >= 1
    ensures ContainerEnd(s, open, close, i, depth) == ContainerEnd(s, open, close, i + 1, depth - Counts(close, b))
    ensures FindKey(s, key, i, level) == FindKey(s, key, i + 1, level - 1)
  {
    AtByte(s, i, [b], 0);
  }

  lemma NumberBytes(n: Number)
    requires NumberOk(n)
    ensures |RenderNumber(n)| > 0
    ensures forall b :: b in RenderNumber(n) ==> Neutral(b) && b != COMMA && !IsSpace(b)
  {
  }

  // A value with no string and no bracket of its own.
  predicate Scalar(v: Value) {
    v.Null? || v.Bool? || v.Num?
  }

  lemma ScalarBytes(v: Value)
    requires ValueOk(v) && Scalar(v)
    ensures |Render(v)| > 0
    ensures forall b :: b in Render(v) ==> Neutral(b) && b != COMMA && !IsSpace(b)
  {
    if v.Num? {
      NumberBytes(v.number);
    }
  }

  function ValueAt(ms: Members, i: nat): nat
    requires ms.Member?
  {
    Past(Past(Past(Past(i, ms.before), Quoted(ms.key)), ms.afterKey) + 1, ms.beforeValue)
  }

  function MemberEnd(ms: Members, i: nat): nat
    requires ms.Member?
  {
    Past(Past(ValueAt(ms, i), Render(ms.value)), ms.after)
  }

  lemma MemberParts(s: Text, i: nat, ms: Members)
    requires ms.Member? && At(s, i, RenderMembers(ms))
    ensures At(s, i, ms.before)
    ensures
      var q := Past(i, ms.before);
      var a := Past(q, Quoted(ms.key));
      var c := Past(a, ms.afterKey);
      && At(s, q, Quoted(ms.key)) && At(s, a, ms.afterKey) && At(s, c, [COLON])
      && At(s, c + 1, ms.beforeValue)
    ensures At(s, ValueAt(ms, i), Render(ms.value))
    ensures At(s, Past(ValueAt(ms, i), Render(ms.value)), ms.after)
    ensures
      if ms.rest.Member? then
        && At(s, MemberEnd(ms, i), [COMMA]) && At(s, MemberEnd(ms, i) + 1, RenderMembers(ms.rest))
        && Past(MemberEnd(ms, i) + 1, RenderMembers(ms.rest)) == Past(i, RenderMembers(ms))
      else MemberEnd(ms, i) == Past(i, RenderMembers(ms))
  {
    hide At, Quoted, Render;
    var t7 := ms.after + MoreMembers(ms.rest);
    var t6 := Render(ms.value) + t7;
    var t5 := ms.beforeValue + t6;
    var t4 := [COLON] + t5;
    var t3 := ms.afterKey + t4;
    var t2 := Quoted(ms.key) + t3;
    AtSplit(s, i, ms.before, t2);
    var q := i + |ms.before|;
    AtSplit(s, q, Quoted(ms.key), t3);
    var a := q + |Quoted(ms.key)|;
    AtSplit(s, a, ms.afterKey, t4);
    var c := a + |ms.afterKey|;
    AtSplit(s, c, [COLON], t5);
    AtSplit(s, c + 1, ms.beforeValue, t6);
    var v := c + 1 + |ms.beforeValue|;
    AtSplit(s, v, Render(ms.value), t7);
    AtSplit(s, v + |Render(ms.value)|, ms.after, MoreMembers(ms.rest));
    if ms.rest.Member? {
      AtSplit(s, MemberEnd(ms, i), [COMMA], RenderMembers(ms.rest));
    }
  }

  lemma ItemParts(s: Text, i: nat, items: Items)
    requires items.Item? && At(s, i, RenderItems(items))
    ensures At(s, i, items.before)
    ensures At(s, Past(i, items.before), Render(items.value))
    ensures At(s, Past(Past(i, items.before), Render(items.value)), items.after)
    ensures
      var m := Past(Past(Past(i, items.before), Render(items.value)), items.after);
      if items.rest.Item? then
        && At(s, m, [COMMA]) && At(s, m + 1, RenderItems(items.rest))
        && Past(m + 1, RenderItems(items.rest)) == Past(i, RenderItems(items))
      else m == Past(i, RenderItems(items))
  {
    hide At, Render;
    var t2 := items.after + MoreItems(items.rest);
    var t1 := Render(items.value) + t2;
    AtSplit(s, i, items.before, t1);
    var v := i + |items.before|;
    AtSplit(s, v, Render(items.value), t2);
    var e := v + |Render(items.value)|;
    AtSplit(s, e, items.after, MoreItems(items.rest));
    if items.rest.Item? {
      AtSplit(s, e + |items.after|, [COMMA], RenderItems(items.rest));
    }
  }

  lemma ArrayParts(s: Text, i: nat, items: Items, tail: Text)
    requires At(s, i, Render(Arr(items, tail)))
    ensures At(s, i, [LBRACKET]) && At(s, i + 1, RenderItems(items))
    ensures At(s, Past(i + 1, RenderItems(items)), tail)
    ensures At(s, Past(Past(i + 1, RenderItems(items)), tail), [RBRACKET])
    ensures Past(Past(i + 1, RenderItems(items)), tail) + 1 == Past(i, Render(Arr(items, tail)))
  {
    AtSplit(s, i, [LBRACKET], RenderItems(items) + (tail + [RBRACKET]));
    AtSplit(s, i + 1, RenderItems(items), tail + [RBRACKET]);
    AtSplit(s, i + 1 + |RenderItems(items)|, tail, [RBRACKET]);
  }

  lemma ObjectParts(s: Text, i: nat, members: Members, tail: Text)
    requires At(s, i, Render(Obj(members, tail)))
    ensures At(s, i, [LBRACE]) && At(s, i + 1, RenderMembers(members))
    ensures At(s, Past(i + 1, RenderMembers(members)), tail)
    ensures At(s, Past(Past(i + 1, RenderMembers(members)), tail), [RBRACE])
    ensures Past(Past(i + 1, RenderMembers(members)), tail) + 1 == Past(i, Render(Obj(members, tail)))
  {
    AtSplit(s, i, [LBRACE], RenderMembers(members) + (tail + [RBRACE]));
    AtSplit(s, i + 1, RenderMembers(members), tail + [RBRACE]);
    AtSplit(s, i + 1 + |RenderMembers(members)|, tail, [RBRACE]);
  }

  // ---------- A whole value leaves the depth of an enclosing scan unchanged ----------

  lemma StringPasses(s: Text, i: nat, raw: Text, open: byte, close: byte, depth: int, level: int, key: Text)
    requires At(s, i, Quoted(raw)) && RawOk(raw) && IsBracePair(open, close)
    ensures ContainerEnd(s, open, close, i, depth) == ContainerEnd(s, open, close, Past(i, Quoted(raw)), depth)
    ensures level != 1 ==> FindKey(s, key, i, level) == FindKey(s, key, Past(i, Quoted(raw)), level)
  {
    QuotedEnds(s, i, raw);
  }

  lemma ScalarPasses(s: Text, i: nat, v: Value, open: byte, close: byte, depth: int, level: int, key: Text)
    requires At(s, i, Render(v)) && ValueOk(v) && Scalar(v) && IsBracePair(open, close)
    ensures ContainerEnd(s, open, close, i, depth) == ContainerEnd(s, open, close, Past(i, Render(v)), depth)
    ensures FindKey(s, key, i, level) == FindKey(s, key, Past(i, Render(v)), level)
  {
    hide ContainerEnd, FindKey, At, Render;
    ScalarBytes(v);
    NeutralSkips(s, i, Render(v), open, close, depth, level, key);
  }

  lemma {:induction false} ValuePasses(s: Text, i: nat, v: Value, open: byte, close: byte,
                                       depth: int, level: int, key: Text)
    requires At(s, i, Render(v)) && ValueOk(v) && IsBracePair(open, close) && depth >= 1 && level >= 1
    ensures ContainerEnd(s, open, close, i, depth) == ContainerEnd(s, open, close, Past(i, Render(v)), depth)
    ensures level != 1 || !v.Str? ==> FindKey(s, key, i, level) == FindKey(s, key, Past(i, Render(v)), level)
    decreases v
  {
    hide ContainerEnd, FindKey, At, RenderItems, RenderMembers, RawOk, NeutralText, JsonBlank;
    match v
    case Str(raw) => StringPasses(s, i, raw, open, close, depth, level, key);
    case Arr(items, tail) =>
      ArrayParts(s, i, items, tail);
      var inner := depth + Counts(open, LBRACKET);
      var t := Past(i + 1, RenderItems(items));
      OpenStep(s, i, LBRACKET, open, close, depth, level, key);
      ItemsPass(s, i + 1, items, open, close, inner, level + 1, key);
      BlankPasses(s, t, tail, open, close, inner, level + 1, key);
      CloseStep(s, Past(t, tail), RBRACKET, open, close, inner, level + 1, key);
    case Obj(members, tail) =>
      ObjectParts(s, i, members, tail);
      var inner := depth + Counts(open, LBRACE);
      var t := Past(i + 1, RenderMembers(members));
      OpenStep(s, i, LBRACE, open, close, depth, level, key);
      MembersPass(s, i + 1, members, open, close, inner, level + 1, key);
      BlankPasses(s, t, tail, open, close, inner, level + 1, key);
      CloseStep(s, Past(t, tail), RBRACE, open, close, inner, level + 1, key);
    case _ =>
      ScalarPasses(s, i, v, open, close, depth, level, key);
  }

  lemma {:induction false} ItemsPass(s: Text, i: nat, items: Items, open: byte, close: byte,
                                     depth: int, level: int, key: Text)
    requires At(s, i, RenderItems(items)) && ItemsOk(items) && IsBracePair(open, close) && depth >= 1 && level >= 2
    ensures ContainerEnd(s, open, close, i, depth) == ContainerEnd(s, open, close, Past(i, RenderItems(items)), depth)
    ensures FindKey(s, key, i, level) == FindKey(s, key, Past(i, RenderItems(items)), level)
    decreases items
  {
    hide ContainerEnd, FindKey, At, Render, RawOk, NeutralText, JsonBlank;
    match items
    case NoItems =>
    case Item(before, value, after, rest) =>
      ItemParts(s, i, items);
      var v := Past(i, before);
      var e := Past(v, Render(value));
      var m := Past(e, after);
      BlankPasses(s, i, before, open, close, depth, level, key);
      ValuePasses(s, v, value, open, close, depth, level, key);
      BlankPasses(s, e, after, open, close, depth, level, key);
      if rest.Item? {
        PunctuationPasses(s, m, COMMA, open, close, depth, level, key);
        ItemsPass(s, m + 1, rest, open, close, depth, level, key);
      }
  }

  // From the start of a member to its value.
  lemma KeyPasses(s: Text, i: nat, ms: Members, open: byte, close: byte, depth: int, level: int, key: Text)
    requires ms.Member? && At(s, i, RenderMembers(ms)) && MembersOk(ms) && IsBracePair(open, close) && level >= 2
    ensures ContainerEnd(s, open, close, i, depth) == ContainerEnd(s, open, close, ValueAt(ms, i), depth)
    ensures FindKey(s, key, i, level) == FindKey(s, key, ValueAt(ms, i), level)
  {
    hide ContainerEnd, FindKey, At, Render, RenderMembers, RawOk, NeutralText, JsonBlank;
    MemberParts(s, i, ms);
    var q := Past(i, ms.before);
    var a := Past(q, Quoted(ms.key));
    var c := Past(a, ms.afterKey);
    BlankPasses(s, i, ms.before, open, close, depth, level, key);
    StringPasses(s, q, ms.key, open, close, depth, level, key);
    BlankPasses(s, a, ms.afterKey, open, close, depth, level, key);
    PunctuationPasses(s, c, COLON, open, close, depth, level, key);
    BlankPasses(s, c + 1, ms.beforeValue, open, close, depth, level, key);
  }

  lemma {:induction false} MembersPass(s: Text, i: nat, ms: Members, open: byte, close: byte,
                                       depth: int, level: int, key: Text)
    requires At(s, i, RenderMembers(ms)) && MembersOk(ms) && IsBracePair(open, close) && depth >= 1 && level >= 2
    ensures ContainerEnd(s, open, close, i, depth) == ContainerEnd(s, open, close, Past(i, RenderMembers(ms)), depth)
    ensures FindKey(s, key, i, level) == FindKey(s, key, Past(i, RenderMembers(ms)), level)
    decreases ms
  {
    hide ContainerEnd, FindKey, At, Render, RawOk, NeutralText, JsonBlank;
    match ms
    case NoMembers =>
    case Member(_, _, _, _, value, after, rest) =>
      MemberParts(s, i, ms);
      KeyPasses(s, i, ms, open, close, depth, level, key);
      ValuePasses(s, ValueAt(ms, i), value, open, close, depth, level, key);
      BlankPasses(s, Past(ValueAt(ms, i), Render(value)), after, open, close, depth, level, key);
      if rest.Member? {
        PunctuationPasses(s, MemberEnd(ms, i), COMMA, open, close, depth, level, key);
        MembersPass(s, MemberEnd(ms, i) + 1, rest, open, close, depth, level, key);
      }
  }

  // ---------- The value scanner stops exactly at the end of a value ----------

  // What may follow a value: the end of the text, or a byte that ends a scalar.
  ghost predicate Delimited(s: Text, i: nat) {
    i <= |s| && (i < |s| ==> EndsScalar(s[i]))
  }

  lemma {:induction false} ScalarSkips(s: Text, i: nat, t: Text)
    requires At(s, i, t) && forall b :: b in t ==> !EndsScalar(b)
    ensures ScalarEnd(s, i) == ScalarEnd(s, i + |t|)
    decreases |t|
  {
    if t != [] {
      AtByte(s, i, t, 0);
      assert t[..1] + t[1..] == t;
      AtSplit(s, i, t[..1], t[1..]);
      ScalarSkips(s, i + 1, t[1..]);
    }
  }

  // The outermost bracket pair of a container, with a neutral-depth body between.
  lemma OuterPair(s: Text, i: nat, open: byte, close: byte, e: nat)
    requires IsBracePair(open, close) && At(s, i, [open]) && At(s, e, [close])
    requires ContainerEnd(s, open, close, i + 1, 1) == ContainerEnd(s, open, close, e, 1)
    ensures ValueEnd(s, i) == Some(e + 1)
  {
    AtByte(s, i, [open], 0);
    AtByte(s, e, [close], 0);
  }

  lemma ValueEndsExactly(s: Text, i: nat, v: Value)
    requires At(s, i, Render(v)) && ValueOk(v)
    requires Scalar(v) ==> Delimited(s, Past(i, Render(v)))
    ensures ValueEnd(s, i) == Some(Past(i, Render(v)))
  {
    match v
    case Str(raw) =>
      hide InString, RawOk, At;
      QuotedEnds(s, i, raw);
    case Arr(items, tail) =>
      hide ContainerEnd, FindKey, At, ValueEnd, RenderItems, RawOk, JsonBlank;
      ArrayParts(s, i, items, tail);
      var t := Past(i + 1, RenderItems(items));
      ItemsPass(s, i + 1, items, LBRACKET, RBRACKET, 1, 2, []);
      BlankPasses(s, t, tail, LBRACKET, RBRACKET, 1, 2, []);
      OuterPair(s, i, LBRACKET, RBRACKET, Past(t, tail));
    case Obj(members, tail) =>
      hide ContainerEnd, FindKey, At, ValueEnd, RenderMembers, RawOk, JsonBlank;
      ObjectParts(s, i, members, tail);
      var t := Past(i + 1, RenderMembers(members));
      MembersPass(s, i + 1, members, LBRACE, RBRACE, 1, 2, []);
      BlankPasses(s, t, tail, LBRACE, RBRACE, 1, 2, []);
      OuterPair(s, i, LBRACE, RBRACE, Past(t, tail));
    case _ =>
      hide At, ContainerEnd, InString, Render, RawOk;
      ScalarBytes(v);
      AtByte(s, i, Render(v), 0);
      ScalarSkips(s, i, Render(v));
  }

  // ---------- The key search finds the depth-one member and nothing else ----------

  lemma {:induction false} BlankSkips(s: Text, i: nat, t: Text)
    requires At(s, i, t) && Blank(t)
    requires Past(i, t) < |s| ==> !IsSpace(s[Past(i, t)])
    ensures SkipSpace(s, i) == Past(i, t)
    decreases |t|
  {
    if t != [] {
      AtByte(s, i, t, 0);
      assert t[..1] + t[1..] == t;
      AtSplit(s, i, t[..1], t[1..]);
      BlankSkips(s, i + 1, t[1..]);
    }
  }

  lemma ValueEdges(v: Value)
    requires ValueOk(v)
    ensures |Render(v)| > 0
    ensures !IsSpace(Render(v)[0])
    ensures !IsSpace(Render(v)[|Render(v)| - 1]) && Render(v)[|Render(v)| - 1] != LBRACE
  {
    if Scalar(v) {
      ScalarBytes(v);
    }
  }

  // Where the value of the first member called `key` starts when the members start at `i`.
  function FoundAt(ms: Members, key: Text, i: nat): nat
    requires Find(ms, key).Some?
  {
    if ms.key == key then ValueAt(ms, i) else FoundAt(ms.rest, key, MemberEnd(ms, i) + 1)
  }

  ghost predicate Closes(s: Text, i: nat) {
    i < |s| && (s[i] == COMMA || s[i] == RBRACE)
  }

  lemma AfterMember(s: Text, i: nat, ms: Members)
    requires ms.Member? && At(s, i, RenderMembers(ms)) && MembersOk(ms) && Closes(s, Past(i, RenderMembers(ms)))
    ensures Closes(s, MemberEnd(ms, i))
    ensures Delimited(s, Past(ValueAt(ms, i), Render(ms.value)))
    ensures !IsSpace(s[ValueAt(ms, i)])
  {
    hide RenderMembers, Render;
    MemberParts(s, i, ms);
    if ms.rest.Member? {
      AtByte(s, MemberEnd(ms, i), [COMMA], 0);
    }
    var e := Past(ValueAt(ms, i), Render(ms.value));
    if ms.after != [] {
      AtByte(s, e, ms.after, 0);
    }
    ValueEdges(ms.value);
    AtByte(s, ValueAt(ms, i), Render(ms.value), 0);
  }

  // From the start of a member up to its key: the search stands on the opening quote.
  lemma KeyReached(s: Text, q: nat, raw: Text, c: nat, v: nat, end: nat)
    requires At(s, q, Quoted(raw)) && RawOk(raw)
    requires Past(q, Quoted(raw)) <= |s| && SkipSpace(s, Past(q, Quoted(raw))) == c
    requires c < |s| && s[c] == COLON && SkipSpace(s, c + 1) == v && ValueEnd(s, v) == Some(end)
    ensures FindKey(s, raw, q, 1) == Some(Span(v, end))
  {
    hide RawOk, InString, At, SkipSpace, ValueEnd, Quoted;
    QuotedEnds(s, q, raw);
  }

  // The search meets the member it looks for.
  lemma MemberFound(s: Text, i: nat, ms: Members)
    requires ms.Member? && At(s, i, RenderMembers(ms)) && MembersOk(ms) && Closes(s, Past(i, RenderMembers(ms)))
    ensures FindKey(s, ms.key, i, 1) == Some(Span(ValueAt(ms, i), Past(ValueAt(ms, i), Render(ms.value))))
    ensures At(s, ValueAt(ms, i), Render(ms.value))
  {
    hide RenderMembers, Render, At, ContainerEnd, FindKey, SkipSpace, RawOk, ValueEnd, Quoted;
    MemberParts(s, i, ms);
    AfterMember(s, i, ms);
    var q := Past(i, ms.before);
    var a := Past(q, Quoted(ms.key));
    var c := Past(a, ms.afterKey);
    BlankPasses(s, i, ms.before, LBRACE, RBRACE, 1, 1, ms.key);
    AtByte(s, c, [COLON], 0);
    AtLength(s, a, ms.afterKey);
    BlankSkips(s, a, ms.afterKey);
    BlankSkips(s, c + 1, ms.beforeValue);
    ValueEndsExactly(s, ValueAt(ms, i), ms.value);
    KeyReached(s, q, ms.key, c, ValueAt(ms, i), Past(ValueAt(ms, i), Render(ms.value)));
  }

  lemma AtLength(s: Text, i: nat, t: Text)
    requires At(s, i, t)
    ensures i <= Past(i, t) <= |s|
  {
  }

  // A string value spelled like the key is no key: no colon follows it.
  lemma StringValuePassed(s: Text, i: nat, raw: Text, after: Text, key: Text)
    requires At(s, i, Quoted(raw)) && RawOk(raw)
    requires At(s, Past(i, Quoted(raw)), after) && JsonBlank(after)
    requires Closes(s, Past(Past(i, Quoted(raw)), after))
    ensures FindKey(s, key, i, 1) == FindKey(s, key, Past(Past(i, Quoted(raw)), after), 1)
  {
    hide At, ContainerEnd;
    QuotedEnds(s, i, raw);
    var j := Past(i, Quoted(raw));
    BlankSkips(s, j, after);
    BlankPasses(s, j, after, LBRACE, RBRACE, 1, 1, key);
  }

  lemma OtherStringPassed(s: Text, i: nat, raw: Text, key: Text)
    requires At(s, i, Quoted(raw)) && RawOk(raw) && raw != key
    ensures FindKey(s, key, i, 1) == FindKey(s, key, Past(i, Quoted(raw)), 1)
  {
    QuotedEnds(s, i, raw);
  }

  // The search goes on behind a member with another key.
  lemma MemberPassed(s: Text, i: nat, ms: Members, key: Text)
    requires ms.Member? && At(s, i, RenderMembers(ms)) && MembersOk(ms) && Closes(s, Past(i, RenderMembers(ms)))
    requires ms.key != key
    ensures FindKey(s, key, i, 1) == FindKey(s, key, MemberEnd(ms, i), 1)
  {
    hide RenderMembers, Render, At, ContainerEnd, FindKey;
    MemberParts(s, i, ms);
    AfterMember(s, i, ms);
    var q := Past(i, ms.before);
    var a := Past(q, Quoted(ms.key));
    var c := Past(a, ms.afterKey);
    var v := ValueAt(ms, i);
    BlankPasses(s, i, ms.before, LBRACE, RBRACE, 1, 1, key);
    OtherStringPassed(s, q, ms.key, key);
    BlankPasses(s, a, ms.afterKey, LBRACE, RBRACE, 1, 1, key);
    PunctuationPasses(s, c, COLON, LBRACE, RBRACE, 1, 1, key);
    BlankPasses(s, c + 1, ms.beforeValue, LBRACE, RBRACE, 1, 1, key);
    if ms.value.Str? {
      assert Render(ms.value) == Quoted(ms.value.raw) by { RenderStr(ms.value.raw); }
      StringValuePassed(s, v, ms.value.raw, ms.after, key);
    } else {
      ValuePasses(s, v, ms.value, LBRACE, RBRACE, 1, 1, key);
      BlankPasses(s, Past(v, Render(ms.value)), ms.after, LBRACE, RBRACE, 1, 1, key);
    }
  }

  lemma RenderStr(raw: Text)
    ensures Render(Str(raw)) == Quoted(raw)
  {
  }

  lemma {:induction false} SearchMembers(s: Text, i: nat, ms: Members, key: Text)
    requires At(s, i, RenderMembers(ms)) && MembersOk(ms)
    requires ms.Member? ==> Closes(s, Past(i, RenderMembers(ms)))
    ensures
      match Find(ms, key)
      case None => FindKey(s, key, i, 1) == FindKey(s, key, Past(i, RenderMembers(ms)), 1)
      case Some(v) =>
        && FindKey(s, key, i, 1) == Some(Span(FoundAt(ms, key, i), Past(FoundAt(ms, key, i), Render(v))))
        && At(s, FoundAt(ms, key, i), Render(v))
    decreases ms
  {
    hide Render, At, ContainerEnd, FindKey;
    match ms
    case NoMembers =>
    case Member(_, k, _, _, _, _, rest) =>
      if k == key {
        MemberFound(s, i, ms);
      } else {
        MemberParts(s, i, ms);
        MemberPassed(s, i, ms, key);
        if rest.Member? {
          PunctuationPasses(s, MemberEnd(ms, i), COMMA, LBRACE, RBRACE, 1, 1, key);
          SearchMembers(s, MemberEnd(ms, i) + 1, rest, key);
        }
      }
  }

  lemma DocumentParts(doc: Document)
    ensures
      var s := RenderDocument(doc);
      && At(s, 0, doc.before) && At(s, |doc.before|, Render(doc.root))
      && At(s, Past(|doc.before|, Render(doc.root)), doc.after)
      && Past(Past(|doc.before|, Render(doc.root)), doc.after) == |s|
  {
    var s := RenderDocument(doc);
    AtSplit(s, 0, doc.before, Render(doc.root) + doc.after);
    AtSplit(s, |doc.before|, Render(doc.root), doc.after);
  }

  lemma {:induction false} NothingFound(s: Text, i: nat, t: Text, key: Text)
    requires At(s, i, [RBRACE]) && At(s, i + 1, t) && NeutralText(t) && Past(i + 1, t) == |s|
    ensures FindKey(s, key, i, 1) == None
  {
    AtByte(s, i, [RBRACE], 0);
    NeutralSkips(s, i + 1, t, LBRACE, RBRACE, 0, 0, key);
  }

  // The span the key search returns is that of the root member with these key bytes: never a
  // member of a nested object, never a string value.
  lemma KeySearchExact(doc: Document, key: Text)
    requires DocumentOk(doc) && doc.root.Obj?
    ensures
      var s := RenderDocument(doc);
      match Find(doc.root.members, key)
      case None => FindMember(s, key) == None
      case Some(v) =>
        var at := FoundAt(doc.root.members, key, |doc.before| + 1);
        && FindMember(s, key) == Some(Span(at, Past(at, Render(v))))
        && At(s, at, Render(v))
  {
    hide Render, At, ContainerEnd, FindKey, RenderMembers, RenderDocument;
    var s := RenderDocument(doc);
    var ms, tail := doc.root.members, doc.root.tail;
    var i := |doc.before|;
    DocumentParts(doc);
    assert doc.root == Obj(ms, tail);
    ObjectParts(s, i, ms, tail);
    AtByte(s, i, [LBRACE], 0);
    BlankSkips(s, 0, doc.before);
    OpenStep(s, i, LBRACE, LBRACE, RBRACE, 0, 0, key);
    var t := Past(i + 1, RenderMembers(ms));
    AtByte(s, Past(t, tail), [RBRACE], 0);
    SearchMembers(s, i + 1, ms, key);
    BlankPasses(s, t, tail, LBRACE, RBRACE, 1, 1, key);
    NothingFound(s, Past(t, tail), doc.after, key);
  }

  // ---------- The rewrite on syntax trees ----------

  function OptionsOn(v: Value): Value
    requires v.Obj?
  {
    if Find(v.members, INCLUDE_USAGE).Some? then
      Obj(Replace(v.members, INCLUDE_USAGE, Bool(true)), v.tail)
    else
      Obj(Member([], INCLUDE_USAGE, [], [], Bool(true), v.tail, v.members), [])
  }

  function FreshOptions(before: Text): Members {
    var usage := Member([], INCLUDE_USAGE, [], [], Bool(true), [], NoMembers);
    Member(before, STREAM_OPTIONS, [], [], Obj(usage, []), [], NoMembers)
  }

  // The stream_options member is an object, or there is none.
  predicate OptionsUsable(doc: Document) {
    && doc.root.Obj?
    && (Find(doc.root.members, STREAM_OPTIONS).Some? ==> Find(doc.root.members, STREAM_OPTIONS).value.Obj?)
  }

  function UsageOn(doc: Document): Document
    requires OptionsUsable(doc)
  {
    var ms, tail := doc.root.members, doc.root.tail;
    match Find(ms, STREAM_OPTIONS)
    case Some(options) => doc.(root := Obj(Replace(ms, STREAM_OPTIONS, OptionsOn(options)), tail))
    case None =>
      if ms.NoMembers? then doc.(root := Obj(FreshOptions(tail), []))
      else doc.(root := Obj(Append(ms, FreshOptions([])), []))
  }

  lemma SpliceRight(head: Text, t: Text, span: Span, text: Text)
    requires span.start <= span.end <= |t|
    ensures Splice(head + t, Span(|head| + span.start, |head| + span.end), text) == head + Splice(t, span, text)
  {
  }

  lemma SpliceLeft(t: Text, last: Text, span: Span, text: Text)
    requires span.start <= span.end <= |t|
    ensures Splice(t + last, span, text) == Splice(t, span, text) + last
  {
  }

  lemma SpliceMiddle(head: Text, t: Text, last: Text, span: Span, text: Text)
    requires span.start <= span.end <= |t|
    ensures |head| + span.end <= |head + (t + last)|
    ensures
      Splice(head + (t + last), Span(|head| + span.start, |head| + span.end), text)
      == head + (Splice(t, span, text) + last)
  {
    hide Splice;
    SpliceRight(head, t + last, span, text);
    SpliceLeft(t, last, span, text);
  }

  lemma SpliceNested(t: Text, outer: Span, inner: Span, text: Text)
    requires outer.start <= outer.end <= |t| && inner.start <= inner.end <= outer.end - outer.start
    ensures
      Splice(t, outer, Splice(t[outer.start..outer.end], inner, text))
      == Splice(t, Span(outer.start + inner.start, outer.start + inner.end), text)
  {
    var body := t[outer.start..outer.end];
    assert t[..outer.start] + body[..inner.start] == t[..outer.start + inner.start];
    assert body[inner.end..] + t[outer.end..] == t[outer.start + inner.end..];
  }

  // What comes before the value of a member, as one text.
  function Head(ms: Members): Text
    requires ms.Member?
  {
    ms.before + Quoted(ms.key) + ms.afterKey + [COLON] + ms.beforeValue
  }

  lemma HeadSplits(ms: Members)
    requires ms.Member?
    ensures RenderMembers(ms) == Head(ms) + (Render(ms.value) + (ms.after + MoreMembers(ms.rest)))
    ensures ValueAt(ms, 0) == |Head(ms)|
  {
    hide Render, MoreMembers, Quoted;
  }

  lemma {:induction false} FoundShifts(ms: Members, key: Text, i: nat)
    requires Find(ms, key).Some?
    ensures FoundAt(ms, key, i) == i + FoundAt(ms, key, 0)
    decreases ms
  {
    if ms.key != key {
      FoundShifts(ms.rest, key, MemberEnd(ms, i) + 1);
      FoundShifts(ms.rest, key, MemberEnd(ms, 0) + 1);
    }
  }

  // Everything up to the next member, as one text.
  function UpToNext(ms: Members): Text
    requires ms.Member?
  {
    Head(ms) + Render(ms.value) + ms.after + [COMMA]
  }

  lemma NextSplits(ms: Members)
    requires ms.Member? && ms.rest.Member?
    ensures RenderMembers(ms) == UpToNext(ms) + RenderMembers(ms.rest)
    ensures |UpToNext(ms)| == MemberEnd(ms, 0) + 1
  {
    HeadSplits(ms);
    hide Head, Render, RenderMembers, ValueAt;
  }

  lemma ReplaceFirst(ms: Members, v: Value)
    requires ms.Member?
    ensures
      var at := ValueAt(ms, 0);
      && Past(at, Render(ms.value)) <= |RenderMembers(ms)|
      && Splice(RenderMembers(ms), Span(at, Past(at, Render(ms.value))), Render(v))
         == RenderMembers(ms.(value := v))
  {
    hide RenderMembers, Render, Splice, Head;
    var last := ms.after + MoreMembers(ms.rest);
    HeadSplits(ms);
    HeadSplits(ms.(value := v));
    assert Head(ms.(value := v)) == Head(ms) by { HeadIgnoresValue(ms, v); }
    SpliceRight(Head(ms), Render(ms.value) + last, Span(0, |Render(ms.value)|), Render(v));
    SpliceLeft(Render(ms.value), last, Span(0, |Render(ms.value)|), Render(v));
    SpliceWhole(Render(ms.value), Render(v));
  }

  lemma HeadIgnoresValue(ms: Members, v: Value)
    requires ms.Member?
    ensures Head(ms.(value := v)) == Head(ms)
  {
  }

  lemma SpliceWhole(t: Text, text: Text)
    ensures Splice(t, Span(0, |t|), text) == text
  {
  }

  lemma UpToNextIgnoresRest(ms: Members, rest: Members)
    requires ms.Member?
    ensures UpToNext(ms.(rest := rest)) == UpToNext(ms)
  {
  }

  lemma {:induction false} ReplaceIsSplice(ms: Members, key: Text, v: Value)
    requires Find(ms, key).Some?
    ensures
      var at := FoundAt(ms, key, 0);
      && Past(at, Render(Find(ms, key).value)) <= |RenderMembers(ms)|
      && Splice(RenderMembers(ms), Span(at, Past(at, Render(Find(ms, key).value))), Render(v))
         == RenderMembers(Replace(ms, key, v))
    decreases ms
  {
    hide RenderMembers, Render, Splice, UpToNext;
    if ms.key == key {
      ReplaceFirst(ms, v);
    } else {
      var rest' := Replace(ms.rest, key, v);
      ReplaceIsSplice(ms.rest, key, v);
      FoundShifts(ms.rest, key, MemberEnd(ms, 0) + 1);
      NextSplits(ms);
      NextSplits(ms.(rest := rest'));
      UpToNextIgnoresRest(ms, rest');
      var at := FoundAt(ms.rest, key, 0);
      SpliceRight(UpToNext(ms), RenderMembers(ms.rest), Span(at, Past(at, Render(Find(ms, key).value))), Render(v));
    }
  }

  lemma PastShifts(i: nat, k: nat, t: Text)
    ensures Past(i + k, t) == i + Past(k, t) && k <= Past(k, t)
  {
  }

  lemma SpliceObject(doc: Document, key: Text, v: Value)
    requires doc.root.Obj? && Find(doc.root.members, key).Some?
    ensures
      var ms, tail := doc.root.members, doc.root.tail;
      var at := FoundAt(ms, key, |doc.before| + 1);
      var e := Past(at, Render(Find(ms, key).value));
      && e <= |RenderDocument(doc)|
      && Splice(RenderDocument(doc), Span(at, e), Render(v))
         == RenderDocument(doc.(root := Obj(Replace(ms, key, v), tail)))
  {
    hide *;
    var ms, tail := doc.root.members, doc.root.tail;
    var at := FoundAt(ms, key, 0);
    var e := Past(at, Render(Find(ms, key).value));
    var head := doc.before + [LBRACE];
    var last := tail + [RBRACE] + doc.after;
    ReplaceIsSplice(ms, key, v);
    FoundShifts(ms, key, |doc.before| + 1);
    PastShifts(|head|, at, Render(Find(ms, key).value));
    assert doc.(root := Obj(ms, tail)) == doc;
    RenderObject(doc, ms, tail);
    RenderObject(doc, Replace(ms, key, v), tail);
    SpliceMiddle(head, RenderMembers(ms), last, Span(at, e), Render(v));
  }

  lemma RenderObject(doc: Document, ms: Members, tail: Text)
    ensures RenderDocument(doc.(root := Obj(ms, tail)))
         == (doc.before + [LBRACE]) + (RenderMembers(ms) + (tail + [RBRACE] + doc.after))
  {
  }
}
