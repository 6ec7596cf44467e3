/** JSON text (RFC 8259, sections 2 to 7) as a concrete syntax tree: every byte of a text,
    whitespace included, is somewhere in the tree, and `Render` writes it back. */
module JsonText {
  import opened Wrappers
  import opened Octets

  type Text = seq<byte>

  const QUOTE: byte := 0x22
  const BACKSLASH: byte := 0x5C
  const COLON: byte := 0x3A
  const COMMA: byte := 0x2C
  const LBRACE: byte := 0x7B
  const RBRACE: byte := 0x7D
  const LBRACKET: byte := 0x5B
  const RBRACKET: byte := 0x5D

  const TRUE: Text := [0x74, 0x72, 0x75, 0x65]
  const FALSE: Text := [0x66, 0x61, 0x6C, 0x73, 0x65]
  const NULL: Text := [0x6E, 0x75, 0x6C, 0x6C]

  datatype Exponent = Exponent(letter: byte, sign: Text, digits: Text)

  datatype Number = Number(negative: bool, whole: Text, fraction: Option<Text>, exponent: Option<Exponent>)

  datatype Value =
    | Null
    | Bool(value: bool)
    | Num(number: Number)
    | Str(raw: Text)  // the bytes between the quotes, escapes left as written
    | Arr(items: Items, tail: Text)  // `tail` is the whitespace of an empty array
    | Obj(members: Members, tail: Text)

  datatype Items =
    | NoItems
    | Item(before: Text, value: Value, after: Text, rest: Items)

  datatype Members =
    | NoMembers
    | Member(before: Text, key: Text, afterKey: Text, beforeValue: Text, value: Value, after: Text, rest: Members)

  datatype Document = Document(before: Text, root: Value, after: Text)

  // ---------- Well-formedness ----------

  // Rust's `u8::is_ascii_whitespace`: JSON's four whitespace bytes and the form feed.
  predicate IsSpace(b: byte) {
    b == 0x20 || b == 0x09 || b == 0x0A || b == 0x0C || b == 0x0D
  }

  predicate Blank(t: Text) {
    forall i :: 0 <= i < |t| ==> IsSpace(t[i])
  }

  // JSON whitespace (section 2) does not admit the form feed.
  predicate JsonBlank(t: Text) {
    forall i :: 0 <= i < |t| ==> IsSpace(t[i]) && t[i] != 0x0C
  }

  predicate IsDigit(b: byte) {
    0x30 <= b <= 0x39
  }

  predicate Digits(t: Text) {
    |t| > 0 && forall i :: 0 <= i < |t| ==> IsDigit(t[i])
  }

  predicate NumberOk(n: Number) {
    && Digits(n.whole)
    && (n.whole[0] == 0x30 ==> |n.whole| == 1)
    && (n.fraction.Some? ==> Digits(n.fraction.value))
    && (n.exponent.Some? ==>
      && (n.exponent.value.letter == 0x65 || n.exponent.value.letter == 0x45)
      && (n.exponent.value.sign == [] || n.exponent.value.sign == [0x2B] || n.exponent.value.sign == [0x2D])
      && Digits(n.exponent.value.digits))
  }

  predicate IsHex(b: byte) {
    IsDigit(b) || 0x41 <= b <= 0x46 || 0x61 <= b <= 0x66
  }

  predicate IsShortEscape(b: byte) {
    b == QUOTE || b == BACKSLASH || b == 0x2F || b == 0x62 || b == 0x66 || b == 0x6E || b == 0x72 || b == 0x74
  }

  // Section 7: control characters, the quote and the backslash are escaped.
  predicate RawOk(raw: Text) {
    if raw == [] then true
    else if raw[0] == BACKSLASH then
      && |raw| >= 2
      && if IsShortEscape(raw[1]) then RawOk(raw[2..])
         else
           && raw[1] == 0x75 && |raw| >= 6
           && IsHex(raw[2]) && IsHex(raw[3]) && IsHex(raw[4]) && IsHex(raw[5])
           && RawOk(raw[6..])
    else raw[0] != QUOTE && raw[0] >= 0x20 && RawOk(raw[1..])
  }

  predicate ValueOk(v: Value) {
    match v
    case Null => true
    case Bool(_) => true
    case Num(n) => NumberOk(n)
    case Str(raw) => RawOk(raw)
    case Arr(items, tail) => ItemsOk(items) && JsonBlank(tail) && (items.Item? ==> tail == [])
    case Obj(members, tail) => MembersOk(members) && JsonBlank(tail) && (members.Member? ==> tail == [])
  }

  predicate ItemsOk(items: Items) {
    match items
    case NoItems => true
    case Item(before, value, after, rest) =>
      JsonBlank(before) && ValueOk(value) && JsonBlank(after) && ItemsOk(rest)
  }

  predicate MembersOk(ms: Members) {
    match ms
    case NoMembers => true
    case Member(before, key, afterKey, beforeValue, value, after, rest) =>
      && JsonBlank(before) && RawOk(key) && JsonBlank(afterKey) && JsonBlank(beforeValue)
      && ValueOk(value) && JsonBlank(after) && MembersOk(rest)
  }

  predicate DocumentOk(doc: Document) {
    JsonBlank(doc.before) && ValueOk(doc.root) && JsonBlank(doc.after)
  }

  // ---------- Rendering ----------

  function Quoted(raw: Text): Text {
    [QUOTE] + (raw + [QUOTE])
  }

  function RenderNumber(n: Number): Text {
    (if n.negative then [0x2D] else []) + n.whole
    + (if n.fraction.Some? then [0x2E] + n.fraction.value else [])
    + (if n.exponent.Some?
       then [n.exponent.value.letter] + n.exponent.value.sign + n.exponent.value.digits
       else [])
  }

  function Render(v: Value): Text {
    match v
    case Null => NULL
    case Bool(b) => if b then TRUE else FALSE
    case Num(n) => RenderNumber(n)
    case Str(raw) => Quoted(raw)
    case Arr(items, tail) => [LBRACKET] + (RenderItems(items) + (tail + [RBRACKET]))
    case Obj(members, tail) => [LBRACE] + (RenderMembers(members) + (tail + [RBRACE]))
  }

  function RenderItems(items: Items): Text
    decreases items, 0
  {
    match items
    case NoItems => []
    case Item(before, value, after, rest) => before + (Render(value) + (after + MoreItems(rest)))
  }

  function MoreItems(rest: Items): Text
    decreases rest, 1
  {
    if rest.NoItems? then [] else [COMMA] + RenderItems(rest)
  }

  function RenderMembers(ms: Members): Text
    decreases ms, 0
  {
    match ms
    case NoMembers => []
    case Member(before, key, afterKey, beforeValue, value, after, rest) =>
      before + (Quoted(key) + (afterKey + ([COLON] + (beforeValue + (Render(value) + (after + MoreMembers(rest)))))))
  }

  function MoreMembers(rest: Members): Text
    decreases rest, 1
  {
    if rest.NoMembers? then [] else [COMMA] + RenderMembers(rest)
  }

  function RenderDocument(doc: Document): Text {
    doc.before + (Render(doc.root) + doc.after)
  }

  // ---------- Members by the bytes of their key ----------

  function Find(ms: Members, key: Text): Option<Value> {
    match ms
    case NoMembers => None
    case Member(_, k, _, _, v, _, rest) => if k == key then Some(v) else Find(rest, key)
  }

  function Keys(ms: Members): seq<Text> {
    match ms
    case NoMembers => []
    case Member(_, k, _, _, _, _, rest) => [k] + Keys(rest)
  }

  // Give the first member called `key` the value `v`.
  function Replace(ms: Members, key: Text, v: Value): Members {
    match ms
    case NoMembers => NoMembers
    case Member(_, k, _, _, _, _, rest) =>
      if k == key then ms.(value := v) else ms.(rest := Replace(rest, key, v))
  }

  function Append(ms: Members, m: Members): Members {
    match ms
    case NoMembers => m
    case Member(_, _, _, _, _, _, rest) => ms.(rest := Append(rest, m))
  }

  // ---------- A text found at a position ----------

  ghost predicate At(s: Text, i: nat, t: Text) {
    i + |t| <= |s| && forall k :: 0 <= k < |t| ==> s[i + k] == t[k]
  }

  lemma AtSplit(s: Text, i: nat, a: Text, b: Text)
    requires At(s, i, a + b)
    ensures At(s, i, a) && At(s, i + |a|, b)
  {
    forall k | 0 <= k < |a| ensures s[i + k] == a[k] {
      assert (a + b)[k] == a[k];
    }
    forall k | 0 <= k < |b| ensures s[i + |a| + k] == b[k] {
      assert (a + b)[|a| + k] == b[k];
    }
  }

  lemma AtByte(s: Text, i: nat, t: Text, k: nat)
    requires At(s, i, t) && k < |t|
    ensures s[i + k] == t[k]
  {
  }
}
