/** The form encoder and the query reader, on UTF-8 bytes. The encoder escapes keys and values; the
    reader unescapes values only. */
module FormCodec {
  import opened Wrappers
  import opened Octets

  type Bytes = seq<byte>
  type Pair = (Bytes, Bytes)

  const PLUS: byte := 0x2B
  const PERCENT: byte := 0x25
  const SPACE: byte := 0x20
  const AMPERSAND: byte := 0x26
  const EQUALS: byte := 0x3D

  // ---------- Encoding ----------

  // Section 2.3 of RFC 3986.
  predicate Unreserved(b: byte) {
    0x41 <= b <= 0x5A || 0x61 <= b <= 0x7A || 0x30 <= b <= 0x39 || b in {0x2D, 0x5F, 0x2E, 0x7E}
  }

  predicate AllUnreserved(s: Bytes) {
    forall i :: 0 <= i < |s| ==> Unreserved(s[i])
  }

  function HexDigit(d: int): byte
    requires 0 <= d < 16
  {
    if d < 10 then 0x30 + d else 0x41 + d - 10
  }

  function EncodeByte(b: byte): Bytes {
    if Unreserved(b) then [b]
    else if b == SPACE then [PLUS]
    else [PERCENT, HexDigit(b / 16), HexDigit(b % 16)]
  }

  function Encode(s: Bytes): Bytes {
    if s == [] then [] else EncodeByte(s[0]) + Encode(s[1..])
  }

  method EncodeComponent(input: Bytes) returns (output: Bytes)
    ensures output == Encode(input)
  {
    hide Encode, HexDigit;
    output := [];
    for i := 0 to |input|
      invariant Encode(input) == output + Encode(input[i..])
    {
      EncodeAt(input, i);
      var b := input[i];
      var piece: Bytes := [];
      if Unreserved(b) {
        piece := piece + [b];
      } else if b == SPACE {
        piece := piece + [PLUS];
      } else {
        piece := piece + [PERCENT];
        piece := piece + [HexDigit(b / 16)];
        piece := piece + [HexDigit(b % 16)];
      }
      assert output + (piece + Encode(input[i + 1..])) == (output + piece) + Encode(input[i + 1..]);
      output := output + piece;
    }
    EncodeNothing();
    assert input[|input|..] == [] && output + [] == output;
  }

  lemma EncodeAt(input: Bytes, i: nat)
    requires i < |input|
    ensures Encode(input[i..]) == EncodeByte(input[i]) + Encode(input[i + 1..])
  {
    hide EncodeByte;
    assert input[i..][1..] == input[i + 1..];
  }

  lemma EncodeNothing()
    ensures Encode([]) == []
  {
  }

  function Join(parts: seq<Bytes>): Bytes {
    if parts == [] then []
    else if |parts| == 1 then parts[0]
    else parts[0] + [AMPERSAND] + Join(parts[1..])
  }

  function Part(pair: Pair): Bytes {
    Encode(pair.0) + [EQUALS] + Encode(pair.1)
  }

  function Parts(pairs: seq<Pair>): (r: seq<Bytes>)
    ensures |r| == |pairs|
  {
    if pairs == [] then [] else [Part(pairs[0])] + Parts(pairs[1..])
  }

  function FormUrlencode(pairs: seq<Pair>): Bytes {
    Join(Parts(pairs))
  }

  // ---------- Reading ----------

  function FromHex(b: byte): (r: Option<int>)
    ensures r.Some? ==> 0 <= r.value < 16
  {
    if 0x30 <= b <= 0x39 then Some(b - 0x30)
    else if 0x61 <= b <= 0x66 then Some(b - 0x61 + 10)
    else if 0x41 <= b <= 0x46 then Some(b - 0x41 + 10)
    else None
  }

  // The byte an escape at the front spells; a `%` without two hexadecimal digits stands for itself.
  function Escape(raw: Bytes): (r: Option<byte>)
    ensures r.Some? ==> |raw| >= 3
  {
    if |raw| >= 3 && raw[0] == PERCENT && FromHex(raw[1]).Some? && FromHex(raw[2]).Some? then
      Some(FromHex(raw[1]).value * 16 + FromHex(raw[2]).value)
    else None
  }

  function Decode(raw: Bytes): Bytes {
    if raw == [] then []
    else if raw[0] == PLUS then [SPACE] + Decode(raw[1..])
    else if Escape(raw).Some? then [Escape(raw).value] + Decode(raw[3..])
    else [raw[0]] + Decode(raw[1..])
  }

  method DecodeQueryValue(raw: Bytes) returns (out: Bytes)
    ensures out == Decode(raw)
  {
    hide Decode, FromHex;
    out := [];
    var i := 0;
    while i < |raw|
      invariant i <= |raw| && Decode(raw) == out + Decode(raw[i..])
    {
      var next, step := raw[i], 1;
      if raw[i] == PLUS {
        next := SPACE;
      } else if raw[i] == PERCENT && i + 2 < |raw| {
        var hi := FromHex(raw[i + 1]);
        var lo := FromHex(raw[i + 2]);
        if hi.Some? && lo.Some? {
          next, step := hi.value * 16 + lo.value, 3;
        }
      }
      DecodeAt(raw, i);
      assert out + ([next] + Decode(raw[i + step..])) == (out + [next]) + Decode(raw[i + step..]);
      out := out + [next];
      i := i + step;
    }
    NothingDecodes();
    assert raw[i..] == [] && out + [] == out;
  }

  lemma DecodeAt(raw: Bytes, i: nat)
    requires i < |raw|
    ensures
      var rest := raw[i..];
      Decode(rest) ==
        if raw[i] == PLUS then [SPACE] + Decode(raw[i + 1..])
        else if Escape(rest).Some? then [Escape(rest).value] + Decode(raw[i + 3..])
        else [raw[i]] + Decode(raw[i + 1..])
  {
    hide FromHex;
    var rest := raw[i..];
    assert rest[1..] == raw[i + 1..] && (|rest| >= 3 ==> rest[3..] == raw[i + 3..]);
  }

  function Find(s: Bytes, b: byte): (i: nat)
    ensures i <= |s| && (i < |s| ==> s[i] == b) && b !in s[..i]
  {
    if s == [] || s[0] == b then 0 else 1 + Find(s[1..], b)
  }

  function Split(s: Bytes, b: byte): seq<Bytes> {
    var i := Find(s, b);
    if i == |s| then [s] else [s[..i]] + Split(s[i + 1..], b)
  }

  // How many bytes the white-space character at the front takes, in UTF-8; 0 if there is none.
  function WhitePrefix(s: Bytes): (n: nat)
    ensures n <= |s|
  {
    if |s| >= 1 && (0x09 <= s[0] <= 0x0D || s[0] == SPACE) then 1
    else if |s| >= 2 && s[0] == 0xC2 && s[1] in {0x85, 0xA0} then 2
    else if |s| >= 3 && ((s[0] == 0xE1 && s[1] == 0x9A && s[2] == 0x80)
                         || (s[0] == 0xE2 && s[1] == 0x80 && (0x80 <= s[2] <= 0x8A || s[2] in {0xA8, 0xA9, 0xAF}))
                         || (s[0] == 0xE2 && s[1] == 0x81 && s[2] == 0x9F)
                         || (s[0] == 0xE3 && s[1] == 0x80 && s[2] == 0x80)) then 3
    else 0
  }

  function TrimStart(s: Bytes): Bytes {
    if WhitePrefix(s) == 0 then s else TrimStart(s[WhitePrefix(s)..])
  }

  // How many bytes the white-space character at the back takes.
  function WhiteSuffix(s: Bytes): (n: nat)
    ensures n <= |s|
  {
    if |s| >= 1 && WhitePrefix(s[|s| - 1..]) == 1 then 1
    else if |s| >= 2 && WhitePrefix(s[|s| - 2..]) == 2 then 2
    else if |s| >= 3 && WhitePrefix(s[|s| - 3..]) == 3 then 3
    else 0
  }

  function TrimEnd(s: Bytes): Bytes {
    if WhiteSuffix(s) == 0 then s else TrimEnd(s[..|s| - WhiteSuffix(s)])
  }

  function Trim(s: Bytes): Bytes {
    TrimEnd(TrimStart(s))
  }

  function PartKey(part: Bytes): Bytes {
    Trim(part[..Find(part, EQUALS)])
  }

  function PartValue(part: Bytes): Bytes {
    var i := Find(part, EQUALS);
    if i == |part| then [] else Trim(part[i + 1..])
  }

  function FindPart(parts: seq<Bytes>, key: Bytes): Option<Bytes> {
    if parts == [] then None
    else if PartKey(parts[0]) == key && PartValue(parts[0]) != [] then Some(Decode(PartValue(parts[0])))
    else FindPart(parts[1..], key)
  }

  function ReadQuery(q: Option<Bytes>, key: Bytes): Option<Bytes> {
    if q.None? then None else FindPart(Split(q.value, AMPERSAND), key)
  }

  method QueryString(q: Option<Bytes>, key: Bytes) returns (r: Option<Bytes>)
    ensures r == ReadQuery(q, key)
  {
    hide PartKey, PartValue, Decode;
    if q.None? {
      return None;
    }
    var parts := Split(q.value, AMPERSAND);
    for i := 0 to |parts|
      invariant FindPart(parts, key) == FindPart(parts[i..], key)
    {
      assert parts[i..][0] == parts[i] && parts[i..][1..] == parts[i + 1..];
      var v := PartValue(parts[i]);
      if PartKey(parts[i]) == key && v != [] {
        var value := DecodeQueryValue(v);
        return Some(value);
      }
    }
    return None;
  }

  // ---------- Values come back ----------

  lemma EscapesBack(b: byte, t: Bytes)
    ensures Decode(EncodeByte(b) + t) == [b] + Decode(t)
  {
    var e := EncodeByte(b) + t;
    if Unreserved(b) || b == SPACE {
      assert e[1..] == t;
    } else {
      assert e[3..] == t;
      assert FromHex(HexDigit(b / 16)) == Some(b / 16) && FromHex(HexDigit(b % 16)) == Some(b % 16);
    }
  }

  lemma {:induction false} DecodeUndoesEncode(s: Bytes)
    ensures Decode(Encode(s)) == s
    decreases |s|
  {
    hide Decode, EncodeByte;
    if s == [] {
      assert Decode([]) == [] by { NothingDecodes(); }
    } else {
      EscapesBack(s[0], Encode(s[1..]));
      DecodeUndoesEncode(s[1..]);
    }
  }

  lemma NothingDecodes()
    ensures Decode([]) == []
  {
  }

  // ---------- The encoding has no separators and no white space ----------

  predicate Plain(b: byte) {
    Unreserved(b) || b == PLUS || b == PERCENT
  }

  lemma {:induction false} EncodeIsPlain(s: Bytes)
    ensures forall i :: 0 <= i < |Encode(s)| ==> Plain(Encode(s)[i])
    ensures |Encode(s)| >= |s|
    decreases |s|
  {
    if s != [] {
      EncodeIsPlain(s[1..]);
    }
  }

  lemma PlainIsNotWhite(s: Bytes)
    requires s != [] ==> Plain(s[0])
    ensures WhitePrefix(s) == 0
  {
  }

  lemma SuffixIsNotWhite(s: Bytes, n: nat)
    requires 1 <= n <= |s| && forall i :: 0 <= i < |s| ==> Plain(s[i])
    ensures WhitePrefix(s[|s| - n..]) == 0
  {
    assert s[|s| - n..][0] == s[|s| - n];
    PlainIsNotWhite(s[|s| - n..]);
  }

  lemma TrimKeepsPlain(s: Bytes)
    requires forall i :: 0 <= i < |s| ==> Plain(s[i])
    ensures Trim(s) == s
  {
    hide WhitePrefix, Plain;
    PlainIsNotWhite(s);
    if |s| >= 1 {
      SuffixIsNotWhite(s, 1);
    }
    if |s| >= 2 {
      SuffixIsNotWhite(s, 2);
    }
    if |s| >= 3 {
      SuffixIsNotWhite(s, 3);
    }
  }

  lemma FindFirst(s: Bytes, b: byte, t: Bytes)
    requires b !in s
    ensures Find(s + [b] + t, b) == |s| && Find(s, b) == |s|
  {
    var all := s + [b] + t;
    assert all[|s|] == b && forall k | 0 <= k < |s| :: all[k] == s[k];
  }

  lemma PlainHoldsNoSeparator(s: Bytes)
    requires forall i :: 0 <= i < |s| ==> Plain(s[i])
    ensures AMPERSAND !in s && EQUALS !in s
  {
  }

  lemma PartReadsBack(pair: Pair)
    ensures PartKey(Part(pair)) == Encode(pair.0) && PartValue(Part(pair)) == Encode(pair.1)
    ensures AMPERSAND !in Part(pair)
  {
    hide Trim, Find, Plain, Encode;
    var k, v := Encode(pair.0), Encode(pair.1);
    EncodeIsPlain(pair.0);
    EncodeIsPlain(pair.1);
    PlainHoldsNoSeparator(k);
    PlainHoldsNoSeparator(v);
    TrimKeepsPlain(k);
    TrimKeepsPlain(v);
    FindFirst(k, EQUALS, v);
    assert Part(pair)[..|k|] == k;
    assert Part(pair)[|k| + 1..] == v;
  }

  lemma {:induction false} SplitUndoesJoin(parts: seq<Bytes>)
    requires parts != [] && forall i :: 0 <= i < |parts| ==> AMPERSAND !in parts[i]
    ensures Split(Join(parts), AMPERSAND) == parts
    decreases |parts|
  {
    hide Find;
    var s := Join(parts);
    if |parts| == 1 {
      FindFirst(parts[0], AMPERSAND, []);
    } else {
      SplitUndoesJoin(parts[1..]);
      FindFirst(parts[0], AMPERSAND, Join(parts[1..]));
      assert s[..|parts[0]|] == parts[0] && s[|parts[0]| + 1..] == Join(parts[1..]);
    }
  }

  // ---------- What the reader finds in an encoded form ----------

  // The first non-empty value stored under a key.
  function Stored(pairs: seq<Pair>, key: Bytes): Option<Bytes> {
    if pairs == [] then None
    else if pairs[0].0 == key && pairs[0].1 != [] then Some(pairs[0].1)
    else Stored(pairs[1..], key)
  }

  // The first non-empty value whose key encodes to the one asked for.
  function StoredEncoded(pairs: seq<Pair>, key: Bytes): Option<Bytes> {
    if pairs == [] then None
    else if Encode(pairs[0].0) == key && pairs[0].1 != [] then Some(pairs[0].1)
    else StoredEncoded(pairs[1..], key)
  }

  lemma {:induction false} FindsStored(pairs: seq<Pair>, key: Bytes)
    ensures FindPart(Parts(pairs), key) == StoredEncoded(pairs, key)
    decreases |pairs|
  {
    hide Part, PartKey, PartValue, Encode, Decode;
    if pairs != [] {
      PartReadsBack(pairs[0]);
      DecodeUndoesEncode(pairs[0].1);
      EncodeEmpty(pairs[0].1);
      assert Parts(pairs)[1..] == Parts(pairs[1..]);
      FindsStored(pairs[1..], key);
    }
  }

  lemma EncodeEmpty(s: Bytes)
    ensures Encode(s) == [] <==> s == []
  {
    EncodeIsPlain(s);
  }

  lemma {:induction false} PartsHoldNoSeparator(pairs: seq<Pair>)
    ensures forall i :: 0 <= i < |pairs| ==> AMPERSAND !in Parts(pairs)[i]
    decreases |pairs|
  {
    hide Part;
    if pairs != [] {
      PartReadsBack(pairs[0]);
      PartsHoldNoSeparator(pairs[1..]);
    }
  }

  // For every form and key: the reader looks the key up among the encoded keys and returns the
  // exact bytes of the value.
  lemma ReadsEncodedKeys(pairs: seq<Pair>, key: Bytes)
    ensures ReadQuery(Some(FormUrlencode(pairs)), key) == StoredEncoded(pairs, key)
  {
    hide PartValue, PartKey, Split, Parts, Encode, StoredEncoded;
    FindsStored(pairs, key);
    if pairs == [] {
      NothingStored(key);
    } else {
      PartsHoldNoSeparator(pairs);
      SplitUndoesJoin(Parts(pairs));
    }
  }

  lemma NothingStored(key: Bytes)
    ensures ReadQuery(Some(FormUrlencode([])), key) == None && StoredEncoded([], key) == None
  {
    var parts: seq<Bytes> := [[]];
    assert FormUrlencode([]) == [] && Split([], AMPERSAND) == parts;
    assert PartValue([]) == [];
    assert parts[1..] == [] && FindPart(parts, key) == FindPart([], key);
  }

  lemma {:induction false} EncodesToItself(s: Bytes)
    ensures Encode(s) == s <==> AllUnreserved(s)
    ensures AllUnreserved(s) || |Encode(s)| > |s| || (SPACE in s && SPACE !in Encode(s))
    decreases |s|
  {
    EncodeIsPlain(s);
    if s != [] {
      EncodesToItself(s[1..]);
      assert s == [s[0]] + s[1..];
      EncodeIsPlain(s[1..]);
      if Unreserved(s[0]) {
        assert AllUnreserved(s) <==> AllUnreserved(s[1..]) by {
          assert forall i | 0 < i < |s| :: s[i] == s[1..][i - 1];
        }
      }
    }
  }

  predicate KeysUnreserved(pairs: seq<Pair>) {
    forall i :: 0 <= i < |pairs| && pairs[i].1 != [] ==> AllUnreserved(pairs[i].0)
  }

  lemma {:induction false} UnreservedKeysAgree(pairs: seq<Pair>, key: Bytes)
    requires KeysUnreserved(pairs)
    ensures StoredEncoded(pairs, key) == Stored(pairs, key)
    decreases |pairs|
  {
    hide Encode, AllUnreserved;
    if pairs != [] {
      EncodesToItself(pairs[0].0);
      UnreservedKeysAgree(pairs[1..], key);
    }
  }

  lemma {:induction false} StoredAt(pairs: seq<Pair>, i: nat)
    requires i < |pairs| && pairs[i].1 != []
    ensures Stored(pairs, pairs[i].0).Some?
    decreases |pairs|
  {
    if i > 0 {
      StoredAt(pairs[1..], i - 1);
    }
  }

  lemma {:induction false} EncodedAt(pairs: seq<Pair>, key: Bytes) returns (i: nat)
    requires StoredEncoded(pairs, key).Some?
    ensures i < |pairs| && pairs[i].1 != [] && Encode(pairs[i].0) == key
    decreases |pairs|
  {
    hide Encode;
    if Encode(pairs[0].0) == key && pairs[0].1 != [] {
      i := 0;
    } else {
      i := EncodedAt(pairs[1..], key);
      i := i + 1;
    }
  }

  // Some key with a reserved byte is stored but not found.
  lemma {:induction false} ReservedKeyIsLost(pairs: seq<Pair>, i: nat) returns (key: Bytes)
    requires i < |pairs| && pairs[i].1 != [] && !AllUnreserved(pairs[i].0)
    ensures Stored(pairs, key).Some? && StoredEncoded(pairs, key).None?
    decreases |pairs[i].0|, if SPACE in pairs[i].0 then 0 else 1
  {
    hide Encode, AllUnreserved, Stored, StoredEncoded;
    key := pairs[i].0;
    StoredAt(pairs, i);
    if StoredEncoded(pairs, key).Some? {
      var j := EncodedAt(pairs, key);
      EncodesToItself(pairs[j].0);
      EncodesToItself(key);
      EncodeIsPlain(pairs[j].0);
      key := ReservedKeyIsLost(pairs, j);
    }
  }

  // Every key is read back with its first non-empty value exactly when each key that has one is
  // made of unreserved characters.
  lemma QueryUndoesForm(pairs: seq<Pair>)
    ensures (forall key :: ReadQuery(Some(FormUrlencode(pairs)), key) == Stored(pairs, key)) <==> KeysUnreserved(pairs)
  {
    hide ReadQuery, FormUrlencode, Stored, StoredEncoded, AllUnreserved;
    if KeysUnreserved(pairs) {
      forall key ensures ReadQuery(Some(FormUrlencode(pairs)), key) == Stored(pairs, key) {
        ReadsEncodedKeys(pairs, key);
        UnreservedKeysAgree(pairs, key);
      }
    } else {
      var i :| 0 <= i < |pairs| && pairs[i].1 != [] && !AllUnreserved(pairs[i].0);
      var key := ReservedKeyIsLost(pairs, i);
      ReadsEncodedKeys(pairs, key);
      assert ReadQuery(Some(FormUrlencode(pairs)), key) != Stored(pairs, key);
    }
  }

  // The key `a[b]` with the value `x`: stored, and read back only under its encoded spelling.
  lemma BracketKeyIsLost()
    ensures
      var key: Bytes := [0x61, 0x5B, 0x62, 0x5D];
      var form := FormUrlencode([(key, [0x78])]);
      && Stored([(key, [0x78])], key) == Some([0x78]) && ReadQuery(Some(form), key) == None
      && ReadQuery(Some(form), [0x61, 0x25, 0x35, 0x42, 0x62, 0x25, 0x35, 0x44]) == Some([0x78])
  {
    hide ReadQuery, FormUrlencode;
    var key: Bytes := [0x61, 0x5B, 0x62, 0x5D];
    var pairs: seq<Pair> := [(key, [0x78])];
    assert pairs[1..] == [];
    assert key[1..] == [0x5B, 0x62, 0x5D] && key[1..][1..] == [0x62, 0x5D] && key[1..][1..][1..] == [0x5D];
    assert key[1..][1..][1..][1..] == [];
    assert Encode([0x5D]) == [0x25, 0x35, 0x44];
    assert Encode([0x62, 0x5D]) == [0x62, 0x25, 0x35, 0x44];
    assert Encode([0x5B, 0x62, 0x5D]) == [0x25, 0x35, 0x42, 0x62, 0x25, 0x35, 0x44];
    assert Encode(key) == [0x61, 0x25, 0x35, 0x42, 0x62, 0x25, 0x35, 0x44];
    ReadsEncodedKeys(pairs, key);
    ReadsEncodedKeys(pairs, Encode(key));
  }
}
