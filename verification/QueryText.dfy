/** What the query reader makes of any text, not only of encoded forms: escapes in either case, malformed
    ones, and white space around keys and values. */
module QueryText {
  import opened Wrappers
  import opened Octets
  import opened Unicode
  import opened FormCodec

  // ---------- Decoding ----------

  // A digit in either case.
  predicate Spells(b: byte, d: int)
    requires 0 <= d < 16
  {
    b == "0123456789abcdef"[d] as int || b == "0123456789ABCDEF"[d] as int
  }

  lemma HexExactly(b: byte, d: int)
    requires 0 <= d < 16
    ensures FromHex(b) == Some(d) <==> Spells(b, d)
  {
  }

  // What the front of a text decodes to: a plus is a space, an escape in either case is its byte, and
  // every other byte, a percent sign without two digits behind it included, is itself.
  lemma PlusDecodes(t: Bytes)
    ensures Decode([0x2B] + t) == [0x20] + Decode(t)
  {
    assert ([0x2B] + t)[1..] == t;
  }

  lemma EscapeDecodes(high: byte, low: byte, d: int, e: int, t: Bytes)
    requires 0 <= d < 16 && 0 <= e < 16 && Spells(high, d) && Spells(low, e)
    ensures Decode([0x25, high, low] + t) == [16 * d + e] + Decode(t)
  {
    HexExactly(high, d);
    HexExactly(low, e);
    hide FromHex, Spells;
    assert ([0x25, high, low] + t)[3..] == t;
  }

  lemma OtherDecodes(b: byte, t: Bytes)
    requires b != 0x2B
    requires b == 0x25 && |t| >= 2 ==>
      forall d, e | 0 <= d < 16 && 0 <= e < 16 :: !(Spells(t[0], d) && Spells(t[1], e))
    ensures Decode([b] + t) == [b] + Decode(t)
  {
    hide FromHex, Spells;
    var s := [b] + t;
    assert s[1..] == t;
    if b == 0x25 && |t| >= 2 && FromHex(t[0]).Some? && FromHex(t[1]).Some? {
      HexExactly(t[0], FromHex(t[0]).value);
      HexExactly(t[1], FromHex(t[1]).value);
    }
  }

  predicate Among(b: byte, s: string) {
    exists i :: 0 <= i < |s| && s[i] as int == b
  }

  lemma UnreservedExactly(b: byte)
    ensures Unreserved(b) <==>
      || Among(b, "ABCDEFGHIJKLMNOPQRSTUVWXYZ") || Among(b, "abcdefghijklmnopqrstuvwxyz")
      || Among(b, "0123456789") || Among(b, "-_.~")
  {
    assert forall i | 0 <= i < 26 :: "ABCDEFGHIJKLMNOPQRSTUVWXYZ"[i] as int == 0x41 + i;
    assert forall i | 0 <= i < 26 :: "abcdefghijklmnopqrstuvwxyz"[i] as int == 0x61 + i;
    assert forall i | 0 <= i < 10 :: "0123456789"[i] as int == 0x30 + i;
    if 0x41 <= b <= 0x5A {
      assert "ABCDEFGHIJKLMNOPQRSTUVWXYZ"[b - 0x41] as int == b;
    } else if 0x61 <= b <= 0x7A {
      assert "abcdefghijklmnopqrstuvwxyz"[b - 0x61] as int == b;
    } else if 0x30 <= b <= 0x39 {
      assert "0123456789"[b - 0x30] as int == b;
    } else if Unreserved(b) {
      assert "-_.~"[if b == 0x2D then 0 else if b == 0x5F then 1 else if b == 0x2E then 2 else 3] as int == b;
    }
  }

  // How the front of a text is encoded: an unreserved character as itself, a space as a plus, and any
  // other byte as a percent sign with its two digits, capital ones.
  lemma EncodesFromTheLeft(b: byte, t: Bytes)
    ensures Encode([b] + t) == Encode([b]) + Encode(t)
    ensures Unreserved(b) ==> Encode([b]) == [b]
    ensures b == 0x20 ==> Encode([b]) == [0x2B]
    ensures !Unreserved(b) && b != 0x20 ==>
      Encode([b]) == [0x25, "0123456789ABCDEF"[b / 16] as int, "0123456789ABCDEF"[b % 16] as int]
  {
    assert ([b] + t)[1..] == t && [b][1..] == [] && Encode([]) == [];
  }

  // ---------- White space ----------

  predicate WhiteChar(w: Bytes) {
    exists i :: 0 <= i < |WHITE| && w == Utf8(WHITE[i])
  }

  ghost predicate White(s: Bytes) {
    s == [] || exists n :: 1 <= n <= |s| && WhiteChar(s[..n]) && White(s[n..])
  }

  ghost predicate StartsWhite(s: Bytes) {
    exists n :: 0 <= n <= |s| && WhiteChar(s[..n])
  }

  ghost predicate EndsWhite(s: Bytes) {
    exists n :: 0 <= n <= |s| && WhiteChar(s[n..])
  }

  // `padded` is `s` with white space around it.
  ghost predicate Pads(padded: Bytes, s: Bytes) {
    && !StartsWhite(s) && !EndsWhite(s)
    && exists a, b :: White(a) && White(b) && padded == a + s + b
  }

  // The bytes of the white-space characters, written out.
  predicate WhiteBytes(w: Bytes) {
    || (|w| == 1 && (0x09 <= w[0] <= 0x0D || w[0] == 0x20))
    || (|w| == 2 && w[0] == 0xC2 && (w[1] == 0x85 || w[1] == 0xA0))
    || (|w| == 3 && w[0] == 0xE1 && w[1] == 0x9A && w[2] == 0x80)
    || (|w| == 3 && w[0] == 0xE2 && w[1] == 0x80
        && (0x80 <= w[2] <= 0x8A || w[2] == 0xA8 || w[2] == 0xA9 || w[2] == 0xAF))
    || (|w| == 3 && w[0] == 0xE2 && w[1] == 0x81 && w[2] == 0x9F)
    || (|w| == 3 && w[0] == 0xE3 && w[1] == 0x80 && w[2] == 0x80)
  }

  lemma WhiteIndex(w: Bytes) returns (i: nat)
    requires WhiteBytes(w)
    ensures i < |WHITE| && w == Utf8(WHITE[i])
  {
    i :=
      if |w| == 1 then if w[0] == 0x20 then 5 else w[0] - 9
      else if |w| == 2 then if w[1] == 0x85 then 6 else 7
      else if w[0] == 0xE1 then 8
      else if w[0] == 0xE3 then 24
      else if w[1] == 0x81 then 23
      else if w[2] <= 0x8A then 9 + w[2] - 0x80
      else if w[2] == 0xA8 then 20 else if w[2] == 0xA9 then 21 else 22;
  }

  lemma WhiteCharBytes(w: Bytes)
    ensures WhiteChar(w) <==> WhiteBytes(w)
  {
    if WhiteBytes(w) {
      var i := WhiteIndex(w);
    }
  }

  lemma PrefixBytes(s: Bytes)
    ensures WhitePrefix(s) > 0 ==> WhiteBytes(s[..WhitePrefix(s)])
    ensures forall n | 0 <= n <= |s| && WhiteBytes(s[..n]) :: WhitePrefix(s) == n
  {
  }

  lemma PrefixMeans(s: Bytes)
    ensures WhitePrefix(s) > 0 ==> WhiteChar(s[..WhitePrefix(s)])
    ensures forall n | 0 <= n <= |s| && WhiteChar(s[..n]) :: WhitePrefix(s) == n > 0
    ensures WhitePrefix(s) == 0 <==> !StartsWhite(s)
  {
    hide WhitePrefix, WhiteBytes, WhiteChar;
    forall w ensures WhiteChar(w) <==> WhiteBytes(w) {
      WhiteCharBytes(w);
    }
    PrefixBytes(s);
    NothingIsWhite();
  }

  lemma NothingIsWhite()
    ensures !WhiteBytes([])
  {
  }

  lemma PrefixIsWhite(s: Bytes)
    ensures WhitePrefix(s) > 0 ==> WhiteChar(s[..WhitePrefix(s)])
    ensures WhitePrefix(s) == 0 <==> !StartsWhite(s)
  {
    hide WhitePrefix, WhiteChar;
    PrefixMeans(s);
  }

  lemma SuffixBytes(s: Bytes)
    ensures WhiteSuffix(s) > 0 ==> WhiteBytes(s[|s| - WhiteSuffix(s)..])
    ensures forall n | 0 <= n <= |s| && WhiteBytes(s[n..]) :: WhiteSuffix(s) == |s| - n
  {
  }

  lemma SuffixMeans(s: Bytes)
    ensures WhiteSuffix(s) > 0 ==> WhiteChar(s[|s| - WhiteSuffix(s)..])
    ensures forall n | 0 <= n <= |s| && WhiteChar(s[n..]) :: WhiteSuffix(s) == |s| - n > 0
    ensures WhiteSuffix(s) == 0 <==> !EndsWhite(s)
  {
    hide WhitePrefix, WhiteSuffix, WhiteBytes, WhiteChar;
    forall w ensures WhiteChar(w) <==> WhiteBytes(w) {
      WhiteCharBytes(w);
    }
    SuffixBytes(s);
    NothingIsWhite();
  }

  lemma SuffixIsWhite(s: Bytes)
    ensures WhiteSuffix(s) > 0 ==> WhiteChar(s[|s| - WhiteSuffix(s)..])
    ensures WhiteSuffix(s) == 0 <==> !EndsWhite(s)
  {
    hide WhiteSuffix, WhiteChar;
    SuffixMeans(s);
  }

  // ---------- Trimming ----------

  lemma WhiteGrows(w: Bytes, rest: Bytes)
    requires WhiteChar(w) && w != [] && White(rest)
    ensures White(w + rest)
  {
    hide WhiteChar;
    assert (w + rest)[..|w|] == w && (w + rest)[|w|..] == rest;
  }

  lemma {:induction false} TrimStartSplits(s: Bytes) returns (a: Bytes)
    ensures White(a) && s == a + TrimStart(s) && !StartsWhite(TrimStart(s))
    decreases |s|
  {
    hide WhitePrefix, WhiteChar, StartsWhite, White;
    PrefixIsWhite(s);
    var n := WhitePrefix(s);
    if n == 0 {
      a := [];
      EmptyIsWhite();
    } else {
      var rest := TrimStartSplits(s[n..]);
      a := s[..n] + rest;
      WhiteGrows(s[..n], rest);
      PutTogether(s, n, rest, TrimStart(s[n..]));
    }
  }

  lemma PutTogether(s: Bytes, n: nat, a: Bytes, b: Bytes)
    requires n <= |s| && s[n..] == a + b
    ensures s == (s[..n] + a) + b
  {
    assert s == s[..n] + s[n..];
  }

  lemma {:induction false} WhiteJoins(a: Bytes, b: Bytes)
    requires White(a) && White(b)
    ensures White(a + b)
    decreases |a|
  {
    hide WhiteChar;
    if a == [] {
      assert a + b == b;
    } else {
      var n :| 1 <= n <= |a| && WhiteChar(a[..n]) && White(a[n..]);
      WhiteJoins(a[n..], b);
      assert (a + b)[..n] == a[..n] && (a + b)[n..] == a[n..] + b;
    }
  }

  lemma OneIsWhite(w: Bytes)
    requires WhiteChar(w) && w != []
    ensures White(w)
  {
    assert w[..|w|] == w && w[|w|..] == [];
  }

  lemma {:induction false} TrimEndSplits(s: Bytes) returns (b: Bytes)
    ensures White(b) && s == TrimEnd(s) + b && !EndsWhite(TrimEnd(s))
    decreases |s|
  {
    hide WhiteSuffix, WhiteChar, EndsWhite, White;
    SuffixIsWhite(s);
    var n := WhiteSuffix(s);
    if n == 0 {
      b := [];
      assert White(b) by { EmptyIsWhite(); }
    } else {
      var rest := TrimEndSplits(s[..|s| - n]);
      OneIsWhite(s[|s| - n..]);
      WhiteJoins(rest, s[|s| - n..]);
      b := rest + s[|s| - n..];
      assert s == s[..|s| - n] + s[|s| - n..];
    }
  }

  lemma EmptyIsWhite()
    ensures White([])
  {
  }

  lemma SlicesJoin(b: Bytes, m: nat, k: nat)
    requires m + k <= |b|
    ensures b[m..][k..] == b[m + k..] && b[..m] + b[m..][..k] == b[..m + k]
  {
  }

  // The last character of white space, from its first one on.
  lemma {:induction false} WhiteLast(b: Bytes) returns (n: nat)
    requires White(b) && b != []
    ensures n < |b| && WhiteChar(b[n..]) && White(b[..n])
    decreases |b|
  {
    hide WhiteChar;
    var m :| 1 <= m <= |b| && WhiteChar(b[..m]) && White(b[m..]);
    if b[m..] == [] {
      n := 0;
      assert b[..m] == b && b[0..] == b;
    } else {
      var k := WhiteLast(b[m..]);
      n := m + k;
      OneIsWhite(b[..m]);
      hide White;
      WhiteJoins(b[..m], b[m..][..k]);
      SlicesJoin(b, m, k);
    }
  }

  lemma {:induction false} TrimStartDrops(a: Bytes, s: Bytes)
    requires White(a) && !StartsWhite(s)
    ensures TrimStart(a + s) == s
    decreases |a|
  {
    hide WhitePrefix, WhiteChar, StartsWhite;
    PrefixMeans(a + s);
    if a == [] {
      assert a + s == s;
    } else {
      var n :| 1 <= n <= |a| && WhiteChar(a[..n]) && White(a[n..]);
      assert (a + s)[..n] == a[..n] && (a + s)[n..] == a[n..] + s;
      TrimStartDrops(a[n..], s);
    }
  }

  lemma {:induction false} TrimEndDrops(s: Bytes, b: Bytes)
    requires White(b) && !EndsWhite(s)
    ensures TrimEnd(s + b) == s
    decreases |b|
  {
    hide WhiteSuffix, WhiteChar, EndsWhite, White;
    SuffixMeans(s + b);
    if b == [] {
      assert s + b == s;
    } else {
      var n := WhiteLast(b);
      assert (s + b)[|s| + n..] == b[n..] && (s + b)[..|s| + n] == s + b[..n];
      TrimEndDrops(s, b[..n]);
    }
  }

  lemma StartByte(b: Bytes)
    requires White(b) && b != []
    ensures !(0x80 <= b[0] < 0xC0)
  {
    var m :| 1 <= m <= |b| && WhiteChar(b[..m]) && White(b[m..]);
    hide WhiteChar, White;
    WhiteCharBytes(b[..m]);
    assert b[..m][0] == b[0];
  }

  // White space behind a text adds none in front of it: no character ends in one and starts in the
  // other.
  lemma NoneStraddles(s: Bytes, b: Bytes)
    requires s != [] && !StartsWhite(s) && White(b)
    ensures !StartsWhite(s + b)
  {
    hide WhiteChar;
    if b == [] {
      assert s + b == s;
    } else {
      StartByte(b);
      hide White;
      forall n | 0 <= n <= |s + b| ensures !WhiteChar((s + b)[..n]) {
        WhiteCharBytes((s + b)[..n]);
        if n <= |s| {
          assert (s + b)[..n] == s[..n];
        } else {
          assert (s + b)[..n][|s|] == b[0];
        }
      }
    }
  }

  // Trimming takes away exactly the white space around a text.
  lemma TrimsExactly(padded: Bytes, s: Bytes)
    ensures Trim(padded) == s <==> Pads(padded, s)
  {
    hide White, StartsWhite, EndsWhite, TrimStart, TrimEnd;
    var a := TrimStartSplits(padded);
    var b := TrimEndSplits(TrimStart(padded));
    var t := Trim(padded);
    assert padded == a + t + b;
    StartKept(t, b);
    assert Pads(padded, t);
    if Pads(padded, s) {
      var c, d :| White(c) && White(d) && padded == c + s + d;
      PadsTrim(c, s, d);
    }
  }

  lemma StartKept(t: Bytes, b: Bytes)
    requires !StartsWhite(t + b)
    ensures !StartsWhite(t)
  {
    forall n | 0 <= n <= |t| ensures !WhiteChar(t[..n]) {
      assert (t + b)[..n] == t[..n];
    }
  }

  lemma PadsTrim(c: Bytes, s: Bytes, d: Bytes)
    requires White(c) && White(d) && !StartsWhite(s) && !EndsWhite(s)
    ensures Trim(c + s + d) == s
  {
    hide White, StartsWhite, EndsWhite, TrimStart, TrimEnd;
    if s == [] {
      WhiteJoins(c, d);
      assert c + s + d == (c + d) + [];
      TrimStartDrops(c + d, []);
      EmptyIsWhite();
      TrimEndDrops([], []);
      assert [] + [] == s;
    } else {
      NoneStraddles(s, d);
      assert c + s + d == c + (s + d);
      TrimStartDrops(c, s + d);
      TrimEndDrops(s, d);
    }
  }

  // ---------- Parts of a query ----------

  // A part gives a key a raw value: `key=value` with white space around each of the two, cut at the
  // first equals sign; or a key alone, which gives it nothing.
  ghost predicate Gives(part: Bytes, key: Bytes, value: Bytes) {
    || (exists k, v :: 0x3D !in k && part == k + [0x3D] + v && Pads(k, key) && Pads(v, value))
    || (0x3D !in part && Pads(part, key) && value == [])
  }

  lemma FindsFirst(part: Bytes, k: Bytes, v: Bytes)
    requires 0x3D !in k && part == k + [0x3D] + v
    ensures part[..Find(part, EQUALS)] == k && part[Find(part, EQUALS) + 1..] == v && Find(part, EQUALS) < |part|
  {
    FindFirst(k, EQUALS, v);
  }

  lemma CutAt(s: Bytes, i: nat)
    requires i < |s|
    ensures s == s[..i] + [s[i]] + s[i + 1..]
  {
  }

  lemma CutsAtEquals(part: Bytes)
    ensures Find(part, EQUALS) == |part| <==> 0x3D !in part
    ensures Find(part, EQUALS) < |part| ==>
      && 0x3D !in part[..Find(part, EQUALS)]
      && part == part[..Find(part, EQUALS)] + [0x3D] + part[Find(part, EQUALS) + 1..]
  {
    hide Find;
    var i := Find(part, EQUALS);
    if i < |part| {
      CutAt(part, i);
    } else {
      assert part[..i] == part;
    }
  }

  // Every part gives one key one raw value, the ones the reader takes.
  lemma PartsExactly(part: Bytes, key: Bytes, value: Bytes)
    ensures PartKey(part) == key && PartValue(part) == value <==> Gives(part, key, value)
  {
    hide Trim, Pads, Find;
    var i := Find(part, EQUALS);
    CutsAtEquals(part);
    if i < |part| {
      TrimsExactly(part[..i], key);
      TrimsExactly(part[i + 1..], value);
      forall k, v | 0x3D !in k && part == k + [0x3D] + v ensures k == part[..i] && v == part[i + 1..] {
        FindsFirst(part, k, v);
      }
    } else {
      assert part[..i] == part;
      TrimsExactly(part, key);
    }
  }

  // The parts of a query, joined by ampersands: the reader answers with the decoded value of the first
  // part that gives the key a value that is not empty, and with nothing if there is none.
  lemma ReaderFindsFirst(parts: seq<Bytes>, key: Bytes, i: nat, value: Bytes)
    requires parts != [] && forall j :: 0 <= j < |parts| ==> 0x26 !in parts[j]
    requires i <= |parts| && forall j, v | 0 <= j < i && Gives(parts[j], key, v) :: v == []
    requires i < |parts| ==> Gives(parts[i], key, value) && value != []
    ensures ReadQuery(Some(Join(parts)), key) == if i < |parts| then Some(Decode(value)) else None
  {
    hide Gives, Split, Join, PartKey, PartValue, Decode;
    SplitUndoesJoin(parts);
    forall j | 0 <= j < i ensures PartKey(parts[j]) == key ==> PartValue(parts[j]) == [] {
      PartsExactly(parts[j], key, PartValue(parts[j]));
    }
    if i < |parts| {
      PartsExactly(parts[i], key, value);
    }
    FindsAt(parts, key, i);
  }

  lemma {:induction false} FindsAt(parts: seq<Bytes>, key: Bytes, i: nat)
    requires i <= |parts| && forall j | 0 <= j < i :: PartKey(parts[j]) == key ==> PartValue(parts[j]) == []
    requires i < |parts| ==> PartKey(parts[i]) == key && PartValue(parts[i]) != []
    ensures FindPart(parts, key) == if i < |parts| then Some(Decode(PartValue(parts[i]))) else None
    decreases i
  {
    hide PartKey, PartValue, Decode;
    if i > 0 {
      assert forall j | 0 <= j < i - 1 :: parts[1..][j] == parts[j + 1];
      FindsAt(parts[1..], key, i - 1);
    }
  }
}
