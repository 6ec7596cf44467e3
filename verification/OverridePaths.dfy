/** What the path of an override means: which texts spell which segments, which roots are the gateway's,
    and which rules a request meets. */
module OverridePaths {
  import opened Wrappers
  import opened JsonTree
  import opened RequestOverrides
  import opened OverrideRules
  import opened Octets
  import opened Unicode

  // ---------- Trimming ----------

  predicate AllWhite(s: string) {
    forall i :: 0 <= i < |s| ==> IsWhite(s[i])
  }

  // Neither empty nor with white space at an end.
  predicate Tidy(s: string) {
    s != "" && !IsWhite(s[0]) && !IsWhite(s[|s| - 1])
  }

  // `padded` is `s` with white space around it.
  ghost predicate Pads(padded: string, s: string) {
    Tidy(s) && exists a, b :: AllWhite(a) && AllWhite(b) && padded == a + s + b
  }

  lemma {:induction false} TrimLeftSplits(s: string) returns (a: string)
    ensures AllWhite(a) && s == a + TrimLeft(s) && (TrimLeft(s) != "" ==> !IsWhite(TrimLeft(s)[0]))
    decreases |s|
  {
    a := "";
    if s != "" && IsWhite(s[0]) {
      a := TrimLeftSplits(s[1..]);
      a := [s[0]] + a;
    }
  }

  lemma {:induction false} TrimRightSplits(s: string) returns (b: string)
    ensures AllWhite(b) && s == TrimRight(s) + b
    ensures TrimRight(s) != "" ==> !IsWhite(TrimRight(s)[|TrimRight(s)| - 1])
    decreases |s|
  {
    b := "";
    if s != "" && IsWhite(s[|s| - 1]) {
      b := TrimRightSplits(s[..|s| - 1]);
      b := b + [s[|s| - 1]];
    }
  }

  lemma {:induction false} TrimLeftDrops(a: string, s: string)
    requires AllWhite(a) && (s != "" ==> !IsWhite(s[0]))
    ensures TrimLeft(a + s) == s
    decreases |a|
  {
    if a == "" {
      assert a + s == s;
    } else {
      assert (a + s)[0] == a[0] && (a + s)[1..] == a[1..] + s;
      TrimLeftDrops(a[1..], s);
    }
  }

  lemma {:induction false} TrimRightDrops(s: string, b: string)
    requires AllWhite(b) && (s != "" ==> !IsWhite(s[|s| - 1]))
    ensures TrimRight(s + b) == s
    decreases |b|
  {
    if b == "" {
      assert s + b == s;
    } else {
      var n := |b| - 1;
      assert (s + b)[|s + b| - 1] == b[n] && (s + b)[..|s + b| - 1] == s + b[..n];
      TrimRightDrops(s, b[..n]);
    }
  }

  // Trimming takes away exactly the white space around a text.
  lemma TrimsExactly(padded: string, s: string)
    ensures Trim(padded) == s <==> Pads(padded, s) || (s == "" && AllWhite(padded))
  {
    hide IsWhite;
    var a := TrimLeftSplits(padded);
    var b := TrimRightSplits(TrimLeft(padded));
    var t := Trim(padded);
    assert padded == a + t + b;
    if t != "" {
      assert TrimLeft(padded)[0] == t[0];
      assert Pads(padded, t);
    } else {
      assert padded == a + b;
    }
    if Pads(padded, s) {
      var c, d :| AllWhite(c) && AllWhite(d) && padded == c + s + d;
      assert padded == c + (s + d) && (s + d)[0] == s[0];
      TrimLeftDrops(c, s + d);
      TrimRightDrops(s, d);
    }
    if s == "" && AllWhite(padded) {
      assert padded == padded + "";
      TrimLeftDrops(padded, "");
      TrimRightDrops("", "");
    }
  }

  // Trimming knows all 25 characters.
  lemma WhiteExactly(c: char)
    ensures IsWhite(c) <==> c in WHITE
  {
    if IsWhite(c) {
      var n := c as int;
      var i :=
        if n <= 0xD then n - 9 else if n == 0x20 then 5 else if n == 0x85 then 6 else if n == 0xA0 then 7
        else if n == 0x1680 then 8 else if n <= 0x200A then 9 + n - 0x2000 else if n == 0x2028 then 20
        else if n == 0x2029 then 21 else if n == 0x202F then 22 else if n == 0x205F then 23 else 24;
      assert WHITE[i] == c;
    }
  }

  // ---------- Segments ----------

  lemma {:induction false} JoinUndoesSplit(s: string)
    ensures Join(Split(s)) == s
    decreases |s|
  {
    if s != "" {
      var rest := Split(s[1..]);
      JoinUndoesSplit(s[1..]);
      if s[0] == '.' {
        assert ([""] + rest)[1..] == rest;
        assert "" + "." + Join(rest) == s;
      } else if |rest| == 1 {
        assert Split(s) == [[s[0]] + rest[0]];
      } else {
        assert Split(s)[1..] == rest[1..];
        assert [s[0]] + rest[0] + "." + Join(rest[1..]) == [s[0]] + (rest[0] + "." + Join(rest[1..]));
      }
    }
  }

  // A text spells a path: its segments, each perhaps between white space, joined by dots, with white
  // space around it all; 512 bytes and 16 segments at most.
  ghost predicate SpellsPath(text: string, p: Path) {
    exists parts: seq<string> ::
      && 1 <= |parts| == |p| <= 16 && DotFreePath(parts) && Pads(text, Join(parts)) && Utf8Len(Join(parts)) <= 512
      && forall i :: 0 <= i < |p| ==> Pads(parts[i], p[i])
  }

  // A path text is accepted exactly when it spells a path, and then as that path.
  lemma SegmentsExactly(text: string, p: Path)
    ensures Segments(text) == Ok(p) <==> SpellsPath(text, p)
  {
    hide Trim, Split, Join, Pads, IsWhite, Utf8Len;
    TrimsExactly(text, Trim(text));
    if Segments(text) == Ok(p) {
      var body := Trim(text);
      var parts := Split(body);
      JoinUndoesSplit(body);
      SplitIsDotFree(body);
      forall i | 0 <= i < |p| ensures Pads(parts[i], p[i]) {
        assert p[i] == Trim(parts[i]) && p[i] in p;
        TrimsExactly(parts[i], p[i]);
      }
      assert SpellsPath(text, p);
    }
    if SpellsPath(text, p) {
      var parts: seq<string> :|
        && 1 <= |parts| == |p| <= 16 && DotFreePath(parts) && Pads(text, Join(parts)) && Utf8Len(Join(parts)) <= 512
        && forall i :: 0 <= i < |p| ==> Pads(parts[i], p[i]);
      TrimsExactly(text, Join(parts));
      SplitUndoesJoin(parts);
      PadsTidy(text, Join(parts));
      forall i | 0 <= i < |p| ensures Trim(parts[i]) == p[i] && p[i] != "" {
        TrimsExactly(parts[i], p[i]);
        PadsTidy(parts[i], p[i]);
      }
      assert TrimAll(parts) == p;
    }
  }

  lemma PadsTidy(padded: string, s: string)
    requires Pads(padded, s)
    ensures s != ""
  {
  }

  function Utf8Text(s: string): seq<byte> {
    if s == "" then [] else Utf8(s[0]) + Utf8Text(s[1..])
  }

  // The limit on a path counts the bytes of its UTF-8 form.
  lemma {:induction false} CountsBytes(s: string)
    ensures Utf8Len(s) == |Utf8Text(s)|
    decreases |s|
  {
    if s != "" {
      CountsBytes(s[1..]);
    }
  }

  // A text of ASCII characters has its own length.
  lemma {:induction false} AsciiLength(s: string)
    requires forall i :: 0 <= i < |s| ==> s[i] < '\U{80}'
    ensures Utf8Len(s) == |s|
    decreases |s|
  {
    if s != "" {
      AsciiLength(s[1..]);
    }
  }

  // ---------- The gateway's own members ----------

  // The same letters, small or capital.
  predicate SameLetters(name: string, word: string) {
    |name| == |word| && forall i :: 0 <= i < |word| ==> SameLetter(name[i], word[i])
  }

  predicate SameLetter(c: char, small: char) {
    || c == small
    || ('a' <= small <= 'z' && c == "ABCDEFGHIJKLMNOPQRSTUVWXYZ"[small as int - 'a' as int])
  }

  lemma SameLettersNext(name: string, word: string)
    requires name != "" && word != ""
    ensures SameLetters(name, word) <==> SameLetter(name[0], word[0]) && SameLetters(name[1..], word[1..])
  {
    hide SameLetter;
    if SameLetter(name[0], word[0]) && SameLetters(name[1..], word[1..]) {
      forall i | 0 <= i < |word| ensures SameLetter(name[i], word[i]) {
        if i > 0 {
          assert SameLetter(name[1..][i - 1], word[1..][i - 1]);
        }
      }
    }
  }

  lemma LowerLetter(c: char, small: char)
    requires 'a' <= small <= 'z'
    ensures SameLetter(c, small) <==> (if 'A' <= c <= 'Z' then (c as int + 32) as char else c) == small
  {
    assert forall i | 0 <= i < 26 :: "ABCDEFGHIJKLMNOPQRSTUVWXYZ"[i] as int == 'A' as int + i;
  }

  lemma {:induction false} LowerMeans(name: string, word: string)
    requires forall i :: 0 <= i < |word| ==> 'a' <= word[i] <= 'z'
    ensures LowerAscii(name) == word <==> SameLetters(name, word)
    decreases |name|
  {
    if name != "" && word != "" {
      hide SameLetters, SameLetter;
      LowerMeans(name[1..], word[1..]);
      SameLettersNext(name, word);
      LowerLetter(name[0], word[0]);
      assert word == [word[0]] + word[1..];
    }
  }

  // A root is the gateway's exactly when it is `model`, `stream` or `type` in any capitalisation.
  lemma ReservedExactly(name: string)
    ensures ReservedRoot(name) <==>
      SameLetters(name, "model") || SameLetters(name, "stream") || SameLetters(name, "type")
  {
    hide LowerAscii, SameLetters;
    LowerMeans(name, "model");
    LowerMeans(name, "stream");
    LowerMeans(name, "type");
  }

  // A rule that passes never touches them: its path is none of theirs nor below them.
  lemma PassedRulesKeepOff(r: Rule, encodedLen: Json -> nat)
    ensures RuleOk(r, encodedLen) <==>
      && (r.operation == Set ==> encodedLen(r.value) <= 65536)
      && exists p :: SpellsPath(r.path, p) && !SameLetters(p[0], "model") && !SameLetters(p[0], "stream")
                     && !SameLetters(p[0], "type")
  {
    hide SameLetters, SpellsPath, Segments;
    if Segments(r.path).Ok? {
      var p := Segments(r.path).value;
      SegmentsExactly(r.path, p);
      ReservedExactly(p[0]);
      assert forall q | SpellsPath(r.path, q) :: q == p by {
        forall q | SpellsPath(r.path, q) ensures q == p {
          SegmentsExactly(r.path, q);
        }
      }
    } else {
      forall q ensures !SpellsPath(r.path, q) {
        SegmentsExactly(r.path, q);
      }
    }
  }

  // ---------- The rules a request meets ----------

  lemma {:induction false} SelectExactly(rules: seq<Rule>, scope: Scope, r: Rule)
    ensures r in Select(rules, scope) <==> r in rules && r.scope == scope
    decreases |rules|
  {
    if rules != [] {
      SelectExactly(rules[1..], scope, r);
    }
  }

  // A request for the list of models meets only the rules for all requests; the other two kinds meet
  // those and the rules of their own scope.
  lemma AppliedExactly(rules: seq<Rule>, r: Rule)
    ensures r in Applied(rules, Models) <==> r in rules && r.scope == All
    ensures r in Applied(rules, ToChatCompletions) <==> r in rules && (r.scope == All || r.scope == ChatCompletions)
    ensures r in Applied(rules, ToResponses) <==> r in rules && (r.scope == All || r.scope == Responses)
  {
    hide Select;
    SelectExactly(rules, All, r);
    SelectExactly(rules, ChatCompletions, r);
    SelectExactly(rules, Responses, r);
  }
}
