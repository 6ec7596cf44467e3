/** The streaming-usage rewrite of the OpenAI front end: find a member of a JSON object in raw bytes
    and splice `include_usage` in, leaving every other byte alone. */
module IncludeUsage {
  import opened Wrappers
  import opened Octets
  import opened JsonText

  const STREAM_OPTIONS: Text :=  // stream_options
    [0x73, 0x74, 0x72, 0x65, 0x61, 0x6D, 0x5F, 0x6F, 0x70, 0x74, 0x69, 0x6F, 0x6E, 0x73]
  const INCLUDE_USAGE: Text :=  // include_usage
    [0x69, 0x6E, 0x63, 0x6C, 0x75, 0x64, 0x65, 0x5F, 0x75, 0x73, 0x61, 0x67, 0x65]

  datatype Span = Span(start: nat, end: nat)

  // What the typed decoder read from the request; decoding itself is a parameter of the rewrite.
  datatype RequestInfo = RequestInfo(stream: bool, includeUsage: Option<bool>)

  // ---------- What the scanners compute ----------

  // Just past the quote that closes a string, reading from inside it.
  function InString(s: Text, i: nat, escape: bool): (r: Option<nat>)
    ensures r.Some? ==> i < r.value <= |s|
    decreases |s| - i
  {
    if i >= |s| then None
    else if escape then InString(s, i + 1, false)
    else if s[i] == BACKSLASH then InString(s, i + 1, true)
    else if s[i] == QUOTE then Some(i + 1)
    else InString(s, i + 1, false)
  }

  // Just past the `close` that brings the count of `open` back to zero, reading outside strings.
  function ContainerEnd(s: Text, open: byte, close: byte, i: nat, depth: int): (r: Option<nat>)
    ensures r.Some? ==> i < r.value <= |s|
    decreases |s| - i
  {
    if i >= |s| then None
    else if s[i] == QUOTE then
      match InString(s, i + 1, false)
      case None => None
      case Some(j) => ContainerEnd(s, open, close, j, depth)
    else if s[i] == open then ContainerEnd(s, open, close, i + 1, depth + 1)
    else if s[i] == close then
      if depth - 1 == 0 then Some(i + 1) else ContainerEnd(s, open, close, i + 1, depth - 1)
    else ContainerEnd(s, open, close, i + 1, depth)
  }

  predicate EndsScalar(b: byte) {
    b == COMMA || b == RBRACE || b == RBRACKET || IsSpace(b)
  }

  function ScalarEnd(s: Text, i: nat): (r: nat)
    requires i <= |s|
    ensures i <= r <= |s|
    decreases |s| - i
  {
    if i == |s| || EndsScalar(s[i]) then i else ScalarEnd(s, i + 1)
  }

  function ValueEnd(s: Text, start: nat): (r: Option<nat>)
    ensures r.Some? ==> start <= r.value <= |s|
  {
    if start >= |s| then None
    else if s[start] == LBRACE then ContainerEnd(s, LBRACE, RBRACE, start, 0)
    else if s[start] == LBRACKET then ContainerEnd(s, LBRACKET, RBRACKET, start, 0)
    else if s[start] == QUOTE then InString(s, start + 1, false)
    else Some(ScalarEnd(s, start))
  }

  function SkipSpace(s: Text, i: nat): (r: nat)
    requires i <= |s|
    ensures i <= r <= |s|
    decreases |s| - i
  {
    if i < |s| && IsSpace(s[i]) then SkipSpace(s, i + 1) else i
  }

  function TrimSpace(s: Text, i: nat): (r: nat)
    requires i <= |s|
    ensures r <= i
  {
    if i > 0 && IsSpace(s[i - 1]) then TrimSpace(s, i - 1) else i
  }

  lemma TrimStops(s: Text, to: nat, i: nat)
    requires i < to <= |s| && !IsSpace(s[i])
    ensures TrimSpace(s, to) > i && !IsSpace(s[TrimSpace(s, to) - 1])
  {
  }

  // The span of the value after the first depth-one string spelled `key` that a colon follows.
  function FindKey(s: Text, key: Text, i: nat, depth: int): (r: Option<Span>)
    ensures r.Some? ==> i < r.value.start <= r.value.end <= |s|
    decreases |s| - i
  {
    if i >= |s| then None
    else if s[i] == QUOTE then
      match InString(s, i + 1, false)
      case None => None
      case Some(j) =>
        if depth == 1 && s[i + 1..j - 1] == key then
          var c := SkipSpace(s, j);
          if c < |s| && s[c] == COLON then
            var start := SkipSpace(s, c + 1);
            match ValueEnd(s, start)
            case None => None
            case Some(end) => Some(Span(start, end))
          else FindKey(s, key, c, depth)
        else FindKey(s, key, j, depth)
    else if s[i] == LBRACE || s[i] == LBRACKET then FindKey(s, key, i + 1, depth + 1)
    else if s[i] == RBRACE || s[i] == RBRACKET then FindKey(s, key, i + 1, depth - 1)
    else FindKey(s, key, i + 1, depth)
  }

  function FindMember(s: Text, key: Text): (r: Option<Span>)
    ensures r.Some? ==> r.value.start <= r.value.end <= |s|
  {
    var i := SkipSpace(s, 0);
    if i >= |s| || s[i] != LBRACE then None else FindKey(s, key, i, 0)
  }

  function RootEnd(s: Text): (r: Option<nat>)
    ensures r.Some? ==> r.value < |s|
  {
    var i := TrimSpace(s, |s|);
    if i == 0 || s[i - 1] != RBRACE then None else Some(i - 1)
  }

  // "include_usage":true
  function UsageMember(): Text {
    Quoted(INCLUDE_USAGE) + [COLON] + TRUE
  }

  function Inject(obj: Text): Result<Text, string> {
    var i := SkipSpace(obj, 0);
    var j := TrimSpace(obj, |obj|);
    if i >= |obj| || obj[i] != LBRACE then Err("stream_options is not an object")
    else if j == 0 || obj[j - 1] != RBRACE then Err("stream_options object not terminated")
    else
      TrimStops(obj, |obj|, i);
      if !Blank(obj[i + 1..j - 1]) then
        Ok(obj[..i + 1] + UsageMember() + [COMMA] + obj[i + 1..])
      else
        Ok(obj[..i + 1] + UsageMember() + obj[i + 1..])
  }

  function Splice(s: Text, span: Span, t: Text): Text
    requires span.start <= span.end <= |s|
  {
    s[..span.start] + t + s[span.end..]
  }

  function EnsureSpec(body: Text, info: RequestInfo): Result<Text, string> {
    if !info.stream || info.includeUsage == Some(true) || RootEnd(body).None? then Ok(body)
    else
      match FindMember(body, STREAM_OPTIONS)
      case Some(so) => (
        var options := body[so.start..so.end];
        match FindMember(options, INCLUDE_USAGE)
        case None => (
          match Inject(options)
          case Err(e) => Err(e)
          case Ok(t) => Ok(Splice(body, so, t)))
        case Some(iu) => Ok(Splice(body, Span(so.start + iu.start, so.start + iu.end), TRUE)))
      case None =>
        var end := RootEnd(body).value;
        var p := TrimSpace(body, end);
        var comma := if p > 0 && body[p - 1] != LBRACE then [COMMA] else [];
        Ok(body[..end] + comma + NewOptions() + body[end..])
  }

  // "stream_options":{"include_usage":true}
  function NewOptions(): Text {
    Quoted(STREAM_OPTIONS) + [COLON] + ([LBRACE] + UsageMember() + [RBRACE])
  }

  // ---------- The loops ----------

  method ScanStringEnd(s: Text, from: nat) returns (r: Option<nat>)
    ensures r == InString(s, from, false)
  {
    var i := from;
    var escape := false;
    while i < |s|
      invariant from <= i
      invariant InString(s, from, false) == InString(s, i, escape)
      decreases |s| - i
    {
      var c := s[i];
      if escape {
        escape := false;
      } else if c == BACKSLASH {
        escape := true;
      } else if c == QUOTE {
        return Some(i + 1);
      }
      i := i + 1;
    }
    return None;
  }

  method ScanJsonValueEnd(s: Text, start: nat) returns (r: Option<nat>)
    ensures r == ValueEnd(s, start)
  {
    if start >= |s| {
      return None;
    }
    var b := s[start];
    if b == LBRACE || b == LBRACKET {
      var open, close := b, if b == LBRACE then RBRACE else RBRACKET;
      var depth := 0;
      var inString, escape := false, false;
      var i := start;
      while i < |s|
        invariant start <= i <= |s|
        invariant ValueEnd(s, start) ==
          if inString then
            match InString(s, i, escape) {
              case None => None
              case Some(j) => ContainerEnd(s, open, close, j, depth)
            }
          else ContainerEnd(s, open, close, i, depth)
      {
        var c := s[i];
        i := i + 1;
        if inString {
          if escape {
            escape := false;
          } else if c == BACKSLASH {
            escape := true;
          } else if c == QUOTE {
            inString := false;
          }
        } else if c == QUOTE {
          inString, escape := true, false;
        } else if c == open {
          depth := depth + 1;
        } else if c == close {
          depth := depth - 1;
          if depth == 0 {
            return Some(i);
          }
        }
      }
      return None;
    } else if b == QUOTE {
      r := ScanStringEnd(s, start + 1);
    } else {
      var i := start;
      while i < |s|
        invariant start <= i <= |s|
        invariant ScalarEnd(s, start) == ScalarEnd(s, i)
      {
        if EndsScalar(s[i]) {
          break;
        }
        i := i + 1;
      }
      return Some(i);
    }
  }

  method SkipSpaceFrom(s: Text, from: nat) returns (i: nat)
    requires from <= |s|
    ensures i == SkipSpace(s, from)
  {
    i := from;
    while i < |s| && IsSpace(s[i])
      invariant from <= i <= |s|
      invariant SkipSpace(s, from) == SkipSpace(s, i)
    {
      i := i + 1;
    }
  }

  method TrimSpaceTo(s: Text, to: nat) returns (i: nat)
    requires to <= |s|
    ensures i == TrimSpace(s, to)
  {
    i := to;
    while i > 0 && IsSpace(s[i - 1])
      invariant i <= to
      invariant TrimSpace(s, to) == TrimSpace(s, i)
    {
      i := i - 1;
    }
  }

  // Both key searches of the source, over the root and over an inner object, are this one loop.
  method FindObjectKeyValueSpan(s: Text, key: Text) returns (r: Option<Span>)
    ensures r == FindMember(s, key)
  {
    hide ValueEnd, SkipSpace;
    var i := SkipSpaceFrom(s, 0);
    if i >= |s| || s[i] != LBRACE {
      return None;
    }
    var depth := 0;
    var inString, escape := false, false;
    while i < |s|
      invariant i <= |s|
      invariant inString ==> depth != 1
      invariant FindMember(s, key) ==
        if inString then
          match InString(s, i, escape) {
            case None => None
            case Some(j) => FindKey(s, key, j, depth)
          }
        else FindKey(s, key, i, depth)
    {
      var b := s[i];
      if inString {
        if escape {
          escape := false;
        } else if b == BACKSLASH {
          escape := true;
        } else if b == QUOTE {
          inString := false;
        }
        i := i + 1;
      } else if b == QUOTE && depth != 1 {
        inString, escape := true, false;
        i := i + 1;
      } else if b == QUOTE {
        var keyStart := i + 1;
        var keyEnd := ScanStringEnd(s, keyStart);
        if keyEnd.None? {
          return None;
        }
        i := keyEnd.value;
        var found := s[keyStart..i - 1] == key;
        if found {
          i := SkipSpaceFrom(s, i);
          if i < |s| && s[i] == COLON {
            i := SkipSpaceFrom(s, i + 1);
            var end := ScanJsonValueEnd(s, i);
            if end.None? {
              return None;
            }
            return Some(Span(i, end.value));
          }
        }
      } else {
        if b == LBRACE || b == LBRACKET {
          depth := depth + 1;
        } else if b == RBRACE || b == RBRACKET {
          depth := depth - 1;
        }
        i := i + 1;
      }
    }
    return None;
  }

  method FindRootObjectEnd(s: Text) returns (r: Option<nat>)
    ensures r == RootEnd(s)
  {
    var i := TrimSpaceTo(s, |s|);
    if i == 0 || s[i - 1] != RBRACE {
      return None;
    }
    return Some(i - 1);
  }

  method InjectIncludeUsageIntoObject(obj: Text) returns (r: Result<Text, string>)
    ensures r == Inject(obj)
  {
    var i := SkipSpaceFrom(obj, 0);
    if i >= |obj| || obj[i] != LBRACE {
      return Err("stream_options is not an object");
    }
    var j := TrimSpaceTo(obj, |obj|);
    if j == 0 || obj[j - 1] != RBRACE {
      return Err("stream_options object not terminated");
    }
    TrimStops(obj, |obj|, i);
    var isEmpty := Blank(obj[i + 1..j - 1]);
    var out := obj[..i + 1];
    out := out + UsageMember();
    if !isEmpty {
      out := out + [COMMA];
    }
    out := out + obj[i + 1..];
    return Ok(out);
  }

  method EnsureIncludeUsage(body: Text, info: RequestInfo) returns (r: Result<Text, string>)
    ensures r == EnsureSpec(body, info)
  {
    if !info.stream {
      return Ok(body);
    }
    if info.includeUsage == Some(true) {
      return Ok(body);
    }
    var rootEnd := FindRootObjectEnd(body);
    if rootEnd.None? {
      return Ok(body);
    }
    var so := FindObjectKeyValueSpan(body, STREAM_OPTIONS);
    if so.Some? {
      var options := body[so.value.start..so.value.end];
      var iu := FindObjectKeyValueSpan(options, INCLUDE_USAGE);
      if iu.None? {
        var injected := InjectIncludeUsageIntoObject(options);
        if injected.Err? {
          return injected;
        }
        return Ok(body[..so.value.start] + injected.value + body[so.value.end..]);
      }
      var start, end := so.value.start + iu.value.start, so.value.start + iu.value.end;
      return Ok(body[..start] + TRUE + body[end..]);
    }
    var insertAt := rootEnd.value;
    var i := TrimSpaceTo(body, insertAt);
    var needsComma := i > 0 && body[i - 1] != LBRACE;
    var out := body[..insertAt];
    if needsComma {
      out := out + [COMMA];
    }
    assert body[..insertAt] + [] == body[..insertAt];
    out := out + NewOptions() + body[insertAt..];
    return Ok(out);
  }
}
