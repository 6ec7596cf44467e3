/** Body overrides: rules that set or remove one path of a request body, for all requests or for one
    kind of request. */
module RequestOverrides {
  import opened Wrappers
  import opened JsonTree

  const MAX_BODY_OVERRIDES: nat := 128
  const MAX_CONFIG_BYTES: nat := 262144
  const MAX_BODY_PATH_BYTES: nat := 512
  const MAX_BODY_PATH_DEPTH: nat := 16
  const MAX_BODY_VALUE_BYTES: nat := 65536

  datatype Scope = All | ChatCompletions | Responses

  datatype RequestTarget = Models | ToChatCompletions | ToResponses

  datatype Operation = Set | Remove

  datatype Rule = Rule(scope: Scope, operation: Operation, path: string, value: Json)

  function TargetScope(t: RequestTarget): Option<Scope> {
    match t
    case Models => None
    case ToChatCompletions => Some(ChatCompletions)
    case ToResponses => Some(Responses)
  }

  // ---------- Paths ----------

  // The white space that trimming removes, Unicode's White_Space property.
  predicate IsWhite(c: char) {
    var n := c as int;
    || 0x9 <= n <= 0xD || n == 0x20 || n == 0x85 || n == 0xA0 || n == 0x1680 || 0x2000 <= n <= 0x200A
    || n == 0x2028 || n == 0x2029 || n == 0x202F || n == 0x205F || n == 0x3000
  }

  function TrimLeft(s: string): string {
    if s != [] && IsWhite(s[0]) then TrimLeft(s[1..]) else s
  }

  function TrimRight(s: string): string {
    if s != [] && IsWhite(s[|s| - 1]) then TrimRight(s[..|s| - 1]) else s
  }

  function Trim(s: string): string {
    TrimRight(TrimLeft(s))
  }

  function Utf8Len(s: string): nat {
    if s == [] then 0
    else
      var n := s[0] as int;
      (if n < 0x80 then 1 else if n < 0x800 then 2 else if n < 0x10000 then 3 else 4) + Utf8Len(s[1..])
  }

  // The pieces between dots; a text without dots is one piece.
  function Split(s: string): (r: seq<string>)
    ensures |r| >= 1
  {
    if s == [] then [""]
    else
      var rest := Split(s[1..]);
      if s[0] == '.' then [""] + rest else [[s[0]] + rest[0]] + rest[1..]
  }

  function Join(parts: seq<string>): string
    requires |parts| >= 1
  {
    if |parts| == 1 then parts[0] else parts[0] + "." + Join(parts[1..])
  }

  function TrimAll(parts: seq<string>): (r: seq<string>)
    ensures |r| == |parts|
    ensures forall i :: 0 <= i < |parts| ==> r[i] == Trim(parts[i])
  {
    if parts == [] then [] else [Trim(parts[0])] + TrimAll(parts[1..])
  }

  datatype PathError = EmptyPath | PathTooLong | TooDeep | EmptySegment

  function Segments(path: string): (r: Result<Path, PathError>)
    ensures r.Ok? ==> r.value != []
  {
    var trimmed := Trim(path);
    if trimmed == [] then Err(EmptyPath)
    else if Utf8Len(trimmed) > MAX_BODY_PATH_BYTES then Err(PathTooLong)
    else
      var segments := TrimAll(Split(trimmed));
      if |segments| > MAX_BODY_PATH_DEPTH then Err(TooDeep)
      else if "" in segments then Err(EmptySegment)
      else Ok(segments)
  }

  method BodyPathSegments(path: string) returns (r: Result<Path, PathError>)
    ensures r == Segments(path)
  {
    var trimmed := Trim(path);
    if trimmed == [] {
      return Err(EmptyPath);
    }
    if Utf8Len(trimmed) > MAX_BODY_PATH_BYTES {
      return Err(PathTooLong);
    }
    var parts := Split(trimmed);
    var segments: seq<string> := [];
    for i := 0 to |parts|
      invariant |segments| == i
      invariant forall j :: 0 <= j < i ==> segments[j] == Trim(parts[j])
    {
      segments := segments + [Trim(parts[i])];
    }
    assert segments == TrimAll(parts);
    if |segments| > MAX_BODY_PATH_DEPTH {
      return Err(TooDeep);
    }
    if "" in segments {
      return Err(EmptySegment);
    }
    return Ok(segments);
  }

  // ---------- Setting and removing a path ----------

  function AsMembers(v: Json): map<string, Json> {
    if v.Obj? then v.members else map[]
  }

  function Child(m: map<string, Json>, name: string): map<string, Json> {
    if name in m then AsMembers(m[name]) else map[]
  }

  // `members` with `v` at `path`: parents that are missing or no objects become empty objects.
  function SetIn(members: map<string, Json>, path: Path, v: Json): map<string, Json>
    requires path != []
    decreases |path|
  {
    if |path| == 1 then members[path[0] := v]
    else members[path[0] := Obj(SetIn(Child(members, path[0]), path[1..], v))]
  }

  function RemoveIn(members: map<string, Json>, path: Path): map<string, Json>
    requires path != []
    decreases |path|
  {
    if |path| == 1 then members - {path[0]}
    else if path[0] in members && members[path[0]].Obj? then
      members[path[0] := Obj(RemoveIn(members[path[0]].members, path[1..]))]
    else members
  }

  // The members along the way down, put back together around `inner`.
  function Rebuild(spine: seq<map<string, Json>>, names: Path, inner: map<string, Json>): map<string, Json>
    requires |spine| == |names|
  {
    if spine == [] then inner else spine[0][names[0] := Obj(Rebuild(spine[1..], names[1..], inner))]
  }

  lemma {:induction false} RebuildLast(spine: seq<map<string, Json>>, names: Path, m: map<string, Json>, name: string,
                                       inner: map<string, Json>)
    requires |spine| == |names|
    ensures Rebuild(spine + [m], names + [name], inner) == Rebuild(spine, names, m[name := Obj(inner)])
    decreases |spine|
  {
    if spine == [] {
      assert [m][1..] == [] && [name][1..] == [];
      assert ([] + [m]) == [m] && ([] + [name]) == [name];
    } else {
      assert (spine + [m])[1..] == spine[1..] + [m] && (names + [name])[1..] == names[1..] + [name];
      RebuildLast(spine[1..], names[1..], m, name, inner);
    }
  }

  datatype SetError = NotAnObject | NoPath

  // The walk down keeps the objects it passes, because a value has no cursor into its middle.
  method SetBodyPath(v: Json, path: Path, replacement: Json) returns (r: Result<Json, SetError>)
    ensures r ==
      if path == [] then Err(NoPath)
      else if !v.Obj? then Err(NotAnObject)
      else Ok(Obj(SetIn(v.members, path, replacement)))
  {
    if path == [] {
      return Err(NoPath);
    }
    if !v.Obj? {
      return Err(NotAnObject);
    }
    var current := v.members;
    var spine: seq<map<string, Json>> := [];
    var i := 0;
    assert path[..0] == [] && path[0..] == path;
    while i < |path| - 1
      invariant 0 <= i < |path| && |spine| == i
      invariant Rebuild(spine, path[..i], SetIn(current, path[i..], replacement)) == SetIn(v.members, path, replacement)
    {
      var child := map[];
      if path[i] in current && current[path[i]].Obj? {
        child := current[path[i]].members;
      }
      assert path[..i + 1] == path[..i] + [path[i]] && path[i..][1..] == path[i + 1..];
      RebuildLast(spine, path[..i], current, path[i], SetIn(child, path[i + 1..], replacement));
      spine := spine + [current];
      current := child;
      i := i + 1;
    }
    current := current[path[i] := replacement];
    while i > 0
      invariant 0 <= i == |spine| < |path|
      invariant Rebuild(spine, path[..i], current) == SetIn(v.members, path, replacement)
    {
      i := i - 1;
      assert spine == spine[..i] + [spine[i]] && path[..i + 1] == path[..i] + [path[i]];
      RebuildLast(spine[..i], path[..i], spine[i], path[i], current);
      current := spine[i][path[i] := Obj(current)];
      spine := spine[..i];
    }
    return Ok(Obj(current));
  }

  // ---------- What setting and removing mean ----------

  lemma TailsCompare(p: Path, q: Path)
    requires p != [] && q != [] && p[0] == q[0]
    ensures p <= q <==> p[1..] <= q[1..]
    ensures q <= p <==> q[1..] <= p[1..]
    ensures p <= q ==> q[1..][|p| - 1..] == q[|p|..]
    ensures !Comparable(p, q) ==> |p| > 1 && |q| > 1
  {
    assert p == [p[0]] + p[1..] && q == [q[0]] + q[1..];
  }

  lemma GetDown(m: map<string, Json>, q: Path)
    requires |q| > 1
    ensures Get(Obj(m), q) == Get(Obj(Child(m, q[0])), q[1..])
  {
  }

  lemma SetStep(m: map<string, Json>, path: Path, v: Json, q: Path)
    requires path != [] && q != []
    ensures
      Get(Obj(SetIn(m, path, v)), q) ==
        if path[0] != q[0] then Get(Obj(m), q)
        else if |path| == 1 then Get(v, q[1..])
        else Get(Obj(SetIn(Child(m, path[0]), path[1..], v)), q[1..])
  {
  }

  lemma {:induction false} SetGets(m: map<string, Json>, path: Path, v: Json, q: Path)
    requires path != []
    ensures path <= q ==> Get(Obj(SetIn(m, path, v)), q) == Get(v, q[|path|..])
    ensures !Comparable(path, q) ==> Get(Obj(SetIn(m, path, v)), q) == Get(Obj(m), q)
    decreases |path|
  {
    hide Get, SetIn;
    if q != [] {
      SetStep(m, path, v, q);
      if path[0] == q[0] {
        TailsCompare(path, q);
        if |path| > 1 {
          SetGets(Child(m, path[0]), path[1..], v, q[1..]);
          if !Comparable(path, q) {
            GetDown(m, q);
          }
        }
      }
    }
  }

  lemma {:induction false} RemoveGets(m: map<string, Json>, path: Path, q: Path)
    requires path != []
    ensures path <= q ==> Get(Obj(RemoveIn(m, path)), q) == None
    ensures !Comparable(path, q) ==> Get(Obj(RemoveIn(m, path)), q) == Get(Obj(m), q)
    decreases |path|
  {
    if q != [] && path[0] == q[0] {
      TailsCompare(path, q);
      if |path| > 1 && path[0] in m && m[path[0]].Obj? {
        RemoveGets(m[path[0]].members, path[1..], q[1..]);
      }
    }
  }

  // An edit of one path: set to a value, or remove.
  datatype Edit = Edit(path: Path, value: Option<Json>)

  function EditIn(m: map<string, Json>, e: Edit): map<string, Json>
    requires e.path != []
  {
    match e.value
    case Some(v) => SetIn(m, e.path, v)
    case None => RemoveIn(m, e.path)
  }

  lemma EditGets(m: map<string, Json>, e: Edit, q: Path)
    requires e.path != []
    ensures e.path <= q ==>
      Get(Obj(EditIn(m, e)), q) == if e.value.Some? then Get(e.value.value, q[|e.path|..]) else None
    ensures !Comparable(e.path, q) ==> Get(Obj(EditIn(m, e)), q) == Get(Obj(m), q)
  {
    match e.value
    case Some(v) => SetGets(m, e.path, v, q);
    case None => RemoveGets(m, e.path, q);
  }

  // An edit below `name` is an edit of that child.
  lemma EditBelow(m: map<string, Json>, e: Edit)
    requires |e.path| > 1
    ensures
      var below := Edit(e.path[1..], e.value);
      EditIn(m, e) ==
        if e.value.Some? || (e.path[0] in m && m[e.path[0]].Obj?)
        then m[e.path[0] := Obj(EditIn(Child(m, e.path[0]), below))]
        else m
  {
  }

  lemma EditAtName(m: map<string, Json>, e: Edit, name: string)
    requires e.path != [] && e.path[0] != name
    ensures name in EditIn(m, e) <==> name in m
    ensures name in m ==> EditIn(m, e)[name] == m[name]
  {
  }

  // What an edit leaves at its own first name depends on what was there and on nothing else.
  lemma EditAtOwn(m: map<string, Json>, m': map<string, Json>, e: Edit)
    requires e.path != []
    requires e.path[0] in m <==> e.path[0] in m'
    requires e.path[0] in m ==> m[e.path[0]] == m'[e.path[0]]
    ensures e.path[0] in EditIn(m, e) <==> e.path[0] in EditIn(m', e)
    ensures e.path[0] in EditIn(m, e) ==> EditIn(m, e)[e.path[0]] == EditIn(m', e)[e.path[0]]
  {
  }

  lemma EditsApartCommute(m: map<string, Json>, a: Edit, b: Edit)
    requires a.path != [] && b.path != [] && a.path[0] != b.path[0]
    ensures EditIn(EditIn(m, a), b) == EditIn(EditIn(m, b), a)
  {
    hide EditIn;
    var ab, ba := EditIn(EditIn(m, a), b), EditIn(EditIn(m, b), a);
    EditAtName(m, a, b.path[0]);
    EditAtName(m, b, a.path[0]);
    EditAtOwn(m, EditIn(m, a), b);
    EditAtOwn(m, EditIn(m, b), a);
    EditAtName(EditIn(m, a), b, a.path[0]);
    EditAtName(EditIn(m, b), a, b.path[0]);
    forall name
      ensures name in ab <==> name in ba
      ensures name in ab ==> ab[name] == ba[name]
    {
      if name != a.path[0] {
        EditAtName(m, a, name);
        EditAtName(EditIn(m, b), a, name);
      }
      if name != b.path[0] {
        EditAtName(m, b, name);
        EditAtName(EditIn(m, a), b, name);
      }
    }
  }

  // Edits of incomparable paths commute, even when one of them turns a scalar into an object.
  lemma {:induction false} EditsCommute(m: map<string, Json>, a: Edit, b: Edit)
    requires a.path != [] && b.path != [] && !Comparable(a.path, b.path)
    ensures EditIn(EditIn(m, a), b) == EditIn(EditIn(m, b), a)
    decreases |a.path|
  {
    hide EditIn;
    if a.path[0] != b.path[0] {
      EditsApartCommute(m, a, b);
    } else {
      var name := a.path[0];
      TailsCompare(a.path, b.path);
      var a', b' := Edit(a.path[1..], a.value), Edit(b.path[1..], b.value);
      EditsCommute(Child(m, name), a', b');
      EditBelow(m, a);
      EditBelow(m, b);
      EditBelow(EditIn(m, a), b);
      EditBelow(EditIn(m, b), a);
      MissingChild(m, name, a', b');
    }
  }

  // Removing from what is not there, and then setting, is just setting.
  lemma MissingChild(m: map<string, Json>, name: string, a: Edit, b: Edit)
    requires a.path != [] && b.path != []
    ensures !(name in m && m[name].Obj?) && a.value.None? ==> EditIn(Child(m, name), a) == map[]
    ensures !(name in m && m[name].Obj?) && b.value.None? ==> EditIn(Child(m, name), b) == map[]
    ensures !(name in m && m[name].Obj?) ==> Child(m, name) == map[]
  {
  }

  // ---------- Templates ----------

  const REQUEST_ID_TEMPLATE: string := "{{request_id}}"

  function ExpandText(s: string, requestId: string): string {
    if s == [] then []
    else if REQUEST_ID_TEMPLATE <= s then requestId + ExpandText(s[|REQUEST_ID_TEMPLATE|..], requestId)
    else [s[0]] + ExpandText(s[1..], requestId)
  }

  function ExpandValue(v: Json, requestId: string): Json {
    match v
    case Str(text) => Str(ExpandText(text, requestId))
    case Arr(items) => Arr(ExpandItems(items, requestId))
    case Obj(members) => Obj(map k | k in members :: ExpandValue(members[k], requestId))
    case _ => v
  }

  function ExpandItems(items: seq<Json>, requestId: string): (r: seq<Json>)
    ensures |r| == |items|
  {
    if items == [] then [] else [ExpandValue(items[0], requestId)] + ExpandItems(items[1..], requestId)
  }
}
