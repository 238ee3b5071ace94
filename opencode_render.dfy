/** The opencode renderer. The source is JSON with comments; a
    "// __isWork__" comment line marks the key on the next line that holds
    content (blank and comment lines in between are passed over) as
    work-only. The text is cleaned into JSON and decoded; outside work mode
    every work-only key is removed from the "mcp" object before the data
    is encoded again. Decoding and encoding are parameters: the JSON parser
    and printer are not part of this model. */
module OpencodeRender {
  import opened Wrappers
  import opened Text
  import opened RenderLines
  import opened JsoncClean

  /** A decoded JSON value. An object keeps its members in insertion
      order, as a Python dict does. */
  datatype Json =
    | JNull
    | JBool(b: bool)
    | JNumber(value: real)
    | JString(s: string)
    | JArray(items: seq<Json>)
    | JObject(members: seq<(string, Json)>)

  /** Python truthiness of the decoded value. */
  predicate Truthy(v: Json) {
    match v
    case JNull => false
    case JBool(b) => b
    case JNumber(x) => x != 0.0
    case JString(s) => s != []
    case JArray(items) => items != []
    case JObject(ms) => ms != []
  }

  // ---------------------------------------------------------------------
  // Objects as dicts

  function Keys(ms: seq<(string, Json)>): (ks: seq<string>)
    ensures |ks| == |ms| && forall k :: 0 <= k < |ms| ==> ks[k] == ms[k].0
  {
    seq(|ms|, k requires 0 <= k < |ms| => ms[k].0)
  }

  /** dict.get: the value of the first member with that key. */
  function Get(ms: seq<(string, Json)>, key: string): (r: Option<Json>)
    ensures r.None? <==> key !in Keys(ms)
  {
    match IndexOf(Keys(ms), key)
    case None => None
    case Some(k) => Some(ms[k].1)
  }

  /** d[key] = v: a key already present keeps its place, a new one goes
      last. */
  function Put(ms: seq<(string, Json)>, key: string, v: Json): seq<(string, Json)> {
    match IndexOf(Keys(ms), key)
    case None => ms + [(key, v)]
    case Some(k) => ms[k := (key, v)]
  }

  /** The members whose key is not in `keys`, in order. */
  function WithoutKeys(ms: seq<(string, Json)>, keys: set<string>): seq<(string, Json)> {
    if ms == [] then []
    else WithoutKeys(ms[..|ms| - 1], keys) + (if ms[|ms| - 1].0 in keys then [] else [ms[|ms| - 1]])
  }

  /** del d[key] */
  function Delete(ms: seq<(string, Json)>, key: string): seq<(string, Json)> {
    WithoutKeys(ms, {key})
  }

  lemma WithoutKeysSnoc(xs: seq<(string, Json)>, m: (string, Json), keys: set<string>)
    ensures WithoutKeys(xs + [m], keys) == WithoutKeys(xs, keys) + (if m.0 in keys then [] else [m])
  {
    assert (xs + [m])[..|xs|] == xs;
  }

  lemma {:induction false} WithoutKeysTwice(ms: seq<(string, Json)>, a: set<string>, b: set<string>)
    ensures WithoutKeys(WithoutKeys(ms, a), b) == WithoutKeys(ms, a + b)
    decreases |ms|
  {
    if ms != [] {
      var init := ms[..|ms| - 1];
      var last := ms[|ms| - 1];
      WithoutKeysTwice(init, a, b);
      assert ms == init + [last];
      WithoutKeysSnoc(init, last, a);
      WithoutKeysSnoc(init, last, a + b);
      if last.0 !in a {
        WithoutKeysSnoc(WithoutKeys(init, a), last, b);
      } else {
        assert WithoutKeys(init, a + b) + [] == WithoutKeys(init, a + b);
        assert WithoutKeys(init, a) + [] == WithoutKeys(init, a);
      }
    }
  }

  /** Two key sets that agree on the keys present remove the same
      members. */
  lemma {:induction false} WithoutKeysSame(ms: seq<(string, Json)>, a: set<string>, b: set<string>)
    requires forall k :: 0 <= k < |ms| ==> (ms[k].0 in a <==> ms[k].0 in b)
    ensures WithoutKeys(ms, a) == WithoutKeys(ms, b)
    decreases |ms|
  {
    if ms != [] {
      WithoutKeysSame(ms[..|ms| - 1], a, b);
    }
  }

  /** Exactly the members whose key is not in `keys` remain, in order. */
  lemma {:induction false} WithoutKeysMembers(ms: seq<(string, Json)>, keys: set<string>)
    ensures forall m :: m in WithoutKeys(ms, keys) <==> m in ms && m.0 !in keys
    ensures IsSubseq(WithoutKeys(ms, keys), ms)
    decreases |ms|
  {
    if ms != [] {
      var init := ms[..|ms| - 1];
      var last := ms[|ms| - 1];
      WithoutKeysMembers(init, keys);
      assert ms == init + [last];
      var mask: seq<bool> :| |mask| == |init| && Pick(init, mask) == WithoutKeys(init, keys);
      var mask' := mask + [last.0 !in keys];
      assert mask'[..|ms| - 1] == mask;
      assert Pick(ms, mask') == WithoutKeys(ms, keys);
    } else {
      assert Pick(ms, []) == [];
    }
  }

  /** Lookup in an object with one more member at the end. */
  lemma GetSnoc(xs: seq<(string, Json)>, m: (string, Json), key: string)
    ensures Get(xs + [m], key)
         == if key in Keys(xs) then Get(xs, key) else if m.0 == key then Some(m.1) else None
  {
    assert Keys(xs + [m]) == Keys(xs) + [m.0];
    if key in Keys(xs) {
      IndexOfAppend(Keys(xs), [m.0], key);
    }
  }

  /** Lookup after the removal: a removed key is gone, any other key
      finds what it found before. */
  lemma {:induction false} GetWithoutKeys(ms: seq<(string, Json)>, keys: set<string>, key: string)
    ensures Get(WithoutKeys(ms, keys), key) == if key in keys then None else Get(ms, key)
    decreases |ms|
  {
    if ms != [] {
      var init := ms[..|ms| - 1];
      var last := ms[|ms| - 1];
      GetWithoutKeys(init, keys, key);
      assert ms == init + [last];
      GetWithoutKeysStep(init, last, keys, key);
    }
  }

  lemma GetWithoutKeysStep(init: seq<(string, Json)>, last: (string, Json), keys: set<string>, key: string)
    requires Get(WithoutKeys(init, keys), key) == if key in keys then None else Get(init, key)
    ensures Get(WithoutKeys(init + [last], keys), key) == if key in keys then None else Get(init + [last], key)
  {
    var w := WithoutKeys(init, keys);
    WithoutKeysSnoc(init, last, keys);
    GetSnoc(init, last, key);
    if last.0 !in keys {
      GetSnoc(w, last, key);
      assert key in Keys(w) <==> Get(w, key).Some?;
      assert key in Keys(init) <==> Get(init, key).Some?;
    } else {
      assert w + [] == w;
    }
  }

  lemma WithoutKeysIdempotent(ms: seq<(string, Json)>, keys: set<string>)
    ensures WithoutKeys(WithoutKeys(ms, keys), keys) == WithoutKeys(ms, keys)
  {
    WithoutKeysTwice(ms, keys, keys);
    assert keys + keys == keys;
  }

  /** After d[key] = v the key finds v, every other key finds what it
      found before, and the key order is kept (a new key goes last). */
  lemma PutSpec(ms: seq<(string, Json)>, key: string, v: Json)
    ensures Get(Put(ms, key, v), key) == Some(v)
    ensures forall other :: other != key ==> Get(Put(ms, key, v), other) == Get(ms, other)
    ensures Keys(Put(ms, key, v)) == if key in Keys(ms) then Keys(ms) else Keys(ms) + [key]
  {
    PutGet(ms, key, v);
    PutKeys(ms, key, v);
    forall other | other != key
      ensures Get(Put(ms, key, v), other) == Get(ms, other)
    {
      PutGetOther(ms, key, v, other);
    }
  }

  lemma PutGet(ms: seq<(string, Json)>, key: string, v: Json)
    ensures Get(Put(ms, key, v), key) == Some(v)
  {
    var p := Put(ms, key, v);
    if IndexOf(Keys(ms), key).None? {
      assert Keys(p) == Keys(ms) + [key];
    } else {
      assert Keys(p) == Keys(ms);
    }
  }

  lemma PutKeys(ms: seq<(string, Json)>, key: string, v: Json)
    ensures Keys(Put(ms, key, v)) == if key in Keys(ms) then Keys(ms) else Keys(ms) + [key]
  {
    var p := Put(ms, key, v);
    if IndexOf(Keys(ms), key).None? {
      assert Keys(p) == Keys(ms) + [key];
    } else {
      assert Keys(p) == Keys(ms);
    }
  }

  lemma PutGetOther(ms: seq<(string, Json)>, key: string, v: Json, other: string)
    requires other != key
    ensures Get(Put(ms, key, v), other) == Get(ms, other)
  {
    var p := Put(ms, key, v);
    if IndexOf(Keys(ms), key).None? {
      assert Keys(p) == Keys(ms) + [key];
      if other in Keys(ms) {
        IndexOfAppend(Keys(ms), [key], other);
      }
    } else {
      assert Keys(p) == Keys(ms);
    }
  }

  /** Writing a key twice with the same value is writing it once. */
  lemma PutTwice(ms: seq<(string, Json)>, key: string, v: Json)
    ensures Put(Put(ms, key, v), key, v) == Put(ms, key, v)
  {
    PutSpec(ms, key, v);
    var p := Put(ms, key, v);
    var i := IndexOf(Keys(p), key).value;
    assert p[i] == (key, v);
    assert p[i := (key, v)] == p;
  }

  // ---------------------------------------------------------------------
  // Finding the work-only keys

  predicate IsOpencodeMarker(line: string) {
    IsWorkMarker(line, "//")
  }

  /** A line the search for the marked key passes over: blank, or a
      comment. */
  predicate IsSkippable(line: string) {
    Strip(line) == [] || StartsWith(LStrip(line), "//")
  }

  // The key a line opens, as the regular expression ^\s*"([^"]+)"\s*:\s*
  // captures it: optional whitespace, a quoted non-empty key without
  // quotes, optional whitespace and a colon.
  function KeyOf(line: string): (r: Option<string>)
    ensures r.Some? ==> r.value != [] && '"' !in r.value
  {
    var s := LStrip(line);
    if s == [] || s[0] != '"' then None
    else match IndexOf(s[1..], '"')
      case None => None
      case Some(q) =>
        if q == 0 then None
        else
          var t := LStrip(s[q + 2..]);
          if t != [] && t[0] == ':' then Some(s[1..q + 1]) else None
  }

  lemma {:induction false} LStripSkip(ws: string, u: string)
    requires AllSpace(ws) && u != [] && !IsSpace(u[0])
    ensures LStrip(ws + u) == u
    decreases |ws|
  {
    if ws == [] {
      assert ws + u == u;
    } else {
      assert (ws + u)[1..] == ws[1..] + u;
      LStripSkip(ws[1..], u);
    }
  }

  /** A string is its whitespace prefix followed by its lstrip(). */
  lemma LStripSplit(line: string) returns (ws: string)
    ensures AllSpace(ws) && line == ws + LStrip(line)
  {
    LStripSpec(line);
    ws := line[..|line| - |LStrip(line)|];
  }

  /** Where the quotes of a key sit in the stripped line. */
  lemma KeyOfIndex(line: string, k: string) returns (q: nat)
    requires KeyOf(line) == Some(k)
    ensures var s := LStrip(line);
      && q + 2 <= |s| && s[0] == '"' && s[q + 1] == '"' && k == s[1..q + 1]
      && LStrip(s[q + 2..]) != [] && LStrip(s[q + 2..])[0] == ':'
  {
    var s := LStrip(line);
    q := IndexOf(s[1..], '"').value;
    assert s[1..][q] == '"';
  }

  lemma SplitAround(s: string, q: nat)
    requires q + 2 <= |s|
    ensures s == [s[0]] + s[1..q + 1] + [s[q + 1]] + s[q + 2..]
  {
  }

  /** A line that opens key k is whitespace, the quoted key and a rest
      whose lstrip() starts with a colon. */
  lemma KeyOfShape(line: string, k: string) returns (ws: string, t: string)
    requires KeyOf(line) == Some(k)
    ensures AllSpace(ws) && line == ws + ['"'] + k + ['"'] + t
    ensures LStrip(t) != [] && LStrip(t)[0] == ':'
  {
    var s := LStrip(line);
    ws := LStripSplit(line);
    var q := KeyOfIndex(line, k);
    t := s[q + 2..];
    SplitAround(s, q);
  }

  /** The pieces of a line that opens key k. */
  lemma KeyOfSome(line: string, k: string)
    requires KeyOf(line) == Some(k)
    ensures exists ws: string, ws2: string, rest: string ::
      AllSpace(ws) && AllSpace(ws2) && line == ws + ['"'] + k + ['"'] + ws2 + [':'] + rest
  {
    var ws, t := KeyOfShape(line, k);
    var ws2 := LStripSplit(t);
    var rest := LStrip(t)[1..];
    var a := ws + ['"'] + k + ['"'];
    assert LStrip(t) == [':'] + rest;
    AppendAssoc(a + ws2, [':'], rest);
    AppendAssoc(a, ws2, [':'] + rest);
  }

  /** A line made of those pieces opens key k. */
  lemma KeyOfPieces(k: string, ws: string, ws2: string, rest: string)
    requires k != [] && '"' !in k && AllSpace(ws) && AllSpace(ws2)
    ensures KeyOf(ws + ['"'] + k + ['"'] + ws2 + [':'] + rest) == Some(k)
  {
    var after := ws2 + [':'] + rest;
    var s := ['"'] + k + ['"'] + after;
    var a := ws + ['"'] + k + ['"'];
    // Regroup the line as ws + s.
    AppendAssoc(a + ws2, [':'], rest);
    AppendAssoc(a, ws2, [':'] + rest);
    AppendAssoc(ws2, [':'], rest);
    AppendAssoc(ws + ['"'] + k, ['"'], after);
    AppendAssoc(ws + ['"'], k, ['"'] + after);
    AppendAssoc(ws, ['"'], k + (['"'] + after));
    AppendAssoc(['"'] + k, ['"'], after);
    AppendAssoc(['"'], k, ['"'] + after);
    LStripSkip(ws, s);
    QuotedKey(k, after);
    LStripSkip(ws2, [':'] + rest);
    KeyOfStripped(ws + s, s, |k|);
  }

  /** Where the closing quote of a quoted key sits. */
  lemma QuotedKey(k: string, after: string)
    requires '"' !in k
    ensures var s := ['"'] + k + ['"'] + after;
      IndexOf(s[1..], '"') == Some(|k|) && s[1..|k| + 1] == k && s[|k| + 2..] == after
  {
    var s := ['"'] + k + ['"'] + after;
    assert s[1..] == (k + ['"']) + after;
    IndexOfAppend(k + ['"'], after, '"');
  }

  /** KeyOf read off the stripped line. */
  lemma KeyOfStripped(line: string, s: string, q: nat)
    requires LStrip(line) == s && s != [] && s[0] == '"' && IndexOf(s[1..], '"') == Some(q) && q > 0
    requires q + 2 <= |s| && LStrip(s[q + 2..]) != [] && LStrip(s[q + 2..])[0] == ':'
    ensures KeyOf(line) == Some(s[1..q + 1])
  {
  }

  /** A line opens key k exactly when it is whitespace, the quoted key,
      whitespace, a colon and anything after. */
  lemma KeyOfIff(line: string, k: string)
    ensures KeyOf(line) == Some(k) <==>
      && k != [] && '"' !in k
      && exists ws: string, ws2: string, rest: string ::
           && AllSpace(ws) && AllSpace(ws2)
           && line == ws + ['"'] + k + ['"'] + ws2 + [':'] + rest
  {
    if KeyOf(line) == Some(k) {
      KeyOfSome(line, k);
    }
    if k != [] && '"' !in k
       && exists ws: string, ws2: string, rest: string ::
            AllSpace(ws) && AllSpace(ws2) && line == ws + ['"'] + k + ['"'] + ws2 + [':'] + rest
    {
      var ws: string, ws2: string, rest: string :|
        AllSpace(ws) && AllSpace(ws2) && line == ws + ['"'] + k + ['"'] + ws2 + [':'] + rest;
      KeyOfPieces(k, ws, ws2, rest);
    }
  }

  /** The first line from j on that is not skippable, or the end. */
  function NextContent(lines: seq<string>, j: nat): (r: nat)
    requires j <= |lines|
    ensures j <= r <= |lines|
    ensures forall k :: j <= k < r ==> IsSkippable(lines[k])
    ensures r == |lines| || !IsSkippable(lines[r])
    decreases |lines| - j
  {
    if j == |lines| || !IsSkippable(lines[j]) then j else NextContent(lines, j + 1)
  }

  /** The key a marker on line i marks, if any. */
  function MarkerKey(lines: seq<string>, i: nat): Option<string>
    requires i < |lines|
  {
    if !IsOpencodeMarker(lines[i]) then None
    else
      var j := NextContent(lines, i + 1);
      if j >= |lines| then None else KeyOf(lines[j])
  }

  /** The marks of all lines, line by line. */
  function Marks(lines: seq<string>): (ms: seq<Option<string>>)
    ensures |ms| == |lines| && forall i :: 0 <= i < |lines| ==> ms[i] == MarkerKey(lines, i)
  {
    seq(|lines|, i requires 0 <= i < |lines| => MarkerKey(lines, i))
  }

  /** The keys present among some marks. */
  function KeysOf(ms: seq<Option<string>>): set<string> {
    if ms == [] then {}
    else KeysOf(ms[..|ms| - 1]) + (match ms[|ms| - 1] case Some(k) => {k} case None => {})
  }

  function WorkOnlyKeys(lines: seq<string>): set<string> {
    KeysOf(Marks(lines))
  }

  /** The look-ahead loop past blank and comment lines. */
  method SkipToContent(lines: seq<string>, start: nat) returns (j: nat)
    requires start <= |lines|
    ensures j == NextContent(lines, start)
  {
    j := start;
    while j < |lines| && (Strip(lines[j]) == [] || StartsWith(LStrip(lines[j]), "//"))
      invariant start <= j <= |lines|
      invariant NextContent(lines, start) == NextContent(lines, j)
    {
      j := j + 1;
    }
  }

  lemma KeysOfSnoc(ms: seq<Option<string>>, m: Option<string>)
    ensures KeysOf(ms + [m]) == KeysOf(ms) + (match m case Some(k) => {k} case None => {})
  {
    assert (ms + [m])[..|ms|] == ms;
  }

  /** One round of the marker scan: the key line i marks, if any. */
  method MarkOf(lines: seq<string>, i: nat) returns (m: Option<string>)
    requires i < |lines|
    ensures m == MarkerKey(lines, i)
  {
    if !IsOpencodeMarker(lines[i]) {
      return None;
    }
    var j := SkipToContent(lines, i + 1);
    if j >= |lines| {
      return None;
    }
    m := KeyOf(lines[j]);
  }

  /** The marker scan of render_opencode_config. */
  method ScanWorkOnlyKeys(lines: seq<string>) returns (keys: set<string>)
    ensures keys == WorkOnlyKeys(lines)
  {
    keys := {};
    ghost var marks: seq<Option<string>> := [];
    for i := 0 to |lines|
      invariant marks == Marks(lines)[..i]
      invariant keys == KeysOf(marks)
    {
      var m := MarkOf(lines, i);
      KeysOfSnoc(marks, m);
      TakeSnoc(Marks(lines), i);
      marks := marks + [m];
      if m.Some? {
        keys := keys + {m.value};
      }
    }
    assert Marks(lines)[..|lines|] == Marks(lines);
  }

  /** A marker on line i marks key k exactly when some later line opens k
      and every line in between is blank or a comment. */
  lemma MarkerKeyIff(lines: seq<string>, i: nat, k: string)
    requires i < |lines|
    ensures MarkerKey(lines, i) == Some(k) <==>
      && IsOpencodeMarker(lines[i])
      && exists j :: i < j < |lines| && KeyOf(lines[j]) == Some(k)
                     && forall m :: i < m < j ==> IsSkippable(lines[m])
  {
    if IsOpencodeMarker(lines[i]) {
      var r := NextContent(lines, i + 1);
      forall j | i < j < |lines| && KeyOf(lines[j]) == Some(k) && forall m :: i < m < j ==> IsSkippable(lines[m])
        ensures j == r
      {
        assert !IsSkippable(lines[j]) by {
          LStripSpec(lines[j]);
          assert LStrip(lines[j])[0] == '"';
          StripLeadingQuote(lines[j]);
        }
      }
    }
  }

  lemma StripLeadingQuote(line: string)
    requires LStrip(line) != [] && LStrip(line)[0] == '"'
    ensures Strip(line) != [] && !StartsWith(LStrip(line), "//")
  {
    RStripSpec(LStrip(line));
  }

  lemma {:induction false} KeysOfIff(ms: seq<Option<string>>, k: string)
    ensures k in KeysOf(ms) <==> exists i :: 0 <= i < |ms| && ms[i] == Some(k)
    decreases |ms|
  {
    if ms != [] {
      var init := ms[..|ms| - 1];
      KeysOfIff(init, k);
      if k in KeysOf(ms) && k !in KeysOf(init) {
        assert ms[|ms| - 1] == Some(k);
      }
      if exists i :: 0 <= i < |ms| && ms[i] == Some(k) {
        var i :| 0 <= i < |ms| && ms[i] == Some(k);
        if i < |ms| - 1 {
          assert init[i] == Some(k);
        }
      }
    }
  }

  /** A key is work-only exactly when some marker marks it; such keys are
      non-empty and hold no quote. */
  lemma WorkOnlyKeysIff(lines: seq<string>, k: string)
    ensures k in WorkOnlyKeys(lines) <==> exists i :: 0 <= i < |lines| && MarkerKey(lines, i) == Some(k)
    ensures k in WorkOnlyKeys(lines) ==> k != [] && '"' !in k
  {
    KeysOfIff(Marks(lines), k);
    if k in WorkOnlyKeys(lines) {
      var i :| 0 <= i < |lines| && Marks(lines)[i] == Some(k);
      assert MarkerKey(lines, i) == Some(k);
    }
  }

  // ---------------------------------------------------------------------
  // Filtering "mcp"

  /** The "mcp" value the filter starts from: the member if it is truthy,
      otherwise an empty object. */
  function McpOf(ms: seq<(string, Json)>): Json {
    var cur := Get(ms, "mcp");
    if cur.Some? && Truthy(cur.value) then cur.value else JObject([])
  }

  /** What the filter does to the decoded data. */
  function Filtered(isWork: bool, data: Json, keys: set<string>): Result<Json, RenderError> {
    if isWork then Ok(data)
    else if !data.JObject? then Err(DataNotObject)
    else
      var mcp := McpOf(data.members);
      if !mcp.JObject? then Err(McpNotObject)
      else Ok(JObject(Put(data.members, "mcp", JObject(WithoutKeys(mcp.members, keys)))))
  }

  /** The filter of render_opencode_config: delete every work-only key of
      "mcp", walking a snapshot of its keys, and store "mcp" back. */
  method FilterMcp(isWork: bool, data: Json, keys: set<string>) returns (r: Result<Json, RenderError>)
    ensures r == Filtered(isWork, data, keys)
  {
    if isWork {
      return Ok(data);
    }
    if !data.JObject? {
      return Err(DataNotObject);
    }
    var cur := Get(data.members, "mcp");
    var mcp := if cur.Some? && Truthy(cur.value) then cur.value else JObject([]);
    if !mcp.JObject? {
      return Err(McpNotObject);
    }
    var members := DeleteKeys(mcp.members, keys);
    r := Ok(JObject(Put(data.members, "mcp", JObject(members))));
  }

  /** The del loop of the filter: walking a snapshot of the keys, every
      key in the given set is deleted. */
  method DeleteKeys(ms: seq<(string, Json)>, keys: set<string>) returns (members: seq<(string, Json)>)
    ensures members == WithoutKeys(ms, keys)
  {
    members := ms;
    var snapshot := Keys(ms);
    ghost var removed: set<string> := {};
    NoKeysRemoved(ms);
    for n := 0 to |snapshot|
      invariant members == WithoutKeys(ms, removed)
      invariant removed <= keys
      invariant forall k :: 0 <= k < n && snapshot[k] in keys ==> snapshot[k] in removed
    {
      var key := snapshot[n];
      if key in keys {
        WithoutKeysTwice(ms, removed, {key});
        members := Delete(members, key);
        removed := removed + {key};
      }
    }
    WithoutKeysSame(ms, removed, keys);
  }

  /** Outside work mode the filter fails exactly when the data is not an
      object, or its "mcp" member is truthy and not an object. */
  lemma FilteredFails(data: Json, keys: set<string>)
    ensures Filtered(false, data, keys).Err? <==>
      !data.JObject? || (Get(data.members, "mcp").Some? && Truthy(Get(data.members, "mcp").value)
                         && !Get(data.members, "mcp").value.JObject?)
  {
  }

  /** In work mode nothing is filtered. */
  lemma FilteredWork(data: Json, keys: set<string>)
    ensures Filtered(true, data, keys) == Ok(data)
  {
  }

  /** Outside work mode the new "mcp" holds exactly the old members whose
      key is not work-only, in their order; every other top-level key
      keeps its value, and the top-level key order is kept ("mcp" goes
      last when it was missing). */
  lemma FilteredSpec(data: Json, keys: set<string>, out: Json)
    requires Filtered(false, data, keys) == Ok(out)
    ensures out.JObject? && Get(out.members, "mcp").Some?
    ensures var mcp := Get(out.members, "mcp").value;
      && mcp.JObject?
      && (forall m :: m in mcp.members <==> m in McpOf(data.members).members && m.0 !in keys)
      && IsSubseq(mcp.members, McpOf(data.members).members)
      && (forall k :: Get(mcp.members, k) == if k in keys then None else Get(McpOf(data.members).members, k))
    ensures forall k :: k != "mcp" ==> Get(out.members, k) == Get(data.members, k)
    ensures Keys(out.members) == if "mcp" in Keys(data.members) then Keys(data.members) else Keys(data.members) + ["mcp"]
  {
    var ms := McpOf(data.members).members;
    PutSpec(data.members, "mcp", JObject(WithoutKeys(ms, keys)));
    WithoutKeysMembers(ms, keys);
    forall k
      ensures Get(WithoutKeys(ms, keys), k) == if k in keys then None else Get(ms, k)
    {
      GetWithoutKeys(ms, keys, k);
    }
  }

  /** Keys that no member has change nothing but the normalisation of a
      falsy "mcp" to an empty object. */
  lemma FilteredNoMatch(data: Json, keys: set<string>)
    requires data.JObject? && McpOf(data.members).JObject?
    requires forall k :: 0 <= k < |McpOf(data.members).members| ==> McpOf(data.members).members[k].0 !in keys
    ensures Filtered(false, data, keys) == Ok(JObject(Put(data.members, "mcp", McpOf(data.members))))
  {
    var ms := McpOf(data.members).members;
    WithoutKeysSame(ms, keys, {});
    NoKeysRemoved(ms);
  }

  lemma {:induction false} NoKeysRemoved(ms: seq<(string, Json)>)
    ensures WithoutKeys(ms, {}) == ms
    decreases |ms|
  {
    if ms != [] {
      NoKeysRemoved(ms[..|ms| - 1]);
      assert ms == ms[..|ms| - 1] + [ms[|ms| - 1]];
    }
  }

  /** An object stored as "mcp" is what the filter starts from next
      time. */
  lemma McpOfPut(ms: seq<(string, Json)>, w: seq<(string, Json)>)
    ensures McpOf(Put(ms, "mcp", JObject(w))) == JObject(w)
  {
    PutGet(ms, "mcp", JObject(w));
  }

  /** Filtering output again changes nothing. */
  lemma FilteredIdempotent(data: Json, keys: set<string>, out: Json)
    requires Filtered(false, data, keys) == Ok(out)
    ensures Filtered(false, out, keys) == Ok(out)
  {
    var w := WithoutKeys(McpOf(data.members).members, keys);
    assert out == JObject(Put(data.members, "mcp", JObject(w)));
    McpOfPut(data.members, w);
    WithoutKeysIdempotent(McpOf(data.members).members, keys);
    PutTwice(data.members, "mcp", JObject(w));
  }

  // ---------------------------------------------------------------------
  // The whole renderer

  /** render_opencode_config on the text read from the file. */
  function OpencodeOutput(isWork: bool, text: string, decode: string -> Option<Json>, encode: Json -> string)
    : Result<string, RenderError>
  {
    match decode(RemoveCommas(StripComments(text)))
    case None => Err(InvalidJson)
    case Some(data) =>
      match Filtered(isWork, data, WorkOnlyKeys(LinesKeepEnds(text)))
      case Err(e) => Err(e)
      case Ok(d) => Ok(encode(d) + "\n")
  }

  /** render_opencode_config: `decode` stands for json.loads (None when it
      raises) and `encode` for json.dumps with an indent of 2. */
  method RenderOpencode(isWork: bool, text: string, decode: string -> Option<Json>, encode: Json -> string)
    returns (r: Result<string, RenderError>)
    ensures r == OpencodeOutput(isWork, text, decode, encode)
  {
    var lines := LinesKeepEnds(text);
    var keys := ScanWorkOnlyKeys(lines);
    var stripped := StripJsoncComments(text);
    var jsonText := RemoveTrailingCommas(stripped);
    var data := decode(jsonText);
    if data.None? {
      return Err(InvalidJson);
    }
    var filtered := FilterMcp(isWork, data.value, keys);
    if filtered.Err? {
      return Err(filtered.error);
    }
    r := Ok(encode(filtered.value) + "\n");
  }

  /** The output ends in a line feed, whatever the encoder prints. */
  lemma OpencodeOutputEnds(isWork: bool, text: string, decode: string -> Option<Json>, encode: Json -> string)
    requires OpencodeOutput(isWork, text, decode, encode).Ok?
    ensures var out := OpencodeOutput(isWork, text, decode, encode).value;
      out != [] && out[|out| - 1] == '\n'
  {
  }

  /** In work mode the output is the decoded clean text, encoded: the
      markers play no part. */
  lemma OpencodeWork(text: string, decode: string -> Option<Json>, encode: Json -> string)
    ensures OpencodeOutput(true, text, decode, encode)
         == match decode(RemoveCommas(StripComments(text)))
            case None => Err(InvalidJson)
            case Some(data) => Ok(encode(data) + "\n")
  {
  }
}
