/**
  Decoding and encoding of JSON-RPC requests (jsonrpcv2/types_json_extensions.go) and the glue
  that decodes, intercepts and re-encodes a payload (adapters/helpers_interceptor_glue.go).
*/
module Codec {
  import opened Common
  import opened Json
  import opened Interceptor
  import Store

  const VERSION := "2.0"
  const KNOWN_KEYS := {"jsonrpc", "id", "method", "params"}

  /** An object's members in the order of the text; a key may come more than once. */
  datatype Member = Member(key: string, value: Json)

  type Members = seq<Member>

  /** The object as a Go map: the last member of a key wins. */
  function AsMap(ms: Members): map<string, Json> {
    if ms == [] then map[]
    else AsMap(ms[..|ms| - 1])[ms[|ms| - 1].key := ms[|ms| - 1].value]
  }

  /** The i-th member is the last with its key. */
  ghost predicate IsLast(ms: Members, i: nat)
    requires i < |ms|
  {
    forall j :: i < j < |ms| ==> ms[j].key != ms[i].key
  }

  lemma {:induction false} LastMemberWins(ms: Members, i: nat)
    requires i < |ms| && IsLast(ms, i)
    ensures ms[i].key in AsMap(ms) && AsMap(ms)[ms[i].key] == ms[i].value
  {
    if i == |ms| - 1 {
    } else {
      var rest := ms[..|ms| - 1];
      assert forall j :: i < j < |rest| ==> rest[j] == ms[j];
      LastMemberWins(rest, i);
    }
  }

  lemma {:induction false} MapHasOnlyMembers(ms: Members, key: string) returns (i: nat)
    requires key in AsMap(ms)
    ensures i < |ms| && ms[i].key == key && IsLast(ms, i)
  {
    if ms[|ms| - 1].key == key {
      i := |ms| - 1;
    } else {
      i := MapHasOnlyMembers(ms[..|ms| - 1], key);
    }
  }

  // ---------------------------------------------------------------- decoding

  /** Simple case folding, as far as it can produce the letters of the four known keys. */
  function FoldChar(c: char): char {
    if 'A' <= c <= 'Z' then c - 'A' + 'a'
    else if c == '\U{017F}' then 's'
    else if c == '\U{212A}' then 'k'
    else c
  }

  function Fold(s: string): string {
    seq(|s|, i requires 0 <= i < |s| => FoldChar(s[i]))
  }

  /** The four struct fields; `bad` records a value that does not fit a string field. */
  datatype Fields = Fields(version: string, id: Json, rpcMethod: string, params: Json, bad: bool)

  /** `encoding/json` matches struct fields without regard to case; null leaves a string as it was. */
  function Assign(f: Fields, m: Member): Fields {
    match Fold(m.key)
    case "jsonrpc" =>
      (match m.value
       case Str(s) => f.(version := s)
       case Null => f
       case _ => f.(bad := true))
    case "method" =>
      (match m.value
       case Str(s) => f.(rpcMethod := s)
       case Null => f
       case _ => f.(bad := true))
    case "id" => f.(id := m.value)
    case "params" => f.(params := m.value)
    case _ => f
  }

  function DecodeFields(ms: Members): Fields {
    if ms == [] then Fields("", Null, "", Null, false)
    else Assign(DecodeFields(ms[..|ms| - 1]), ms[|ms| - 1])
  }

  function Decode(ms: Members): Result<Request> {
    var f := DecodeFields(ms);
    var all := AsMap(ms);
    if f.bad then Err(NotAnRpcRequest)
    else if f.version != VERSION then Err(WrongVersion)
    else Ok(Request(
              if "id" !in all && f.id == Null then Notification else Id(f.id),
              f.rpcMethod, f.params, all - KNOWN_KEYS))
  }

  method UnmarshalRequest(ms: Members) returns (r: Result<Request>)
    ensures r == Decode(ms)
  {
    var f := DecodeFields(ms);
    if f.bad {
      return Err(NotAnRpcRequest);
    }
    var all := AsMap(ms);
    if f.version != VERSION {
      return Err(WrongVersion);
    }
    var id := Id(f.id);
    if "id" !in all && f.id == Null {
      id := Notification;
    }
    all := all - {"jsonrpc"};
    all := all - {"id"};
    all := all - {"method"};
    all := all - {"params"};
    assert all == AsMap(ms) - KNOWN_KEYS;
    return Ok(Request(id, f.rpcMethod, f.params, all));
  }

  // ---------------------------------------------------------------- encoding

  function Encode(req: Request): map<string, Json> {
    (req.extra - KNOWN_KEYS)
    + (if req.id.Notification? then map[] else map["id" := req.id.value])
    + (if req.params == Null then map[] else map["params" := req.params])
    + map["method" := Str(req.rpcMethod), "jsonrpc" := Str(VERSION)]
  }

  /** The extra fields that do not bear a known name, copied in whatever order they come. */
  method CopyExtraFields(extra: map<string, Json>) returns (toEncode: map<string, Json>)
    ensures toEncode == extra - KNOWN_KEYS
  {
    toEncode := map[];
    var todo := extra.Keys;
    while todo != {}
      invariant todo <= extra.Keys
      invariant toEncode == map k | k in extra && k !in todo && k !in KNOWN_KEYS :: extra[k]
      decreases |todo|
    {
      var k :| k in todo;
      todo := todo - {k};
      if k == "id" || k == "params" || k == "jsonrpc" || k == "method" {
        continue;
      }
      toEncode := toEncode[k := extra[k]];
    }
  }

  method MarshalRequest(req: Request) returns (toEncode: map<string, Json>)
    ensures toEncode == Encode(req)
  {
    toEncode := CopyExtraFields(req.extra);
    if !req.id.Notification? {
      toEncode := toEncode["id" := req.id.value];
    }
    toEncode := toEncode["method" := Str(req.rpcMethod)];
    if req.params != Null {
      toEncode := toEncode["params" := req.params];
    }
    toEncode := toEncode["jsonrpc" := Str(VERSION)];
  }

  // ---------------------------------------------------------------- which members the fields come from

  /** The value of the last member whose key is the name in whatever letters, or null. */
  function LastValue(ms: Members, name: string): Json {
    if ms == [] then Null
    else if Fold(ms[|ms| - 1].key) == name then ms[|ms| - 1].value
    else LastValue(ms[..|ms| - 1], name)
  }

  /** The last string among the values of such members, or the empty string. */
  function LastString(ms: Members, name: string): string {
    if ms == [] then ""
    else if Fold(ms[|ms| - 1].key) == name && ms[|ms| - 1].value.Str? then ms[|ms| - 1].value.s
    else LastString(ms[..|ms| - 1], name)
  }

  lemma {:induction false} LastValueIs(ms: Members, name: string, i: nat)
    requires i < |ms| && Fold(ms[i].key) == name && forall j :: i < j < |ms| ==> Fold(ms[j].key) != name
    ensures LastValue(ms, name) == ms[i].value
    ensures ms[i].value.Str? ==> LastString(ms, name) == ms[i].value.s
  {
    if i == |ms| - 1 {
    } else {
      var rest := ms[..|ms| - 1];
      assert forall j :: i < j < |rest| ==> rest[j] == ms[j];
      LastValueIs(rest, name, i);
    }
  }

  lemma {:induction false} NoValueIsNull(ms: Members, name: string)
    requires forall i :: 0 <= i < |ms| ==> Fold(ms[i].key) != name
    ensures LastValue(ms, name) == Null && LastString(ms, name) == ""
  {
    if ms == [] {
    } else {
      var rest := ms[..|ms| - 1];
      assert forall j :: 0 <= j < |rest| ==> rest[j] == ms[j];
      NoValueIsNull(rest, name);
    }
  }

  /** Version and method, in whatever letters, are strings or null. */
  ghost predicate StringsFit(ms: Members) {
    forall i :: 0 <= i < |ms| && Fold(ms[i].key) in {"jsonrpc", "method"} ==> ms[i].value.Str? || ms[i].value.Null?
  }

  lemma StringsFitStep(ms: Members)
    requires ms != []
    ensures var last := ms[|ms| - 1];
            StringsFit(ms) <==>
              && StringsFit(ms[..|ms| - 1])
              && (Fold(last.key) in {"jsonrpc", "method"} ==> last.value.Str? || last.value.Null?)
  {
  }

  /** The decoded fields, whatever keys the object has and however often. */
  lemma {:induction false} FieldsByFolding(ms: Members)
    ensures DecodeFields(ms) ==
            Fields(LastString(ms, "jsonrpc"), LastValue(ms, "id"), LastString(ms, "method"), LastValue(ms, "params"),
                   !StringsFit(ms))
  {
    if ms == [] {
    } else {
      FieldsByFolding(ms[..|ms| - 1]);
      StringsFitStep(ms);
    }
  }

  /** A request decodes exactly when its version and method fit and the last version is "2.0". */
  lemma DecodesIff(ms: Members)
    ensures Decode(ms).Ok? <==> StringsFit(ms) && LastString(ms, "jsonrpc") == VERSION
    ensures Decode(ms).Ok? ==>
              && Decode(ms).value.rpcMethod == LastString(ms, "method")
              && Decode(ms).value.params == LastValue(ms, "params")
              && (Decode(ms).value.id == Notification <==> "id" !in AsMap(ms) && LastValue(ms, "id") == Null)
              && (Decode(ms).value.id.Id? ==> Decode(ms).value.id.value == LastValue(ms, "id"))
  {
    FieldsByFolding(ms);
  }

  // ---------------------------------------------------------------- decode, intercept, encode

  function WithParams(all: map<string, Json>, params: Json): map<string, Json> {
    if "params" in all then all["params" := params] else all
  }

  /**
    The version and the method under their exact keys are the decoded ones, the decoded id is the one
    under its exact key, and params are there under their exact key just when some were decoded.
  */
  predicate Faithful(ms: Members) {
    var all := AsMap(ms);
    && "jsonrpc" in all && all["jsonrpc"] == Str(VERSION)
    && "method" in all && all["method"] == Str(LastString(ms, "method"))
    && LastValue(ms, "id") == (if "id" in all then all["id"] else Null)
    && ("params" in all <==> LastValue(ms, "params") != Null)
  }

  /**
    Decoding and re-encoding with params p in place of the decoded ones gives the object back,
    with only its params replaced, exactly when the object is faithful.
  */
  lemma ReEncodesIff(ms: Members, p: Json)
    requires Decode(ms).Ok? && (p == Null <==> LastValue(ms, "params") == Null)
    ensures Encode(Decode(ms).value.(params := p)) == WithParams(AsMap(ms), p) <==> Faithful(ms)
  {
    FieldsByFolding(ms);
    var all := AsMap(ms);
    var out := Encode(Decode(ms).value.(params := p));
    var want := WithParams(all, p);
    assert out["method"] == Str(LastString(ms, "method")) && out["jsonrpc"] == Str(VERSION);
    if Faithful(ms) {
      assert out.Keys == want.Keys;
      forall k | k in want ensures out[k] == want[k] {
      }
      assert out == want;
    }
  }

  /** No key is a known one in other letters ("ID", "Params"). */
  ghost predicate NoVariants(ms: Members) {
    forall i :: 0 <= i < |ms| && Fold(ms[i].key) in KNOWN_KEYS ==> ms[i].key in KNOWN_KEYS
  }

  ghost predicate UniqueKeys(ms: Members) {
    forall i, j :: 0 <= i < j < |ms| ==> ms[i].key != ms[j].key
  }

  /** Version "2.0", a string method, and params that are not null if there are any. */
  predicate Standard(all: map<string, Json>) {
    && "jsonrpc" in all && all["jsonrpc"] == Str(VERSION)
    && "method" in all && all["method"].Str?
    && ("params" in all ==> all["params"] != Null)
  }

  lemma KnownKeysFoldToThemselves(key: string)
    requires key in KNOWN_KEYS
    ensures Fold(key) == key
  {
  }

  /** Without case variants only a name's own key counts. */
  lemma {:induction false} LastIsExact(ms: Members, name: string)
    requires NoVariants(ms) && name in KNOWN_KEYS
    ensures LastValue(ms, name) == (if name in AsMap(ms) then AsMap(ms)[name] else Null)
    ensures name !in AsMap(ms) ==> LastString(ms, name) == ""
    ensures name in AsMap(ms) && AsMap(ms)[name].Str? ==> LastString(ms, name) == AsMap(ms)[name].s
  {
    if ms == [] {
    } else {
      var key := ms[|ms| - 1].key;
      LastIsExact(ms[..|ms| - 1], name);
      assert Fold(key) == name <==> key == name by {
        KnownKeysFoldToThemselves(name);
        if Fold(key) == name {
          KnownKeysFoldToThemselves(key);
        }
      }
    }
  }

  /** So a field holds the last member of exactly its own key. */
  lemma FieldsAreLastMembers(ms: Members)
    requires NoVariants(ms)
    ensures var f, all := DecodeFields(ms), AsMap(ms);
            && f.id == (if "id" in all then all["id"] else Null)
            && f.params == (if "params" in all then all["params"] else Null)
            && ("method" !in all ==> f.rpcMethod == "")
            && ("method" in all && all["method"].Str? ==> f.rpcMethod == all["method"].s)
            && ("jsonrpc" in all && all["jsonrpc"].Str? ==> f.version == all["jsonrpc"].s)
  {
    FieldsByFolding(ms);
    LastIsExact(ms, "id");
    LastIsExact(ms, "params");
    LastIsExact(ms, "method");
    LastIsExact(ms, "jsonrpc");
  }

  /** Without case variants the condition is on the object as a map. */
  lemma FaithfulIffStandard(ms: Members)
    requires NoVariants(ms) && Decode(ms).Ok?
    ensures Faithful(ms) <==> Standard(AsMap(ms))
  {
    FieldsAreLastMembers(ms);
    FieldsByFolding(ms);
  }

  lemma ReEncodesIffStandard(ms: Members, p: Json)
    requires NoVariants(ms) && Decode(ms).Ok?
    requires p == Null <==> Decode(ms).value.params == Null
    ensures Encode(Decode(ms).value.(params := p)) == WithParams(AsMap(ms), p) <==> Standard(AsMap(ms))
  {
    FieldsByFolding(ms);
    FaithfulIffStandard(ms);
    ReEncodesIff(ms, p);
  }

  lemma DecodesStepByStep(a: Member, b: Member, c: Member)
    ensures DecodeFields([a, b, c]) == Assign(Assign(Assign(Fields("", Null, "", Null, false), a), b), c)
    ensures AsMap([a, b, c]) == map[a.key := a.value, b.key := b.value, c.key := c.value]
  {
    assert [a][..0] == [] && [a, b][..1] == [a] && [a, b, c][..2] == [a, b];
    assert DecodeFields([a]) == Assign(Fields("", Null, "", Null, false), a);
    assert DecodeFields([a, b]) == Assign(DecodeFields([a]), b);
    assert AsMap([a]) == map[a.key := a.value];
    assert AsMap([a, b]) == AsMap([a])[b.key := b.value];
  }

  /** An explicit null params does not survive decoding and re-encoding. */
  lemma NullParamsAreDropped()
    ensures var ms := [Member("jsonrpc", Str(VERSION)), Member("method", Str("m")), Member("params", Null)];
            Decode(ms).Ok? && "params" in AsMap(ms) && "params" !in Encode(Decode(ms).value)
  {
    DecodesStepByStep(Member("jsonrpc", Str(VERSION)), Member("method", Str("m")), Member("params", Null));
    assert Fold("jsonrpc") == "jsonrpc" && Fold("method") == "method" && Fold("params") == "params";
  }

  /** A key that is "id" in other letters makes a notification come out with an id. */
  lemma VariantKeyAddsAnId()
    ensures var ms := [Member("jsonrpc", Str(VERSION)), Member("method", Str("m")), Member("ID", Num("1"))];
            Decode(ms).Ok? && "id" !in AsMap(ms) && "id" in Encode(Decode(ms).value)
  {
    DecodesStepByStep(Member("jsonrpc", Str(VERSION)), Member("method", Str("m")), Member("ID", Num("1")));
    assert Fold("jsonrpc") == "jsonrpc" && Fold("method") == "method" && Fold("ID") == "id";
  }

  lemma {:induction false} MembersAreInMap(ms: Members, i: nat)
    requires UniqueKeys(ms) && i < |ms|
    ensures ms[i].key in AsMap(ms) && AsMap(ms)[ms[i].key] == ms[i].value
  {
    if i == |ms| - 1 {
    } else {
      MembersAreInMap(ms[..|ms| - 1], i);
    }
  }

  /** A request object the proxy forwards transparently: what decodes is what stands under the exact keys. */
  ghost predicate WellFormed(ms: Members) {
    && Decode(ms).Ok? && Faithful(ms)
    && ("params" in AsMap(ms) ==> AsMap(ms)["params"] == LastValue(ms, "params"))
  }

  /** Without case variants a standard object that decodes is well-formed, repeated keys or not. */
  lemma StandardIsWellFormed(ms: Members)
    requires NoVariants(ms) && Standard(AsMap(ms)) && Decode(ms).Ok?
    ensures WellFormed(ms)
  {
    FieldsAreLastMembers(ms);
    FieldsByFolding(ms);
    FaithfulIffStandard(ms);
  }

  /** And without repeated keys either it does decode. */
  lemma WellFormedDecodes(ms: Members)
    requires NoVariants(ms) && UniqueKeys(ms) && Standard(AsMap(ms))
    ensures Decode(ms).Ok? && WellFormed(ms)
    ensures Decode(ms).value.params == (if "params" in AsMap(ms) then AsMap(ms)["params"] else Null)
    ensures Decode(ms).value.id == (if "id" in AsMap(ms) then Id(AsMap(ms)["id"]) else Notification)
  {
    forall i | 0 <= i < |ms| && Fold(ms[i].key) in {"jsonrpc", "method"} ensures ms[i].value.Str? {
      MembersAreInMap(ms, i);
      KnownKeysFoldToThemselves(ms[i].key);
    }
    FieldsByFolding(ms);
    FieldsAreLastMembers(ms);
    StandardIsWellFormed(ms);
  }

  /** What an encoded request says about itself. */
  ghost predicate Presents(all: map<string, Json>, req: Request) {
    && Standard(all) && all["method"] == Str(req.rpcMethod)
    && req.id == (if "id" in all then Id(all["id"]) else Notification)
    && req.params == (if "params" in all then all["params"] else Null)
    && req.extra == all - KNOWN_KEYS
  }

  lemma EncodedPresents(req: Request)
    requires req.extra.Keys !! KNOWN_KEYS
    ensures Presents(Encode(req), req)
  {
  }

  lemma DecodedPresents(ms: Members, req: Request)
    requires NoVariants(ms) && UniqueKeys(ms) && Presents(AsMap(ms), req)
    ensures Decode(ms) == Ok(req)
  {
    WellFormedDecodes(ms);
    FieldsAreLastMembers(ms);
  }

  /**
    The other direction.  Decoding an encoded request gives it back exactly when the last values that
    the four known keys have, in whatever letters, are the request's own.
  */
  lemma DecodeInvertsEncodeIff(req: Request, ms: Members)
    requires req.extra.Keys !! KNOWN_KEYS && AsMap(ms) == Encode(req)
    ensures Decode(ms) == Ok(req) <==>
              && StringsFit(ms) && LastString(ms, "jsonrpc") == VERSION && LastString(ms, "method") == req.rpcMethod
              && LastValue(ms, "params") == req.params
              && LastValue(ms, "id") == (if req.id.Notification? then Null else req.id.value)
  {
    EncodedPresents(req);
    DecodesIff(ms);
  }

  /** So it does if no extra field is a known key in other letters, in any order of the members. */
  lemma DecodeInvertsEncode(req: Request, ms: Members)
    requires req.extra.Keys !! KNOWN_KEYS
    requires NoVariants(ms) && UniqueKeys(ms) && AsMap(ms) == Encode(req)
    ensures Decode(ms) == Ok(req)
  {
    EncodedPresents(req);
    DecodedPresents(ms, req);
  }

  // ---------------------------------------------------------------- payloads

  /** A payload after trimming and parsing; a batch element that is no object is None. */
  datatype Payload =
    | Blank
    | Malformed
    | One(members: Members)
    | Many(elements: seq<Option<Members>>)

  datatype Output = OneOut(body: map<string, Json>) | ManyOut(objects: seq<map<string, Json>>)

  function DecodeAll(elements: seq<Option<Members>>): Result<seq<Request>> {
    if elements == [] then Ok([])
    else
      var head := if elements[0].None? then Err(NotAnRpcRequest) else Decode(elements[0].value);
      var tail := DecodeAll(elements[1..]);
      if head.Err? then Err(head.error)
      else if tail.Err? then tail
      else Ok([head.value] + tail.value)
  }

  function EncodeAll(reqs: seq<Request>): seq<map<string, Json>> {
    seq(|reqs|, i requires 0 <= i < |reqs| => Encode(reqs[i]))
  }

  /** `PerformRequestIntercept`: dispatch on the kind of payload, then decode, intercept, encode. */
  function PerformRequestIntercept(p: Payload, tag: string, maxBatch: int, state: Store.State): Result<Output> {
    match p
    case Blank => Err(NotAnRpcRequest)
    case Malformed => Err(NotAnRpcRequest)
    case One(ms) =>
      var req := Decode(ms);
      if req.Err? then Err(req.error)
      else
        var next := Intercepted(req.value, tag, state);
        if next.Err? then Err(next.error) else Ok(OneOut(Encode(next.value)))
    case Many(elements) =>
      var reqs := DecodeAll(elements);
      if reqs.Err? then Err(reqs.error)
      else
        var next := InterceptedBatch(reqs.value, tag, maxBatch, state);
        if next.Err? then Err(next.error) else Ok(ManyOut(EncodeAll(next.value)))
  }

  /** What should reach the full node: the object itself, with the tag replaced in its params. */
  function Forwarded(all: map<string, Json>, tag: string, state: Store.State): map<string, Json> {
    if Store.Known(state) && "params" in all
    then all["params" := Subst(all["params"], tag, Hex(state.l2))]
    else all
  }

  /** Some node of the object's params is deeper than the interceptor allows. */
  predicate ParamsTooDeep(all: map<string, Json>) {
    "params" in all && DeeperThan(all["params"], MAX_JSON_DEPTH)
  }

  /** The params that were decoded come out as those under the exact key would. */
  predicate SameParams(ms: Members, tag: string, state: Store.State) {
    "params" in AsMap(ms) ==>
      var exact, decoded := AsMap(ms)["params"], LastValue(ms, "params");
      if Store.Known(state)
      then Subst(decoded, tag, Hex(state.l2)) == Subst(exact, tag, Hex(state.l2))
      else decoded == exact
  }

  lemma {:induction false} ForwardedIs(ms: Members, tag: string, state: Store.State, p: Json)
    requires Decode(ms).Ok?
    requires var decoded := LastValue(ms, "params");
             p == if Store.Known(state) then Subst(decoded, tag, Hex(state.l2)) else decoded
    ensures Encode(Decode(ms).value.(params := p)) == Forwarded(AsMap(ms), tag, state) <==>
            Faithful(ms) && SameParams(ms, tag, state)
  {
    var all := AsMap(ms);
    FieldsByFolding(ms);
    ReEncodesIff(ms, p);
    var out := Encode(Decode(ms).value.(params := p));
    if out == Forwarded(all, tag, state) {
      assert "params" in all ==> "params" in out && out["params"] == p;
      assert out == WithParams(all, p);
    }
    if Faithful(ms) && SameParams(ms, tag, state) {
      assert WithParams(all, p) == Forwarded(all, tag, state);
    }
  }

  /**
    Which requests pass unchanged but for the tag in their params, over every object that decodes: it is
    refused exactly when the number is known and the decoded params are too deep; otherwise the full
    node gets the object itself, with its params substituted, exactly when the object is faithful and
    its params under the exact key are the decoded ones or come out the same.
  */
  lemma {:induction false} SingleRequestIsTransparentIff(ms: Members, tag: string, maxBatch: int, state: Store.State)
    requires Decode(ms).Ok?
    ensures var r := PerformRequestIntercept(One(ms), tag, maxBatch, state);
            && (r.Err? <==> Store.Known(state) && DeeperThan(LastValue(ms, "params"), MAX_JSON_DEPTH))
            && (r.Ok? ==>
                  (r.value == OneOut(Forwarded(AsMap(ms), tag, state)) <==> Faithful(ms) && SameParams(ms, tag, state)))
  {
    FieldsByFolding(ms);
    var req := Decode(ms).value;
    var p := if Store.Known(state) then Subst(req.params, tag, Hex(state.l2)) else req.params;
    ForwardedIs(ms, tag, state, p);
    assert req.(params := req.params) == req;
  }

  lemma RequestIsForwarded(ms: Members, tag: string, state: Store.State)
    requires WellFormed(ms)
    ensures RequestTooDeep(Decode(ms).value) <==> ParamsTooDeep(AsMap(ms))
    ensures !Store.Known(state) ==> Encode(Decode(ms).value) == Forwarded(AsMap(ms), tag, state)
    ensures Store.Known(state) ==>
              Encode(Substituted(Decode(ms).value, tag, state.l2)) == Forwarded(AsMap(ms), tag, state)
  {
    FieldsByFolding(ms);
    var req := Decode(ms).value;
    assert req.(params := req.params) == req;
    ForwardedIs(ms, tag, state, if Store.Known(state) then Subst(req.params, tag, Hex(state.l2)) else req.params);
  }

  /**
    A well-formed request reaches the full node as it came, with only its params substituted;
    absent and null ids stay apart because the whole object is kept.  It is refused only when the
    number is known and the params are too deep.
  */
  lemma SingleRequestIsTransparent(ms: Members, tag: string, maxBatch: int, state: Store.State)
    requires WellFormed(ms)
    ensures PerformRequestIntercept(One(ms), tag, maxBatch, state) ==
            if Store.Known(state) && ParamsTooDeep(AsMap(ms)) then Err(TooDeep)
            else Ok(OneOut(Forwarded(AsMap(ms), tag, state)))
  {
    RequestIsForwarded(ms, tag, state);
  }

  lemma {:induction false} DecodeAllElementwise(elements: seq<Option<Members>>)
    requires forall i :: 0 <= i < |elements| ==> elements[i].Some? && Decode(elements[i].value).Ok?
    ensures var r := DecodeAll(elements);
            r.Ok? && |r.value| == |elements| &&
            forall i :: 0 <= i < |elements| ==> r.value[i] == Decode(elements[i].value).value
  {
    if elements == [] {
    } else {
      DecodeAllElementwise(elements[1..]);
    }
  }

  /** A batch of well-formed requests is forwarded element by element with one number, or refused whole. */
  lemma BatchIsTransparent(elements: seq<Option<Members>>, tag: string, maxBatch: int, state: Store.State)
    requires forall i :: 0 <= i < |elements| ==> elements[i].Some? && WellFormed(elements[i].value)
    ensures var r := PerformRequestIntercept(Many(elements), tag, maxBatch, state);
            && (r == Err(BatchTooLarge) <==> |elements| > maxBatch)
            && (r.Err? <==>
                  || |elements| > maxBatch
                  || (Store.Known(state) && exists i :: 0 <= i < |elements| && ParamsTooDeep(AsMap(elements[i].value))))
            && (r.Ok? ==>
                  && r.value.ManyOut? && |r.value.objects| == |elements|
                  && forall i :: 0 <= i < |elements| ==>
                       r.value.objects[i] == Forwarded(AsMap(elements[i].value), tag, state))
  {
    forall i | 0 <= i < |elements|
      ensures Decode(elements[i].value).Ok?
      ensures RequestTooDeep(Decode(elements[i].value).value) <==> ParamsTooDeep(AsMap(elements[i].value))
      ensures !Store.Known(state) ==>
                Encode(Decode(elements[i].value).value) == Forwarded(AsMap(elements[i].value), tag, state)
      ensures Store.Known(state) ==>
                Encode(Substituted(Decode(elements[i].value).value, tag, state.l2)) ==
                Forwarded(AsMap(elements[i].value), tag, state)
    {
      RequestIsForwarded(elements[i].value, tag, state);
    }
    DecodeAllElementwise(elements);
  }

  /** One element that does not decode refuses the whole batch. */
  lemma {:induction false} OneBadElementRefusesTheBatch(elements: seq<Option<Members>>, i: nat)
    requires i < |elements| && (elements[i].None? || Decode(elements[i].value).Err?)
    ensures DecodeAll(elements).Err?
    ensures forall tag, maxBatch, state :: PerformRequestIntercept(Many(elements), tag, maxBatch, state).Err?
  {
    if i == 0 {
    } else {
      OneBadElementRefusesTheBatch(elements[1..], i - 1);
    }
  }
}
