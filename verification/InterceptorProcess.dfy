/**
  The tag interceptor (proxy/interceptor.go) on decoded JSON as it lies in memory, where slices and
  maps are shared by reference: a lazily copying tree rewrite, applied to one request or to a batch.
  No method here changes an object it was given: the two that write are only handed copies.
*/
module InterceptorProcess {
  import opened Json
  import opened Interceptor
  import Store

  /** A Go value of type any; slices and maps are references. */
  datatype Ref = Scalar(value: Json) | Slice(cells: Cells) | Table(fields: Fields)

  /** A []any. */
  class Cells {
    var elems: seq<Ref>

    constructor (elems: seq<Ref>)
      ensures this.elems == elems
    {
      this.elems := elems;
    }
  }

  /** A map[string]any. */
  class Fields {
    var entries: map<string, Ref>

    constructor (entries: map<string, Ref>)
      ensures this.entries == entries
    {
      this.entries := entries;
    }
  }

  /** The value at r is j, and everything it consists of lies in `heap`. */
  ghost predicate Holds(r: Ref, j: Json, heap: set<object>)
    reads heap
    decreases j
  {
    match r
    case Scalar(value) => value == j && !j.Arr? && !j.Obj?
    case Slice(cells) =>
      && j.Arr? && cells in heap && |cells.elems| == |j.items|
      && forall i :: 0 <= i < |j.items| ==> Holds(cells.elems[i], j.items[i], heap)
    case Table(fields) =>
      && j.Obj? && fields in heap && fields.entries.Keys == j.fields.Keys
      && forall k :: k in j.fields ==> Holds(fields.entries[k], j.fields[k], heap)
  }

  ghost predicate AllHold(refs: seq<Ref>, js: seq<Json>, heap: set<object>)
    reads heap
  {
    |refs| == |js| && forall i :: 0 <= i < |js| ==> Holds(refs[i], js[i], heap)
  }

  ghost predicate FieldsHold(refs: map<string, Ref>, js: map<string, Json>, heap: set<object>)
    reads heap
  {
    refs.Keys == js.Keys && forall k :: k in js ==> Holds(refs[k], js[k], heap)
  }

  lemma {:induction false} HoldsInMore(r: Ref, j: Json, heap: set<object>, more: set<object>)
    requires Holds(r, j, heap) && heap <= more
    ensures Holds(r, j, more)
    decreases j
  {
    match r
    case Scalar(_) =>
    case Slice(cells) =>
      forall i | 0 <= i < |j.items| ensures Holds(cells.elems[i], j.items[i], more) {
        HoldsInMore(cells.elems[i], j.items[i], heap, more);
      }
    case Table(fields) =>
      forall k | k in j.fields ensures Holds(fields.entries[k], j.fields[k], more) {
        HoldsInMore(fields.entries[k], j.fields[k], heap, more);
      }
  }

  lemma {:induction false} AllHoldInMore(refs: seq<Ref>, js: seq<Json>, heap: set<object>, more: set<object>)
    requires AllHold(refs, js, heap) && heap <= more
    ensures AllHold(refs, js, more)
  {
    forall i | 0 <= i < |js| ensures Holds(refs[i], js[i], more) {
      HoldsInMore(refs[i], js[i], heap, more);
    }
  }

  lemma {:induction false} FieldsHoldInMore(
      refs: map<string, Ref>, js: map<string, Json>, heap: set<object>, more: set<object>)
    requires FieldsHold(refs, js, heap) && heap <= more
    ensures FieldsHold(refs, js, more)
  {
    forall k | k in js ensures Holds(refs[k], js[k], more) {
      HoldsInMore(refs[k], js[k], heap, more);
    }
  }

  // ---------------------------------------------------------------- the values along a walk

  /** The first i elements are shallow enough, `vals` are their substituted values, `found` if one had the tag. */
  ghost predicate Walked(items: seq<Json>, i: nat, vals: seq<Json>, found: bool, tag: string, hex: string, limit: nat) {
    && |vals| == i <= |items|
    && (found <==> exists n :: 0 <= n < i && HasTag(items[n], tag))
    && (!found ==> vals == items[..i])
    && forall n :: 0 <= n < i ==> !DeeperThan(items[n], limit - 1) && vals[n] == Subst(items[n], tag, hex)
  }

  lemma {:induction false} WalkOn(
      items: seq<Json>, i: nat, vals: seq<Json>, found: bool, tag: string, hex: string, limit: nat)
    requires i < |items| && Walked(items, i, vals, found, tag, hex, limit) && !DeeperThan(items[i], limit - 1)
    ensures Walked(items, i + 1, vals + [Subst(items[i], tag, hex)], found || HasTag(items[i], tag), tag, hex, limit)
  {
    if !HasTag(items[i], tag) {
      SubstWithoutTag(items[i], tag, hex);
    }
  }

  lemma {:induction false} WalkEnds(j: Json, vals: seq<Json>, found: bool, tag: string, hex: string, limit: nat)
    requires j.Arr? && Walked(j.items, |j.items|, vals, found, tag, hex, limit)
    ensures Subst(j, tag, hex) == Arr(vals) && (HasTag(j, tag) <==> found) && !DeeperThan(j, limit)
    ensures !found ==> vals == j.items
  {
  }

  /** The same for an object whose keys in `todo` are still to come. */
  ghost predicate WalkedFields(
      fields: map<string, Json>, todo: set<string>, vals: map<string, Json>, found: bool, tag: string, hex: string,
      limit: nat)
  {
    && vals.Keys == fields.Keys - todo
    && (found <==> exists k :: k in vals && HasTag(fields[k], tag))
    && (!found ==> vals == fields - todo)
    && forall k :: k in vals ==> !DeeperThan(fields[k], limit - 1) && vals[k] == Subst(fields[k], tag, hex)
  }

  lemma {:induction false} WalkOnFields(
      fields: map<string, Json>, todo: set<string>, vals: map<string, Json>, found: bool, tag: string, hex: string,
      limit: nat, key: string)
    requires key in todo && key in fields && !DeeperThan(fields[key], limit - 1)
    requires WalkedFields(fields, todo, vals, found, tag, hex, limit)
    ensures WalkedFields(fields, todo - {key}, vals[key := Subst(fields[key], tag, hex)],
                         found || HasTag(fields[key], tag), tag, hex, limit)
  {
    var after := vals[key := Subst(fields[key], tag, hex)];
    assert key in after;
    if found {
      var k :| k in vals && HasTag(fields[k], tag);
      assert k in after;
    }
    if !HasTag(fields[key], tag) {
      SubstWithoutTag(fields[key], tag, hex);
    }
  }

  lemma {:induction false} WalkEndsFields(
      j: Json, todo: set<string>, vals: map<string, Json>, found: bool, tag: string, hex: string, limit: nat)
    requires j.Obj? && todo == {} && WalkedFields(j.fields, todo, vals, found, tag, hex, limit)
    ensures Subst(j, tag, hex) == Obj(vals) && (HasTag(j, tag) <==> found) && !DeeperThan(j, limit)
    ensures !found ==> vals == j.fields
  {
  }

  // ---------------------------------------------------------------- the rewrite

  datatype Outcome = Failed | Done(value: Ref, changed: bool)

  /** What a call promises: the substituted value, made of the input and new objects, or the input itself. */
  ghost predicate Rewritten(o: Outcome, r: Ref, j: Json, tag: string, block: nat, depth: nat, heap: set<object>)
    reads heap
  {
    && (o.Failed? <==> DeeperThan(j, MAX_JSON_DEPTH - depth))
    && (o.Done? ==>
          && Holds(o.value, Subst(j, tag, Hex(block)), heap)
          && (o.changed <==> HasTag(j, tag))
          && (!o.changed ==> o.value == r))
  }

  /**
    `replaceTagInParams`.  The input tree, which the caller still holds, is as it was; a value without
    the tag comes back as the same reference.
  */
  method ReplaceTagInParams(
      tag: string, params: Ref, block: nat, depth: nat, ghost j: Json, ghost heap: set<object>)
    returns (o: Outcome, ghost made: set<object>)
    requires Holds(params, j, heap)
    ensures fresh(made) && Holds(params, j, heap)
    ensures Rewritten(o, params, j, tag, block, depth, heap + made)
    decreases j, 3
  {
    made := {};
    if depth > MAX_JSON_DEPTH {
      return Failed, made;
    }
    match params {
      case Scalar(value) =>
        if value == Str(tag) {
          return Done(Scalar(Str(Hex(block))), true), made;
        }
        return Done(params, false), made;
      case Table(fields) => o, made := ReplaceTagInObject(tag, fields, block, depth, j, heap);
      case Slice(cells) => o, made := ReplaceTagInArray(tag, cells, block, depth, j, heap);
    }
  }

  /** The slice's copy after element i: made at the first change, with what came before. */
  method PutItem(
      copy: Cells?, cells: Cells, i: nat, next: Ref, changed: bool,
      ghost vals: seq<Json>, ghost v: Json, ghost heap: set<object>, ghost made: set<object>, ghost more: set<object>)
    returns (after: Cells?)
    requires i < |cells.elems| && copy !in heap && copy !in made && copy !in more
    requires AllHold(if copy == null then cells.elems[..i] else copy.elems, vals, heap + made)
    requires Holds(next, v, heap + more)
    modifies copy
    ensures after == copy || (copy == null && fresh(after))
    ensures after == null <==> copy == null && !changed
    ensures after != null ==> AllHold(after.elems, vals + [v], heap + (made + more))
  {
    ghost var before := if copy == null then cells.elems[..i] else copy.elems;
    AllHoldInMore(before, vals, heap + made, heap + (made + more));
    HoldsInMore(next, v, heap + more, heap + (made + more));
    after := copy;
    if changed && after == null {
      after := new Cells(cells.elems[..i]);
    }
    assert AllHold(before + [next], vals + [v], heap + (made + more));
    if after != null {
      after.elems := after.elems + [next];
    }
  }

  lemma {:induction false} ArrayIsRewritten(
      copy: Cells?, cells: Cells, j: Json, vals: seq<Json>, tag: string, block: nat, depth: nat,
      heap: set<object>, made: set<object>)
    requires Holds(Slice(cells), j, heap) && depth <= MAX_JSON_DEPTH
    requires Walked(j.items, |j.items|, vals, copy != null, tag, Hex(block), MAX_JSON_DEPTH - depth)
    requires copy != null ==> AllHold(copy.elems, vals, heap + made)
    ensures copy == null ==> Rewritten(Done(Slice(cells), false), Slice(cells), j, tag, block, depth, heap + made)
    ensures copy != null ==>
              Rewritten(Done(Slice(copy), true), Slice(cells), j, tag, block, depth, heap + (made + {copy}))
  {
    WalkEnds(j, vals, copy != null, tag, Hex(block), MAX_JSON_DEPTH - depth);
    if copy == null {
      HoldsInMore(Slice(cells), j, heap, heap + made);
    } else {
      AllHoldInMore(copy.elems, vals, heap + made, heap + (made + {copy}));
    }
  }

  /** Before element i: the values so far, and the copy, if there is one, made of old and new objects. */
  ghost predicate ArrayWalk(
      copy: Cells?, cells: Cells, j: Json, i: nat, vals: seq<Json>, tag: string, hex: string, limit: nat,
      heap: set<object>, made: set<object>)
    reads heap, made, copy
  {
    && Holds(Slice(cells), j, heap) && copy !in heap && copy !in made
    && Walked(j.items, i, vals, copy != null, tag, hex, limit)
    && (copy != null ==> AllHold(copy.elems, vals, heap + made))
  }

  /** One turn of the loop over a slice. */
  method TurnItem(
      tag: string, cells: Cells, block: nat, depth: nat, i: nat, copy: Cells?,
      ghost j: Json, ghost vals: seq<Json>, ghost heap: set<object>, ghost made: set<object>)
    returns (ok: bool, after: Cells?, ghost more: set<object>)
    requires depth <= MAX_JSON_DEPTH && i < |cells.elems|
    requires ArrayWalk(copy, cells, j, i, vals, tag, Hex(block), MAX_JSON_DEPTH - depth, heap, made)
    modifies copy
    ensures fresh(more) && (after == copy || (copy == null && fresh(after)))
    ensures Holds(Slice(cells), j, heap)
    ensures !ok ==> DeeperThan(j, MAX_JSON_DEPTH - depth)
    ensures ok ==> ArrayWalk(after, cells, j, i + 1, vals + [Subst(j.items[i], tag, Hex(block))],
                             tag, Hex(block), MAX_JSON_DEPTH - depth, heap, made + more)
    decreases j, 0
  {
    var next;
    next, more := ReplaceTagInParams(tag, cells.elems[i], block, depth + 1, j.items[i], heap);
    if next.Failed? {
      return false, copy, more;
    }
    WalkOn(j.items, i, vals, copy != null, tag, Hex(block), MAX_JSON_DEPTH - depth);
    if copy == null {
      AllHoldInMore(cells.elems[..i], vals, heap, heap + made);
    }
    after := PutItem(copy, cells, i, next.value, next.changed, vals, Subst(j.items[i], tag, Hex(block)),
                     heap, made, more);
    ok := true;
  }

  method ReplaceTagInArray(
      tag: string, cells: Cells, block: nat, depth: nat, ghost j: Json, ghost heap: set<object>)
    returns (o: Outcome, ghost made: set<object>)
    requires Holds(Slice(cells), j, heap) && depth <= MAX_JSON_DEPTH
    ensures fresh(made) && Holds(Slice(cells), j, heap)
    ensures Rewritten(o, Slice(cells), j, tag, block, depth, heap + made)
    decreases j, 1
  {
    made := {};
    var copy: Cells? := null;
    ghost var vals: seq<Json> := [];
    for i := 0 to |cells.elems|
      invariant fresh(made) && (copy != null ==> fresh(copy))
      invariant ArrayWalk(copy, cells, j, i, vals, tag, Hex(block), MAX_JSON_DEPTH - depth, heap, made)
    {
      var ok, after, more := TurnItem(tag, cells, block, depth, i, copy, j, vals, heap, made);
      if !ok {
        return Failed, made;
      }
      copy, made, vals := after, made + more, vals + [Subst(j.items[i], tag, Hex(block))];
    }
    ArrayIsRewritten(copy, cells, j, vals, tag, block, depth, heap, made);
    if copy == null {
      return Done(Slice(cells), false), made;
    }
    made := made + {copy};
    return Done(Slice(copy), true), made;
  }

  predicate SameAt(a: map<string, Ref>, b: map<string, Ref>, keys: set<string>) {
    forall k :: k in keys ==> k in a && k in b && a[k] == b[k]
  }

  /** The map's copy after one key: made at the first change, with everything. */
  method PutField(
      copy: Fields?, fields: Fields, key: string, next: Ref, changed: bool,
      ghost todo: set<string>, ghost vals: map<string, Json>, ghost v: Json,
      ghost heap: set<object>, ghost made: set<object>, ghost more: set<object>)
    returns (after: Fields?)
    requires key in todo && copy !in heap && copy !in made && copy !in more && copy != fields
    requires todo <= fields.entries.Keys && (copy != null ==> SameAt(copy.entries, fields.entries, todo))
    requires !changed ==> next == fields.entries[key]
    requires FieldsHold((if copy == null then fields.entries else copy.entries) - todo, vals, heap + made)
    requires Holds(next, v, heap + more)
    modifies copy
    ensures after == copy || (copy == null && fresh(after))
    ensures after == null <==> copy == null && !changed
    ensures after != null ==> FieldsHold(after.entries - (todo - {key}), vals[key := v], heap + (made + more))
    ensures after != null ==> SameAt(after.entries, fields.entries, todo - {key})
  {
    ghost var before := if copy == null then fields.entries else copy.entries;
    FieldsHoldInMore(before - todo, vals, heap + made, heap + (made + more));
    HoldsInMore(next, v, heap + more, heap + (made + more));
    assert before[key := next] - (todo - {key}) == (before - todo)[key := next];
    assert FieldsHold(before[key := next] - (todo - {key}), vals[key := v], heap + (made + more));
    after := copy;
    if changed {
      if after == null {
        after := new Fields(fields.entries);
      }
      after.entries := after.entries[key := next];
    }
    assert after != null ==> after.entries == before[key := next];
  }

  /** The same for a map whose keys in `todo` are still to come. */
  ghost predicate ObjectWalk(
      copy: Fields?, fields: Fields, j: Json, todo: set<string>, vals: map<string, Json>, tag: string, hex: string,
      limit: nat, heap: set<object>, made: set<object>)
    reads heap, made, copy
  {
    && Holds(Table(fields), j, heap) && copy !in heap && copy !in made && todo <= j.fields.Keys
    && WalkedFields(j.fields, todo, vals, copy != null, tag, hex, limit)
    && (copy != null ==>
          SameAt(copy.entries, fields.entries, todo) && FieldsHold(copy.entries - todo, vals, heap + made))
  }

  /** One turn of the loop over a map. */
  method TurnField(
      tag: string, fields: Fields, block: nat, depth: nat, key: string, copy: Fields?,
      ghost j: Json, ghost todo: set<string>, ghost vals: map<string, Json>,
      ghost heap: set<object>, ghost made: set<object>)
    returns (ok: bool, after: Fields?, ghost more: set<object>)
    requires depth <= MAX_JSON_DEPTH && key in todo
    requires ObjectWalk(copy, fields, j, todo, vals, tag, Hex(block), MAX_JSON_DEPTH - depth, heap, made)
    modifies copy
    ensures fresh(more) && (after == copy || (copy == null && fresh(after)))
    ensures Holds(Table(fields), j, heap)
    ensures !ok ==> DeeperThan(j, MAX_JSON_DEPTH - depth)
    ensures ok ==> ObjectWalk(after, fields, j, todo - {key}, vals[key := Subst(j.fields[key], tag, Hex(block))],
                              tag, Hex(block), MAX_JSON_DEPTH - depth, heap, made + more)
    decreases j, 0
  {
    var next;
    next, more := ReplaceTagInParams(tag, fields.entries[key], block, depth + 1, j.fields[key], heap);
    if next.Failed? {
      return false, copy, more;
    }
    WalkOnFields(j.fields, todo, vals, copy != null, tag, Hex(block), MAX_JSON_DEPTH - depth, key);
    if copy == null {
      FieldsHoldInMore(fields.entries - todo, vals, heap, heap + made);
    }
    after := PutField(copy, fields, key, next.value, next.changed, todo, vals, Subst(j.fields[key], tag, Hex(block)),
                      heap, made, more);
    ok := true;
  }

  lemma {:induction false} ObjectIsShared(
      fields: Fields, j: Json, todo: set<string>, vals: map<string, Json>, tag: string, block: nat, depth: nat,
      heap: set<object>, made: set<object>)
    requires depth <= MAX_JSON_DEPTH && todo == {}
    requires ObjectWalk(null, fields, j, todo, vals, tag, Hex(block), MAX_JSON_DEPTH - depth, heap, made)
    ensures Rewritten(Done(Table(fields), false), Table(fields), j, tag, block, depth, heap + made)
  {
    WalkEndsFields(j, todo, vals, false, tag, Hex(block), MAX_JSON_DEPTH - depth);
    HoldsInMore(Table(fields), j, heap, heap + made);
  }

  lemma {:induction false} ObjectIsCopied(
      copy: Fields, fields: Fields, j: Json, todo: set<string>, vals: map<string, Json>,
      tag: string, block: nat, depth: nat, heap: set<object>, made: set<object>)
    requires depth <= MAX_JSON_DEPTH && todo == {}
    requires ObjectWalk(copy, fields, j, todo, vals, tag, Hex(block), MAX_JSON_DEPTH - depth, heap, made)
    ensures Rewritten(Done(Table(copy), true), Table(fields), j, tag, block, depth, heap + (made + {copy}))
  {
    WalkEndsFields(j, todo, vals, true, tag, Hex(block), MAX_JSON_DEPTH - depth);
    assert copy.entries - todo == copy.entries;
    FieldsHoldInMore(copy.entries, vals, heap + made, heap + (made + {copy}));
  }

  /** The loop over a map; false is the error of one of its values. */
  method CopyFields(
      tag: string, fields: Fields, block: nat, depth: nat, ghost j: Json, ghost heap: set<object>)
    returns (ok: bool, copy: Fields?, todo: set<string>, ghost vals: map<string, Json>, ghost made: set<object>)
    requires Holds(Table(fields), j, heap) && depth <= MAX_JSON_DEPTH
    ensures fresh(made) && (copy != null ==> fresh(copy)) && Holds(Table(fields), j, heap)
    ensures !ok ==> DeeperThan(j, MAX_JSON_DEPTH - depth)
    ensures ok ==>
              todo == {} && ObjectWalk(copy, fields, j, todo, vals, tag, Hex(block), MAX_JSON_DEPTH - depth, heap, made)
    decreases j, 1
  {
    copy, made, vals, todo := null, {}, map[], fields.entries.Keys;
    while todo != {}
      invariant fresh(made) && (copy != null ==> fresh(copy))
      invariant ObjectWalk(copy, fields, j, todo, vals, tag, Hex(block), MAX_JSON_DEPTH - depth, heap, made)
      decreases |todo|
    {
      var key :| key in todo;
      ghost var more;
      ok, copy, more := TurnField(tag, fields, block, depth, key, copy, j, todo, vals, heap, made);
      if !ok {
        return;
      }
      made, vals, todo := made + more, vals[key := Subst(j.fields[key], tag, Hex(block))], todo - {key};
    }
    ok := true;
  }

  method ReplaceTagInObject(
      tag: string, fields: Fields, block: nat, depth: nat, ghost j: Json, ghost heap: set<object>)
    returns (o: Outcome, ghost made: set<object>)
    requires Holds(Table(fields), j, heap) && depth <= MAX_JSON_DEPTH
    ensures fresh(made) && Holds(Table(fields), j, heap)
    ensures Rewritten(o, Table(fields), j, tag, block, depth, heap + made)
    decreases j, 2
  {
    var ok, copy, todo;
    ghost var vals;
    ok, copy, todo, vals, made := CopyFields(tag, fields, block, depth, j, heap);
    if !ok {
      return Failed, made;
    }
    if copy == null {
      ObjectIsShared(fields, j, todo, vals, tag, block, depth, heap, made);
      return Done(Table(fields), false), made;
    }
    ObjectIsCopied(copy, fields, j, todo, vals, tag, block, depth, heap, made);
    made := made + {copy};
    return Done(Table(copy), true), made;
  }

  // ---------------------------------------------------------------- requests and batches

  /** A decoded request; id and extra fields are never looked into. */
  datatype Message = Message(id: Id, rpcMethod: string, params: Ref, extra: map<string, Json>)

  ghost predicate Represents(m: Message, req: Request, heap: set<object>)
    reads heap
  {
    m.id == req.id && m.rpcMethod == req.rpcMethod && m.extra == req.extra && Holds(m.params, req.params, heap)
  }

  ghost predicate AllRepresent(ms: seq<Message>, reqs: seq<Request>, heap: set<object>)
    reads heap
  {
    |ms| == |reqs| && forall i :: 0 <= i < |reqs| ==> Represents(ms[i], reqs[i], heap)
  }

  lemma AllRepresentInMore(ms: seq<Message>, reqs: seq<Request>, heap: set<object>, more: set<object>)
    requires AllRepresent(ms, reqs, heap) && heap <= more
    ensures AllRepresent(ms, reqs, more)
  {
    forall i | 0 <= i < |reqs| ensures Represents(ms[i], reqs[i], more) {
      HoldsInMore(ms[i].params, reqs[i].params, heap, more);
    }
  }

  /** Only the params change, and a request without the tag is returned as it is. */
  method InterceptOne(tag: string, m: Message, block: nat, ghost req: Request, ghost heap: set<object>)
    returns (r: Result<Message>, ghost made: set<object>)
    requires Represents(m, req, heap)
    ensures fresh(made) && Represents(m, req, heap)
    ensures r.Err? <==> RequestTooDeep(req)
    ensures r.Err? ==> r.error == TooDeep
    ensures r.Ok? ==> Represents(r.value, Substituted(req, tag, block), heap + made)
    ensures r.Ok? && !HasTag(req.params, tag) ==> r.value == m
  {
    var next;
    next, made := ReplaceTagInParams(tag, m.params, block, 0, req.params, heap);
    if next.Failed? {
      return Err(TooDeep), made;
    }
    if !next.changed {
      return Ok(m), made;
    }
    return Ok(Message(m.id, m.rpcMethod, next.value, m.extra)), made;
  }

  method InterceptRequest(tag: string, state: Store.State, m: Message, ghost req: Request, ghost heap: set<object>)
    returns (r: Result<Message>, ghost made: set<object>)
    requires Represents(m, req, heap)
    ensures fresh(made) && Represents(m, req, heap)
    ensures var want := Intercepted(req, tag, state);
            && (r.Ok? <==> want.Ok?)
            && (r.Err? ==> r.error == want.error)
            && (r.Ok? ==> Represents(r.value, want.value, heap + made))
  {
    made := {};
    if !Store.Known(state) {
      assert heap + made == heap;
      return Ok(m), made;
    }
    r, made := InterceptOne(tag, m, state.l2, req, heap);
  }

  method InterceptBatchRequests(
      tag: string, maxBatch: int, state: Store.State, ms: seq<Message>,
      ghost reqs: seq<Request>, ghost heap: set<object>)
    returns (r: Result<seq<Message>>, ghost made: set<object>)
    requires AllRepresent(ms, reqs, heap)
    ensures fresh(made) && AllRepresent(ms, reqs, heap)
    ensures var want := InterceptedBatch(reqs, tag, maxBatch, state);
            && (r.Ok? <==> want.Ok?)
            && (r.Err? ==> r.error == want.error)
            && (r.Ok? ==> AllRepresent(r.value, want.value, heap + made))
  {
    made := {};
    if |ms| > maxBatch {
      return Err(BatchTooLarge), made;
    }
    if !Store.Known(state) {
      assert heap + made == heap;
      return Ok(ms), made;
    }
    var next: seq<Message> := [];
    ghost var done: seq<Request> := [];
    for j := 0 to |ms|
      invariant fresh(made) && AllRepresent(ms, reqs, heap)
      invariant |done| == j
      invariant forall i :: 0 <= i < j ==> !RequestTooDeep(reqs[i]) && done[i] == Substituted(reqs[i], tag, state.l2)
      invariant AllRepresent(next, done, heap + made)
    {
      var one, more := InterceptOne(tag, ms[j], state.l2, reqs[j], heap);
      if one.Err? {
        return Err(one.error), made;
      }
      AllRepresentInMore(next, done, heap + made, heap + (made + more));
      HoldsInMore(one.value.params, Substituted(reqs[j], tag, state.l2).params, heap + more, heap + (made + more));
      made := made + more;
      next, done := next + [one.value], done + [Substituted(reqs[j], tag, state.l2)];
    }
    assert done == seq(|reqs|, i requires 0 <= i < |reqs| => Substituted(reqs[i], tag, state.l2));
    return Ok(next), made;
  }
}
