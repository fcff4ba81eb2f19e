/** What the tag interceptor (proxy/interceptor.go) does to a request or a batch, on values. */
module Interceptor {
  import opened Json
  import Store

  const MAX_JSON_DEPTH := 32

  datatype Error = TooDeep | BatchTooLarge | NotAnRpcRequest | WrongVersion

  datatype Result<+T> = Ok(value: T) | Err(error: Error)

  /** `Notification` is a request whose "id" is absent; a null id is `Id(Null)`. */
  datatype Id = Notification | Id(value: Json)

  /** A decoded request.  Absent and null `params` are both Go's nil, here `Null`. */
  datatype Request = Request(id: Id, rpcMethod: string, params: Json, extra: map<string, Json>)

  /** A request with its params substituted and everything else as it was. */
  function Substituted(req: Request, tag: string, block: nat): Request {
    req.(params := Subst(req.params, tag, Hex(block)))
  }

  predicate RequestTooDeep(req: Request) {
    DeeperThan(req.params, MAX_JSON_DEPTH)
  }

  /** What a request becomes, given the store's state. */
  function Intercepted(req: Request, tag: string, state: Store.State): Result<Request> {
    if !Store.Known(state) then Ok(req)
    else if RequestTooDeep(req) then Err(TooDeep)
    else Ok(Substituted(req, tag, state.l2))
  }

  /** A batch is mapped element by element with one block number, or rejected whole. */
  function InterceptedBatch(reqs: seq<Request>, tag: string, maxBatch: int, state: Store.State): Result<seq<Request>> {
    if |reqs| > maxBatch then Err(BatchTooLarge)
    else if !Store.Known(state) then Ok(reqs)
    else if exists i :: 0 <= i < |reqs| && RequestTooDeep(reqs[i]) then Err(TooDeep)
    else Ok(seq(|reqs|, i requires 0 <= i < |reqs| => Substituted(reqs[i], tag, state.l2)))
  }

  /**
    The flag text promises that a maximum of 0 means no limit.  The code rejects for size exactly
    when the batch is longer than the maximum, so with 0 it rejects every batch but the empty one.
  */
  lemma ZeroMaximumRejects(reqs: seq<Request>, tag: string, state: Store.State)
    ensures InterceptedBatch(reqs, tag, 0, state) == Err(BatchTooLarge) <==> reqs != []
    ensures forall maxBatch :: InterceptedBatch(reqs, tag, maxBatch, state) == Err(BatchTooLarge) <==> |reqs| > maxBatch
  {
  }
}
