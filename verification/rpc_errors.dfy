/** The two JSON-RPC errors the handlers produce, and the collapse of every
    backend failure into the generic one (`jsonrpc_error`). */
module RpcErrors {
  import opened Results

  /** `InvalidParams` keeps the detail text the handler supplies;
      `InternalError` carries none, so no backend detail reaches a caller. */
  datatype RpcError = InvalidParams(detail: string) | InternalError

  /** `jsonrpc_error`: a success passes through unchanged and every backend
      failure, whatever it was, becomes the generic internal error. */
  function CollapseBackend<T, E>(r: Result<T, E>): (out: Result<T, RpcError>)
    ensures out.Success? <==> r.Success?
    ensures r.Success? ==> out.value == r.value
    ensures out.Failure? ==> out.error == InternalError
  {
    match r
    case Success(v) => Success(v)
    case Failure(_) => Failure(InternalError)
  }

  /** Two backend failures are indistinguishable to the caller. */
  lemma CollapseForgetsDetail<T, E>(e1: E, e2: E)
    ensures CollapseBackend<T, E>(Failure(e1)) == CollapseBackend<T, E>(Failure(e2))
  {
  }
}
