/** `sendBoc`: the user-supplied payload is base64-decoded, re-encoded in
    canonical form and forwarded. */
module SendBoc {
  import opened Results
  import opened RpcErrors
  import Base64

  datatype SendBocParams = SendBocParams(boc: string)

  /** Decode, then encode again: the text actually forwarded. */
  function Normalize(boc: string): (r: Result<string, Base64.DecodeError>)
    ensures r.Success? <==> Base64.Decode(boc).Success?
    ensures r.Success? ==> Base64.Decode(r.value) == Base64.Decode(boc)
  {
    match Base64.Decode(boc)
    case Failure(e) => Failure(e)
    case Success(bytes) =>
      Base64.DecodeEncode(bytes);
      Success(Base64.Encode(bytes))
  }

  /** Normalising is idempotent; since accepted input is already canonical,
      it even returns its input unchanged. */
  lemma NormalizeIdempotent(boc: string)
    requires Normalize(boc).Success?
    ensures Normalize(boc).value == boc
    ensures Normalize(Normalize(boc).value) == Normalize(boc)
  {
    Base64.EncodeDecode(boc);
  }

  /** `send_boc`: a payload that is not base64 is invalid params carrying the
      decoder's message; a valid one is sent in normalised form, and only the
      backend's failure becomes an internal error. */
  function SendBoc<V, E>(p: SendBocParams, send: string -> Result<V, E>): (r: Result<V, RpcError>)
    ensures Normalize(p.boc).Failure? ==>
      r == Failure(InvalidParams(Base64.Description(Normalize(p.boc).error)))
    ensures Normalize(p.boc).Success? ==> r == CollapseBackend(send(Normalize(p.boc).value))
    ensures r.Failure? && r.error == InternalError ==> Normalize(p.boc).Success?
  {
    match Base64.Decode(p.boc)
    case Failure(e) => Failure(InvalidParams(Base64.Description(e)))
    case Success(bytes) => CollapseBackend(send(Base64.Encode(bytes)))
  }
}
