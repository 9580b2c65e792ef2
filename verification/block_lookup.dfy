/** Parameter resolution for `lookupBlock` and `getBlockHeader`: the shard
    string rule shared by every block handler, and the disambiguation of the
    optional `(seqno, lt, unixtime)` selector into one backend lookup. */
module BlockLookup {
  import opened Results
  import opened Ints
  import opened Decimal
  import opened RpcErrors

  const InvalidShard: string := "invalid shard"
  const UnixtimeUnsupported: string := "unixtime is not supported"
  const MissingSelector: string := "seqno or lt or unixtime must be provided"

  datatype LookupBlockParams = LookupBlockParams(
    workchain: Int64,
    shard: string,
    seqno: Option<Uint64>,
    lt: Option<Int64>,
    unixtime: Option<Uint64>)

  datatype BlockHeaderParams = BlockHeaderParams(
    workchain: Int64,
    shard: string,
    seqno: Uint64,
    rootHash: Option<string>,
    fileHash: Option<string>)

  /** The one backend lookup a request resolves to. */
  datatype BlockQuery =
    | BySeqno(workchain: Int64, shard: Int64, seqno: Uint64)
    | ByLt(workchain: Int64, shard: Int64, lt: Int64)

  /** The shard rule: `shard.parse::<i64>()`, any failure reported as
      invalid params "invalid shard". */
  function ParseShard(s: string): (r: Result<Int64, RpcError>)
    ensures r.Success? <==> IsI64Text(s)
    ensures r.Success? ==> r.value == LiteralValue(s)
    ensures r.Failure? ==> r.error == InvalidParams(InvalidShard)
  {
    match ParseI64(s)
    case Success(v) => Success(v)
    case Failure(_) => Failure(InvalidParams(InvalidShard))
  }

  /** Only a positive `seqno` is given. */
  predicate SeqnoOnly(p: LookupBlockParams) {
    p.seqno.Some? && p.seqno.value > 0 && p.lt.None? && p.unixtime.None?
  }

  /** Only a positive `lt` is given. */
  predicate LtOnly(p: LookupBlockParams) {
    p.seqno.None? && p.lt.Some? && p.lt.value > 0 && p.unixtime.None?
  }

  /** Only `unixtime` is given, whatever its value. */
  predicate UnixtimeOnly(p: LookupBlockParams) {
    p.seqno.None? && p.lt.None? && p.unixtime.Some?
  }

  /** The shard is checked first; then exactly one of the four outcomes
      applies: lookup by seqno, lookup by lt, "unixtime is not supported",
      or "seqno or lt or unixtime must be provided" for every other
      combination (nothing set, several set, a zero seqno, a non-positive
      lt). */
  function ResolveLookup(p: LookupBlockParams): (r: Result<BlockQuery, RpcError>)
    ensures !IsI64Text(p.shard) ==> r == Failure(InvalidParams(InvalidShard))
    ensures IsI64Text(p.shard) ==> (SeqnoOnly(p) <==> r.Success? && r.value.BySeqno?)
    ensures IsI64Text(p.shard) && SeqnoOnly(p) ==>
      r == Success(BySeqno(p.workchain, LiteralValue(p.shard), p.seqno.value))
    ensures IsI64Text(p.shard) ==> (LtOnly(p) <==> r.Success? && r.value.ByLt?)
    ensures IsI64Text(p.shard) && LtOnly(p) ==>
      r == Success(ByLt(p.workchain, LiteralValue(p.shard), p.lt.value))
    ensures IsI64Text(p.shard) ==>
      (UnixtimeOnly(p) <==> r == Failure(InvalidParams(UnixtimeUnsupported)))
    ensures IsI64Text(p.shard) ==>
      (!SeqnoOnly(p) && !LtOnly(p) && !UnixtimeOnly(p) <==> r == Failure(InvalidParams(MissingSelector)))
  {
    match ParseShard(p.shard)
    case Failure(e) => Failure(e)
    case Success(shard) =>
      // A guard that fails falls through to the catch-all arm, as in Rust.
      match (p.seqno, p.lt, p.unixtime)
      case (Some(seqno), None, None) =>
        if seqno > 0 then Success(BySeqno(p.workchain, shard, seqno))
        else Failure(InvalidParams(MissingSelector))
      case (None, Some(lt), None) =>
        if lt > 0 then Success(ByLt(p.workchain, shard, lt))
        else Failure(InvalidParams(MissingSelector))
      case (None, None, Some(_)) => Failure(InvalidParams(UnixtimeUnsupported))
      case _ => Failure(InvalidParams(MissingSelector))
  }

  /** `lookup_block`: resolve, then make the one backend call and collapse
      its failure. */
  function LookupBlock<V, E>(p: LookupBlockParams, backend: BlockQuery -> Result<V, E>): (r: Result<V, RpcError>)
    ensures ResolveLookup(p).Failure? ==> r == Failure(ResolveLookup(p).error)
    ensures r.Failure? && r.error.InvalidParams? <==> ResolveLookup(p).Failure?
    ensures r.Success? ==> ResolveLookup(p).Success? && backend(ResolveLookup(p).value) == Success(r.value)
    ensures ResolveLookup(p).Success? && backend(ResolveLookup(p).value).Success? ==>
      r == Success(backend(ResolveLookup(p).value).value)
    ensures ResolveLookup(p).Success? && backend(ResolveLookup(p).value).Failure? ==> r == Failure(InternalError)
  {
    match ResolveLookup(p)
    case Failure(e) => Failure(e)
    case Success(q) => CollapseBackend(backend(q))
  }

  /** Validation happens before any backend call: a request that fails to
      resolve gets the same invalid-params answer whatever the backend would
      have said, and a resolved one only ever fails with the generic
      internal error. */
  lemma LookupValidationFirst<V, E>(p: LookupBlockParams, b1: BlockQuery -> Result<V, E>, b2: BlockQuery -> Result<V, E>)
    ensures ResolveLookup(p).Failure? ==>
      LookupBlock(p, b1) == LookupBlock(p, b2) && LookupBlock(p, b1).error.InvalidParams?
    ensures ResolveLookup(p).Success? && LookupBlock(p, b1).Failure? ==>
      LookupBlock(p, b1).error == InternalError
  {
  }

  /** `get_block_header`: the shard rule, then one backend call with the
      parsed shard; the optional root and file hashes are not forwarded. */
  function GetBlockHeader<V, E>(p: BlockHeaderParams, header: (Int64, Int64, Uint64) -> Result<V, E>): (r: Result<V, RpcError>)
    ensures !IsI64Text(p.shard) ==> r == Failure(InvalidParams(InvalidShard))
    ensures r.Success? ==> IsI64Text(p.shard) && header(p.workchain, LiteralValue(p.shard), p.seqno) == Success(r.value)
    ensures IsI64Text(p.shard) && header(p.workchain, LiteralValue(p.shard), p.seqno).Success? ==>
      r == Success(header(p.workchain, LiteralValue(p.shard), p.seqno).value)
    ensures IsI64Text(p.shard) && header(p.workchain, LiteralValue(p.shard), p.seqno).Failure? ==>
      r == Failure(InternalError)
  {
    match ParseShard(p.shard)
    case Failure(e) => Failure(e)
    case Success(shard) => CollapseBackend(header(p.workchain, shard, p.seqno))
  }

  /** The optional hashes of a header request do not affect its answer. */
  lemma HeaderIgnoresHashes<V, E>(p: BlockHeaderParams, header: (Int64, Int64, Uint64) -> Result<V, E>,
                                  rootHash: Option<string>, fileHash: Option<string>)
    ensures GetBlockHeader(p.(rootHash := rootHash, fileHash := fileHash), header) == GetBlockHeader(p, header)
  {
  }

  /** The smallest 64-bit shard id is accepted with its exact value, and a
      non-numeric shard is rejected. */
  lemma ShardExamples()
    ensures ParseShard("-9223372036854775808") == Success(MinI64)
    ensures ParseShard("abc") == Failure(InvalidParams(InvalidShard))
  {
    ParseEdgeCases();
  }
}
