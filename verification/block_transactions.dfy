/** `getBlockTransactions`: the shard rule, a lookup by seqno, the full
    transaction list of that block, and the rewriting of every account into
    the display form `"<workchain>:<lowercase hex>"`. */
module BlockTransactions {
  import opened Results
  import opened Ints
  import opened Decimal
  import opened RpcErrors
  import opened BlockLookup
  import Base64
  import Hex

  const DefaultCount: nat := 200

  /** A resolved block. */
  datatype BlockId = BlockId(workchain: Int64, shard: Int64, seqno: Uint64, rootHash: string, fileHash: string)

  /** A transaction summary of a block; `account` arrives base64-encoded. */
  datatype ShortTxId = ShortTxId(account: string, hash: string, lt: string, mode: int)

  datatype BlockTransactionsParams = BlockTransactionsParams(
    workchain: Int64,
    shard: string,
    seqno: Uint64,
    rootHash: Option<string>,
    fileHash: Option<string>,
    afterLt: Option<Int64>,
    afterHash: Option<string>,
    count: Option<Byte>)

  /** The response object `blocks.transactions`. */
  datatype BlockTransactionsPage = BlockTransactionsPage(
    id: BlockId, incomplete: bool, reqCount: nat, transactions: seq<ShortTxId>)

  /** Every account the backend hands over is valid base64 (the source
      unwraps the decode). */
  predicate ValidAccounts(txs: seq<ShortTxId>) {
    forall i :: 0 <= i < |txs| ==> Base64.Decode(txs[i].account).Success?
  }

  /** The first `:` in `s`, if any. */
  function FirstColon(s: string): (r: Option<nat>)
    ensures r.Some? ==> r.value < |s| && s[r.value] == ':'
    ensures r.Some? ==> forall j :: 0 <= j < r.value ==> s[j] != ':'
    ensures r.None? ==> forall j :: 0 <= j < |s| ==> s[j] != ':'
    decreases |s|
  {
    if |s| == 0 then None
    else if s[0] == ':' then Some(0)
    else match FirstColon(s[1..])
      case None => None
      case Some(k) => Some(k + 1)
  }

  lemma {:induction false} FirstColonAfter(w: string, t: string)
    requires forall j :: 0 <= j < |w| ==> w[j] != ':'
    ensures FirstColon(w + ":" + t) == Some(|w|)
    decreases |w|
  {
    if |w| > 0 {
      FirstColonAfter(w[1..], t);
      assert (w + ":" + t)[1..] == w[1..] + ":" + t;
    }
  }

  /** Reads a display account back into its workchain and address bytes. */
  function ParseAccountId(s: string): Option<(int, seq<Byte>)> {
    match FirstColon(s)
    case None => None
    case Some(k) =>
      match (ParseI64(s[..k]), Hex.Decode(s[k + 1..]))
      case (Success(w), Some(bytes)) => Some((w, bytes))
      case _ => None
  }

  /** `format!("{}:{}", workchain, base64_to_hex(account))`: the hex part has
      two lowercase digits per decoded byte, and the display form reads back
      as exactly the workchain and the decoded bytes. */
  function CanonicalAccount(workchain: Int64, account: string): (r: string)
    requires Base64.Decode(account).Success?
    ensures var bytes := Base64.Decode(account).value;
      && |r| > 2 * |bytes|
      && r[|r| - 2 * |bytes| - 1] == ':'
      && (forall i :: |r| - 2 * |bytes| <= i < |r| ==> Hex.IsLowerHexDigit(r[i]))
    ensures var bytes := Base64.Decode(account).value;
      |r| > 2 * |bytes| && r[..|r| - 2 * |bytes| - 1] == FormatInt(workchain)
    ensures ParseAccountId(r) == Some((workchain as int, Base64.Decode(account).value))
  {
    var bytes := Base64.Decode(account).value;
    var w := FormatInt(workchain);
    var hex := Hex.Encode(bytes);
    var r := w + ":" + hex;
    assert r[..|w|] == w && r[|w| + 1..] == hex;
    FirstColonAfter(w, hex);
    Hex.DecodeEncode(bytes);
    FormatParse(workchain);
    r
  }

  /** The per-record transform: only the account changes. */
  function Rewrite(workchain: Int64, tx: ShortTxId): ShortTxId
    requires Base64.Decode(tx.account).Success?
  {
    ShortTxId(CanonicalAccount(workchain, tx.account), tx.hash, tx.lt, tx.mode)
  }

  /** The stream `map`: same length and order; `hash`, `lt` and `mode` are
      copied and each account is put in display form. */
  function RewriteAll(workchain: Int64, txs: seq<ShortTxId>): (r: seq<ShortTxId>)
    requires ValidAccounts(txs)
    ensures |r| == |txs|
    ensures forall i :: 0 <= i < |r| ==>
      r[i].hash == txs[i].hash && r[i].lt == txs[i].lt && r[i].mode == txs[i].mode
    ensures forall i :: 0 <= i < |r| ==> r[i].account == CanonicalAccount(workchain, txs[i].account)
    ensures forall i :: 0 <= i < |r| ==>
      ParseAccountId(r[i].account) == Some((workchain as int, Base64.Decode(txs[i].account).value))
    decreases |txs|
  {
    if |txs| == 0 then []
    else [Rewrite(workchain, txs[0])] + RewriteAll(workchain, txs[1..])
  }

  /** `get_block_transactions`. `lookup` is the backend's lookup by seqno
      (with the decoding of its answer) and `txStream` the backend's full
      transaction list of a block. Only the accounts of the block actually
      looked up must be base64, as only those are unwrapped. */
  function GetBlockTransactions<E>(p: BlockTransactionsParams, lookup: BlockQuery -> Result<BlockId, E>,
                                   txStream: BlockId -> seq<ShortTxId>): (r: Result<BlockTransactionsPage, RpcError>)
    requires forall b: BlockId ::
      IsI64Text(p.shard) && lookup(BySeqno(p.workchain, LiteralValue(p.shard), p.seqno)) == Success(b) ==>
      ValidAccounts(txStream(b))
    ensures !IsI64Text(p.shard) ==> r == Failure(InvalidParams(InvalidShard))
    ensures IsI64Text(p.shard) ==>
      (r.Failure? <==> lookup(BySeqno(p.workchain, LiteralValue(p.shard), p.seqno)).Failure?)
    ensures IsI64Text(p.shard) && r.Failure? ==> r.error == InternalError
    ensures r.Success? ==> IsI64Text(p.shard)
    ensures r.Success? ==>
      var block := lookup(BySeqno(p.workchain, LiteralValue(p.shard), p.seqno)).value;
      && r.value.id == block
      && !r.value.incomplete
      && r.value.reqCount == (if p.count.Some? then p.count.value else DefaultCount)
      && |r.value.transactions| == |txStream(block)|
      && r.value.transactions == RewriteAll(block.workchain, txStream(block))
  {
    match ParseShard(p.shard)
    case Failure(e) => Failure(e)
    case Success(shard) =>
      var count := p.count.GetOr(DefaultCount);
      match lookup(BySeqno(p.workchain, shard, p.seqno))
      case Failure(_) => Failure(InternalError)
      case Success(block) =>
        Success(BlockTransactionsPage(block, false, count, RewriteAll(block.workchain, txStream(block))))
  }

  /** The optional hashes and the cursor of the request do not affect the
      answer. */
  lemma BlockTransactionsIgnoreCursor<E>(p: BlockTransactionsParams, lookup: BlockQuery -> Result<BlockId, E>,
                                         txStream: BlockId -> seq<ShortTxId>, afterLt: Option<Int64>, afterHash: Option<string>,
                                         rootHash: Option<string>, fileHash: Option<string>)
    requires forall b: BlockId ::
      IsI64Text(p.shard) && lookup(BySeqno(p.workchain, LiteralValue(p.shard), p.seqno)) == Success(b) ==>
      ValidAccounts(txStream(b))
    ensures GetBlockTransactions(p.(afterLt := afterLt, afterHash := afterHash, rootHash := rootHash, fileHash := fileHash), lookup, txStream)
         == GetBlockTransactions(p, lookup, txStream)
  {
  }
}
