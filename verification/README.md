# ton-grpc JSON-RPC gateway: request-handling core in Dafny

This project models the request handlers of the JSON-RPC gateway in
`src/main.rs`. The gateway sits in front of a TON node client. Each handler
validates its parameters, makes one backend call and shapes the answer. The
model pulls out the pure decisions those handlers make and proves what they
promise:

- **Block lookup** (`lookupBlock`, `getBlockHeader`). The shard is the decimal
  text of a signed 64-bit value, read with Rust's `str::parse::<i64>()`
  (module `Decimal`). The optional `(seqno, lt, unixtime)` triple resolves to
  a lookup by seqno, a lookup by lt, "unixtime is not supported", or "seqno or
  lt or unixtime must be provided" (module `BlockLookup`).
- **Account transactions** (`getTransactions`). The cursor pair selects one of
  two backend streams (a sum type `TxSource`). An optional `to_lt` stops the
  stream at the first record with `lt <= to_lt`. The result is capped at
  `limit`, 10 by default (modules `Pager`, `AccountTransactions`).
- **Block transactions** (`getBlockTransactions`). Every account of the block
  is rewritten from base64 into `"<workchain>:<lowercase hex>"`; the list is
  not truncated by `count` (default 200) (modules `Base64`, `Hex`,
  `BlockTransactions`).
- **sendBoc**. A payload that is not base64 is an invalid-params error. A
  valid one is decoded and re-encoded before it is forwarded (module
  `SendBoc`).
- **Error collapsing** (`jsonrpc_error`). Every backend failure becomes the one
  generic internal error (module `RpcErrors`).

Backend calls are function-typed parameters: `BlockQuery -> Result<V, E>` for
a lookup, `TxSource -> seq<RawTransaction>` for a transaction stream, and so
on. Their results are arbitrary except for two preconditions that stand in
for the source's `.unwrap()` panics. The accounts of the looked-up block must
be base64. When `to_lt` gives a bound, every `lt` of the transaction stream
must parse, although the source parses only the `lt`s that `take_while`
examines (see "Left out"). Request parameters are already-typed records whose
optional fields are `Option`s. Fixed-width integers are subset types of
`int` (`Int64`, `Uint64`, `Uint16`, and `Byte` for 8 bits).

Base64 is RFC 4648 section 4 with the standard alphabet and `=` padding.
Decoding is strict, so every accepted text is the canonical encoding of its
bytes (`Base64.EncodeDecode`). Hex is RFC 4648 section 8 with lowercase
digits.

Notes on the code's behaviour:

- A backend account that is not base64 makes the handler panic (`unwrap` at
  src/main.rs:185) instead of answering with an error. The model makes valid
  accounts of the looked-up block a precondition.
- The workchain parameter is an `i64`.
- A request with only `unixtime` is rejected whatever its value.
- `getBlockTransactions` passes a zero `seqno` to the backend. Only
  `lookupBlock` checks that `seqno` is positive.

## Model

| member | source | states |
|---|---|---|
| Decimal.ParseI64 | src/main.rs:135 | `str::parse::<i64>()` succeeds exactly on an optional sign followed by at least one digit whose value fits in 64 bits, and it returns that value. Empty text gives `Empty`. An in-syntax value outside the range gives `PosOverflow` or `NegOverflow`, depending on its sign |
| Decimal.AccumulateValue | src/main.rs:135 | the left-to-right checked digit loop succeeds exactly on all-digit text whose signed value is in range. It then returns that value, and on all-digit text it can only fail with the overflow error of its sign |
| Decimal.ParseEdgeCases | src/main.rs:135 | `"-9223372036854775808"` and `"9223372036854775807"` parse to the range ends. One beyond either end overflows with the matching error. `"abc"`, `""` and `"-"` are rejected |
| Decimal.FormatInt | src/main.rs:185 | the decimal display of the workchain is a well-formed literal denoting that very value, made only of digits and a leading `-`. The `-` appears exactly for negative values, and there is no leading zero |
| Decimal.FormatParse | src/main.rs:185 | parsing the display of any 64-bit value gives the value back |
| BlockLookup.ParseShard | src/main.rs:135 | a shard is accepted exactly when it is the decimal text of a 64-bit value, and the result is that value. Any rejection is invalid params "invalid shard" |
| BlockLookup.ShardExamples | src/main.rs:170 | the smallest 64-bit shard id is accepted with its exact value; `"abc"` gives "invalid shard" |
| BlockLookup.ResolveLookup | src/main.rs:134-141 | an invalid shard gives "invalid shard" before the selector is looked at. With a valid shard, each of the four outcomes holds exactly under its condition. A positive seqno alone resolves to by-seqno with the parsed workchain, shard and seqno. A positive lt alone resolves to by-lt. Unixtime alone gives "unixtime is not supported". Everything else gives "seqno or lt or unixtime must be provided" |
| BlockLookup.LookupBlock | src/main.rs:130-143 | the answer is invalid params exactly when resolution fails, and then it is the resolution's error. A resolved query answers with the backend's success value when there is one, every success comes from the backend, and a backend failure becomes the internal error |
| BlockLookup.LookupValidationFirst | src/main.rs:135-141 | an unresolvable request gets the same invalid-params answer whatever the backend would say; a resolved request can only fail with the internal error |
| BlockLookup.GetBlockHeader | src/main.rs:153-165 | an invalid shard gives "invalid shard". With a valid shard, the backend's header for the workchain, parsed shard and seqno is returned when the call succeeds. Every success comes from that call, and a backend failure becomes the internal error |
| BlockLookup.HeaderIgnoresHashes | src/main.rs:159-163 | `root_hash` and `file_hash` do not change the answer |
| RpcErrors.CollapseBackend | src/main.rs:267-269 | success is kept with its value. Every failure becomes `InternalError`, and nothing else does |
| RpcErrors.CollapseForgetsDetail | src/main.rs:267-269 | two different backend failures give the same answer |
| Pager.TakeWhile | src/main.rs:237-239 | the result is the longest leading run of the stream whose elements satisfy the condition: a prefix, with every element passing, and followed by a failing element unless the stream is exhausted |
| Pager.Take | src/main.rs:243-246 | the result is the first `min(n, length)` elements of the stream |
| Pager.TakeWhileIsFilterWhenMonotone | src/main.rs:237-239 | when the condition can only turn from true to false along the stream, take-while equals filter |
| AccountTransactions.SelectSource | src/main.rs:230-235 | the from-cursor stream is chosen exactly when both `lt` and `hash` are present, with cursor `(hash, lt)`; otherwise the from-latest stream. Both use the request's address |
| AccountTransactions.LowerBound | src/main.rs:226 | a bound exists exactly when `to_lt` is present and parses as a 64-bit integer, and it is that integer |
| AccountTransactions.GetTransactions | src/main.rs:221-253 | the answer is a prefix of the chosen source's records. It has at most `limit` records (10 by default), and with a bound every record has `lt` above it |
| AccountTransactions.BoundedPage | src/main.rs:236-246 | with bound `B` the page is a prefix of the upstream, every record has `lt > B`, and its length is `min(limit, k)`, for `k` the length of the leading run above `B` |
| AccountTransactions.UnboundedPage | src/main.rs:240-246 | without a bound the page is exactly the first `min(limit, n)` upstream records, in order |
| AccountTransactions.GetTransactionsSpec | src/main.rs:225-246 | `limit` defaults to 10. With no usable bound the handler returns the leading upstream records; with a bound it returns the bounded page |
| AccountTransactions.StopsAtFirstViolation | src/main.rs:237-239 | upstream `lt`s `5, 1, 4` with `to_lt = 2` give only the first record, although `4 > 2`: the composition is not a filter |
| AccountTransactions.StopIsFilterOnOrderedUpstream | src/main.rs:237-239 | on upstream in strictly decreasing `lt` order, stopping at the first violation keeps exactly the records a filter would keep |
| AccountTransactions.ArchivalIgnored | src/main.rs:81 | the `archival` parameter does not change the answer |
| Base64.Decode | src/main.rs:258 | a text whose length is not a multiple of four is rejected as an invalid length, and only such a text is. Empty text decodes to no bytes. An accepted text of `n` groups gives between `3n - 2` and `3n` bytes |
| Base64.Encode | src/main.rs:260 | the encoding has a length divisible by four, and it is empty only for empty input. Which character stands for which six bits is fixed by `Base64.EncodeVectors` |
| Base64.EncodeVectors | src/main.rs:260 | the test vectors of section 10 of RFC 4648 (`"f"` → `Zg==`, `"fo"` → `Zm8=`, `"foo"` → `Zm9v`, `"foobar"` → `Zm9vYmFy`) come out as the standard gives them, and bytes `FB FF` encode as `+/8=`, so `+` is 62 and `/` is 63. Through the round-trip lemmas this also fixes what the decoder returns |
| Base64.EncodeLength | src/main.rs:260 | the encoding has four characters for each started group of three bytes |
| Base64.DecodeEncode | src/main.rs:291 | decoding an encoding gives back the bytes |
| Base64.EncodeDecode | src/main.rs:258-260 | the only text that decodes to given bytes is their encoding, so accepted input is canonical |
| Hex.Encode | src/main.rs:292 | the hex text has two lowercase digits per byte. Their order and values are fixed by `Hex.EncodeVector` |
| Hex.EncodeVector | src/main.rs:292 | bytes `66 6F AB` encode as `666fab`: the high nibble comes first, and the letters are lowercase |
| Hex.DecodeEncode | src/main.rs:292 | hex decoding gives back the encoded bytes |
| Hex.EncodeDecode | src/main.rs:292 | a lowercase hex text that decodes is the encoding of its bytes |
| BlockTransactions.CanonicalAccount | src/main.rs:185 | the display account is the workchain's decimal display, then `:`, then `2 × (decoded byte count)` lowercase hex digits. It reads back as exactly the block's workchain and the base64-decoded address bytes |
| BlockTransactions.RewriteAll | src/main.rs:181-192 | the list keeps its length and order, and `hash`, `lt` and `mode` are copied. Each account is the display form `"<workchain>:<lowercase hex>"` of the original account, exactly as `CanonicalAccount` gives it, and reads back as the workchain and the decoded original account |
| BlockTransactions.GetBlockTransactions | src/main.rs:167-203 | an invalid shard gives "invalid shard", and a failed lookup by seqno gives the internal error. Otherwise the answer carries the looked-up block, `incomplete` false and `req_count` equal to `count` (200 by default). The answer holds every transaction of the block, rewritten with the block's own workchain, and `count` does not truncate it |
| BlockTransactions.BlockTransactionsIgnoreCursor | src/main.rs:169-180 | `after_lt`, `after_hash`, `root_hash` and `file_hash` do not change the answer |
| SendBoc.Normalize | src/main.rs:258-260 | normalisation succeeds exactly when the payload is base64, and the forwarded text decodes to the same bytes |
| SendBoc.NormalizeIdempotent | src/main.rs:258-260 | a normalised payload equals the input, and normalising twice equals normalising once |
| SendBoc.SendBoc | src/main.rs:255-264 | a payload that is not base64 gives invalid params carrying the decoder's message, never the internal error. A valid one is forwarded in normalised form, and only the backend's failure becomes the internal error |

## Left out

- ton-grpc/src/main.rs: CLI parsing, tracing, metrics export and gRPC server wiring. It has no decision logic of its own, and its retry settings (one an `f32`) pass straight to a client builder that is not part of this model.
- The global backend client, `TON.synchronize()` and the HTTP server start-up (src/main.rs:19-32, src/main.rs:271-288): process-level I/O and async runtime plumbing.
- The backend itself (`crate::tonlib`, not part of this model): its calls are function parameters with arbitrary results, and the field types of `BlockIdExt`, `ShortTxId` and `RawTransaction` are assumed. `RawTransaction`'s unread fields are one opaque value.
- `getMasterchainInfo`, `shards`, `getAddressInformation` and `getExtendedAddressInformation` (src/main.rs:124-128, src/main.rs:145-151, src/main.rs:205-219): each is a single backend call passed through `jsonrpc_error`. That behaviour is exactly `RpcErrors.CollapseBackend`, so they are not modelled one by one.
- JSON-RPC parameter deserialisation (`params.parse()?`) and response JSON building: parameters arrive as typed records. The failure of `serde_json::to_value` in `getTransactions` (src/main.rs:248-250) is not modelled.
- The failure of decoding the looked-up block (src/main.rs:177-178) is merged into the lookup backend's failure, which produces the same internal error.
- The debug `println!` (src/main.rs:183).
- Streams are finite sequences. Laziness, suspension and cancellation are not modelled.
- AccountTransactions.GetTransactions: when `to_lt` gives a bound, requires every upstream `lt` to parse. The source unwraps only the `lt` of the records `take_while` actually examines (src/main.rs:237-239). Without a bound nothing is required, as nothing is parsed (src/main.rs:240).
- BlockTransactions.GetBlockTransactions: requires every account of the looked-up block to be valid base64, which stands in for the source's `unwrap` panic (src/main.rs:185). It is not an error path.
- Base64.Decode: models the strict RFC 4648 decoder. The base64 library version is not part of this model. A more lenient version that accepts missing padding would make normalisation add the padding rather than return its input, though normalisation would still be idempotent. The error messages are the `description()` texts of base64 0.13. When a text has several faults, which one the library reports first is not modelled.
- SendBoc.SendBoc: the invalid-params text for unpadded input is not the library's. The model rejects `"YQ"` with "invalid length". base64 0.13, whose `description()` texts the model uses, accepts it and forwards `"YQ=="`.

