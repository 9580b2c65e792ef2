/** `getTransactions`: choice of the backend source from the optional cursor,
    the optional `to_lt` stop condition and the `limit` cap, composed over
    whichever source was chosen. */
module AccountTransactions {
  import opened Results
  import opened Ints
  import opened Decimal
  import opened Pager

  const DefaultLimit: nat := 10

  /** A pagination cursor; `lt` is the decimal text the backend uses. */
  datatype InternalTransactionId = InternalTransactionId(hash: string, lt: string)

  /** A transaction record of an account. The fields the gateway never reads
      are kept as one opaque value. */
  datatype RawTransaction = RawTransaction(transactionId: InternalTransactionId, rest: string)

  datatype TransactionsParams = TransactionsParams(
    address: string,
    limit: Option<Uint16>,
    lt: Option<string>,
    hash: Option<string>,
    toLt: Option<string>,
    archival: Option<bool>)

  /** The two backend streams, one abstraction for the consumer. */
  datatype TxSource =
    | FromCursor(address: string, cursor: InternalTransactionId)
    | FromLatest(address: string)

  /** The cursor stream is used exactly when both `lt` and `hash` are given. */
  function SelectSource(p: TransactionsParams): (src: TxSource)
    ensures src.FromCursor? <==> p.lt.Some? && p.hash.Some?
    ensures src.address == p.address
    ensures src.FromCursor? ==> src.cursor == InternalTransactionId(p.hash.value, p.lt.value)
  {
    match (p.lt, p.hash)
    case (Some(lt), Some(hash)) => FromCursor(p.address, InternalTransactionId(hash, lt))
    case _ => FromLatest(p.address)
  }

  /** The `to_lt` bound, when it is given and parses as a 64-bit integer. */
  function LowerBound(p: TransactionsParams): (b: Option<int>)
    ensures b.Some? <==> p.toLt.Some? && IsI64Text(p.toLt.value)
    ensures b.Some? ==> b.value == LiteralValue(p.toLt.value)
  {
    match p.toLt
    case None => None
    case Some(text) =>
      match ParseI64(text)
      case Success(v) => Some(v)
      case Failure(_) => None
  }

  /** Every record's `lt` is valid decimal text (the source unwraps the parse). */
  predicate ValidLts(s: seq<RawTransaction>) {
    forall i :: 0 <= i < |s| ==> IsI64Text(s[i].transactionId.lt)
  }

  function Lt(tx: RawTransaction): int
    requires IsI64Text(tx.transactionId.lt)
  {
    LiteralValue(tx.transactionId.lt)
  }

  /** The take-while condition `lt > bound`. */
  predicate AboveBound(tx: RawTransaction, bound: int) {
    match ParseI64(tx.transactionId.lt)
    case Success(lt) => lt > bound
    case Failure(_) => false
  }

  /** The composition: take-while `lt > bound` when there is a bound, then
      take `limit`. */
  function Page(upstream: seq<RawTransaction>, bound: Option<int>, limit: nat): seq<RawTransaction> {
    var bounded := if bound.Some? then TakeWhile(upstream, tx => AboveBound(tx, bound.value)) else upstream;
    Take(bounded, limit)
  }

  /** `get_transactions`. `fetch` is the backend: the records each source
      yields, newest first. `archival` is accepted and not used. */
  function GetTransactions(p: TransactionsParams, fetch: TxSource -> seq<RawTransaction>): (r: seq<RawTransaction>)
    requires LowerBound(p).Some? ==> ValidLts(fetch(SelectSource(p)))
    ensures var up := fetch(SelectSource(p)); |r| <= |up| && r == up[..|r|]
    ensures |r| <= p.limit.GetOr(DefaultLimit)
    ensures LowerBound(p).Some? ==> forall i :: 0 <= i < |r| ==> IsI64Text(r[i].transactionId.lt) && Lt(r[i]) > LowerBound(p).value
  {
    var up, bound, limit := fetch(SelectSource(p)), LowerBound(p), p.limit.GetOr(DefaultLimit);
    if bound.Some? then
      BoundedPage(up, bound.value, limit, |TakeWhile(up, tx => AboveBound(tx, bound.value))|);
      Page(up, bound, limit)
    else Page(up, bound, limit)
  }

  /** With a bound `b`: the page is a prefix of the upstream, every element
      has `lt > b`, and its length is `min(limit, k)` for `k` the length of
      the leading run above the bound, so nothing after the first element at
      or below the bound is ever included. */
  lemma {:induction false} BoundedPage(upstream: seq<RawTransaction>, b: int, limit: nat, k: nat)
    requires ValidLts(upstream)
    requires IsLeadingRun(upstream, tx => AboveBound(tx, b), k)
    ensures var r := Page(upstream, Some(b), limit);
      && r == upstream[..|r|]
      && (forall i :: 0 <= i < |r| ==> Lt(r[i]) > b)
      && |r| == Min(limit, k)
  {
    var p := tx => AboveBound(tx, b);
    var w := TakeWhile(upstream, p);
    LeadingRunUnique(upstream, p, |w|, k);
    var r := Take(w, limit);
    assert forall i :: 0 <= i < |r| ==> r[i] == upstream[i];
    assert forall i :: 0 <= i < |r| ==> AboveBound(r[i], b) by {
      forall i | 0 <= i < |r| ensures AboveBound(r[i], b) {
        assert r[i] == w[i];
      }
    }
  }

  /** Without a usable bound the page is the first `min(limit, n)` upstream
      records, in upstream order. */
  lemma UnboundedPage(upstream: seq<RawTransaction>, limit: nat)
    ensures Page(upstream, None, limit) == upstream[..Min(limit, |upstream|)]
  {
  }

  /** The whole handler: which source is read, which bound applies, and the
      default limit of 10. */
  lemma GetTransactionsSpec(p: TransactionsParams, fetch: TxSource -> seq<RawTransaction>)
    requires LowerBound(p).Some? ==> ValidLts(fetch(SelectSource(p)))
    ensures var up, limit := fetch(SelectSource(p)), p.limit.GetOr(DefaultLimit);
      && (p.limit.None? ==> limit == 10)
      && (LowerBound(p).None? ==> GetTransactions(p, fetch) == up[..Min(limit, |up|)])
      && (LowerBound(p).Some? ==> GetTransactions(p, fetch) == Page(up, Some(LowerBound(p).value), limit))
  {
  }

  function Tx(lt: string): RawTransaction {
    RawTransaction(InternalTransactionId("", lt), "")
  }

  /** Take-while is not a filter: with `to_lt = 2`, the upstream `lt`s
      `5, 1, 4` give only the first record, although `4 > 2`. */
  lemma StopsAtFirstViolation()
    ensures Page([Tx("5"), Tx("1"), Tx("4")], Some(2), 10) == [Tx("5")]
  {
    var up := [Tx("5"), Tx("1"), Tx("4")];
    var p := tx => AboveBound(tx, 2);
    assert ParseI64("5") == Success(5) && ParseI64("1") == Success(1);
    assert p(up[0]) && !p(up[1]);
    assert IsLeadingRun(up, p, 1);
    LeadingRunUnique(up, p, 1, |TakeWhile(up, p)|);
  }

  /** `archival` does not influence the answer. */
  lemma ArchivalIgnored(p: TransactionsParams, fetch: TxSource -> seq<RawTransaction>, archival: Option<bool>)
    requires LowerBound(p).Some? ==> ValidLts(fetch(SelectSource(p)))
    ensures LowerBound(p.(archival := archival)).Some? ==> ValidLts(fetch(SelectSource(p.(archival := archival))))
    ensures GetTransactions(p.(archival := archival), fetch) == GetTransactions(p, fetch)
  {
  }

  /** Upstream ordered by decreasing `lt`, as the backend delivers it. */
  predicate DecreasingLt(s: seq<RawTransaction>)
    requires ValidLts(s)
  {
    forall i, j :: 0 <= i < j < |s| ==> Lt(s[i]) > Lt(s[j])
  }

  /** On upstream in decreasing `lt` order the stop-at-first-violation rule
      keeps exactly the records above the bound, as a filter would. */
  lemma StopIsFilterOnOrderedUpstream(upstream: seq<RawTransaction>, b: int)
    requires ValidLts(upstream) && DecreasingLt(upstream)
    ensures TakeWhile(upstream, tx => AboveBound(tx, b)) == Filter(upstream, tx => AboveBound(tx, b))
  {
    var p := tx => AboveBound(tx, b);
    assert forall i, j :: 0 <= i < j < |upstream| && p(upstream[j]) ==> p(upstream[i]);
    TakeWhileIsFilterWhenMonotone(upstream, p);
  }
}
