/** `GET /transactions`: the check on the `chain` query parameter, the
    links to the block explorers, and the shaping of the indexer's page of
    transactions into the reply. */
module TransactionsRoute {
  import opened Wrappers
  import opened Text

  const SupportedChains := ["base", "gnosis", "mainnet"]
  const InvalidChain := "Invalid chain parameter"
  const NoTransactions := "No transactions found"
  const InternalError := "Internal server error"

  /** `getTransactionLink`: the explorer page of a transaction on a chain
      named in any letter case, or the empty string for any other chain. */
  function TransactionLink(chain: string, txHash: string): (r: string)
    ensures r == "" <==> ToLower(chain) !in SupportedChains
    ensures r != "" ==> |txHash| < |r| && r[|r| - |txHash|..] == txHash
  {
    var c := ToLower(chain);
    if c == "gnosis" then "https://gnosisscan.io/tx/" + txHash
    else if c == "base" then "https://basescan.org/tx/" + txHash
    else if c == "mainnet" then "https://etherscan.io/tx/" + txHash
    else ""
  }

  /** Each supported chain has its explorer, whatever the letter case. */
  lemma TransactionLinkHosts(chain: string, txHash: string)
    ensures ToLower(chain) == "gnosis" ==> TransactionLink(chain, txHash) == "https://gnosisscan.io/tx/" + txHash
    ensures ToLower(chain) == "base" ==> TransactionLink(chain, txHash) == "https://basescan.org/tx/" + txHash
    ensures ToLower(chain) == "mainnet" ==> TransactionLink(chain, txHash) == "https://etherscan.io/tx/" + txHash
    ensures TransactionLink(ToLower(chain), txHash) == TransactionLink(chain, txHash)
  {
    ToLowerIdempotent(chain);
  }

  /** Two links to the same explorer are equal only for the same hash. */
  lemma TransactionLinkInjective(chain: string, a: string, b: string)
    requires TransactionLink(chain, a) != "" && TransactionLink(chain, a) == TransactionLink(chain, b)
    ensures a == b
  {
    var c := ToLower(chain);
    var prefix := if c == "gnosis" then "https://gnosisscan.io/tx/"
                  else if c == "base" then "https://basescan.org/tx/"
                  else "https://etherscan.io/tx/";
    assert TransactionLink(chain, a) == prefix + a && TransactionLink(chain, b) == prefix + b;
    assert a == (prefix + a)[|prefix|..];
    assert b == (prefix + b)[|prefix|..];
  }

  /** The outcome of the check on `chain`: the lower-cased chain, if any,
      or the refusal. */
  datatype ChainCheck = Allowed(chain: Option<string>) | Rejected(status: nat, message: string)

  /** `req.query.chain?.toLowerCase()`; an empty value is falsy and lets
      every chain through. */
  function CheckChain(chain: Option<string>): (v: ChainCheck)
    ensures v.Rejected? <==> chain.Some? && chain.value != "" && ToLower(chain.value) !in SupportedChains
    ensures v.Rejected? ==> v == Rejected(400, InvalidChain)
    ensures v.Allowed? ==> v.chain == (if chain.Some? then Some(ToLower(chain.value)) else None)
  {
    var lower := if chain.Some? then Some(ToLower(chain.value)) else None;
    if lower.Some? && lower.value != "" && lower.value !in SupportedChains then Rejected(400, InvalidChain)
    else Allowed(lower)
  }

  /** A chain let through by name gets a link to its explorer for every
      transaction. */
  lemma AllowedChainHasLinks(chain: string, txHash: string)
    requires chain != "" && CheckChain(Some(chain)).Allowed?
    ensures TransactionLink(chain, txHash) != ""
  {
  }

  /** One log line of a transaction. */
  datatype Log = Log(decodedData: string, eventName: string)

  /** An item of the indexer's `agentFromTransactions` page. */
  datatype RawItem = RawItem(timestamp: int, transactionHash: string, chain: string,
                             from: string, to: string, value: string, logs: seq<Log>)

  /** The page: its items (`None` when the field is missing) and the
      `pageInfo.endCursor` (`None` when missing or `null`). */
  datatype Page = Page(items: Option<seq<RawItem>>, endCursor: Option<string>)

  /** A transaction as the reply shows it. */
  datatype Transaction = Transaction(timestamp: int, transactionHash: string, chain: string,
                                     from: string, to: string, logs: seq<Log>, transactionLink: string)

  datatype Reply = Listing(transactions: seq<Transaction>, nextCursor: Option<string>) | Refused(status: nat, message: string)

  /** The `map` callback: the item's fields, its logs, and the link for its
      chain; the value of the transaction is not passed on. */
  function MapItem(item: RawItem): (t: Transaction)
    ensures t.timestamp == item.timestamp && t.transactionHash == item.transactionHash && t.chain == item.chain
    ensures t.from == item.from && t.to == item.to && t.logs == item.logs
    ensures t.transactionLink == TransactionLink(item.chain, item.transactionHash)
  {
    Transaction(item.timestamp, item.transactionHash, item.chain, item.from, item.to, item.logs,
                TransactionLink(item.chain, item.transactionHash))
  }

  function MapItems(items: seq<RawItem>): (r: seq<Transaction>)
    ensures |r| == |items|
    ensures forall k :: 0 <= k < |r| ==> r[k] == MapItem(items[k])
  {
    seq(|items|, k requires 0 <= k < |items| => MapItem(items[k]))
  }

  /** The reply to what the indexer returned: its failure, a missing page,
      a page without its `items` field (on which `.map` throws), or the
      mapped items with the cursor of the next page. */
  function Respond(fetched: Result<Option<Page>>): Reply {
    match fetched
    case Failure(message) =>
      if message == NoTransactions then Refused(404, NoTransactions) else Refused(500, InternalError)
    case Success(None) => Listing([], None)
    case Success(Some(page)) =>
      if page.items.None? then Refused(500, InternalError)
      else
        var transactions := MapItems(page.items.value);
        if transactions == [] then Listing([], None)
        else Listing(transactions, if page.endCursor.Some? && page.endCursor.value != "" then page.endCursor else None)
  }

  /** The handler: the chain is checked before the indexer is asked. */
  function Handle(chain: Option<string>, fetched: Result<Option<Page>>): (r: Reply)
    ensures CheckChain(chain).Rejected? ==> r == Refused(400, InvalidChain)
    ensures CheckChain(chain).Allowed? ==> r == Respond(fetched)
  {
    match CheckChain(chain)
    case Rejected(status, message) => Refused(status, message)
    case Allowed(_) => Respond(fetched)
  }

  /** A rejected chain is answered before the indexer is consulted: what it
      would have returned makes no difference. An accepted one is answered
      from the indexer's result alone. */
  lemma HandleChecksChainFirst(chain: Option<string>, f1: Result<Option<Page>>, f2: Result<Option<Page>>)
    ensures CheckChain(chain).Rejected? ==> Handle(chain, f1) == Handle(chain, f2) == Refused(400, InvalidChain)
    ensures CheckChain(chain).Allowed? ==> Handle(chain, f1) == Respond(f1)
  {
  }

  /** No transactions give an empty list and no cursor; otherwise the
      list is the mapped items, one per item and in order, and the cursor
      is the page's `endCursor` when it is a non-empty string. */
  lemma RespondSpec(page: Page)
    requires page.items.Some?
    ensures var r := Respond(Success(Some(page)));
            var items := page.items.value;
            r.Listing?
            && (items == [] ==> r == Listing([], None))
            && (items != [] ==>
                  |r.transactions| == |items|
                  && (forall k :: 0 <= k < |items| ==>
                        r.transactions[k].logs == items[k].logs
                        && r.transactions[k].transactionLink == TransactionLink(items[k].chain, items[k].transactionHash))
                  && (r.nextCursor.Some? <==> page.endCursor.Some? && page.endCursor.value != "")
                  && (r.nextCursor.Some? ==> r.nextCursor == page.endCursor))
  {
  }

  /** A missing page also gives the empty reply; only the indexer's own
      "No transactions found" is a 404, and any other failure a 500. */
  lemma RespondFailures(message: string, endCursor: Option<string>)
    ensures Respond(Success(None)) == Listing([], None)
    ensures Respond(Success(Some(Page(None, endCursor)))) == Refused(500, InternalError)
    ensures Respond(Failure(message)).status == 404 <==> message == NoTransactions
    ensures message != NoTransactions ==> Respond(Failure(message)) == Refused(500, InternalError)
  {
  }

  /** `?chain=invalidChain` is refused with 400 and the message, and a
      request without `chain` is answered from the indexer. */
  lemma ChainParameterCases(fetched: Result<Option<Page>>)
    ensures Handle(Some("invalidChain"), fetched) == Refused(400, InvalidChain)
    ensures Handle(None, fetched) == Respond(fetched)
    ensures Handle(Some("BASE"), fetched) == Respond(fetched)
  {
    assert ToLower("invalidChain") == "invalidchain";
    assert ToLower("BASE") == "base";
  }
}
