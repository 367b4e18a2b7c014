/** The Serum venue (client-pool/src/pools/serum.rs): a market whose three
    accounts (market state, bids slab, asks slab) are refreshed as a batch
    and decoded into an order book on every quote. */
module SerumPools {
  import opened Common
  import opened SerumMatching

  /** Decodes the batch stored by a refresh in the order the quote reads it:
      entries 0, 1 and 2 must exist and be present (`unwrap`), then the
      market state, the bids slab and the asks slab are loaded. A slab is
      loaded only when its orders form a well-formed side. */
  function DecodeBook(accounts: Option<seq<Option<Account>>>): (r: Result<MarketSnapshot>)
    ensures r.Ok? ==> WellFormedBook(r.value)
    ensures r.Ok? <==>
      && accounts.Some? && |accounts.value| >= 3
      && accounts.value[0].Some? && accounts.value[0].value.MarketAccount?
      && accounts.value[1].Some? && accounts.value[1].value.SlabAccount?
      && accounts.value[2].Some? && accounts.value[2].value.SlabAccount?
      && WellFormedSide(false, accounts.value[1].value.orders)
      && WellFormedSide(true, accounts.value[2].value.orders)
    ensures accounts.None? ==> r == Err(NotLoaded)
  {
    if accounts.None? then Err(NotLoaded)
    else
      var accs := accounts.value;
      if |accs| < 1 then Err(IndexOutOfRange)
      else if accs[0].None? then Err(MissingAccount)
      else if |accs| < 2 then Err(IndexOutOfRange)
      else if accs[1].None? then Err(MissingAccount)
      else if |accs| < 3 then Err(IndexOutOfRange)
      else if accs[2].None? then Err(MissingAccount)
      else if !accs[0].value.MarketAccount? then Err(DecodeFailure)
      else if !(accs[1].value.SlabAccount? && WellFormedSide(false, accs[1].value.orders)) then Err(DecodeFailure)
      else if !(accs[2].value.SlabAccount? && WellFormedSide(true, accs[2].value.orders)) then Err(DecodeFailure)
      else
        var market := accs[0].value;
        Ok(MarketSnapshot(accs[1].value.orders, accs[2].value.orders, market.pcLotSize, market.coinLotSize))
  }

  class SerumPool {
    const ownAddress: Pubkey
    const baseMint: Pubkey
    const quoteMint: Pubkey
    const baseScale: nat
    const quoteScale: nat
    const baseVault: Pubkey
    const quoteVault: Pubkey
    const requestQueue: Pubkey
    const eventQueue: Pubkey
    const bidsAddress: Pubkey
    const asksAddress: Pubkey
    const vaultSigner: Pubkey
    /** `FeeTier::default()`, the schedule every quote charges. */
    const feeTier: FeeTier
    /** The account batch of the last refresh; `None` until the first one. */
    var accounts: Option<seq<Option<Account>>>

    ghost predicate Valid() {
      ValidFeeTier(feeTier)
    }

    constructor (ownAddress: Pubkey, baseMint: Pubkey, quoteMint: Pubkey, baseScale: nat, quoteScale: nat,
                 baseVault: Pubkey, quoteVault: Pubkey, requestQueue: Pubkey, eventQueue: Pubkey,
                 bidsAddress: Pubkey, asksAddress: Pubkey, vaultSigner: Pubkey, feeTier: FeeTier)
      requires ValidFeeTier(feeTier)
      ensures Valid() && accounts.None?
      ensures this.ownAddress == ownAddress && this.baseMint == baseMint && this.quoteMint == quoteMint
      ensures this.baseScale == baseScale && this.quoteScale == quoteScale
      ensures this.baseVault == baseVault && this.quoteVault == quoteVault
      ensures this.requestQueue == requestQueue && this.eventQueue == eventQueue
      ensures this.bidsAddress == bidsAddress && this.asksAddress == asksAddress && this.vaultSigner == vaultSigner
    {
      this.ownAddress := ownAddress;
      this.baseMint := baseMint;
      this.quoteMint := quoteMint;
      this.baseScale := baseScale;
      this.quoteScale := quoteScale;
      this.baseVault := baseVault;
      this.quoteVault := quoteVault;
      this.requestQueue := requestQueue;
      this.eventQueue := eventQueue;
      this.bidsAddress := bidsAddress;
      this.asksAddress := asksAddress;
      this.vaultSigner := vaultSigner;
      this.feeTier := feeTier;
      accounts := None;
    }

    /** A quote buys base with quote exactly when its input is the quote mint. */
    predicate IsBid(mintIn: Pubkey) {
      mintIn == quoteMint
    }

    /** `get_update_accounts`: the market, its bids and its asks, the order
        in which the quote decodes the refreshed batch. */
    function GetUpdateAccounts(): (r: seq<Pubkey>)
      ensures |r| == 3
      ensures r[0] == ownAddress && r[1] == bidsAddress && r[2] == asksAddress
    {
      [ownAddress, bidsAddress, asksAddress]
    }

    /** The part of `set_update_accounts` that stores the batch. */
    method SetUpdateAccounts(batch: seq<Option<Account>>)
      modifies this
      ensures accounts == Some(batch)
    {
      accounts := Some(batch);
    }

    /** `get_mints`: base and quote, ascending. */
    function GetMints(): (r: seq<Pubkey>)
      ensures Sorted(r) && multiset(r) == multiset{baseMint, quoteMint}
    {
      SortKeys([baseMint, quoteMint])
    }

    /** `mint_2_scale`: the decimals of the base or the quote token. */
    function Mint2Scale(mint: Pubkey): (r: Result<nat>)
      ensures r.Ok? <==> mint == baseMint || mint == quoteMint
      ensures r.Ok? && mint == baseMint ==> r.value == baseScale
      ensures r.Ok? && mint != baseMint ==> r.value == quoteScale
      ensures r.Err? ==> r.error == InvalidMint
    {
      if mint == baseMint then Ok(baseScale)
      else if mint == quoteMint then Ok(quoteScale)
      else Err(InvalidMint)
    }

    /** `mint_2_addr` is not implemented for this venue. */
    function Mint2Addr(mint: Pubkey): (r: Result<Pubkey>)
      ensures r == Err(NotImplemented)
    {
      Err(NotImplemented)
    }

    /** `can_trade`: the side the order would consume has a best order. */
    function CanTrade(mintIn: Pubkey, mintOut: Pubkey): (r: Result<bool>)
      reads this
      ensures r.Ok? <==> DecodeBook(accounts).Ok?
      ensures r.Ok? ==> (r.value <==> SideToConsume(DecodeBook(accounts).value, IsBid(mintIn)) != [])
    {
      match DecodeBook(accounts)
      case Err(e) => Err(e)
      case Ok(book) =>
        if IsBid(mintIn) then Ok(book.asks != []) else Ok(book.bids != [])
    }

    /** What `get_quote_with_amounts_scaled` returns for the stored batch. */
    function Quote(amountIn: nat, mintIn: Pubkey): Result<nat>
      requires Valid()
      reads this
    {
      match DecodeBook(accounts)
      case Err(e) => Err(e)
      case Ok(book) => QuoteOnBook(book, feeTier, amountIn, IsBid(mintIn))
    }

    /** `get_quote_with_amounts_scaled`: decodes working copies of the
        market and its slabs and steps `bid_iteration` or `ask_iteration`
        until one reports done. The stored accounts are left as they were. */
    method GetQuoteWithAmountsScaled(amountIn: nat, mintIn: Pubkey, mintOut: Pubkey) returns (r: Result<nat>)
      requires Valid()
      ensures r == Quote(amountIn, mintIn)
    {
      var decoded := DecodeBook(accounts);
      if decoded.Err? {
        return Err(decoded.error);
      }
      var book := decoded.value;
      var isBid := IsBid(mintIn);
      if (isBid && book.pcLotSize == 0) || (!isBid && book.coinLotSize == 0) {
        return Err(DivisionByZero);
      }
      var orderbook := new OrderBookState(book);
      var iteration := new Iteration(amountIn % U64_MODULUS, 0);
      ghost var goal := QuoteOnBook(book, feeTier, amountIn, isBid).value;
      while true
        invariant orderbook.Valid()
        invariant orderbook.pcLotSize == book.pcLotSize && orderbook.coinLotSize == book.coinLotSize
        invariant isBid ==> BidMatch(iteration.amountIn, iteration.amountOut, orderbook.asks,
                                     book.pcLotSize, book.coinLotSize, feeTier).amountOut == goal
        invariant !isBid ==> AskMatch(iteration.amountIn, iteration.amountOut, orderbook.bids,
                                      book.pcLotSize, book.coinLotSize, feeTier).amountOut == goal
        decreases if isBid then TotalQuantity(orderbook.asks) else TotalQuantity(orderbook.bids)
      {
        var done;
        if isBid {
          done := BidIteration(iteration, feeTier, orderbook);
        } else {
          done := AskIteration(iteration, feeTier, orderbook);
        }
        if done {
          break;
        }
      }
      r := Ok(iteration.amountOut);
    }

    /** The quote stops exactly where the program panics: the batch does not
        decode, or the lot size it divides by is zero. A quote that
        completes yields nothing when `can_trade` reports no order to
        consume, and a bid is paid in whole base lots. */
    lemma QuoteOutcome(amountIn: nat, mintIn: Pubkey, mintOut: Pubkey)
      requires Valid()
      ensures accounts.None? ==> Quote(amountIn, mintIn) == Err(NotLoaded)
      ensures Quote(amountIn, mintIn).Ok? <==>
        && DecodeBook(accounts).Ok?
        && (if IsBid(mintIn) then DecodeBook(accounts).value.pcLotSize else DecodeBook(accounts).value.coinLotSize) > 0
      ensures CanTrade(mintIn, mintOut) == Ok(false) && Quote(amountIn, mintIn).Ok? ==> Quote(amountIn, mintIn).value == 0
      ensures IsBid(mintIn) && Quote(amountIn, mintIn).Ok? && DecodeBook(accounts).value.coinLotSize > 0 ==>
        Quote(amountIn, mintIn).value % DecodeBook(accounts).value.coinLotSize == 0
    {
      var decoded := DecodeBook(accounts);
      if decoded.Ok? {
        QuoteOnBookOutput(decoded.value, feeTier, amountIn, IsBid(mintIn));
      }
    }

    /** `get_mints` lists base and quote in ascending key order. */
    lemma GetMintsOrder()
      ensures GetMints() == if baseMint <= quoteMint then [baseMint, quoteMint] else [quoteMint, baseMint]
    {
      SortPair(baseMint, quoteMint);
    }
  }
}
