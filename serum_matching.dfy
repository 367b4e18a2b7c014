/** The order-book matcher behind the Serum venue's quote
    (client-pool/src/pools/serum.rs). A market order is filled step by step
    against the best resting order of the opposite side: a bid (quote in,
    base out) walks the asks from the lowest price, an ask (base in, quote
    out) walks the bids from the highest price.

    The critbit slabs of the program are modelled as sequences with the best
    order at the head. `BidStep`, `AskStep` and `Match` say what one step and
    a whole match compute; the classes `Iteration` and `OrderBookState` and
    the methods `BidIteration` and `AskIteration` carry out one step in place,
    as the program does. */
module SerumMatching {
  import opened Common

  function TotalQuantity(side: seq<Order>): nat {
    if side == [] then 0 else side[0].quantity + TotalQuantity(side[1..])
  }

  /** Prices are never zero (`NonZeroU64`), and an order whose quantity
      reaches zero is removed from the book. */
  predicate Resting(side: seq<Order>) {
    forall i :: 0 <= i < |side| ==> side[i].price > 0 && side[i].quantity > 0
  }

  /** Best order first: lowest price first among asks, highest first among bids. */
  predicate BestFirst(isAsks: bool, side: seq<Order>) {
    forall i, j :: 0 <= i < j < |side| ==>
      if isAsks then side[i].price <= side[j].price else side[j].price <= side[i].price
  }

  predicate WellFormedSide(isAsks: bool, side: seq<Order>) {
    Resting(side) && BestFirst(isAsks, side)
  }

  /** What a quote needs of the decoded market: both sides of the book and
      the lot sizes (`pc_lot_size` for the quote token, `coin_lot_size` for
      the base token). */
  datatype MarketSnapshot = MarketSnapshot(bids: seq<Order>, asks: seq<Order>, pcLotSize: nat, coinLotSize: nat)

  /** Both sides of a decoded book are well formed. */
  predicate WellFormedBook(m: MarketSnapshot) {
    WellFormedSide(false, m.bids) && WellFormedSide(true, m.asks)
  }

  /** The fee schedule `FeeTier`, whose code is not part of this model: the
      two operations the matcher uses, kept abstract. */
  datatype FeeTier = FeeTier(removeTakerFee: nat -> nat, takerFee: nat -> nat)

  /** What the matcher relies on: a taker fee never exceeds the amount it is
      charged on, and an amount no larger than `removeTakerFee(x)` can pay
      its own taker fee out of `x`. The subtraction of a bid step needs the
      second fact. */
  ghost predicate ValidFeeTier(fee: FeeTier) {
    && (forall x: nat :: fee.takerFee(x) <= x)
    && (forall x: nat, y: nat :: y <= fee.removeTakerFee(x) ==> y + fee.takerFee(y) <= x)
  }

  /** `set_quantity` on the best order, then `remove_by_key` of its id once
      its quantity is zero; the best order is the head. */
  function FillBest(side: seq<Order>, qty: nat): (r: seq<Order>)
    requires side != [] && 0 < qty <= side[0].quantity
    // the best order loses exactly `qty` lots ...
    ensures qty < side[0].quantity ==> |r| == |side| && r[0] == side[0].(quantity := side[0].quantity - qty)
    // ... every other order keeps its place ...
    ensures qty < side[0].quantity ==> forall k :: 1 <= k < |side| ==> r[k] == side[k]
    // ... and the best order leaves the book exactly when that drains it
    ensures qty == side[0].quantity ==> r == side[1..]
    ensures TotalQuantity(r) + qty == TotalQuantity(side)
  {
    var rest := side[0].quantity - qty;
    if rest == 0 then side[1..]
    else
      var r := side[0 := side[0].(quantity := rest)];
      assert r[1..] == side[1..];
      r
  }

  lemma FillBestWellFormed(isAsks: bool, side: seq<Order>, qty: nat)
    requires WellFormedSide(isAsks, side)
    requires side != [] && 0 < qty <= side[0].quantity
    ensures WellFormedSide(isAsks, FillBest(side, qty))
  {
    var r := FillBest(side, qty);
    if qty < side[0].quantity {
      forall i, j | 0 <= i < j < |r|
        ensures if isAsks then r[i].price <= r[j].price else r[j].price <= r[i].price
      {
        assert r[j] == side[j];
        assert r[i].price == side[i].price;
      }
    } else {
      forall i, j | 0 <= i < j < |r|
        ensures if isAsks then r[i].price <= r[j].price else r[j].price <= r[i].price
      {
        assert r[i] == side[i + 1] && r[j] == side[j + 1];
      }
    }
  }

  /** The state after one `bid_iteration` or `ask_iteration`: whether
      matching is over, the new `amount_in` and `amount_out`, the consumed
      side of the book, and the base lots taken from it. */
  datatype Step = Step(done: bool, amountIn: nat, amountOut: nat, side: seq<Order>, filled: nat)

  /** `max_pc_qty`: the quote lots the input buys once the taker fee is set aside. */
  function BidBudget(amountIn: nat, pcLotSize: nat, fee: FeeTier): (r: nat)
    requires pcLotSize > 0
    ensures r * pcLotSize <= fee.removeTakerFee(amountIn) < r * pcLotSize + pcLotSize
  {
    fee.removeTakerFee(amountIn) / pcLotSize
  }

  /** `trade_qty` of a bid: the best ask's quantity, or fewer lots when the
      budget cannot pay for all of them. */
  function BidTradeQty(amountIn: nat, asks: seq<Order>, pcLotSize: nat, fee: FeeTier): (r: nat)
    requires pcLotSize > 0 && asks != [] && asks[0].price > 0
    ensures r <= asks[0].quantity && r * asks[0].price <= BidBudget(amountIn, pcLotSize, fee)
    ensures r == asks[0].quantity || BidBudget(amountIn, pcLotSize, fee) < (r + 1) * asks[0].price
  {
    Min(asks[0].quantity, BidBudget(amountIn, pcLotSize, fee) / asks[0].price)
  }

  /** A fill the budget allows costs no more than the budget, in lots and
      in native units together with its taker fee. */
  lemma BidFillBounded(fee: FeeTier, amountIn: nat, pcLotSize: nat, price: nat, qty: nat)
    requires ValidFeeTier(fee) && pcLotSize > 0 && price > 0 && qty > 0
    requires qty <= BidBudget(amountIn, pcLotSize, fee) / price
    ensures Mul(qty, price) <= BidBudget(amountIn, pcLotSize, fee)
    ensures 0 < Mul(Mul(qty, price), pcLotSize)
    ensures Mul(Mul(qty, price), pcLotSize) + fee.takerFee(Mul(Mul(qty, price), pcLotSize)) <= amountIn
  {
    var budget := BidBudget(amountIn, pcLotSize, fee);
    MulLe(qty, budget / price, price);
    DivMulLe(budget, price);
    MulLe(Mul(qty, price), budget, pcLotSize);
    DivMulLe(fee.removeTakerFee(amountIn), pcLotSize);
    MulPositive(qty, price);
    MulPositive(Mul(qty, price), pcLotSize);
  }

  /** One `bid_iteration`: spend quote against the lowest ask. */
  function BidStep(amountIn: nat, amountOut: nat, asks: seq<Order>, pcLotSize: nat, coinLotSize: nat, fee: FeeTier): (r: Step)
    requires pcLotSize > 0 && WellFormedSide(true, asks) && ValidFeeTier(fee)
    ensures r.done <==> r.filled == 0
    // a step that fills nothing changes nothing
    ensures r.done ==> r.side == asks && r.amountIn == amountIn
    // otherwise only the best ask is touched
    ensures !r.done ==> asks != [] && r.filled <= asks[0].quantity && r.side == FillBest(asks, r.filled)
    // base received grows by the lots filled
    ensures r.amountOut == amountOut + Mul(r.filled, coinLotSize)
    // the quote left never grows, and shrinks on every fill
    ensures r.amountIn <= amountIn && (!r.done ==> r.amountIn < amountIn)
    ensures TotalQuantity(r.side) + r.filled == TotalQuantity(asks)
    ensures WellFormedSide(true, r.side)
  {
    var maxPcQty := BidBudget(amountIn, pcLotSize, fee);
    var tradeQty := if asks == [] then 0 else BidTradeQty(amountIn, asks, pcLotSize, fee);
    if tradeQty == 0 then
      // nothing was filled: the fee on an empty fill is zero
      assert fee.takerFee(0) <= 0;
      Step(true, amountIn - Mul(0, pcLotSize) - fee.takerFee(0), amountOut + Mul(0, coinLotSize), asks, 0)
    else
      var price := asks[0].price;
      BidFillBounded(fee, amountIn, pcLotSize, price, tradeQty);
      FillBestWellFormed(true, asks, tradeQty);
      var pcQtyRemaining := maxPcQty - Mul(tradeQty, price);
      var nativeAccumFillPrice := Mul(maxPcQty - pcQtyRemaining, pcLotSize);
      var nativeTakerFee := fee.takerFee(nativeAccumFillPrice);
      Step(false, amountIn - nativeAccumFillPrice - nativeTakerFee,
           amountOut + Mul(tradeQty, coinLotSize), FillBest(asks, tradeQty), tradeQty)
  }

  /** How much one bid step fills: the most the budget buys of the best
      ask, so the budget covers its price (the subtraction of
      `pc_qty_remaining` cannot underflow), and the input pays exactly that
      price and its taker fee. Matching stops exactly when no ask rests or
      the budget buys no lot of the best one. */
  lemma BidStepFill(amountIn: nat, amountOut: nat, asks: seq<Order>, pcLotSize: nat, coinLotSize: nat, fee: FeeTier)
    requires pcLotSize > 0 && WellFormedSide(true, asks) && ValidFeeTier(fee)
    ensures
      var r := BidStep(amountIn, amountOut, asks, pcLotSize, coinLotSize, fee);
      && (r.done <==> asks == [] || BidTradeQty(amountIn, asks, pcLotSize, fee) == 0)
      && (!r.done ==> r.filled == BidTradeQty(amountIn, asks, pcLotSize, fee))
      && (!r.done ==> Mul(r.filled, asks[0].price) <= BidBudget(amountIn, pcLotSize, fee))
      && (!r.done ==>
            var spent := Mul(Mul(r.filled, asks[0].price), pcLotSize);
            r.amountIn + spent + fee.takerFee(spent) == amountIn)
  {
    var r := BidStep(amountIn, amountOut, asks, pcLotSize, coinLotSize, fee);
    if !r.done {
      BidFillBounded(fee, amountIn, pcLotSize, asks[0].price, r.filled);
    }
  }

  /** `trade_qty` of an ask: the best bid's quantity, or the whole lots left to sell. */
  function AskTradeQty(amountIn: nat, bids: seq<Order>, coinLotSize: nat): (r: nat)
    requires coinLotSize > 0 && bids != []
    ensures r <= bids[0].quantity && r * coinLotSize <= amountIn
    ensures r == bids[0].quantity || amountIn < (r + 1) * coinLotSize
  {
    Min(bids[0].quantity, amountIn / coinLotSize)
  }

  lemma AskRemainderBounded(amountIn: nat, coinLotSize: nat, qty: nat)
    requires coinLotSize > 0 && qty <= amountIn / coinLotSize
    ensures Mul(amountIn / coinLotSize - qty, coinLotSize) <= amountIn
    ensures qty > 0 ==> Mul(amountIn / coinLotSize - qty, coinLotSize) < amountIn
  {
    var u := amountIn / coinLotSize;
    DivMulLe(amountIn, coinLotSize);
    Distrib(u - qty, qty, coinLotSize);
    if qty > 0 {
      MulPositive(qty, coinLotSize);
    }
  }

  /** One `ask_iteration`: sell base lots to the highest bid. */
  function AskStep(amountIn: nat, amountOut: nat, bids: seq<Order>, pcLotSize: nat, coinLotSize: nat, fee: FeeTier): (r: Step)
    requires coinLotSize > 0 && WellFormedSide(false, bids) && ValidFeeTier(fee)
    ensures r.done <==> r.filled == 0
    // a step that fills nothing leaves the book and the output alone
    ensures r.done ==> r.side == bids && r.amountOut == amountOut
    // the quote received never shrinks
    ensures amountOut <= r.amountOut
    // otherwise only the best bid is touched
    ensures !r.done ==> bids != [] && r.filled <= bids[0].quantity && r.side == FillBest(bids, r.filled)
    // what is left to sell is the unfilled whole lots
    ensures r.filled <= amountIn / coinLotSize
    ensures r.amountIn == Mul(amountIn / coinLotSize - r.filled, coinLotSize)
    ensures r.amountIn <= amountIn && (!r.done ==> r.amountIn < amountIn)
    ensures TotalQuantity(r.side) + r.filled == TotalQuantity(bids)
    ensures WellFormedSide(false, r.side)
  {
    var unfilledQty := amountIn / coinLotSize;
    var tradeQty := if bids == [] then 0 else AskTradeQty(amountIn, bids, coinLotSize);
    AskRemainderBounded(amountIn, coinLotSize, tradeQty);
    var accumFillPrice := if tradeQty == 0 then 0 else Mul(tradeQty, bids[0].price);
    var nativeTakerPcQty := Mul(accumFillPrice, pcLotSize);
    var nativeTakerFee := fee.takerFee(nativeTakerPcQty);
    var netTakerPcQty := nativeTakerPcQty - nativeTakerFee;
    if tradeQty == 0 then
      Step(true, Mul(unfilledQty, coinLotSize), amountOut + netTakerPcQty, bids, 0)
    else
      FillBestWellFormed(false, bids, tradeQty);
      Step(false, Mul(unfilledQty - tradeQty, coinLotSize), amountOut + netTakerPcQty,
           FillBest(bids, tradeQty), tradeQty)
  }

  /** How much one ask step fills and what it earns: the best bid's price
      for the lots sold, less the taker fee. Matching stops exactly when no
      bid rests or no whole lot is left to sell. */
  lemma AskStepFill(amountIn: nat, amountOut: nat, bids: seq<Order>, pcLotSize: nat, coinLotSize: nat, fee: FeeTier)
    requires coinLotSize > 0 && WellFormedSide(false, bids) && ValidFeeTier(fee)
    ensures
      var r := AskStep(amountIn, amountOut, bids, pcLotSize, coinLotSize, fee);
      && (r.done <==> bids == [] || AskTradeQty(amountIn, bids, coinLotSize) == 0)
      && (!r.done ==> r.filled == AskTradeQty(amountIn, bids, coinLotSize))
      && (!r.done ==>
            var proceeds := Mul(Mul(r.filled, bids[0].price), pcLotSize);
            r.amountOut + fee.takerFee(proceeds) == amountOut + proceeds)
  {
  }

  /** The outcome of a whole match: what is left of the input, the output,
      the consumed side of the book afterwards and the base lots filled. */
  datatype MatchResult = MatchResult(amountIn: nat, amountOut: nat, side: seq<Order>, filled: nat)

  /** The `loop` of a bid quote: `bid_iteration` until one reports done. It
      ends because every step that is not done removes a positive quantity
      from the asks. */
  function BidMatch(amountIn: nat, amountOut: nat, asks: seq<Order>, pcLotSize: nat, coinLotSize: nat, fee: FeeTier): (r: MatchResult)
    requires pcLotSize > 0 && WellFormedSide(true, asks) && ValidFeeTier(fee)
    // conservation: the quantity that left the book is the quantity filled
    ensures TotalQuantity(asks) == TotalQuantity(r.side) + r.filled
    ensures WellFormedSide(true, r.side)
    ensures r.amountIn <= amountIn && amountOut <= r.amountOut
    decreases TotalQuantity(asks)
  {
    var s := BidStep(amountIn, amountOut, asks, pcLotSize, coinLotSize, fee);
    if s.done then MatchResult(s.amountIn, s.amountOut, s.side, 0)
    else
      var m := BidMatch(s.amountIn, s.amountOut, s.side, pcLotSize, coinLotSize, fee);
      MatchResult(m.amountIn, m.amountOut, m.side, s.filled + m.filled)
  }

  /** The `loop` of an ask quote: `ask_iteration` until one reports done. */
  function AskMatch(amountIn: nat, amountOut: nat, bids: seq<Order>, pcLotSize: nat, coinLotSize: nat, fee: FeeTier): (r: MatchResult)
    requires coinLotSize > 0 && WellFormedSide(false, bids) && ValidFeeTier(fee)
    ensures TotalQuantity(bids) == TotalQuantity(r.side) + r.filled
    ensures WellFormedSide(false, r.side)
    ensures r.amountIn <= amountIn && amountOut <= r.amountOut
    decreases TotalQuantity(bids)
  {
    var s := AskStep(amountIn, amountOut, bids, pcLotSize, coinLotSize, fee);
    if s.done then MatchResult(s.amountIn, s.amountOut, s.side, 0)
    else
      var m := AskMatch(s.amountIn, s.amountOut, s.side, pcLotSize, coinLotSize, fee);
      MatchResult(m.amountIn, m.amountOut, m.side, s.filled + m.filled)
  }

  /** A bid receives exactly the filled lots, in base units. */
  lemma {:induction false} BidMatchOutput(amountIn: nat, amountOut: nat, asks: seq<Order>, pcLotSize: nat, coinLotSize: nat, fee: FeeTier)
    requires pcLotSize > 0 && WellFormedSide(true, asks) && ValidFeeTier(fee)
    ensures
      var r := BidMatch(amountIn, amountOut, asks, pcLotSize, coinLotSize, fee);
      r.amountOut == amountOut + Mul(r.filled, coinLotSize)
    decreases TotalQuantity(asks)
  {
    var s := BidStep(amountIn, amountOut, asks, pcLotSize, coinLotSize, fee);
    if !s.done {
      BidMatchOutput(s.amountIn, s.amountOut, s.side, pcLotSize, coinLotSize, fee);
      var m := BidMatch(s.amountIn, s.amountOut, s.side, pcLotSize, coinLotSize, fee);
      Distrib(s.filled, m.filled, coinLotSize);
    }
  }

  /** An ask sells no more whole lots than it holds and keeps exactly the
      unfilled ones. */
  lemma {:induction false} AskMatchRemainder(amountIn: nat, amountOut: nat, bids: seq<Order>, pcLotSize: nat, coinLotSize: nat, fee: FeeTier)
    requires coinLotSize > 0 && WellFormedSide(false, bids) && ValidFeeTier(fee)
    ensures
      var r := AskMatch(amountIn, amountOut, bids, pcLotSize, coinLotSize, fee);
      r.filled <= amountIn / coinLotSize && r.amountIn == Mul(amountIn / coinLotSize - r.filled, coinLotSize)
    decreases TotalQuantity(bids)
  {
    var s := AskStep(amountIn, amountOut, bids, pcLotSize, coinLotSize, fee);
    var u := amountIn / coinLotSize;
    if s.done {
      assert s.amountIn == Mul(u - 0, coinLotSize);
    } else {
      AskMatchRemainder(s.amountIn, s.amountOut, s.side, pcLotSize, coinLotSize, fee);
      var m := AskMatch(s.amountIn, s.amountOut, s.side, pcLotSize, coinLotSize, fee);
      RemainderComposes(u, s.filled, m.filled, coinLotSize, s.amountIn, m.amountIn);
    }
  }

  /** Two steps that each keep the unfilled whole lots keep them together. */
  lemma RemainderComposes(lots: nat, filled1: nat, filled2: nat, lotSize: nat, left1: nat, left2: nat)
    requires lotSize > 0 && filled1 <= lots && left1 == Mul(lots - filled1, lotSize)
    requires filled2 <= left1 / lotSize && left2 == Mul(left1 / lotSize - filled2, lotSize)
    ensures filled1 + filled2 <= lots && left2 == Mul(lots - (filled1 + filled2), lotSize)
  {
    MulDivCancel(lots - filled1, lotSize);
    assert left1 / lotSize - filled2 == lots - (filled1 + filled2);
  }

  /** The side a market order consumes: a bid takes asks, an ask takes bids. */
  function SideToConsume(m: MarketSnapshot, isBid: bool): seq<Order> {
    if isBid then m.asks else m.bids
  }

  /** The matching loop of `get_quote_with_amounts_scaled` on a decoded
      book: the input is cut to 64 bits (`as u64`), matching starts with no
      output, and the quote is the output the loop accumulates. The first
      step divides by the lot size of the input token, so a zero lot size
      stops the quote. */
  function QuoteOnBook(m: MarketSnapshot, fee: FeeTier, amountIn: nat, isBid: bool): Result<nat>
    requires WellFormedBook(m) && ValidFeeTier(fee)
  {
    if isBid then
      if m.pcLotSize == 0 then Err(DivisionByZero)
      else Ok(BidMatch(amountIn % U64_MODULUS, 0, m.asks, m.pcLotSize, m.coinLotSize, fee).amountOut)
    else
      if m.coinLotSize == 0 then Err(DivisionByZero)
      else Ok(AskMatch(amountIn % U64_MODULUS, 0, m.bids, m.pcLotSize, m.coinLotSize, fee).amountOut)
  }

  /** A quote against an empty side yields nothing, and a bid receives whole
      base lots: its output is the base lots filled times `coin_lot_size`,
      exactly the quantity that left the asks. */
  lemma QuoteOnBookOutput(m: MarketSnapshot, fee: FeeTier, amountIn: nat, isBid: bool)
    requires WellFormedBook(m) && ValidFeeTier(fee)
    ensures var r := QuoteOnBook(m, fee, amountIn, isBid);
      && (r.Err? <==> (if isBid then m.pcLotSize else m.coinLotSize) == 0)
      && (r.Ok? && SideToConsume(m, isBid) == [] ==> r.value == 0)
      && (r.Ok? && isBid ==>
            var res := BidMatch(amountIn % U64_MODULUS, 0, m.asks, m.pcLotSize, m.coinLotSize, fee);
            && r.value == Mul(res.filled, m.coinLotSize)
            && TotalQuantity(m.asks) == TotalQuantity(res.side) + res.filled
            && (m.coinLotSize > 0 ==> r.value % m.coinLotSize == 0))
  {
    if isBid && m.pcLotSize > 0 {
      var res := BidMatch(amountIn % U64_MODULUS, 0, m.asks, m.pcLotSize, m.coinLotSize, fee);
      BidMatchOutput(amountIn % U64_MODULUS, 0, m.asks, m.pcLotSize, m.coinLotSize, fee);
      if m.coinLotSize > 0 {
        MulDivCancel(res.filled, m.coinLotSize);
      }
    }
  }

  /** The mutable pair `Iteration` that both step functions update. */
  class Iteration {
    var amountIn: nat
    var amountOut: nat

    constructor (amountIn: nat, amountOut: nat)
      ensures this.amountIn == amountIn && this.amountOut == amountOut
    {
      this.amountIn := amountIn;
      this.amountOut := amountOut;
    }
  }

  /** `OrderBookState`: the working copy of the book that a quote edits. */
  class OrderBookState {
    var bids: seq<Order>
    var asks: seq<Order>
    const pcLotSize: nat
    const coinLotSize: nat

    function Snapshot(): MarketSnapshot
      reads this
    {
      MarketSnapshot(bids, asks, pcLotSize, coinLotSize)
    }

    ghost predicate Valid()
      reads this
    {
      WellFormedBook(Snapshot())
    }

    constructor (snapshot: MarketSnapshot)
      ensures Snapshot() == snapshot
    {
      bids := snapshot.bids;
      asks := snapshot.asks;
      pcLotSize := snapshot.pcLotSize;
      coinLotSize := snapshot.coinLotSize;
    }
  }

  /** `bid_iteration`. The program's inner `loop` always leaves on its first
      pass, so its body appears here once. */
  method BidIteration(iteration: Iteration, feeTier: FeeTier, ob: OrderBookState) returns (done: bool)
    requires ob.Valid() && ob.pcLotSize > 0 && ValidFeeTier(feeTier)
    modifies iteration, ob
    ensures ob.Valid() && ob.bids == old(ob.bids)
    ensures
      var s := BidStep(old(iteration.amountIn), old(iteration.amountOut), old(ob.asks), ob.pcLotSize, ob.coinLotSize, feeTier);
      && done == s.done
      && iteration.amountIn == s.amountIn
      && iteration.amountOut == s.amountOut
      && ob.asks == s.side
  {
    var quoteLotSize := ob.pcLotSize;
    var baseLotSize := ob.coinLotSize;
    var startAmountIn := iteration.amountIn;
    var maxPcQty := feeTier.removeTakerFee(iteration.amountIn) / quoteLotSize;
    var pcQtyRemaining := maxPcQty;
    if ob.asks == [] {
      done := true;
    } else {
      var bestOffer := ob.asks[0];
      var tradeQty := Min(bestOffer.quantity, pcQtyRemaining / bestOffer.price);
      if tradeQty == 0 {
        done := true;
      } else {
        BidFillBounded(feeTier, startAmountIn, quoteLotSize, bestOffer.price, tradeQty);
        FillBestWellFormed(true, ob.asks, tradeQty);
        pcQtyRemaining := pcQtyRemaining - Mul(tradeQty, bestOffer.price);
        iteration.amountOut := iteration.amountOut + Mul(tradeQty, baseLotSize);
        var updated := bestOffer.(quantity := bestOffer.quantity - tradeQty);
        ob.asks := ob.asks[0 := updated];
        if updated.quantity == 0 {
          ob.asks := ob.asks[1..];
        }
        done := false;
      }
    }
    assert feeTier.takerFee(0) <= 0;
    var nativeAccumFillPrice := Mul(maxPcQty - pcQtyRemaining, quoteLotSize);
    var nativeTakerFee := feeTier.takerFee(nativeAccumFillPrice);
    iteration.amountIn := startAmountIn - nativeAccumFillPrice - nativeTakerFee;
  }

  /** `ask_iteration`, with its single-pass `loop` written out once. */
  method AskIteration(iteration: Iteration, feeTier: FeeTier, ob: OrderBookState) returns (done: bool)
    requires ob.Valid() && ob.coinLotSize > 0 && ValidFeeTier(feeTier)
    modifies iteration, ob
    ensures ob.Valid() && ob.asks == old(ob.asks)
    ensures
      var s := AskStep(old(iteration.amountIn), old(iteration.amountOut), old(ob.bids), ob.pcLotSize, ob.coinLotSize, feeTier);
      && done == s.done
      && iteration.amountIn == s.amountIn
      && iteration.amountOut == s.amountOut
      && ob.bids == s.side
  {
    var pcLotSize := ob.pcLotSize;
    var coinLotSize := ob.coinLotSize;
    var maxQty := iteration.amountIn;
    var unfilledQty := maxQty / coinLotSize;
    var accumFillPrice := 0;
    if ob.bids == [] {
      done := true;
    } else {
      var bestBid := ob.bids[0];
      var tradeQty := Min(bestBid.quantity, unfilledQty);
      if tradeQty == 0 {
        done := true;
      } else {
        FillBestWellFormed(false, ob.bids, tradeQty);
        var updated := bestBid.(quantity := bestBid.quantity - tradeQty);
        ob.bids := ob.bids[0 := updated];
        unfilledQty := unfilledQty - tradeQty;
        accumFillPrice := accumFillPrice + Mul(tradeQty, bestBid.price);
        if updated.quantity == 0 {
          ob.bids := ob.bids[1..];
        }
        done := false;
      }
    }
    var nativeTakerPcQty := Mul(accumFillPrice, pcLotSize);
    var nativeTakerFee := feeTier.takerFee(nativeTakerPcQty);
    var netTakerPcQty := nativeTakerPcQty - nativeTakerFee;
    iteration.amountOut := iteration.amountOut + netTakerPcQty;
    iteration.amountIn := Mul(unfilledQty, coinLotSize);
  }
}
