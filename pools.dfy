/** A loaded pool of any venue: the operations the loader and the search
    call on a pool, dispatched to the venue that holds it. */
module Pools {
  import opened Common
  import opened AmmPools
  import opened OrcaPools
  import opened RaydiumPools
  import opened JupiterPools
  import opened SerumMatching
  import opened SerumPools

  datatype Pool =
    | Orca(orca: OrcaPool)
    | Raydium(raydium: RaydiumPool)
    | Jupiter(jupiter: JupiterPool)
    | Serum(serum: SerumPool)

  /** The curve math of the two AMM venues. */
  datatype Curves = Curves(orca: CurveQuote, raydium: CurveQuote)

  /** The object whose state a pool's refresh changes and its quote reads. */
  function Footprint(p: Pool): set<object> {
    match p
    case Orca(o) => {o}
    case Raydium(r) => {r}
    case Jupiter(j) => {j}
    case Serum(s) => {s}
  }

  ghost predicate Valid(p: Pool) {
    p.Serum? ==> p.serum.Valid()
  }

  /** `get_mints`: every venue lists its mints in ascending order. */
  function Mints(p: Pool): (r: seq<Pubkey>)
    ensures Sorted(r)
    ensures (p.Serum? || p.Jupiter?) ==> |r| == 2
  {
    match p
    case Orca(o) => o.GetMints()
    case Raydium(r) => r.GetMints()
    case Jupiter(j) => j.GetMints()
    case Serum(s) => s.GetMints()
  }

  /** `get_update_accounts`: the accounts a refresh fetches. Only the AMM
      venues can fail, on a mint without a configured token. */
  function UpdateAccounts(p: Pool): (r: Result<seq<Pubkey>>)
    ensures (p.Serum? || p.Jupiter?) ==> r.Ok? && |r.value| == 3
    ensures (p.Orca? || p.Raydium?) && r.Ok? ==> |r.value| == |Mints(p)|
  {
    match p
    case Orca(o) => o.GetUpdateAccounts()
    case Raydium(r) => r.GetUpdateAccounts()
    case Jupiter(j) => Ok(j.GetUpdateAccounts())
    case Serum(s) => Ok(s.GetUpdateAccounts())
  }

  /** `get_quote_with_amounts_scaled` of the pool's venue on its current
      state. Jupiter always answers about half the input; an AMM pool fails
      on a mint without a reserve and otherwise only on its curve; an order
      book fails until it is refreshed and whenever its batch does not
      decode. */
  function QuoteOf(p: Pool, curves: Curves, amountIn: nat, mintIn: Pubkey, mintOut: Pubkey): (r: Result<nat>)
    requires Valid(p)
    reads Footprint(p)
    ensures p.Jupiter? ==> r.Ok? && 2 * r.value <= amountIn <= 2 * r.value + 1
    ensures p.Orca? && (mintIn !in p.orca.poolAmounts || mintOut !in p.orca.poolAmounts) ==> r == Err(MissingEntry)
    ensures p.Orca? && r.Err? ==> r.error in {MissingEntry, UnsupportedCurveType, CurveFailure}
    ensures p.Raydium? && (mintIn !in p.raydium.poolAmounts || mintOut !in p.raydium.poolAmounts) ==> r == Err(MissingEntry)
    ensures p.Raydium? && r.Err? ==> r.error in {MissingEntry, CurveFailure}
    ensures p.Serum? && p.serum.accounts.None? ==> r == Err(NotLoaded)
    ensures p.Serum? && r.Ok? ==> DecodeBook(p.serum.accounts).Ok?
  {
    match p
    case Orca(o) => o.Quote(curves.orca, amountIn, mintIn, mintOut)
    case Raydium(r) => r.Quote(curves.raydium, amountIn, mintIn, mintOut)
    case Jupiter(j) => Ok(j.Quote(amountIn, mintIn, mintOut))
    case Serum(s) => s.Quote(amountIn, mintIn)
  }

  /** `can_trade` of the pool's venue on its current state. Only an order
      book can fail; an AMM pool is tradable exactly when none of its
      reserves is empty, whatever the direction; Jupiter always is; an
      order book is when the side a trade in that direction consumes has an
      order. */
  function TradableOf(p: Pool, mintIn: Pubkey, mintOut: Pubkey): (r: Result<bool>)
    reads Footprint(p)
    ensures !p.Serum? ==> r.Ok?
    ensures p.Jupiter? ==> r == Ok(true)
    ensures p.Orca? ==> (r.value <==> forall mint :: mint in p.orca.poolAmounts ==> p.orca.poolAmounts[mint] != 0)
    ensures p.Raydium? ==> (r.value <==> forall mint :: mint in p.raydium.poolAmounts ==> p.raydium.poolAmounts[mint] != 0)
    ensures p.Serum? ==> (r.Ok? <==> DecodeBook(p.serum.accounts).Ok?)
    ensures p.Serum? && r.Ok? ==> (r.value <==> SideToConsume(DecodeBook(p.serum.accounts).value, p.serum.IsBid(mintIn)) != [])
    ensures p.Serum? && p.serum.accounts.None? ==> r == Err(NotLoaded)
  {
    match p
    case Orca(o) => Ok(NoEmptyReserve(o.poolAmounts))
    case Raydium(r) => Ok(NoEmptyReserve(r.poolAmounts))
    case Jupiter(j) => Ok(j.CanTrade(mintIn, mintOut))
    case Serum(s) => s.CanTrade(mintIn, mintOut)
  }

  method Quote(p: Pool, curves: Curves, amountIn: nat, mintIn: Pubkey, mintOut: Pubkey) returns (r: Result<nat>)
    requires Valid(p)
    ensures r == QuoteOf(p, curves, amountIn, mintIn, mintOut)
  {
    match p
    case Orca(o) => r := o.Quote(curves.orca, amountIn, mintIn, mintOut);
    case Raydium(ray) => r := ray.Quote(curves.raydium, amountIn, mintIn, mintOut);
    case Jupiter(j) => r := Ok(j.Quote(amountIn, mintIn, mintOut));
    case Serum(s) => r := s.GetQuoteWithAmountsScaled(amountIn, mintIn, mintOut);
  }

  method CanTrade(p: Pool, mintIn: Pubkey, mintOut: Pubkey) returns (r: Result<bool>)
    ensures r == TradableOf(p, mintIn, mintOut)
  {
    match p
    case Orca(o) =>
      var ok := o.CanTrade(mintIn, mintOut);
      r := Ok(ok);
    case Raydium(ray) =>
      var ok := ray.CanTrade(mintIn, mintOut);
      r := Ok(ok);
    case Jupiter(j) => r := Ok(j.CanTrade(mintIn, mintOut));
    case Serum(s) => r := s.CanTrade(mintIn, mintOut);
  }

  /** `set_update_accounts` of the pool's venue. Only the AMM venues decode
      the batch at refresh time; Serum and Jupiter store it as given. */
  method Refresh(p: Pool, batch: seq<Option<Account>>) returns (outcome: Outcome)
    modifies Footprint(p)
    ensures p.Serum? ==> outcome == Pass && p.serum.accounts == Some(batch)
    ensures p.Jupiter? ==> outcome == Pass && p.jupiter.accounts == Some(batch) && p.jupiter.openOrders == Some(map[])
    ensures p.Orca? ==>
      var next := ReservesAfterRefresh(old(p.orca.poolAmounts), p.orca.GetMints(), batch, true);
      && (next.Ok? ==> outcome == Pass && p.orca.poolAmounts == next.value)
      && (next.Err? ==> outcome == Fail(next.error) && p.orca.poolAmounts == old(p.orca.poolAmounts))
    ensures p.Raydium? ==>
      var next := ReservesAfterRefresh(old(p.raydium.poolAmounts), p.raydium.GetMints(), batch, false);
      && (next.Ok? ==> outcome == Pass && p.raydium.poolAmounts == next.value)
      && (next.Err? ==> outcome == Fail(next.error) && p.raydium.poolAmounts == old(p.raydium.poolAmounts))
  {
    match p
    case Orca(o) => outcome := o.SetUpdateAccounts(batch);
    case Raydium(ray) => outcome := ray.SetUpdateAccounts(batch);
    case Jupiter(j) =>
      j.SetUpdateAccounts(batch);
      outcome := Pass;
    case Serum(s) =>
      s.SetUpdateAccounts(batch);
      outcome := Pass;
  }
}
