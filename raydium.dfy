/** The Raydium venue (client-pool/src/pools/raydium.rs): a two-token
    constant-product pool whose reserves are read from its two vault
    accounts. */
module RaydiumPools {
  import opened Common
  import opened AmmPools

  /** `get_quote_with_amounts_scaled` on given reserves: both reserves are
      looked up and the constant-product curve answers, with no
      amplification and the trader fee only. */
  function RaydiumQuote(reserves: map<Pubkey, nat>, feeStructure: FeeStructure,
                        curve: CurveQuote, amountIn: nat, mintIn: Pubkey, mintOut: Pubkey): (r: Result<nat>)
    ensures mintIn !in reserves ==> r == Err(MissingEntry)
    ensures mintIn in reserves && mintOut !in reserves ==> r == Err(MissingEntry)
    ensures r.Ok? <==>
      && mintIn in reserves && mintOut in reserves
      && curve(amountIn, ConstantProduct, 0, RaydiumFees(feeStructure), reserves[mintIn], reserves[mintOut]).Some?
    ensures r.Ok? ==>
      r.value == curve(amountIn, ConstantProduct, 0, RaydiumFees(feeStructure), reserves[mintIn], reserves[mintOut]).value
    ensures r.Err? ==> r.error in {MissingEntry, CurveFailure}
  {
    match Lookup(reserves, mintIn)
    case Err(e) => Err(e)
    case Ok(src) =>
      match Lookup(reserves, mintOut)
      case Err(e) => Err(e)
      case Ok(dst) => CurveOutcome(curve(amountIn, ConstantProduct, 0, RaydiumFees(feeStructure), src, dst))
  }

  class RaydiumPool {
    const address: Pubkey
    /** The pool's two token mints, in configuration order. */
    const tokenIds: seq<Pubkey>
    const tokens: map<Pubkey, Token>
    const feeStructure: FeeStructure
    /** The reserve of each mint, as of the last refresh. */
    var poolAmounts: map<Pubkey, nat>

    /** The reserves are read with the configuration and default to empty
        when the configuration has none. */
    constructor (address: Pubkey, tokenIds: seq<Pubkey>, tokens: map<Pubkey, Token>,
                 feeStructure: FeeStructure, poolAmounts: map<Pubkey, nat>)
      ensures this.address == address && this.tokenIds == tokenIds && this.tokens == tokens
      ensures this.feeStructure == feeStructure
      ensures this.poolAmounts == poolAmounts
    {
      this.address := address;
      this.tokenIds := tokenIds;
      this.tokens := tokens;
      this.feeStructure := feeStructure;
      this.poolAmounts := poolAmounts;
    }

    /** `get_mints`: the configured mints, ascending. */
    function GetMints(): (r: seq<Pubkey>)
      ensures Sorted(r) && multiset(r) == multiset(tokenIds)
    {
      SortKeys(tokenIds)
    }

    /** `mint_2_addr`: the pool's vault for a mint. */
    function Mint2Addr(mint: Pubkey): (r: Result<Pubkey>)
      ensures r.Ok? <==> mint in tokens
      ensures r.Ok? ==> r.value == tokens[mint].addr
    {
      match Lookup(tokens, mint)
      case Err(e) => Err(e)
      case Ok(token) => Ok(token.addr)
    }

    /** `mint_2_scale`: the decimals of a mint. */
    function Mint2Scale(mint: Pubkey): (r: Result<nat>)
      ensures r.Ok? <==> mint in tokens
      ensures r.Ok? ==> r.value == tokens[mint].scale
    {
      match Lookup(tokens, mint)
      case Err(e) => Err(e)
      case Ok(token) => Ok(token.scale)
    }

    /** `get_update_accounts`: the vault of each sorted mint. */
    function GetUpdateAccounts(): (r: Result<seq<Pubkey>>)
      ensures r.Ok? <==> forall i :: 0 <= i < |GetMints()| ==> GetMints()[i] in tokens
      ensures r.Ok? ==> |r.value| == |tokenIds|
      ensures r.Ok? ==> forall i :: 0 <= i < |GetMints()| ==> r.value[i] == tokens[GetMints()[i]].addr
    {
      VaultAddresses(GetMints(), tokens)
    }

    /** `can_trade`: no reserve of the pool is empty, whatever the pair. */
    method CanTrade(mintIn: Pubkey, mintOut: Pubkey) returns (r: bool)
      ensures r <==> NoEmptyReserve(poolAmounts)
    {
      r := AllReservesNonZero(poolAmounts);
    }

    /** `set_update_accounts`: the amounts of the two vault accounts are
        stored under the two sorted mints. The accounts are read before the
        mint list is indexed; on a failure nothing is stored. */
    method SetUpdateAccounts(batch: seq<Option<Account>>) returns (outcome: Outcome)
      modifies this
      ensures var next := ReservesAfterRefresh(old(poolAmounts), GetMints(), batch, false);
        && (next.Ok? ==> outcome == Pass && poolAmounts == next.value)
        && (next.Err? ==> outcome == Fail(next.error) && poolAmounts == old(poolAmounts))
    {
      var next := ReservesAfterRefresh(poolAmounts, GetMints(), batch, false);
      if next.Err? {
        return Fail(next.error);
      }
      poolAmounts := next.value;
      outcome := Pass;
    }

    /** `get_quote_with_amounts_scaled` on the current reserves. */
    function Quote(curve: CurveQuote, amountIn: nat, mintIn: Pubkey, mintOut: Pubkey): Result<nat>
      reads this
    {
      RaydiumQuote(poolAmounts, feeStructure, curve, amountIn, mintIn, mintOut)
    }

    /** After a successful refresh of a pool with two distinct mints, a quote
        from the lower mint to the higher one reads account 0's amount as the
        source reserve and account 1's as the destination reserve, and the
        reverse quote reads them the other way round. */
    lemma QuoteAfterRefresh(batch: seq<Option<Account>>, curve: CurveQuote, amountIn: nat)
      requires |tokenIds| == 2 && tokenIds[0] != tokenIds[1]
      requires ReservesAfterRefresh(poolAmounts, GetMints(), batch, false).Ok?
      ensures var reserves := ReservesAfterRefresh(poolAmounts, GetMints(), batch, false).value;
        var lo := GetMints()[0];
        var hi := GetMints()[1];
        var a0 := batch[0].value.amount;
        var a1 := batch[1].value.amount;
        && RaydiumQuote(reserves, feeStructure, curve, amountIn, lo, hi)
           == CurveOutcome(curve(amountIn, ConstantProduct, 0, RaydiumFees(feeStructure), a0, a1))
        && RaydiumQuote(reserves, feeStructure, curve, amountIn, hi, lo)
           == CurveOutcome(curve(amountIn, ConstantProduct, 0, RaydiumFees(feeStructure), a1, a0))
    {
      assert tokenIds == [tokenIds[0], tokenIds[1]];
      SortPair(tokenIds[0], tokenIds[1]);
    }
  }
}
