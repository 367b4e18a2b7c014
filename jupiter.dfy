/** The Jupiter venue (client-pool/src/pools/jupiter.rs): a placeholder
    whose refresh only stores the fetched accounts and whose quote halves
    the input. */
module JupiterPools {
  import opened Common

  class JupiterPool {
    const ownAddress: Pubkey
    const baseMint: Pubkey
    const quoteMint: Pubkey
    const baseVault: Pubkey
    const quoteVault: Pubkey
    const swapProgramId: Pubkey
    /** The account batch of the last refresh; `None` until the first one. */
    var accounts: Option<seq<Option<Account>>>
    /** Open orders by market; `None` until the first refresh. */
    var openOrders: Option<map<string, string>>

    constructor (ownAddress: Pubkey, baseMint: Pubkey, quoteMint: Pubkey,
                 baseVault: Pubkey, quoteVault: Pubkey, swapProgramId: Pubkey)
      ensures this.ownAddress == ownAddress && this.baseMint == baseMint && this.quoteMint == quoteMint
      ensures this.baseVault == baseVault && this.quoteVault == quoteVault && this.swapProgramId == swapProgramId
      ensures accounts.None? && openOrders.None?
    {
      this.ownAddress := ownAddress;
      this.baseMint := baseMint;
      this.quoteMint := quoteMint;
      this.baseVault := baseVault;
      this.quoteVault := quoteVault;
      this.swapProgramId := swapProgramId;
      accounts := None;
      openOrders := None;
    }

    /** `get_update_accounts`: the pool, then its base and quote vaults. */
    function GetUpdateAccounts(): (r: seq<Pubkey>)
      ensures |r| == 3
      ensures r[0] == ownAddress && r[1] == baseVault && r[2] == quoteVault
    {
      [ownAddress, baseVault, quoteVault]
    }

    /** `set_update_accounts`: stores the batch as given and starts an empty
        open-orders map. */
    method SetUpdateAccounts(batch: seq<Option<Account>>)
      modifies this
      ensures accounts == Some(batch)
      ensures openOrders == Some(map[])
    {
      accounts := Some(batch);
      openOrders := Some(map[]);
    }

    /** `get_mints`: base and quote, ascending. */
    function GetMints(): (r: seq<Pubkey>)
      ensures Sorted(r) && multiset(r) == multiset{baseMint, quoteMint}
    {
      SortKeys([baseMint, quoteMint])
    }

    /** `mint_2_addr` is not implemented and fails for every mint. */
    function Mint2Addr(mint: Pubkey): (r: Result<Pubkey>)
      ensures r.Err?
    {
      Err(NotImplemented)
    }

    /** `mint_2_scale` fails for every mint. */
    function Mint2Scale(mint: Pubkey): (r: Result<nat>)
      ensures r.Err?
    {
      Err(InvalidMint)
    }

    /** `get_quote_with_amounts_scaled`: half the input, rounded down,
        whatever the pair and the stored accounts. */
    function Quote(amountIn: nat, mintIn: Pubkey, mintOut: Pubkey): (r: nat)
      ensures 2 * r <= amountIn <= 2 * r + 1
    {
      amountIn / 2
    }

    /** `can_trade`: every pair is tradable. */
    predicate CanTrade(mintIn: Pubkey, mintOut: Pubkey)
      ensures CanTrade(mintIn, mintOut)
    {
      true
    }

    /** The quote never exceeds its input, and a larger input never quotes
        less. */
    lemma QuoteBounded(a: nat, b: nat, mintIn: Pubkey, mintOut: Pubkey)
      ensures Quote(a, mintIn, mintOut) <= a
      ensures a <= b ==> Quote(a, mintIn, mintOut) <= Quote(b, mintIn, mintOut)
    {
    }

    /** `get_mints` lists base and quote in ascending key order. */
    lemma GetMintsOrder()
      ensures GetMints() == if baseMint <= quoteMint then [baseMint, quoteMint] else [quoteMint, baseMint]
    {
      SortPair(baseMint, quoteMint);
    }
  }
}
