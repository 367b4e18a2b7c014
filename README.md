# Venue layer of the Solana arbitrage client

This project models the core of the arbitrage client in `client-pool`. The
client loads the pools of several decentralised exchanges (venues) and
indexes their token mints. It links the mints in an exchange graph and then
runs a brute-force search for cyclic arbitrages from the USDC mint. The
model covers the following parts.

- **Serum** (`serum_matching.dfy`, `serum.dfy`). The order-book venue quotes
  a market order by matching it against the resting orders of the opposite
  side:
  - a bid walks the asks from the lowest price;
  - an ask walks the bids from the highest price.

  The model keeps `bid_iteration` and `ask_iteration` imperative. The
  classes `Iteration` and `OrderBookState` are changed in place, one step
  at a time. Both methods are proved equal to the pure step functions
  `BidStep` and `AskStep`. The quote method's loop is proved to compute the
  whole match (`BidMatch`, `AskMatch`). Its properties are proved on those
  functions:
  - conservation of the book's quantity;
  - best-first order of each side;
  - the exact output of a bid;
  - the exact remainder of an ask;
  - each step paying its price plus its taker fee.
- **Orca and Raydium** (`amm.dfy`, `orca.dfy`, `raydium.dfy`). These are
  constant-function pools whose two reserves come from two vault accounts.
  A refresh stores the two amounts under the two sorted mints. A quote
  looks up both reserves, picks the curve and passes the venue's fee record
  to the curve math. `can_trade` asks that no reserve be empty.
- **Jupiter** (`jupiter.dfy`). A placeholder venue: its quote halves the
  input and it can always trade.
- **Dispatch** (`pools.dfy`). The `Pool` datatype dispatches each operation
  to the venue that holds the pool.
- **Loading loop** (`loader.dfy`, `loader_properties.dfy`). The loop in
  `main.rs`:
  - skips pools that do not have exactly two mints;
  - gives each new mint the next index;
  - records each pool's update accounts;
  - links the two mint indices in the adjacency the search walks.

  Starting from empty state, the loop is proved to keep a consistent
  registry:
  - the mint index is a bijection;
  - the adjacency is symmetric;
  - every pool is recorded;
  - every link is owed to a pool.

  The adjacency is proved to match the quote lists of the graph build
  exactly.
- **Graph build** (`graph.dfy`). The build loop takes each pool's slice of
  the fetched accounts and adds the pool in both directions. Each
  direction's list of pools for a pair is proved to be the same list.
- **Search driver** (`search_driver.dfy`). It covers:
  - the index of the start mint;
  - the opening balance;
  - the halving loop, which runs the search up to four times from the
    opening balance, halving it until it falls below one USDC and sharing
    one set of sent arbitrages.

Modelling conventions:

- A public key is a natural number. Its order is the order `Vec::sort`
  uses on 32-byte keys.
- Every panic of the program is an `Err` of the `Error` datatype. This
  covers a failed `unwrap`, an index beyond a vector and an explicit
  `panic!`.
- The curve math of the AMM venues (`get_pool_quote_with_amounts`) is not
  part of this model. It is a function parameter (`CurveQuote`).
- The Serum fee schedule (`FeeTier`) is not part of this model. It is two
  uninterpreted functions, `takerFee` and `removeTakerFee`, and the model
  assumes two facts about them (`ValidFeeTier`). First, a taker fee never
  exceeds the amount it is charged on. Second, for every `x` and every
  `y <= removeTakerFee(x)`, `y + takerFee(y) <= x`: an amount no larger
  than `x` with its fee removed can pay its own fee out of `x`. The bid-side
  bounds (`BidFillBounded`, `BidStepFill`) rest on the second fact. It is
  what keeps the subtraction `start_amount_in - native_accum_fill_price -
  native_taker_fee` at serum.rs:173-176 from going below zero. An exact
  schedule satisfies both facts when the fee is rounded up and the fee
  removal is rounded down.
- The arbitrage search itself (`brute_force_search`, in a file that is not
  part of this model) is a parameter of the driver. So is the fee function
  built from `calculate_fees`.
- The account fetch is a parameter. It is the sequence of `Option<Account>`
  the RPC call returns.
- The loading loop takes its starting state as a parameter. Both the start
  as written and the corrected start are reachable (see Findings).

Where the program reads an account's data, the model keeps only the decoded
value: a token account's amount, a market's lot sizes, or a slab's orders.
The build loop in `main.rs` computes each pool's account slice
(`_account_slice`, main.rs:304) but passes it nowhere. `BuildGraph` returns
the slices so that their bounds can be stated. The pools' own refresh
(`Pools.Refresh`) is modelled separately, venue by venue.

## Model

| member | source | states |
|---|---|---|
| Common.SortKeys | client-pool/src/pools/orca.rs:258-266 | `mints.sort()`: the result is ascending and a permutation of the input (same multiset, same length) |
| Common.SortKeysCanonical | client-pool/src/pools/orca.rs:258-266 | sorting depends only on which keys are listed: two lists with the same multiset sort to the same list |
| Common.SortPair | client-pool/src/pools/serum.rs:298-305 | sorting two keys yields them in ascending order |
| SerumMatching.FillBest | client-pool/src/pools/serum.rs:162-168 | the best order loses exactly the traded lots; it is removed exactly when that drains it; every other order keeps its place; total quantity drops by the lots traded |
| SerumMatching.FillBestWellFormed | client-pool/src/pools/serum.rs:162-168 | a fill keeps the side best-first with positive prices and quantities |
| SerumMatching.BidFillBounded | client-pool/src/pools/serum.rs:135-176 | a trade quantity the budget `max_pc_qty` allows costs no more than the budget; in native units, its price plus its taker fee fits in `amount_in`, so the subtractions at 173-176 cannot underflow |
| SerumMatching.BidBudget | client-pool/src/pools/serum.rs:135 | `max_pc_qty`: the most quote lots whose value fits the input once the taker fee is removed, and one more lot would not fit |
| SerumMatching.BidTradeQty | client-pool/src/pools/serum.rs:150-151 | `trade_qty` of a bid: at most the best ask's size and affordable within the budget at its price; less than the whole size only when one more lot would exceed the budget |
| SerumMatching.BidStep | client-pool/src/pools/serum.rs:126-180 | one `bid_iteration`: it is done iff it fills nothing, and a step that fills nothing changes nothing; otherwise only the best ask is filled; the output grows by the lots filled times `coin_lot_size`; the input strictly shrinks; quantity is conserved; the asks stay best-first |
| SerumMatching.BidStepFill | client-pool/src/pools/serum.rs:126-180 | a bid step stops exactly when no ask rests or the budget buys no lot; otherwise it fills `min(best size, budget / price)` lots, and the input pays exactly their price plus the taker fee |
| SerumMatching.AskTradeQty | client-pool/src/pools/serum.rs:200-217 | `trade_qty` of an ask: at most the best bid's size and no more whole lots than the input holds; less than the whole size only when no further whole lot is left |
| SerumMatching.AskStep | client-pool/src/pools/serum.rs:191-246 | one `ask_iteration`: it is done iff it fills nothing; otherwise only the best bid is filled; what is left to sell is exactly the unfilled whole lots times `coin_lot_size`; the output never shrinks; quantity is conserved; the bids stay best-first |
| SerumMatching.AskStepFill | client-pool/src/pools/serum.rs:191-246 | an ask step stops exactly when no bid rests or no whole lot is left; otherwise it fills `min(best size, lots left)`, and the output grows by the proceeds less the taker fee |
| SerumMatching.AskRemainderBounded | client-pool/src/pools/serum.rs:199-243 | the unfilled whole lots never exceed the input, and fall strictly below it after a fill |
| SerumMatching.BidMatch | client-pool/src/pools/serum.rs:370-377 | the quote loop on a bid ends; the quantity that left the asks equals the lots filled; the asks stay well formed; the input never grows and the output never shrinks |
| SerumMatching.AskMatch | client-pool/src/pools/serum.rs:370-377 | the same for an ask against the bids |
| SerumMatching.BidMatchOutput | client-pool/src/pools/serum.rs:370-379 | a whole bid match outputs exactly the lots filled times `coin_lot_size` |
| SerumMatching.AskMatchRemainder | client-pool/src/pools/serum.rs:370-377 | a whole ask match sells no more lots than the input holds and leaves exactly the unfilled whole lots |
| SerumMatching.QuoteOnBook | client-pool/src/pools/serum.rs:355-379 | a definition without a contract of its own: the input cut to 64 bits, matching from an output of 0 until done, `DivisionByZero` on a zero lot size of the input side; `QuoteOnBookOutput`, `BidMatchOutput` and `AskMatchRemainder` state its properties, and `GetQuoteWithAmountsScaled` is proved equal to it |
| SerumMatching.QuoteOnBookOutput | client-pool/src/pools/serum.rs:359-379 | the quote on a decoded book fails iff the lot size it divides by is zero; an empty side quotes 0; a bid's quote is the filled lots times `coin_lot_size`, a multiple of it, and equals the quantity that left the asks |
| SerumMatching.Iteration.constructor | client-pool/src/pools/serum.rs:360-363 | the iteration starts with the given input and output |
| SerumMatching.OrderBookState.constructor | client-pool/src/pools/serum.rs:353-357 | the working book holds the decoded sides and lot sizes |
| SerumMatching.BidIteration | client-pool/src/pools/serum.rs:126-180 | in place: the iteration and the asks become exactly `BidStep`'s state and the bids are untouched; the book stays well formed |
| SerumMatching.AskIteration | client-pool/src/pools/serum.rs:191-246 | in place: the iteration and the bids become exactly `AskStep`'s state and the asks are untouched; the book stays well formed |
| SerumPools.DecodeBook | client-pool/src/pools/serum.rs:334-350 | the stored batch decodes iff entries 0, 1 and 2 are present and are a market, a bids slab and an asks slab with well-formed sides; a pool never refreshed fails with `NotLoaded` |
| SerumPools.SerumPool.GetUpdateAccounts | client-pool/src/pools/serum.rs:256-262 | the market, its bids and its asks, in that order |
| SerumPools.SerumPool.SetUpdateAccounts | client-pool/src/pools/serum.rs:269-274 | the batch is stored as given |
| SerumPools.SerumPool.GetMints | client-pool/src/pools/serum.rs:298-305 | base and quote mints, ascending |
| SerumPools.SerumPool.GetMintsOrder | client-pool/src/pools/serum.rs:298-305 | the smaller of base and quote comes first |
| SerumPools.SerumPool.Mint2Scale | client-pool/src/pools/serum.rs:308-316 | base scale for the base mint, quote scale for the quote mint, `InvalidMint` for any other |
| SerumPools.SerumPool.Mint2Addr | client-pool/src/pools/serum.rs:293-295 | fails for every mint |
| SerumPools.SerumPool.CanTrade | client-pool/src/pools/serum.rs:453-483 | fails iff the batch does not decode; otherwise true iff the side the order consumes has an order |
| SerumPools.SerumPool.GetQuoteWithAmountsScaled | client-pool/src/pools/serum.rs:327-380 | the loop of in-place iterations on working copies returns exactly the match's output on the decoded book, with the input cut to 64 bits |
| SerumPools.SerumPool.IsBid | client-pool/src/pools/serum.rs:366 | a definition without a contract: a quote is a bid exactly when its input is the quote mint |
| SerumPools.SerumPool.Quote | client-pool/src/pools/serum.rs:327-380 | a definition without a contract: `DecodeBook` of the stored batch, then `QuoteOnBook` in the direction `IsBid` gives; `QuoteOutcome` states its properties |
| SerumPools.SerumPool.QuoteOutcome | client-pool/src/pools/serum.rs:327-380 | the quote fails with `NotLoaded` before any refresh, and succeeds iff the batch decodes and the divided-by lot size is positive; it is 0 when `can_trade` is false; a bid's quote is a multiple of `coin_lot_size` |
| AmmPools.OrcaFees | client-pool/src/pools/orca.rs:148-160 | the trader and owner trade fees as configured, no withdraw or host fee |
| AmmPools.RaydiumFees | client-pool/src/pools/raydium.rs:140-151 | the trader fee only; all the other fractions are zero |
| AmmPools.RaydiumFeesAreOrcaWithoutOwnerFee | client-pool/src/pools/raydium.rs:140-151 | Raydium's fee record is Orca's with the owner fee set to 0/0; the two agree iff the owner fee is 0/0 |
| AmmPools.CurveTypeOf | client-pool/src/pools/orca.rs:163-169 | 0 is constant product, 2 is stable, and every other discriminator fails with `UnsupportedCurveType` |
| AmmPools.CurveOutcome | client-pool/src/pools/orca.rs:172-180 | the curve's answer, or `CurveFailure` iff the curve math reports an error |
| AmmPools.Lookup | client-pool/src/pools/orca.rs:145-146 | a lookup with its `unwrap`: the entry for the mint iff there is one, `MissingEntry` otherwise; used for reserves and for configured tokens |
| AmmPools.AllReservesNonZero | client-pool/src/pools/orca.rs:202-211 | the loop over the reserves returns true iff no reserve is zero |
| AmmPools.UnpackAmount | client-pool/src/pools/orca.rs:232-233 | a token account's amount; any other account fails to decode |
| AmmPools.TwoAmounts | client-pool/src/pools/orca.rs:229-233 | succeeds iff accounts 0 and 1 are present token accounts, and then gives their two amounts |
| AmmPools.ReservesAfterRefresh | client-pool/src/pools/orca.rs:218-238 | succeeds iff there are two mints and two token accounts; account 0's amount goes under the first sorted mint and account 1's under the second; every other reserve is untouched |
| AmmPools.VaultAddresses | client-pool/src/pools/orca.rs:184-192 | succeeds iff every mint is configured; then it is the vault of each mint, in the mints' order |
| AmmPools.RefreshReadsVaults | client-pool/src/pools/orca.rs:184-238 | the i-th fetched address is the i-th sorted mint's vault, and the refresh stores the i-th account's amount under that same mint |
| OrcaPools.OrcaPool.GetMints | client-pool/src/pools/orca.rs:258-266 | the configured mints, ascending (a permutation of them) |
| OrcaPools.OrcaPool.Mint2Addr | client-pool/src/pools/orca.rs:246-249 | a configured mint's vault; any other mint fails |
| OrcaPools.OrcaPool.Mint2Scale | client-pool/src/pools/orca.rs:252-255 | a configured mint's decimals; any other mint fails |
| OrcaPools.OrcaPool.GetUpdateAccounts | client-pool/src/pools/orca.rs:184-192 | the vault of each sorted mint, one per mint; fails iff a mint is not configured |
| OrcaPools.OrcaPool.CanTrade | client-pool/src/pools/orca.rs:202-211 | true iff no reserve is zero, whatever the pair |
| OrcaPools.OrcaPool.SetUpdateAccounts | client-pool/src/pools/orca.rs:218-238 | the reserves become `ReservesAfterRefresh`'s map; on a failure the reserves are unchanged and the failure is reported |
| OrcaPools.OrcaQuote | client-pool/src/pools/orca.rs:138-181 | a quote fails with `MissingEntry` on a mint without a reserve and with `UnsupportedCurveType` on a bad discriminator; it succeeds iff both reserves exist, the curve is known and the curve math succeeds, and is then the curve's answer with Orca's fees; no other error is possible |
| OrcaPools.OrcaPool.Quote | client-pool/src/pools/orca.rs:138-181 | a definition without a contract: `OrcaQuote` on the pool's current reserves, curve type, amplification and fees; `OrcaQuote` and `QuoteAfterRefresh` state its properties |
| OrcaPools.OrcaPool.QuoteAfterRefresh | client-pool/src/pools/orca.rs:218-238 | after a refresh, a quote from the lower mint to the higher reads account 0 as the source reserve and account 1 as the destination; the reverse quote reads them the other way round |
| RaydiumPools.RaydiumPool.constructor | client-pool/src/pools/raydium.rs:55-56 | the pool holds the configured reserves, which default to none |
| RaydiumPools.RaydiumPool.GetMints | client-pool/src/pools/raydium.rs:236-244 | the configured mints, ascending (a permutation of them) |
| RaydiumPools.RaydiumPool.Mint2Addr | client-pool/src/pools/raydium.rs:224-227 | a configured mint's vault; any other mint fails |
| RaydiumPools.RaydiumPool.Mint2Scale | client-pool/src/pools/raydium.rs:230-233 | a configured mint's decimals; any other mint fails |
| RaydiumPools.RaydiumPool.GetUpdateAccounts | client-pool/src/pools/raydium.rs:166-172 | the vault of each sorted mint, one per mint; fails iff a mint is not configured |
| RaydiumPools.RaydiumPool.CanTrade | client-pool/src/pools/raydium.rs:182-191 | true iff no reserve is zero, whatever the pair |
| RaydiumPools.RaydiumPool.SetUpdateAccounts | client-pool/src/pools/raydium.rs:198-216 | the reserves become `ReservesAfterRefresh`'s map, with the accounts read before the mint list is indexed; on a failure the reserves are unchanged |
| RaydiumPools.RaydiumQuote | client-pool/src/pools/raydium.rs:130-163 | a quote fails with `MissingEntry` on a mint without a reserve; it succeeds iff both reserves exist and the constant-product curve succeeds, and is then the curve's answer with amplification 0 and the trader fee only; no other error is possible |
| RaydiumPools.RaydiumPool.Quote | client-pool/src/pools/raydium.rs:130-163 | a definition without a contract: `RaydiumQuote` on the pool's current reserves and fees; `RaydiumQuote` and `QuoteAfterRefresh` state its properties |
| RaydiumPools.RaydiumPool.QuoteAfterRefresh | client-pool/src/pools/raydium.rs:198-216 | after a refresh, a quote from the lower mint to the higher reads account 0 as the source reserve and account 1 as the destination; the reverse quote reads them the other way round |
| JupiterPools.JupiterPool.GetUpdateAccounts | client-pool/src/pools/jupiter.rs:84-90 | the pool, its base vault and its quote vault, in that order |
| JupiterPools.JupiterPool.SetUpdateAccounts | client-pool/src/pools/jupiter.rs:97-105 | the batch is stored as given and the open-orders map becomes empty |
| JupiterPools.JupiterPool.GetMints | client-pool/src/pools/jupiter.rs:113-120 | base and quote mints, ascending |
| JupiterPools.JupiterPool.GetMintsOrder | client-pool/src/pools/jupiter.rs:113-120 | the smaller of base and quote comes first |
| JupiterPools.JupiterPool.Mint2Addr | client-pool/src/pools/jupiter.rs:108-110 | fails for every mint |
| JupiterPools.JupiterPool.Mint2Scale | client-pool/src/pools/jupiter.rs:123-126 | fails for every mint |
| JupiterPools.JupiterPool.Quote | client-pool/src/pools/jupiter.rs:137-146 | half the input rounded down: twice the quote is the input, or one less |
| JupiterPools.JupiterPool.QuoteBounded | client-pool/src/pools/jupiter.rs:137-146 | the quote never exceeds its input and is monotone in it |
| JupiterPools.JupiterPool.CanTrade | client-pool/src/pools/jupiter.rs:198-205 | every pair is tradable |
| Pools.Mints | client-pool/src/main.rs:215-219 | every venue lists its mints ascending; a Serum or Jupiter pool always has two |
| Pools.UpdateAccounts | client-pool/src/main.rs:237-239 | Serum and Jupiter always list three accounts; an AMM venue lists one per mint, or fails |
| Pools.QuoteOf | client-pool/src/pools/serum.rs:327-380 | Jupiter always quotes half the input rounded down; an AMM pool fails with `MissingEntry` on a mint without a reserve and otherwise only on its curve type or curve; an order book fails with `NotLoaded` before its first refresh and succeeds only when its batch decodes |
| Pools.Quote | client-pool/src/pools/orca.rs:138-181 | dispatches to the venue's quote (the order book's in-place matching loop) and returns `QuoteOf` |
| Pools.TradableOf | client-pool/src/pools/serum.rs:453-483 | only an order book can fail, exactly when its batch does not decode; an AMM pool is tradable iff none of its reserves is zero; Jupiter always is; an order book is iff the side the trade consumes has an order |
| Pools.CanTrade | client-pool/src/pools/orca.rs:202-211 | dispatches to the venue's `can_trade` (the AMM reserve loop) and returns `TradableOf` |
| Pools.Refresh | client-pool/src/pools/orca.rs:218-238 | Serum and Jupiter store the batch and pass; an AMM pool's reserves become `ReservesAfterRefresh`'s map, or stay as they were when it fails and the failure is reported |
| ExchangeGraph.WithQuote | client-pool/src/main.rs:83-95 | the list for the pair gains the quote at its end |
| ExchangeGraph.WithQuoteFrame | client-pool/src/main.rs:83-95 | the list of every other pair is unchanged |
| ExchangeGraph.PoolGraph.constructor | client-pool/src/main.rs:298 | the new graph has no entries |
| ExchangeGraph.AddPoolToGraph | client-pool/src/main.rs:83-95 | in place: the graph becomes `WithQuote` of the old graph |
| ExchangeGraph.QuotesSymmetric | client-pool/src/main.rs:307-313 | since each pool is added both ways, the list for (i, j) is the list for (j, i) |
| ExchangeGraph.QuotesMembership | client-pool/src/main.rs:307-313 | a pool is listed for a pair iff it is one of the pools added and its two indices are that pair, in either order |
| ExchangeGraph.SlicesContiguous | client-pool/src/main.rs:303-305 | each pool's slice ends where the next one starts |
| ExchangeGraph.SliceStartMonotone | client-pool/src/main.rs:303-305 | later slices start no earlier |
| ExchangeGraph.AddedBothWays | client-pool/src/main.rs:307-313 | adding pool k both ways extends the lists of the first k pools to those of the first k + 1 |
| ExchangeGraph.SlicesExtended | client-pool/src/main.rs:303-305 | taking the next slice extends the slices of the earlier pools |
| ExchangeGraph.BuildGraph | client-pool/src/main.rs:298-316 | the build succeeds iff every pool has a slice length, its slice fits and it has two indices, and fails otherwise with `IndexOutOfRange`; on success every pair lists exactly the pools joining it and every slice is the pool's own |
| PoolLoading.IndexMint | client-pool/src/main.rs:223-234 | succeeds iff the mint is new or has a recorded index; only the mint list, the index map and the adjacency can grow |
| PoolLoading.IndexMintsFrom | client-pool/src/main.rs:222-234 | one index per mint, or `MissingEntry`; the pool vectors are untouched |
| PoolLoading.AddEdge | client-pool/src/main.rs:242-250 | succeeds iff both indices are in range; it then links them both ways and adds nothing else |
| PoolLoading.AdmitPool | client-pool/src/main.rs:215-252 | a pool without two mints is skipped unchanged; an admitted pool is appended to the pools; as written, the index vector is untouched |
| PoolLoading.IndexPoolMints | client-pool/src/main.rs:222-234 | the inner loop computes `IndexMintsFrom` |
| PoolLoading.LoadFrom | client-pool/src/main.rs:206-254 | a definition without a contract: the candidates are admitted in order and the first failure stops the load; `LoadPools` is proved equal to it, and `LoadConsistent`, `LoadKeepsTwoMintPools` and `LoadFromEmpty` state its properties |
| PoolLoading.LoadPools | client-pool/src/main.rs:206-254 | the loading loop computes `LoadFrom` over the candidates |
| LoadingProperties.IndexMintConsistent | client-pool/src/main.rs:223-234 | on a consistent index, a mint is always indexed and its index names it; a known mint changes nothing; a new mint gets the next index and an empty neighbour set |
| LoadingProperties.IndexMintsConsistent | client-pool/src/main.rs:222-234 | indexing a pool's mints keeps the index consistent; each index names its mint; the old neighbour sets are kept and the new ones are empty |
| LoadingProperties.LinkedAdjacency | client-pool/src/main.rs:245-250 | linking two in-range indices keeps the adjacency symmetric and in range |
| LoadingProperties.NewPoolRecorded | client-pool/src/main.rs:236-252 | an admitted pool is recorded: its indices name its mints and are linked, and its update accounts are stored with their count |
| LoadingProperties.AdmitConsistent | client-pool/src/main.rs:214-252 | from a consistent registry, a pass fails iff the pool has two mints and cannot list its update accounts, and then with that error; a successful pass keeps the registry consistent |
| LoadingProperties.TwoMintPools | client-pool/src/main.rs:215-219 | the pools the loop keeps are no more than the candidates |
| LoadingProperties.LoadKeepsTwoMintPools | client-pool/src/main.rs:206-254 | a successful load keeps exactly the candidates with two mints, in order |
| LoadingProperties.LoadConsistent | client-pool/src/main.rs:206-254 | from a consistent registry, loading succeeds iff every two-mint candidate can list its update accounts, and keeps the registry consistent |
| LoadingProperties.LoadFromEmpty | client-pool/src/main.rs:196-254 | started empty, the loop succeeds iff every two-mint candidate can list its update accounts; it then yields a consistent registry holding exactly the two-mint candidates |
| LoadingProperties.AdjacencyMatchesQuotes | client-pool/src/main.rs:241-250 | in a consistent registry, i and j are neighbours iff the build lists some pool between them |
| LoadingProperties.SumIsConcatLength | client-pool/src/main.rs:238-255 | the recorded lengths add up to the length of `update_pks.concat()` |
| LoadingProperties.BuildsAfterLoad | client-pool/src/main.rs:298-307 | on a consistent registry, the build succeeds iff at least as many accounts were fetched as were requested |
| LoadingProperties.LoadIgnoresIdxs | client-pool/src/main.rs:200-254 | the loop as written computes the corrected loop's registry, except that the index vector keeps its start value |
| LoadingProperties.AsWrittenBuildFails | client-pool/src/main.rs:307 | as written, `all_mint_idxs` stays empty, so the build fails whenever a pool was loaded |
| LoadingProperties.CorrectedBuildSucceeds | client-pool/src/main.rs:302-316 | with the indices recorded, the registry is consistent; the build succeeds iff enough accounts were fetched; the adjacency matches the graph |
| LoadingProperties.JupiterPoolShowsMissingIdxs | client-pool/src/main.rs:200-307 | one Jupiter pool loads either way; its build fails as written, and succeeds after the correction iff three accounts are there |
| LoadingProperties.SeededIndexing | client-pool/src/main.rs:196-234 | from the seeded start, indexing two mints fails or yields an index beyond the adjacency |
| LoadingProperties.SeededAdmitFails | client-pool/src/main.rs:196-250 | as written, with a non-empty token list, admitting any two-mint pool fails |
| LoadingProperties.SeededLoadFails | client-pool/src/main.rs:196-250 | as written, loading fails as soon as the token list is not empty and a candidate has two mints |
| ArbitrageRun.Schedule | client-pool/src/main.rs:329-350 | a definition without a contract: the notionals of the halving loop; `ScheduleShape` states their values, count and early stop |
| ArbitrageRun.ScheduleShape | client-pool/src/main.rs:329-350 | the notionals are `balance / 2^i`; there are between 1 and 4 of them; all after the first are at least one USDC; fewer than four means the last one halved is below it |
| ArbitrageRun.DriveSucceeds | client-pool/src/main.rs:333-335 | the loop succeeds iff no notional is below its fee, and otherwise stops on the unsigned subtraction |
| ArbitrageRun.DriveFollowsSchedule | client-pool/src/main.rs:333-350 | a successful loop runs the search once per notional, in order, each with the notional less its fee |
| ArbitrageRun.DriveThreadsSent | client-pool/src/main.rs:331-344 | the first pass gets the initial sent set; each pass gets the set the previous pass returned; the loop ends with the last pass's set |
| ArbitrageRun.Drive | client-pool/src/main.rs:329-350 | a definition without a contract: the halving loop with its fee subtraction and the shared sent set; `DriveSucceeds`, `DriveFollowsSchedule` and `DriveThreadsSent` state its properties, and `SearchArbitrages` is proved equal to it |
| ArbitrageRun.SearchArbitrages | client-pool/src/main.rs:329-350 | the four-pass loop with its early break computes `Drive` from the opening balance |
| ArbitrageRun.StartIndex | client-pool/src/main.rs:263 | succeeds iff the start mint was indexed, and then the index names it |
| ArbitrageRun.Present | client-pool/src/main.rs:280-284 | an account is kept iff it was fetched as present; nothing is kept iff every account is absent; no more are kept than were fetched; if all are present, all are kept in order |
| ArbitrageRun.PresentInOrder | client-pool/src/main.rs:280-284 | the k-th kept account is the account at the k-th present position, the positions increase, and every present position is taken: the filter keeps each present account once, in fetch order |
| ArbitrageRun.OpeningBalanceAsWritten | client-pool/src/main.rs:280-289 | the reading as written: a balance it returns is the amount of some fetched token account, not necessarily the owner's; when every fetched account is absent it fails with `MissingAccount` |
| ArbitrageRun.AsWrittenReadsVault | client-pool/src/main.rs:280-289 | as written, one AMM pool's two vaults followed by an absent owner account yield the second vault's amount as the opening balance |
| ArbitrageRun.AbsentOwnerStopsBuild | client-pool/src/main.rs:280-304 | on the same run, an absent owner account leaves fewer accounts after the pop than the loaded pools requested, so the build stops before any search (or the pop already fails on an empty list) |
| ArbitrageRun.OpeningBalance | client-pool/src/main.rs:288-289 | succeeds iff the last fetched account, the owner's, is a present token account, and gives its amount; otherwise `MissingAccount` or `DecodeFailure` |
| ArbitrageRun.OpeningBalancesAgree | client-pool/src/main.rs:280-289 | when the owner's account is present, the reading as written and the corrected one agree |

## Left out

- `swap_ix` of every venue: it builds transaction instructions and computes nothing the search reads.
- I/O: the model takes the fetched values as parameters. This covers:
  - `fetch_tokens` (an HTTP request);
  - `load_config`, `read_json_dir` and `pool_factory` (file reading and JSON parsing);
  - the RPC `get_multiple_accounts` and its chunks of 99;
  - the keypair, the logging and the command line.
- The JSON field formats: mints are kept as keys, whereas the program stores some of them as base-58 strings.
- `fetch_tokens` returns strings, which main.rs:225 compares against `Pubkey` values. The model treats the fetched entries as keys.
- The pool directory list (main.rs:176-193) is left out: it is parsing set-up and is not modelled. As written, it gives the Raydium directory `SaberPoolType` and pushes an undefined `saber_dir`. The model takes the candidate pools as given.
- `calculate_fees`: floating-point rounding of `amount * fee_percentage`. The driver takes the resulting fee function as a parameter.
- `brute_force_search`: its file is not part of this model. It is a parameter of the driver that returns the updated set of sent arbitrages.
- The curve math `get_pool_quote_with_amounts`: its file is not part of this model. It is the parameter `CurveQuote`.
- `FeeTier`: its code is not part of this model. `ValidFeeTier` states the only facts the matcher relies on.
- Serum account decoding: the model reduces `Market::load`, `load_bids_mut` and `load_asks_mut` to the decoded values. It treats the critbit slabs as best-first sequences.
- Serum `set_update_accounts` also reads an open-orders file, and panics on any cluster other than localnet. The model keeps only the stored batch, because the file and the cluster are external.
- `SerumMatching.BidIteration`: the `u64` arithmetic of the iteration (`amount_out +=`, `trade_qty * price`) does not wrap in the model. Only the input cut `amount_in as u64` is modelled, as `% 2^64`.
- `SerumMatching.AskIteration`: the `u64` products do not wrap, for the same reason.
- `RaydiumPools.RaydiumQuote`: the source passes an undefined `ctype` and a missing `self.amp` to the curve. The model uses the constant-product curve with amplification 0, as the code comment says.
- `ArbitrageRun.SearchArbitrages`: `derive_token_address` for the owner's account (main.rs:267) is an external derivation. The owner's account is the last one fetched.
- The model does not cover:
  - the pools' refresh with the build's account slices (never called in main.rs);
  - the `PoolQuote` reference counting.
- Concurrency, `Rc` sharing and the transaction sending are not modelled.

## Findings

| source | as written | input that shows it | evidently intended | confidence | as-written member | corrected member |
|---|---|---|---|---|---|---|
| client-pool/src/main.rs:196 | `token_mints` starts with the fetched trending tokens while `mint2idx` and `graph_edges` start empty, so a fetched mint has no index (`unwrap` of a missing entry) and a new mint's index lies beyond `graph_edges` | any non-empty token list and any pool with two mints | start the mint list empty, or index the fetched tokens and give each a neighbour set | not executed | LoadingProperties.SeededLoadFails | LoadingProperties.LoadFromEmpty |
| client-pool/src/main.rs:200 | `all_mint_idxs` is never appended to, so `all_mint_idxs[pool_count * 2..]` at main.rs:307 is out of range for the first pool | one Jupiter pool | append each pool's two mint indices during loading | not executed | LoadingProperties.AsWrittenBuildFails | LoadingProperties.CorrectedBuildSucceeds |
| client-pool/src/main.rs:280-289 | absent accounts are filtered out before the owner's account is popped, so when it is absent another account's amount becomes the opening balance; the misread balance is only logged, because the same run then stops at the build (main.rs:304) before any search | one AMM pool, fetched as `[Some(vault0 with amount v0), Some(vault1 with amount v1), None]`, gives `v1` | read the last fetched entry itself and fail when it is absent | not executed | ArbitrageRun.AsWrittenReadsVault | ArbitrageRun.OpeningBalance |
