/** What the two constant-function venues, Orca and Raydium, share: their
    token and fee records, the curve discriminator, the refresh of the
    reserve map from two token accounts, the vault list and the liveness
    check over the reserves. */
module AmmPools {
  import opened Common

  /** A pool token: the pool's vault account for the mint and its decimals. */
  datatype Token = Token(addr: Pubkey, scale: nat)

  datatype Fraction = Fraction(numerator: nat, denominator: nat)

  /** `JSONFeeStructure`: the fee fractions configured for a pool. */
  datatype FeeStructure = FeeStructure(traderFee: Fraction, ownerFee: Fraction)

  /** The eight-field fee record the curve math takes. */
  datatype Fees = Fees(
    tradeFeeNumerator: nat, tradeFeeDenominator: nat,
    ownerTradeFeeNumerator: nat, ownerTradeFeeDenominator: nat,
    ownerWithdrawFeeNumerator: nat, ownerWithdrawFeeDenominator: nat,
    hostFeeNumerator: nat, hostFeeDenominator: nat)

  datatype CurveType = ConstantProduct | Stable

  /** `get_pool_quote_with_amounts` of a venue's curve module, whose code is
      not part of this model: amount in, curve, amplification, fees, source
      reserve and destination reserve give an amount out, or `None` where
      the curve math reports an error. */
  type CurveQuote = (nat, CurveType, nat, Fees, nat, nat) -> Option<nat>

  /** The fee record an Orca quote passes to the curve: the trader fee and
      the owner's trade fee as configured, no withdraw or host fee. */
  function OrcaFees(fs: FeeStructure): (r: Fees)
    ensures r.tradeFeeNumerator == fs.traderFee.numerator && r.tradeFeeDenominator == fs.traderFee.denominator
    ensures r.ownerTradeFeeNumerator == fs.ownerFee.numerator && r.ownerTradeFeeDenominator == fs.ownerFee.denominator
    ensures r.ownerWithdrawFeeNumerator == 0 && r.ownerWithdrawFeeDenominator == 0
    ensures r.hostFeeNumerator == 0 && r.hostFeeDenominator == 0
  {
    Fees(fs.traderFee.numerator, fs.traderFee.denominator,
         fs.ownerFee.numerator, fs.ownerFee.denominator, 0, 0, 0, 0)
  }

  /** The fee record a Raydium quote passes to the curve: the trader fee
      only; the configured owner fee is not charged. */
  function RaydiumFees(fs: FeeStructure): (r: Fees)
    ensures r.tradeFeeNumerator == fs.traderFee.numerator && r.tradeFeeDenominator == fs.traderFee.denominator
    ensures r.ownerTradeFeeNumerator == 0 && r.ownerTradeFeeDenominator == 0
    ensures r.ownerWithdrawFeeNumerator == 0 && r.ownerWithdrawFeeDenominator == 0
    ensures r.hostFeeNumerator == 0 && r.hostFeeDenominator == 0
  {
    Fees(fs.traderFee.numerator, fs.traderFee.denominator, 0, 0, 0, 0, 0, 0)
  }

  /** Raydium charges what Orca would charge a pool whose owner fee is
      zero over zero, and the two agree exactly when the owner fee is that. */
  lemma RaydiumFeesAreOrcaWithoutOwnerFee(fs: FeeStructure)
    ensures RaydiumFees(fs) == OrcaFees(fs.(ownerFee := Fraction(0, 0)))
    ensures RaydiumFees(fs) == OrcaFees(fs) <==> fs.ownerFee == Fraction(0, 0)
  {
  }

  /** The curve discriminator stored with an Orca pool. */
  function CurveTypeOf(discriminator: nat): (r: Result<CurveType>)
    ensures r == Ok(ConstantProduct) <==> discriminator == 0
    ensures r == Ok(Stable) <==> discriminator == 2
    ensures r.Err? <==> discriminator != 0 && discriminator != 2
    ensures r.Err? ==> r.error == UnsupportedCurveType
  {
    if discriminator == 0 then Ok(ConstantProduct)
    else if discriminator == 2 then Ok(Stable)
    else Err(UnsupportedCurveType)
  }

  /** The curve's answer, with the `unwrap` of its error. */
  function CurveOutcome(out: Option<nat>): (r: Result<nat>)
    ensures r.Ok? <==> out.Some?
    ensures r.Ok? ==> r.value == out.value
    ensures r.Err? ==> r.error == CurveFailure
  {
    match out
    case Some(v) => Ok(v)
    case None => Err(CurveFailure)
  }

  /** A map lookup by mint with its `unwrap`: a pool's reserve of a mint,
      or its configured token for a mint. */
  function Lookup<V>(m: map<Pubkey, V>, mint: Pubkey): (r: Result<V>)
    ensures r.Ok? <==> mint in m
    ensures r.Ok? ==> r.value == m[mint]
    ensures r.Err? ==> r.error == MissingEntry
  {
    if mint in m then Ok(m[mint]) else Err(MissingEntry)
  }

  /** No reserve of the pool is empty. */
  predicate NoEmptyReserve(amounts: map<Pubkey, nat>) {
    forall mint :: mint in amounts ==> amounts[mint] != 0
  }

  /** The loop of `can_trade`: false at the first empty reserve met, true
      when none is empty. The direction of the trade plays no part. */
  method AllReservesNonZero(amounts: map<Pubkey, nat>) returns (ok: bool)
    ensures ok <==> NoEmptyReserve(amounts)
  {
    var unvisited := amounts.Values;
    while unvisited != {}
      invariant unvisited <= amounts.Values
      invariant forall mint :: mint in amounts && amounts[mint] !in unvisited ==> amounts[mint] != 0
      decreases |unvisited|
    {
      var amount :| amount in unvisited;
      if amount == 0 {
        return false;
      }
      unvisited := unvisited - {amount};
    }
    return true;
  }

  /** `unpack_token_account(..).amount`; data that is not a token account
      does not unpack. */
  function UnpackAmount(account: Account): (r: Result<nat>)
    ensures r.Ok? <==> account.TokenAccount?
    ensures r.Ok? ==> r.value == account.amount
    ensures r.Err? ==> r.error == DecodeFailure
  {
    if account.TokenAccount? then Ok(account.amount) else Err(DecodeFailure)
  }

  /** The amounts of the first two accounts of a refresh batch, read in the
      program's order: both entries are taken and unwrapped, then both are
      unpacked. */
  function TwoAmounts(batch: seq<Option<Account>>): (r: Result<(nat, nat)>)
    ensures r.Ok? <==>
      && |batch| >= 2 && batch[0].Some? && batch[1].Some?
      && batch[0].value.TokenAccount? && batch[1].value.TokenAccount?
    ensures r.Ok? ==> r.value == (batch[0].value.amount, batch[1].value.amount)
  {
    if |batch| < 1 then Err(IndexOutOfRange)
    else if batch[0].None? then Err(MissingAccount)
    else if |batch| < 2 then Err(IndexOutOfRange)
    else if batch[1].None? then Err(MissingAccount)
    else
      match UnpackAmount(batch[0].value)
      case Err(e) => Err(e)
      case Ok(amount0) =>
        match UnpackAmount(batch[1].value)
        case Err(e) => Err(e)
        case Ok(amount1) => Ok((amount0, amount1))
  }

  /** The reserve map after `set_update_accounts`: the amount of account 0
      is stored under the first sorted mint and that of account 1 under the
      second. `idsFirst` says whether the venue indexes the mint list before
      reading the accounts (Orca) or after (Raydium); it decides only which
      failure is reported when both would fail. */
  function ReservesAfterRefresh(amounts: map<Pubkey, nat>, ids: seq<Pubkey>, batch: seq<Option<Account>>, idsFirst: bool): (r: Result<map<Pubkey, nat>>)
    ensures r.Ok? <==> |ids| >= 2 && TwoAmounts(batch).Ok?
    ensures r.Ok? ==> r.value.Keys == amounts.Keys + {ids[0], ids[1]}
    // account 1's amount under the second mint, account 0's under the first
    ensures r.Ok? ==> r.value[ids[1]] == batch[1].value.amount
    ensures r.Ok? && ids[0] != ids[1] ==> r.value[ids[0]] == batch[0].value.amount
    // every other reserve is untouched
    ensures r.Ok? ==> forall mint :: mint in amounts && mint != ids[0] && mint != ids[1] ==> r.value[mint] == amounts[mint]
  {
    if idsFirst && |ids| < 2 then Err(IndexOutOfRange)
    else
      match TwoAmounts(batch)
      case Err(e) => Err(e)
      case Ok(pair) =>
        if |ids| < 2 then Err(IndexOutOfRange)
        else Ok(amounts[ids[0] := pair.0][ids[1] := pair.1])
  }

  /** `get_update_accounts` of an AMM venue: the vault of every mint, in the
      order of the given mints, with the `unwrap` of each token lookup. */
  function VaultAddresses(mints: seq<Pubkey>, tokens: map<Pubkey, Token>): (r: Result<seq<Pubkey>>)
    ensures r.Ok? <==> forall i :: 0 <= i < |mints| ==> mints[i] in tokens
    ensures r.Ok? ==> |r.value| == |mints|
    ensures r.Ok? ==> forall i :: 0 <= i < |mints| ==> r.value[i] == tokens[mints[i]].addr
  {
    if mints == [] then Ok([])
    else
      match Lookup(tokens, mints[0])
      case Err(e) => Err(e)
      case Ok(token) =>
        match VaultAddresses(mints[1..], tokens)
        case Err(e) => Err(e)
        case Ok(rest) => Ok([token.addr] + rest)
  }

  /** The refresh stores under each sorted mint the amount of the account
      fetched from that mint's vault: the i-th address `get_update_accounts`
      lists is the vault of the i-th sorted mint, and the i-th account of
      the batch lands under that same mint. */
  lemma RefreshReadsVaults(amounts: map<Pubkey, nat>, ids: seq<Pubkey>, tokens: map<Pubkey, Token>,
                           batch: seq<Option<Account>>, idsFirst: bool, i: nat)
    requires |ids| == 2 && ids[0] != ids[1] && i < 2
    requires VaultAddresses(ids, tokens).Ok?
    requires ReservesAfterRefresh(amounts, ids, batch, idsFirst).Ok?
    ensures VaultAddresses(ids, tokens).value[i] == tokens[ids[i]].addr
    ensures ReservesAfterRefresh(amounts, ids, batch, idsFirst).value[ids[i]] == batch[i].value.amount
  {
  }
}
