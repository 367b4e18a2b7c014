/** The end of client-pool/src/main.rs: the index of the start mint, the
    opening balance read from the owner's token account, and the loop that
    runs the search up to four times, halving the notional each time and
    sharing one set of already-sent arbitrages. The search itself and the
    fee computation are parameters. */
module ArbitrageRun {
  import opened Common
  import opened AmmPools
  import opened PoolLoading
  import ExchangeGraph
  import LoadingProperties

  /** 10^6 base units of the start token: one USDC. */
  const MinSwapAmount: nat := 1_000_000

  /** The number of passes of the halving loop. */
  const SearchRounds: nat := 4

  /** One pass of the search: the notional, what is left of it after fees,
      and the set of sent arbitrages the pass was handed. */
  datatype Run<A> = Run(swapAmount: nat, netAmount: nat, sentBefore: set<A>)

  function Pow2(i: nat): (r: nat)
    ensures r >= 1
  {
    if i == 0 then 1 else 2 * Pow2(i - 1)
  }

  /** A positive multiple of a positive number is at least that number. */
  lemma {:induction false} MultipleAtLeast(d: int, x: int)
    requires d > 0 && x >= 1
    ensures d * x >= d
    decreases x
  {
    if x > 1 {
      MultipleAtLeast(d, x - 1);
      assert d * x == d * (x - 1) + d;
    }
  }

  /** Quotient and remainder are the only ones with the remainder in range. */
  lemma DivisionUnique(a: int, d: int, q: int, r: int)
    requires d > 0 && a == d * q + r && 0 <= r < d
    ensures a / d == q
  {
    var q0, r0 := a / d, a % d;
    assert d * q - d * q0 == r0 - r;
    assert d * (q - q0) == d * q - d * q0;
    assert d * (q0 - q) == d * q0 - d * q;
    if q > q0 {
      MultipleAtLeast(d, q - q0);
    } else if q < q0 {
      MultipleAtLeast(d, q0 - q);
    }
  }

  /** Halving and then dividing by `b` is dividing by twice `b`. */
  lemma HalfThenDivide(a: nat, b: nat)
    requires b >= 1
    ensures (a / 2) / b == a / (2 * b)
  {
    var q, r := a / 2, a % 2;
    var q2, r2 := q / b, q % b;
    assert q == b * q2 + r2;
    assert 2 * q == 2 * (b * q2) + 2 * r2;
    assert 2 * (b * q2) == (2 * b) * q2;
    DivisionUnique(a, 2 * b, q2, 2 * r2 + r);
  }

  /** The notionals of the halving loop from `amount` with `rounds` passes
      left: a pass always runs, and the next one only while half the
      notional is still at least the minimum. */
  function Schedule(amount: nat, rounds: nat): seq<nat>
    decreases rounds
  {
    if rounds == 0 then []
    else [amount] + (if amount / 2 < MinSwapAmount then [] else Schedule(amount / 2, rounds - 1))
  }

  /** The notionals are `amount / 2^i`; there are at most `rounds` of them
      and at least one; every one after the first is at least the minimum;
      and fewer than `rounds` means the last one halved fell below it. */
  lemma {:induction false} ScheduleShape(amount: nat, rounds: nat)
    ensures var s := Schedule(amount, rounds);
      && |s| <= rounds
      && (rounds >= 1 ==> |s| >= 1 && s[0] == amount)
      && (forall i :: 0 <= i < |s| ==> s[i] == amount / Pow2(i))
      && (forall i :: 1 <= i < |s| ==> s[i] >= MinSwapAmount)
      && (0 < |s| < rounds ==> s[|s| - 1] / 2 < MinSwapAmount)
    decreases rounds
  {
    if rounds > 0 && amount / 2 >= MinSwapAmount {
      ScheduleShape(amount / 2, rounds - 1);
      var s, t := Schedule(amount, rounds), Schedule(amount / 2, rounds - 1);
      assert s == [amount] + t;
      forall i | 1 <= i < |s|
        ensures s[i] == amount / Pow2(i) && s[i] >= MinSwapAmount
      {
        assert s[i] == t[i - 1] == (amount / 2) / Pow2(i - 1);
        HalfThenDivide(amount, Pow2(i - 1));
        if i >= 2 {
          assert t[i - 1] >= MinSwapAmount;
        }
      }
    }
  }

  /** Prefixes the runs already done to the outcome of the remaining ones. */
  function Extend<A>(runs: seq<Run<A>>, rest: Result<(seq<Run<A>>, set<A>)>): Result<(seq<Run<A>>, set<A>)> {
    match rest
    case Err(e) => Err(e)
    case Ok((more, sent)) => Ok((runs + more, sent))
  }

  lemma ExtendEmpty<A>(rest: Result<(seq<Run<A>>, set<A>)>)
    ensures Extend([], rest) == rest
  {
    if rest.Ok? {
      assert [] + rest.value.0 == rest.value.0;
    }
  }

  lemma ExtendTwice<A>(runs: seq<Run<A>>, more: seq<Run<A>>, rest: Result<(seq<Run<A>>, set<A>)>)
    ensures Extend(runs, Extend(more, rest)) == Extend(runs + more, rest)
  {
    if rest.Ok? {
      assert runs + (more + rest.value.0) == (runs + more) + rest.value.0;
    }
  }

  /** The halving loop from `amount` with `rounds` passes left. Each pass
      takes `fee(amount)` off the notional (an unsigned subtraction, which
      stops the program when the fee exceeds the amount), hands the net
      amount, the notional and the shared set to `search`, and keeps the
      set it returns. */
  function Drive<A>(startIdx: nat, amount: nat, rounds: nat, fee: nat -> nat,
                    search: (nat, nat, nat, set<A>) -> set<A>, sent: set<A>): Result<(seq<Run<A>>, set<A>)>
    decreases rounds
  {
    if rounds == 0 then Ok(([], sent))
    else if fee(amount) > amount then Err(Underflow)
    else
      var net := amount - fee(amount);
      var after := search(startIdx, net, amount, sent);
      Extend([Run(amount, net, sent)],
             if amount / 2 < MinSwapAmount then Ok(([], after))
             else Drive(startIdx, amount / 2, rounds - 1, fee, search, after))
  }

  /** No notional is below its fee. */
  predicate FeesCovered(fee: nat -> nat, amounts: seq<nat>) {
    forall i :: 0 <= i < |amounts| ==> fee(amounts[i]) <= amounts[i]
  }

  lemma FeesCoveredCons(fee: nat -> nat, x: nat, t: seq<nat>)
    ensures FeesCovered(fee, [x] + t) <==> fee(x) <= x && FeesCovered(fee, t)
  {
    var s := [x] + t;
    assert s[0] == x;
    assert forall i :: 0 <= i < |t| ==> t[i] == s[i + 1];
  }

  /** The loop succeeds exactly when no notional of the schedule is below
      its fee, and otherwise stops on the unsigned subtraction. */
  lemma {:induction false} DriveSucceeds<A>(startIdx: nat, amount: nat, rounds: nat, fee: nat -> nat,
                                            search: (nat, nat, nat, set<A>) -> set<A>, sent: set<A>)
    ensures var r := Drive(startIdx, amount, rounds, fee, search, sent);
      && (r.Ok? <==> FeesCovered(fee, Schedule(amount, rounds)))
      && (r.Err? ==> r.error == Underflow)
    decreases rounds
  {
    if rounds > 0 {
      var t := if amount / 2 < MinSwapAmount then [] else Schedule(amount / 2, rounds - 1);
      assert Schedule(amount, rounds) == [amount] + t;
      FeesCoveredCons(fee, amount, t);
      if fee(amount) <= amount && amount / 2 >= MinSwapAmount {
        var net := amount - fee(amount);
        var after := search(startIdx, net, amount, sent);
        DriveSucceeds(startIdx, amount / 2, rounds - 1, fee, search, after);
        var rest := Drive(startIdx, amount / 2, rounds - 1, fee, search, after);
        assert Drive(startIdx, amount, rounds, fee, search, sent) == Extend([Run(amount, net, sent)], rest);
      }
    }
  }

  /** A loop that succeeds runs once per notional of the schedule, in
      order, each with the net amount its fee leaves. */
  lemma {:induction false} DriveFollowsSchedule<A>(startIdx: nat, amount: nat, rounds: nat, fee: nat -> nat,
                                                   search: (nat, nat, nat, set<A>) -> set<A>, sent: set<A>)
    ensures var r, s := Drive(startIdx, amount, rounds, fee, search, sent), Schedule(amount, rounds);
      r.Ok? ==> (&& |r.value.0| == |s|
                 && forall i :: 0 <= i < |s| ==>
                      r.value.0[i].swapAmount == s[i] && r.value.0[i].netAmount == s[i] - fee(s[i]))
    decreases rounds
  {
    if rounds > 0 && fee(amount) <= amount && amount / 2 >= MinSwapAmount {
      var after := search(startIdx, amount - fee(amount), amount, sent);
      DriveFollowsSchedule(startIdx, amount / 2, rounds - 1, fee, search, after);
      var s, t := Schedule(amount, rounds), Schedule(amount / 2, rounds - 1);
      assert s == [amount] + t;
    }
  }

  /** Every pass is handed the set the previous pass returned, the first
      the set the loop started with, and the loop ends with the set the
      last pass returned. */
  lemma {:induction false} DriveThreadsSent<A>(startIdx: nat, amount: nat, rounds: nat, fee: nat -> nat,
                                               search: (nat, nat, nat, set<A>) -> set<A>, sent: set<A>)
    ensures var r := Drive(startIdx, amount, rounds, fee, search, sent);
      r.Ok? && rounds >= 1 ==>
        var runs, final := r.value.0, r.value.1;
        && |runs| >= 1
        && runs[0].sentBefore == sent
        && (forall i :: 0 <= i < |runs| - 1 ==>
              runs[i + 1].sentBefore == search(startIdx, runs[i].netAmount, runs[i].swapAmount, runs[i].sentBefore))
        && final == search(startIdx, runs[|runs| - 1].netAmount, runs[|runs| - 1].swapAmount, runs[|runs| - 1].sentBefore)
    decreases rounds
  {
    if rounds > 0 && fee(amount) <= amount && amount / 2 >= MinSwapAmount {
      var net := amount - fee(amount);
      var after := search(startIdx, net, amount, sent);
      var rest := Drive(startIdx, amount / 2, rounds - 1, fee, search, after);
      DriveThreadsSent(startIdx, amount / 2, rounds - 1, fee, search, after);
      if rest.Ok? && rounds - 1 == 0 {
        assert rest == Ok(([], after));
      }
      if rest.Ok? && rounds - 1 >= 1 {
        var runs := [Run(amount, net, sent)] + rest.value.0;
        assert Drive(startIdx, amount, rounds, fee, search, sent) == Ok((runs, rest.value.1));
        forall i | 0 <= i < |runs| - 1
          ensures runs[i + 1].sentBefore == search(startIdx, runs[i].netAmount, runs[i].swapAmount, runs[i].sentBefore)
        {
          if i > 0 {
            assert runs[i] == rest.value.0[i - 1] && runs[i + 1] == rest.value.0[i];
          }
        }
      }
    }
  }

  /** The halving loop of the program: at most four passes from the
      opening balance, stopping once the halved notional is below the
      minimum. */
  method SearchArbitrages<A>(startIdx: nat, initBalance: nat, fee: nat -> nat,
                             search: (nat, nat, nat, set<A>) -> set<A>, initSent: set<A>)
    returns (r: Result<(seq<Run<A>>, set<A>)>)
    ensures r == Drive(startIdx, initBalance, SearchRounds, fee, search, initSent)
  {
    var swapStartAmount: nat := initBalance;
    var sent := initSent;
    var runs: seq<Run<A>> := [];
    ExtendEmpty(Drive(startIdx, initBalance, SearchRounds, fee, search, initSent));
    for round := 0 to SearchRounds
      invariant Extend(runs, Drive(startIdx, swapStartAmount, SearchRounds - round, fee, search, sent))
             == Drive(startIdx, initBalance, SearchRounds, fee, search, initSent)
    {
      var fees := fee(swapStartAmount);
      if fees > swapStartAmount {
        return Err(Underflow);
      }
      var netAmount := swapStartAmount - fees;
      var run := Run(swapStartAmount, netAmount, sent);
      var after := search(startIdx, netAmount, swapStartAmount, sent);
      ghost var rest := if swapStartAmount / 2 < MinSwapAmount then Ok(([], after))
                  else Drive(startIdx, swapStartAmount / 2, SearchRounds - round - 1, fee, search, after);
      assert Drive(startIdx, swapStartAmount, SearchRounds - round, fee, search, sent) == Extend([run], rest);
      ExtendTwice(runs, [run], rest);
      runs := runs + [run];
      sent := after;
      swapStartAmount := swapStartAmount / 2;
      if swapStartAmount < MinSwapAmount {
        assert runs + [] == runs;
        return Ok((runs, sent));
      }
    }
    assert Drive(startIdx, swapStartAmount, 0, fee, search, sent) == Ok(([], sent));
    assert runs + [] == runs;
    r := Ok((runs, sent));
  }

  /** The index of the start mint; a mint never indexed is the `unwrap` of
      a missing map entry. */
  function StartIndex(reg: Registry, startMint: Pubkey): (r: Result<nat>)
    ensures r.Ok? <==> startMint in reg.mint2idx
    ensures r.Err? ==> r.error == MissingEntry
    ensures r.Ok? && MintIndex(reg.tokenMints, reg.mint2idx) ==>
      r.value < |reg.tokenMints| && reg.tokenMints[r.value] == startMint
  {
    if startMint in reg.mint2idx then Ok(reg.mint2idx[startMint]) else Err(MissingEntry)
  }

  /** The fetched accounts with the absent ones dropped, in order. */
  function Present(fetched: seq<Option<Account>>): (r: seq<Account>)
    ensures |r| <= |fetched|
    ensures forall a :: a in r <==> Some(a) in fetched
    ensures r == [] <==> forall i :: 0 <= i < |fetched| ==> fetched[i].None?
    ensures (forall i :: 0 <= i < |fetched| ==> fetched[i].Some?) ==>
      |r| == |fetched| && forall i :: 0 <= i < |r| ==> fetched[i] == Some(r[i])
    decreases |fetched|
  {
    if fetched == [] then []
    else
      var rest := Present(fetched[..|fetched| - 1]);
      match fetched[|fetched| - 1]
      case None => rest
      case Some(a) => rest + [a]
  }

  /** `idx` lists, in increasing order, exactly the positions of the present
      accounts of `fetched`, and `kept` holds the accounts at those positions. */
  predicate PositionsOf(fetched: seq<Option<Account>>, kept: seq<Account>, idx: seq<nat>) {
    && |idx| == |kept|
    && (forall k :: 0 <= k < |idx| ==> idx[k] < |fetched| && fetched[idx[k]] == Some(kept[k]))
    && (forall k, l :: 0 <= k < l < |idx| ==> idx[k] < idx[l])
    && (forall i :: 0 <= i < |fetched| && fetched[i].Some? ==> i in idx)
  }

  /** The filter keeps exactly the present accounts, each once and in the
      order they were fetched: the k-th kept account is the one at the k-th
      present position, and every present position is taken. */
  lemma {:induction false} PresentInOrder(fetched: seq<Option<Account>>) returns (idx: seq<nat>)
    ensures PositionsOf(fetched, Present(fetched), idx)
    decreases |fetched|
  {
    if fetched == [] {
      idx := [];
    } else {
      var n := |fetched| - 1;
      var sub := PresentInOrder(fetched[..n]);
      if fetched[n].None? {
        PositionsSkipAbsent(fetched, Present(fetched[..n]), sub);
        idx := sub;
      } else {
        PositionsTakePresent(fetched, Present(fetched[..n]), sub);
        idx := sub + [n];
      }
    }
  }

  /** An absent last entry adds no position. */
  lemma PositionsSkipAbsent(fetched: seq<Option<Account>>, kept: seq<Account>, idx: seq<nat>)
    requires fetched != [] && fetched[|fetched| - 1].None?
    requires PositionsOf(fetched[..|fetched| - 1], kept, idx)
    ensures PositionsOf(fetched, kept, idx)
  {
    var n := |fetched| - 1;
    forall i | 0 <= i < |fetched| && fetched[i].Some?
      ensures i in idx
    {
      assert i < n && fetched[..n][i] == fetched[i];
    }
  }

  /** A present last entry adds its position and its account at the end. */
  lemma PositionsTakePresent(fetched: seq<Option<Account>>, kept: seq<Account>, idx: seq<nat>)
    requires fetched != [] && fetched[|fetched| - 1].Some?
    requires PositionsOf(fetched[..|fetched| - 1], kept, idx)
    ensures PositionsOf(fetched, kept + [fetched[|fetched| - 1].value], idx + [|fetched| - 1])
  {
    var n := |fetched| - 1;
    var kept', idx' := kept + [fetched[n].value], idx + [n];
    forall k | 0 <= k < |idx'|
      ensures idx'[k] < |fetched| && fetched[idx'[k]] == Some(kept'[k])
    {
      if k < |idx| {
        assert idx'[k] == idx[k] && kept'[k] == kept[k] && fetched[..n][idx[k]] == fetched[idx[k]];
      }
    }
    forall i | 0 <= i < |fetched| && fetched[i].Some?
      ensures i in idx'
    {
      if i < n {
        assert fetched[..n][i] == fetched[i];
      }
    }
  }

  /** The opening balance as written: the owner's account is fetched
      last, the absent accounts are dropped, and the last present one is
      popped and decoded as a token account. */
  function OpeningBalanceAsWritten(fetched: seq<Option<Account>>): (r: Result<nat>)
    ensures r.Ok? ==> Some(TokenAccount(r.value)) in fetched
    ensures (forall i :: 0 <= i < |fetched| ==> fetched[i].None?) ==> r == Err(MissingAccount)
  {
    var present := Present(fetched);
    if present == [] then Err(MissingAccount) else UnpackAmount(present[|present| - 1])
  }

  /** Dropping the absent accounts before the pop lets another account
      stand in for a missing owner account: the two vaults of one AMM pool
      followed by an absent owner account give the second vault's amount. */
  lemma AsWrittenReadsVault(amount0: nat, amount1: nat)
    ensures OpeningBalanceAsWritten([Some(TokenAccount(amount0)), Some(TokenAccount(amount1)), None]) == Ok(amount1)
  {
    var fetched: seq<Option<Account>> := [Some(TokenAccount(amount0)), Some(TokenAccount(amount1)), None];
    assert fetched[..2][..1][..0] == [];
    assert Present(fetched[..2][..1]) == [TokenAccount(amount0)];
    assert Present(fetched) == Present(fetched[..2]) == [TokenAccount(amount0), TokenAccount(amount1)];
  }

  /** On the same run, an absent owner account also stops the build before
      any search: the pool accounts are fetched first and the owner's last,
      so after the filter and the pop fewer accounts are left than the
      loaded pools requested (or the pop itself fails on an empty list). */
  lemma AbsentOwnerStopsBuild(reg: Registry, fetched: seq<Option<Account>>)
    requires Consistent(reg)
    requires |fetched| == |Concat(reg.updatePks)| + 1
    requires fetched[|fetched| - 1].None?
    ensures var present := Present(fetched);
      present == [] || !ExchangeGraph.BuildsOk(reg.pools, reg.updatePksLengths, reg.allMintIdxs, present[..|present| - 1])
  {
    var n := |fetched| - 1;
    assert Present(fetched) == Present(fetched[..n]);
    var present := Present(fetched);
    if present != [] {
      LoadingProperties.BuildsAfterLoad(reg, present[..|present| - 1]);
    }
  }

  /** The opening balance read from the owner's account itself, the last
      one fetched. */
  function OpeningBalance(fetched: seq<Option<Account>>): (r: Result<nat>)
    ensures r.Ok? <==> fetched != [] && fetched[|fetched| - 1].Some? && fetched[|fetched| - 1].value.TokenAccount?
    ensures r.Ok? ==> fetched[|fetched| - 1] == Some(TokenAccount(r.value))
    ensures r.Err? ==> r.error == MissingAccount || r.error == DecodeFailure
  {
    if fetched == [] then Err(MissingAccount)
    else
      match fetched[|fetched| - 1]
      case None => Err(MissingAccount)
      case Some(a) => UnpackAmount(a)
  }

  /** Whenever the owner's account is present, both readings agree; they
      differ only in what stands in for an absent one. */
  lemma OpeningBalancesAgree(fetched: seq<Option<Account>>)
    requires fetched != [] && fetched[|fetched| - 1].Some?
    ensures OpeningBalanceAsWritten(fetched) == OpeningBalance(fetched)
  {
    var p := Present(fetched);
    assert p == Present(fetched[..|fetched| - 1]) + [fetched[|fetched| - 1].value];
  }
}
