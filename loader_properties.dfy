/** What the loading loop of client-pool/src/main.rs guarantees when it
    starts from an empty registry, what goes wrong when it starts as
    written, and how its result feeds the graph build. */
module LoadingProperties {
  import opened Common
  import opened Pools
  import opened ExchangeGraph
  import opened PoolLoading
  import opened JupiterPools

  /** The part of the registry invariant that indexing a mint touches. */
  predicate TokensConsistent(reg: Registry) {
    && |reg.graphEdges| == |reg.tokenMints|
    && MintIndex(reg.tokenMints, reg.mint2idx)
    && Adjacency(reg.graphEdges)
  }

  /** The i-th index names the i-th mint. */
  predicate Names(tokenMints: seq<Pubkey>, idxs: seq<nat>, mints: seq<Pubkey>) {
    && |idxs| == |mints|
    && forall t :: 0 <= t < |mints| ==> idxs[t] < |tokenMints| && tokenMints[idxs[t]] == mints[t]
  }

  /** On a consistent registry a mint always gets an index: its own on a
      first sighting, the recorded one otherwise; the index names the mint
      and only an empty neighbour set is added. */
  lemma {:induction false} IndexMintConsistent(reg: Registry, mint: Pubkey)
    requires TokensConsistent(reg)
    ensures IndexMint(reg, mint).Ok?
    ensures var (next, idx) := IndexMint(reg, mint).value;
      && TokensConsistent(next)
      && idx < |next.tokenMints| && next.tokenMints[idx] == mint
      && (mint in reg.tokenMints ==> next == reg)
      && (mint !in reg.tokenMints ==> idx == |reg.tokenMints| && next.graphEdges == reg.graphEdges + [{}])
  {
    if mint !in reg.tokenMints {
      var (next, idx) := IndexMint(reg, mint).value;
      assert mint !in reg.mint2idx;
      assert next.graphEdges == reg.graphEdges + [{}];
      forall i, j {:trigger j in next.graphEdges[i]} | 0 <= i < |next.graphEdges| && j in next.graphEdges[i]
        ensures j < |next.graphEdges| && i in next.graphEdges[j]
      {
        assert i < |reg.graphEdges| && next.graphEdges[i] == reg.graphEdges[i];
        assert j in reg.graphEdges[i];
        assert j < |reg.graphEdges| && i in reg.graphEdges[j];
        assert next.graphEdges[j] == reg.graphEdges[j];
      }
      forall m | m in next.mint2idx
        ensures next.mint2idx[m] < |next.tokenMints| && next.tokenMints[next.mint2idx[m]] == m
      {
        if m != mint {
          assert next.tokenMints[reg.mint2idx[m]] == reg.tokenMints[reg.mint2idx[m]];
        }
      }
      forall i | 0 <= i < |next.tokenMints|
        ensures next.tokenMints[i] in next.mint2idx && next.mint2idx[next.tokenMints[i]] == i
      {
        if i < |reg.tokenMints| {
          assert next.tokenMints[i] == reg.tokenMints[i];
        }
      }
    } else {
      var i :| 0 <= i < |reg.tokenMints| && reg.tokenMints[i] == mint;
      assert mint in reg.mint2idx;
    }
  }

  /** On a consistent registry every mint of a list gets an index, in
      order; each index names its mint, the earlier indices are kept, and
      the adjacency only gains empty neighbour sets. */
  lemma {:induction false} IndexMintsConsistent(reg: Registry, mints: seq<Pubkey>, idxs: seq<nat>)
    returns (next: Registry, all: seq<nat>)
    requires TokensConsistent(reg)
    ensures IndexMintsFrom(reg, mints, idxs) == Ok((next, all))
    ensures TokensConsistent(next)
    ensures reg.tokenMints <= next.tokenMints
    ensures forall x :: 0 <= x < |reg.graphEdges| ==> next.graphEdges[x] == reg.graphEdges[x]
    ensures forall x :: |reg.graphEdges| <= x < |next.graphEdges| ==> next.graphEdges[x] == {}
    ensures idxs <= all
    ensures |idxs| <= |all| && Names(next.tokenMints, all[|idxs|..], mints)
    decreases |mints|
  {
    if mints == [] {
      next, all := reg, idxs;
    } else {
      IndexMintConsistent(reg, mints[0]);
      var (mid, idx) := IndexMint(reg, mints[0]).value;
      next, all := IndexMintsConsistent(mid, mints[1..], idxs + [idx]);
      assert all[|idxs|] == idx by {
        assert (idxs + [idx])[|idxs|] == idx;
      }
      var added := all[|idxs|..];
      forall t | 0 <= t < |mints|
        ensures added[t] < |next.tokenMints| && next.tokenMints[added[t]] == mints[t]
      {
        if t == 0 {
          assert next.tokenMints[idx] == mid.tokenMints[idx];
        } else {
          assert added[t] == all[|idxs + [idx]|..][t - 1];
          assert mints[t] == mints[1..][t - 1];
        }
      }
    }
  }

  /** `next` keeps everything `reg` recorded: the vectors only grow at
      their ends and the neighbour sets only gain members. */
  predicate Extends(reg: Registry, next: Registry) {
    && reg.tokenMints <= next.tokenMints
    && reg.pools <= next.pools
    && reg.updatePks <= next.updatePks
    && reg.updatePksLengths <= next.updatePksLengths
    && reg.allMintIdxs <= next.allMintIdxs
    && |reg.graphEdges| <= |next.graphEdges|
    && (forall x :: 0 <= x < |reg.graphEdges| ==> reg.graphEdges[x] <= next.graphEdges[x])
  }

  lemma RecordedKept(reg: Registry, next: Registry, k: nat)
    requires Extends(reg, next) && PoolRecorded(reg, k)
    ensures PoolRecorded(next, k)
  {
    var i := reg.allMintIdxs[2 * k];
    assert next.allMintIdxs[2 * k] == i && next.allMintIdxs[2 * k + 1] == reg.allMintIdxs[2 * k + 1];
    assert reg.graphEdges[i] <= next.graphEdges[i];
  }

  lemma WitnessKept(reg: Registry, next: Registry, i: nat, j: nat)
    requires Extends(reg, next) && EdgeWitnessed(reg, i, j)
    ensures EdgeWitnessed(next, i, j)
  {
    var k :| 0 <= k < |reg.pools| && 2 * k + 1 < |reg.allMintIdxs| && Joins(reg.allMintIdxs, k, i, j);
    assert next.allMintIdxs[2 * k] == reg.allMintIdxs[2 * k] && next.allMintIdxs[2 * k + 1] == reg.allMintIdxs[2 * k + 1];
    assert Joins(next.allMintIdxs, k, i, j);
  }

  /** Linking two token indices keeps the adjacency symmetric. */
  lemma LinkedAdjacency(edges: seq<set<nat>>, i: nat, j: nat)
    requires Adjacency(edges) && i < |edges| && j < |edges|
    ensures Adjacency(AddEdge(edges, i, j).value)
  {
    var linked := AddEdge(edges, i, j).value;
    forall x, y {:trigger y in linked[x]} | 0 <= x < |linked| && y in linked[x]
      ensures y < |linked| && x in linked[y]
    {
      if y in edges[x] {
        assert x in edges[y] && edges[y] <= linked[y];
      }
    }
  }

  /** The registry an admission produces from the indexed registry, the
      two indices and the update accounts. */
  function Admitted(indexed: Registry, p: Pool, idxs: seq<nat>, pks: seq<Pubkey>): Registry
    requires |idxs| == 2 && idxs[0] < |indexed.graphEdges| && idxs[1] < |indexed.graphEdges|
  {
    indexed.(graphEdges := AddEdge(indexed.graphEdges, idxs[0], idxs[1]).value,
             pools := indexed.pools + [p],
             updatePks := indexed.updatePks + [pks],
             updatePksLengths := indexed.updatePksLengths + [|pks|],
             allMintIdxs := indexed.allMintIdxs + idxs)
  }

  /** A pool with two mints and listable update accounts is admitted into
      a consistent registry: both mints are indexed and linked. */
  lemma AdmitShape(reg: Registry, p: Pool) returns (indexed: Registry, idxs: seq<nat>)
    requires Consistent(reg) && |Mints(p)| == 2 && UpdateAccounts(p).Ok?
    ensures TokensConsistent(indexed) && Names(indexed.tokenMints, idxs, Mints(p))
    ensures |idxs| == 2 && idxs[0] < |indexed.graphEdges| && idxs[1] < |indexed.graphEdges|
    ensures reg.tokenMints <= indexed.tokenMints
    ensures forall x :: 0 <= x < |reg.graphEdges| ==> indexed.graphEdges[x] == reg.graphEdges[x]
    ensures forall x :: |reg.graphEdges| <= x < |indexed.graphEdges| ==> indexed.graphEdges[x] == {}
    ensures indexed.pools == reg.pools && indexed.updatePks == reg.updatePks
    ensures indexed.updatePksLengths == reg.updatePksLengths && indexed.allMintIdxs == reg.allMintIdxs
    ensures AdmitPool(reg, p, true) == Ok(Admitted(indexed, p, idxs, UpdateAccounts(p).value))
  {
    indexed, idxs := IndexMintsConsistent(reg, Mints(p), []);
    assert idxs[0..] == idxs;
  }

  /** After an admission every pool is recorded: the earlier ones as
      before, the new one under its two indices. */
  lemma AdmittedRecorded(reg: Registry, p: Pool, indexed: Registry, idxs: seq<nat>)
    requires Consistent(reg) && |Mints(p)| == 2 && UpdateAccounts(p).Ok?
    requires TokensConsistent(indexed) && Names(indexed.tokenMints, idxs, Mints(p))
    requires |idxs| == 2 && idxs[0] < |indexed.graphEdges| && idxs[1] < |indexed.graphEdges|
    requires reg.tokenMints <= indexed.tokenMints
    requires forall x :: 0 <= x < |reg.graphEdges| ==> indexed.graphEdges[x] == reg.graphEdges[x]
    requires indexed.pools == reg.pools && indexed.updatePks == reg.updatePks
    requires indexed.updatePksLengths == reg.updatePksLengths && indexed.allMintIdxs == reg.allMintIdxs
    ensures var next := Admitted(indexed, p, idxs, UpdateAccounts(p).value);
      Extends(reg, next) && forall k :: 0 <= k < |next.pools| ==> PoolRecorded(next, k)
  {
    var next := Admitted(indexed, p, idxs, UpdateAccounts(p).value);
    assert Extends(reg, next);
    AllRecordedKept(reg, next);
    NewPoolRecorded(reg, p, indexed, idxs);
  }

  lemma AllRecordedKept(reg: Registry, next: Registry)
    requires Extends(reg, next) && forall k :: 0 <= k < |reg.pools| ==> PoolRecorded(reg, k)
    requires |next.pools| == |reg.pools| + 1
    ensures forall k :: 0 <= k < |reg.pools| ==> PoolRecorded(next, k)
  {
    forall k | 0 <= k < |reg.pools|
      ensures PoolRecorded(next, k)
    {
      RecordedKept(reg, next, k);
    }
  }

  /** The admitted pool is recorded under its two indices. */
  lemma NewPoolRecorded(reg: Registry, p: Pool, indexed: Registry, idxs: seq<nat>)
    requires Consistent(reg) && |Mints(p)| == 2 && UpdateAccounts(p).Ok?
    requires Names(indexed.tokenMints, idxs, Mints(p))
    requires |idxs| == 2 && idxs[0] < |indexed.graphEdges| && idxs[1] < |indexed.graphEdges|
    requires |indexed.graphEdges| == |indexed.tokenMints|
    requires indexed.pools == reg.pools && indexed.updatePks == reg.updatePks
    requires indexed.updatePksLengths == reg.updatePksLengths && indexed.allMintIdxs == reg.allMintIdxs
    ensures PoolRecorded(Admitted(indexed, p, idxs, UpdateAccounts(p).value), |reg.pools|)
  {
    var next := Admitted(indexed, p, idxs, UpdateAccounts(p).value);
    var n := |reg.pools|;
    assert next.allMintIdxs[2 * n] == idxs[0] && next.allMintIdxs[2 * n + 1] == idxs[1];
    assert next.pools[n] == p && next.updatePks[n] == UpdateAccounts(p).value;
    assert idxs[1] in next.graphEdges[idxs[0]];
  }

  /** After an admission every link is owed to a pool: the old links to
      the pools that made them, the new one to the new pool. */
  lemma AdmittedWitnessed(reg: Registry, p: Pool, indexed: Registry, idxs: seq<nat>)
    requires Consistent(reg) && UpdateAccounts(p).Ok?
    requires |idxs| == 2 && idxs[0] < |indexed.graphEdges| && idxs[1] < |indexed.graphEdges|
    requires |reg.graphEdges| <= |indexed.graphEdges|
    requires forall x :: 0 <= x < |reg.graphEdges| ==> indexed.graphEdges[x] == reg.graphEdges[x]
    requires forall x :: |reg.graphEdges| <= x < |indexed.graphEdges| ==> indexed.graphEdges[x] == {}
    requires indexed.pools == reg.pools && indexed.allMintIdxs == reg.allMintIdxs
    requires Extends(reg, Admitted(indexed, p, idxs, UpdateAccounts(p).value))
    ensures var next := Admitted(indexed, p, idxs, UpdateAccounts(p).value);
      forall x: nat, y: nat :: x < |next.graphEdges| && y in next.graphEdges[x] ==> EdgeWitnessed(next, x, y)
  {
    var next := Admitted(indexed, p, idxs, UpdateAccounts(p).value);
    var n := |reg.pools|;
    assert next.allMintIdxs[2 * n] == idxs[0] && next.allMintIdxs[2 * n + 1] == idxs[1];
    forall x: nat, y: nat | x < |next.graphEdges| && y in next.graphEdges[x]
      ensures EdgeWitnessed(next, x, y)
    {
      if y in indexed.graphEdges[x] {
        assert x < |reg.graphEdges|;
        WitnessKept(reg, next, x, y);
      } else {
        assert Joins(next.allMintIdxs, n, x, y);
      }
    }
  }

  /** On a consistent registry, admitting a pool fails exactly when it has
      two mints and listing its update accounts fails, and a success keeps
      the registry consistent. */
  lemma AdmitConsistent(reg: Registry, p: Pool)
    requires Consistent(reg)
    ensures AdmitPool(reg, p, true).Ok? <==> |Mints(p)| != 2 || UpdateAccounts(p).Ok?
    ensures AdmitPool(reg, p, true).Err? ==> AdmitPool(reg, p, true).error == UpdateAccounts(p).error
    ensures AdmitPool(reg, p, true).Ok? ==> Consistent(AdmitPool(reg, p, true).value)
  {
    if |Mints(p)| == 2 {
      if UpdateAccounts(p).Ok? {
        var indexed, idxs := AdmitShape(reg, p);
        LinkedAdjacency(indexed.graphEdges, idxs[0], idxs[1]);
        AdmittedRecorded(reg, p, indexed, idxs);
        AdmittedWitnessed(reg, p, indexed, idxs);
      } else {
        var indexed, idxs := IndexMintsConsistent(reg, Mints(p), []);
      }
    }
  }

  /** The candidates with exactly two mints, in order: the pools the
      loading loop keeps. */
  function TwoMintPools(candidates: seq<Pool>): (r: seq<Pool>)
    ensures |r| <= |candidates|
    decreases |candidates|
  {
    if candidates == [] then []
    else (if |Mints(candidates[0])| == 2 then [candidates[0]] else []) + TwoMintPools(candidates[1..])
  }

  /** Every pool with two mints can list its update accounts. */
  predicate Listable(candidates: seq<Pool>) {
    forall k :: 0 <= k < |candidates| && |Mints(candidates[k])| == 2 ==> UpdateAccounts(candidates[k]).Ok?
  }

  /** A list is listable exactly when its head is and its tail is. */
  lemma ListableCons(candidates: seq<Pool>)
    requires candidates != []
    ensures Listable(candidates) <==>
      && (|Mints(candidates[0])| == 2 ==> UpdateAccounts(candidates[0]).Ok?)
      && Listable(candidates[1..])
  {
    if Listable(candidates[1..]) && (|Mints(candidates[0])| == 2 ==> UpdateAccounts(candidates[0]).Ok?) {
      forall k | 0 <= k < |candidates| && |Mints(candidates[k])| == 2
        ensures UpdateAccounts(candidates[k]).Ok?
      {
        if k > 0 {
          assert candidates[k] == candidates[1..][k - 1];
        }
      }
    }
    if Listable(candidates) {
      forall k | 0 <= k < |candidates[1..]| && |Mints(candidates[1..][k])| == 2
        ensures UpdateAccounts(candidates[1..][k]).Ok?
      {
        assert candidates[1..][k] == candidates[k + 1];
      }
    }
  }

  /** A successful load keeps exactly the two-mint candidates, in order,
      after the pools already there. */
  lemma {:induction false} LoadKeepsTwoMintPools(reg: Registry, candidates: seq<Pool>, recordIdxs: bool)
    ensures LoadFrom(reg, candidates, recordIdxs).Ok? ==>
      LoadFrom(reg, candidates, recordIdxs).value.pools == reg.pools + TwoMintPools(candidates)
    decreases |candidates|
  {
    if candidates != [] && AdmitPool(reg, candidates[0], recordIdxs).Ok? {
      var p := candidates[0];
      var next := AdmitPool(reg, p, recordIdxs).value;
      var rest := LoadFrom(next, candidates[1..], recordIdxs);
      assert LoadFrom(reg, candidates, recordIdxs) == rest;
      LoadKeepsTwoMintPools(next, candidates[1..], recordIdxs);
      if rest.Ok? {
        var head := if |Mints(p)| == 2 then [p] else [];
        var tail := TwoMintPools(candidates[1..]);
        assert next.pools == reg.pools + head;
        assert TwoMintPools(candidates) == head + tail;
        assert rest.value.pools == reg.pools + head + tail;
        assert reg.pools + head + tail == reg.pools + (head + tail);
      }
    }
  }

  /** From a consistent registry the loading loop succeeds exactly when
      every two-mint candidate can list its update accounts, and a success
      leaves the registry consistent. */
  lemma {:induction false} LoadConsistent(reg: Registry, candidates: seq<Pool>)
    requires Consistent(reg)
    ensures LoadFrom(reg, candidates, true).Ok? <==> Listable(candidates)
    ensures LoadFrom(reg, candidates, true).Ok? ==> Consistent(LoadFrom(reg, candidates, true).value)
    decreases |candidates|
  {
    if candidates != [] {
      var p := candidates[0];
      AdmitConsistent(reg, p);
      ListableCons(candidates);
      if AdmitPool(reg, p, true).Ok? {
        LoadConsistent(AdmitPool(reg, p, true).value, candidates[1..]);
      }
    }
  }

  /** The loading loop from an empty registry, as the later steps expect:
      it fails only on a two-mint pool that cannot list its update
      accounts, and otherwise keeps the two-mint candidates in a
      consistent registry. */
  lemma LoadFromEmpty(candidates: seq<Pool>)
    ensures LoadFrom(EmptyRegistry(), candidates, true).Ok? <==> Listable(candidates)
    ensures LoadFrom(EmptyRegistry(), candidates, true).Ok? ==>
      && Consistent(LoadFrom(EmptyRegistry(), candidates, true).value)
      && LoadFrom(EmptyRegistry(), candidates, true).value.pools == TwoMintPools(candidates)
  {
    LoadConsistent(EmptyRegistry(), candidates);
    LoadKeepsTwoMintPools(EmptyRegistry(), candidates, true);
  }

  /** Every link of the adjacency is listed in the quote graph. */
  lemma LinkHasQuote(reg: Registry, i: nat, j: nat)
    requires Consistent(reg) && i < |reg.graphEdges| && j in reg.graphEdges[i]
    ensures QuotesOf(reg.pools, reg.allMintIdxs, |reg.pools|, i, j) != []
  {
    assert EdgeWitnessed(reg, i, j);
    var k :| 0 <= k < |reg.pools| && 2 * k + 1 < |reg.allMintIdxs| && Joins(reg.allMintIdxs, k, i, j);
    QuotesMembership(reg.pools, reg.allMintIdxs, |reg.pools|, i, j, reg.pools[k]);
  }

  /** Every pool listed in the quote graph links its two tokens. */
  lemma QuoteHasLink(reg: Registry, i: nat, j: nat)
    requires Consistent(reg) && QuotesOf(reg.pools, reg.allMintIdxs, |reg.pools|, i, j) != []
    ensures i < |reg.graphEdges| && j in reg.graphEdges[i]
  {
    var quotes := QuotesOf(reg.pools, reg.allMintIdxs, |reg.pools|, i, j);
    QuotesMembership(reg.pools, reg.allMintIdxs, |reg.pools|, i, j, quotes[0]);
    var k :| 0 <= k < |reg.pools| && reg.pools[k] == quotes[0] && Joins(reg.allMintIdxs, k, i, j);
    assert PoolRecorded(reg, k);
    var a, b := reg.allMintIdxs[2 * k], reg.allMintIdxs[2 * k + 1];
    assert b in reg.graphEdges[a];
  }

  /** The adjacency the search walks and the quote lists of the graph
      build agree: tokens i and j are neighbours exactly when some pool is
      listed between them. */
  lemma AdjacencyMatchesQuotes(reg: Registry, i: nat, j: nat)
    requires Consistent(reg)
    ensures (i < |reg.graphEdges| && j in reg.graphEdges[i]) <==>
      QuotesOf(reg.pools, reg.allMintIdxs, |reg.pools|, i, j) != []
  {
    if i < |reg.graphEdges| && j in reg.graphEdges[i] {
      LinkHasQuote(reg, i, j);
    }
    if QuotesOf(reg.pools, reg.allMintIdxs, |reg.pools|, i, j) != [] {
      QuoteHasLink(reg, i, j);
    }
  }

  /** The slice lengths add up to the number of update accounts. */
  lemma {:induction false} SumIsConcatLength(pks: seq<seq<Pubkey>>, lengths: seq<nat>)
    requires |pks| == |lengths|
    requires forall k :: 0 <= k < |pks| ==> lengths[k] == |pks[k]|
    ensures Sum(lengths) == |Concat(pks)|
    decreases |pks|
  {
    if pks != [] {
      var n := |pks| - 1;
      SumIsConcatLength(pks[..n], lengths[..n]);
    }
  }

  /** On a consistent registry the graph build succeeds exactly when the
      fetched accounts are at least as many as the update accounts the
      pools asked for. */
  lemma BuildsAfterLoad(reg: Registry, accounts: seq<Account>)
    requires Consistent(reg)
    ensures BuildsOk(reg.pools, reg.updatePksLengths, reg.allMintIdxs, accounts) <==> |Concat(reg.updatePks)| <= |accounts|
  {
    forall k | 0 <= k < |reg.pools|
      ensures reg.updatePksLengths[k] == |reg.updatePks[k]|
    {
      assert PoolRecorded(reg, k);
    }
    SumIsConcatLength(reg.updatePks, reg.updatePksLengths);
    assert reg.updatePksLengths[..|reg.pools|] == reg.updatePksLengths;
  }

  /** Indexing mints never reads the index vector. */
  lemma {:induction false} IndexIgnoresIdxs(reg: Registry, mints: seq<Pubkey>, acc: seq<nat>, x: seq<nat>)
    ensures IndexMintsFrom(reg.(allMintIdxs := x), mints, acc).Ok? <==> IndexMintsFrom(reg, mints, acc).Ok?
    ensures IndexMintsFrom(reg, mints, acc).Ok? ==>
      && IndexMintsFrom(reg.(allMintIdxs := x), mints, acc).value.0 == IndexMintsFrom(reg, mints, acc).value.0.(allMintIdxs := x)
      && IndexMintsFrom(reg.(allMintIdxs := x), mints, acc).value.1 == IndexMintsFrom(reg, mints, acc).value.1
    decreases |mints|
  {
    if mints != [] && IndexMint(reg, mints[0]).Ok? {
      var (next, idx) := IndexMint(reg, mints[0]).value;
      assert IndexMint(reg.(allMintIdxs := x), mints[0]) == Ok((next.(allMintIdxs := x), idx));
      IndexIgnoresIdxs(next, mints[1..], acc + [idx], x);
    }
  }

  /** The pass as written admits what the corrected pass admits, and
      differs from it only in the index vector, which it leaves alone. */
  lemma AdmitIgnoresIdxs(reg: Registry, p: Pool, x: seq<nat>)
    ensures AdmitPool(reg.(allMintIdxs := x), p, false).Ok? <==> AdmitPool(reg, p, true).Ok?
    ensures AdmitPool(reg, p, true).Ok? ==>
      AdmitPool(reg.(allMintIdxs := x), p, false).value == AdmitPool(reg, p, true).value.(allMintIdxs := x)
    ensures AdmitPool(reg, p, true).Err? ==>
      AdmitPool(reg.(allMintIdxs := x), p, false).error == AdmitPool(reg, p, true).error
  {
    IndexIgnoresIdxs(reg, Mints(p), [], x);
  }

  /** The loading loop as written computes what the corrected loop
      computes, except that the index vector the graph build reads stays
      as it started. */
  lemma {:induction false} LoadIgnoresIdxs(reg: Registry, candidates: seq<Pool>, x: seq<nat>)
    ensures LoadFrom(reg.(allMintIdxs := x), candidates, false).Ok? <==> LoadFrom(reg, candidates, true).Ok?
    ensures LoadFrom(reg, candidates, true).Ok? ==>
      LoadFrom(reg.(allMintIdxs := x), candidates, false).value == LoadFrom(reg, candidates, true).value.(allMintIdxs := x)
    decreases |candidates|
  {
    if candidates != [] {
      AdmitIgnoresIdxs(reg, candidates[0], x);
      if AdmitPool(reg, candidates[0], true).Ok? {
        var next := AdmitPool(reg, candidates[0], true).value;
        assert next.(allMintIdxs := x) == AdmitPool(reg.(allMintIdxs := x), candidates[0], false).value;
        LoadIgnoresIdxs(next, candidates[1..], x);
      }
    }
  }

  /** As written, the index vector the graph build reads is never filled:
      whenever the loading loop from an empty registry keeps a pool, the
      build cannot take that pool's two indices and fails. */
  lemma AsWrittenBuildFails(candidates: seq<Pool>, accounts: seq<Account>)
    requires LoadFrom(EmptyRegistry(), candidates, false).Ok?
    requires TwoMintPools(candidates) != []
    ensures var loaded := LoadFrom(EmptyRegistry(), candidates, false).value;
      && loaded.allMintIdxs == []
      && |loaded.pools| > 0
      && !BuildsOk(loaded.pools, loaded.updatePksLengths, loaded.allMintIdxs, accounts)
  {
    LoadIgnoresIdxs(EmptyRegistry(), candidates, []);
    assert EmptyRegistry().(allMintIdxs := []) == EmptyRegistry();
    LoadKeepsTwoMintPools(EmptyRegistry(), candidates, false);
  }

  /** Loaded with the indices recorded, the same candidates build whenever
      every requested account was fetched, and the adjacency matches the
      quote graph the build produces. */
  lemma CorrectedBuildSucceeds(candidates: seq<Pool>, accounts: seq<Account>, i: nat, j: nat)
    requires LoadFrom(EmptyRegistry(), candidates, true).Ok?
    ensures var loaded := LoadFrom(EmptyRegistry(), candidates, true).value;
      && Consistent(loaded)
      && (BuildsOk(loaded.pools, loaded.updatePksLengths, loaded.allMintIdxs, accounts) <==> |Concat(loaded.updatePks)| <= |accounts|)
      && ((i < |loaded.graphEdges| && j in loaded.graphEdges[i]) <==> QuotesOf(loaded.pools, loaded.allMintIdxs, |loaded.pools|, i, j) != [])
  {
    LoadFromEmpty(candidates);
    var loaded := LoadFrom(EmptyRegistry(), candidates, true).value;
    BuildsAfterLoad(loaded, accounts);
    AdjacencyMatchesQuotes(loaded, i, j);
  }

  /** A Jupiter pool shows the discrepancy: it is loaded either way, and
      the build then fails as written but succeeds once its three update
      accounts are there. */
  lemma JupiterPoolShowsMissingIdxs(j: JupiterPool, accounts: seq<Account>)
    ensures LoadFrom(EmptyRegistry(), [Jupiter(j)], false).Ok? && LoadFrom(EmptyRegistry(), [Jupiter(j)], true).Ok?
    ensures var asWritten := LoadFrom(EmptyRegistry(), [Jupiter(j)], false).value;
      !BuildsOk(asWritten.pools, asWritten.updatePksLengths, asWritten.allMintIdxs, accounts)
    ensures var corrected := LoadFrom(EmptyRegistry(), [Jupiter(j)], true).value;
      BuildsOk(corrected.pools, corrected.updatePksLengths, corrected.allMintIdxs, accounts) <==> 3 <= |accounts|
  {
    var candidates := [Jupiter(j)];
    assert Listable(candidates);
    LoadFromEmpty(candidates);
    LoadIgnoresIdxs(EmptyRegistry(), candidates, []);
    assert EmptyRegistry().(allMintIdxs := []) == EmptyRegistry();
    assert TwoMintPools(candidates) == candidates;
    AsWrittenBuildFails(candidates, accounts);
    var corrected := LoadFrom(EmptyRegistry(), candidates, true).value;
    BuildsAfterLoad(corrected, accounts);
    assert PoolRecorded(corrected, 0);
    assert corrected.updatePks == [corrected.updatePks[0]];
    assert Concat(corrected.updatePks) == corrected.updatePks[0];
  }

  /** As written, the mint list starts with the fetched tokens while the
      index map and the adjacency start empty, so admitting any pool with
      two mints fails: a fetched mint has no recorded index, and a new
      mint's index lies beyond the adjacency. */
  lemma SeededAdmitFails(fetched: seq<Pubkey>, p: Pool, recordIdxs: bool)
    requires fetched != [] && |Mints(p)| == 2
    ensures AdmitPool(SeededRegistry(fetched), p, recordIdxs).Err?
  {
    SeededIndexing(fetched, Mints(p));
  }

  /** Indexing two mints from the seeded start either fails or yields an
      index beyond the adjacency. */
  lemma SeededIndexing(fetched: seq<Pubkey>, mints: seq<Pubkey>)
    requires fetched != [] && |mints| == 2
    ensures var r := IndexMintsFrom(SeededRegistry(fetched), mints, []);
      r.Ok? ==> |r.value.1| == 2 && (r.value.1[0] >= |r.value.0.graphEdges| || r.value.1[1] >= |r.value.0.graphEdges|)
  {
    var reg := SeededRegistry(fetched);
    var m0, m1 := mints[0], mints[1];
    assert mints[1..] == [m1] && [m1][1..] == [];
    if m0 !in fetched {
      var reg1 := IndexMint(reg, m0).value.0;
      assert reg1.tokenMints == fetched + [m0] && reg1.mint2idx == map[m0 := |fetched|] && |reg1.graphEdges| == 1;
      assert IndexMint(reg, m0) == Ok((reg1, |fetched|));
      assert [] + [|fetched|] == [|fetched|];
      assert IndexMintsFrom(reg, mints, []) == IndexMintsFrom(reg1, mints[1..], [|fetched|]);
      if m1 == m0 {
        assert IndexMint(reg1, m1) == Ok((reg1, |fetched|));
        assert [|fetched|] + [|fetched|] == [|fetched|, |fetched|];
        assert IndexMintsFrom(reg1, [m1], [|fetched|]) == IndexMintsFrom(reg1, [], [|fetched|, |fetched|]);
      } else if m1 !in fetched {
        var reg2 := IndexMint(reg1, m1).value.0;
        assert |reg2.graphEdges| == 2;
        assert IndexMint(reg1, m1) == Ok((reg2, |fetched| + 1));
        assert [|fetched|] + [|fetched| + 1] == [|fetched|, |fetched| + 1];
        assert IndexMintsFrom(reg1, [m1], [|fetched|]) == IndexMintsFrom(reg2, [], [|fetched|, |fetched| + 1]);
      } else {
        assert IndexMint(reg1, m1).Err?;
      }
    }
  }

  /** As written, loading fails as soon as the fetched token list is not
      empty and some candidate has two mints. */
  lemma {:induction false} SeededLoadFails(fetched: seq<Pubkey>, candidates: seq<Pool>, recordIdxs: bool)
    requires fetched != []
    requires exists k :: 0 <= k < |candidates| && |Mints(candidates[k])| == 2
    ensures LoadFrom(SeededRegistry(fetched), candidates, recordIdxs).Err?
    decreases |candidates|
  {
    var p := candidates[0];
    if |Mints(p)| == 2 {
      SeededAdmitFails(fetched, p, recordIdxs);
    } else {
      var k :| 0 <= k < |candidates| && |Mints(candidates[k])| == 2;
      assert candidates[1..][k - 1] == candidates[k];
      SeededLoadFails(fetched, candidates[1..], recordIdxs);
    }
  }
}
