/** The loading loop of client-pool/src/main.rs: every candidate pool with
    exactly two mints is given an index per mint, its update accounts are
    recorded, the two mints are linked in the adjacency the search walks,
    and the pool is kept. The pools themselves come from parsing
    configuration files, which this model takes as a parameter. */
module PoolLoading {
  import opened Common
  import opened Pools
  import opened ExchangeGraph

  /** The vectors and the map the loading loop fills. */
  datatype Registry = Registry(
    tokenMints: seq<Pubkey>,
    mint2idx: map<Pubkey, nat>,
    graphEdges: seq<set<nat>>,
    pools: seq<Pool>,
    updatePks: seq<seq<Pubkey>>,
    updatePksLengths: seq<nat>,
    allMintIdxs: seq<nat>)

  /** Everything empty: the start the later steps are written for. */
  function EmptyRegistry(): Registry {
    Registry([], map[], [], [], [], [], [])
  }

  /** The start as written: the mint list seeded with the fetched trending
      tokens, the index map and the adjacency empty. */
  function SeededRegistry(fetched: seq<Pubkey>): Registry {
    Registry(fetched, map[], [], [], [], [], [])
  }

  /** Each listed mint is the key of its own position and nothing else is
      a key. */
  predicate MintIndex(tokenMints: seq<Pubkey>, mint2idx: map<Pubkey, nat>) {
    && (forall m :: m in mint2idx ==> mint2idx[m] < |tokenMints| && tokenMints[mint2idx[m]] == m)
    && (forall i :: 0 <= i < |tokenMints| ==> tokenMints[i] in mint2idx && mint2idx[tokenMints[i]] == i)
  }

  /** Every neighbour is a token index, and the relation is symmetric. */
  predicate Adjacency(edges: seq<set<nat>>) {
    forall i, j {:trigger j in edges[i]} :: 0 <= i < |edges| && j in edges[i] ==> j < |edges| && i in edges[j]
  }

  /** `update_pks.concat()`: the update accounts of every pool, in pool
      order. */
  function Concat(pks: seq<seq<Pubkey>>): seq<Pubkey>
    decreases |pks|
  {
    if pks == [] then [] else Concat(pks[..|pks| - 1]) + pks[|pks| - 1]
  }

  /** Pool k is recorded: it has two mints, its two indices name them and
      are linked, and its update accounts are stored with their count. */
  predicate PoolRecorded(reg: Registry, k: nat) {
    && k < |reg.pools| && k < |reg.updatePks| && k < |reg.updatePksLengths| && 2 * k + 1 < |reg.allMintIdxs|
    && var i, j, mints := reg.allMintIdxs[2 * k], reg.allMintIdxs[2 * k + 1], Mints(reg.pools[k]);
    && |mints| == 2 && i < |reg.tokenMints| && j < |reg.tokenMints| && i < |reg.graphEdges|
    && reg.tokenMints[i] == mints[0] && reg.tokenMints[j] == mints[1]
    && j in reg.graphEdges[i]
    && UpdateAccounts(reg.pools[k]) == Ok(reg.updatePks[k])
    && reg.updatePksLengths[k] == |reg.updatePks[k]|
  }

  /** Some recorded pool joins tokens i and j. */
  ghost predicate EdgeWitnessed(reg: Registry, i: nat, j: nat) {
    exists k :: 0 <= k < |reg.pools| && 2 * k + 1 < |reg.allMintIdxs| && Joins(reg.allMintIdxs, k, i, j)
  }

  /** What the loading loop keeps true when it starts from nothing: one
      neighbour set per token, the mint index a bijection, the adjacency
      symmetric, every pool recorded, and every link owed to a pool. */
  ghost predicate Consistent(reg: Registry) {
    && |reg.graphEdges| == |reg.tokenMints|
    && MintIndex(reg.tokenMints, reg.mint2idx)
    && Adjacency(reg.graphEdges)
    && |reg.updatePks| == |reg.pools| && |reg.updatePksLengths| == |reg.pools|
    && |reg.allMintIdxs| == 2 * |reg.pools|
    && (forall k :: 0 <= k < |reg.pools| ==> PoolRecorded(reg, k))
    && (forall i: nat, j: nat :: i < |reg.graphEdges| && j in reg.graphEdges[i] ==> EdgeWitnessed(reg, i, j))
  }

  /** The index of a mint: the next free one on its first sighting, which
      also appends the mint and an empty neighbour set; its recorded index
      otherwise. A mint that is listed but has no recorded index is the
      `unwrap` of a missing map entry. */
  function IndexMint(reg: Registry, mint: Pubkey): (r: Result<(Registry, nat)>)
    ensures r.Ok? <==> mint !in reg.tokenMints || mint in reg.mint2idx
    ensures r.Err? ==> r.error == MissingEntry
    ensures r.Ok? ==> reg.tokenMints <= r.value.0.tokenMints && reg.graphEdges <= r.value.0.graphEdges
    ensures r.Ok? ==>
      && r.value.0.pools == reg.pools && r.value.0.updatePks == reg.updatePks
      && r.value.0.updatePksLengths == reg.updatePksLengths && r.value.0.allMintIdxs == reg.allMintIdxs
  {
    if mint !in reg.tokenMints then
      var idx := |reg.tokenMints|;
      Ok((reg.(mint2idx := reg.mint2idx[mint := idx],
               tokenMints := reg.tokenMints + [mint],
               graphEdges := reg.graphEdges + [{}]), idx))
    else if mint in reg.mint2idx then Ok((reg, reg.mint2idx[mint]))
    else Err(MissingEntry)
  }

  /** The indices of `mints`, taken in order after the ones in `idxs`. */
  function IndexMintsFrom(reg: Registry, mints: seq<Pubkey>, idxs: seq<nat>): (r: Result<(Registry, seq<nat>)>)
    ensures r.Err? ==> r.error == MissingEntry
    ensures r.Ok? ==> |r.value.1| == |idxs| + |mints|
    ensures r.Ok? ==>
      && r.value.0.pools == reg.pools && r.value.0.updatePks == reg.updatePks
      && r.value.0.updatePksLengths == reg.updatePksLengths && r.value.0.allMintIdxs == reg.allMintIdxs
    decreases |mints|
  {
    if mints == [] then Ok((reg, idxs))
    else
      match IndexMint(reg, mints[0])
      case Err(e) => Err(e)
      case Ok((next, idx)) => IndexMintsFrom(next, mints[1..], idxs + [idx])
  }

  /** Links two token indices both ways; an index beyond the adjacency is
      an out-of-range access. */
  function AddEdge(edges: seq<set<nat>>, i: nat, j: nat): (r: Result<seq<set<nat>>>)
    ensures r.Ok? <==> i < |edges| && j < |edges|
    ensures r.Err? ==> r.error == IndexOutOfRange
    ensures r.Ok? ==> |r.value| == |edges| && j in r.value[i] && i in r.value[j]
    ensures r.Ok? ==> forall x :: 0 <= x < |edges| ==> edges[x] <= r.value[x]
    ensures r.Ok? ==> forall x, y :: 0 <= x < |edges| && y in r.value[x] ==>
      y in edges[x] || (x == i && y == j) || (x == j && y == i)
  {
    if i >= |edges| then Err(IndexOutOfRange)
    else
      var linked := edges[i := edges[i] + {j}];
      if j >= |linked| then Err(IndexOutOfRange)
      else Ok(linked[j := linked[j] + {i}])
  }

  /** One pass of the loading loop. A pool without exactly two mints is
      skipped. Otherwise its mints are indexed, its update accounts are
      listed (an AMM venue fails on a mint without a configured token),
      the two indices are linked and the pool is kept. `recordIdxs` says
      whether the two indices are also appended to the index vector the
      graph build reads. */
  function AdmitPool(reg: Registry, p: Pool, recordIdxs: bool): (r: Result<Registry>)
    ensures |Mints(p)| != 2 ==> r == Ok(reg)
    ensures r.Ok? && !recordIdxs ==> r.value.allMintIdxs == reg.allMintIdxs
    ensures r.Ok? && |Mints(p)| == 2 ==> r.value.pools == reg.pools + [p]
  {
    var mints := Mints(p);
    if |mints| != 2 then Ok(reg)
    else
      match IndexMintsFrom(reg, mints, [])
      case Err(e) => Err(e)
      case Ok((indexed, idxs)) =>
        match UpdateAccounts(p)
        case Err(e) => Err(e)
        case Ok(pks) =>
          match AddEdge(indexed.graphEdges, idxs[0], idxs[1])
          case Err(e) => Err(e)
          case Ok(edges) =>
            Ok(indexed.(graphEdges := edges,
                        pools := indexed.pools + [p],
                        updatePks := indexed.updatePks + [pks],
                        updatePksLengths := indexed.updatePksLengths + [|pks|],
                        allMintIdxs := if recordIdxs then indexed.allMintIdxs + idxs else indexed.allMintIdxs))
  }

  /** The loading loop over the remaining candidates, stopping at the
      first failure. */
  function LoadFrom(reg: Registry, candidates: seq<Pool>, recordIdxs: bool): Result<Registry>
    decreases |candidates|
  {
    if candidates == [] then Ok(reg)
    else
      match AdmitPool(reg, candidates[0], recordIdxs)
      case Err(e) => Err(e)
      case Ok(next) => LoadFrom(next, candidates[1..], recordIdxs)
  }

  /** The inner loop of the loading loop: the index of each mint of a
      pool, in order, registering the mints seen for the first time. */
  method IndexPoolMints(reg: Registry, mints: seq<Pubkey>) returns (r: Result<(Registry, seq<nat>)>)
    ensures r == IndexMintsFrom(reg, mints, [])
  {
    var cur := reg;
    var mintIdxs: seq<nat> := [];
    var t := 0;
    while t < |mints|
      invariant t <= |mints|
      invariant IndexMintsFrom(cur, mints[t..], mintIdxs) == IndexMintsFrom(reg, mints, [])
    {
      var mint := mints[t];
      assert mints[t..][0] == mint && mints[t..][1..] == mints[t + 1..];
      var idx: nat;
      if mint !in cur.tokenMints {
        idx := |cur.tokenMints|;
        cur := cur.(mint2idx := cur.mint2idx[mint := idx],
                    tokenMints := cur.tokenMints + [mint],
                    graphEdges := cur.graphEdges + [{}]);
      } else if mint in cur.mint2idx {
        idx := cur.mint2idx[mint];
      } else {
        return Err(MissingEntry);
      }
      mintIdxs := mintIdxs + [idx];
      t := t + 1;
    }
    assert mints[t..] == [];
    r := Ok((cur, mintIdxs));
  }

  /** The loading loop over the candidate pools. */
  method LoadPools(initial: Registry, candidates: seq<Pool>, recordIdxs: bool) returns (r: Result<Registry>)
    ensures r == LoadFrom(initial, candidates, recordIdxs)
  {
    var reg := initial;
    var k := 0;
    while k < |candidates|
      invariant k <= |candidates|
      invariant LoadFrom(reg, candidates[k..], recordIdxs) == LoadFrom(initial, candidates, recordIdxs)
    {
      var pool := candidates[k];
      assert candidates[k..][0] == pool && candidates[k..][1..] == candidates[k + 1..];
      var poolMints := Mints(pool);
      if |poolMints| != 2 {
        k := k + 1;
        continue;
      }
      var indexed := IndexPoolMints(reg, poolMints);
      if indexed.Err? {
        return Err(indexed.error);
      }
      var (cur, mintIdxs) := indexed.value;
      var updateAccounts := UpdateAccounts(pool);
      if updateAccounts.Err? {
        return Err(updateAccounts.error);
      }
      var linked := AddEdge(cur.graphEdges, mintIdxs[0], mintIdxs[1]);
      if linked.Err? {
        return Err(linked.error);
      }
      reg := cur.(graphEdges := linked.value,
                  pools := cur.pools + [pool],
                  updatePks := cur.updatePks + [updateAccounts.value],
                  updatePksLengths := cur.updatePksLengths + [|updateAccounts.value|],
                  allMintIdxs := if recordIdxs then cur.allMintIdxs + mintIdxs else cur.allMintIdxs);
      k := k + 1;
    }
    assert candidates[k..] == [];
    r := Ok(reg);
  }
}
