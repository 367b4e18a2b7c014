/** The exchange graph of client-pool/src/main.rs: for each ordered pair of
    token indices, the pools that quote that pair, in the order they were
    added; and the loop that builds it from the loaded pools while walking
    each pool's slice of the fetched accounts. */
module ExchangeGraph {
  import opened Common
  import opened Pools

  /** `PoolEdge`: destination index to the pools quoting the pair. */
  datatype PoolEdge = PoolEdge(quotes: map<nat, seq<Pool>>)

  /** `PoolGraph`'s map: source index to its edges. */
  type Edges = map<nat, PoolEdge>

  /** The pools quoting `from` to `to`; a pair without an entry has none. */
  function QuotesAt(g: Edges, from: nat, to: nat): seq<Pool> {
    if from in g && to in g[from].quotes then g[from].quotes[to] else []
  }

  /** The graph after `add_pool_to_graph(from, to, quote)`: the entries on
      the way are created empty when missing and the quote is appended at
      the end of the list for the pair. */
  function WithQuote(g: Edges, from: nat, to: nat, quote: Pool): (r: Edges)
    ensures QuotesAt(r, from, to) == QuotesAt(g, from, to) + [quote]
  {
    var inner := if from in g then g[from].quotes else map[];
    var quotes := if to in inner then inner[to] else [];
    g[from := PoolEdge(inner[to := quotes + [quote]])]
  }

  /** `add_pool_to_graph` leaves the list of every other pair as it was. */
  lemma WithQuoteFrame(g: Edges, from: nat, to: nat, quote: Pool, a: nat, b: nat)
    requires a != from || b != to
    ensures QuotesAt(WithQuote(g, from, to, quote), a, b) == QuotesAt(g, a, b)
  {
  }

  class PoolGraph {
    var edges: Edges

    /** `PoolGraph::new()`: no pair has an entry. */
    constructor ()
      ensures edges == map[]
    {
      edges := map[];
    }
  }

  /** `add_pool_to_graph`: takes the entry for `from`, or a new empty one,
      then the list for `to` within it, or a new empty one, and pushes the
      quote onto that list. */
  method AddPoolToGraph(graph: PoolGraph, from: nat, to: nat, quote: Pool)
    modifies graph
    ensures graph.edges == WithQuote(old(graph.edges), from, to, quote)
  {
    var inner: map<nat, seq<Pool>> := if from in graph.edges then graph.edges[from].quotes else map[];
    var quotes: seq<Pool> := if to in inner then inner[to] else [];
    quotes := quotes + [quote];
    graph.edges := graph.edges[from := PoolEdge(inner[to := quotes])];
  }

  /** Pool k of the build joins tokens `i` and `j`, in either order. */
  predicate Joins(idxs: seq<nat>, k: nat, i: nat, j: nat)
    requires 2 * k + 1 < |idxs|
  {
    (idxs[2 * k] == i && idxs[2 * k + 1] == j) || (idxs[2 * k] == j && idxs[2 * k + 1] == i)
  }

  /** The list for `(i, j)` once the build loop has added the first
      `count` pools, pool k under the indices at positions 2k and 2k+1 of
      `idxs`: each pool in turn, once if it was added from `i` to `j` and
      once more if it was added from `j` to `i`. */
  function QuotesOf(pools: seq<Pool>, idxs: seq<nat>, count: nat, i: nat, j: nat): seq<Pool>
    requires count <= |pools| && 2 * count <= |idxs|
  {
    if count == 0 then []
    else
      var k := count - 1;
      QuotesOf(pools, idxs, k, i, j)
      + (if idxs[2 * k] == i && idxs[2 * k + 1] == j then [pools[k]] else [])
      + (if idxs[2 * k + 1] == i && idxs[2 * k] == j then [pools[k]] else [])
  }

  /** Every pool is listed in one direction exactly as often as in the
      other: the lists for `(i, j)` and `(j, i)` are the same list. */
  lemma {:induction false} QuotesSymmetric(pools: seq<Pool>, idxs: seq<nat>, count: nat, i: nat, j: nat)
    requires count <= |pools| && 2 * count <= |idxs|
    ensures QuotesOf(pools, idxs, count, i, j) == QuotesOf(pools, idxs, count, j, i)
  {
    if count > 0 {
      QuotesSymmetric(pools, idxs, count - 1, i, j);
    }
  }

  /** A pool is listed for a pair exactly when it is one of the pools added
      and its two token indices are that pair, in either order. */
  lemma {:induction false} QuotesMembership(pools: seq<Pool>, idxs: seq<nat>, count: nat, i: nat, j: nat, q: Pool)
    requires count <= |pools| && 2 * count <= |idxs|
    ensures q in QuotesOf(pools, idxs, count, i, j) <==>
      exists k :: 0 <= k < count && pools[k] == q && Joins(idxs, k, i, j)
  {
    if count > 0 {
      var n := count - 1;
      QuotesMembership(pools, idxs, n, i, j, q);
      if q in QuotesOf(pools, idxs, n, i, j) {
        var k :| 0 <= k < n && pools[k] == q && Joins(idxs, k, i, j);
      }
    }
  }

  /** The sum of the slice lengths. */
  function Sum(lengths: seq<nat>): nat
    decreases |lengths|
  {
    if lengths == [] then 0 else Sum(lengths[..|lengths| - 1]) + lengths[|lengths| - 1]
  }

  /** Where pool k's slice of the fetched accounts starts: after the slices
      of all earlier pools. */
  function SliceStart(lengths: seq<nat>, k: nat): nat
    requires k <= |lengths|
  {
    Sum(lengths[..k])
  }

  /** Each slice ends where the next one starts, so the slices are
      contiguous and do not overlap. */
  lemma {:induction false} SlicesContiguous(lengths: seq<nat>, k: nat)
    requires k < |lengths|
    ensures SliceStart(lengths, k + 1) == SliceStart(lengths, k) + lengths[k]
  {
    assert lengths[..k + 1][..k] == lengths[..k];
  }

  /** Later slices start no earlier. */
  lemma {:induction false} SliceStartMonotone(lengths: seq<nat>, k: nat, m: nat)
    requires k <= m <= |lengths|
    ensures SliceStart(lengths, k) <= SliceStart(lengths, m)
    decreases m - k
  {
    if k < m {
      SlicesContiguous(lengths, k);
      SliceStartMonotone(lengths, k + 1, m);
    }
  }

  /** `g` holds, for every pair, the list of the first `count` pools. */
  ghost predicate GraphHolds(g: Edges, pools: seq<Pool>, idxs: seq<nat>, count: nat)
    requires count <= |pools| && 2 * count <= |idxs|
  {
    forall i: nat, j: nat :: QuotesAt(g, i, j) == QuotesOf(pools, idxs, count, i, j)
  }

  /** Adding pool k from its first token to its second and back turns a
      graph holding the lists of the first k pools into one holding the
      lists of the first k + 1. */
  lemma AddedBothWays(g: Edges, pools: seq<Pool>, idxs: seq<nat>, k: nat)
    requires k < |pools| && 2 * k + 2 <= |idxs|
    requires GraphHolds(g, pools, idxs, k)
    ensures var a, b := idxs[2 * k], idxs[2 * k + 1];
      GraphHolds(WithQuote(WithQuote(g, a, b, pools[k]), b, a, pools[k]), pools, idxs, k + 1)
  {
    var a, b := idxs[2 * k], idxs[2 * k + 1];
    var middle := WithQuote(g, a, b, pools[k]);
    forall i: nat, j: nat
      ensures QuotesAt(WithQuote(middle, b, a, pools[k]), i, j) == QuotesOf(pools, idxs, k + 1, i, j)
    {
      if a != i || b != j {
        WithQuoteFrame(g, a, b, pools[k], i, j);
      }
      if b != i || a != j {
        WithQuoteFrame(middle, b, a, pools[k], i, j);
      }
    }
  }

  /** `slice` is pool k's slice of the fetched accounts: the `lengths[k]`
      accounts from where the earlier slices end. */
  predicate IsSlice(accounts: seq<Account>, lengths: seq<nat>, k: nat, slice: seq<Account>)
    requires k < |lengths|
  {
    && SliceStart(lengths, k) + lengths[k] <= |accounts|
    && slice == accounts[SliceStart(lengths, k)..SliceStart(lengths, k) + lengths[k]]
  }

  /** `slices` are the slices of the first `count` pools. */
  predicate SlicesHold(accounts: seq<Account>, lengths: seq<nat>, slices: seq<seq<Account>>, count: nat)
    requires count <= |lengths|
  {
    |slices| == count && forall k :: 0 <= k < count ==> IsSlice(accounts, lengths, k, slices[k])
  }

  /** The slice of the next pool extends the slices of the earlier ones. */
  lemma SlicesExtended(accounts: seq<Account>, lengths: seq<nat>, slices: seq<seq<Account>>, count: nat)
    requires count < |lengths|
    requires SlicesHold(accounts, lengths, slices, count)
    requires SliceStart(lengths, count) + lengths[count] <= |accounts|
    ensures SlicesHold(accounts, lengths,
      slices + [accounts[SliceStart(lengths, count)..SliceStart(lengths, count) + lengths[count]]], count + 1)
  {
    var next := slices + [accounts[SliceStart(lengths, count)..SliceStart(lengths, count) + lengths[count]]];
    forall k | 0 <= k < count + 1
      ensures IsSlice(accounts, lengths, k, next[k])
    {
      if k < count {
        assert next[k] == slices[k];
      }
    }
  }

  /** The build loop gets through every pool: each has a recorded slice
      length, the slices fit in the fetched accounts and each has two
      recorded token indices. */
  predicate BuildsOk(pools: seq<Pool>, lengths: seq<nat>, allMintIdxs: seq<nat>, accounts: seq<Account>) {
    && |pools| <= |lengths|
    && SliceStart(lengths, |pools|) <= |accounts|
    && 2 * |pools| <= |allMintIdxs|
  }

  /** The graph-building loop: for pool k it takes the slice of
      `lengths[k]` accounts starting at the running pointer, reads the two
      token indices at positions 2k and 2k+1, and adds the pool in both
      directions. Any index or slice beyond its vector stops the build. */
  method BuildGraph(pools: seq<Pool>, lengths: seq<nat>, allMintIdxs: seq<nat>, accounts: seq<Account>)
    returns (r: Result<PoolGraph>, slices: seq<seq<Account>>)
    ensures r.Ok? <==> BuildsOk(pools, lengths, allMintIdxs, accounts)
    ensures r.Err? ==> r.error == IndexOutOfRange
    ensures r.Ok? ==> fresh(r.value)
    ensures r.Ok? ==> forall i: nat, j: nat :: QuotesAt(r.value.edges, i, j) == QuotesOf(pools, allMintIdxs, |pools|, i, j)
    ensures r.Ok? ==> |slices| == |pools| && forall k :: 0 <= k < |pools| ==> IsSlice(accounts, lengths, k, slices[k])
  {
    var graph := new PoolGraph();
    var poolCount := 0;
    var accountPtr := 0;
    slices := [];
    while poolCount < |pools|
      invariant poolCount <= |pools| && poolCount <= |lengths|
      invariant accountPtr == SliceStart(lengths, poolCount) <= |accounts|
      invariant 2 * poolCount <= |allMintIdxs|
      invariant fresh(graph)
      invariant GraphHolds(graph.edges, pools, allMintIdxs, poolCount)
      invariant SlicesHold(accounts, lengths, slices, poolCount)
    {
      if poolCount >= |lengths| {
        return Err(IndexOutOfRange), slices;
      }
      var length := lengths[poolCount];
      SlicesContiguous(lengths, poolCount);
      if accountPtr + length > |accounts| {
        if |pools| <= |lengths| {
          SliceStartMonotone(lengths, poolCount + 1, |pools|);
        }
        return Err(IndexOutOfRange), slices;
      }
      SlicesExtended(accounts, lengths, slices, poolCount);
      slices := slices + [accounts[accountPtr..accountPtr + length]];
      accountPtr := accountPtr + length;
      if 2 * poolCount + 2 > |allMintIdxs| {
        return Err(IndexOutOfRange), slices;
      }
      var idx0 := allMintIdxs[2 * poolCount];
      var idx1 := allMintIdxs[2 * poolCount + 1];
      var pool := pools[poolCount];
      ghost var before := graph.edges;
      AddPoolToGraph(graph, idx0, idx1, pool);
      AddPoolToGraph(graph, idx1, idx0, pool);
      AddedBothWays(before, pools, allMintIdxs, poolCount);
      poolCount := poolCount + 1;
    }
    r := Ok(graph);
  }
}
