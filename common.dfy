/** Vocabulary shared by every venue: account keys and their order, the
    accounts a refresh delivers, and the ways an operation can stop. */
module Common {

  /** A Solana public key. Keys are 32 bytes compared lexicographically,
      which is the order of their big-endian value; the model keeps that
      value, so `<=` on keys is the order `Vec::sort` uses. */
  type Pubkey = nat

  datatype Option<T> = None | Some(value: T)

  /** Every stop of the venue layer. In the program each of them is a panic:
      an `unwrap` of a missing value, an index beyond a vector's length or an
      explicit `panic!`. */
  datatype Error =
    | InvalidMint           // a lookup by a mint the venue does not hold
    | MissingAccount        // a refresh batch whose account at that position is absent
    | UnsupportedCurveType  // a curve discriminator other than 0 or 2
    | CurveFailure          // the curve math reported an error
    | NotLoaded             // an order book whose accounts were never loaded
    | NotImplemented        // an operation the venue does not provide
    | MissingEntry          // a map lookup that finds nothing
    | IndexOutOfRange       // a vector index or slice beyond its length
    | DivisionByZero        // an integer division by zero
    | DecodeFailure         // account data that does not decode as the expected state
    | Underflow             // an unsigned subtraction whose result would be negative

  datatype Result<T> = Ok(value: T) | Err(error: Error)

  /** The result of an operation that produces nothing but can stop. */
  datatype Outcome = Pass | Fail(error: Error)

  /** A resting order of a Serum order book: its id, its limit price in
      quote lots per base lot and its remaining quantity in base lots. */
  datatype Order = Order(orderId: nat, price: nat, quantity: nat)

  /** A fetched account, reduced to what the venues decode from its data. */
  datatype Account =
    | TokenAccount(amount: nat)                        // an SPL token account; `unpack_token_account` reads `amount`
    | MarketAccount(pcLotSize: nat, coinLotSize: nat)  // a Serum market state, with its lot sizes
    | SlabAccount(orders: seq<Order>)                  // a Serum bids or asks slab, best order first

  /** `as u64` keeps the value modulo 2^64. */
  const U64_MODULUS: nat := 0x1_0000_0000_0000_0000

  function Min(a: nat, b: nat): nat { if a <= b then a else b }

  predicate Sorted(s: seq<Pubkey>) {
    forall i, j :: 0 <= i < j < |s| ==> s[i] <= s[j]
  }

  /** Inserts `x` into the sorted `s` before the first element not below it. */
  function Insert(x: Pubkey, s: seq<Pubkey>): (r: seq<Pubkey>)
    requires Sorted(s)
    ensures Sorted(r)
    ensures multiset(r) == multiset(s) + multiset{x}
    ensures |r| == |s| + 1
  {
    if s == [] then [x]
    else if x <= s[0] then
      ConsSorted(x, s);
      [x] + s
    else
      assert s == [s[0]] + s[1..];
      var tail := Insert(x, s[1..]);
      assert multiset(tail) == multiset(s[1..] + [x]);
      BoundedByMultiset(s[0], s[1..] + [x], tail);
      ConsSorted(s[0], tail);
      [s[0]] + tail
  }

  lemma ConsSorted(h: Pubkey, t: seq<Pubkey>)
    requires Sorted(t)
    requires forall k :: 0 <= k < |t| ==> h <= t[k]
    ensures Sorted([h] + t)
  {
    var r := [h] + t;
    forall i, j | 0 <= i < j < |r| ensures r[i] <= r[j] {
      assert r[j] == t[j - 1];
      if i > 0 { assert r[i] == t[i - 1]; }
    }
  }

  lemma BoundedByMultiset(h: Pubkey, s: seq<Pubkey>, t: seq<Pubkey>)
    requires forall k :: 0 <= k < |s| ==> h <= s[k]
    requires multiset(t) <= multiset(s)
    ensures forall k :: 0 <= k < |t| ==> h <= t[k]
  {
    forall k | 0 <= k < |t| ensures h <= t[k] {
      assert t[k] in multiset(t);
      assert t[k] in multiset(s);
    }
  }

  /** `Vec::sort` on keys: the same keys in ascending order. */
  function SortKeys(s: seq<Pubkey>): (r: seq<Pubkey>)
    ensures Sorted(r)
    ensures multiset(r) == multiset(s)
    ensures |r| == |s|
  {
    if s == [] then []
    else
      assert s == [s[0]] + s[1..];
      Insert(s[0], SortKeys(s[1..]))
  }

  /** Two sorted sequences with the same elements are equal: sorting gives
      one canonical order whatever order the keys arrived in. */
  lemma {:induction false} SortedUnique(a: seq<Pubkey>, b: seq<Pubkey>)
    requires Sorted(a) && Sorted(b)
    requires multiset(a) == multiset(b)
    ensures a == b
  {
    if a != [] {
      assert |b| == |a| by { assert |multiset(b)| == |multiset(a)|; }
      assert a[0] in multiset(a) && b[0] in multiset(b);
      HeadIsLeast(a, b[0]);
      HeadIsLeast(b, a[0]);
      SortedTail(a);
      SortedTail(b);
      assert a == [a[0]] + a[1..];
      assert b == [b[0]] + b[1..];
      assert a[0] == b[0];
      assert multiset(a[1..]) == multiset(a) - multiset{a[0]};
      assert multiset(b[1..]) == multiset(b) - multiset{b[0]};
      SortedUnique(a[1..], b[1..]);
    }
  }

  lemma SortedTail(s: seq<Pubkey>)
    requires Sorted(s) && s != []
    ensures Sorted(s[1..])
  {
    forall i, j | 0 <= i < j < |s| - 1 ensures s[1..][i] <= s[1..][j] {
      assert s[1..][i] == s[i + 1] && s[1..][j] == s[j + 1];
    }
  }

  /** The head of a sorted sequence is its least element. */
  lemma HeadIsLeast(s: seq<Pubkey>, x: Pubkey)
    requires Sorted(s) && x in multiset(s)
    ensures s != [] && s[0] <= x
  {
    var i :| 0 <= i < |s| && s[i] == x;
  }

  /** `get_mints` is canonical: the same keys in any order sort alike. */
  lemma SortKeysCanonical(s: seq<Pubkey>, t: seq<Pubkey>)
    requires multiset(s) == multiset(t)
    ensures SortKeys(s) == SortKeys(t)
  {
    SortedUnique(SortKeys(s), SortKeys(t));
  }

  /** The sorted pair of two keys. */
  lemma SortPair(a: Pubkey, b: Pubkey)
    ensures SortKeys([a, b]) == if a <= b then [a, b] else [b, a]
  {
    var r := if a <= b then [a, b] else [b, a];
    assert Sorted(r);
    assert multiset(r) == multiset([a, b]);
    SortedUnique(SortKeys([a, b]), r);
  }

  /** The product of two amounts. Written as repeated addition so that a
      product stays one opaque term in the contracts of the matcher;
      `MulIsProduct` connects it to `*`. */
  function Mul(a: nat, b: nat): nat {
    if a == 0 then 0 else b + Mul(a - 1, b)
  }

  lemma {:induction false} MulIsProduct(a: nat, b: nat)
    ensures Mul(a, b) == a * b
  {
    if a > 0 {
      MulIsProduct(a - 1, b);
    }
  }

  /** Rounding down keeps whole lots: (a / b) * b <= a. */
  lemma DivMulLe(a: nat, b: nat)
    requires b > 0
    ensures Mul(a / b, b) <= a
  {
    MulIsProduct(a / b, b);
  }

  lemma MulLe(a: nat, b: nat, c: nat)
    requires a <= b
    ensures Mul(a, c) <= Mul(b, c)
  {
    MulIsProduct(a, c);
    MulIsProduct(b, c);
    assert b * c == a * c + (b - a) * c;
  }

  lemma MulPositive(a: nat, b: nat)
    requires a > 0 && b > 0
    ensures Mul(a, b) > 0
  {
    MulLe(1, a, b);
  }

  lemma Distrib(a: nat, b: nat, c: nat)
    ensures Mul(a + b, c) == Mul(a, c) + Mul(b, c)
  {
    MulIsProduct(a + b, c);
    MulIsProduct(a, c);
    MulIsProduct(b, c);
  }

  lemma MulDivCancel(a: nat, b: nat)
    requires b > 0
    ensures Mul(a, b) / b == a
    ensures Mul(a, b) % b == 0
  {
    MulIsProduct(a, b);
    var q, r := (a * b) / b, (a * b) % b;
    assert a * b == q * b + r;
    assert (a - q) * b == r;
    if a - q >= 1 {
    } else if a - q <= -1 {
    }
  }
}
