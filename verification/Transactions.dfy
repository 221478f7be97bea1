/** Transactions, their cost, and nonce-ordered listings of a nonce map. */
module Transactions {
  import opened Base

  /** The fields of a transaction that the pool looks at. `native` holds when the transaction
      moves AOA itself and not an issued asset. */
  datatype Tx = Tx(hash: Hash, sender: Address, nonce: Uint64, gasPrice: int, gas: Uint64,
                   amount: int, register: bool, native: bool)

  function AoaCost(tx: Tx): (cost: int) {
    var fee := tx.gasPrice * tx.gas;
    if tx.register then fee + REGISTER_COST
    else if tx.native && tx.amount > 0 then fee + tx.amount
    else fee
  }

  type NonceMap = m: map<Uint64, Tx> | forall n :: n in m ==> m[n].nonce == n witness map[]

  ghost predicate Holds(m: NonceMap, tx: Tx) {
    tx.nonce in m && m[tx.nonce] == tx
  }

  ghost predicate Ascending(s: seq<Tx>) {
    forall i, j :: 0 <= i < j < |s| ==> s[i].nonce < s[j].nonce
  }

  /** `s` holds each transaction of `m` once, in any order. */
  ghost predicate Collects(s: seq<Tx>, m: NonceMap) {
    Distinct(s) && forall tx :: tx in s <==> Holds(m, tx)
  }

  /** `s` is the nonce-sorted contents of `m`. */
  ghost predicate Enumerates(s: seq<Tx>, m: NonceMap) {
    Ascending(s) && forall tx :: tx in s <==> Holds(m, tx)
  }

  lemma {:induction false} FindMinimum(s: set<Uint64>) returns (n: Uint64)
    requires s != {}
    ensures n in s && forall k :: k in s ==> n <= k
  {
    n :| n in s;
    var rest := s - {n};
    assert s == rest + {n};
    if rest != {} {
      var m := FindMinimum(rest);
      n := if n <= m then n else m;
    }
  }

  lemma MinimumExists(s: set<Uint64>)
    requires s != {}
    ensures exists n :: n in s && forall k :: k in s ==> n <= k
  {
    var n := FindMinimum(s);
  }

  ghost function Lowest(s: set<Uint64>): (n: Uint64)
    requires s != {}
    ensures n in s && forall k :: k in s ==> n <= k
  {
    MinimumExists(s);
    var n :| n in s && forall k :: k in s ==> n <= k;
    n
  }

  /** The nonce-sorted contents of `m`. */
  ghost function Listing(m: NonceMap): (s: seq<Tx>)
    ensures |s| == |m|
    decreases |m|
  {
    if m == map[] then []
    else
      var n := Lowest(m.Keys);
      assert (m - {n}).Keys == m.Keys - {n};
      [m[n]] + Listing(m - {n})
  }

  lemma {:induction false} ListingEnumerates(m: NonceMap)
    ensures Enumerates(Listing(m), m)
    decreases |m|
  {
    if m != map[] {
      var n := Lowest(m.Keys);
      var rest := m - {n};
      assert rest.Keys == m.Keys - {n};
      ListingEnumerates(rest);
      var s, t := Listing(m), Listing(rest);
      forall tx ensures tx in s <==> Holds(m, tx) {
        assert tx in s <==> tx == m[n] || tx in t;
      }
      forall i, j | 0 <= i < j < |s| ensures s[i].nonce < s[j].nonce {
        assert s[j] in t && Holds(rest, s[j]);
      }
    }
  }

  lemma {:induction false} AscendingUnique(s: seq<Tx>, t: seq<Tx>)
    requires Ascending(s) && Ascending(t)
    requires forall tx :: tx in s <==> tx in t
    ensures s == t
    decreases |s|
  {
    assert s != [] ==> s[0] in t;
    assert t != [] ==> t[0] in s;
    if s != [] {
      assert s[0].nonce == t[0].nonce && s[0] == t[0];
      forall tx ensures tx in s[1..] <==> tx in t[1..] {
        assert tx in s <==> tx == s[0] || tx in s[1..];
        assert tx in t <==> tx == t[0] || tx in t[1..];
        assert s[0] !in s[1..] && t[0] !in t[1..];
      }
      AscendingUnique(s[1..], t[1..]);
    }
  }

  lemma EnumerationIsListing(s: seq<Tx>, m: NonceMap)
    requires Enumerates(s, m)
    ensures s == Listing(m)
  {
    ListingEnumerates(m);
    AscendingUnique(s, Listing(m));
  }

  lemma AscendingConcat(p: seq<Tx>, q: seq<Tx>)
    requires Ascending(p) && Ascending(q) && forall x, y :: x in p && y in q ==> x.nonce < y.nonce
    ensures Ascending(p + q)
  {
    var s := p + q;
    forall i, j | 0 <= i < j < |s| ensures s[i].nonce < s[j].nonce {
      assert i < |p| ==> s[i] in p;
      assert |p| <= j ==> s[j] in q;
    }
  }

  /** Gluing the listings of a low part and a high part gives the listing of the whole. */
  lemma ListingSplit(m: NonceMap, lo: NonceMap, hi: NonceMap)
    requires forall tx :: Holds(m, tx) <==> Holds(lo, tx) || Holds(hi, tx)
    requires forall a, b :: a in lo && b in hi ==> a < b
    ensures Listing(m) == Listing(lo) + Listing(hi)
  {
    ListingEnumerates(lo);
    ListingEnumerates(hi);
    var p, q := Listing(lo), Listing(hi);
    forall x, y | x in p && y in q ensures x.nonce < y.nonce {
      assert Holds(lo, x) && Holds(hi, y);
    }
    AscendingConcat(p, q);
    var s := p + q;
    forall tx ensures tx in s <==> Holds(m, tx) {
      assert tx in s <==> tx in p || tx in q;
    }
    EnumerationIsListing(s, m);
  }

  /** Equal listings mean equal maps. */
  lemma ListingInjective(a: NonceMap, b: NonceMap)
    requires Listing(a) == Listing(b)
    ensures a == b
  {
    ListingEnumerates(a);
    ListingEnumerates(b);
    forall n | n in a ensures n in b && a[n] == b[n] {
      assert Holds(a, a[n]) && Holds(b, a[n]);
    }
    forall n | n in b ensures n in a {
      assert Holds(b, b[n]) && Holds(a, b[n]);
    }
  }

  function Below(m: NonceMap, t: nat): (r: NonceMap) {
    map n | n in m && n < t :: m[n]
  }

  function AtLeast(m: NonceMap, t: nat): (r: NonceMap) {
    map n | n in m && n >= t :: m[n]
  }

  function Selected(m: NonceMap, p: Tx -> bool): (r: NonceMap) {
    map n | n in m && p(m[n]) :: m[n]
  }

  function Rejected(m: NonceMap, p: Tx -> bool): (r: NonceMap) {
    map n | n in m && !p(m[n]) :: m[n]
  }

  lemma {:induction false} DistinctCount<T>(s: seq<T>)
    requires Distinct(s)
    ensures forall x :: multiset(s)[x] <= 1
  {
    if s != [] {
      var n := |s| - 1;
      assert s == s[..n] + [s[n]];
      DistinctCount(s[..n]);
    }
  }

  lemma CountDistinct<T>(s: seq<T>)
    requires forall x :: multiset(s)[x] <= 1
    ensures Distinct(s)
  {
    forall i, j | 0 <= i < j < |s| ensures s[i] != s[j] {
      assert s == s[..j] + [s[j]] + s[j + 1..];
      assert s[i] in s[..j];
      assert multiset(s)[s[j]] == multiset(s[..j])[s[j]] + 1 + multiset(s[j + 1..])[s[j]];
    }
  }
}

/** Go's sort.Sort, by an integer key. */
module GoSort {
  ghost predicate SortedBy<T>(s: seq<T>, key: T -> int) {
    forall i, j :: 0 <= i < j < |s| ==> key(s[i]) <= key(s[j])
  }

  function Inserted<T>(s: seq<T>, p: nat, x: T): (r: seq<T>)
    requires p <= |s|
    ensures |r| == |s| + 1
    ensures forall i :: 0 <= i < |r| ==> r[i] == if i < p then s[i] else if i == p then x else s[i - 1]
  {
    s[..p] + [x] + s[p..]
  }

  lemma InsertSorted<T>(s: seq<T>, key: T -> int, p: nat, x: T)
    requires SortedBy(s, key) && p <= |s|
    requires p > 0 ==> key(s[p - 1]) <= key(x)
    requires p < |s| ==> key(x) <= key(s[p])
    ensures SortedBy(Inserted(s, p, x), key)
  {
    var r := Inserted(s, p, x);
    forall i, j | 0 <= i < j < |r| ensures key(r[i]) <= key(r[j]) {
      assert i < p - 1 ==> key(s[i]) <= key(s[p - 1]);
      assert p < j - 1 ==> key(s[p]) <= key(s[j - 1]);
    }
  }

  lemma InsertMultiset<T>(s: seq<T>, p: nat, x: T)
    requires p <= |s|
    ensures multiset(Inserted(s, p, x)) == multiset(s) + multiset{x}
  {
    assert s == s[..p] + s[p..];
  }

  method FindSlot<T>(s: seq<T>, key: T -> int, x: T) returns (p: nat)
    ensures p <= |s|
    ensures p > 0 ==> key(s[p - 1]) <= key(x)
    ensures p < |s| ==> key(x) <= key(s[p])
  {
    p := 0;
    while p < |s| && key(s[p]) <= key(x)
      invariant 0 <= p <= |s|
      invariant p > 0 ==> key(s[p - 1]) <= key(x)
    {
      p := p + 1;
    }
  }

  lemma PrefixMultiset<T>(s: seq<T>, k: nat)
    requires k < |s|
    ensures multiset(s[..k + 1]) == multiset(s[..k]) + multiset{s[k]}
  {
    assert s[..k + 1] == s[..k] + [s[k]];
  }

  method Sort<T(==)>(s: seq<T>, key: T -> int) returns (r: seq<T>)
    ensures multiset(r) == multiset(s)
    ensures SortedBy(r, key)
  {
    r := [];
    for k := 0 to |s|
      invariant multiset(r) == multiset(s[..k])
      invariant SortedBy(r, key)
    {
      hide *;
      var p := FindSlot(r, key, s[k]);
      InsertSorted(r, key, p, s[k]);
      InsertMultiset(r, p, s[k]);
      PrefixMultiset(s, k);
      r := Inserted(r, p, s[k]);
    }
    assert s[..|s|] == s;
  }
}
