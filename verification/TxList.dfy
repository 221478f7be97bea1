/** txList: the per-account list, with price-bump replacement, cost and gas caps, and strict mode. */
module TxList {
  import opened Base
  import opened Transactions
  import opened TxSortedMap

  const TWO_63: nat := 0x8000_0000_0000_0000

  /** Go's conversion of a uint64 to int64, and int64 addition of 100, both of which may wrap. */
  function BumpFactor(priceBump: Uint64): (f: int)
    ensures priceBump < TWO_63 - 100 ==> f == 100 + priceBump
    ensures 0 <= f + TWO_63 < 2 * TWO_63 && (f == priceBump + 100 || f == priceBump + 100 - 2 * TWO_63)
  {
    var signed := if priceBump < TWO_63 then priceBump else priceBump - 2 * TWO_63;
    if signed + 100 < TWO_63 then signed + 100 else signed + 100 - 2 * TWO_63
  }

  /** The old transaction keeps its place unless the new one pays more, by the bump percentage. */
  predicate Replaces(old': Tx, tx: Tx, priceBump: Uint64) {
    old'.gasPrice < tx.gasPrice && old'.gasPrice * BumpFactor(priceBump) / 100 <= tx.gasPrice
  }

  /** In whole numbers: the raise, and one more, is over `priceBump` hundredths of the old price. */
  lemma ReplacesIff(old': Tx, tx: Tx, priceBump: Uint64)
    requires priceBump < TWO_63 - 100
    ensures Replaces(old', tx, priceBump) <==>
              old'.gasPrice < tx.gasPrice && old'.gasPrice * priceBump < 100 * (tx.gasPrice + 1 - old'.gasPrice)
  {
    var p, t := old'.gasPrice, tx.gasPrice;
    var product := p * (100 + priceBump);
    assert product == 100 * p + p * priceBump;
    assert product / 100 <= t <==> product < 100 * (t + 1);
  }

  predicate Accepts(m: NonceMap, tx: Tx, priceBump: Uint64) {
    tx.nonce in m ==> Replaces(m[tx.nonce], tx, priceBump)
  }

  function OverLimit(costLimit: int, gasLimit: Uint64): (p: Tx -> bool) {
    (tx: Tx) => AoaCost(tx) > costLimit || tx.gas > gasLimit
  }

  function AboveNonce(n: Uint64): (p: Tx -> bool) {
    (tx: Tx) => tx.nonce > n
  }

  /** What a full scan of a (strict) list invalidates besides the transactions over the limits. */
  ghost function Invalidated(strict: bool, m: NonceMap, over: Tx -> bool): (r: NonceMap) {
    if strict && Selected(m, over) != map[]
    then Selected(Rejected(m, over), AboveNonce(Lowest(Selected(m, over).Keys)))
    else map[]
  }

  /** What a full scan of a (strict) list leaves. */
  ghost function Affordable(strict: bool, m: NonceMap, over: Tx -> bool): (r: NonceMap) {
    if strict && Selected(m, over) != map[]
    then Rejected(Rejected(m, over), AboveNonce(Lowest(Selected(m, over).Keys)))
    else Rejected(m, over)
  }

  /** Removing a nonce from a strict list takes the ones above it along. */
  function WithoutNonce(strict: bool, m: NonceMap, n: Uint64): (r: NonceMap) {
    if strict && n in m then Below(m, n) else m - {n}
  }

  function OrphanedBy(strict: bool, m: NonceMap, n: Uint64): (r: NonceMap) {
    if strict && n in m then AtLeast(m, n + 1) else map[]
  }

  /** The caps bound the cost and gas of everything held. */
  ghost predicate Capped(m: NonceMap, costcap: int, gascap: Uint64) {
    forall n :: n in m ==> AoaCost(m[n]) <= costcap && m[n].gas <= gascap
  }

  class List {
    const strict: bool
    const txs: SortedMap
    var costcap: int
    var gascap: Uint64

    ghost predicate Valid()
      reads this, txs, txs.index
    {
      txs.Valid() && Capped(txs.items, costcap, gascap)
    }

    constructor (strict: bool)
      ensures Valid() && fresh(txs) && fresh(txs.index)
      ensures this.strict == strict && txs.items == map[] && costcap == gascap == 0
    {
      this.strict := strict;
      txs := new SortedMap();
      costcap := 0;
      gascap := 0;
    }

    method Add(tx: Tx, priceBump: Uint64) returns (inserted: bool, replaced: Option<Tx>)
      requires Valid()
      modifies this, txs, txs.index
      ensures Valid()
      ensures inserted == Accepts(old(txs.items), tx, priceBump)
      ensures priceBump < TWO_63 - 100 && tx.nonce in old(txs.items) ==>
                var price := old(txs.items)[tx.nonce].gasPrice;
                inserted <==> price < tx.gasPrice && price * priceBump < 100 * (tx.gasPrice + 1 - price)
      ensures txs.items == if inserted then old(txs.items)[tx.nonce := tx] else old(txs.items)
      ensures replaced == if inserted && tx.nonce in old(txs.items) then Some(old(txs.items)[tx.nonce]) else None
      ensures costcap == (if inserted then Max(old(costcap), AoaCost(tx)) else old(costcap))
      ensures gascap == (if inserted then Max(old(gascap), tx.gas) else old(gascap))
    {
      replaced := if tx.nonce in txs.items then Some(txs.items[tx.nonce]) else None;
      if replaced.Some? {
        if priceBump < TWO_63 - 100 {
          ReplacesIff(replaced.value, tx, priceBump);
        }
        var threshold := replaced.value.gasPrice * BumpFactor(priceBump) / 100;
        if replaced.value.gasPrice >= tx.gasPrice || threshold > tx.gasPrice {
          return false, None;
        }
      }
      txs.Put(tx);
      var cost := AoaCost(tx);
      if costcap < cost {
        costcap := cost;
      }
      if gascap < tx.gas {
        gascap := tx.gas;
      }
      inserted := true;
    }

    method Forward(threshold: Uint64) returns (removed: seq<Tx>)
      requires Valid()
      modifies txs, txs.index
      ensures Valid()
      ensures txs.items == AtLeast(old(txs.items), threshold)
      ensures removed == Listing(Below(old(txs.items), threshold))
    {
      removed := txs.Forward(threshold);
    }

    /** With its early exit Filter returns and leaves exactly what a full scan would. */
    method Filter(costLimit: int, gasLimit: Uint64) returns (removed: seq<Tx>, invalids: seq<Tx>)
      requires Valid()
      modifies this, txs, txs.index
      ensures Valid()
      ensures if old(costcap) <= costLimit && old(gascap) <= gasLimit
              then costcap == old(costcap) && gascap == old(gascap)
              else costcap == costLimit && gascap == gasLimit
      ensures Collects(removed, Selected(old(txs.items), OverLimit(costLimit, gasLimit)))
      ensures Collects(invalids, Invalidated(strict, old(txs.items), OverLimit(costLimit, gasLimit)))
      ensures txs.items == Affordable(strict, old(txs.items), OverLimit(costLimit, gasLimit))
    {
      ghost var m, over := txs.items, OverLimit(costLimit, gasLimit);
      if costcap <= costLimit && gascap <= gasLimit {
        assert Selected(m, over) == map[] && Rejected(m, over) == m;
        return [], [];
      }
      costcap, gascap := costLimit, gasLimit;
      removed := txs.Filter(OverLimit(costLimit, gasLimit));
      invalids := [];
      EmptyCollection(removed, Selected(m, over));
      if strict && |removed| > 0 {
        var lowest := LowestNonce(removed, Selected(m, over));
        invalids := txs.Filter(AboveNonce(lowest));
      }
    }

    method Cap(threshold: nat) returns (drops: seq<Tx>)
      requires Valid()
      modifies txs, txs.index
      ensures Valid()
      ensures |old(txs.items)| <= threshold ==> txs.items == old(txs.items) && drops == []
      ensures |old(txs.items)| > threshold ==>
                && Listing(txs.items) == Listing(old(txs.items))[..threshold]
                && drops == Reversed(Listing(old(txs.items))[threshold..])
    {
      drops := txs.Cap(threshold);
      if |old(txs.items)| > threshold {
        PrefixHolds(old(txs.items), txs.items, threshold);
      }
    }

    method Remove(tx: Tx) returns (found: bool, invalids: seq<Tx>)
      requires Valid()
      modifies txs, txs.index
      ensures Valid()
      ensures found == (tx.nonce in old(txs.items))
      ensures txs.items == WithoutNonce(strict, old(txs.items), tx.nonce)
      ensures Collects(invalids, OrphanedBy(strict, old(txs.items), tx.nonce))
    {
      invalids := [];
      ghost var m := txs.items;
      found := txs.Remove(tx.nonce);
      if found && strict {
        invalids := txs.Filter(AboveNonce(tx.nonce));
        StrictRemoval(m, tx.nonce);
      }
      RemovalKeepsCaps(strict, m, tx.nonce, costcap, gascap);
    }

    method Ready(start: Uint64) returns (ready: seq<Tx>)
      requires Valid()
      modifies txs, txs.index
      ensures Valid()
      ensures old(txs.items) == map[] || Lowest(old(txs.items).Keys) > start ==>
                txs.items == old(txs.items) && ready == []
      ensures old(txs.items) != map[] && Lowest(old(txs.items).Keys) <= start ==>
                RunTaken(old(txs.items), Lowest(old(txs.items).Keys), txs.items, ready)
    {
      ready := txs.Ready(start);
    }

    method Flatten() returns (s: seq<Tx>)
      requires Valid()
      modifies txs`cache
      ensures Valid() && s == Listing(txs.items)
    {
      s := txs.Flatten();
    }
  }

  lemma StrictRemoval(m: NonceMap, n: Uint64)
    ensures Rejected(m - {n}, AboveNonce(n)) == Below(m, n)
    ensures Selected(m - {n}, AboveNonce(n)) == AtLeast(m, n + 1)
  {
  }

  lemma RemovalKeepsCaps(strict: bool, m: NonceMap, n: Uint64, costcap: int, gascap: Uint64)
    requires Capped(m, costcap, gascap)
    ensures Capped(WithoutNonce(strict, m, n), costcap, gascap)
  {
  }

  lemma EmptyCollection(s: seq<Tx>, m: NonceMap)
    requires Collects(s, m)
    ensures s == [] <==> m == map[]
  {
    if s == [] {
      forall n | n in m ensures false {
        assert Holds(m, m[n]);
      }
    } else {
      assert Holds(m, s[0]);
    }
  }

  /** The loop that finds the lowest removed nonce. */
  method LowestNonce(removed: seq<Tx>, ghost m: NonceMap) returns (lowest: Uint64)
    requires Collects(removed, m) && m != map[]
    ensures lowest == Lowest(m.Keys)
  {
    lowest := MAX_UINT64;
    for i := 0 to |removed|
      invariant forall j :: 0 <= j < i ==> lowest <= removed[j].nonce
      invariant lowest == MAX_UINT64 || exists j :: 0 <= j < i && removed[j].nonce == lowest
    {
      if lowest > removed[i].nonce {
        lowest := removed[i].nonce;
      }
    }
    LowestIs(removed, m, lowest);
  }

  lemma LowestIs(removed: seq<Tx>, m: NonceMap, lowest: Uint64)
    requires Collects(removed, m) && m != map[]
    requires forall j :: 0 <= j < |removed| ==> lowest <= removed[j].nonce
    requires lowest == MAX_UINT64 || exists j :: 0 <= j < |removed| && removed[j].nonce == lowest
    ensures lowest == Lowest(m.Keys)
  {
    var n := Lowest(m.Keys);
    assert Holds(m, m[n]) && m[n] in removed;
    if j :| 0 <= j < |removed| && removed[j].nonce == lowest {
      assert removed[j] in removed && Holds(m, removed[j]);
    }
  }

  lemma PrefixHolds(m: NonceMap, r: NonceMap, k: nat)
    requires k <= |m| && Listing(r) == Listing(m)[..k]
    ensures forall n :: n in r ==> n in m && m[n] == r[n]
  {
    ListingEnumerates(m);
    ListingEnumerates(r);
    forall n | n in r ensures n in m && m[n] == r[n] {
      assert Holds(r, r[n]) && r[n] in Listing(m)[..k];
      assert r[n] in Listing(m);
      assert Holds(m, r[n]);
    }
  }

  // ---------- Contiguity of strict lists ----------

  /** The nonces of `m` are exactly those from `lo` up to `hi`. */
  ghost predicate Interval(m: NonceMap, lo: nat, hi: nat) {
    lo <= hi && forall n: nat :: n in m <==> lo <= n < hi
  }

  /** `a` and `b` split `m`. */
  ghost predicate Splits(m: NonceMap, a: NonceMap, b: NonceMap) {
    a.Keys !! b.Keys && m == a + b
  }

  lemma ForwardKeepsInterval(m: NonceMap, lo: nat, hi: nat, t: Uint64)
    requires Interval(m, lo, hi)
    ensures var cut := if t <= lo then lo else Min(t, hi);
            Interval(AtLeast(m, t), cut, hi) && Interval(Below(m, t), lo, cut)
    ensures Splits(m, Below(m, t), AtLeast(m, t))
  {
    assert m == Below(m, t) + AtLeast(m, t);
  }

  /** Filtering a strict list keeps the prefix below the first unaffordable nonce. */
  lemma FilterKeepsPrefix(m: NonceMap, lo: nat, hi: nat, over: Tx -> bool)
    requires Interval(m, lo, hi) && Selected(m, over) != map[]
    ensures var first := Lowest(Selected(m, over).Keys);
            && lo <= first < hi
            && Affordable(true, m, over) == Below(m, first)
            && Interval(Below(m, first), lo, first)
  {
    var first := Lowest(Selected(m, over).Keys);
    forall n | n in m && n < first ensures !over(m[n]) {
      assert over(m[n]) ==> n in Selected(m, over).Keys;
    }
    AffordableIsPrefix(m, over, first);
  }

  /** A transaction stays exactly if its gas is within the limit and its fee, with the cost of registering or the
      coin it moves, within what the account has; in a strict list, if also all below it do. */
  lemma FilterKeepsIff(strict: bool, m: NonceMap, costLimit: int, gasLimit: Uint64, n: Uint64)
    requires n in m
    ensures n in Affordable(strict, m, OverLimit(costLimit, gasLimit)) <==>
              forall k :: k in m && (k == n || (strict && k < n)) ==>
                var tx := m[k];
                && tx.gas <= gasLimit
                && tx.gasPrice * tx.gas
                   + (if tx.register then 5_000_000_000_000_000_000_000_000
                      else if tx.native && tx.amount > 0 then tx.amount else 0) <= costLimit
  {
    var over := OverLimit(costLimit, gasLimit);
    forall k | k in m ensures over(m[k]) <==> k in Selected(m, over) {
    }
    if strict && Selected(m, over) != map[] {
      var first := Lowest(Selected(m, over).Keys);
      assert first in m && over(m[first]);
    }
  }

  /** What Filter returns and what it keeps partition the list. */
  lemma FilterSplits(strict: bool, m: NonceMap, over: Tx -> bool)
    ensures Splits(Rejected(m, over), Affordable(strict, m, over), Invalidated(strict, m, over))
    ensures Splits(m, Rejected(m, over), Selected(m, over))
  {
    if strict && Selected(m, over) != map[] {
      AboveSplits(Rejected(m, over), Lowest(Selected(m, over).Keys));
    }
    assert m == Rejected(m, over) + Selected(m, over);
  }

  lemma AffordableIsPrefix(m: NonceMap, over: Tx -> bool, first: Uint64)
    requires first in m && over(m[first])
    requires forall n :: n in m && n < first ==> !over(m[n])
    ensures Rejected(Rejected(m, over), AboveNonce(first)) == Below(m, first)
  {
  }

  lemma AboveSplits(m: NonceMap, n: Uint64)
    ensures Splits(m, Rejected(m, AboveNonce(n)), Selected(m, AboveNonce(n)))
  {
    assert m == Rejected(m, AboveNonce(n)) + Selected(m, AboveNonce(n));
  }

  /** What a removal keeps and what it orphans, nonce by nonce. */
  lemma RemoveIff(strict: bool, m: NonceMap, n: Uint64, k: Uint64)
    requires k in m
    ensures k in WithoutNonce(strict, m, n) <==> k != n && !(strict && n in m && k > n)
    ensures k in OrphanedBy(strict, m, n) <==> strict && n in m && k > n
    ensures forall i :: i in WithoutNonce(strict, m, n) ==> i in m && WithoutNonce(strict, m, n)[i] == m[i]
    ensures forall i :: i in OrphanedBy(strict, m, n) ==> i in m && OrphanedBy(strict, m, n)[i] == m[i]
  {
  }

  lemma RemoveKeepsPrefix(m: NonceMap, lo: nat, hi: nat, n: Uint64)
    requires Interval(m, lo, hi) && n in m
    ensures Interval(WithoutNonce(true, m, n), lo, n)
    ensures Splits(m - {n}, WithoutNonce(true, m, n), OrphanedBy(true, m, n))
  {
    hide *;
    WithoutIsBelow(m, n);
    IntervalBelow(m, lo, hi, n);
    SplitsAround(m, n);
  }

  lemma IntervalBelow(m: NonceMap, lo: nat, hi: nat, n: Uint64)
    requires Interval(m, lo, hi) && n in m
    ensures Interval(Below(m, n), lo, n)
  {
  }

  lemma SplitsAround(m: NonceMap, n: Uint64)
    requires n in m
    ensures Splits(m - {n}, Below(m, n), AtLeast(m, n + 1))
  {
    assert m - {n} == Below(m, n) + AtLeast(m, n + 1);
  }

  lemma WithoutIsBelow(m: NonceMap, n: Uint64)
    requires n in m
    ensures WithoutNonce(true, m, n) == Below(m, n) && OrphanedBy(true, m, n) == AtLeast(m, n + 1)
  {
    StrictRemoval(m, n);
    hide Rejected, Selected, Below, AtLeast;
  }

  function Range(lo: nat, hi: nat): (r: seq<Uint64>)
    requires lo <= hi <= MAX_UINT64 + 1
    ensures |r| == hi - lo && forall i :: 0 <= i < |r| ==> r[i] == lo + i
    ensures forall n: nat :: n in r <==> lo <= n < hi
    decreases hi
  {
    if lo == hi then [] else Range(lo, hi - 1) + [hi - 1]
  }

  lemma IntervalListing(m: NonceMap, lo: nat, hi: nat)
    requires Interval(m, lo, hi)
    ensures |m| == hi - lo
    ensures forall i :: 0 <= i < |m| ==> Listing(m)[i].nonce == lo + i
  {
    if lo == hi {
      assert m == map[];
    } else {
      RangeKeys(m, lo, hi);
      ListingNonces(m, Range(lo, hi));
      hide Interval, KeysOf, Listing;
    }
  }

  lemma RangeKeys(m: NonceMap, lo: nat, hi: nat)
    requires Interval(m, lo, hi) && lo < hi
    ensures hi <= MAX_UINT64 + 1 && KeysOf(Range(lo, hi), m)
  {
    assert hi - 1 in m;
    hide Range;
  }

  lemma IntervalPrefix(m: NonceMap, lo: nat, hi: nat, cut: nat)
    requires Interval(m, lo, hi) && lo <= cut <= hi
    ensures Interval(Below(m, cut), lo, cut) && |Below(m, cut)| == cut - lo && |m| == hi - lo
  {
    assert Interval(Below(m, cut), lo, cut);
    hide Interval, Below, Listing;
    IntervalListing(m, lo, hi);
    IntervalListing(Below(m, cut), lo, cut);
  }

  /** Capping an interval to the nonces below `cut` by their number leaves exactly those. */
  lemma CapKeepsPrefix(m: NonceMap, lo: nat, hi: nat, cut: nat, r: NonceMap)
    requires Interval(m, lo, hi) && lo <= cut <= hi && cut - lo <= |m|
    requires Listing(r) == Listing(m)[..cut - lo]
    ensures |m| == hi - lo && r == Below(m, cut) && Interval(r, lo, cut)
  {
    hide *;
    IntervalPrefix(m, lo, hi, cut);
    PrefixIsBelow(m, cut, cut - lo, r);
  }

  lemma PrefixIsBelow(m: NonceMap, t: nat, k: nat, r: NonceMap)
    requires k <= |m| && |Below(m, t)| == k
    requires Listing(r) == Listing(m)[..k]
    ensures r == Below(m, t)
  {
    hide Below, AtLeast, Ascending;
    ForwardSplits(m, t);
    assert Listing(m)[..k] == Listing(Below(m, t));
    ListingInjective(r, Below(m, t));
  }

  // ---------- Runs ----------

  datatype Op =
    | AddOp(tx: Tx, priceBump: Uint64)
    | ForwardOp(threshold: Uint64)
    | FilterOp(costLimit: int, gasLimit: Uint64)
    | CapOp(limit: nat)
    | RemoveOp(old': Tx)
    | ReadyOp(start: Uint64)
    | FlattenOp

  /** The effect of an operation on a plain nonce map: no heap, no cache, no caps. */
  ghost predicate PlainStep(strict: bool, m: NonceMap, op: Op, r: NonceMap) {
    match op
    case AddOp(tx, bump) => r == if Accepts(m, tx, bump) then m[tx.nonce := tx] else m
    case ForwardOp(t) => r == AtLeast(m, t)
    case FilterOp(c, g) => r == Affordable(strict, m, OverLimit(c, g))
    case CapOp(k) => if |m| <= k then r == m else Listing(r) == Listing(m)[..k]
    case RemoveOp(tx) => r == WithoutNonce(strict, m, tx.nonce)
    case ReadyOp(start) =>
      if m == map[] || Lowest(m.Keys) > start then r == m
      else exists ready :: RunTaken(m, Lowest(m.Keys), r, ready)
    case FlattenOp => r == m
  }

  ghost predicate PlainRun(strict: bool, trace: seq<NonceMap>, ops: seq<Op>) {
    |trace| == |ops| + 1 && forall i :: 0 <= i < |ops| ==> PlainStep(strict, trace[i], ops[i], trace[i + 1])
  }

  lemma ExtendRun(strict: bool, trace: seq<NonceMap>, ops: seq<Op>, op: Op, r: NonceMap)
    requires PlainRun(strict, trace, ops) && PlainStep(strict, trace[|ops|], op, r)
    ensures PlainRun(strict, trace + [r], ops + [op])
  {
    hide PlainStep;
    var trace', ops' := trace + [r], ops + [op];
    forall i | 0 <= i < |ops'| ensures PlainStep(strict, trace'[i], ops'[i], trace'[i + 1]) {
      if i < |ops| {
        assert PlainStep(strict, trace[i], ops[i], trace[i + 1]);
      }
    }
  }

  lemma EmptyRun(strict: bool, m: NonceMap)
    ensures PlainRun(strict, [m], [])
  {
  }

  method Apply(list: List, op: Op)
    requires list.Valid()
    modifies list, list.txs, list.txs.index
    ensures list.Valid()
    ensures PlainStep(list.strict, old(list.txs.items), op, list.txs.items)
  {
    match op
    case AddOp(tx, bump) => var _, _ := list.Add(tx, bump);
    case ForwardOp(t) => var _ := list.Forward(t);
    case FilterOp(c, g) => var _, _ := list.Filter(c, g);
    case CapOp(k) => var _ := list.Cap(k);
    case RemoveOp(tx) => var _, _ := list.Remove(tx);
    case ReadyOp(start) => var _ := list.Ready(start);
    case FlattenOp => var _ := list.Flatten();
  }

  /** After any sequence of operations the list is valid (heap, cache and caps agree with the map)
      and holds what the same operations give on a plain nonce map. */
  method Run(list: List, ops: seq<Op>) returns (ghost trace: seq<NonceMap>)
    requires list.Valid()
    modifies list, list.txs, list.txs.index
    ensures list.Valid()
    ensures |trace| == |ops| + 1 && PlainRun(list.strict, trace, ops)
    ensures trace[0] == old(list.txs.items) && trace[|ops|] == list.txs.items
  {
    hide PlainRun, PlainStep, Capped;
    trace := [list.txs.items];
    EmptyRun(list.strict, list.txs.items);
    assert ops[..0] == [];
    for i := 0 to |ops|
      invariant list.Valid()
      invariant |trace| == i + 1 && PlainRun(list.strict, trace, ops[..i])
      invariant trace[0] == old(list.txs.items) && trace[i] == list.txs.items
    {
      Apply(list, ops[i]);
      ExtendRun(list.strict, trace, ops[..i], ops[i], list.txs.items);
      assert ops[..i] + [ops[i]] == ops[..i + 1];
      trace := trace + [list.txs.items];
    }
    assert ops[..|ops|] == ops;
  }
}
