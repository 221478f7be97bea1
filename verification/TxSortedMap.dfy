/** txSortedMap: a nonce map with a heap of its nonces and a lazily sorted cache. */
module TxSortedMap {
  import opened Base
  import opened Transactions
  import opened NonceHeap
  import GoSort

  lemma ListingSnoc(m: NonceMap, tx: Tx)
    requires forall n :: n in m ==> n < tx.nonce
    ensures Listing(m[tx.nonce := tx]) == Listing(m) + [tx]
  {
    var one: NonceMap := map[tx.nonce := tx];
    assert Enumerates([tx], one);
    EnumerationIsListing([tx], one);
    ListingSplit(m[tx.nonce := tx], m, one);
  }

  lemma ForwardSplits(m: NonceMap, t: nat)
    ensures Listing(m) == Listing(Below(m, t)) + Listing(AtLeast(m, t))
  {
    ListingSplit(m, Below(m, t), AtLeast(m, t));
  }

  lemma ListingAt(m: NonceMap, keys: seq<Uint64>)
    requires KeysOf(keys, m)
    ensures |keys| == |m| && forall i :: 0 <= i < |keys| ==> m[keys[i]] == Listing(m)[i]
  {
    var s := seq(|keys|, i requires 0 <= i < |keys| => (assert keys[i] in keys; m[keys[i]]));
    forall tx ensures tx in s <==> Holds(m, tx) {
      if Holds(m, tx) {
        var i :| 0 <= i < |keys| && keys[i] == tx.nonce;
        assert s[i] == tx;
      }
    }
    EnumerationIsListing(s, m);
  }

  lemma ListingNonces(m: NonceMap, keys: seq<Uint64>)
    requires KeysOf(keys, m)
    ensures |keys| == |m| && forall i :: 0 <= i < |keys| ==> Listing(m)[i].nonce == keys[i]
  {
    ListingAt(m, keys);
    hide Listing;
    forall i | 0 <= i < |keys| ensures Listing(m)[i].nonce == keys[i] {
      assert keys[i] in keys && keys[i] in m;
    }
  }

  /** Taking the lowest transaction off the part of `m` from `cut` on. */
  lemma PeelMaps(m: NonceMap, cut: nat, tx: Tx)
    requires Holds(AtLeast(m, cut), tx)
    requires forall n :: n in AtLeast(m, cut) ==> tx.nonce <= n
    ensures AtLeast(m, tx.nonce + 1) == AtLeast(m, cut) - {tx.nonce}
    ensures Below(m, tx.nonce + 1) == Below(m, cut)[tx.nonce := tx]
  {
    forall n | n in m && cut <= n ensures tx.nonce <= n {
      assert n in AtLeast(m, cut);
    }
  }

  lemma PeelStart(m: NonceMap)
    ensures AtLeast(m, 0) == m && Listing(Below(m, 0)) == []
  {
    assert Below(m, 0) == map[];
  }

  lemma AtLeastIs(m: NonceMap, t: nat)
    ensures forall n :: n in AtLeast(m, t) <==> n in m && t <= n
  {
  }

  lemma KeysWithout(m: NonceMap, n: Uint64)
    requires n in m
    ensures multiset((m - {n}).Keys) == multiset(m.Keys) - multiset{n}
  {
    assert (m - {n}).Keys == m.Keys - {n};
  }

  lemma LowestIsTop(m: NonceMap, top: Uint64)
    requires top in m && forall n :: n in m ==> top <= n
    ensures m != map[] && m.Keys != {} && Lowest(m.Keys) == top
  {
  }

  lemma ReversedSize<T>(s: seq<T>)
    ensures |Reversed(s)| == |s|
  {
  }

  lemma PeelStep(m: NonceMap, cut: nat, tx: Tx)
    requires Holds(AtLeast(m, cut), tx)
    requires forall n :: n in AtLeast(m, cut) ==> tx.nonce <= n
    ensures AtLeast(m, tx.nonce + 1) == AtLeast(m, cut) - {tx.nonce}
    ensures Listing(Below(m, tx.nonce + 1)) == Listing(Below(m, cut)) + [tx]
  {
    PeelMaps(m, cut, tx);
    ListingSnoc(Below(m, cut), tx);
  }

  lemma PeelDone(m: NonceMap, cut: nat, t: nat)
    requires cut <= t
    requires forall n :: n in AtLeast(m, cut) ==> n >= t
    ensures AtLeast(m, t) == AtLeast(m, cut)
    ensures Below(m, t) == Below(m, cut)
  {
    forall n | n in m && cut <= n ensures t <= n {
      assert n in AtLeast(m, cut);
    }
  }

  class SortedMap {
    var items: NonceMap
    const index: Heap
    var cache: Option<seq<Tx>>

    /** The index is a min-heap of exactly the stored nonces; the cache, if any, is the
        nonce-sorted contents. */
    ghost predicate Valid()
      reads this, index
    {
      && Indexed()
      && (cache.Some? ==> cache.value == Listing(items))
    }

    constructor ()
      ensures Valid() && fresh(index)
      ensures items == map[]
    {
      items := map[];
      index := new Heap();
      cache := None;
    }

    ghost predicate Indexed()
      reads this`items, index
    {
      IsHeap(index.a) && multiset(index.a) == multiset(items.Keys)
    }

    lemma IndexedIs()
      ensures Indexed() <==> IsHeap(index.a) && multiset(index.a) == multiset(items.Keys)
    {
      hide IsHeap;
    }

    lemma ValidIs()
      ensures Valid() <==> Indexed() && (cache.Some? ==> cache.value == Listing(items))
    {
      hide Indexed, Listing;
    }

    lemma IndexSize()
      requires Indexed()
      ensures |index.a| == |items|
    {
      assert |multiset(index.a)| == |index.a| && |multiset(items.Keys)| == |items.Keys|;
    }

    lemma IndexMembers()
      requires Indexed()
      ensures forall n :: n in index.a <==> n in items
    {
      assert forall n :: n in index.a <==> n in multiset(index.a);
    }

    lemma TopIsLowest()
      requires Indexed() && index.a != []
      ensures index.a[0] in items && forall n :: n in items ==> index.a[0] <= n
    {
      IndexMembers();
      assert index.a[0] in index.a;
      forall n | n in items ensures index.a[0] <= n {
        assert n in index.a;
        var j :| 0 <= j < |index.a| && index.a[j] == n;
        RootIsMinimum(index.a, j);
      }
    }

    method Put(tx: Tx)
      requires Valid()
      modifies this, index
      ensures Valid()
      ensures items == old(items)[tx.nonce := tx]
    {
      var nonce := tx.nonce;
      if nonce !in items {
        index.Push(nonce);
      }
      items, cache := items[nonce := tx], None;
      assert nonce in old(items) ==> items.Keys == old(items).Keys;
      assert nonce !in old(items) ==> items.Keys == old(items).Keys + {nonce};
    }

    /** Takes the top of the heap out of the index and out of the map. */
    method PopLowest() returns (tx: Tx)
      requires Indexed() && index.a != []
      modifies this`items, index
      ensures Indexed()
      ensures Holds(old(items), tx) && tx.nonce == old(index.a[0])
      ensures items == old(items) - {tx.nonce}
      ensures |index.a| == old(|index.a|) - 1
      ensures forall n :: n in old(items) ==> tx.nonce <= n
    {
      TopIsLowest();
      var nonce := index.Pop();
      tx := items[nonce];
      items := items - {nonce};
      assert items.Keys == old(items).Keys - {nonce};
    }

    /** The popping loop of Forward. */
    method PopBelow(threshold: Uint64) returns (removed: seq<Tx>)
      requires Indexed()
      modifies this`items, index
      ensures Indexed()
      ensures items == AtLeast(old(items), threshold)
      ensures removed == Listing(Below(old(items), threshold))
    {
      removed := [];
      ghost var cut: nat := 0;
      ghost var m := items;
      PeelStart(m);
      hide *;
      while |index.a| > 0 && index.a[0] < threshold
        invariant Indexed() && cut <= threshold
        invariant items == AtLeast(m, cut)
        invariant removed == Listing(Below(m, cut))
        decreases |index.a|
      {
        var tx := PopLowest();
        PeelStep(m, cut, tx);
        removed := removed + [tx];
        cut := tx.nonce + 1;
      }
      if index.a != [] {
        TopIsLowest();
      } else {
        IndexSize();
      }
      PeelDone(m, cut, threshold);
    }

    method Forward(threshold: Uint64) returns (removed: seq<Tx>)
      requires Valid()
      modifies this, index
      ensures Valid()
      ensures items == AtLeast(old(items), threshold)
      ensures removed == Listing(Below(old(items), threshold))
    {
      hide *;
      ValidIs();
      ForwardSplits(items, threshold);
      removed := PopBelow(threshold);
      if cache.Some? {
        cache := Some(cache.value[|removed|..]);
      }
      ValidIs();
    }

    /** Rebuilds the index from the map, whose keys Go visits in no particular order. */
    method Reindex()
      modifies index
      ensures Indexed()
    {
      var a: seq<Uint64> := [];
      var todo := items.Keys;
      while todo != {}
        invariant todo <= items.Keys
        invariant multiset(a) == multiset(items.Keys - todo)
      {
        var n :| n in todo;
        assert items.Keys - (todo - {n}) == (items.Keys - todo) + {n};
        todo := todo - {n};
        a := a + [n];
      }
      assert items.Keys - todo == items.Keys;
      index.a := a;
      index.Init();
    }

    /** The collecting loop of Filter. */
    method Sweep(drop: Tx -> bool) returns (removed: seq<Tx>)
      modifies this`items
      ensures items == Rejected(old(items), drop)
      ensures Collects(removed, Selected(old(items), drop))
    {
      removed := [];
      var todo := items.Keys;
      ghost var m := items;
      while todo != {}
        invariant todo <= m.Keys
        invariant Filtering(m, drop, todo, items, removed)
      {
        var n :| n in todo;
        FilterStep(m, drop, todo, items, removed, n);
        var tx := items[n];
        if drop(tx) {
          removed := removed + [tx];
          items := items - {n};
        }
        todo := todo - {n};
      }
      FilterDone(m, drop, items, removed);
    }

    method Filter(drop: Tx -> bool) returns (removed: seq<Tx>)
      requires Valid()
      modifies this, index
      ensures Valid()
      ensures items == Rejected(old(items), drop)
      ensures Collects(removed, Selected(old(items), drop))
    {
      removed := Sweep(drop);
      if |removed| > 0 {
        Reindex();
        cache := None;
      } else {
        NothingDropped(old(items), drop, removed);
      }
    }

    /** The dropping loop of Cap, over the sorted nonces. */
    method DropHighest(keys: seq<Uint64>, threshold: nat) returns (drops: seq<Tx>)
      requires KeysOf(keys, items) && threshold <= |keys| == |items|
      modifies this`items
      ensures items == Below(old(items), Bound(keys, threshold))
      ensures drops == Reversed(Listing(old(items))[threshold..])
    {
      hide *;
      drops := [];
      var size := |items|;
      ghost var m := items;
      CapStart(m, keys);
      while size > threshold
        invariant threshold <= size <= |keys|
        invariant items == Below(m, Bound(keys, size))
        invariant drops == Reversed(Listing(m)[size..])
      {
        CapStep(m, keys, size);
        BelowStep(m, keys, size);
        drops := drops + [items[keys[size - 1]]];
        items := items - {keys[size - 1]};
        size := size - 1;
      }
    }

    /** Sorts the heap slice, as Cap does. */
    method SortIndex() returns (keys: seq<Uint64>)
      requires Indexed()
      ensures KeysOf(keys, items) && |keys| == |items|
    {
      keys := GoSort.Sort(index.a, (n: Uint64) => n);
      IndexedIs();
      SortedKeys(keys, items);
    }

    method Cap(threshold: nat) returns (drops: seq<Tx>)
      requires Valid()
      modifies this, index
      ensures Valid()
      ensures |old(items)| <= threshold ==> items == old(items) && drops == []
      ensures |old(items)| > threshold ==>
                && Listing(items) == Listing(old(items))[..threshold]
                && drops == Reversed(Listing(old(items))[threshold..])
    {
      hide *;
      if |items| <= threshold {
        return [];
      }
      ValidIs();
      var keys := SortIndex();
      CapListing(items, keys, threshold);
      drops := DropHighest(keys, threshold);
      index.a := keys[..threshold];
      index.Init();
      ReversedSize(Listing(old(items))[threshold..]);
      if cache.Some? {
        cache := Some(cache.value[..|cache.value| - |drops|]);
      }
      IndexedIs();
      ValidIs();
    }

    /** The search loop of Remove. */
    static method FindNonce(a: seq<Uint64>, nonce: Uint64) returns (i: nat)
      requires nonce in a
      ensures i < |a| && a[i] == nonce
    {
      i := 0;
      while a[i] != nonce
        invariant i < |a| && nonce in a[i..]
        decreases |a| - i
      {
        i := i + 1;
      }
    }

    method Remove(nonce: Uint64) returns (found: bool)
      requires Valid()
      modifies this, index
      ensures Valid()
      ensures found == (nonce in old(items))
      ensures items == old(items) - {nonce}
    {
      if nonce !in items {
        return false;
      }
      hide *;
      ValidIs();
      IndexedIs();
      IndexMembers();
      var i := FindNonce(index.a, nonce);
      var _ := index.Remove(i);
      KeysWithout(items, nonce);
      items := items - {nonce};
      cache := None;
      found := true;
      IndexedIs();
      ValidIs();
    }

    /** The accumulating loop of Ready; `next++` wraps at the end of uint64. */
    method PopRun() returns (ready: seq<Tx>, ghost cut: nat)
      requires Indexed() && index.a != []
      modifies this`items, index
      ensures Indexed()
      ensures cut == old(index.a[0]) + |ready|
      ensures items == AtLeast(old(items), cut) && ready == Listing(Below(old(items), cut))
      ensures index.a != [] ==> index.a[0] != cut
    {
      ready := [];
      var next := index.a[0];
      ghost var m := items;
      cut := next;
      TopIsLowest();
      assert Below(m, cut) == map[] && AtLeast(m, cut) == m;
      while |index.a| > 0 && index.a[0] == next
        invariant Indexed()
        invariant cut == old(index.a[0]) + |ready|
        invariant cut <= MAX_UINT64 ==> next == cut
        invariant items == AtLeast(m, cut)
        invariant ready == Listing(Below(m, cut))
        decreases |index.a|
      {
        var tx := PopLowest();
        assert tx.nonce == next == cut;
        PeelStep(m, cut, tx);
        ready := ready + [tx];
        next := if next == MAX_UINT64 then 0 else next + 1;
        cut := tx.nonce + 1;
      }
    }

    method Ready(start: Uint64) returns (ready: seq<Tx>)
      requires Valid()
      modifies this, index
      ensures Valid()
      ensures old(items) == map[] || Lowest(old(items).Keys) > start ==> items == old(items) && ready == []
      ensures old(items) != map[] && Lowest(old(items).Keys) <= start ==>
                RunTaken(old(items), Lowest(old(items).Keys), items, ready)
    {
      hide *;
      ValidIs();
      IndexSize();
      if |index.a| == 0 {
        return [];
      }
      TopIsLowest();
      LowestIsTop(items, index.a[0]);
      if index.a[0] > start {
        return [];
      }
      ghost var cut;
      ready, cut := PopRun();
      cache := None;
      if index.a != [] {
        TopIsLowest();
      } else {
        IndexSize();
      }
      AtLeastIs(old(items), cut);
      RunDone(old(items), old(index.a[0]), cut, items, ready);
      ValidIs();
    }

    function Len(): (n: nat)
      reads this
    {
      |items|
    }

    method Flatten() returns (txs: seq<Tx>)
      requires Valid()
      modifies this`cache
      ensures Valid()
      ensures cache == Some(txs) && txs == Listing(items)
    {
      if cache.None? {
        var all: seq<Tx> := [];
        var todo := items.Keys;
        while todo != {}
          invariant todo <= items.Keys
          invariant Gathered(all, items, todo)
        {
          var n :| n in todo;
          GatherStep(all, items, todo, n);
          todo := todo - {n};
          all := all + [items[n]];
        }
        var sorted := GoSort.Sort(all, (tx: Tx) => tx.nonce);
        GatherDone(all, sorted, items);
        cache := Some(sorted);
      }
      txs := cache.value;
    }
  }

  /** `ready` are the transactions of `m` with the consecutive nonces from `lo` up to `end`, where
      the run stops, and `rest` is what `m` holds from there on. */
  ghost predicate MaximalRun(m: NonceMap, lo: nat, end: nat, rest: NonceMap, ready: seq<Tx>) {
    && end == lo + |ready| && end !in m
    && (forall i :: 0 <= i < |ready| ==> ready[i].nonce == lo + i)
    && ready == Listing(Below(m, end))
    && rest == AtLeast(m, end)
  }

  ghost predicate RunTaken(m: NonceMap, lo: nat, rest: NonceMap, ready: seq<Tx>) {
    exists end: nat :: MaximalRun(m, lo, end, rest, ready)
  }

  lemma {:induction false} AscendingDense(s: seq<Tx>, lo: nat)
    requires Ascending(s)
    requires forall i :: 0 <= i < |s| ==> lo <= s[i].nonce < lo + |s|
    ensures forall i :: 0 <= i < |s| ==> s[i].nonce == lo + i
  {
    if s != [] {
      var n := |s| - 1;
      assert Ascending(s[..n]);
      forall i | 0 <= i < n ensures s[..n][i].nonce < lo + n {
        assert s[i].nonce < s[n].nonce;
      }
      AscendingDense(s[..n], lo);
      if n > 0 {
        assert s[..n][n - 1].nonce < s[n].nonce;
      }
    }
  }

  lemma RunDone(m: NonceMap, lo: nat, cut: nat, rest: NonceMap, ready: seq<Tx>)
    requires cut == lo + |ready| && rest == AtLeast(m, cut) && ready == Listing(Below(m, cut))
    requires forall n :: n in m ==> lo <= n
    requires cut !in rest
    ensures MaximalRun(m, lo, cut, rest, ready) && RunTaken(m, lo, rest, ready)
  {
    ListingEnumerates(Below(m, cut));
    forall i | 0 <= i < |ready| ensures lo <= ready[i].nonce < cut {
      assert ready[i] in ready;
      assert Holds(Below(m, cut), ready[i]);
    }
    AscendingDense(ready, lo);
    assert cut in m ==> cut in AtLeast(m, cut);
    assert MaximalRun(m, lo, cut, rest, ready);
  }

  /** Loop state of Flatten: `all` holds the transactions of `m` outside `todo`, once each. */
  ghost predicate Gathered(all: seq<Tx>, m: NonceMap, todo: set<Uint64>) {
    Distinct(all) && forall tx :: tx in all <==> Holds(m, tx) && tx.nonce !in todo
  }

  lemma GatherStep(all: seq<Tx>, m: NonceMap, todo: set<Uint64>, n: Uint64)
    requires Gathered(all, m, todo) && n in todo && n in m
    ensures Gathered(all + [m[n]], m, todo - {n})
  {
    var next := all + [m[n]];
    assert m[n] !in all;
    assert forall tx :: tx in next <==> tx in all || tx == m[n];
  }

  lemma GatherDone(all: seq<Tx>, sorted: seq<Tx>, m: NonceMap)
    requires Gathered(all, m, {})
    requires multiset(sorted) == multiset(all) && GoSort.SortedBy(sorted, (tx: Tx) => tx.nonce)
    ensures sorted == Listing(m)
  {
    DistinctCount(all);
    CountDistinct(sorted);
    var key := (tx: Tx) => tx.nonce;
    forall tx ensures tx in sorted <==> Holds(m, tx) {
      assert tx in sorted <==> tx in multiset(sorted);
      assert tx in all <==> tx in multiset(all);
    }
    forall i, j | 0 <= i < j < |sorted| ensures sorted[i].nonce < sorted[j].nonce {
      assert key(sorted[i]) <= key(sorted[j]);
      assert sorted[i] in sorted && sorted[j] in sorted;
    }
    EnumerationIsListing(sorted, m);
  }

  /** `keys` are the nonces of `m` in increasing order. */
  ghost predicate KeysOf(keys: seq<Uint64>, m: NonceMap) {
    && (forall i, j :: 0 <= i < j < |keys| ==> keys[i] < keys[j])
    && (forall n :: n in keys <==> n in m)
  }

  function Bound(keys: seq<Uint64>, size: nat): (b: nat)
    requires size <= |keys|
  {
    if size == |keys| then MAX_UINT64 + 1 else keys[size]
  }

  lemma SortedKeys(keys: seq<Uint64>, m: NonceMap)
    requires GoSort.SortedBy(keys, (n: Uint64) => n)
    requires multiset(keys) == multiset(m.Keys)
    ensures KeysOf(keys, m) && |keys| == |m|
    ensures Below(m, Bound(keys, |keys|)) == m
  {
    CountDistinct(keys);
    assert |multiset(keys)| == |multiset(m.Keys)| == |m.Keys|;
    var key := (n: Uint64) => n;
    forall i, j | 0 <= i < j < |keys| ensures keys[i] < keys[j] {
      assert key(keys[i]) <= key(keys[j]);
    }
    forall n ensures n in keys <==> n in m {
      assert n in keys <==> n in multiset(keys);
    }
  }

  lemma KeyBelow(m: NonceMap, keys: seq<Uint64>, t: nat, n: Uint64)
    requires KeysOf(keys, m) && t <= |keys|
    ensures n in keys[..t] <==> n in m && n < Bound(keys, t)
  {
    if n in keys {
      var i :| 0 <= i < |keys| && keys[i] == n;
      assert i < t ==> keys[..t][i] == n;
    }
  }

  lemma KeysPrefix(m: NonceMap, keys: seq<Uint64>, t: nat)
    requires KeysOf(keys, m) && t <= |keys|
    ensures KeysOf(keys[..t], Below(m, Bound(keys, t)))
  {
    assert forall i, j :: 0 <= i < j < t ==> keys[..t][i] < keys[..t][j];
    hide Bound;
    forall n ensures n in keys[..t] <==> n in Below(m, Bound(keys, t)) {
      KeyBelow(m, keys, t, n);
    }
  }

  lemma KeysMultiset(m: NonceMap, keys: seq<Uint64>)
    requires KeysOf(keys, m)
    ensures multiset(keys) == multiset(m.Keys)
  {
    DistinctCount(keys);
    forall n ensures multiset(keys)[n] == multiset(m.Keys)[n] {
      assert n in multiset(keys) <==> n in keys;
    }
  }

  lemma BoundStep(m: NonceMap, keys: seq<Uint64>, size: nat, n: Uint64)
    requires KeysOf(keys, m) && 0 < size <= |keys| && n in m
    ensures n < Bound(keys, size) && n != keys[size - 1] <==> n < Bound(keys, size - 1)
  {
    assert n in keys;
    var i :| 0 <= i < |keys| && keys[i] == n;
  }

  lemma BelowStep(m: NonceMap, keys: seq<Uint64>, size: nat)
    requires KeysOf(keys, m) && 0 < size <= |keys|
    ensures keys[size - 1] in Below(m, Bound(keys, size))
    ensures keys[size - 1] in m && Below(m, Bound(keys, size))[keys[size - 1]] == m[keys[size - 1]]
    ensures Below(m, Bound(keys, size)) - {keys[size - 1]} == Below(m, Bound(keys, size - 1))
  {
    assert keys[size - 1] in keys && keys[size - 1] < Bound(keys, size);
    hide KeysOf, Bound;
    forall n | n in m ensures n < Bound(keys, size) && n != keys[size - 1] <==> n < Bound(keys, size - 1) {
      BoundStep(m, keys, size, n);
    }
  }

  lemma CapStart(m: NonceMap, keys: seq<Uint64>)
    requires KeysOf(keys, m) && |keys| == |m|
    ensures m == Below(m, Bound(keys, |keys|)) && Reversed(Listing(m)[|m|..]) == []
  {
    hide Listing;
    assert Listing(m)[|m|..] == [];
    forall n | n in m ensures n < Bound(keys, |keys|) {
      assert n in keys;
    }
    hide Bound, KeysOf;
  }

  lemma CapStep(m: NonceMap, keys: seq<Uint64>, size: nat)
    requires KeysOf(keys, m) && 0 < size <= |keys|
    ensures |keys| == |m|
    ensures keys[size - 1] in m && m[keys[size - 1]] == Listing(m)[size - 1]
    ensures Reversed(Listing(m)[size - 1..]) == Reversed(Listing(m)[size..]) + [m[keys[size - 1]]]
  {
    ListingAt(m, keys);
    assert keys[size - 1] in keys;
    var s := Listing(m);
    assert s[size - 1..][1..] == s[size..];
  }

  lemma CapListing(m: NonceMap, keys: seq<Uint64>, t: nat)
    requires KeysOf(keys, m) && t <= |keys|
    ensures |keys| == |m|
    ensures Listing(Below(m, Bound(keys, t))) == Listing(m)[..t]
    ensures multiset(keys[..t]) == multiset(Below(m, Bound(keys, t)).Keys)
  {
    ListingAt(m, keys);
    KeysPrefix(m, keys, t);
    ListingAt(Below(m, Bound(keys, t)), keys[..t]);
    KeysMultiset(Below(m, Bound(keys, t)), keys[..t]);
    ForwardSplits(m, Bound(keys, t));
  }

  /** Loop state of Filter: every nonce outside `todo` has been decided. */
  ghost predicate Filtering(m: NonceMap, drop: Tx -> bool, todo: set<Uint64>, kept: NonceMap, removed: seq<Tx>) {
    && kept == (map n | n in m && (n in todo || !drop(m[n])) :: m[n])
    && Distinct(removed)
    && (forall tx :: tx in removed <==> Holds(m, tx) && tx.nonce !in todo && drop(tx))
  }

  lemma FilterStep(m: NonceMap, drop: Tx -> bool, todo: set<Uint64>, kept: NonceMap, removed: seq<Tx>, n: Uint64)
    requires Filtering(m, drop, todo, kept, removed) && n in todo && n in m
    ensures n in kept && kept[n] == m[n]
    ensures drop(m[n]) ==> Filtering(m, drop, todo - {n}, kept - {n}, removed + [m[n]])
    ensures !drop(m[n]) ==> Filtering(m, drop, todo - {n}, kept, removed)
  {
    var next := removed + [m[n]];
    assert m[n] !in removed;
    assert forall tx :: tx in next <==> tx in removed || tx == m[n];
  }

  lemma FilterDone(m: NonceMap, drop: Tx -> bool, kept: NonceMap, removed: seq<Tx>)
    requires Filtering(m, drop, {}, kept, removed)
    ensures kept == Rejected(m, drop)
    ensures Collects(removed, Selected(m, drop))
  {
  }

  lemma NothingDropped(m: NonceMap, drop: Tx -> bool, removed: seq<Tx>)
    requires Collects(removed, Selected(m, drop)) && removed == []
    ensures Rejected(m, drop) == m
  {
    forall n | n in m ensures !drop(m[n]) {
      assert drop(m[n]) ==> Holds(Selected(m, drop), m[n]);
    }
  }
}
