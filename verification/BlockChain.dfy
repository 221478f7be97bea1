/** The block chain: which chain is canonical, and the lookup table that must follow it. */
module BlockChain {
  import opened Base
  import opened Ancestry
  import opened TxLookup
  import opened HeaderChain

  datatype WriteStatus = CanonStatus | SideStatus | UnknownParent | ReorgFailed

  /** Where a fork walk stands: above `i` on the old chain and `j` on the new one everything has been
      collected. */
  ghost predicate Walked(older: seq<Header>, newer: seq<Header>, i: nat, j: nat, added: seq<Header>,
      deleted: seq<Hash>) {
    && i < |older| && j < |newer|
    && added == Reversed(newer[j + 1..])
    && forall t :: t in deleted <==> t in TxsOf(older[i + 1..])
  }

  lemma CollectOld(older: seq<Header>, newer: seq<Header>, i: nat, j: nat, added: seq<Header>, deleted: seq<Hash>)
    requires Walked(older, newer, i, j, added, deleted) && i > 0
    ensures Walked(older, newer, i - 1, j, added, deleted + older[i].txs)
  {
    assert older[i..] == [older[i]] + older[i + 1..];
    TxsConcat([older[i]], older[i + 1..]);
    assert TxsOf([older[i]]) == older[i].txs;
  }

  lemma CollectNew(older: seq<Header>, newer: seq<Header>, i: nat, j: nat, added: seq<Header>, deleted: seq<Hash>)
    requires Walked(older, newer, i, j, added, deleted) && j > 0
    ensures Walked(older, newer, i, j - 1, added + [newer[j]], deleted)
  {
    assert newer[j..][1..] == newer[j + 1..];
  }

  /** The outcome of the fork walk: the chains share exactly their first `k + 1` blocks. */
  ghost predicate ForkAt(older: seq<Header>, newer: seq<Header>, k: nat) {
    && k < |older| && k < |newer|
    && older[..k + 1] == newer[..k + 1]
    && forall m :: k < m < |older| && m < |newer| ==> older[m].hash != newer[m].hash
  }

  /** A fork walk over stored blocks, standing at `o` on the old chain and `n` on the new one. */
  ghost predicate Walk(blocks: Store, genesis: Header, oldHead: Header, newHead: Header,
                       o: Header, n: Header, added: seq<Header>, deleted: seq<Hash>) {
    && Rooted(blocks, genesis)
    && Stored(blocks, oldHead) && Attached(blocks, genesis, oldHead)
    && Fits(blocks, newHead) && Attached(blocks, genesis, newHead)
    && Walked(Chain(blocks, oldHead), Chain(blocks, newHead), o.number, n.number, added, deleted)
    && o == Chain(blocks, oldHead)[o.number] && n == Chain(blocks, newHead)[n.number]
  }

  lemma WalkStart(blocks: Store, genesis: Header, oldHead: Header, newHead: Header)
    requires Rooted(blocks, genesis)
    requires Stored(blocks, oldHead) && Attached(blocks, genesis, oldHead)
    requires Fits(blocks, newHead) && Attached(blocks, genesis, newHead)
    ensures Walk(blocks, genesis, oldHead, newHead, oldHead, newHead, [], [])
  {
    hide Chain;
    ChainLength(blocks, genesis, oldHead);
    ChainLength(blocks, genesis, newHead);
    assert Chain(blocks, oldHead)[oldHead.number + 1..] == [];
    assert Chain(blocks, newHead)[newHead.number + 1..] == [];
  }

  lemma WalkOld(blocks: Store, genesis: Header, oldHead: Header, newHead: Header,
                o: Header, n: Header, added: seq<Header>, deleted: seq<Hash>)
    requires Walk(blocks, genesis, oldHead, newHead, o, n, added, deleted) && o.number > 0
    ensures var next := GetHeader(blocks, o.parent, o.number - 1);
            next.Some? && Walk(blocks, genesis, oldHead, newHead, next.value, n, added, deleted + o.txs)
  {
    hide Chain, Walked, Rooted, Attached, Fits, Stored;
    var older, newer := Chain(blocks, oldHead), Chain(blocks, newHead);
    WalkBounds(blocks, genesis, oldHead, newHead, o, n, added, deleted);
    CollectOld(older, newer, o.number, n.number, added, deleted);
    ParentBelow(blocks, genesis, oldHead, o.number);
  }

  lemma WalkNew(blocks: Store, genesis: Header, oldHead: Header, newHead: Header,
                o: Header, n: Header, added: seq<Header>, deleted: seq<Hash>)
    requires Walk(blocks, genesis, oldHead, newHead, o, n, added, deleted) && n.number > 0
    ensures var next := GetHeader(blocks, n.parent, n.number - 1);
            next.Some? && Walk(blocks, genesis, oldHead, newHead, o, next.value, added + [n], deleted)
  {
    hide Chain, Walked, Rooted, Attached, Fits, Stored;
    var older, newer := Chain(blocks, oldHead), Chain(blocks, newHead);
    WalkBounds(blocks, genesis, oldHead, newHead, o, n, added, deleted);
    CollectNew(older, newer, o.number, n.number, added, deleted);
    ParentBelow(blocks, genesis, newHead, n.number);
  }

  lemma WalkBounds(blocks: Store, genesis: Header, oldHead: Header, newHead: Header,
                   o: Header, n: Header, added: seq<Header>, deleted: seq<Hash>)
    requires Walk(blocks, genesis, oldHead, newHead, o, n, added, deleted)
    ensures o.number <= oldHead.number && n.number <= newHead.number
    ensures |Chain(blocks, oldHead)| == oldHead.number + 1 && |Chain(blocks, newHead)| == newHead.number + 1
    ensures o.number == 0 ==> o == genesis
    ensures n.number == 0 ==> n == genesis
  {
    hide Chain;
    ChainLength(blocks, genesis, oldHead);
    ChainLength(blocks, genesis, newHead);
  }

  /** The blocks met on the two walks above height `k` differ. */
  ghost predicate Differ(older: seq<Header>, newer: seq<Header>, k: nat) {
    forall m :: k < m < |older| && m < |newer| ==> older[m].hash != newer[m].hash
  }

  lemma WalkDone(blocks: Store, genesis: Header, oldHead: Header, newHead: Header,
                 o: Header, n: Header, added: seq<Header>, deleted: seq<Hash>)
    requires Walk(blocks, genesis, oldHead, newHead, o, n, added, deleted)
    requires o.number == n.number && o.hash == n.hash
    requires Differ(Chain(blocks, oldHead), Chain(blocks, newHead), o.number)
    ensures ForkAt(Chain(blocks, oldHead), Chain(blocks, newHead), o.number)
    ensures added == Reversed(Chain(blocks, newHead)[o.number + 1..])
    ensures forall t :: t in deleted <==> t in TxsOf(Chain(blocks, oldHead)[o.number + 1..])
  {
    hide Chain, TxsOf, Rooted, Attached;
    var k := o.number;
    WalkBounds(blocks, genesis, oldHead, newHead, o, n, added, deleted);
    ChainPrefix(blocks, genesis, oldHead, k);
    ChainPrefix(blocks, genesis, newHead, k);
    SameBlock(blocks, genesis, oldHead, newHead, k);
  }

  lemma SameBlock(blocks: Store, genesis: Header, a: Header, b: Header, k: nat)
    requires Rooted(blocks, genesis) && Attached(blocks, genesis, a) && Attached(blocks, genesis, b)
    requires Stored(blocks, a) && Fits(blocks, b) && k <= a.number && k <= b.number
    ensures k < |Chain(blocks, a)| && k < |Chain(blocks, b)|
    ensures Chain(blocks, a)[k].hash == Chain(blocks, b)[k].hash ==> Chain(blocks, a)[k] == Chain(blocks, b)[k]
  {
    hide Chain, Rooted, Attached, Stored, Fits;
    ChainStored(blocks, genesis, a, k);
    ChainFits(blocks, genesis, b, k);
    if Chain(blocks, a)[k].hash == Chain(blocks, b)[k].hash {
      SameStored(blocks, Chain(blocks, a)[k], Chain(blocks, b)[k]);
    }
  }

  lemma ChainFits(blocks: Store, genesis: Header, b: Header, k: nat)
    requires Rooted(blocks, genesis) && Attached(blocks, genesis, b) && Fits(blocks, b) && k <= b.number
    ensures k < |Chain(blocks, b)| && Fits(blocks, Chain(blocks, b)[k])
  {
    RootedChain(blocks, genesis, b);
    hide Chain, Attached;
    var h := Chain(blocks, b)[k];
    assert k < b.number ==> h.hash in blocks && blocks[h.hash] == h;
  }

  lemma SameStored(blocks: Store, a: Header, b: Header)
    requires Stored(blocks, a) && Fits(blocks, b) && a.hash == b.hash
    ensures a == b
  {
  }

  /** The first half of reorg: walks both branches back to the common block, collecting the new blocks
      and the transactions of the old ones. */
  method Fork(blocks: Store, ghost genesis: Header, oldHead: Header, newHead: Header)
    returns (ok: bool, added: seq<Header>, deleted: seq<Hash>, ghost k: nat)
    requires Rooted(blocks, genesis)
    requires Stored(blocks, oldHead) && Attached(blocks, genesis, oldHead)
    requires Fits(blocks, newHead) && Attached(blocks, genesis, newHead)
    ensures ok
    ensures ForkAt(Chain(blocks, oldHead), Chain(blocks, newHead), k)
    ensures added == Reversed(Chain(blocks, newHead)[k + 1..])
    ensures forall t :: t in deleted <==> t in TxsOf(Chain(blocks, oldHead)[k + 1..])
  {
    hide *;
    var o, n := oldHead, newHead;
    added, deleted, k := [], [], 0;
    WalkStart(blocks, genesis, oldHead, newHead);
    if o.number > n.number {
      while o.number != n.number
        invariant n.number <= o.number && n == newHead
        invariant Walk(blocks, genesis, oldHead, newHead, o, n, added, deleted)
        decreases o.number
      {
        WalkOld(blocks, genesis, oldHead, newHead, o, n, added, deleted);
        deleted := deleted + o.txs;
        var next := GetHeader(blocks, o.parent, o.number - 1);
        if next.None? {
          return false, added, deleted, k;
        }
        NextNumber(blocks, o.parent, o.number - 1);
        o := next.value;
      }
    } else {
      while n.number != o.number
        invariant o.number <= n.number && o == oldHead
        invariant Walk(blocks, genesis, oldHead, newHead, o, n, added, deleted)
        decreases n.number
      {
        WalkNew(blocks, genesis, oldHead, newHead, o, n, added, deleted);
        added := added + [n];
        var next := GetHeader(blocks, n.parent, n.number - 1);
        if next.None? {
          return false, added, deleted, k;
        }
        NextNumber(blocks, n.parent, n.number - 1);
        n := next.value;
      }
    }
    ok, added, deleted, k := WalkBoth(blocks, genesis, oldHead, newHead, o, n, added, deleted);
  }

  lemma NextNumber(store: Store, hash: Hash, number: int)
    ensures GetHeader(store, hash, number).Some? ==> GetHeader(store, hash, number).value.number == number
  {
  }

  /** The loop that walks both branches in step. */
  method WalkBoth(blocks: Store, ghost genesis: Header, ghost oldHead: Header, ghost newHead: Header,
                  o0: Header, n0: Header, added0: seq<Header>, deleted0: seq<Hash>)
    returns (ok: bool, added: seq<Header>, deleted: seq<Hash>, ghost k: nat)
    requires Walk(blocks, genesis, oldHead, newHead, o0, n0, added0, deleted0)
    requires o0.number == n0.number && (o0 == oldHead || n0 == newHead)
    ensures ok
    ensures ForkAt(Chain(blocks, oldHead), Chain(blocks, newHead), k)
    ensures added == Reversed(Chain(blocks, newHead)[k + 1..])
    ensures forall t :: t in deleted <==> t in TxsOf(Chain(blocks, oldHead)[k + 1..])
  {
    hide *;
    var o, n := o0, n0;
    added, deleted, k := added0, deleted0, 0;
    DifferStart(blocks, genesis, oldHead, newHead, o, n, added, deleted);
    while o.hash != n.hash
      invariant o.number == n.number
      invariant Walk(blocks, genesis, oldHead, newHead, o, n, added, deleted)
      invariant Differ(Chain(blocks, oldHead), Chain(blocks, newHead), o.number)
      decreases o.number
    {
      WalkBounds(blocks, genesis, oldHead, newHead, o, n, added, deleted);
      DifferNext(blocks, genesis, oldHead, newHead, o, n, added, deleted);
      WalkOld(blocks, genesis, oldHead, newHead, o, n, added, deleted);
      var nextO, nextN := GetHeader(blocks, o.parent, o.number - 1), GetHeader(blocks, n.parent, n.number - 1);
      WalkNew(blocks, genesis, oldHead, newHead, nextO.value, n, added, deleted + o.txs);
      added, deleted := added + [n], deleted + o.txs;
      if nextO.None? || nextN.None? {
        return false, added, deleted, k;
      }
      NextNumber(blocks, o.parent, o.number - 1);
      NextNumber(blocks, n.parent, n.number - 1);
      o, n := nextO.value, nextN.value;
    }
    WalkDone(blocks, genesis, oldHead, newHead, o, n, added, deleted);
    ok, k := true, o.number;
  }

  lemma DifferStart(blocks: Store, genesis: Header, oldHead: Header, newHead: Header,
                    o: Header, n: Header, added: seq<Header>, deleted: seq<Hash>)
    requires Walk(blocks, genesis, oldHead, newHead, o, n, added, deleted)
    requires o.number == n.number && (o == oldHead || n == newHead)
    ensures Differ(Chain(blocks, oldHead), Chain(blocks, newHead), o.number)
  {
    WalkBounds(blocks, genesis, oldHead, newHead, o, n, added, deleted);
  }

  lemma DifferNext(blocks: Store, genesis: Header, oldHead: Header, newHead: Header,
                   o: Header, n: Header, added: seq<Header>, deleted: seq<Hash>)
    requires Walk(blocks, genesis, oldHead, newHead, o, n, added, deleted)
    requires o.number == n.number && o.hash != n.hash
    requires Differ(Chain(blocks, oldHead), Chain(blocks, newHead), o.number)
    ensures o.number > 0 && Differ(Chain(blocks, oldHead), Chain(blocks, newHead), o.number - 1)
  {
    WalkBounds(blocks, genesis, oldHead, newHead, o, n, added, deleted);
  }

  lemma GenesisChain(g: Header)
    requires g.number == 0 && g.txs == []
    ensures Chain(map[g.hash := g], g) == [g]
    ensures Numbering([g]) == map[0 := g.hash]
    ensures LookupOf([g]) == map[] && TxsOf([g]) == []
  {
    assert [g][..0] == [];
  }

  lemma GenesisSound(g: Header)
    requires g.number == 0 && g.txs == [] && g.hash != ZERO_HASH
    ensures Sound(map[g.hash := g], map[g.hash := BLOCK_DIFFICULTY], g, g)
  {
    GenesisChain(g);
    hide Chain, TxsOf;
    assert TotalDifficulty(g) == BLOCK_DIFFICULTY;
  }

  /** The canonical map while the new blocks are being inserted: below `m` it follows the new chain,
      above it still the old one. */
  ghost predicate Overlaid(canon: map<nat, Hash>, older: seq<Header>, newer: seq<Header>, m: nat) {
    && m <= |newer|
    && (forall i: nat :: i in canon <==> i < |older| || i < m)
    && (forall i: nat :: i < m ==> canon[i] == newer[i].hash)
    && (forall i: nat :: m <= i < |older| ==> canon[i] == older[i].hash)
  }

  lemma OverlayStart(older: seq<Header>, newer: seq<Header>, k: nat)
    requires ForkAt(older, newer, k)
    ensures Overlaid(Numbering(older), older, newer, k + 1)
  {
    forall i: nat | i <= k ensures older[i] == newer[i] {
      assert older[..k + 1][i] == newer[..k + 1][i];
    }
  }

  lemma OverlayStep(canon: map<nat, Hash>, older: seq<Header>, newer: seq<Header>, m: nat)
    requires Overlaid(canon, older, newer, m) && m < |newer|
    ensures Overlaid(canon[m := newer[m].hash], older, newer, m + 1)
  {
  }

  lemma OverlayDone(canon: map<nat, Hash>, older: seq<Header>, newer: seq<Header>)
    requires Overlaid(canon, older, newer, |newer|) && |older| <= |newer|
    ensures canon == Numbering(newer)
  {
  }

  /** Inserting a block above the fork is seen as a change of chain. */
  lemma OverlayFresh(canon: map<nat, Hash>, older: seq<Header>, newer: seq<Header>, k: nat, m: nat)
    requires Overlaid(canon, older, newer, m) && ForkAt(older, newer, k) && k < m < |newer|
    ensures m in canon ==> canon[m] != newer[m].hash
  {
  }

  /** types.TxDifference, on hashes. */
  method TxDifference(a: seq<Hash>, b: seq<Hash>) returns (keep: seq<Hash>)
    ensures forall t :: t in keep <==> t in a && t !in b
  {
    keep := [];
    for i := 0 to |a|
      invariant forall t :: t in keep <==> t in a[..i] && t !in b
    {
      assert forall t :: t in a[..i + 1] <==> t in a[..i] || t == a[i];
      if a[i] !in b {
        keep := keep + [a[i]];
      }
    }
    assert a[..|a|] == a;
  }

  class Chains {
    const genesis: Header
    var blocks: Store
    var td: map<Hash, nat>
    var canon: map<nat, Hash>
    var lookup: Table
    var current: Header
    var headHeader: Header
    var fastBlock: Header

    /** The store is sound with the current block as its highest, and the canonical map, lookup table
        and heads follow the current block's chain. */
    ghost predicate Valid()
      reads this
    {
      Sound(blocks, td, genesis, current) && Follows(current)
    }

    constructor (genesis: Header)
      requires genesis.number == 0 && genesis.hash != ZERO_HASH && genesis.txs == []
      ensures Valid() && current == genesis
    {
      this.genesis := genesis;
      blocks := map[genesis.hash := genesis];
      td := map[genesis.hash := BLOCK_DIFFICULTY];
      canon := map[0 := genesis.hash];
      lookup := map[];
      current, headHeader, fastBlock := genesis, genesis, genesis;
      new;
      StartValid();
    }

    lemma StartValid()
      requires genesis.number == 0 && genesis.hash != ZERO_HASH && genesis.txs == []
      requires blocks == map[genesis.hash := genesis] && td == map[genesis.hash := BLOCK_DIFFICULTY]
      requires canon == map[0 := genesis.hash] && lookup == map[]
      requires current == headHeader == fastBlock == genesis
      ensures Valid()
    {
      GenesisChain(genesis);
      GenesisSound(genesis);
      hide Sound, Chain, LookupOf, Numbering;
    }

    /** What a valid state says about one block and one transaction of the canonical chain: the number
        leads to the ancestor of the head at that height, and the transaction's hash leads to exactly
        that block and index. Nothing else is in the table. */
    lemma CanonicalAt(number: nat, index: nat)
      requires Valid() && number <= current.number
      ensures |Chain(blocks, current)| == current.number + 1
      ensures var block := Chain(blocks, current)[number];
              && number in canon && canon[number] == block.hash
              && block.hash in blocks && blocks[block.hash] == block && block.number == number
              && (index < |block.txs| ==>
                    block.txs[index] in lookup && lookup[block.txs[index]] == Position(block.hash, number, index))
      ensures forall t :: t in lookup <==> t in TxsOf(Chain(blocks, current))
      ensures forall n: nat :: n in canon <==> n <= current.number
    {
      hide *;
      ValidMeans();
      FollowsMeans(current);
      SoundHead(blocks, td, genesis, current);
      NumberingFacts(blocks, genesis, current, number);
      LookupKeys(Chain(blocks, current));
      if index < |Chain(blocks, current)[number].txs| {
        LookupExact(Chain(blocks, current), number, index);
      }
    }

    /** insert: makes the block the head, and forces the other heads onto it if the chain changes. */
    method Insert(block: Header)
      modifies this`canon, this`current, this`headHeader, this`fastBlock
      ensures canon == old(canon)[block.number := block.hash] && current == block
      ensures block.hash != ZERO_HASH && (block.number in old(canon) ==> old(canon)[block.number] != block.hash) ==>
                headHeader == block && fastBlock == block
      ensures block.number in old(canon) && old(canon)[block.number] == block.hash ==>
                headHeader == old(headHeader) && fastBlock == old(fastBlock)
    {
      var updateHeads := (if block.number in canon then canon[block.number] else ZERO_HASH) != block.hash;
      canon := canon[block.number := block.hash];
      current := block;
      if updateHeads {
        headHeader, fastBlock := block, block;
      }
    }

    method WriteTxLookupEntries(block: Header)
      modifies this`lookup
      ensures lookup == old(lookup) + Entries(block)
    {
      for i := 0 to |block.txs|
        invariant lookup == old(lookup) + EntriesUpTo(block, i)
      {
        lookup := lookup[block.txs[i] := Position(block.hash, block.number, i)];
      }
    }

    /** The second half of reorg: inserts the new blocks, lowest first, with their lookup entries. */
    method InsertAll(added: seq<Header>, ghost older: seq<Header>, ghost newer: seq<Header>, ghost k: nat)
      returns (txs: seq<Hash>)
      requires ForkAt(older, newer, k) && added == Reversed(newer[k + 1..])
      requires Numbered(newer)
      requires canon == Numbering(older)
      requires headHeader == current && fastBlock == current
      modifies this`canon, this`current, this`headHeader, this`fastBlock, this`lookup
      ensures Overlaid(canon, older, newer, |newer|)
      ensures lookup == old(lookup) + LookupOf(newer[k + 1..])
      ensures current == (if k + 1 < |newer| then newer[|newer| - 1] else old(current))
      ensures headHeader == current && fastBlock == current
      ensures forall t :: t in txs <==> t in TxsOf(newer[k + 1..])
    {
      txs := [];
      var i := |added| - 1;
      ghost var m := k + 1;
      ghost var table, before := lookup, current;
      hide *;
      InsertingStart(older, newer, k);
      ReversedLength(newer[k + 1..]);
      while i >= 0
        invariant -1 <= i < |added| && m == |newer| - 1 - i
        invariant Inserting(older, newer, k, m, table, before, txs)
      {
        ReversedAt(newer, k, m);
        txs := InsertOne(added[i], txs, older, newer, k, m, table, before);
        i, m := i - 1, m + 1;
      }
      assert newer[k + 1..m] == newer[k + 1..];
      InsertingMeans(older, newer, k, m, table, before, txs);
    }

    /** Loop state of InsertAll: the new blocks below `m` are in. */
    ghost predicate Inserting(older: seq<Header>, newer: seq<Header>, k: nat, m: nat, table: Table, before: Header,
                              txs: seq<Hash>)
      reads this`canon, this`current, this`headHeader, this`fastBlock, this`lookup
    {
      && k < m && Overlaid(canon, older, newer, m)
      && lookup == table + LookupOf(newer[k + 1..m])
      && current == (if k + 1 < m then newer[m - 1] else before)
      && headHeader == current && fastBlock == current
      && forall t :: t in txs <==> t in TxsOf(newer[k + 1..m])
    }

    lemma InsertingIs(older: seq<Header>, newer: seq<Header>, k: nat, m: nat, table: Table, before: Header,
                      txs: seq<Hash>)
      requires k < m && Overlaid(canon, older, newer, m) && m <= |newer|
      requires lookup == table + LookupOf(newer[k + 1..m])
      requires current == (if k + 1 < m then newer[m - 1] else before)
      requires headHeader == current && fastBlock == current
      requires forall t :: t in txs <==> t in TxsOf(newer[k + 1..m])
      ensures Inserting(older, newer, k, m, table, before, txs)
    {
    }

    lemma InsertingStart(older: seq<Header>, newer: seq<Header>, k: nat)
      requires ForkAt(older, newer, k) && canon == Numbering(older)
      requires headHeader == current && fastBlock == current
      ensures k < |newer| && Inserting(older, newer, k, k + 1, lookup, current, [])
    {
      OverlayStart(older, newer, k);
      InsertStart(newer, k, lookup);
    }

    lemma InsertingMeans(older: seq<Header>, newer: seq<Header>, k: nat, m: nat, table: Table, before: Header,
                         txs: seq<Hash>)
      requires Inserting(older, newer, k, m, table, before, txs)
      ensures k < m <= |newer| && Overlaid(canon, older, newer, m)
      ensures lookup == table + LookupOf(newer[k + 1..m])
      ensures current == (if k + 1 < m then newer[m - 1] else before)
      ensures headHeader == current && fastBlock == current
      ensures forall t :: t in txs <==> t in TxsOf(newer[k + 1..m])
    {
    }

    method InsertOne(block: Header, before': seq<Hash>, ghost older: seq<Header>, ghost newer: seq<Header>,
                     ghost k: nat, ghost m: nat,
                     ghost table: Table, ghost before: Header)
      returns (txs: seq<Hash>)
      requires ForkAt(older, newer, k) && m < |newer| && Numbered(newer) && block == newer[m]
      requires Inserting(older, newer, k, m, table, before, before')
      modifies this`canon, this`current, this`headHeader, this`fastBlock, this`lookup
      ensures Inserting(older, newer, k, m + 1, table, before, txs)
    {
      hide *;
      InsertingMeans(older, newer, k, m, table, before, before');
      InsertStep(canon, older, newer, k, m, table);
      NumberAt(newer, m);
      Insert(block);
      WriteTxLookupEntries(block);
      txs := before' + block.txs;
      InsertingIs(older, newer, k, m + 1, table, before, txs);
    }

    /** The canonical map, lookup table and heads follow the chain of the head. */
    ghost predicate Follows(head: Header)
      reads this`current, this`headHeader, this`fastBlock, this`canon, this`blocks, this`lookup
    {
      && current == head && headHeader == head && fastBlock == head
      && canon == Numbering(Chain(blocks, head))
      && lookup == LookupOf(Chain(blocks, head))
    }

    /** reorg: makes the chain of the new block canonical, moving the lookup table along. */
    method Reorg(block: Header) returns (ok: bool)
      requires Rooted(blocks, genesis)
      requires Stored(blocks, current) && Attached(blocks, genesis, current)
      requires Fits(blocks, block) && Attached(blocks, genesis, block)
      requires Follows(current) && current.number <= block.number
      requires Distinct(TxsOf(Chain(blocks, current)))
      modifies this`canon, this`current, this`headHeader, this`fastBlock, this`lookup
      ensures ok && Follows(block)
    {
      hide *;
      ghost var older, newer := Chain(blocks, current), Chain(blocks, block);
      ReorgFacts(blocks, genesis, current, block);
      assert canon == Numbering(older) && lookup == LookupOf(older) && headHeader == current
          && fastBlock == current by {
        FollowsMeans(current);
      }
      var added, deleted;
      ghost var k;
      ok, added, deleted, k := Fork(blocks, genesis, current, block);
      if !ok {
        return;
      }
      var addedTxs := InsertAll(added, older, newer, k);
      var diff := TxDifference(deleted, addedTxs);
      DeleteEntries(diff);
      OverlayDone(canon, older, newer);
      ReorgTable(older, newer, k, diff);
      ReorgHead(older, newer, k);
      FollowsIs(block, newer);
    }

    lemma FollowsMeans(head: Header)
      requires Follows(head)
      ensures canon == Numbering(Chain(blocks, head)) && lookup == LookupOf(Chain(blocks, head))
      ensures current == head && headHeader == head && fastBlock == head
    {
    }

    lemma FollowsIs(head: Header, chain: seq<Header>)
      requires chain == Chain(blocks, head) && canon == Numbering(chain) && lookup == LookupOf(chain)
      requires current == head && headHeader == head && fastBlock == head
      ensures Follows(head)
    {
    }

    method DeleteEntries(txs: seq<Hash>)
      modifies this`lookup
      ensures lookup == old(lookup) - Members(txs)
    {
      for i := 0 to |txs|
        invariant lookup == old(lookup) - Members(txs[..i])
      {
        assert Members(txs[..i + 1]) == Members(txs[..i]) + {txs[i]};
        lookup := lookup - {txs[i]};
      }
      assert txs[..|txs|] == txs;
    }

    /** WriteBlockAndState without the state: the block is written in a batch after the canonical
        chain has been moved to it. The coin decides between blocks of one height. */
    method WriteBlockAndState(block: Header, coin: bool) returns (status: WriteStatus)
      requires Valid() && Fits(blocks, block)
      requires HasParent(blocks, block) ==> NoRepeats(blocks, block)
      modifies this
      ensures Valid() && !status.ReorgFailed?
      ensures status.UnknownParent? <==> !HasParent(old(blocks), block)
      ensures status.UnknownParent? ==> unchanged(this)
      ensures !status.UnknownParent? ==> blocks == old(blocks)[block.hash := block]
      ensures status.CanonStatus? ==
                (HasParent(old(blocks), block) &&
                (block.number > old(current.number) || (block.number == old(current.number) && coin)))
      ensures current == if status.CanonStatus? then block else old(current)
    {
      hide *;
      ParentLookup(blocks, block);
      var parent := GetHeader(blocks, block.parent, block.number - 1);
      if parent.None? {
        return UnknownParent;
      }
      assert Sound(blocks, td, genesis, current) && Follows(current) by {
        ValidMeans();
      }
      SoundFacts(blocks, td, genesis, current, block);
      var localTd := td[current.hash];
      var externTd := BLOCK_DIFFICULTY + td[block.parent];
      var reorg := externTd > localTd;
      if !reorg && externTd == localTd {
        reorg := block.number < current.number || (block.number == current.number && coin);
      }
      ghost var before, table := current, td;
      td := td[block.hash := externTd];
      if reorg {
        if block.parent != current.hash {
          var ok := Reorg(block);
          if !ok {
            return ReorgFailed;
          }
        }
        status := CanonStatus;
      } else {
        status := SideStatus;
      }
      SoundGrows(blocks, table, genesis, before, block, if reorg then block else before);
      WriteBatch(block, reorg, before);
      FollowsMeans(if reorg then block else before);
      ValidIs();
    }

    lemma ValidMeans()
      requires Valid()
      ensures Sound(blocks, td, genesis, current) && Follows(current)
    {
    }

    lemma ValidIs()
      requires Sound(blocks, td, genesis, current) && Follows(current)
      ensures Valid()
    {
    }

    /** The batched write, and the new head if the block became canonical. */
    method WriteBatch(block: Header, canonical: bool, ghost before: Header)
      requires Rooted(blocks, genesis) && Fits(blocks, block) && HasParent(blocks, block)
      requires Stored(blocks, before) && Attached(blocks, genesis, before)
      requires if canonical && block.parent != before.hash then Follows(block) else Follows(before)
      modifies this`blocks, this`canon, this`current, this`headHeader, this`fastBlock, this`lookup
      ensures blocks == old(blocks)[block.hash := block]
      ensures Follows(if canonical then block else before)
    {
      hide *;
      ghost var older, newer := Chain(blocks, before), Chain(blocks, block);
      ghost var head := if canonical && block.parent != before.hash then block else before;
      BatchFacts(blocks, genesis, before, block);
      FollowsMeans(head);
      blocks := blocks[block.hash := block];
      if canonical {
        WriteTxLookupEntries(block);
        Insert(block);
        FollowsIs(block, newer);
      } else {
        FollowsIs(before, older);
      }
    }
  }

  lemma BatchFacts(blocks: Store, genesis: Header, before: Header, block: Header)
    requires Rooted(blocks, genesis) && Fits(blocks, block) && HasParent(blocks, block)
    requires Stored(blocks, before) && Attached(blocks, genesis, before)
    ensures block.hash != ZERO_HASH
    ensures Chain(blocks[block.hash := block], before) == Chain(blocks, before)
    ensures var newer := Chain(blocks, block);
            && Chain(blocks[block.hash := block], block) == newer
            && Numbering(newer)[block.number := block.hash] == Numbering(newer)
            && block.number in Numbering(newer) && Numbering(newer)[block.number] == block.hash
            && LookupOf(newer) + Entries(block) == LookupOf(newer)
    ensures block.parent == before.hash ==>
              var older, newer := Chain(blocks, before), Chain(blocks, block);
              && block.number !in Numbering(older)
              && Numbering(older)[block.number := block.hash] == Numbering(newer)
              && LookupOf(older) + Entries(block) == LookupOf(newer)
  {
    hide Numbering, LookupOf, Entries;
    var older, newer := Chain(blocks, before), Chain(blocks, block);
    assert Attached(blocks, genesis, block);
    ChainExtends(blocks, genesis, block, before);
    ChainExtends(blocks, genesis, block, block);
    ChainLength(blocks, genesis, block);
    ChainLength(blocks, genesis, before);
    LastFacts(newer, block);
    if block.parent == before.hash {
      assert newer == older + [block];
      AppendFacts(older, block);
    }
  }

  lemma LastFacts(chain: seq<Header>, block: Header)
    requires |chain| == block.number + 1 && chain[block.number] == block
    ensures Numbering(chain)[block.number := block.hash] == Numbering(chain)
    ensures block.number in Numbering(chain) && Numbering(chain)[block.number] == block.hash
    ensures LookupOf(chain) + Entries(block) == LookupOf(chain)
  {
    hide Entries;
    MergeAgain(LookupOf(chain[..|chain| - 1]), Entries(block));
  }

  lemma MergeAgain(x: Table, y: Table)
    ensures x + y + y == x + y
  {
  }

  lemma AppendFacts(chain: seq<Header>, block: Header)
    requires |chain| == block.number
    ensures block.number !in Numbering(chain)
    ensures Numbering(chain)[block.number := block.hash] == Numbering(chain + [block])
    ensures LookupOf(chain) + Entries(block) == LookupOf(chain + [block])
  {
    hide Entries;
    assert (chain + [block])[..block.number] == chain;
  }

  /** The block repeats no transaction of its parent's chain. */
  ghost predicate NoRepeats(blocks: Store, block: Header)
    requires HasParent(blocks, block)
  {
    Distinct(TxsOf(Chain(blocks, blocks[block.parent])) + block.txs)
  }

  /** The blocks reach back to the genesis, total difficulty is that of the height, no block is higher
      than the head, and no chain repeats a transaction. */
  ghost predicate Sound(blocks: Store, td: map<Hash, nat>, genesis: Header, head: Header) {
    && Rooted(blocks, genesis) && Stored(blocks, head)
    && td == (map h | h in blocks :: TotalDifficulty(blocks[h]))
    && (forall h :: h in blocks ==> blocks[h].number <= head.number)
    && (forall h :: h in blocks ==> Distinct(TxsOf(Chain(blocks, blocks[h]))))
  }

  lemma ParentLookup(blocks: Store, block: Header)
    ensures GetHeader(blocks, block.parent, block.number - 1).Some? <==> HasParent(blocks, block)
  {
  }

  lemma SoundHead(blocks: Store, td: map<Hash, nat>, genesis: Header, head: Header)
    requires Sound(blocks, td, genesis, head)
    ensures Rooted(blocks, genesis) && Stored(blocks, head) && Attached(blocks, genesis, head)
    ensures Distinct(TxsOf(Chain(blocks, head)))
  {
    hide Chain, TxsOf, Distinct;
  }

  lemma NumberingFacts(blocks: Store, genesis: Header, head: Header, number: nat)
    requires Rooted(blocks, genesis) && Stored(blocks, head) && Attached(blocks, genesis, head) && number <= head.number
    ensures |Chain(blocks, head)| == head.number + 1
    ensures var block := Chain(blocks, head)[number];
            && number in Numbering(Chain(blocks, head)) && Numbering(Chain(blocks, head))[number] == block.hash
            && block.hash in blocks && blocks[block.hash] == block && block.number == number
    ensures forall n: nat :: n in Numbering(Chain(blocks, head)) <==> n <= head.number
  {
    ChainStored(blocks, genesis, head, number);
    ChainNumber(blocks, genesis, head, number);
    hide Chain, Rooted, Attached;
  }

  lemma SoundFacts(blocks: Store, td: map<Hash, nat>, genesis: Header, head: Header, block: Header)
    requires Sound(blocks, td, genesis, head) && HasParent(blocks, block)
    ensures Rooted(blocks, genesis) && Stored(blocks, head) && Attached(blocks, genesis, head)
    ensures Attached(blocks, genesis, block) && block.number <= head.number + 1
    ensures head.hash in td && td[head.hash] == head.number + 1
    ensures block.parent in td && BLOCK_DIFFICULTY + td[block.parent] == block.number + 1 == TotalDifficulty(block)
    ensures Distinct(TxsOf(Chain(blocks, head)))
  {
    hide Chain, TxsOf, Distinct;
    assert blocks[head.hash] == head;
    assert blocks[block.parent].number == block.number - 1;
  }

  /** Adding a block keeps the store sound, whichever of block and head ends up as the head. */
  lemma SoundGrows(blocks: Store, td: map<Hash, nat>, genesis: Header, head: Header, block: Header, newHead: Header)
    requires Sound(blocks, td, genesis, head) && Fits(blocks, block)
    requires HasParent(blocks, block) && NoRepeats(blocks, block)
    requires newHead == block || newHead == head
    requires head.number <= newHead.number && block.number <= newHead.number
    ensures Sound(blocks[block.hash := block], td[block.hash := BLOCK_DIFFICULTY + td[block.parent]], genesis, newHead)
  {
    hide *;
    SoundFacts(blocks, td, genesis, head, block);
    SoundMeans(blocks, td, genesis, head);
    RootedExtends(blocks, genesis, block);
    ChainsGrow(blocks, genesis, block);
    DifficultyGrows(blocks, td, block, BLOCK_DIFFICULTY + td[block.parent]);
    HeadGrows(blocks, head, block, newHead);
    SoundIs(blocks[block.hash := block], td[block.hash := BLOCK_DIFFICULTY + td[block.parent]], genesis, newHead);
  }

  lemma SoundMeans(blocks: Store, td: map<Hash, nat>, genesis: Header, head: Header)
    requires Sound(blocks, td, genesis, head)
    ensures td == (map h | h in blocks :: TotalDifficulty(blocks[h]))
    ensures forall h :: h in blocks ==> blocks[h].number <= head.number
    ensures forall h :: h in blocks ==> Distinct(TxsOf(Chain(blocks, blocks[h])))
  {
  }

  lemma SoundIs(blocks: Store, td: map<Hash, nat>, genesis: Header, head: Header)
    requires Rooted(blocks, genesis) && Stored(blocks, head)
    requires td == (map h | h in blocks :: TotalDifficulty(blocks[h]))
    requires forall h :: h in blocks ==> blocks[h].number <= head.number
    requires forall h :: h in blocks ==> Distinct(TxsOf(Chain(blocks, blocks[h])))
    ensures Sound(blocks, td, genesis, head)
  {
  }

  lemma HeadGrows(blocks: Store, head: Header, block: Header, newHead: Header)
    requires Stored(blocks, head) && Fits(blocks, block)
    requires forall h :: h in blocks ==> blocks[h].number <= head.number
    requires newHead == block || newHead == head
    requires head.number <= newHead.number && block.number <= newHead.number
    ensures var next := blocks[block.hash := block];
            Stored(next, newHead) && forall h :: h in next ==> next[h].number <= newHead.number
  {
  }

  lemma DifficultyGrows(blocks: Store, td: map<Hash, nat>, block: Header, externTd: nat)
    requires td == (map h | h in blocks :: TotalDifficulty(blocks[h]))
    requires externTd == TotalDifficulty(block)
    ensures var next := blocks[block.hash := block];
            td[block.hash := externTd] == (map h | h in next :: TotalDifficulty(next[h]))
  {
  }

  lemma ChainsGrow(blocks: Store, genesis: Header, block: Header)
    requires Rooted(blocks, genesis) && Fits(blocks, block) && HasParent(blocks, block) && NoRepeats(blocks, block)
    requires forall h :: h in blocks ==> Distinct(TxsOf(Chain(blocks, blocks[h])))
    ensures var next := blocks[block.hash := block];
            forall h :: h in next ==> Distinct(TxsOf(Chain(next, next[h])))
  {
    var next := blocks[block.hash := block];
    assert Attached(blocks, genesis, block);
    hide Distinct;
    forall h | h in next ensures Distinct(TxsOf(Chain(next, next[h]))) {
      assert Attached(blocks, genesis, next[h]);
      ChainExtends(blocks, genesis, block, next[h]);
      if next[h] == block {
        var c := Chain(blocks, block);
        assert c == Chain(blocks, blocks[block.parent]) + [block];
        assert c[..|c| - 1] == Chain(blocks, blocks[block.parent]);
      }
    }
  }

  lemma ReorgFacts(blocks: Store, genesis: Header, current: Header, block: Header)
    requires Rooted(blocks, genesis) && Stored(blocks, current) && Attached(blocks, genesis, current)
    requires Fits(blocks, block) && Attached(blocks, genesis, block) && current.number <= block.number
    ensures var older, newer := Chain(blocks, current), Chain(blocks, block);
            && |older| == current.number + 1 <= |newer| == block.number + 1
            && newer[|newer| - 1] == block && older[|older| - 1] == current
            && Numbered(newer)
  {
    hide *;
    ChainLength(blocks, genesis, current);
    ChainLength(blocks, genesis, block);
    ChainNumbered(blocks, genesis, block);
  }

  lemma ChainNumbered(blocks: Store, genesis: Header, block: Header)
    requires Rooted(blocks, genesis) && Fits(blocks, block) && Attached(blocks, genesis, block)
    ensures Numbered(Chain(blocks, block))
  {
    hide Chain;
    RootedChain(blocks, genesis, block);
    ChainLength(blocks, genesis, block);
    var newer := Chain(blocks, block);
    forall i | 0 <= i < |newer| ensures newer[i].number == i && newer[i].hash != ZERO_HASH {
      ChainNumber(blocks, genesis, block, i);
      assert i < block.number ==> newer[i].hash in blocks;
    }
  }

  lemma ReorgTable(older: seq<Header>, newer: seq<Header>, k: nat, diff: seq<Hash>)
    requires ForkAt(older, newer, k) && Distinct(TxsOf(older))
    requires forall t :: t in diff <==> t in TxsOf(older[k + 1..]) && t !in TxsOf(newer[k + 1..])
    ensures LookupOf(older) + LookupOf(newer[k + 1..]) - Members(diff) == LookupOf(newer)
  {
    hide LookupOf;
    var shared := older[..k + 1];
    assert older == shared + older[k + 1..] && newer == shared + newer[k + 1..];
    TxsConcat(shared, older[k + 1..]);
    DistinctParts(TxsOf(shared), TxsOf(older[k + 1..]));
    LookupReorg(shared, older[k + 1..], newer[k + 1..], Members(diff));
  }

  lemma ReorgHead(older: seq<Header>, newer: seq<Header>, k: nat)
    requires ForkAt(older, newer, k) && |older| <= |newer|
    ensures k + 1 >= |newer| ==> older == newer
  {
    if k + 1 >= |newer| {
      assert older[..k + 1] == older && newer[..k + 1] == newer;
    }
  }

  ghost predicate Numbered(chain: seq<Header>) {
    forall i :: 0 <= i < |chain| ==> chain[i].number == i && chain[i].hash != ZERO_HASH
  }

  lemma NumberAt(chain: seq<Header>, i: nat)
    requires Numbered(chain) && i < |chain|
    ensures chain[i].number == i && chain[i].hash != ZERO_HASH
  {
  }

  lemma ReversedLength(s: seq<Header>)
    ensures |Reversed(s)| == |s|
  {
  }

  lemma ReversedAt(newer: seq<Header>, k: nat, m: nat)
    requires k < m < |newer|
    ensures |Reversed(newer[k + 1..])| == |newer| - 1 - k
    ensures Reversed(newer[k + 1..])[|newer| - 1 - m] == newer[m]
  {
  }

  lemma InsertStart(newer: seq<Header>, k: nat, table: Table)
    requires k < |newer|
    ensures table + LookupOf(newer[k + 1..k + 1]) == table
    ensures TxsOf(newer[k + 1..k + 1]) == []
  {
  }

  lemma InsertStep(canon: map<nat, Hash>, older: seq<Header>, newer: seq<Header>, k: nat, m: nat, table: Table)
    requires ForkAt(older, newer, k) && k < m < |newer| && Overlaid(canon, older, newer, m)
    ensures m + 1 <= |newer| && Overlaid(canon[m := newer[m].hash], older, newer, m + 1)
    ensures m in canon ==> canon[m] != newer[m].hash
    ensures table + LookupOf(newer[k + 1..m]) + Entries(newer[m]) == table + LookupOf(newer[k + 1..m + 1])
    ensures TxsOf(newer[k + 1..m + 1]) == TxsOf(newer[k + 1..m]) + newer[m].txs
  {
    OverlayStep(canon, older, newer, m);
    OverlayFresh(canon, older, newer, k, m);
    var part := newer[k + 1..m + 1];
    assert part[..|part| - 1] == newer[k + 1..m];
    MergeAssociates(table, LookupOf(newer[k + 1..m]), Entries(newer[m]));
  }
}
