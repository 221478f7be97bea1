/** The light client's transaction pool: local transactions are pending or mined, and follow every change of
    the head, also one that breaks off part way. */
module LightPool {
  import opened Base
  import opened Ancestry
  import opened HeaderChain

  /** txPermanent. */
  const TX_PERMANENT: nat := 500

  /** txStateChanges: true for a transaction newly mined, false for one rolled back. */
  type Changes = map<Hash, bool>

  /** setState. */
  function SetState(txc: Changes, x: Hash, mined: bool): (r: Changes) {
    if x in txc && txc[x] != mined then txc - {x} else txc[x := mined]
  }

  /** What is to be reported when the pending transactions were `before` and are `after`. */
  function Diff(before: set<Hash>, after: set<Hash>): (txc: Changes) {
    map x | x in (before - after) + (after - before) :: x in before
  }

  lemma DiffSame(s: set<Hash>)
    ensures Diff(s, s) == map[]
  {
  }

  lemma DiffMined(before: set<Hash>, after: set<Hash>, x: Hash)
    requires x in after
    ensures SetState(Diff(before, after), x, true) == Diff(before, after - {x})
  {
  }

  lemma DiffRolledBack(before: set<Hash>, after: set<Hash>, x: Hash)
    requires x !in after
    ensures SetState(Diff(before, after), x, false) == Diff(before, after + {x})
  {
  }

  type Mined = map<Hash, seq<Hash>>

  predicate InMined(mined: Mined, x: Hash) {
    exists b :: b in mined && x in mined[b]
  }

  /** Every mined list belongs to an ancestor of the head, and no transaction is in two places. */
  ghost predicate Placed(store: Store, head: Header, pending: set<Hash>, mined: Mined) {
    && (forall b :: b in mined ==> b in store && Distinct(mined[b]) && IsAncestor(store, store[b], head))
    && (forall b, x :: b in mined && x in mined[b] ==> x in store[b].txs)
    && (forall b, x :: b in mined && x in mined[b] ==> x !in pending)
    && (forall b, c, x :: b in mined && c in mined && x in mined[b] && x in mined[c] ==> b == c)
  }

  /** The same transactions are tracked. */
  ghost predicate SameTracked(pending: set<Hash>, mined: Mined, pending': set<Hash>, mined': Mined) {
    forall x :: x in pending || InMined(mined, x) <==> x in pending' || InMined(mined', x)
  }

  function Found(txs: seq<Hash>, pending: set<Hash>): (r: seq<Hash>)
    ensures forall x :: x in r <==> x in txs && x in pending
    ensures Distinct(txs) ==> Distinct(r)
  {
    if txs == [] then [] else
      var init, last := Found(txs[..|txs| - 1], pending), txs[|txs| - 1];
      if last in pending then init + [last] else init
  }

  lemma {:induction false} FoundNone(txs: seq<Hash>)
    ensures Found(txs, {}) == []
  {
    if txs != [] {
      FoundNone(txs[..|txs| - 1]);
    }
  }

  function RolledBack(pending: set<Hash>, mined: Mined, b: Hash): (p: set<Hash>) {
    if b in mined then pending + Members(mined[b]) else pending
  }

  /** What the network would answer during a head change: the blocks that can be had, and those whose receipts
      can be had and lookup entries written. */
  datatype Network = Network(blocks: set<Hash>, receipts: set<Hash>)

  predicate Had(net: Network, b: Hash) { b in net.blocks && b in net.receipts }

  /** No pending transaction is in the chain of the head, and none was mined in a block above another that holds
      it. */
  ghost predicate Clean(store: Store, head: Header, pending: set<Hash>, mined: Mined) {
    && (forall a, x :: IsAncestor(store, a, head) && x in a.txs ==> x !in pending)
    && (forall b, x, a :: b in mined && b in store && x in mined[b] && IsAncestor(store, a, store[b]) && x in a.txs ==>
          a == store[b])
  }

  /** So a tracked transaction is pending exactly if no block of the head's chain holds it, and is otherwise
      listed under the first that does. */
  lemma PendingIff(store: Store, genesis: Header, head: Header, pending: set<Hash>, mined: Mined, x: Hash)
    requires Rooted(store, genesis) && Attached(store, genesis, head)
    requires Placed(store, head, pending, mined) && Clean(store, head, pending, mined)
    requires x in pending || InMined(mined, x)
    ensures x in pending <==> forall a :: IsAncestor(store, a, head) ==> x !in a.txs
    ensures forall b :: b in mined && x in mined[b] ==>
              && IsAncestor(store, store[b], head) && x in store[b].txs
              && forall a :: IsAncestor(store, a, head) && x in a.txs ==> a.number >= store[b].number
  {
    hide Chain, IsAncestor, Distinct;
    forall b, a | b in mined && x in mined[b] && IsAncestor(store, a, head) && x in a.txs
      ensures a.number >= store[b].number
    {
      AncestorAt(store, genesis, store[b], head);
      AncestorAt(store, genesis, a, head);
      AncestorBelow(store, genesis, a, head, store[b].number);
    }
  }

  // ---------- Ancestors ----------

  lemma AncestorAt(store: Store, genesis: Header, a: Header, h: Header)
    requires Rooted(store, genesis) && Attached(store, genesis, h)
    ensures |Chain(store, h)| == h.number + 1
    ensures IsAncestor(store, a, h) <==> a.number <= h.number && a == Chain(store, h)[a.number]
  {
    RootedChain(store, genesis, h);
  }

  /** The ancestors of `h` up to height `k` are the ancestors of its ancestor at `k`. */
  lemma AncestorBelow(store: Store, genesis: Header, a: Header, h: Header, k: nat)
    requires Rooted(store, genesis) && Attached(store, genesis, h) && k <= h.number
    ensures |Chain(store, h)| == h.number + 1
    ensures IsAncestor(store, a, Chain(store, h)[k]) <==> IsAncestor(store, a, h) && a.number <= k
  {
    hide Chain;
    AncestorAt(store, genesis, a, h);
    ChainPrefix(store, genesis, h, k);
    var chain := Chain(store, h);
    assert IsAncestor(store, a, chain[k]) <==> a in chain[..k + 1];
    ChainNumbers(store, h);
    if a in chain[..k + 1] {
      var i :| 0 <= i <= k && chain[i] == a;
    }
  }

  lemma ChainNumbers(store: Store, h: Header)
    ensures forall i :: 0 <= i < |Chain(store, h)| ==> Chain(store, h)[i].number == h.number + 1 - |Chain(store, h)| + i
  {
  }

  // ---------- The pool ----------

  class Pool {
    var head: Hash
    var pending: set<Hash>
    var mined: Mined
    var clearIdx: nat

    /** rollbackTxs: the transactions of the block become pending again. */
    method RollbackTxs(hash: Hash, txc: Changes, ghost before: set<Hash>) returns (r: Changes)
      requires txc == Diff(before, pending)
      requires hash in mined ==> Distinct(mined[hash]) && forall x :: x in mined[hash] ==> x !in pending
      modifies this`pending, this`mined
      ensures r == Diff(before, pending)
      ensures mined == old(mined) - {hash}
      ensures pending == RolledBack(old(pending), old(mined), hash)
    {
      r := txc;
      if hash !in mined {
        return;
      }
      var list, i := mined[hash], 0;
      while i < |list|
        invariant 0 <= i <= |list| && mined == old(mined)
        invariant pending == old(pending) + Members(list[..i])
        invariant r == Diff(before, pending)
      {
        assert list[..i + 1] == list[..i] + [list[i]];
        DiffRolledBack(before, pending, list[i]);
        pending := pending + {list[i]};
        r := SetState(r, list[i], false);
        i := i + 1;
      }
      assert list[..i] == list;
      mined := mined - {hash};
    }

    /** checkMinedTxs: pending transactions found in the block become mined, all of them or, when the block
        or its receipts cannot be had, none. */
    method CheckMinedTxs(block: Header, txc: Changes, net: Network, ghost before: set<Hash>) returns (ok: bool,
                         r: Changes)
      requires txc == Diff(before, pending) && block.hash !in mined && Distinct(block.txs)
      modifies this`pending, this`mined
      ensures r == Diff(before, pending)
      ensures ok <==>
                || old(pending) == {}
                || (block.hash in net.blocks &&
                    (block.hash in net.receipts || forall x :: x in block.txs ==> x !in old(pending)))
      ensures ok ==> pending == old(pending) - Members(block.txs)
      ensures block.hash in mined ==> block.hash in net.blocks && block.hash in net.receipts
      ensures var found := Found(block.txs, old(pending));
              if ok && found != [] then
                pending == old(pending) - Members(found) && mined == old(mined)[block.hash := found]
              else
                pending == old(pending) && mined == old(mined)
    {
      r := txc;
      if pending == {} {
        FoundNone(block.txs);
        return true, r;
      }
      if block.hash !in net.blocks {
        return false, r;
      }
      var list, i := [], 0;
      while i < |block.txs|
        invariant 0 <= i <= |block.txs| && list == Found(block.txs[..i], pending)
      {
        assert block.txs[..i + 1][..i] == block.txs[..i];
        if block.txs[i] in pending {
          list := list + [block.txs[i]];
        }
        i := i + 1;
      }
      assert block.txs[..i] == block.txs;
      if list != [] {
        assert list[0] in list;
        if block.hash !in net.receipts {
          return false, r;
        }
        r := MarkMined(list, r, before);
        mined := mined[block.hash := list];
      }
      ok := true;
    }

    method MarkMined(list: seq<Hash>, txc: Changes, ghost before: set<Hash>) returns (r: Changes)
      requires txc == Diff(before, pending) && Distinct(list) && forall x :: x in list ==> x in pending
      modifies this`pending
      ensures r == Diff(before, pending) && pending == old(pending) - Members(list)
    {
      r := txc;
      var i := 0;
      while i < |list|
        invariant 0 <= i <= |list|
        invariant pending == old(pending) - Members(list[..i])
        invariant r == Diff(before, pending)
      {
        assert list[..i + 1] == list[..i] + [list[i]];
        DiffMined(before, pending, list[i]);
        pending := pending - {list[i]};
        r := SetState(r, list[i], true);
        i := i + 1;
      }
      assert list[..i] == list;
    }

    /** The walk of reorgOnNewHead back to a header both chains share. */
    static method Walk(store: Store, ghost genesis: Header, oldHead: Header, newHead: Header)
      returns (base: Header, olds: seq<Hash>, news: seq<Hash>)
      requires Rooted(store, genesis) && Stored(store, oldHead) && Stored(store, newHead)
      ensures Down(store, genesis, oldHead, base, olds) && Down(store, genesis, newHead, base, news)
      ensures Forks(store, oldHead, newHead, base)
    {
      var o, n := oldHead, newHead;
      olds, news := [], [];
      DownStart(store, genesis, oldHead);
      DownStart(store, genesis, newHead);
      UpToStart(store, oldHead, newHead);
      hide *;
      while o.hash != n.hash
        invariant Rooted(store, genesis) && Stored(store, o) && Stored(store, n)
        invariant Down(store, genesis, oldHead, o, olds) && Down(store, genesis, newHead, n, news)
        invariant UpTo(store, oldHead, newHead, o.number) && (o.number > n.number ==> n == newHead)
        decreases o.number + n.number
      {
        GenesisUnique(store, genesis, o, n);
        if o.number >= n.number {
          PassesNoCommon(store, genesis, oldHead, newHead, o, olds, n, news);
          DownStep(store, genesis, oldHead, o, olds);
          olds := olds + [o.hash];
          o := GetHeader(store, o.parent, o.number - 1).value;
        }
        if o.number < n.number {
          DownStep(store, genesis, newHead, n, news);
          news := news + [n.hash];
          var next := GetHeader(store, n.parent, n.number - 1);
          n := if next.Some? then next.value else o;
        }
      }
      SameHash(store, o, n);
      ForksAt(store, genesis, oldHead, newHead, o, olds, news);
      base := o;
    }

    /** Rolls back the blocks above the common one. */
    method RollBackAll(store: Store, ghost genesis: Header, ghost oldHead: Header, ghost base: Header, olds: seq<Hash>,
                       ghost before: set<Hash>) returns (txc: Changes)
      requires Down(store, genesis, oldHead, base, olds) && before == pending
      requires Placed(store, oldHead, pending, mined)
      modifies this`pending, this`mined
      ensures Placed(store, base, pending, mined) && txc == Diff(before, pending)
      ensures SameTracked(old(pending), old(mined), pending, mined)
      ensures forall b :: b in mined ==> b in old(mined)
      ensures old(Clean(store, oldHead, pending, mined)) ==> Clean(store, base, pending, mined)
    {
      hide *;
      txc := map[];
      var i := 0;
      DiffSame(pending);
      TrackedSame(pending, mined);
      RolledStart(pending, mined, olds);
      while i < |olds|
        invariant 0 <= i <= |olds|
        invariant Rolled(old(pending), old(mined), olds, pending, mined)
        invariant Placed(store, oldHead, pending, mined)
        invariant forall b :: b in mined ==> b in old(mined)
        invariant SameTracked(old(pending), old(mined), pending, mined)
        invariant txc == Diff(before, pending)
        invariant forall j :: 0 <= j < i ==> olds[j] !in mined
      {
        PlacedMeans(store, oldHead, pending, mined, olds[i]);
        RollbackPlaced(store, oldHead, pending, mined, olds[i]);
        RolledStep(old(pending), old(mined), olds, pending, mined, i);
        ghost var p, m := pending, mined;
        txc := RollbackTxs(olds[i], txc, before);
        TrackedTrans(old(pending), old(mined), p, m, pending, mined);
        i := i + 1;
      }
      PlacedBelow(store, genesis, oldHead, base, olds, pending, mined);
      RolledClean(store, genesis, oldHead, base, olds, old(pending), old(mined), pending, mined);
    }

    /** Checks the new blocks in order, up to the first that cannot be had. */
    method CheckAll(store: Store, ghost genesis: Header, newHead: Header, ghost base: Header, news: seq<Hash>,
                    net: Network, txc0: Changes, ghost before: set<Hash>) returns (ok: bool, txc: Changes)
      requires Down(store, genesis, newHead, base, news) && head == base.hash
      requires Placed(store, base, pending, mined) && txc0 == Diff(before, pending)
      requires forall h :: h in store ==> Distinct(store[h].txs)
      modifies this`head, this`pending, this`mined
      ensures head in store && IsAncestor(store, store[head], newHead) && store[head].number >= base.number
      ensures ok ==> head == newHead.hash
      ensures Placed(store, store[head], pending, mined) && txc == Diff(before, pending)
      ensures SameTracked(old(pending), old(mined), pending, mined)
      ensures forall b :: b in mined ==> b in old(mined) || (b in store && store[b].number > base.number && Had(net, b))
      ensures AllMined(store, store[head], base.number, pending) && pending <= old(pending)
      ensures pending != {} ==> AllFetched(store, store[head], base.number, net)
      ensures !ok ==> pending != {} && Stuck(store, newHead, head, net)
      ensures old(Clean(store, base, pending, mined)) ==> Clean(store, store[head], pending, mined)
    {
      hide *;
      txc := txc0;
      var i := |news|;
      OnWayStart(store, genesis, newHead, base, news);
      TrackedSame(pending, mined);
      CheckedStart(store, base, pending, net);
      while i > 0
        invariant 0 <= i <= |news| && head in store && OnWay(store, genesis, newHead, head, i)
            && store[head].number >= base.number
        invariant Placed(store, store[head], pending, mined)
        invariant SameTracked(old(pending), old(mined), pending, mined)
        invariant txc == Diff(before, pending) && pending <= old(pending)
        invariant forall b :: b in mined ==>
            b in old(mined) || (b in store && store[b].number > base.number && Had(net, b))
        invariant AllMined(store, store[head], base.number, pending)
        invariant pending != {} ==> AllFetched(store, store[head], base.number, net)
        invariant old(Clean(store, base, pending, mined)) ==> Clean(store, store[head], pending, mined)
      {
        OnWayStep(store, genesis, newHead, base, news, head, i);
        ghost var p, m, from := pending, mined, head;
        ok, txc := CheckNext(store, genesis, news[i - 1], net, txc, before);
        if !ok {
          OnWayMeans(store, genesis, newHead, head, i);
          StuckAt(store, genesis, newHead, head, i, news[i - 1], net);
          return;
        }
        CheckedStep(store, genesis, store[from], store[head], base.number, p, pending, net);
        TrackedTrans(old(pending), old(mined), p, m, pending, mined);
        i := i - 1;
      }
      ok := true;
      OnWayMeans(store, genesis, newHead, head, 0);
    }

    /** One turn of the checking loop. */
    method CheckNext(store: Store, ghost genesis: Header, hash: Hash, net: Network, txc0: Changes,
                     ghost before: set<Hash>)
      returns (ok: bool, txc: Changes)
      requires Rooted(store, genesis) && head in store && hash in store
      requires Stored(store, store[head]) && Stored(store, store[hash]) && store[hash].hash == hash
      requires store[hash].number == store[head].number + 1 && store[hash].parent == store[head].hash
      requires Distinct(store[hash].txs)
      requires Placed(store, store[head], pending, mined) && txc0 == Diff(before, pending)
      modifies this`head, this`pending, this`mined
      ensures txc == Diff(before, pending)
      ensures !ok ==> head == old(head) && pending == old(pending) && mined == old(mined)
      ensures !ok ==> pending != {} && !Had(net, hash)
      ensures ok ==>
                && head == hash && Placed(store, store[hash], pending, mined)
                && SameTracked(old(pending), old(mined), pending, mined)
                && pending == old(pending) - Members(store[hash].txs)
                && (pending != {} ==> hash in net.blocks)
                && forall b :: b in mined ==> b in old(mined) || (b == hash && Had(net, hash))
      ensures ok && old(Clean(store, store[head], pending, mined)) ==> Clean(store, store[hash], pending, mined)
    {
      var block := store[hash];
      hide *;
      CheckPlaced(store, genesis, store[head], block, pending, mined);
      CheckClean(store, genesis, store[head], block, pending, mined);
      HadMeans(net, hash);
      ok, txc := CheckMinedTxs(block, txc0, net, before);
      if ok {
        head := hash;
      }
    }

    /** Forgets the mined lists of canonical blocks more than TX_PERMANENT below the new head. */
    method ClearOld(number: nat, canon: map<nat, Hash>)
      modifies this`mined, this`clearIdx
      ensures if number > old(clearIdx) + TX_PERMANENT
              then clearIdx == number - TX_PERMANENT && Cleared(old(mined), canon, old(clearIdx), clearIdx, mined)
              else clearIdx == old(clearIdx) && mined == old(mined)
    {
      if number > clearIdx + TX_PERMANENT {
        var idx2, i := number - TX_PERMANENT, clearIdx;
        if mined != map[] {
          while i < idx2
            invariant clearIdx <= i <= idx2 && clearIdx == old(clearIdx)
            invariant Cleared(old(mined), canon, clearIdx, i, mined)
          {
            mined := mined - {CanonicalHash(canon, i)};
            i := i + 1;
          }
        }
        clearIdx := idx2;
      }
    }

    /** reorgOnNewHead. `canon` is the number-to-hash map of the database. Whether or not every block could
        be had, the pool ends on the way to the new head with each tracked transaction in one place, and the
        report names exactly the transactions that became mined or became pending. No transaction of a block that
        is new below the head is pending any more, and the change breaks off only at a block that cannot be had.
        `base` is where the chains part. A completed change clears from there on, or from clearIdx if that is
        lower; no mined list is left below clearIdx if none was and the canonical map follows the new head in
        what is cleared. */
    method ReorgOnNewHead(store: Store, ghost genesis: Header, newHead: Header, canon: map<nat, Hash>, net: Network)
      returns (txc: Changes, ok: bool, ghost base: Header)
      requires Rooted(store, genesis) && Stored(store, newHead)
      requires head in store && Placed(store, store[head], pending, mined)
      requires forall h :: h in store ==> Distinct(store[h].txs)
      modifies this
      ensures head in store && IsAncestor(store, store[head], newHead) && (ok ==> head == newHead.hash)
      ensures Placed(store, store[head], pending, mined)
      ensures txc == Diff(old(pending), pending)
      ensures Kept(store, old(pending), old(mined), pending, mined, ok, newHead.number, canon)
      ensures forall a, x ::
                IsAncestor(store, a, store[head]) && !IsAncestor(store, a, store[old(head)]) && x in a.txs ==>
                  x !in pending
      ensures !ok ==> pending != {} && Stuck(store, newHead, head, net)
      ensures pending != {} ==>
                forall a :: IsAncestor(store, a, store[head]) && !IsAncestor(store, a, store[old(head)]) ==>
                  a.hash in net.blocks
      ensures forall b :: b in mined ==> b in old(mined) || Had(net, b)
      ensures old(Clean(store, store[head], pending, mined)) ==> Clean(store, store[head], pending, mined)
      ensures Forks(store, store[old(head)], newHead, base)
      ensures var lo, top := Min(old(clearIdx), base.number), newHead.number - TX_PERMANENT;
              && clearIdx == (if ok && top > lo then top else lo)
              && (forall b :: b in mined && lo < clearIdx ==> !InRange(canon, lo, clearIdx, b))
              && (old(Floor(store, mined, clearIdx)) && (!ok || Agrees(store, newHead, canon, lo)) ==>
                    Floor(store, mined, clearIdx))
    {
      hide *;
      txc, ok, base := Advance(store, genesis, newHead, net);
      HashOfHead(store, newHead);
      if ok {
        ClearAfter(store, genesis, newHead, canon, old(pending), old(mined));
      } else {
        KeptAll(store, old(pending), old(mined), pending, mined, ok, newHead.number, canon);
      }
    }

    /** The head change up to the clearing of old lists. */
    method Advance(store: Store, ghost genesis: Header, newHead: Header, net: Network)
      returns (txc: Changes, ok: bool, ghost base: Header)
      requires Rooted(store, genesis) && Stored(store, newHead)
      requires head in store && Placed(store, store[head], pending, mined)
      requires forall h :: h in store ==> Distinct(store[h].txs)
      modifies this
      ensures head in store && IsAncestor(store, store[head], newHead) && (ok ==> head == newHead.hash)
      ensures Placed(store, store[head], pending, mined)
      ensures txc == Diff(old(pending), pending)
      ensures SameTracked(old(pending), old(mined), pending, mined)
      ensures forall a, x ::
                IsAncestor(store, a, store[head]) && !IsAncestor(store, a, store[old(head)]) && x in a.txs ==>
                  x !in pending
      ensures !ok ==> pending != {} && Stuck(store, newHead, head, net)
      ensures pending != {} ==>
                forall a :: IsAncestor(store, a, store[head]) && !IsAncestor(store, a, store[old(head)]) ==>
                  a.hash in net.blocks
      ensures forall b :: b in mined ==> b in old(mined) || Had(net, b)
      ensures old(Clean(store, store[head], pending, mined)) ==> Clean(store, store[head], pending, mined)
      ensures Forks(store, store[old(head)], newHead, base) && clearIdx == Min(old(clearIdx), base.number)
      ensures old(Floor(store, mined, clearIdx)) ==> Floor(store, mined, clearIdx)
    {
      HeadStored(store, genesis, head);
      var fork, olds, news := Walk(store, genesis, store[head], newHead);
      base := fork;
      hide *;
      DownBase(store, genesis, newHead, base, news);
      if fork.number < clearIdx {
        clearIdx := fork.number;
      }
      ghost var before := pending;
      txc := RollBackAll(store, genesis, store[head], base, olds, before);
      head := fork.hash;
      HashOfHead(store, base);
      ghost var p, m := pending, mined;
      ok, txc := CheckAll(store, genesis, newHead, base, news, net, txc, before);
      TrackedTrans(old(pending), old(mined), p, m, pending, mined);
      NewAreAbove(store, genesis, store[old(head)], newHead, base, olds, news, store[head], pending, net);
      FloorHolds(store, base, old(mined), old(clearIdx), mined, clearIdx);
    }

    /** The end of a completed head change. */
    method ClearAfter(store: Store, ghost genesis: Header, newHead: Header, canon: map<nat, Hash>,
                      ghost p: set<Hash>, ghost m: Mined)
      requires Rooted(store, genesis) && Stored(store, newHead)
      requires Placed(store, newHead, pending, mined) && SameTracked(p, m, pending, mined)
      modifies this`mined, this`clearIdx
      ensures Placed(store, newHead, pending, mined) && Kept(store, p, m, pending, mined, true, newHead.number, canon)
      ensures forall b :: b in mined ==> b in old(mined)
      ensures old(Clean(store, newHead, pending, mined)) ==> Clean(store, newHead, pending, mined)
      ensures clearIdx == Max(old(clearIdx), newHead.number - TX_PERMANENT)
      ensures forall b :: b in mined && old(clearIdx) < clearIdx ==> !InRange(canon, old(clearIdx), clearIdx, b)
      ensures old(Floor(store, mined, clearIdx)) && Agrees(store, newHead, canon, old(clearIdx)) ==>
                Floor(store, mined, clearIdx)
    {
      hide *;
      ghost var lo, full := clearIdx, mined;
      ClearOld(newHead.number, canon);
      if newHead.number > lo + TX_PERMANENT {
        ClearedPlaced(store, newHead, pending, full, canon, lo, clearIdx, mined);
        ClearedClean(store, newHead, pending, full, canon, lo, clearIdx, mined);
        ClearedKept(store, newHead, p, m, pending, full, canon, lo, newHead.number, mined);
        ClearedFloor(store, genesis, newHead, pending, full, canon, lo, mined);
      } else {
        KeptAll(store, p, m, pending, mined, true, newHead.number, canon);
      }
    }

    /** Any run of new headers and head changes, each of which may break off: at the end every transaction
        tracked at the start is in one place still, or was forgotten by a completed change. */
    method Follow(start: Store, ghost genesis: Header, events: seq<Event>) returns (ghost oks: seq<bool>)
      requires Rooted(start, genesis) && AllDistinct(start) && Feasible(start, events)
      requires head in start && Placed(start, start[head], pending, mined)
      modifies this
      ensures var store := StoreAfter(start, events);
              && Rooted(store, genesis) && head in store && Placed(store, store[head], pending, mined)
              && |oks| == |events| && KeptRun(store, old(pending), old(mined), pending, mined, events, oks)
              && (old(Clean(start, start[head], pending, mined)) ==> Clean(store, store[head], pending, mined))
    {
      var store, i := start, 0;
      oks := [];
      hide *;
      RunStart(start, genesis, events, pending, mined);
      while i < |events|
        invariant 0 <= i <= |events| && store == StoreAfter(start, events[..i])
        invariant Rooted(store, genesis) && AllDistinct(store)
        invariant head in store && Placed(store, store[head], pending, mined)
        invariant |oks| == i && KeptRun(store, old(pending), old(mined), pending, mined, events, oks)
        invariant old(Clean(start, start[head], pending, mined)) ==> Clean(store, store[head], pending, mined)
      {
        EventFeasible(start, events, i);
        var e := events[i];
        match e {
          case Grown(h) =>
            HeadStored(store, genesis, head);
            GrownStep(store, genesis, h, store[head], pending, mined);
            GrownClean(store, genesis, h, store[head], pending, mined);
            KeptGrows(store, h, old(pending), old(mined), pending, mined, events, oks);
            oks := oks + [false];
            HeadStays(store, h, head);
            store := store[h.hash := h];
          case HeadChange(h, canon, net) =>
            ghost var p, m := pending, mined;
            DistinctMeans(store);
            var _, ok, _ := ReorgOnNewHead(store, genesis, h, canon, net);
            KeptStep(store, old(pending), old(mined), p, m, pending, mined, events, oks, ok);
            oks := oks + [ok];
        }
        i := i + 1;
      }
      RunEnd(events);
    }
  }

  /** What happens around the pool: the database gains a header, or the chain announces a head. */
  datatype Event = Grown(header: Header) | HeadChange(header: Header, canon: map<nat, Hash>, net: Network)

  function StoreAfter(store: Store, events: seq<Event>): (r: Store) {
    if events == [] then store else
      var before, e := StoreAfter(store, events[..|events| - 1]), events[|events| - 1];
      if e.Grown? then before[e.header.hash := e.header] else before
  }

  ghost predicate AllDistinct(store: Store) {
    forall h :: h in store ==> Distinct(store[h].txs)
  }

  /** Headers come after their parents and blocks repeat no transaction; announced heads are stored. */
  ghost predicate Fitting(store: Store, e: Event) {
    match e
    case Grown(h) => Fits(store, h) && HasParent(store, h) && Distinct(h.txs)
    case HeadChange(h, _, _) => Stored(store, h)
  }

  ghost predicate Feasible(store: Store, events: seq<Event>) {
    forall i :: 0 <= i < |events| ==> Fitting(StoreAfter(store, events[..i]), events[i])
  }

  /** The event is a head change that completed, if `ok`, and forgot the transaction. */
  ghost predicate ForgottenBy(store: Store, e: Event, ok: bool, x: Hash) {
    e.HeadChange? && Forgotten(store, ok, e.header.number, e.canon, x)
  }

  ghost predicate ForgottenIn(store: Store, events: seq<Event>, oks: seq<bool>, x: Hash) {
    exists i :: 0 <= i < |oks| && i < |events| && ForgottenBy(store, events[i], oks[i], x)
  }

  ghost predicate KeptRun(store: Store, pending: set<Hash>, mined: Mined, pending': set<Hash>, mined': Mined,
                          events: seq<Event>, oks: seq<bool>) {
    && (forall x :: x in pending' || InMined(mined', x) ==> x in pending || InMined(mined, x))
    && (forall x :: x in pending || InMined(mined, x) ==>
          x in pending' || InMined(mined', x) || ForgottenIn(store, events, oks, x))
  }

  lemma RunStart(start: Store, genesis: Header, events: seq<Event>, pending: set<Hash>, mined: Mined)
    ensures StoreAfter(start, events[..0]) == start
    ensures KeptRun(start, pending, mined, pending, mined, events, [])
  {
    hide InMined, ForgottenIn;
  }

  lemma RunEnd(events: seq<Event>)
    ensures events[..|events|] == events
  {
  }

  lemma EventFeasible(start: Store, events: seq<Event>, i: nat)
    requires Feasible(start, events) && i < |events|
    ensures var store, e := StoreAfter(start, events[..i]), events[i];
            && StoreAfter(start, events[..i + 1]) == (if e.Grown? then store[e.header.hash := e.header] else store)
            && (e.Grown? ==> Fits(store, e.header) && HasParent(store, e.header) && Distinct(e.header.txs))
            && (e.HeadChange? ==> Stored(store, e.header))
  {
    assert events[..i + 1][..i] == events[..i];
    assert Fitting(StoreAfter(start, events[..i]), events[i]);
    hide Fits, HasParent, Distinct, Stored;
  }

  lemma DistinctMeans(store: Store)
    requires AllDistinct(store)
    ensures forall h :: h in store ==> Distinct(store[h].txs)
  {
  }

  lemma HeadStays(store: Store, h: Header, head: Hash)
    requires Fits(store, h) && head in store
    ensures head in store[h.hash := h] && store[h.hash := h][head] == store[head]
  {
  }

  lemma GrownStep(store: Store, genesis: Header, h: Header, head: Header, pending: set<Hash>, mined: Mined)
    requires Rooted(store, genesis) && AllDistinct(store) && Fits(store, h) && HasParent(store, h) && Distinct(h.txs)
    requires Placed(store, head, pending, mined) && Stored(store, head)
    ensures Rooted(store[h.hash := h], genesis) && AllDistinct(store[h.hash := h])
    ensures Placed(store[h.hash := h], head, pending, mined)
  {
    assert Attached(store, genesis, head) && Attached(store, genesis, h);
    hide Distinct, Placed, HasParent, Attached;
    RootedExtends(store, genesis, h);
    PlacedGrows(store, genesis, h, head, pending, mined);
  }

  /** A forgotten transaction stays forgotten as the database grows. */
  lemma KeptGrows(store: Store, h: Header, p: set<Hash>, m: Mined, p': set<Hash>, m': Mined, events: seq<Event>,
                  oks: seq<bool>)
    requires Fits(store, h) && KeptRun(store, p, m, p', m', events, oks)
    requires |oks| < |events| && events[|oks|].Grown?
    ensures KeptRun(store[h.hash := h], p, m, p', m', events, oks + [false])
  {
    hide InMined, InRange;
    var next, more := store[h.hash := h], oks + [false];
    forall x | ForgottenIn(store, events, oks, x) ensures ForgottenIn(next, events, more, x) {
      var i :| 0 <= i < |oks| && i < |events| && ForgottenBy(store, events[i], oks[i], x);
      var e := events[i];
      var b :| InRange(e.canon, 0, e.header.number - TX_PERMANENT, b) && b in store && x in store[b].txs;
      assert b in next && x in next[b].txs;
      assert ForgottenBy(next, events[i], more[i], x);
    }
  }

  lemma KeptStep(store: Store, p: set<Hash>, m: Mined, p1: set<Hash>, m1: Mined, p2: set<Hash>, m2: Mined,
                 events: seq<Event>, oks: seq<bool>, ok: bool)
    requires KeptRun(store, p, m, p1, m1, events, oks) && |oks| < |events| && events[|oks|].HeadChange?
    requires Kept(store, p1, m1, p2, m2, ok, events[|oks|].header.number, events[|oks|].canon)
    ensures KeptRun(store, p, m, p2, m2, events, oks + [ok])
  {
    hide InMined;
    var n, more := |oks|, oks + [ok];
    forall x | ForgottenIn(store, events, oks, x) ensures ForgottenIn(store, events, more, x) {
      var i :| 0 <= i < |oks| && i < |events| && ForgottenBy(store, events[i], oks[i], x);
      assert more[i] == oks[i];
    }
    forall x | Forgotten(store, ok, events[n].header.number, events[n].canon, x)
        ensures ForgottenIn(store, events, more, x) {
      assert ForgottenBy(store, events[n], more[n], x);
    }
  }

  /** GetCanonicalHash: the zero hash where the database has none. */
  function CanonicalHash(canon: map<nat, Hash>, i: nat): (h: Hash) { if i in canon then canon[i] else ZERO_HASH }

  ghost predicate InRange(canon: map<nat, Hash>, lo: nat, hi: nat, b: Hash) {
    exists i :: lo <= i < hi && CanonicalHash(canon, i) == b
  }

  /** `rest` is `mined` without the canonical blocks from `lo` up to `hi`. */
  ghost predicate Cleared(mined: Mined, canon: map<nat, Hash>, lo: nat, hi: nat, rest: Mined) {
    && (forall b :: b in rest <==> b in mined && !InRange(canon, lo, hi, b))
    && (forall b :: b in rest ==> rest[b] == mined[b])
  }

  /** No mined list lies below `n`. */
  ghost predicate Floor(store: Store, mined: Mined, n: nat) {
    forall b :: b in mined ==> b in store && store[b].number >= n
  }

  /** From `lo` up to TX_PERMANENT below the header the canonical map follows its chain. */
  ghost predicate Agrees(store: Store, h: Header, canon: map<nat, Hash>, lo: nat) {
    forall i :: lo <= i < |Chain(store, h)| && i < h.number - TX_PERMANENT ==>
      i in canon && canon[i] == Chain(store, h)[i].hash
  }

  /** A completed head change may forget the transactions of canonical blocks more than TX_PERMANENT below
      the head. */
  ghost predicate Forgotten(store: Store, ok: bool, number: nat, canon: map<nat, Hash>, x: Hash) {
    && ok && number > TX_PERMANENT
    && exists b :: InRange(canon, 0, number - TX_PERMANENT, b) && b in store && x in store[b].txs
  }

  /** No transaction is new, and none is lost but the forgotten. */
  ghost predicate Kept(store: Store, pending: set<Hash>, mined: Mined, pending': set<Hash>, mined': Mined,
                       ok: bool, number: nat, canon: map<nat, Hash>) {
    && (forall x :: x in pending' || InMined(mined', x) ==> x in pending || InMined(mined, x))
    && (forall x :: x in pending || InMined(mined, x) ==>
          x in pending' || InMined(mined', x) || Forgotten(store, ok, number, canon, x))
  }

  /** `at` is the header on the way to `newHead` that has `left` more above it. */
  ghost predicate OnWay(store: Store, genesis: Header, newHead: Header, at: Hash, left: nat) {
    && Rooted(store, genesis) && Attached(store, genesis, newHead) && Stored(store, newHead) && left <= newHead.number
    && |Chain(store, newHead)| == newHead.number + 1
    && at in store && store[at] == Chain(store, newHead)[newHead.number - left]
  }

  /** The walk from `head` has come to `h`, with the hashes passed, `h` not included, in `passed`. */
  ghost predicate Down(store: Store, genesis: Header, head: Header, h: Header, passed: seq<Hash>) {
    && Rooted(store, genesis) && Stored(store, h) && Stored(store, head) && IsAncestor(store, h, head)
    && Attached(store, genesis, head)
    && |Chain(store, head)| == head.number + 1
    && |passed| == head.number - h.number
    && forall j :: 0 <= j < |passed| ==> passed[j] == Chain(store, head)[head.number - j].hash
  }

  /** `base` is where the two chains part: its ancestors are exactly their common ones. */
  ghost predicate Forks(store: Store, a: Header, b: Header, base: Header) {
    forall c :: IsAncestor(store, c, base) <==> Common(store, a, b, c)
  }

  /** No common ancestor is above `n`. */
  ghost predicate UpTo(store: Store, a: Header, b: Header, n: nat) {
    forall c :: Common(store, a, b, c) ==> c.number <= n
  }

  lemma UpToStart(store: Store, a: Header, b: Header)
    ensures UpTo(store, a, b, a.number)
  {
    forall c | Common(store, a, b, c) ensures c.number <= a.number {
      AncestorNumber(store, c, a);
    }
  }

  lemma NotCommon(store: Store, genesis: Header, oldHead: Header, newHead: Header, o: Header, n: Header, c: Header)
    requires Rooted(store, genesis) && Attached(store, genesis, oldHead) && Attached(store, genesis, newHead)
    requires IsAncestor(store, o, oldHead) && IsAncestor(store, n, newHead) && o.hash != n.hash
    requires o.number == n.number || (o.number > n.number && n == newHead)
    requires IsAncestor(store, c, oldHead) && IsAncestor(store, c, newHead)
    ensures c.number != o.number
  {
    hide *;
    AncestorAt(store, genesis, c, oldHead);
    AncestorAt(store, genesis, o, oldHead);
    AncestorAt(store, genesis, c, newHead);
    AncestorAt(store, genesis, n, newHead);
  }

  lemma PassesNoCommon(store: Store, genesis: Header, oldHead: Header, newHead: Header, o: Header, olds: seq<Hash>,
                       n: Header, news: seq<Hash>)
    requires Down(store, genesis, oldHead, o, olds) && Down(store, genesis, newHead, n, news)
    requires UpTo(store, oldHead, newHead, o.number) && o.hash != n.hash && o.number >= n.number
    requires o.number > n.number ==> n == newHead
    ensures o.number > 0 ==> UpTo(store, oldHead, newHead, o.number - 1)
  {
    DownIs(store, genesis, oldHead, o, olds);
    DownIs(store, genesis, newHead, n, news);
    hide Chain, IsAncestor, Down, Rooted, Attached, Stored;
    forall c | Common(store, oldHead, newHead, c) ensures c.number < o.number {
      NotCommon(store, genesis, oldHead, newHead, o, n, c);
    }
  }

  lemma ForksAt(store: Store, genesis: Header, oldHead: Header, newHead: Header, base: Header, olds: seq<Hash>,
                news: seq<Hash>)
    requires Down(store, genesis, oldHead, base, olds) && Down(store, genesis, newHead, base, news)
    requires UpTo(store, oldHead, newHead, base.number)
    ensures Forks(store, oldHead, newHead, base)
  {
    DownIs(store, genesis, oldHead, base, olds);
    DownIs(store, genesis, newHead, base, news);
    hide Chain, IsAncestor, Down, Rooted, Attached;
    AncestorAt(store, genesis, base, oldHead);
    AncestorAt(store, genesis, base, newHead);
    forall c ensures IsAncestor(store, c, base) <==> Common(store, oldHead, newHead, c) {
      AncestorBelow(store, genesis, c, oldHead, base.number);
      AncestorBelow(store, genesis, c, newHead, base.number);
    }
  }

  // ---------- What is mined ----------

  /** No transaction of a block of the chain above height `n` is pending. */
  ghost predicate AllMined(store: Store, head: Header, n: nat, pending: set<Hash>) {
    forall a, x :: IsAncestor(store, a, head) && a.number > n && x in a.txs ==> x !in pending
  }

  ghost predicate AllFetched(store: Store, head: Header, n: nat, net: Network) {
    forall a :: IsAncestor(store, a, head) && a.number > n ==> a.hash in net.blocks
  }

  /** The next block on the way cannot be had. */
  ghost predicate Stuck(store: Store, newHead: Header, at: Hash, net: Network) {
    exists a :: IsAncestor(store, a, newHead) && a.parent == at && !Had(net, a.hash)
  }

  lemma HadMeans(net: Network, b: Hash)
    ensures Had(net, b) <==> b in net.blocks && b in net.receipts
  {
  }

  lemma CheckedStart(store: Store, base: Header, pending: set<Hash>, net: Network)
    ensures AllMined(store, base, base.number, pending) && AllFetched(store, base, base.number, net)
  {
    forall a | IsAncestor(store, a, base) ensures a.number <= base.number {
      AncestorNumber(store, a, base);
    }
  }

  lemma CheckedStep(store: Store, genesis: Header, cur: Header, block: Header, n: nat, before: set<Hash>,
                    pending: set<Hash>, net: Network)
    requires Rooted(store, genesis) && Stored(store, cur) && Stored(store, block)
    requires block.parent == cur.hash && block.number == cur.number + 1
    requires AllMined(store, cur, n, before) && (before != {} ==> AllFetched(store, cur, n, net))
    requires pending == before - Members(block.txs) && (pending != {} ==> block.hash in net.blocks)
    ensures AllMined(store, block, n, pending) && (pending != {} ==> AllFetched(store, block, n, net))
  {
    forall a | IsAncestor(store, a, block) ensures a == block || IsAncestor(store, a, cur) {
      AncestorStep(store, a, block);
    }
    hide IsAncestor;
  }

  lemma StuckAt(store: Store, genesis: Header, newHead: Header, at: Hash, left: nat, next: Hash, net: Network)
    requires Rooted(store, genesis) && at in store && left > 0
    requires OnWay(store, genesis, newHead, next, left - 1) && next in store && store[next].hash == next
    requires store[next].parent == store[at].hash && !Had(net, next)
    ensures Stuck(store, newHead, at, net)
  {
    OnWayMeans(store, genesis, newHead, next, left - 1);
    assert store[at].hash == at;
    hide *;
    StuckBy(store, newHead, at, net, store[next]);
  }

  lemma StuckBy(store: Store, newHead: Header, at: Hash, net: Network, a: Header)
    requires IsAncestor(store, a, newHead) && a.parent == at && !Had(net, a.hash)
    ensures Stuck(store, newHead, at, net)
  {
    hide IsAncestor;
  }

  /** What is new below the head lies above where the chains part. */
  lemma NewAreAbove(store: Store, genesis: Header, oldHead: Header, newHead: Header, base: Header, olds: seq<Hash>,
                    news: seq<Hash>, head: Header, pending: set<Hash>, net: Network)
    requires Down(store, genesis, oldHead, base, olds) && Down(store, genesis, newHead, base, news)
    requires Stored(store, head) && IsAncestor(store, head, newHead) && head.number >= base.number
    requires AllMined(store, head, base.number, pending)
    requires pending != {} ==> AllFetched(store, head, base.number, net)
    ensures forall a, x :: IsAncestor(store, a, head) && !IsAncestor(store, a, oldHead) && x in a.txs ==> x !in pending
    ensures pending != {} ==>
              forall a :: IsAncestor(store, a, head) && !IsAncestor(store, a, oldHead) ==> a.hash in net.blocks
  {
    DownIs(store, genesis, oldHead, base, olds);
    DownIs(store, genesis, newHead, base, news);
    hide Chain, IsAncestor, Down, Rooted, Attached, Stored;
    AncestorAt(store, genesis, base, oldHead);
    AncestorAt(store, genesis, base, newHead);
    AncestorAt(store, genesis, head, newHead);
    forall a | IsAncestor(store, a, head) && !IsAncestor(store, a, oldHead) ensures a.number > base.number {
      AncestorBelow(store, genesis, a, newHead, head.number);
      AncestorBelow(store, genesis, a, newHead, base.number);
      AncestorBelow(store, genesis, a, oldHead, base.number);
    }
  }

  /** Only transactions of the rolled back blocks have become pending, and the other lists stand. */
  ghost predicate Rolled(p: set<Hash>, m: Mined, olds: seq<Hash>, p': set<Hash>, m': Mined) {
    && (forall x :: x in p' && x !in p ==> exists b :: b in olds && b in m && x in m[b])
    && (forall b :: b in m' ==> b in m && m'[b] == m[b])
  }

  lemma RolledStart(p: set<Hash>, m: Mined, olds: seq<Hash>)
    ensures Rolled(p, m, olds, p, m)
  {
  }

  lemma RolledStep(p: set<Hash>, m: Mined, olds: seq<Hash>, p': set<Hash>, m': Mined, i: nat)
    requires Rolled(p, m, olds, p', m') && i < |olds|
    ensures Rolled(p, m, olds, RolledBack(p', m', olds[i]), m' - {olds[i]})
  {
  }

  lemma RolledClean(store: Store, genesis: Header, head: Header, base: Header, olds: seq<Hash>, p: set<Hash>, m: Mined,
                    p': set<Hash>, m': Mined)
    requires Down(store, genesis, head, base, olds) && Placed(store, head, p, m) && Rolled(p, m, olds, p', m')
    ensures Clean(store, head, p, m) ==> Clean(store, base, p', m')
  {
    if Clean(store, head, p, m) {
      DownIs(store, genesis, head, base, olds);
      hide Chain, IsAncestor, Rooted, Attached, Stored, Distinct;
      AncestorAt(store, genesis, base, head);
      forall a, x | IsAncestor(store, a, base) && x in a.txs ensures x !in p' {
        AncestorBelow(store, genesis, a, head, base.number);
        if x in p' {
          var b :| b in olds && b in m && x in m[b];
          RolledAbove(store, genesis, head, base, olds, b, a);
        }
      }
    }
  }

  /** An ancestor of the base is one of any rolled back block, and another header. */
  lemma RolledAbove(store: Store, genesis: Header, head: Header, base: Header, olds: seq<Hash>, b: Hash, a: Header)
    requires Down(store, genesis, head, base, olds) && b in olds && b in store && IsAncestor(store, a, base)
    ensures IsAncestor(store, a, store[b]) && a != store[b]
  {
    DownIs(store, genesis, head, base, olds);
    var j :| 0 <= j < |olds| && olds[j] == b;
    DownMeans(store, genesis, head, base, olds, j);
    hide *;
    var k := head.number - j;
    ChainStored(store, genesis, head, k);
    ChainNumber(store, genesis, head, k);
    KeyIsHash(store, genesis, Chain(store, head)[k]);
    AncestorAt(store, genesis, base, head);
    AncestorBelow(store, genesis, a, head, base.number);
    AncestorBelow(store, genesis, a, head, k);
  }

  lemma CheckClean(store: Store, genesis: Header, cur: Header, block: Header, pending: set<Hash>, mined: Mined)
    requires Stored(store, cur) && Stored(store, block) && Rooted(store, genesis)
    requires block.parent == cur.hash && block.number == cur.number + 1 && block.hash !in mined
    ensures Clean(store, cur, pending, mined) ==>
              var found := Found(block.txs, pending);
              var p := pending - Members(found);
              && (found == [] ==> Clean(store, block, pending, mined))
              && (found != [] ==> Clean(store, block, p, mined[block.hash := found]))
  {
    forall a ensures IsAncestor(store, a, block) <==> a == block || IsAncestor(store, a, cur) {
      AncestorStep(store, a, block);
    }
    hide IsAncestor;
  }

  lemma ClearedClean(store: Store, head: Header, pending: set<Hash>, mined: Mined, canon: map<nat, Hash>, lo: nat,
                     hi: nat, rest: Mined)
    requires Cleared(mined, canon, lo, hi, rest)
    ensures Clean(store, head, pending, mined) ==> Clean(store, head, pending, rest)
    ensures forall b :: b in rest ==> b in mined && !InRange(canon, lo, hi, b)
  {
    hide InRange, IsAncestor;
  }

  lemma GrownClean(store: Store, genesis: Header, h: Header, head: Header, pending: set<Hash>, mined: Mined)
    requires Rooted(store, genesis) && Fits(store, h) && Stored(store, head) && Placed(store, head, pending, mined)
    ensures Clean(store, head, pending, mined) ==> Clean(store[h.hash := h], head, pending, mined)
  {
    var next := store[h.hash := h];
    assert Attached(store, genesis, head);
    ChainExtends(store, genesis, h, head);
    forall b | b in mined ensures Chain(next, next[b]) == Chain(store, store[b]) {
      assert Attached(store, genesis, store[b]);
      ChainExtends(store, genesis, h, store[b]);
    }
    hide Chain, Distinct;
  }

  lemma DownStart(store: Store, genesis: Header, head: Header)
    requires Rooted(store, genesis) && Stored(store, head)
    ensures Down(store, genesis, head, head, [])
  {
    RootedChain(store, genesis, head);
  }

  lemma DownStep(store: Store, genesis: Header, head: Header, h: Header, passed: seq<Hash>)
    requires Down(store, genesis, head, h, passed) && h.number > 0
    ensures GetHeader(store, h.parent, h.number - 1).Some?
    ensures var p := GetHeader(store, h.parent, h.number - 1).value;
            p.number == h.number - 1 && Stored(store, p) && Down(store, genesis, head, p, passed + [h.hash])
  {
    hide *;
    DownIs(store, genesis, head, h, passed);
    AncestorAt(store, genesis, h, head);
    ParentOf(store, genesis, h);
    var p := GetHeader(store, h.parent, h.number - 1).value;
    AncestorBelow(store, genesis, p, head, h.number);
    DownExtend(store, genesis, head, h, passed, p);
  }

  lemma ParentOf(store: Store, genesis: Header, h: Header)
    requires Rooted(store, genesis) && Stored(store, h) && h.number > 0
    ensures GetHeader(store, h.parent, h.number - 1).Some?
    ensures var p := GetHeader(store, h.parent, h.number - 1).value;
            p.number == h.number - 1 && Stored(store, p) && IsAncestor(store, p, h)
  {
    assert Attached(store, genesis, h);
    var p := store[h.parent];
    AncestorStep(store, p, h);
    AncestorStep(store, p, p);
    hide Chain;
  }

  lemma DownExtend(store: Store, genesis: Header, head: Header, h: Header, passed: seq<Hash>, p: Header)
    requires Down(store, genesis, head, h, passed) && h.number > 0 && |Chain(store, head)| == head.number + 1
    requires h.number <= head.number && h == Chain(store, head)[h.number]
    requires p.number == h.number - 1 && Stored(store, p) && IsAncestor(store, p, head)
    ensures Down(store, genesis, head, p, passed + [h.hash])
  {
    hide Rooted, Attached, Stored, IsAncestor, Chain;
  }

  lemma GenesisUnique(store: Store, genesis: Header, a: Header, b: Header)
    requires Rooted(store, genesis) && Stored(store, a) && Stored(store, b) && a.hash != b.hash
    ensures a.number > 0 || b.number > 0
  {
    assert Attached(store, genesis, a) && Attached(store, genesis, b);
  }

  lemma SameHash(store: Store, a: Header, b: Header)
    requires Stored(store, a) && Stored(store, b) && a.hash == b.hash
    ensures a == b
  {
  }

  lemma OnWayStart(store: Store, genesis: Header, newHead: Header, base: Header, news: seq<Hash>)
    requires Down(store, genesis, newHead, base, news)
    ensures base.hash in store && store[base.hash] == base && OnWay(store, genesis, newHead, base.hash, |news|)
  {
    DownIs(store, genesis, newHead, base, news);
    hide *;
    HashOfHead(store, base);
    AncestorAt(store, genesis, base, newHead);
    OnWayFrom(store, genesis, newHead, base.hash, |news|);
  }

  lemma DownIs(store: Store, genesis: Header, head: Header, h: Header, passed: seq<Hash>)
    requires Down(store, genesis, head, h, passed)
    ensures Rooted(store, genesis) && Stored(store, h) && Stored(store, head) && IsAncestor(store, h, head)
    ensures Attached(store, genesis, head) && |passed| == head.number - h.number
  {
    hide Rooted, Attached, Stored, IsAncestor, Chain;
  }

  lemma OnWayMeans(store: Store, genesis: Header, newHead: Header, at: Hash, left: nat)
    requires OnWay(store, genesis, newHead, at, left)
    ensures at in store && IsAncestor(store, store[at], newHead) && (left == 0 ==> at == newHead.hash)
  {
  }

  lemma DownMeans(store: Store, genesis: Header, head: Header, base: Header, passed: seq<Hash>, j: nat)
    requires Down(store, genesis, head, base, passed) && j < |passed|
    ensures j <= head.number && |Chain(store, head)| == head.number + 1
        && passed[j] == Chain(store, head)[head.number - j].hash
  {
    hide Chain, Rooted, Attached, Stored, IsAncestor;
  }

  lemma OnWayIs(store: Store, genesis: Header, head: Header, at: Hash, left: nat)
    requires OnWay(store, genesis, head, at, left)
    ensures Rooted(store, genesis) && Attached(store, genesis, head) && Stored(store, head) && left <= head.number
    ensures |Chain(store, head)| == head.number + 1 && at in store
        && store[at] == Chain(store, head)[head.number - left]
  {
    hide Chain, Rooted, Attached, Stored, IsAncestor;
  }

  lemma OnWayFrom(store: Store, genesis: Header, head: Header, at: Hash, left: nat)
    requires Rooted(store, genesis) && Attached(store, genesis, head) && Stored(store, head) && left <= head.number
    requires |Chain(store, head)| == head.number + 1 && at in store
        && store[at] == Chain(store, head)[head.number - left]
    ensures OnWay(store, genesis, head, at, left)
  {
    hide Chain, Rooted, Attached, Stored, IsAncestor;
  }

  lemma KeyIsHash(store: Store, genesis: Header, h: Header)
    requires Rooted(store, genesis) && Stored(store, h)
    ensures h.hash in store && store[h.hash] == h && forall x :: x in store && store[x] == h ==> x == h.hash
  {
  }

  lemma OnWayStep(store: Store, genesis: Header, newHead: Header, base: Header, news: seq<Hash>, at: Hash, left: nat)
    requires Down(store, genesis, newHead, base, news) && OnWay(store, genesis, newHead, at, left) && 0 < left <= |news|
    ensures at in store && Stored(store, store[at]) && Rooted(store, genesis)
    ensures news[left - 1] in store && OnWay(store, genesis, newHead, news[left - 1], left - 1)
    ensures var block := store[news[left - 1]];
            && Stored(store, block) && block.hash == news[left - 1]
            && block.number == store[at].number + 1 && block.parent == store[at].hash
  {
    hide *;
    DownMeans(store, genesis, newHead, base, news, left - 1);
    OnWayIs(store, genesis, newHead, at, left);
    var k := newHead.number - left;
    ChainStored(store, genesis, newHead, k);
    ChainStored(store, genesis, newHead, k + 1);
    ChainNumber(store, genesis, newHead, k);
    ParentBelow(store, genesis, newHead, k + 1);
    KeyIsHash(store, genesis, Chain(store, newHead)[k + 1]);
    OnWayFrom(store, genesis, newHead, news[left - 1], left - 1);
  }

  lemma TrackedSame(pending: set<Hash>, mined: Mined)
    ensures SameTracked(pending, mined, pending, mined)
  {
  }

  lemma TrackedTrans(p: set<Hash>, m: Mined, p1: set<Hash>, m1: Mined, p2: set<Hash>, m2: Mined)
    requires SameTracked(p, m, p1, m1) && SameTracked(p1, m1, p2, m2)
    ensures SameTracked(p, m, p2, m2)
  {
    hide InMined;
  }

  lemma PlacedMeans(store: Store, head: Header, pending: set<Hash>, mined: Mined, b: Hash)
    requires Placed(store, head, pending, mined)
    ensures b in mined ==> Distinct(mined[b]) && forall x :: x in mined[b] ==> x !in pending
  {
  }

  lemma RollbackPlaced(store: Store, head: Header, pending: set<Hash>, mined: Mined, b: Hash)
    requires Placed(store, head, pending, mined)
    ensures var p := RolledBack(pending, mined, b);
            Placed(store, head, p, mined - {b}) && SameTracked(pending, mined, p, mined - {b})
  {
    hide IsAncestor, Distinct;
    var p, m := RolledBack(pending, mined, b), mined - {b};
    forall x ensures x in pending || InMined(mined, x) <==> x in p || InMined(m, x) {
      if InMined(mined, x) {
        var c :| c in mined && x in mined[c];
        assert c != b ==> c in m && x in m[c];
      }
      if InMined(m, x) {
        var c :| c in m && x in m[c];
        assert c in mined && x in mined[c];
      }
    }
  }

  lemma AbovePassed(store: Store, genesis: Header, head: Header, base: Header, passed: seq<Hash>, a: Header)
    requires Down(store, genesis, head, base, passed) && IsAncestor(store, a, head) && a.number > base.number
    ensures a.hash in passed
  {
    hide *;
    DownIs(store, genesis, head, base, passed);
    AncestorAt(store, genesis, a, head);
    DownMeans(store, genesis, head, base, passed, head.number - a.number);
  }

  lemma PlacedBelow(store: Store, genesis: Header, head: Header, base: Header, passed: seq<Hash>, pending: set<Hash>,
                    mined: Mined)
    requires Down(store, genesis, head, base, passed) && Placed(store, head, pending, mined)
    requires forall j :: 0 <= j < |passed| ==> passed[j] !in mined
    ensures Placed(store, base, pending, mined)
  {
    hide Chain, Distinct, IsAncestor;
    forall b | b in mined ensures IsAncestor(store, store[b], base) {
      var a := store[b];
      AncestorAt(store, genesis, a, head);
      AncestorAt(store, genesis, base, head);
      AncestorBelow(store, genesis, a, head, base.number);
      if a.number > base.number {
        AbovePassed(store, genesis, head, base, passed, a);
      }
    }
  }

  lemma CheckPlaced(store: Store, genesis: Header, cur: Header, block: Header, pending: set<Hash>, mined: Mined)
    requires Placed(store, cur, pending, mined) && Stored(store, cur) && Stored(store, block)
    requires Rooted(store, genesis) && block.parent == cur.hash && block.number == cur.number + 1 && Distinct(block.txs)
    ensures block.hash !in mined
    ensures Placed(store, block, pending, mined) && SameTracked(pending, mined, pending, mined)
    ensures var found := Found(block.txs, pending);
            var p, m := pending - Members(found), mined[block.hash := found];
            found != [] ==> Placed(store, block, p, m) && SameTracked(pending, mined, p, m)
  {
    hide Chain, Distinct;
    forall b | b in mined ensures b != block.hash && IsAncestor(store, store[b], block) {
      AncestorNumber(store, store[b], cur);
      AncestorStep(store, store[b], block);
    }
    AncestorStep(store, block, block);
    hide IsAncestor;
    CheckTracked(block, pending, mined);
  }

  lemma CheckTracked(block: Header, pending: set<Hash>, mined: Mined)
    requires block.hash !in mined
    ensures var found := Found(block.txs, pending);
            SameTracked(pending, mined, pending - Members(found), mined[block.hash := found])
  {
    var found := Found(block.txs, pending);
    var p, m := pending - Members(found), mined[block.hash := found];
    forall x ensures x in pending || InMined(mined, x) <==> x in p || InMined(m, x) {
      if InMined(mined, x) {
        var c :| c in mined && x in mined[c];
        assert c in m && x in m[c];
      }
      if x in found {
        assert block.hash in m && x in m[block.hash];
      }
    }
  }

  lemma HeadStored(store: Store, genesis: Header, head: Hash)
    requires Rooted(store, genesis) && head in store
    ensures Stored(store, store[head])
  {
  }

  lemma HashOfHead(store: Store, h: Header)
    requires Stored(store, h)
    ensures h.hash in store && store[h.hash] == h
  {
  }

  lemma DownBase(store: Store, genesis: Header, head: Header, base: Header, passed: seq<Hash>)
    requires Down(store, genesis, head, base, passed)
    ensures Stored(store, base) && base.hash in store
  {
    hide Chain, Rooted, Attached;
  }

  lemma FloorHolds(store: Store, base: Header, mined: Mined, lo: nat, mined': Mined, lo': nat)
    requires lo' <= lo && lo' <= base.number
    requires forall b :: b in mined' ==> b in mined || (b in store && store[b].number > base.number)
    ensures Floor(store, mined, lo) ==> Floor(store, mined', lo')
  {
  }

  lemma KeptAll(store: Store, p: set<Hash>, m: Mined, p': set<Hash>, m': Mined, ok: bool, number: nat,
                canon: map<nat, Hash>)
    requires SameTracked(p, m, p', m')
    ensures Kept(store, p, m, p', m', ok, number, canon)
  {
    hide InMined, Forgotten;
  }

  lemma ClearedPlaced(store: Store, head: Header, pending: set<Hash>, mined: Mined, canon: map<nat, Hash>, lo: nat,
                      hi: nat, rest: Mined)
    requires Placed(store, head, pending, mined) && Cleared(mined, canon, lo, hi, rest)
    ensures Placed(store, head, pending, rest)
  {
    hide InRange, IsAncestor, Distinct;
  }

  lemma ClearedKept(store: Store, head: Header, p: set<Hash>, m: Mined, pending: set<Hash>, mined: Mined,
                    canon: map<nat, Hash>, lo: nat, number: nat, rest: Mined)
    requires SameTracked(p, m, pending, mined) && Placed(store, head, pending, mined) && number > lo + TX_PERMANENT
    requires Cleared(mined, canon, lo, number - TX_PERMANENT, rest)
    ensures Kept(store, p, m, pending, rest, true, number, canon)
  {
    hide IsAncestor, Distinct;
    forall x | InMined(rest, x) ensures InMined(mined, x) {
      var b :| b in rest && x in rest[b];
      assert b in mined && x in mined[b];
    }
    forall x | InMined(mined, x) ensures InMined(rest, x) || Forgotten(store, true, number, canon, x) {
      var b :| b in mined && x in mined[b];
      if InRange(canon, lo, number - TX_PERMANENT, b) {
        assert InRange(canon, 0, number - TX_PERMANENT, b) && b in store && x in store[b].txs;
      } else {
        assert b in rest && x in rest[b];
      }
    }
  }

  lemma ClearedFloor(store: Store, genesis: Header, head: Header, pending: set<Hash>, mined: Mined,
                     canon: map<nat, Hash>, lo: nat, rest: Mined)
    requires Rooted(store, genesis) && Stored(store, head) && head.number > lo + TX_PERMANENT
    requires Placed(store, head, pending, mined) && Cleared(mined, canon, lo, head.number - TX_PERMANENT, rest)
    ensures Floor(store, mined, lo) && Agrees(store, head, canon, lo) ==> Floor(store, rest, head.number - TX_PERMANENT)
  {
    var hi := head.number - TX_PERMANENT;
    if Floor(store, mined, lo) && Agrees(store, head, canon, lo) {
      forall b | b in rest ensures store[b].number >= hi {
        var a := store[b];
        assert a.hash == b && Attached(store, genesis, head);
        AncestorAt(store, genesis, a, head);
        assert a.number < hi ==> CanonicalHash(canon, a.number) == b;
      }
    }
  }

  /** A new header in the store moves no transaction. */
  lemma PlacedGrows(store: Store, genesis: Header, new': Header, head: Header, pending: set<Hash>, mined: Mined)
    requires Rooted(store, genesis) && Fits(store, new') && Attached(store, genesis, head)
    requires Placed(store, head, pending, mined)
    ensures Placed(store[new'.hash := new'], head, pending, mined)
  {
    ChainExtends(store, genesis, new', head);
    hide Chain, Distinct;
  }
}
