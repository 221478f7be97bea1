/** The transaction pool: pending and queued lists per account, and the two limits on them. */
module TxPool {
  import opened Base
  import opened Transactions
  import opened MapSum
  import opened PendingLevels
  import opened QueueShed
  import GoSort
  import TxList

  lemma LargestExists(m: map<Address, nat>)
    requires m != map[]
    ensures exists a :: a in m && forall b :: b in m ==> m[b] <= m[a]
  {
    var _ := Largest(m);
  }

  lemma {:induction false} Largest(m: map<Address, nat>) returns (a: Address)
    requires m != map[]
    ensures a in m && forall b :: b in m ==> m[b] <= m[a]
    decreases |m|
  {
    var x :| x in m;
    var rest := m - {x};
    assert m.Keys == rest.Keys + {x};
    a := x;
    if rest != map[] {
      var c: Address := Largest(rest);
      if m[x] <= m[c] {
        a := c;
      }
    }
    forall b | b in m ensures m[b] <= m[a] {
      assert b == x || b in rest;
    }
  }

  class Pool {
    const accountSlots: nat
    const globalSlots: nat
    const globalQueue: nat
    const priceBump: Uint64
    const locals: set<Address>
    var pending: Lists
    var queue: Lists
    var beats: map<Address, nat>
    var all: map<Hash, Tx>
    var nonces: map<Address, Uint64>

    /** The counting loops of promoteExecutables. */
    static method Count(lists: Lists) returns (n: nat)
      ensures n == Total(lists)
    {
      n := 0;
      var todo := lists.Keys;
      ghost var seen: Lists := map[];
      while todo != {}
        invariant todo <= lists.Keys
        invariant seen == (map a | a in lists && a !in todo :: lists[a])
        invariant n == Total(seen)
      {
        var a :| a in todo;
        assert Lengths(seen[a := lists[a]]) == Lengths(seen)[a := |lists[a]|];
        SumInsert(Lengths(seen), a, |lists[a]|);
        seen := seen[a := lists[a]];
        n := n + |lists[a]|;
        todo := todo - {a};
      }
      assert seen == lists;
    }

    ghost function Now(): (s: Snapshot)
      reads this
    {
      Snapshot(pending, all, nonces)
    }

    /** Drops the highest nonce of one account: list.Cap(list.Len() - 1) and its bookkeeping. */
    method Trim(a: Address, count: nat, ghost start: Snapshot) returns (left: nat)
      requires a in pending && pending[a] != []
      requires Settled(start, pending, all, nonces) && Sorted(start.pending)
      requires count == Total(pending)
      modifies this`pending, this`all, this`nonces
      ensures Settled(start, pending, all, nonces)
      ensures pending == old(pending)[a := old(pending[a])[..|old(pending[a])| - 1]]
      ensures left == Total(pending)
    {
      hide *;
      var list := pending[a];
      var tx := list[|list| - 1];
      SettledTrim(start, pending, all, nonces, a);
      TotalUpdate(pending, a, list[..|list| - 1]);
      TotalNonNegative(pending);
      left := count - 1;
      pending := pending[a := list[..|list| - 1]];
      all := all - {tx.hash};
      nonces := nonces[a := Lowered(nonces[a], tx)];
    }

    /** Drops the highest nonce of each account in `who`. */
    method TrimRound(who: seq<Address>, count: nat, ghost start: Snapshot) returns (left: nat)
      requires Distinct(who)
      requires forall a :: a in who ==> a in pending && pending[a] != []
      requires Settled(start, pending, all, nonces) && Sorted(start.pending)
      requires count == Total(pending)
      modifies this`pending, this`all, this`nonces
      ensures Settled(start, pending, all, nonces)
      ensures pending == Trimmed(old(pending), Members(who))
      ensures left == Total(pending)
    {
      left := count;
      ghost var p := pending;
      TrimmedNone(p, who);
      hide Settled, Total, Trimmed, Members, Sorted, Distinct;
      for i := 0 to |who|
        invariant Settled(start, pending, all, nonces)
        invariant pending == Trimmed(p, Members(who[..i]))
        invariant left == Total(pending)
      {
        TrimmedNext(p, who, i);
        left := Trim(who[i], left, start);
      }
    }

    /** Where the levelling loops stand: one level for all, counted right, and not a nonce too low. */
    ghost predicate Standing(start: Snapshot, level: nat, count: int)
      reads this
    {
      && Settled(start, pending, all, nonces)
      && pending == Leveled(start.pending, locals, level)
      && Tight(start.pending, locals, globalSlots, level)
      && count == Total(pending)
    }

    lemma StandingLength(group: seq<Address>, threshold: nat, count: nat, start: Snapshot, level: nat)
      requires Group(start.pending, locals, group, level, threshold) && group != []
      requires Standing(start, level, count)
      ensures group[|group| - 1] in pending && |pending[group[|group| - 1]]| == level
    {
      hide Settled, Total, Tight;
      assert group[|group| - 1] in group;
    }

    /** One pass of a levelling loop: every account of the group loses its highest nonce. */
    method LowerLevel(group: seq<Address>, ghost threshold: nat, count: nat, ghost start: Snapshot, ghost level: nat)
      returns (left: nat)
      requires group != [] && Distinct(group) && threshold <= level
      requires Group(start.pending, locals, group, level, threshold) && Sorted(start.pending)
      requires Standing(start, level, count) && count > globalSlots
      requires group[|group| - 1] in pending && |pending[group[|group| - 1]]| > threshold
      modifies this`pending, this`all, this`nonces
      ensures threshold < level
      ensures Group(start.pending, locals, group, level - 1, threshold)
      ensures Standing(start, level - 1, left)
      ensures group[|group| - 1] in pending && |pending[group[|group| - 1]]| == level - 1
    {
      hide Settled, Total, Tight, Leveled, Trimmed, Group, Members;
      ghost var cur := pending;
      GroupRound(start.pending, locals, globalSlots, group, level, threshold, cur);
      left := TrimRound(group, count, start);
      StandingLength(group, threshold, left, start, level - 1);
    }

    /** The two levelling loops have one shape: while over the limit and the last account of the
        group is above the threshold, every account of the group loses its highest nonce. */
    method LevelTo(group: seq<Address>, threshold: nat, count: nat, ghost start: Snapshot, ghost level: nat)
      returns (left: nat, ghost reached: nat)
      requires group != [] && Distinct(group) && threshold <= level
      requires Group(start.pending, locals, group, level, threshold) && Sorted(start.pending)
      requires Standing(start, level, count)
      modifies this`pending, this`all, this`nonces
      ensures threshold <= reached <= level
      ensures Standing(start, reached, left)
      ensures left <= globalSlots || reached == threshold
    {
      hide *;
      left, reached := count, level;
      StandingLength(group, threshold, count, start, level);
      while left > globalSlots && |pending[group[|group| - 1]]| > threshold
        invariant threshold <= reached <= level
        invariant Standing(start, reached, left)
        invariant Group(start.pending, locals, group, reached, threshold)
        invariant group[|group| - 1] in pending && |pending[group[|group| - 1]]| == reached
        decreases reached
      {
        left := LowerLevel(group, threshold, left, start, reached);
        reached := reached - 1;
      }
    }

    /** Pops the account with the longest list off the priority queue of spammers. */
    static method PopLargest(spammers: map<Address, nat>) returns (a: Address, rest: map<Address, nat>)
      requires spammers != map[]
      ensures a in spammers && rest == spammers - {a}
      ensures forall b :: b in spammers ==> spammers[b] <= spammers[a]
    {
      LargestExists(spammers);
      a :| a in spammers && forall b :: b in spammers ==> spammers[b] <= spammers[a];
      rest := spammers - {a};
    }

    /** The offender loop: accounts join the offenders longest first, and the earlier ones are
        levelled down to each newcomer. */
    method Gather(count: nat, ghost start: Snapshot) returns (left: nat, offenders: seq<Address>, ghost level: nat)
      requires start == Now() && Sorted(pending) && pending.Keys <= nonces.Keys
      requires count == Total(pending)
      modifies this`pending, this`all, this`nonces
      ensures Distinct(offenders)
      ensures Standing(start, level, left) && level >= accountSlots
      ensures left <= globalSlots || Group(start.pending, locals, offenders, level, accountSlots)
    {
      var spammers: map<Address, nat> :=
        map a | a in pending && a !in locals && |pending[a]| > accountSlots :: |pending[a]|;
      left, offenders := count, [];
      level := accountSlots + count;
      GatherStart(start, level);
      while left > globalSlots && spammers != map[]
        invariant Distinct(offenders)
        invariant level >= accountSlots && Standing(start, level, left)
        invariant Queue(start.pending, locals, accountSlots, spammers, offenders, level)
        invariant left > globalSlots ==> forall a :: a in offenders ==> |start.pending[a]| >= level
        decreases |spammers|
      {
        left, spammers, offenders, level := Admit(left, spammers, offenders, start, level);
      }
      if left > globalSlots {
        QueueDrained(start.pending, locals, accountSlots, offenders, level);
      }
    }

    lemma GatherStart(start: Snapshot, level: nat)
      requires start == Now() && pending.Keys <= nonces.Keys
      requires level == accountSlots + Total(pending)
      ensures Standing(start, level, Total(pending))
    {
      TotalNonNegative(pending);
      HighLevelKeepsAll(pending, locals, level);
      SettledStart(pending, all, nonces);
    }

    /** One turn of the offender loop. */
    method Admit(count: nat, queue: map<Address, nat>, admitted: seq<Address>, ghost start: Snapshot, ghost level: nat)
      returns (left: nat, spammers: map<Address, nat>, offenders: seq<Address>, ghost reached: nat)
      requires queue != map[] && Distinct(admitted) && Sorted(start.pending)
      requires level >= accountSlots && Standing(start, level, count)
      requires Queue(start.pending, locals, accountSlots, queue, admitted, level)
      requires forall a :: a in admitted ==> |start.pending[a]| >= level
      modifies this`pending, this`all, this`nonces
      ensures |spammers| < |queue| && Distinct(offenders)
      ensures reached >= accountSlots && Standing(start, reached, left)
      ensures Queue(start.pending, locals, accountSlots, spammers, offenders, reached)
      ensures left > globalSlots ==> forall a :: a in offenders ==> |start.pending[a]| >= reached
    {
      var offender;
      offender, spammers := PopLargest(queue);
      offenders := admitted + [offender];
      hide *;
      QueueLength(count, queue, admitted, start, level, offender);
      QueueNext(start.pending, locals, accountSlots, queue, admitted, level, offender);
      if |offenders| > 1 {
        assert offenders[..|offenders| - 1] == admitted;
        var threshold := |pending[offender]|;
        left, reached := LevelTo(offenders[..|offenders| - 1], threshold, count, start, level);
      } else {
        FirstOffender(count, queue, start, level, offender);
        left, reached := count, |start.pending[offender]|;
      }
      QueueAfter(start.pending, locals, accountSlots, queue, admitted, level, offender, reached);
      if left > globalSlots {
        OffendersReach(admitted, offender, start.pending, level, reached);
      }
    }

    lemma QueueLength(count: nat, queue: map<Address, nat>, admitted: seq<Address>, start: Snapshot, level: nat,
                      offender: Address)
      requires Standing(start, level, count)
      requires Queue(start.pending, locals, accountSlots, queue, admitted, level) && offender in queue
      ensures offender in pending && offender in start.pending
      ensures pending[offender] == start.pending[offender]
    {
    }

    lemma FirstOffender(count: nat, queue: map<Address, nat>, start: Snapshot, level: nat, offender: Address)
      requires Standing(start, level, count) && level >= accountSlots
      requires Queue(start.pending, locals, accountSlots, queue, [], level)
      requires offender in queue && forall b :: b in queue ==> queue[b] <= queue[offender]
      ensures offender in start.pending && Standing(start, |start.pending[offender]|, count)
    {
      hide Settled, Total, Prefix;
      FirstLevel(start.pending, locals, accountSlots, queue, level, offender);
    }

    /** Lines 1197-1271 of promoteExecutables: at the end there is one level for all. */
    method EqualizePending() returns (ghost level: nat)
      requires Sorted(pending) && pending.Keys <= nonces.Keys
      modifies this`pending, this`all, this`nonces
      ensures WaterLevel(old(pending), locals, accountSlots, globalSlots, level)
      ensures pending == Leveled(old(pending), locals, level)
      ensures Settled(Snapshot(old(pending), old(all), old(nonces)), pending, all, nonces)
    {
      ghost var start := Now();
      var count := Count(pending);
      level := accountSlots + count;
      GatherStart(start, level);
      if count > globalSlots {
        var offenders;
        count, offenders, level := Gather(count, start);
        if count > globalSlots {
          if |offenders| > 0 {
            count, level := LevelTo(offenders, accountSlots, count, start, level);
          } else {
            NobodyLarge(count, start, level);
            level := accountSlots;
          }
        }
      }
    }

    lemma NobodyLarge(count: nat, start: Snapshot, level: nat)
      requires Standing(start, level, count) && level >= accountSlots
      requires Group(start.pending, locals, [], level, accountSlots)
      ensures Standing(start, accountSlots, count)
    {
      HighLevelKeepsAll(start.pending, locals, level);
      HighLevelKeepsAll(start.pending, locals, accountSlots);
    }

    // ---------- The queue limit ----------

    /** enqueueTx: the sender's queued list takes the transaction unless an older one is better, which is
        an error; says whether it took the place of another. */
    method EnqueueTx(tx: Tx) returns (replaced: bool, ok: bool)
      modifies this`queue, this`all
      ensures ok == Takes(ListAt(old(queue), tx.sender), tx, priceBump)
      ensures replaced == (ok && Lookup(ListAt(old(queue), tx.sender), tx.nonce).Some?)
      ensures (queue, all) == Enqueued(old(queue), old(all), tx, priceBump)
    {
      var list := if tx.sender in queue then queue[tx.sender] else [];
      var prior := Lookup(list, tx.nonce);
      if prior.Some? && !TxList.Replaces(prior.value, tx, priceBump) {
        return false, false;
      }
      queue := queue[tx.sender := InsertTx(list, tx)];
      if prior.Some? {
        all := all - {prior.value.hash};
      }
      all := all[tx.hash := tx];
      return prior.Some?, true;
    }

    /** removeTx. A pending transaction takes the later ones of its account along; these go back to
        the queue, in some order, only if the pending list does not become empty. */
    method RemoveTx(hash: Hash) returns (ghost order: seq<Tx>)
      modifies this`pending, this`queue, this`beats, this`all, this`nonces
      ensures hash !in old(all) ==>
                unchanged(this`pending, this`queue, this`beats, this`all, this`nonces)
      ensures hash in old(all) && !old(IsPending(all[hash])) ==>
                && unchanged(this`pending, this`beats, this`nonces)
                && all == old(all) - {hash}
                && queue == Dequeued(old(queue), old(all)[hash].sender, old(all)[hash].nonce)
      ensures hash in old(all) && old(IsPending(all[hash])) ==>
                var tx := old(all)[hash];
                var a, list := tx.sender, old(pending)[tx.sender];
                var kept := LowerPart(list, tx.nonce);
                && nonces == (if a in old(nonces) then old(nonces)[a := Lowered(old(nonces)[a], tx)] else old(nonces))
                && if kept == [] then
                     pending == old(pending) - {a} && beats == old(beats) - {a} && queue == old(queue)
                         && all == old(all) - {hash}
                   else
                     && pending == old(pending)[a := kept] && beats == old(beats)
                     && Distinct(order) && (forall t :: t in order <==> t in UpperPart(list, tx.nonce))
                     && (queue, all) == EnqueuedAll(old(queue), old(all) - {hash}, order, priceBump)
    {
      hide LowerPart, UpperPart, Lookup, EnqueuedAll, Lowered, DropNonce, Distinct;
      order := [];
      if hash !in all {
        return;
      }
      var tx := all[hash];
      var a := tx.sender;
      all := all - {hash};
      if a in pending && Lookup(pending[a], tx.nonce).Some? {
        var kept, invalids := LowerPart(pending[a], tx.nonce), UpperPart(pending[a], tx.nonce);
        if kept == [] {
          pending, beats := pending - {a}, beats - {a};
        } else {
          pending := pending[a := kept];
          order := Requeue(invalids);
        }
        if a in nonces {
          nonces := nonces[a := Lowered(nonces[a], tx)];
        }
        return;
      }
      if a in queue {
        var list := DropNonce(queue[a], tx.nonce);
        queue := if list == [] then queue - {a} else queue[a := list];
      }
    }

    /** Postpones the invalidated transactions, which the map iteration yields in no particular order. */
    method Requeue(invalids: seq<Tx>) returns (ghost order: seq<Tx>)
      modifies this`queue, this`all
      ensures Distinct(order) && forall t :: t in order <==> t in invalids
      ensures (queue, all) == EnqueuedAll(old(queue), old(all), order, priceBump)
    {
      order := [];
      var todo := set tx | tx in invalids;
      while todo != {}
        invariant todo <= set tx | tx in invalids
        invariant Distinct(order) && forall t :: t in order <==> t in invalids && t !in todo
        invariant (queue, all) == EnqueuedAll(old(queue), old(all), order, priceBump)
      {
        hide Enqueued;
        var tx :| tx in todo;
        var _, _ := EnqueueTx(tx);
        todo := todo - {tx};
        assert (order + [tx])[..|order|] == order;
        order := order + [tx];
      }
    }

    predicate IsPending(tx: Tx)
      reads this
    {
      tx.sender in pending && Lookup(pending[tx.sender], tx.nonce).Some?
    }

    /** What queue limiting relies on: queued lists are sorted and non-empty, their transactions are
        known under their hash, and their nonces are not pending. */
    ghost predicate QueueReady()
      reads this
    {
      forall a :: a in queue ==> Queued(queue[a], a, all, pending)
    }

    /** Removes the queued transaction at index `i` of an account's list. */
    method RemoveQueued(a: Address, i: nat)
      requires QueueReady() && a in queue && i < |queue[a]|
      modifies this`pending, this`queue, this`beats, this`all, this`nonces
      ensures QueueReady()
      ensures unchanged(this`pending, this`beats, this`nonces)
      ensures var list := old(queue[a]);
              && queue == (if |list| == 1 then old(queue) - {a} else old(queue)[a := list[..i] + list[i + 1..]])
              && all == old(all) - {list[i].hash}
    {
      ghost var list := queue[a];
      QueuedAt(list, a, all, pending, i);
      DropAt(list, i);
      var _ := RemoveTx(queue[a][i].hash);
      QueueShrunk(old(queue), a, i, old(all), pending);
    }

    /** Drops an account's whole list. */
    method DropWhole(a: Address)
      requires QueueReady() && a in queue
      modifies this`pending, this`queue, this`beats, this`all, this`nonces
      ensures QueueReady()
      ensures unchanged(this`pending, this`beats, this`nonces)
      ensures queue == old(queue) - {a}
      ensures all == old(all) - Hashes(old(queue[a]))
    {
      var txs := queue[a];
      for i := 0 to |txs|
        invariant QueueReady()
        invariant unchanged(this`pending, this`beats, this`nonces)
        invariant queue == if i == |txs| then old(queue) - {a} else old(queue)[a := txs[i..]]
        invariant all == old(all) - Hashes(txs[..i])
      {
        HashesNext(old(all), txs, i);
        RemoveQueued(a, 0);
      }
      assert txs[..|txs|] == txs;
    }

    /** Drops the last `drop` transactions of an account's list, highest nonce first. */
    method DropTail(a: Address, drop: nat)
      requires QueueReady() && a in queue && drop < |queue[a]|
      modifies this`pending, this`queue, this`beats, this`all, this`nonces
      ensures QueueReady()
      ensures unchanged(this`pending, this`beats, this`nonces)
      ensures queue == old(queue)[a := old(queue[a])[..|old(queue[a])| - drop]]
      ensures all == old(all) - Hashes(old(queue[a])[|old(queue[a])| - drop..])
    {
      var txs := queue[a];
      assert txs[..|txs|] == txs;
      var i, left := |txs| - 1, drop;
      while i >= 0 && left > 0
        invariant 0 <= left <= drop && i == |txs| - 1 - (drop - left)
        invariant QueueReady()
        invariant unchanged(this`pending, this`beats, this`nonces)
        invariant queue == old(queue)[a := txs[..i + 1]]
        invariant all == old(all) - Hashes(txs[i + 1..])
      {
        HashesPrev(old(all), txs, i);
        RemoveQueued(a, i);
        i, left := i - 1, left - 1;
      }
    }

    /** The last sign of life of an account; an account without one has the zero time. */
    function Beat(): (f: Address -> int)
      reads this
    {
      var b := beats;
      (a: Address) => if a in b then b[a] else 0
    }

    /** The non-local accounts with queued transactions, longest silent first. */
    method ByHeartbeat() returns (order: seq<Address>)
      ensures Distinct(order)
      ensures forall a :: a in order <==> a in queue && a !in locals
      ensures GoSort.SortedBy(order, Beat()) && SilentFirst(order, beats)
    {
      var addresses: seq<Address> := [];
      var todo := queue.Keys;
      while todo != {}
        invariant todo <= queue.Keys
        invariant Distinct(addresses)
        invariant forall a :: a in addresses <==> a in queue && a !in todo && a !in locals
      {
        var a :| a in todo;
        todo := todo - {a};
        if a !in locals {
          addresses := addresses + [a];
        }
      }
      order := GoSort.Sort(addresses, Beat());
      DistinctCount(addresses);
      CountDistinct(order);
      forall a ensures a in order <==> a in addresses {
        assert a in order <==> a in multiset(order);
        assert a in addresses <==> a in multiset(addresses);
      }
      forall i, j | 0 <= i < j < |order| ensures !Outlasts(beats, order[j], order[i]) {
        assert Beat()(order[i]) <= Beat()(order[j]);
      }
    }

    /** The dropping loop: from the most recently active account on, whole lists while they fit into
        the overflow, then the tail of one list. */
    method ShedQueue(order: seq<Address>, overflow: nat)
      requires QueueReady() && Distinct(order)
      requires forall a :: a in order ==> a in queue
      modifies this`pending, this`queue, this`beats, this`all, this`nonces
      ensures QueueReady()
      ensures unchanged(this`pending, this`beats, this`nonces)
      ensures queue == Shed(old(queue), order, overflow)
      ensures all == old(all) - GoneHashes(old(queue), queue)
    {
      var addresses, drop := order, overflow;
      ghost var q0, all0 := queue, all;
      assert GoneHashes(q0, q0) == {};
      while drop > 0 && |addresses| > 0
        invariant QueueReady() && Distinct(addresses)
        invariant unchanged(this`pending, this`beats, this`nonces)
        invariant forall a :: a in addresses ==> a in queue && a in q0 && queue[a] == q0[a]
        invariant forall a :: a in q0 ==> Ascending(q0[a])
        invariant Shed(q0, order, overflow) == Shed(queue, addresses, drop)
        invariant all == all0 - GoneHashes(q0, queue)
        decreases |addresses|
      {
        addresses, drop := ShedOne(addresses, drop, q0, all0);
      }
    }

    /** One turn of the dropping loop. */
    method ShedOne(order: seq<Address>, overflow: nat, ghost q0: Lists, ghost all0: map<Hash, Tx>)
      returns (rest: seq<Address>, drop: nat)
      requires QueueReady() && Distinct(order) && order != [] && overflow > 0
      requires forall a :: a in order ==> a in queue && a in q0 && queue[a] == q0[a]
      requires forall a :: a in q0 ==> Ascending(q0[a])
      requires all == all0 - GoneHashes(q0, queue)
      modifies this`pending, this`queue, this`beats, this`all, this`nonces
      ensures QueueReady() && Distinct(rest) && |rest| < |order|
      ensures unchanged(this`pending, this`beats, this`nonces)
      ensures forall a :: a in rest ==> a in queue && a in q0 && queue[a] == q0[a]
      ensures Shed(queue, rest, drop) == Shed(old(queue), order, overflow)
      ensures all == all0 - GoneHashes(q0, queue)
    {
      var a := order[|order| - 1];
      rest := order[..|order| - 1];
      assert a in order && a !in rest;
      hide GoneHashes, Hashes, Queued, QueueReady;
      var size := |queue[a]|;
      if size <= overflow {
        GoneWhole(q0, queue, a);
        MinusMinus(all0, GoneHashes(q0, queue), Hashes(q0[a]));
        DropWhole(a);
        drop := overflow - size;
      } else {
        GoneTail(q0, queue, a, size - overflow);
        MinusMinus(all0, GoneHashes(q0, queue), Hashes(q0[a][size - overflow..]));
        DropTail(a, overflow);
        drop := 0;
      }
    }

    /** Lines 1272-1312 of promoteExecutables. */
    method LimitQueue() returns (ghost order: seq<Address>)
      requires QueueReady()
      modifies this`pending, this`queue, this`beats, this`all, this`nonces
      ensures QueueReady()
      ensures unchanged(this`pending, this`beats, this`nonces)
      ensures Distinct(order) && SilentFirst(order, beats)
      ensures forall a :: a in order <==> a in old(queue) && a !in locals
      ensures var excess := Total(old(queue)) - globalQueue;
              queue == if excess > 0 then Shed(old(queue), order, excess) else old(queue)
      ensures BusyLoseFirst(old(queue), locals, beats, queue)
      ensures all == old(all) - GoneHashes(old(queue), queue)
    {
      var accounts := ByHeartbeat();
      order := accounts;
      var queued := Count(queue);
      assert GoneHashes(queue, queue) == {};
      assert BusyLoseFirst(queue, locals, beats, queue);
      hide Shed, GoneHashes, SilentFirst, BusyLoseFirst, Queued, Distinct;
      if queued > globalQueue {
        ShedBusyFirst(queue, locals, order, beats, queued - globalQueue);
        ShedQueue(accounts, queued - globalQueue);
      }
    }

    ghost predicate Consistent()
      reads this
    {
      ConsistentMaps(pending, nonces, all, queue)
    }

    lemma ReadyIs()
      ensures QueueReady() <==> forall a :: a in queue ==> Queued(queue[a], a, all, pending)
      ensures Consistent() <==> ConsistentMaps(pending, nonces, all, queue)
    {
      hide Queued, ConsistentMaps;
    }

    /** Lines 1197-1312 of promoteExecutables: both limits, one after the other. The pending lists end at a
        water level, the queue is shed by its own overflow alone, and of `all` exactly the transactions
        dropped from either are gone. */
    method EnforceLimits() returns (ghost level: nat, ghost order: seq<Address>)
      requires Consistent()
      modifies this`pending, this`queue, this`beats, this`all, this`nonces
      ensures Consistent() && beats == old(beats)
      ensures WaterLevel(old(pending), locals, accountSlots, globalSlots, level)
      ensures pending == Leveled(old(pending), locals, level)
      ensures NoncesFollow(old(pending), old(nonces), pending, nonces)
      ensures Distinct(order) && SilentFirst(order, beats)
      ensures forall a :: a in order <==> a in old(queue) && a !in locals
      ensures var excess := Total(old(queue)) - globalQueue;
              queue == if excess > 0 then Shed(old(queue), order, excess) else old(queue)
      ensures BusyLoseFirst(old(queue), locals, beats, queue)
      ensures all == old(all) - DroppedHashes(old(pending), pending) - GoneHashes(old(queue), queue)
    {
      hide *;
      ghost var start := Snapshot(pending, all, nonces);
      ReadyIs();
      ConsistentMeans(pending, nonces, all, queue);
      level := EqualizePending();
      EqualizedConsistent(start, queue, pending, all, nonces);
      ConsistentMeans(pending, nonces, all, queue);
      ReadyIs();
      ghost var known := all;
      order := LimitQueue();
      ReadyIs();
      ShedConsistent(pending, nonces, known, old(queue), queue, all);
    }
  }

  /** `a` has been silent for longer than `b`; an account that never gave a sign of life counts from time zero. */
  ghost predicate Outlasts(beats: map<Address, nat>, a: Address, b: Address) {
    b in beats && beats[b] > if a in beats then beats[a] else 0
  }

  ghost predicate SilentFirst(order: seq<Address>, beats: map<Address, nat>) {
    forall i, j :: 0 <= i < j < |order| ==> !Outlasts(beats, order[j], order[i])
  }

  /** Of two non-local accounts the one silent for longer loses nothing while the other has anything left. */
  ghost predicate BusyLoseFirst(q: Lists, locals: set<Address>, beats: map<Address, nat>, left: Lists) {
    forall a, b :: a in q && b in q && a !in locals && b !in locals && Outlasts(beats, a, b) && b in left ==>
      a in left && left[a] == q[a]
  }

  lemma ShedBusyFirst(q: Lists, locals: set<Address>, order: seq<Address>, beats: map<Address, nat>, drop: nat)
    requires Distinct(order) && SilentFirst(order, beats) && forall a :: a in order <==> a in q && a !in locals
    ensures BusyLoseFirst(q, locals, beats, Shed(q, order, drop))
  {
    hide Shed;
    var left := Shed(q, order, drop);
    forall a, b | a in q && b in q && a !in locals && b !in locals && Outlasts(beats, a, b) && b in left
      ensures a in left && left[a] == q[a]
    {
      var i :| 0 <= i < |order| && order[i] == a;
      var j :| 0 <= j < |order| && order[j] == b;
      ShedFromTheEnd(q, order, drop, i, j);
    }
  }

  /** What the pool's maps promise each other between calls. */
  ghost predicate ConsistentMaps(pending: Lists, nonces: map<Address, Uint64>, all: map<Hash, Tx>, queue: Lists) {
    && Sorted(pending) && pending.Keys <= nonces.Keys && PendingKnown(pending, all)
    && forall a :: a in queue ==> Queued(queue[a], a, all, pending)
  }

  lemma ConsistentMeans(pending: Lists, nonces: map<Address, Uint64>, all: map<Hash, Tx>, queue: Lists)
    requires ConsistentMaps(pending, nonces, all, queue)
    ensures Sorted(pending) && pending.Keys <= nonces.Keys
    ensures forall a :: a in queue ==> Queued(queue[a], a, all, pending)
  {
    hide Queued, Sorted;
  }

  lemma EqualizedConsistent(s: Snapshot, queue: Lists, pending: Lists, all: map<Hash, Tx>, nonces: map<Address, Uint64>)
    requires ConsistentMaps(s.pending, s.nonces, s.all, queue) && Settled(s, pending, all, nonces)
    ensures ConsistentMaps(pending, nonces, all, queue)
    ensures pending.Keys == s.pending.Keys && NoncesFollow(s.pending, s.nonces, pending, nonces)
    ensures all == s.all - DroppedHashes(s.pending, pending)
  {
    EqualizedKnown(s.pending, s.all, pending);
    hide Queued, PendingKnown, Prefixes, DroppedHashes;
    forall a | a in queue ensures Queued(queue[a], a, all, pending) {
      EqualizedQueued(s.pending, s.all, pending, queue[a], a);
    }
  }

  lemma ShedConsistent(pending: Lists, nonces: map<Address, Uint64>, all: map<Hash, Tx>, queue: Lists,
                       rest: Lists, left: map<Hash, Tx>)
    requires ConsistentMaps(pending, nonces, all, queue) && left == all - GoneHashes(queue, rest)
    requires forall a :: a in rest ==> Queued(rest[a], a, left, pending)
    ensures ConsistentMaps(pending, nonces, left, rest)
  {
    ShedKnown(pending, all, queue, rest);
    hide Queued, PendingKnown, GoneHashes;
  }

  lemma MinusMinus(m: map<Hash, Tx>, a: set<Hash>, b: set<Hash>)
    ensures m - a - b == m - (a + b)
  {
  }

  ghost predicate Queued(list: seq<Tx>, a: Address, all: map<Hash, Tx>, pending: Lists) {
    && list != [] && Ascending(list)
    && forall tx :: tx in list ==>
         && tx.sender == a && tx.hash in all && all[tx.hash] == tx
         && (a in pending ==> Lookup(pending[a], tx.nonce).None?)
  }

  lemma QueuedAt(list: seq<Tx>, a: Address, all: map<Hash, Tx>, pending: Lists, i: nat)
    requires Queued(list, a, all, pending) && i < |list|
    ensures list[i].hash in all && all[list[i].hash] == list[i] && list[i].sender == a
    ensures a in pending ==> Lookup(pending[a], list[i].nonce).None?
  {
    assert list[i] in list;
  }

  lemma QueueShrunk(q: Lists, a: Address, i: nat, all: map<Hash, Tx>, pending: Lists)
    requires forall b :: b in q ==> Queued(q[b], b, all, pending)
    requires a in q && i < |q[a]|
    ensures var list := q[a]; var r := list[..i] + list[i + 1..];
            && (|list| > 1 ==> Queued(r, a, all - {list[i].hash}, pending))
            && forall b :: b in q && b != a ==> Queued(q[b], b, all - {list[i].hash}, pending)
  {
    var list := q[a];
    var r := list[..i] + list[i + 1..];
    assert list[i] in list;
    forall tx | tx in r ensures tx in list && tx != list[i] {
    }
    assert forall b :: b in q ==> Queued(q[b], b, all, pending);
  }

  lemma HashesNext(all: map<Hash, Tx>, txs: seq<Tx>, i: nat)
    requires i < |txs|
    ensures all - Hashes(txs[..i]) - {txs[i].hash} == all - Hashes(txs[..i + 1])
    ensures i + 1 < |txs| ==> txs[i..][..0] + txs[i..][1..] == txs[i + 1..]
  {
    assert txs[..i + 1] == txs[..i] + [txs[i]];
    assert Hashes(txs[..i + 1]) == Hashes(txs[..i]) + {txs[i].hash};
  }

  lemma HashesPrev(all: map<Hash, Tx>, txs: seq<Tx>, i: nat)
    requires i < |txs|
    ensures all - Hashes(txs[i + 1..]) - {txs[i].hash} == all - Hashes(txs[i..])
    ensures txs[..i + 1][..i] + txs[..i + 1][i + 1..] == txs[..i]
  {
    assert txs[i..] == [txs[i]] + txs[i + 1..];
    assert Hashes(txs[i..]) == Hashes(txs[i + 1..]) + {txs[i].hash};
  }

  /** Every pending list holds transactions of its own account, known under their hash. */
  ghost predicate PendingKnown(p: Lists, all: map<Hash, Tx>) {
    forall a, tx :: a in p && tx in p[a] ==> tx.sender == a && tx.hash in all && all[tx.hash] == tx
  }

  /** A transaction of `before` whose hash is among the dropped is itself not in `after`. */
  lemma DroppedIsGone(before: Lists, all: map<Hash, Tx>, after: Lists, tx: Tx)
    requires Sorted(before) && PendingKnown(before, all) && Prefixes(before, after)
    requires tx.hash in DroppedHashes(before, after) && tx.hash in all && all[tx.hash] == tx
    ensures tx.sender in before && tx in before[tx.sender] && tx !in after[tx.sender]
  {
    var a, i :| a in before && a in after && |after[a]| <= i < |before[a]| && before[a][i].hash == tx.hash;
    assert before[a][i] in before[a];
    assert IsPrefix(after[a], before[a]) && Ascending(before[a]);
  }

  /** Trimming the pending lists unsettles neither them nor the queue. */
  lemma EqualizedKnown(before: Lists, all: map<Hash, Tx>, after: Lists)
    requires Sorted(before) && PendingKnown(before, all) && Prefixes(before, after)
    ensures Sorted(after) && PendingKnown(after, all - DroppedHashes(before, after))
  {
    forall a | a in after ensures Ascending(after[a]) {
      assert IsPrefix(after[a], before[a]);
    }
    forall a, tx | a in after && tx in after[a]
      ensures tx.sender == a && tx.hash in all && all[tx.hash] == tx && tx.hash !in DroppedHashes(before, after)
    {
      assert IsPrefix(after[a], before[a]) && tx in before[a];
      if tx.hash in DroppedHashes(before, after) {
        DroppedIsGone(before, all, after, tx);
      }
    }
  }

  lemma EqualizedQueued(before: Lists, all: map<Hash, Tx>, after: Lists, list: seq<Tx>, a: Address)
    requires Sorted(before) && PendingKnown(before, all) && Prefixes(before, after)
    requires Queued(list, a, all, before)
    ensures Queued(list, a, all - DroppedHashes(before, after), after)
  {
    hide Lookup, Ascending, Sorted;
    assert a in before ==> IsPrefix(after[a], before[a]) && forall t :: t in after[a] ==> t in before[a];
    forall tx | tx in list
      ensures tx.hash !in DroppedHashes(before, after)
      ensures a in after ==> Lookup(after[a], tx.nonce).None?
    {
      if tx.hash in DroppedHashes(before, after) {
        DroppedIsGone(before, all, after, tx);
      }
    }
  }

  /** Shedding the queue takes no pending transaction out of `all`. */
  lemma ShedKnown(p: Lists, all: map<Hash, Tx>, q: Lists, rest: Lists)
    requires PendingKnown(p, all) && forall a :: a in q ==> Queued(q[a], a, all, p)
    ensures PendingKnown(p, all - GoneHashes(q, rest))
  {
    hide Ascending;
    forall a, tx | a in p && tx in p[a] ensures tx.hash !in GoneHashes(q, rest) {
    }
  }

  /** The queue and the offenders together hold exactly the large non-local accounts, and nobody in
      the queue stands above the level or above an offender. */
  ghost predicate Queue(p: Lists, locals: set<Address>, slots: nat, queue: map<Address, nat>,
                        offenders: seq<Address>, level: nat) {
    && (forall a :: a in queue ==>
          a in p && a !in locals && queue[a] == |p[a]| > slots && a !in offenders && |p[a]| <= level)
    && (forall a :: a in offenders ==> a in p && a !in locals && |p[a]| > slots)
    && (forall a :: a in p && a !in locals && |p[a]| > slots ==> a in queue || a in offenders)
  }

  lemma FirstLevel(p: Lists, locals: set<Address>, slots: nat, queue: map<Address, nat>, level: nat, offender: Address)
    requires Queue(p, locals, slots, queue, [], level) && level >= slots
    requires offender in queue && forall b :: b in queue ==> queue[b] <= queue[offender]
    ensures Leveled(p, locals, level) == p && Leveled(p, locals, |p[offender]|) == p
  {
    forall a | a in p && a !in locals ensures |p[a]| <= level && |p[a]| <= |p[offender]| {
      assert |p[a]| > slots ==> a in queue;
    }
    HighLevelKeepsAll(p, locals, level);
    HighLevelKeepsAll(p, locals, |p[offender]|);
  }

  lemma QueueNext(p: Lists, locals: set<Address>, slots: nat, queue: map<Address, nat>, admitted: seq<Address>,
                  level: nat, offender: Address)
    requires Queue(p, locals, slots, queue, admitted, level) && Distinct(admitted)
    requires offender in queue && forall b :: b in queue ==> queue[b] <= queue[offender]
    requires forall a :: a in admitted ==> |p[a]| >= level
    ensures Distinct(admitted + [offender])
    ensures |queue - {offender}| < |queue|
    ensures slots < |p[offender]| <= level
    ensures Group(p, locals, admitted, level, |p[offender]|)
  {
    assert (queue - {offender}).Keys == queue.Keys - {offender};
    forall a | a in p && a !in locals && a !in admitted ensures |p[a]| <= |p[offender]| {
      assert |p[a]| > slots ==> a in queue;
    }
  }

  lemma QueueAfter(p: Lists, locals: set<Address>, slots: nat, queue: map<Address, nat>, admitted: seq<Address>,
                   level: nat, offender: Address, reached: nat)
    requires Queue(p, locals, slots, queue, admitted, level)
    requires offender in queue && forall b :: b in queue ==> queue[b] <= queue[offender]
    requires |p[offender]| <= reached
    ensures Queue(p, locals, slots, queue - {offender}, admitted + [offender], reached)
  {
    var offenders := admitted + [offender];
    assert forall a :: a in offenders <==> a in admitted || a == offender;
  }

  lemma OffendersReach(admitted: seq<Address>, offender: Address, p: Lists, level: nat, reached: nat)
    requires forall a :: a in admitted ==> a in p && |p[a]| >= level
    requires offender in p && reached <= level && reached <= |p[offender]|
    ensures forall a :: a in admitted + [offender] ==> a in p && |p[a]| >= reached
  {
  }

  lemma QueueDrained(p: Lists, locals: set<Address>, slots: nat, offenders: seq<Address>, level: nat)
    requires Queue(p, locals, slots, map[], offenders, level)
    requires forall a :: a in offenders ==> |p[a]| >= level
    ensures Group(p, locals, offenders, level, slots)
  {
  }

  /** `group` are non-local accounts at or above the level, and no other non-local account is above
      the threshold. */
  ghost predicate Group(p: Lists, locals: set<Address>, group: seq<Address>, level: nat, threshold: nat) {
    && (forall a :: a in group ==> a in p && a !in locals && |p[a]| >= level)
    && (forall a :: a in p && a !in locals && a !in group ==> |p[a]| <= threshold)
  }

  lemma GroupRound(p: Lists, locals: set<Address>, limit: nat, group: seq<Address>, level: nat, threshold: nat,
                   cur: Lists)
    requires Group(p, locals, group, level, threshold) && group != [] && threshold <= level
    requires cur == Leveled(p, locals, level) && Total(cur) > limit
    requires |cur[group[|group| - 1]]| > threshold
    ensures level > threshold
    ensures forall a :: a in group ==> a in cur && cur[a] != []
    ensures Group(p, locals, group, level - 1, threshold)
    ensures Trimmed(cur, Members(group)) == Leveled(p, locals, level - 1)
    ensures Tight(p, locals, limit, level - 1)
  {
    assert group[|group| - 1] in group;
    RoundLowersLevel(p, locals, level, Members(group));
    OverLimitAbove(p, locals, limit, level);
  }

  lemma TrimmedNone(p: Lists, who: seq<Address>)
    ensures Trimmed(p, Members(who[..0])) == p && who[..|who|] == who
  {
  }

  lemma TrimmedNext(start: Lists, who: seq<Address>, i: nat)
    requires Distinct(who) && i < |who|
    requires who[i] in start && start[who[i]] != []
    ensures var p := Trimmed(start, Members(who[..i]));
            && who[i] in p && p[who[i]] == start[who[i]]
            && p[who[i] := p[who[i]][..|p[who[i]]| - 1]] == Trimmed(start, Members(who[..i + 1]))
  {
    assert who[i] !in who[..i];
    assert Members(who[..i + 1]) == Members(who[..i]) + {who[i]};
  }

  lemma {:induction false} TotalNonNegative(p: Lists)
    ensures Total(p) >= 0
    ensures forall a :: a in p ==> |p[a]| <= Total(p)
    decreases |p|
  {
    forall a | a in p ensures |p[a]| <= Total(p) {
      TotalSplit(p, a);
      assert (p - {a}).Keys == p.Keys - {a};
      TotalNonNegative(p - {a});
    }
    if a :| a in p {
    }
  }
}
