/** The header chain: headers, total difficulties and the canonical number-to-hash map. */
module HeaderChain {
  import opened Base
  import opened Ancestry

  /** types.BlockDifficult. */
  const BLOCK_DIFFICULTY: nat := 1

  datatype Status = Canonical | Side | UnknownAncestor

  /** The number-to-hash map that a walk back from the head of the chain gives. */
  function Numbering(chain: seq<Header>): (m: map<nat, Hash>) {
    map i: nat | 0 <= i < |chain| :: chain[i].hash
  }

  function TotalDifficulty(h: Header): (td: nat) {
    BLOCK_DIFFICULTY * (h.number + 1)
  }

  /** Loop state of the rewriting loop: above `k` the map already follows the new chain, from `k`
      down it still follows the old one. */
  ghost predicate Rewriting(canon: map<nat, Hash>, older: seq<Header>, newer: seq<Header>, k: nat) {
    && k + 1 < |newer| <= |older| + 1
    && (forall i: nat :: i in canon <==> i < |older|)
    && (forall i: nat :: i <= k ==> canon[i] == older[i].hash)
    && (forall i: nat :: k < i < |newer| - 1 ==> canon[i] == newer[i].hash)
  }

  lemma RewriteStart(older: seq<Header>, newer: seq<Header>)
    requires 1 < |newer| && |older| <= |newer| <= |older| + 1
    ensures Rewriting(Numbering(older), older, newer, |newer| - 2)
  {
  }

  lemma RewriteStep(canon: map<nat, Hash>, older: seq<Header>, newer: seq<Header>, k: nat)
    requires Rewriting(canon, older, newer, k) && k > 0
    ensures Rewriting(canon[k := newer[k].hash], older, newer, k - 1)
  {
  }

  lemma RewriteDone(canon: map<nat, Hash>, older: seq<Header>, newer: seq<Header>, k: nat)
    requires Rewriting(canon, older, newer, k) && |older| <= |newer|
    requires forall i :: 0 <= i <= k ==> older[i] == newer[i]
    ensures canon[|newer| - 1 := newer[|newer| - 1].hash] == Numbering(newer)
  {
  }

  /** Two chains that agree on the hash at `k` agree below it. */
  lemma ChainsMeet(store: Store, genesis: Header, a: Header, b: Header, k: nat)
    requires Rooted(store, genesis) && Attached(store, genesis, a) && Attached(store, genesis, b)
    requires Stored(store, a) && Stored(store, b)
    requires k <= a.number && k <= b.number
    ensures |Chain(store, a)| == a.number + 1 && |Chain(store, b)| == b.number + 1
    ensures Chain(store, a)[k].hash == Chain(store, b)[k].hash ==>
              forall i :: 0 <= i <= k ==> Chain(store, a)[i] == Chain(store, b)[i]
  {
    hide Chain;
    RootedChain(store, genesis, a);
    RootedChain(store, genesis, b);
    ChainPrefix(store, genesis, a, k);
    ChainPrefix(store, genesis, b, k);
    var older, newer := Chain(store, a), Chain(store, b);
    if older[k].hash == newer[k].hash {
      ChainStored(store, genesis, a, k);
      ChainStored(store, genesis, b, k);
      assert older[..k + 1] == newer[..k + 1];
      forall i | 0 <= i <= k ensures older[i] == newer[i] {
        assert older[..k + 1][i] == newer[..k + 1][i];
      }
    }
  }

  ghost predicate Stored(store: Store, h: Header) {
    h.hash in store && store[h.hash] == h
  }

  lemma ChainStored(store: Store, genesis: Header, h: Header, k: nat)
    requires Rooted(store, genesis) && Attached(store, genesis, h) && Stored(store, h) && k <= h.number
    ensures |Chain(store, h)| == h.number + 1 && Stored(store, Chain(store, h)[k])
  {
    RootedChain(store, genesis, h);
  }

  class Headers {
    const genesis: Header
    var headers: Store
    var td: map<Hash, nat>
    var canon: map<nat, Hash>
    var current: Header

    /** The canonical map is exactly the ancestor chain of the current header; every stored total
        difficulty is that of its height, and no stored header is higher than the current one. */
    ghost predicate Valid()
      reads this
    {
      && Rooted(headers, genesis)
      && Stored(headers, current)
      && td == (map h | h in headers :: TotalDifficulty(headers[h]))
      && (forall h :: h in headers ==> headers[h].number <= current.number)
      && canon == Numbering(Chain(headers, current))
    }

    constructor (genesis: Header)
      requires genesis.number == 0 && genesis.hash != ZERO_HASH
      ensures Valid() && current == genesis
    {
      this.genesis := genesis;
      headers := map[genesis.hash := genesis];
      td := map[genesis.hash := BLOCK_DIFFICULTY];
      canon := map[0 := genesis.hash];
      current := genesis;
    }

    /** Deletes the canonical assignments above the number, up to the first gap. */
    method DeleteAbove(number: nat, ghost top: nat)
      requires forall i: nat :: i in canon <==> i <= top
      modifies this`canon
      ensures forall i: nat :: i in canon <==> i <= top && i <= number
      ensures forall i: nat :: i in canon ==> canon[i] == old(canon)[i]
    {
      var i := number + 1;
      while i in canon
        invariant number < i
        invariant forall j: nat :: j in canon <==> j <= top && (j <= number || i <= j)
        invariant forall j: nat :: j in canon ==> canon[j] == old(canon)[j]
        decreases top + 1 - i
      {
        canon := canon - {i};
        i := i + 1;
      }
    }

    /** Overwrites the stale assignments below the new header, walking back until the map agrees. */
    method Reroute(header: Header)
      requires Rooted(headers, genesis) && Attached(headers, genesis, header) && header.number > 0
      requires Stored(headers, header)
      requires Stored(headers, current) && Attached(headers, genesis, current)
      requires current.number <= header.number <= current.number + 1
      requires canon == Numbering(Chain(headers, current))
      modifies this`canon
      ensures canon == Numbering(Chain(headers, header))
    {
      hide *;
      ghost var older, newer := Chain(headers, current), Chain(headers, header);
      ChainLength(headers, genesis, current);
      ChainLength(headers, genesis, header);
      var headHash := header.parent;
      var headNumber := header.number - 1;
      var headHeader := GetHeader(headers, headHash, headNumber);
      ParentBelow(headers, genesis, header, header.number);
      RewriteStart(older, newer);
      while (if headNumber in canon then canon[headNumber] else ZERO_HASH) != headHash
        invariant 0 <= headNumber < header.number
        invariant Rewriting(canon, older, newer, headNumber)
        invariant headHeader == Some(newer[headNumber]) && headHash == newer[headNumber].hash
        decreases headNumber
      {
        RewriteAt(canon, older, newer, headNumber);
        ParentBelow(headers, genesis, header, headNumber);
        RewriteStep(canon, older, newer, headNumber);
        canon := canon[headNumber := headHash];
        headHash := headHeader.value.parent;
        headNumber := headHeader.value.number - 1;
        headHeader := GetHeader(headers, headHash, headNumber);
      }
      RewriteAt(canon, older, newer, headNumber);
      ChainsMeet(headers, genesis, current, header, headNumber);
      RewriteDone(canon, older, newer, headNumber);
      canon := canon[header.number := header.hash];
    }

    /** Stores the header and, if its total difficulty wins, or ties and the coin says so, makes it
        the head of the canonical chain. */
    method WriteHeader(header: Header, coin: bool) returns (status: Status)
      requires Valid() && Fits(headers, header)
      modifies this
      ensures Valid()
      ensures status.UnknownAncestor? <==> !HasParent(old(headers), header)
      ensures status.UnknownAncestor? ==> unchanged(this)
      ensures !status.UnknownAncestor? ==> headers == old(headers)[header.hash := header]
      ensures status.Canonical? ==
                (HasParent(old(headers), header) &&
                (header.number > old(current.number) || (header.number == old(current.number) && coin)))
      ensures current == if status.Canonical? then header else old(current)
    {
      var ptd := if GetHeader(headers, header.parent, header.number - 1).Some? then Some(td[header.parent]) else None;
      if ptd.None? {
        return UnknownAncestor;
      }
      var localTd := td[current.hash];
      var externTd := BLOCK_DIFFICULTY + ptd.value;
      assert externTd == TotalDifficulty(header) && localTd == TotalDifficulty(current);
      assert header.number <= current.number + 1;
      Put(header, externTd);
      hide Rooted, Attached, Numbering, Chain, Stored;
      if externTd > localTd || (externTd == localTd && coin) {
        NumberingKeys(headers, genesis, current);
        DeleteAbove(header.number, current.number);
        assert canon == old(canon);
        Reroute(header);
        current := header;
        status := Canonical;
      } else {
        status := Side;
      }
    }

    /** Writes total difficulty and header, whatever their canonical status. */
    method Put(header: Header, externTd: nat)
      requires Valid() && Fits(headers, header) && HasParent(headers, header)
      requires externTd == TotalDifficulty(header)
      modifies this`headers, this`td
      ensures headers == old(headers)[header.hash := header]
      ensures Rooted(headers, genesis)
      ensures Stored(headers, current) && Attached(headers, genesis, current)
      ensures Stored(headers, header) && Attached(headers, genesis, header)
      ensures td == (map h | h in headers :: TotalDifficulty(headers[h]))
      ensures forall h :: h in headers ==> headers[h].number <= current.number || headers[h] == header
      ensures canon == Numbering(Chain(headers, current))
    {
      hide Chain, Rooted, Attached, Numbering;
      AddHeader(headers, genesis, current, header);
      td := td[header.hash := externTd];
      headers := headers[header.hash := header];
    }

    /** InsertHeaderChain: known headers are skipped, and the first header with an unknown parent stops the
        import; so may an interrupt before any header. Any run of WriteHeader is such an import. */
    method Import(chain: seq<Header>, coins: seq<bool>, interrupts: seq<bool>) returns (stored: nat, aborted: bool)
      requires Valid() && |coins| == |interrupts| == |chain|
      requires Linkable(headers, chain)
      modifies this
      ensures Valid() && stored <= |chain|
      ensures headers == AddAll(old(headers), chain[..stored])
      ensures aborted ==> stored < |chain| && interrupts[stored]
      ensures stored < |chain| ==> aborted || !HasParent(headers, chain[stored])
      ensures forall i :: 0 <= i < stored ==> !interrupts[i]
      ensures current.number >= old(current.number)
    {
      hide *;
      stored, aborted := 0, false;
      AddAllNone(headers, chain);
      while stored < |chain|
        invariant Valid() && stored <= |chain|
        invariant headers == AddAll(old(headers), chain[..stored])
        invariant current.number >= old(current.number)
        invariant !aborted && forall i :: 0 <= i < stored ==> !interrupts[i]
        decreases |chain| - stored
      {
        if interrupts[stored] {
          aborted := true;
          return;
        }
        var header := chain[stored];
        LinkableAt(old(headers), chain, stored);
        AddAllNext(old(headers), chain, stored);
        KnownHeader(headers, header);
        if GetHeader(headers, header.hash, header.number).None? {
          var status := WriteHeader(header, coins[stored]);
          if status.UnknownAncestor? {
            return;
          }
        }
        stored := stored + 1;
      }
    }
  }

  lemma RewriteAt(canon: map<nat, Hash>, older: seq<Header>, newer: seq<Header>, k: nat)
    requires Rewriting(canon, older, newer, k)
    ensures k in canon && k < |older| && k < |newer| && canon[k] == older[k].hash
  {
  }

  lemma ChainLength(store: Store, genesis: Header, h: Header)
    requires Rooted(store, genesis) && Attached(store, genesis, h)
    ensures |Chain(store, h)| == h.number + 1 && Chain(store, h)[0] == genesis && Chain(store, h)[h.number] == h
  {
    RootedChain(store, genesis, h);
  }

  lemma ChainUnfold(store: Store, genesis: Header, h: Header, n: nat)
    requires Rooted(store, genesis) && Attached(store, genesis, h) && h.number == n > 0
    ensures GetHeader(store, h.parent, n - 1) == Some(store[h.parent]) && store[h.parent].hash == h.parent
    ensures |Chain(store, h)| == n + 1 && Chain(store, h)[n - 1] == store[h.parent]
  {
    RootedChain(store, genesis, h);
    RootedChain(store, genesis, store[h.parent]);
    assert Chain(store, h) == Chain(store, store[h.parent]) + [h];
  }

  /** Along a chain each header's parent link names the header below it. */
  lemma ParentBelow(store: Store, genesis: Header, h: Header, k: nat)
    requires Rooted(store, genesis) && Attached(store, genesis, h)
    requires 0 < k <= h.number
    ensures k < |Chain(store, h)| && Chain(store, h)[k].number == k
    ensures GetHeader(store, Chain(store, h)[k].parent, k - 1) == Some(Chain(store, h)[k - 1])
    ensures Chain(store, h)[k - 1].hash == Chain(store, h)[k].parent
  {
    hide *;
    ChainNumber(store, genesis, h, k);
    ChainPrefix(store, genesis, h, k);
    var s := Chain(store, h);
    ChainUnfold(store, genesis, s[k], k);
    assert s[..k + 1][k - 1] == s[k - 1];
  }

  lemma ChainNumber(store: Store, genesis: Header, h: Header, k: nat)
    requires Rooted(store, genesis) && Attached(store, genesis, h) && k <= h.number
    ensures k < |Chain(store, h)| && Chain(store, h)[k].number == k && Attached(store, genesis, Chain(store, h)[k])
  {
    RootedChain(store, genesis, h);
  }

  function AddAll(store: Store, chain: seq<Header>): (r: Store)
    decreases |chain|
  {
    if chain == [] then store else
      var h := chain[|chain| - 1];
      AddAll(store, chain[..|chain| - 1])[h.hash := h]
  }

  lemma AddAllNone(store: Store, chain: seq<Header>)
    ensures AddAll(store, chain[..0]) == store
  {
  }

  lemma AddAllNext(store: Store, chain: seq<Header>, i: nat)
    requires i < |chain|
    ensures AddAll(store, chain[..i + 1]) == AddAll(store, chain[..i])[chain[i].hash := chain[i]]
  {
    assert chain[..i + 1][..i] == chain[..i];
  }

  /** No header of the run has the hash of a different one known by then. */
  ghost predicate Linkable(store: Store, chain: seq<Header>) {
    forall i :: 0 <= i < |chain| ==> Fits(AddAll(store, chain[..i]), chain[i])
  }

  lemma LinkableAt(store: Store, chain: seq<Header>, i: nat)
    requires Linkable(store, chain) && i < |chain|
    ensures Fits(AddAll(store, chain[..i]), chain[i])
  {
  }

  lemma KnownHeader(store: Store, h: Header)
    requires Fits(store, h)
    ensures GetHeader(store, h.hash, h.number).Some? ==> store[h.hash := h] == store
  {
  }

  lemma AddHeader(store: Store, genesis: Header, current: Header, h: Header)
    requires Rooted(store, genesis) && Stored(store, current) && Fits(store, h)
    requires HasParent(store, h)
    ensures Rooted(store[h.hash := h], genesis)
    ensures Attached(store, genesis, current) && Attached(store[h.hash := h], genesis, current)
    ensures Attached(store[h.hash := h], genesis, h)
    ensures Chain(store[h.hash := h], current) == Chain(store, current)
  {
    hide Chain;
    assert Attached(store, genesis, store[current.hash]);
    RootedExtends(store, genesis, h);
    ChainExtends(store, genesis, h, current);
  }

  lemma NumberingKeys(store: Store, genesis: Header, h: Header)
    requires Rooted(store, genesis) && Attached(store, genesis, h)
    ensures forall i: nat :: i in Numbering(Chain(store, h)) <==> i <= h.number
  {
    RootedChain(store, genesis, h);
  }
}
