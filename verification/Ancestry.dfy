/** Headers linked by parent hash, and the chain of available ancestors of a header. */
module Ancestry {
  import opened Base

  /** A header commits to the transactions of its block, so it stands for the block as well. */
  datatype Header = Header(hash: Hash, parent: Hash, number: nat, txs: seq<Hash>)

  /** Stored headers. The database key holds hash and number; a lookup misses when the stored header
      has another number. */
  type Store = map<Hash, Header>

  function GetHeader(store: Store, hash: Hash, number: int): (r: Option<Header>)
    ensures r.Some? <==> hash in store && store[hash].number == number
    ensures r.Some? ==> r.value == store[hash] && r.value.number == number
  {
    if hash in store && store[hash].number == number then Some(store[hash]) else None
  }

  /** Headers are stored under their own hash, which is never the zero hash. */
  ghost predicate WellKeyed(store: Store) {
    forall h :: h in store ==> store[h].hash == h != ZERO_HASH
  }

  /** Adding the header does not collide with a stored one. */
  ghost predicate Fits(store: Store, h: Header) {
    h.hash != ZERO_HASH && (h.hash in store ==> store[h.hash] == h)
  }

  predicate HasParent(store: Store, h: Header) {
    GetHeader(store, h.parent, h.number - 1).Some?
  }

  /** The header and its stored ancestors, oldest first. */
  function Chain(store: Store, h: Header): (s: seq<Header>)
    ensures 0 < |s| <= h.number + 1 && s[|s| - 1] == h
    ensures forall i :: 0 <= i < |s| ==> s[i].number == h.number + 1 - |s| + i
    decreases h.number
  {
    if HasParent(store, h) then Chain(store, store[h.parent]) + [h] else [h]
  }

  /** `a` is `h` or one of its stored ancestors. */
  ghost predicate IsAncestor(store: Store, a: Header, h: Header) {
    a in Chain(store, h)
  }

  lemma AncestorNumber(store: Store, a: Header, h: Header)
    requires IsAncestor(store, a, h)
    ensures a.number <= h.number && (a.number == h.number ==> a == h)
  {
  }

  lemma AncestorStep(store: Store, a: Header, h: Header)
    ensures IsAncestor(store, a, h) <==> a == h || (HasParent(store, h) && IsAncestor(store, a, store[h.parent]))
  {
  }

  /** `c` is a common ancestor of both. */
  ghost predicate Common(store: Store, a: Header, b: Header, c: Header) {
    IsAncestor(store, c, a) && IsAncestor(store, c, b)
  }

  ghost predicate SameCommon(store: Store, a0: Header, b0: Header, a: Header, b: Header) {
    forall c :: Common(store, a0, b0, c) <==> Common(store, a, b, c)
  }

  /** Going to the parent of the higher header loses no common ancestor. */
  lemma LowerKeepsCommon(store: Store, a: Header, b: Header)
    requires a.number > b.number
    ensures HasParent(store, a) ==> SameCommon(store, a, b, store[a.parent], b)
    ensures HasParent(store, a) ==> SameCommon(store, b, a, b, store[a.parent])
    ensures !HasParent(store, a) ==> forall c :: !Common(store, a, b, c) && !Common(store, b, a, c)
  {
    forall c ensures Common(store, a, b, c) ==> c != a {
      if Common(store, a, b, c) {
        AncestorNumber(store, c, b);
      }
    }
    forall c
      ensures IsAncestor(store, c, a) <==> c == a || (HasParent(store, a) && IsAncestor(store, c, store[a.parent]))
    {
      AncestorStep(store, c, a);
    }
    assert HasParent(store, a) ==> !IsAncestor(store, a, store[a.parent]);
  }

  /** Neither does going to both parents of two different headers of one height. */
  lemma LowerBothKeepsCommon(store: Store, a: Header, b: Header)
    requires a.number == b.number && a != b
    ensures HasParent(store, a) && HasParent(store, b) ==> SameCommon(store, a, b, store[a.parent], store[b.parent])
    ensures !HasParent(store, a) || !HasParent(store, b) ==> forall c :: !Common(store, a, b, c)
  {
    forall c ensures Common(store, a, b, c) ==> c != a && c != b {
      if Common(store, a, b, c) {
        AncestorNumber(store, c, a);
        AncestorNumber(store, c, b);
      }
    }
    forall c
      ensures IsAncestor(store, c, a) <==> c == a || (HasParent(store, a) && IsAncestor(store, c, store[a.parent]))
    {
      AncestorStep(store, c, a);
    }
    forall c
      ensures IsAncestor(store, c, b) <==> c == b || (HasParent(store, b) && IsAncestor(store, c, store[b.parent]))
    {
      AncestorStep(store, c, b);
    }
    assert HasParent(store, a) ==> !IsAncestor(store, a, store[a.parent]) && !IsAncestor(store, b, store[a.parent]);
    assert HasParent(store, b) ==> !IsAncestor(store, b, store[b.parent]) && !IsAncestor(store, a, store[b.parent]);
  }

  ghost predicate NoCommon(store: Store, a: Header, b: Header) {
    forall c :: !Common(store, a, b, c)
  }

  /** Different headers that the walk compares have different hashes. */
  ghost predicate Comparable(store: Store, a: Header, b: Header) {
    WellKeyed(store) && Fits(store, a) && Fits(store, b) && (a.hash == b.hash ==> a == b)
  }

  lemma SameTrans(store: Store, a: Header, b: Header, a1: Header, b1: Header, a2: Header, b2: Header)
    requires SameCommon(store, a, b, a1, b1)
    ensures SameCommon(store, a1, b1, a2, b2) ==> SameCommon(store, a, b, a2, b2)
    ensures NoCommon(store, a1, b1) ==> NoCommon(store, a, b)
  {
    hide Common;
  }

  lemma SameSwap(store: Store, a: Header, b: Header, a1: Header, b1: Header)
    ensures SameCommon(store, a, b, a1, b1) <==> SameCommon(store, b, a, b1, a1)
    ensures NoCommon(store, a, b) <==> NoCommon(store, b, a)
  {
    hide IsAncestor;
    assert forall x, y, c :: Common(store, x, y, c) <==> Common(store, y, x, c);
  }

  lemma SameSelf(store: Store, a: Header, b: Header)
    ensures SameCommon(store, a, b, a, b)
  {
    hide Common;
  }

  lemma ParentComparable(store: Store, a: Header, b: Header)
    requires Comparable(store, a, b)
    ensures HasParent(store, a) ==> Comparable(store, store[a.parent], b) && store[a.parent].number == a.number - 1
    ensures HasParent(store, a) && HasParent(store, b) ==> Comparable(store, store[a.parent], store[b.parent])
  {
  }

  /** The first two loops: walks back from `high` while it is above `low`. */
  method LowerTo(store: Store, high: Header, low: Header) returns (r: Option<Header>)
    requires Comparable(store, high, low)
    ensures r.None? ==> NoCommon(store, high, low)
    ensures r.Some? ==> SameCommon(store, high, low, r.value, low) && Comparable(store, r.value, low)
    ensures r.Some? ==> r.value.number == Min(high.number, low.number) || r.value == high
    ensures r.Some? ==> r.value.number <= low.number
  {
    var a := high;
    SameSelf(store, a, low);
    hide WellKeyed, Fits, Comparable, SameCommon, NoCommon;
    while a.number > low.number
      invariant SameCommon(store, high, low, a, low) && Comparable(store, a, low)
      invariant a.number >= low.number || a == high
      decreases a.number
    {
      LowerStep(store, a, low);
      ParentComparable(store, a, low);
      var next := GetHeader(store, a.parent, a.number - 1);
      if next.None? {
        SameTrans(store, high, low, a, low, a, low);
        return None;
      }
      SameTrans(store, high, low, a, low, next.value, low);
      a := next.value;
    }
    r := Some(a);
  }

  lemma LowerStep(store: Store, a: Header, b: Header)
    requires a.number > b.number
    ensures HasParent(store, a) ==> SameCommon(store, a, b, store[a.parent], b)
    ensures !HasParent(store, a) ==> NoCommon(store, a, b)
  {
    LowerKeepsCommon(store, a, b);
    hide Common, HasParent;
  }

  lemma LowerBothStep(store: Store, a: Header, b: Header)
    requires a.number == b.number && a != b
    ensures HasParent(store, a) && HasParent(store, b) ==> SameCommon(store, a, b, store[a.parent], store[b.parent])
    ensures !HasParent(store, a) || !HasParent(store, b) ==> NoCommon(store, a, b)
  {
    LowerBothKeepsCommon(store, a, b);
    hide Common, HasParent;
  }

  /** The third loop: walks back from both at once. */
  method LowerBoth(store: Store, first: Header, second: Header) returns (r: Option<Header>)
    requires Comparable(store, first, second) && first.number == second.number
    ensures r.None? ==> NoCommon(store, first, second)
    ensures r.Some? ==> SameCommon(store, first, second, r.value, r.value)
  {
    var a, b := first, second;
    SameSelf(store, a, b);
    hide WellKeyed, Fits, SameCommon, NoCommon;
    while a.hash != b.hash
      invariant SameCommon(store, first, second, a, b) && Comparable(store, a, b)
      invariant a.number == b.number
      decreases a.number
    {
      LowerBothStep(store, a, b);
      ParentComparable(store, a, b);
      ParentComparable(store, b, a);
      var nextA := GetHeader(store, a.parent, a.number - 1);
      var nextB := GetHeader(store, b.parent, b.number - 1);
      if nextA.None? || nextB.None? {
        SameTrans(store, first, second, a, b, a, b);
        return None;
      }
      SameTrans(store, first, second, a, b, nextA.value, nextB.value);
      a, b := nextA.value, nextB.value;
    }
    r := Some(a);
  }

  /** The last common ancestor of two headers: found exactly when the stored chains meet. */
  method FindCommonAncestor(store: Store, first: Header, second: Header) returns (r: Option<Header>)
    requires WellKeyed(store) && Fits(store, first) && Fits(store, second)
    requires first.hash == second.hash ==> first == second
    ensures r.None? <==> forall c :: !Common(store, first, second, c)
    ensures r.Some? ==> Common(store, first, second, r.value)
    ensures r.Some? ==> forall c :: Common(store, first, second, c) ==> c.number <= r.value.number
    ensures r.Some? ==> forall c :: Common(store, first, second, c) <==> IsAncestor(store, c, r.value)
  {
    assert Comparable(store, first, second) && Comparable(store, second, first);
    var a := LowerTo(store, first, second);
    if a.None? {
      return None;
    }
    hide *;
    ComparableSwap(store, a.value, second);
    var b := LowerTo(store, second, a.value);
    SameSwap(store, second, a.value, (if b.Some? then b.value else second), a.value);
    if b.None? {
      SameTrans(store, first, second, a.value, second, a.value, second);
      NoCommonMeans(store, first, second);
      return None;
    }
    SameTrans(store, first, second, a.value, second, a.value, b.value);
    ComparableSwap(store, b.value, a.value);
    r := LowerBoth(store, a.value, b.value);
    if r.None? {
      SameTrans(store, first, second, a.value, b.value, a.value, b.value);
      NoCommonMeans(store, first, second);
    } else {
      SameTrans(store, first, second, a.value, b.value, r.value, r.value);
      FoundIsHighest(store, first, second, r.value);
    }
  }

  lemma ComparableSwap(store: Store, a: Header, b: Header)
    requires Comparable(store, a, b)
    ensures Comparable(store, b, a)
  {
  }

  lemma NoCommonMeans(store: Store, a: Header, b: Header)
    requires NoCommon(store, a, b)
    ensures forall c :: !Common(store, a, b, c)
  {
    hide Common;
  }

  lemma FoundIsHighest(store: Store, a: Header, b: Header, r: Header)
    requires SameCommon(store, a, b, r, r)
    ensures Common(store, a, b, r)
    ensures forall c :: Common(store, a, b, c) ==> c.number <= r.number
    ensures forall c :: Common(store, a, b, c) <==> IsAncestor(store, c, r)
  {
    AncestorStep(store, r, r);
    hide Chain;
    assert Common(store, r, r, r);
    forall c | Common(store, a, b, c) ensures c.number <= r.number && IsAncestor(store, c, r) {
      assert Common(store, r, r, c);
      AncestorNumber(store, c, r);
    }
    forall c | IsAncestor(store, c, r) ensures Common(store, a, b, c) {
      assert Common(store, r, r, c);
    }
  }

  // ---------- Stores that hold every ancestor down to one genesis ----------

  /** Every stored header has its parent stored, down to the genesis. */
  ghost predicate Rooted(store: Store, genesis: Header) {
    && WellKeyed(store)
    && genesis.number == 0 && genesis.hash in store && store[genesis.hash] == genesis
    && forall h :: h in store ==> Attached(store, genesis, store[h])
  }

  ghost predicate Attached(store: Store, genesis: Header, h: Header) {
    if h.number == 0 then h == genesis else HasParent(store, h)
  }

  lemma {:induction false} RootedChain(store: Store, genesis: Header, h: Header)
    requires Rooted(store, genesis) && Attached(store, genesis, h)
    ensures |Chain(store, h)| == h.number + 1 && Chain(store, h)[0] == genesis
    ensures forall i :: 0 <= i < h.number ==>
              Chain(store, h)[i].hash in store && store[Chain(store, h)[i].hash] == Chain(store, h)[i]
    decreases h.number
  {
    if h.number > 0 {
      var p := store[h.parent];
      RootedChain(store, genesis, p);
      assert Chain(store, h) == Chain(store, p) + [h];
    }
  }

  /** A chain is determined by any of its headers: below it, it is that header's own chain. */
  lemma {:induction false} ChainPrefix(store: Store, genesis: Header, h: Header, i: nat)
    requires Rooted(store, genesis) && Attached(store, genesis, h)
    requires i <= h.number
    ensures i < |Chain(store, h)| && Chain(store, h)[..i + 1] == Chain(store, Chain(store, h)[i])
    decreases h.number
  {
    RootedChain(store, genesis, h);
    var s := Chain(store, h);
    if i == h.number {
      assert s[..i + 1] == s;
    } else {
      var p := store[h.parent];
      ChainPrefix(store, genesis, p, i);
      RootedChain(store, genesis, p);
      assert s == Chain(store, p) + [h];
      assert s[..i + 1] == Chain(store, p)[..i + 1];
    }
  }

  /** Adding an attached header changes no existing chain. */
  lemma {:induction false} ChainExtends(store: Store, genesis: Header, new': Header, h: Header)
    requires Rooted(store, genesis) && Fits(store, new') && Attached(store, genesis, h)
    ensures Chain(store[new'.hash := new'], h) == Chain(store, h)
    decreases h.number
  {
    if h.number > 0 {
      ChainExtends(store, genesis, new', store[h.parent]);
    }
  }

  lemma RootedExtends(store: Store, genesis: Header, h: Header)
    requires Rooted(store, genesis) && Fits(store, h) && Attached(store, genesis, h)
    ensures Rooted(store[h.hash := h], genesis)
  {
    var next := store[h.hash := h];
    forall x | x in next ensures Attached(next, genesis, next[x]) {
      assert Attached(store, genesis, next[x]);
    }
  }
}
