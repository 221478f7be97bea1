/** What the global queue limit takes away: whole lists of the most recently active accounts first,
    and of the last account only the highest nonces. */
module QueueShed {
  import opened Base
  import opened Transactions
  import opened MapSum
  import opened PendingLevels
  import TxList

  /** The list without the given nonce: a non-strict txList.Remove. */
  function DropNonce(s: seq<Tx>, n: Uint64): (r: seq<Tx>) {
    if s == [] then [] else if s[0].nonce == n then DropNonce(s[1..], n) else [s[0]] + DropNonce(s[1..], n)
  }

  lemma {:induction false} DropAbsent(s: seq<Tx>, n: Uint64)
    requires forall i :: 0 <= i < |s| ==> s[i].nonce != n
    ensures DropNonce(s, n) == s
  {
    if s != [] {
      DropAbsent(s[1..], n);
    }
  }

  lemma {:induction false} DropAt(s: seq<Tx>, i: nat)
    requires Ascending(s) && i < |s|
    ensures DropNonce(s, s[i].nonce) == s[..i] + s[i + 1..]
  {
    if i == 0 {
      DropAbsent(s[1..], s[0].nonce);
    } else {
      var rest, n := s[1..], s[i].nonce;
      assert Ascending(rest) && rest[i - 1] == s[i] && s[0].nonce < n;
      hide Ascending;
      DropAt(rest, i - 1);
      assert DropNonce(s, n) == [s[0]] + DropNonce(rest, n);
      hide DropNonce;
      assert [s[0]] + (rest[..i - 1] + rest[i..]) == s[..i] + s[i + 1..];
    }
  }

  function Lookup(s: seq<Tx>, n: Uint64): (r: Option<Tx>)
    ensures r.Some? ==> r.value in s && r.value.nonce == n
    ensures r.None? ==> forall tx :: tx in s ==> tx.nonce != n
  {
    if s == [] then None else if s[0].nonce == n then Some(s[0]) else Lookup(s[1..], n)
  }

  /** The transactions below the nonce, and those above it: what a strict txList.Remove keeps and
      hands back. */
  function LowerPart(s: seq<Tx>, n: Uint64): (r: seq<Tx>)
    ensures forall tx :: tx in r <==> tx in s && tx.nonce < n
  {
    if s == [] then [] else (if s[0].nonce < n then [s[0]] else []) + LowerPart(s[1..], n)
  }

  function UpperPart(s: seq<Tx>, n: Uint64): (r: seq<Tx>)
    ensures forall tx :: tx in r <==> tx in s && tx.nonce > n
  {
    if s == [] then [] else (if s[0].nonce > n then [s[0]] else []) + UpperPart(s[1..], n)
  }

  /** The list with the transaction at its nonce's place: txList.Add once the price is accepted. */
  function InsertTx(s: seq<Tx>, tx: Tx): (r: seq<Tx>) {
    if s == [] then [tx]
    else if tx.nonce < s[0].nonce then [tx] + s
    else if tx.nonce == s[0].nonce then [tx] + s[1..]
    else [s[0]] + InsertTx(s[1..], tx)
  }

  lemma {:induction false} InsertKeepsOrder(s: seq<Tx>, tx: Tx)
    requires Ascending(s)
    ensures Ascending(InsertTx(s, tx))
    ensures forall t :: t in InsertTx(s, tx) <==> t == tx || (t in s && t.nonce != tx.nonce)
  {
    if s != [] {
      assert forall t :: t in s <==> t == s[0] || t in s[1..];
      if tx.nonce > s[0].nonce {
        InsertKeepsOrder(s[1..], tx);
        var r, q := InsertTx(s, tx), InsertTx(s[1..], tx);
        forall i, j | 0 <= i < j < |r| ensures r[i].nonce < r[j].nonce {
          assert r[j] in q;
        }
      }
    }
  }

  /** InsertTx is what putting a transaction does to the listing of a txList. */
  lemma InsertIsPut(m: NonceMap, tx: Tx)
    ensures InsertTx(Listing(m), tx) == Listing(m[tx.nonce := tx])
  {
    hide Listing, InsertTx;
    ListingEnumerates(m);
    InsertKeepsOrder(Listing(m), tx);
    EnumerationIsListing(InsertTx(Listing(m), tx), m[tx.nonce := tx]);
  }

  lemma {:induction false} PartsKeepOrder(s: seq<Tx>, n: Uint64)
    requires Ascending(s)
    ensures Ascending(LowerPart(s, n)) && Ascending(UpperPart(s, n))
  {
    if s != [] {
      PartsKeepOrder(s[1..], n);
      forall tx | tx in s[1..] ensures s[0].nonce < tx.nonce {
        var i :| 0 <= i < |s[1..]| && s[1..][i] == tx;
        assert s[i + 1] == tx;
      }
      ConsKeepsOrder(s[0], LowerPart(s[1..], n));
      ConsKeepsOrder(s[0], UpperPart(s[1..], n));
    }
  }

  lemma ConsKeepsOrder(tx: Tx, s: seq<Tx>)
    requires Ascending(s)
    ensures (forall t :: t in s ==> tx.nonce < t.nonce) ==> Ascending([tx] + s)
    ensures Ascending([] + s)
  {
    if forall t :: t in s ==> tx.nonce < t.nonce {
      AscendingConcat([tx], s);
    }
    assert [] + s == s;
  }

  /** LowerPart is what a strict txList.Remove keeps, UpperPart what it hands back. */
  lemma PartsAreRemove(m: NonceMap, n: Uint64)
    ensures LowerPart(Listing(m), n) == Listing(Below(m, n))
    ensures UpperPart(Listing(m), n) == Listing(AtLeast(m, n + 1))
  {
    ListingEnumerates(m);
    var s := Listing(m);
    PartsKeepOrder(s, n);
    hide Listing, LowerPart, UpperPart;
    PartIsListing(s, m, LowerPart(s, n), Below(m, n));
    PartIsListing(s, m, UpperPart(s, n), AtLeast(m, n + 1));
  }

  lemma PartIsListing(s: seq<Tx>, m: NonceMap, part: seq<Tx>, r: NonceMap)
    requires Enumerates(s, m) && Ascending(part)
    requires forall tx :: tx in part <==> tx in s && tx.nonce in r
    requires forall k :: k in r ==> k in m && r[k] == m[k]
    ensures part == Listing(r)
  {
    hide Listing, Ascending;
    EnumerationIsListing(part, r);
  }

  lemma LookupUnique(s: seq<Tx>, tx: Tx)
    requires Ascending(s) && tx in s
    ensures Lookup(s, tx.nonce) == Some(tx)
  {
    var t := Lookup(s, tx.nonce).value;
    var i :| 0 <= i < |s| && s[i] == tx;
    var j :| 0 <= j < |s| && s[j] == t;
  }

  // ---------- Putting invalidated transactions back ----------

  type Known = map<Hash, Tx>

  function ListAt(q: Lists, a: Address): (s: seq<Tx>) { if a in q then q[a] else [] }

  /** Whether the list takes the transaction: its nonce is free, or the one there is outbid. */
  predicate Takes(s: seq<Tx>, tx: Tx, bump: Uint64) {
    Lookup(s, tx.nonce).Some? ==> TxList.Replaces(Lookup(s, tx.nonce).value, tx, bump)
  }

  /** enqueueTx. */
  function Enqueued(q: Lists, all: Known, tx: Tx, bump: Uint64): (r: (Lists, Known)) {
    var list := ListAt(q, tx.sender);
    var prior := Lookup(list, tx.nonce);
    if !Takes(list, tx, bump) then (q, all)
    else (q[tx.sender := InsertTx(list, tx)],
          (if prior.Some? then all - {prior.value.hash} else all)[tx.hash := tx])
  }

  function EnqueuedAll(q: Lists, all: Known, txs: seq<Tx>, bump: Uint64): (r: (Lists, Known)) {
    if txs == [] then (q, all) else
      var (q1, all1) := EnqueuedAll(q, all, txs[..|txs| - 1], bump);
      Enqueued(q1, all1, txs[|txs| - 1], bump)
  }

  /** Transactions of one account with different nonces, put into its queue in any order: each takes its
      place if the queue as it was takes it, and only what is outbid goes. */
  lemma {:induction false} EnqueuedAllOutcome(q: Lists, all: Known, a: Address, txs: seq<Tx>, bump: Uint64)
    requires Ascending(ListAt(q, a)) && forall tx :: tx in txs ==> tx.sender == a
    requires forall i, j :: 0 <= i < j < |txs| ==> txs[i].nonce != txs[j].nonce
    ensures var r := EnqueuedAll(q, all, txs, bump).0;
            && Ascending(ListAt(r, a))
            && (forall b :: b != a ==> (b in r <==> b in q) && ListAt(r, b) == ListAt(q, b))
            && forall t :: t in ListAt(r, a) <==> Landed(ListAt(q, a), txs, bump, t)
    decreases |txs|
  {
    if txs != [] {
      var n := |txs| - 1;
      var tx, list := txs[n], ListAt(q, a);
      EnqueuedAllOutcome(q, all, a, txs[..n], bump);
      var (q1, all1) := EnqueuedAll(q, all, txs[..n], bump);
      TakesSame(list, ListAt(q1, a), txs, bump);
      InsertKeepsOrder(ListAt(q1, a), tx);
      hide InsertTx, Lookup, EnqueuedAll;
      forall t ensures t in ListAt(Enqueued(q1, all1, tx, bump).0, a) <==> Landed(list, txs, bump, t) {
        LandedSnoc(list, txs, bump, t);
      }
    }
  }

  ghost predicate IsKnown(all: Known, t: Tx) { t.hash in all && all[t.hash] == t }

  /** No two of the transactions at hand share a hash. */
  ghost predicate HashesDiffer(s: seq<Tx>, all: Known, txs: seq<Tx>) {
    forall t, u :: (t in s || t in txs || IsKnown(all, t)) && (u in s || u in txs || IsKnown(all, u))
                   && t.hash == u.hash ==>
      t == u
  }

  /** `t` was outbid: one of `txs` has taken its place. */
  ghost predicate Outbid(s: seq<Tx>, txs: seq<Tx>, bump: Uint64, t: Tx) {
    t in s && exists x :: x in txs && Takes(s, x, bump) && x.nonce == t.nonce
  }

  /** Putting them there makes those known that took a place, and those unknown that were outbid; one that was
      not taken stays known if it was. */
  lemma {:induction false} EnqueuedAllKnown(q: Lists, all: Known, a: Address, txs: seq<Tx>, bump: Uint64, t: Tx)
    requires Ascending(ListAt(q, a)) && forall tx :: tx in txs ==> tx.sender == a
    requires forall i, j :: 0 <= i < j < |txs| ==> txs[i].nonce != txs[j].nonce
    requires HashesDiffer(ListAt(q, a), all, txs)
    ensures IsKnown(EnqueuedAll(q, all, txs, bump).1, t) <==>
              var list := ListAt(q, a);
              (t in txs && Takes(list, t, bump)) || (IsKnown(all, t) && !Outbid(list, txs, bump, t))
    decreases |txs|
  {
    hide Takes, Enqueued, HashesDiffer, Ascending, ListAt, Landed;
    if txs != [] {
      var n := |txs| - 1;
      var tx, list := txs[n], ListAt(q, a);
      HashesDifferInit(list, all, txs);
      EnqueuedAllKnown(q, all, a, txs[..n], bump, t);
      EnqueuedAllOutcome(q, all, a, txs[..n], bump);
      var (q1, all1) := EnqueuedAll(q, all, txs[..n], bump);
      hide *;
      TakesSame(list, ListAt(q1, a), txs, bump);
      OutbidSnoc(list, txs, bump, t);
      PriorIs(list, ListAt(q1, a), txs, bump);
      EnqueuedKnown(q1, all1, tx, bump, t);
      KnownStep(list, all, txs, bump, t, IsKnown(all1, t), Lookup(ListAt(q1, a), tx.nonce));
    } else {
      assert !Outbid(ListAt(q, a), txs, bump, t);
    }
  }

  lemma HashesDifferInit(s: seq<Tx>, all: Known, txs: seq<Tx>)
    requires HashesDiffer(s, all, txs) && txs != []
    ensures HashesDiffer(s, all, txs[..|txs| - 1])
  {
  }

  lemma EnqueuedKnown(q: Lists, all: Known, tx: Tx, bump: Uint64, t: Tx)
    ensures var list := ListAt(q, tx.sender);
            var prior := Lookup(list, tx.nonce);
            IsKnown(Enqueued(q, all, tx, bump).1, t) <==>
              if Takes(list, tx, bump)
              then t == tx || (IsKnown(all, t) && t.hash != tx.hash && (prior.Some? ==> t.hash != prior.value.hash))
              else IsKnown(all, t)
  {
    hide Takes, Lookup, InsertTx;
  }

  lemma KnownStep(s: seq<Tx>, all: Known, txs: seq<Tx>, bump: Uint64, t: Tx, was: bool, prior: Option<Tx>)
    requires txs != [] && HashesDiffer(s, all, txs)
    requires forall i, j :: 0 <= i < j < |txs| ==> txs[i].nonce != txs[j].nonce
    requires var init, tx := txs[..|txs| - 1], txs[|txs| - 1];
             && (was <==> (t in init && Takes(s, t, bump)) || (IsKnown(all, t) && !Outbid(s, init, bump, t)))
             && (forall u :: prior == Some(u) <==> u in s && u.nonce == tx.nonce)
             && (Outbid(s, txs, bump, t) <==>
                   Outbid(s, init, bump, t) || (t in s && Takes(s, tx, bump) && tx.nonce == t.nonce))
    ensures var tx := txs[|txs| - 1];
            (t in txs && Takes(s, t, bump)) || (IsKnown(all, t) && !Outbid(s, txs, bump, t)) <==>
              if Takes(s, tx, bump)
              then t == tx || (was && t.hash != tx.hash && (prior.Some? ==> t.hash != prior.value.hash))
              else was
  {
    hide Takes, Outbid, IsKnown;
    var init, tx := txs[..|txs| - 1], txs[|txs| - 1];
    assert t in txs <==> t in init || t == tx;
    assert t in init ==> t.nonce != tx.nonce;
    assert tx in txs && (prior.Some? ==> prior.value in s);
  }

  lemma OutbidSnoc(s: seq<Tx>, txs: seq<Tx>, bump: Uint64, t: Tx)
    requires txs != []
    ensures var init, tx := txs[..|txs| - 1], txs[|txs| - 1];
            Outbid(s, txs, bump, t) <==>
              Outbid(s, init, bump, t) || (t in s && Takes(s, tx, bump) && tx.nonce == t.nonce)
  {
    hide Takes;
    assert forall x :: x in txs <==> x in txs[..|txs| - 1] || x == txs[|txs| - 1];
  }

  /** What the last one finds at its nonce was there from the start. */
  lemma PriorIs(s: seq<Tx>, now: seq<Tx>, txs: seq<Tx>, bump: Uint64)
    requires txs != [] && Ascending(s) && Ascending(now)
    requires forall i, j :: 0 <= i < j < |txs| ==> txs[i].nonce != txs[j].nonce
    requires forall t :: t in now <==> Landed(s, txs[..|txs| - 1], bump, t)
    ensures var tx := txs[|txs| - 1];
            forall t :: Lookup(now, tx.nonce) == Some(t) <==> t in s && t.nonce == tx.nonce
  {
    var init, tx := txs[..|txs| - 1], txs[|txs| - 1];
    hide Lookup, Takes;
    var here := Lookup(now, tx.nonce);
    assert forall x :: x in init ==> x.nonce != tx.nonce;
    assert here.Some? ==> Landed(s, init, bump, here.value);
    forall t | t in s && t.nonce == tx.nonce ensures here == Some(t) {
      assert Landed(s, init, bump, t);
      LookupUnique(now, t);
    }
  }

  ghost predicate Landed(s: seq<Tx>, txs: seq<Tx>, bump: Uint64, t: Tx) {
    || (t in txs && Takes(s, t, bump))
    || (t in s && forall x :: x in txs && Takes(s, x, bump) ==> x.nonce != t.nonce)
  }

  lemma LandedSnoc(s: seq<Tx>, txs: seq<Tx>, bump: Uint64, t: Tx)
    requires txs != [] && forall i, j :: 0 <= i < j < |txs| ==> txs[i].nonce != txs[j].nonce
    ensures var (init, tx) := (txs[..|txs| - 1], txs[|txs| - 1]);
            Landed(s, txs, bump, t) <==>
              if Takes(s, tx, bump) then t == tx || (Landed(s, init, bump, t) && t.nonce != tx.nonce)
              else Landed(s, init, bump, t)
  {
    hide Takes;
    var init, tx := txs[..|txs| - 1], txs[|txs| - 1];
    assert forall x :: x in txs <==> x in init || x == tx;
    assert t in init ==> t.nonce != tx.nonce;
  }

  /** What happened at other nonces does not change whether a transaction is taken. */
  lemma TakesSame(s: seq<Tx>, now: seq<Tx>, txs: seq<Tx>, bump: Uint64)
    requires txs != [] && Ascending(s) && Ascending(now)
    requires forall i, j :: 0 <= i < j < |txs| ==> txs[i].nonce != txs[j].nonce
    requires forall t :: t in now <==> Landed(s, txs[..|txs| - 1], bump, t)
    ensures var tx := txs[|txs| - 1]; Takes(now, tx, bump) <==> Takes(s, tx, bump)
  {
    var init, tx := txs[..|txs| - 1], txs[|txs| - 1];
    hide Lookup;
    var was, here := Lookup(s, tx.nonce), Lookup(now, tx.nonce);
    assert forall x :: x in init ==> x.nonce != tx.nonce;
    assert here.Some? ==> Landed(s, init, bump, here.value);
    if was.Some? {
      assert Landed(s, init, bump, was.value);
      LookupUnique(now, was.value);
    }
  }

  /** removeTx on an account whose transaction is queued: the list shrinks, and goes when empty. */
  function Dequeued(q: Lists, a: Address, n: Uint64): (r: Lists) {
    if a !in q then q
    else if DropNonce(q[a], n) == [] then q - {a}
    else q[a := DropNonce(q[a], n)]
  }

  /** DropNonce is what removing the nonce does to the listing of a txList. */
  lemma DropNonceIsRemove(m: NonceMap, n: Uint64)
    ensures DropNonce(Listing(m), n) == Listing(m - {n})
  {
    hide Listing, DropNonce;
    ListingEnumerates(m);
    var s := Listing(m);
    if n in m {
      assert Holds(m, m[n]) && m[n] in s;
      var i :| 0 <= i < |s| && s[i] == m[n];
      DropAt(s, i);
      CutEnumerates(m, s, i);
      EnumerationIsListing(s[..i] + s[i + 1..], m - {n});
    } else {
      forall i | 0 <= i < |s| ensures s[i].nonce != n {
        assert s[i] in s;
      }
      DropAbsent(s, n);
      assert m - {n} == m;
    }
  }

  lemma CutEnumerates(m: NonceMap, s: seq<Tx>, i: nat)
    requires Enumerates(s, m) && i < |s|
    ensures Enumerates(s[..i] + s[i + 1..], m - {s[i].nonce})
  {
    var r := s[..i] + s[i + 1..];
    forall tx ensures tx in r <==> Holds(m - {s[i].nonce}, tx) {
      assert tx in s <==> tx in s[..i] || tx == s[i] || tx in s[i + 1..];
      assert tx in r ==> tx.nonce != s[i].nonce;
    }
  }

  /** Takes `drop` transactions off the queue, from the end of `order` backwards. */
  function Shed(q: Lists, order: seq<Address>, drop: nat): (r: Lists)
    decreases |order|
  {
    if drop == 0 || order == [] then q
    else
      var a, rest := order[|order| - 1], order[..|order| - 1];
      if a !in q then Shed(q, rest, drop)
      else if |q[a]| <= drop then Shed(q - {a}, rest, drop - |q[a]|)
      else q[a := q[a][..|q[a]| - drop]]
  }

  ghost function TotalOf(q: Lists, order: seq<Address>): (n: nat) {
    if order == [] then 0
    else var a := order[|order| - 1];
         (if a in q then |q[a]| else 0) + TotalOf(q, order[..|order| - 1])
  }

  lemma {:induction false} TotalOfUnaffected(q: Lists, order: seq<Address>, a: Address)
    requires a !in order
    ensures TotalOf(q - {a}, order) == TotalOf(q, order)
  {
    if order != [] {
      TotalOfUnaffected(q, order[..|order| - 1], a);
    }
  }

  /** Shedding removes exactly `drop` transactions, or all of the ordered accounts' if fewer. */
  lemma {:induction false} ShedTotal(q: Lists, order: seq<Address>, drop: nat)
    requires Distinct(order)
    ensures Total(Shed(q, order, drop)) == Total(q) - Min(drop, TotalOf(q, order))
    decreases |order|
  {
    if drop != 0 && order != [] {
      var a, rest := order[|order| - 1], order[..|order| - 1];
      if a !in q {
        ShedTotal(q, rest, drop);
      } else if |q[a]| <= drop {
        ShedTotal(q - {a}, rest, drop - |q[a]|);
        TotalOfUnaffected(q, rest, a);
        TotalSplit(q, a);
      } else {
        TotalUpdate(q, a, q[a][..|q[a]| - drop]);
      }
    }
  }

  /** Accounts outside the order keep their lists; the others keep a prefix or nothing. */
  lemma {:induction false} ShedPrefixes(q: Lists, order: seq<Address>, drop: nat)
    requires Distinct(order)
    ensures var r := Shed(q, order, drop);
            && r.Keys <= q.Keys
            && (forall a :: a in r ==> IsPrefix(r[a], q[a]))
            && (forall a :: a in q && a !in order ==> a in r && r[a] == q[a])
    decreases |order|
  {
    if drop != 0 && order != [] {
      var a, rest := order[|order| - 1], order[..|order| - 1];
      if a !in q {
        ShedPrefixes(q, rest, drop);
      } else if |q[a]| <= drop {
        ShedPrefixes(q - {a}, rest, drop - |q[a]|);
      }
    }
  }

  /** When everything is taken, nothing of the ordered accounts is left. */
  lemma {:induction false} ShedAll(q: Lists, order: seq<Address>, drop: nat)
    requires Distinct(order) && TotalOf(q, order) <= drop
    requires forall a :: a in q ==> q[a] != []
    ensures forall a :: a in order ==> a !in Shed(q, order, drop)
    decreases |order|
  {
    if order != [] {
      var a, rest := order[|order| - 1], order[..|order| - 1];
      if drop == 0 {
        EmptyTotal(q, order);
      } else if a !in q {
        ShedAll(q, rest, drop);
        ShedPrefixes(q, rest, drop);
      } else {
        TotalOfUnaffected(q, rest, a);
        ShedAll(q - {a}, rest, drop - |q[a]|);
        ShedPrefixes(q - {a}, rest, drop - |q[a]|);
      }
    }
  }

  lemma {:induction false} EmptyTotal(q: Lists, order: seq<Address>)
    requires TotalOf(q, order) == 0
    requires forall a :: a in q ==> q[a] != []
    ensures forall a :: a in order ==> a !in q
  {
    if order != [] {
      EmptyTotal(q, order[..|order| - 1]);
    }
  }

  function Restricted(q: Lists, who: set<Address>): (r: Lists) {
    map a | a in q && a in who :: q[a]
  }

  lemma {:induction false} TotalOfRestricted(q: Lists, order: seq<Address>)
    requires Distinct(order) && forall a :: a in order ==> a in q
    ensures TotalOf(q, order) == Total(Restricted(q, set a | a in order))
    decreases |order|
  {
    var who := set a | a in order;
    if order == [] {
      assert Lengths(Restricted(q, who)) == map[];
    } else {
      var a, rest := order[|order| - 1], order[..|order| - 1];
      TotalOfRestricted(q, rest);
      assert a !in rest && forall b :: b in order <==> b in rest || b == a;
      assert a in Restricted(q, who);
      TotalSplit(Restricted(q, who), a);
      assert Restricted(q, who) - {a} == Restricted(q, set b | b in rest);
    }
  }

  /** The hashes of what `q0` holds and `q` does not. */
  ghost function GoneHashes(q0: Lists, q: Lists): (r: set<Hash>) {
    set a, tx | a in q0 && tx in q0[a] && !(a in q && tx in q[a]) :: tx.hash
  }

  function Hashes(s: seq<Tx>): (r: set<Hash>) {
    set tx | tx in s :: tx.hash
  }

  lemma GoneWhole(q0: Lists, q: Lists, a: Address)
    requires a in q0 && a in q && q[a] == q0[a]
    ensures GoneHashes(q0, q - {a}) == GoneHashes(q0, q) + Hashes(q0[a])
  {
    var l, r := GoneHashes(q0, q - {a}), GoneHashes(q0, q) + Hashes(q0[a]);
    forall h | h in r ensures h in l {
      if h in GoneHashes(q0, q) {
        var b, tx :| b in q0 && tx in q0[b] && !(b in q && tx in q[b]) && tx.hash == h;
        assert !(b in q - {a} && tx in (q - {a})[b]);
      } else {
        var tx :| tx in q0[a] && tx.hash == h;
        assert a !in q - {a};
      }
    }
    forall h | h in l ensures h in r {
      var b, tx :| b in q0 && tx in q0[b] && !(b in q - {a} && tx in (q - {a})[b]) && tx.hash == h;
      if b != a {
        assert !(b in q && tx in q[b]);
      }
    }
  }

  lemma GoneTail(q0: Lists, q: Lists, a: Address, k: nat)
    requires a in q0 && a in q && q[a] == q0[a] && k <= |q0[a]| && Ascending(q0[a])
    ensures GoneHashes(q0, q[a := q0[a][..k]]) == GoneHashes(q0, q) + Hashes(q0[a][k..])
  {
    var s, q' := q0[a], q[a := q0[a][..k]];
    var l, r := GoneHashes(q0, q'), GoneHashes(q0, q) + Hashes(s[k..]);
    forall tx ensures tx in s <==> tx in s[..k] || tx in s[k..] {
    }
    forall tx | tx in s[k..] ensures tx !in s[..k] {
    }
    forall h | h in r ensures h in l {
      if h in GoneHashes(q0, q) {
        var b, tx :| b in q0 && tx in q0[b] && !(b in q && tx in q[b]) && tx.hash == h;
        assert !(b in q' && tx in q'[b]);
      } else {
        var tx :| tx in s[k..] && tx.hash == h;
        assert !(a in q' && tx in q'[a]);
      }
    }
    forall h | h in l ensures h in r {
      var b, tx :| b in q0 && tx in q0[b] && !(b in q' && tx in q'[b]) && tx.hash == h;
      if b != a {
        assert !(b in q && tx in q[b]);
      }
    }
  }

  /** No account loses anything while a later one in the order still has queued transactions. */
  lemma {:induction false} ShedFromTheEnd(q: Lists, order: seq<Address>, drop: nat, i: nat, j: nat)
    requires Distinct(order) && i < j < |order|
    requires forall a :: a in order ==> a in q
    ensures var r := Shed(q, order, drop);
            order[j] in r ==> order[i] in r && r[order[i]] == q[order[i]]
    decreases |order|
  {
    if drop != 0 {
      var a, rest := order[|order| - 1], order[..|order| - 1];
      assert order[i] in rest;
      if |q[a]| <= drop {
        ShedPrefixes(q - {a}, rest, drop - |q[a]|);
        if j < |rest| {
          ShedFromTheEnd(q - {a}, rest, drop - |q[a]|, i, j);
        }
      }
    }
  }

  /** The queue limit removes exactly the excess, or everything of the non-local accounts if that is
      fewer; it ends within the limit or with only local accounts queued, and leaves those alone. */
  lemma QueueLimitOutcome(q: Lists, locals: set<Address>, order: seq<Address>, limit: nat)
    requires Distinct(order) && forall a :: a in order <==> a in q && a !in locals
    requires forall a :: a in q ==> q[a] != []
    requires Total(q) > limit
    ensures var r := Shed(q, order, Total(q) - limit);
            && Total(r) == Total(q) - Min(Total(q) - limit, Total(Restricted(q, q.Keys - locals)))
            && (Total(r) <= limit || forall a :: a in r ==> a in locals)
            && (forall a :: a in q && a in locals ==> a in r && r[a] == q[a])
            && (forall a :: a in r ==> a in q && IsPrefix(r[a], q[a]))
  {
    hide Shed;
    var excess := Total(q) - limit;
    ShedTotal(q, order, excess);
    ShedPrefixes(q, order, excess);
    TotalOfRestricted(q, order);
    assert Restricted(q, set a | a in order) == Restricted(q, q.Keys - locals);
    if TotalOf(q, order) <= excess {
      ShedAll(q, order, excess);
      forall a | a in Shed(q, order, excess) ensures a in locals {
        assert a in q;
      }
    }
  }
}
