/** The level reached by equalising the pending lists of large senders. */
module PendingLevels {
  import opened Base
  import opened Transactions
  import opened MapSum

  /** Flattened per-account lists: what txList.Flatten returns for each account. */
  type Lists = map<Address, seq<Tx>>

  function Lengths(p: Lists): (r: map<Address, int>) {
    map a | a in p :: |p[a]|
  }

  ghost function Total(p: Lists): int {
    Sum(Lengths(p))
  }

  lemma TotalUpdate(p: Lists, a: Address, s: seq<Tx>)
    requires a in p
    ensures Total(p[a := s]) == Total(p) - |p[a]| + |s|
  {
    assert Lengths(p[a := s]) == Lengths(p)[a := |s|];
    SumUpdate(Lengths(p), a, |s|);
  }

  function Prefix<T>(s: seq<T>, k: nat): (r: seq<T>) {
    if |s| <= k then s else s[..k]
  }

  /** Every non-local list cut to its `level` lowest nonces. */
  function Leveled(p: Lists, locals: set<Address>, level: nat): (r: Lists) {
    map a | a in p :: if a in locals then p[a] else Prefix(p[a], level)
  }

  /** The lists of the accounts in `who`, each without its highest nonce. */
  function Trimmed(p: Lists, who: set<Address>): (r: Lists) {
    map a | a in p :: if a in who && p[a] != [] then p[a][..|p[a]| - 1] else p[a]
  }

  /** Trimming exactly the accounts that stand at the level lowers the level by one. */
  lemma RoundLowersLevel(p: Lists, locals: set<Address>, level: nat, who: set<Address>)
    requires level > 0
    requires forall a :: a in p ==> (a in who <==> a !in locals && |p[a]| >= level)
    ensures Trimmed(Leveled(p, locals, level), who) == Leveled(p, locals, level - 1)
  {
    var l, r := Trimmed(Leveled(p, locals, level), who), Leveled(p, locals, level - 1);
    forall a | a in p ensures l[a] == r[a] {
      if a in who {
        assert Leveled(p, locals, level)[a] == p[a][..level];
        assert p[a][..level][..level - 1] == p[a][..level - 1];
      }
    }
  }

  lemma HighLevelKeepsAll(p: Lists, locals: set<Address>, level: nat)
    requires forall a :: a in p && a !in locals ==> |p[a]| <= level
    ensures Leveled(p, locals, level) == p
  {
  }

  /** Nothing has been cut, or every higher level is over the limit. */
  ghost predicate Tight(p: Lists, locals: set<Address>, limit: nat, level: nat) {
    Leveled(p, locals, level) == p || forall l: nat :: l > level ==> Total(Leveled(p, locals, l)) > limit
  }

  /** The result of equalisation: all non-local lists stand at one level, at least `slots`; the level
      meets the limit unless it is the floor; and no higher level would have met it. */
  ghost predicate WaterLevel(p: Lists, locals: set<Address>, slots: nat, limit: nat, level: nat) {
    && level >= slots
    && (Total(Leveled(p, locals, level)) <= limit || level == slots)
    && Tight(p, locals, limit, level)
  }

  lemma TotalSplit(p: Lists, a: Address)
    requires a in p
    ensures Total(p) == |p[a]| + Total(p - {a})
  {
    SumRemove(Lengths(p), a);
    assert Lengths(p) - {a} == Lengths(p - {a});
  }

  lemma LeveledSplit(p: Lists, locals: set<Address>, level: nat, a: Address)
    requires a in p
    ensures Total(Leveled(p, locals, level)) == |Leveled(p, locals, level)[a]| + Total(Leveled(p - {a}, locals, level))
  {
    TotalSplit(Leveled(p, locals, level), a);
    assert Leveled(p, locals, level) - {a} == Leveled(p - {a}, locals, level);
  }

  /** A lower level holds at most as much. */
  lemma {:induction false} TotalMonotone(p: Lists, locals: set<Address>, lo: nat, hi: nat)
    requires lo <= hi
    ensures Total(Leveled(p, locals, lo)) <= Total(Leveled(p, locals, hi))
    decreases |p|
  {
    if p == map[] {
      assert Leveled(p, locals, lo) == Leveled(p, locals, hi);
    } else {
      var a :| a in p;
      assert (p - {a}).Keys == p.Keys - {a};
      TotalMonotone(p - {a}, locals, lo, hi);
      LeveledSplit(p, locals, lo, a);
      LeveledSplit(p, locals, hi, a);
    }
  }

  lemma OverLimitAbove(p: Lists, locals: set<Address>, limit: nat, level: nat)
    requires Total(Leveled(p, locals, level)) > limit
    ensures forall l: nat :: l >= level ==> Total(Leveled(p, locals, l)) > limit
  {
    forall l: nat | l >= level ensures Total(Leveled(p, locals, l)) > limit {
      TotalMonotone(p, locals, level, l);
    }
  }

  /** The water level determines the result: two levels that both qualify give the same lists. */
  lemma WaterLevelUnique(p: Lists, locals: set<Address>, slots: nat, limit: nat, lo: nat, hi: nat)
    requires WaterLevel(p, locals, slots, limit, lo) && WaterLevel(p, locals, slots, limit, hi)
    requires lo <= hi
    ensures Leveled(p, locals, lo) == Leveled(p, locals, hi)
  {
    if lo < hi {
      LeveledFixed(p, locals, lo, hi);
    }
  }

  lemma LeveledFixed(p: Lists, locals: set<Address>, lo: nat, hi: nat)
    requires lo <= hi
    ensures Leveled(p, locals, lo) == p ==> Leveled(p, locals, hi) == p
  {
    if Leveled(p, locals, lo) == p {
      forall a | a in p ensures Leveled(p, locals, hi)[a] == p[a] {
        assert Leveled(p, locals, lo)[a] == p[a];
      }
    }
  }

  /** What the water level gives each account: local lists are untouched; every other list keeps a
      prefix, at least its first `slots`; and the total is within the limit unless no non-local list
      has more than `slots`. */
  lemma WaterLevelOutcome(p: Lists, locals: set<Address>, slots: nat, limit: nat, level: nat)
    requires WaterLevel(p, locals, slots, limit, level)
    ensures var r := Leveled(p, locals, level);
            && (forall a :: a in p && a in locals ==> r[a] == p[a])
            && (forall a :: a in p && a !in locals ==>
                  IsPrefix(r[a], p[a]) && |r[a]| == Min(|p[a]|, level) >= Min(|p[a]|, slots))
            && (Total(r) <= limit || forall a :: a in p && a !in locals ==> |r[a]| <= slots)
  {
    hide Total, Tight;
  }

  // ---------- What trimming does to `all` and to the pending nonces ----------

  ghost function DroppedHashes(before: Lists, after: Lists): (r: set<Hash>) {
    set a, i | a in before && a in after && |after[a]| <= i < |before[a]| :: before[a][i].hash
  }

  ghost predicate Prefixes(before: Lists, after: Lists) {
    after.Keys == before.Keys && forall a :: a in before ==> IsPrefix(after[a], before[a])
  }

  ghost predicate IsPrefix(p: seq<Tx>, s: seq<Tx>) {
    |p| <= |s| && p == s[..|p|]
  }

  lemma PrefixesTrim(before: Lists, after: Lists, a: Address)
    requires Prefixes(before, after) && a in after && after[a] != []
    ensures Prefixes(before, after[a := after[a][..|after[a]| - 1]])
    ensures after[a][|after[a]| - 1] == before[a][|after[a]| - 1]
  {
    var p, s := after[a], before[a];
    assert IsPrefix(p, s);
    assert p[..|p| - 1] == s[..|p| - 1];
    forall b | b in before ensures IsPrefix(after[a := p[..|p| - 1]][b], before[b]) {
      assert IsPrefix(after[b], before[b]);
    }
  }

  ghost predicate NoncesFollow(before: Lists, nonces0: map<Address, Uint64>, after: Lists, nonces: map<Address, Uint64>)
    requires after.Keys == before.Keys
  {
    && before.Keys <= nonces0.Keys && nonces.Keys == nonces0.Keys
    && forall a :: a in nonces0 ==>
         nonces[a] == if a in before && |after[a]| < |before[a]| then Min(nonces0[a], before[a][|after[a]|].nonce)
                      else nonces0[a]
  }

  /** The part of the pool that trimming the pending lists changes. */
  datatype Snapshot = Snapshot(pending: Lists, all: map<Hash, Tx>, nonces: map<Address, Uint64>)

  /** `pending` keeps a prefix of each list of `s`; exactly the rest has left `all`, and each
      account's pending nonce has fallen to its lowest dropped nonce. */
  ghost predicate Settled(s: Snapshot, pending: Lists, all: map<Hash, Tx>, nonces: map<Address, Uint64>) {
    && Prefixes(s.pending, pending)
    && all == s.all - DroppedHashes(s.pending, pending)
    && NoncesFollow(s.pending, s.nonces, pending, nonces)
  }

  /** Account nonces strictly increase along every list. */
  ghost predicate Sorted(p: Lists) {
    forall a :: a in p ==> Ascending(p[a])
  }

  function Lowered(nonce: Uint64, tx: Tx): (r: Uint64)
    ensures r <= nonce && r <= tx.nonce && (r == nonce || r == tx.nonce)
  {
    if nonce > tx.nonce then tx.nonce else nonce
  }

  lemma SettledTrim(s: Snapshot, pending: Lists, all: map<Hash, Tx>, nonces: map<Address, Uint64>, a: Address)
    requires Settled(s, pending, all, nonces) && Sorted(s.pending)
    requires a in pending && pending[a] != []
    ensures a in nonces
    ensures var n := |pending[a]| - 1; var tx := pending[a][n];
            Settled(s, pending[a := pending[a][..n]], all - {tx.hash}, nonces[a := Lowered(nonces[a], tx)])
  {
    PrefixesTrim(s.pending, pending, a);
    assert IsPrefix(pending[a], s.pending[a]);
    DroppedGrows(s.pending, pending, a);
    NoncesTrim(s.pending, s.nonces, pending, nonces, a);
    var n := |pending[a]| - 1;
    RemoveMore(s.all, all, DroppedHashes(s.pending, pending), DroppedHashes(s.pending, pending[a := pending[a][..n]]),
               pending[a][n].hash);
  }

  lemma SettledStart(pending: Lists, all: map<Hash, Tx>, nonces: map<Address, Uint64>)
    requires pending.Keys <= nonces.Keys
    ensures Settled(Snapshot(pending, all, nonces), pending, all, nonces)
  {
    assert DroppedHashes(pending, pending) == {};
    forall a | a in pending ensures IsPrefix(pending[a], pending[a]) {
    }
  }

  lemma RemoveMore(m: map<Hash, Tx>, all: map<Hash, Tx>, d: set<Hash>, d': set<Hash>, h: Hash)
    requires all == m - d && d' == d + {h}
    ensures all - {h} == m - d'
  {
  }

  lemma NoncesTrim(before: Lists, nonces0: map<Address, Uint64>, after: Lists, nonces: map<Address, Uint64>, a: Address)
    requires after.Keys == before.Keys && NoncesFollow(before, nonces0, after, nonces)
    requires a in after && after[a] != [] && Ascending(before[a])
    requires |after[a]| <= |before[a]| && after[a][|after[a]| - 1] == before[a][|after[a]| - 1]
    ensures var n := |after[a]| - 1;
            NoncesFollow(before, nonces0, after[a := after[a][..n]], nonces[a := Lowered(nonces[a], after[a][n])])
  {
    var n := |after[a]| - 1;
    assert n + 1 < |before[a]| ==> before[a][n].nonce < before[a][n + 1].nonce;
  }

  lemma DroppedGrows(before: Lists, after: Lists, a: Address)
    requires after.Keys == before.Keys && a in after && after[a] != []
    requires |after[a]| <= |before[a]| && after[a][|after[a]| - 1] == before[a][|after[a]| - 1]
    ensures var n := |after[a]| - 1;
            DroppedHashes(before, after[a := after[a][..n]]) == DroppedHashes(before, after) + {after[a][n].hash}
  {
    var n := |after[a]| - 1;
    var next := after[a := after[a][..n]];
    forall h | h in DroppedHashes(before, next) ensures h in DroppedHashes(before, after) + {after[a][n].hash} {
      var b, i :| b in before && b in next && |next[b]| <= i < |before[b]| && before[b][i].hash == h;
      assert (b == a && i == n) || |after[b]| <= i;
    }
    forall h | h in DroppedHashes(before, after) ensures h in DroppedHashes(before, next) {
      var b, i :| b in before && b in after && |after[b]| <= i < |before[b]| && before[b][i].hash == h;
      assert |next[b]| <= i;
    }
  }
}
