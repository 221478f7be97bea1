/** The transaction lookup table and what a reorganisation does to it. */
module TxLookup {
  import opened Base
  import opened Ancestry

  /** TxLookupEntry. */
  datatype Position = Position(blockHash: Hash, blockIndex: nat, index: nat)

  type Table = map<Hash, Position>

  /** The entries that WriteTxLookupEntries has written after `n` transactions of the block. */
  function EntriesUpTo(b: Header, n: nat): (r: Table)
    requires n <= |b.txs|
  {
    if n == 0 then map[] else EntriesUpTo(b, n - 1)[b.txs[n - 1] := Position(b.hash, b.number, n - 1)]
  }

  function Entries(b: Header): (r: Table) {
    EntriesUpTo(b, |b.txs|)
  }

  /** The table for a chain: the entries of its blocks, written oldest first. */
  function LookupOf(chain: seq<Header>): (r: Table) {
    if chain == [] then map[] else LookupOf(chain[..|chain| - 1]) + Entries(chain[|chain| - 1])
  }

  function TxsOf(chain: seq<Header>): (r: seq<Hash>) {
    if chain == [] then [] else TxsOf(chain[..|chain| - 1]) + chain[|chain| - 1].txs
  }

  lemma MergeAssociates(x: Table, y: Table, z: Table)
    ensures x + y + z == x + (y + z)
  {
  }

  lemma {:induction false} LookupConcat(a: seq<Header>, b: seq<Header>)
    ensures LookupOf(a + b) == LookupOf(a) + LookupOf(b)
  {
    hide Entries;
    if b == [] {
      assert a + b == a;
    } else {
      var n := |b| - 1;
      LookupConcat(a, b[..n]);
      assert (a + b)[..|a + b| - 1] == a + b[..n];
      MergeAssociates(LookupOf(a), LookupOf(b[..n]), Entries(b[n]));
    }
  }

  lemma {:induction false} TxsConcat(a: seq<Header>, b: seq<Header>)
    ensures TxsOf(a + b) == TxsOf(a) + TxsOf(b)
  {
    if b == [] {
      assert a + b == a;
    } else {
      var n := |b| - 1;
      TxsConcat(a, b[..n]);
      var ab := a + b;
      assert ab[..|ab| - 1] == a + b[..n] && ab[|ab| - 1] == b[n];
      assert TxsOf(a) + TxsOf(b[..n]) + b[n].txs == TxsOf(a) + (TxsOf(b[..n]) + b[n].txs);
    }
  }

  lemma {:induction false} EntriesKeys(b: Header, n: nat)
    requires n <= |b.txs|
    ensures forall t :: t in EntriesUpTo(b, n) <==> t in b.txs[..n]
  {
    if n > 0 {
      EntriesKeys(b, n - 1);
      assert b.txs[..n] == b.txs[..n - 1] + [b.txs[n - 1]];
    }
  }

  lemma {:induction false} LookupKeys(chain: seq<Header>)
    ensures forall t :: t in LookupOf(chain) <==> t in TxsOf(chain)
  {
    if chain != [] {
      var b := chain[|chain| - 1];
      LookupKeys(chain[..|chain| - 1]);
      EntriesKeys(b, |b.txs|);
      assert b.txs[..|b.txs|] == b.txs;
    }
  }

  /** From the table of the old chain to that of the new one: write the entries of the new blocks,
      then delete the transactions that only the old blocks had. */
  lemma LookupReorg(shared: seq<Header>, older: seq<Header>, newer: seq<Header>, gone: set<Hash>)
    requires forall t :: t in TxsOf(older) ==> t !in TxsOf(shared)
    requires forall t :: t in gone <==> t in TxsOf(older) && t !in TxsOf(newer)
    ensures LookupOf(shared + older) + LookupOf(newer) - gone == LookupOf(shared + newer)
  {
    LookupConcat(shared, older);
    LookupConcat(shared, newer);
    LookupKeys(shared);
    LookupKeys(older);
    LookupKeys(newer);
  }

  lemma {:induction false} EntriesAt(b: Header, n: nat, i: nat)
    requires i < n <= |b.txs| && Distinct(b.txs)
    ensures b.txs[i] in EntriesUpTo(b, n) && EntriesUpTo(b, n)[b.txs[i]] == Position(b.hash, b.number, i)
  {
    if i < n - 1 {
      EntriesAt(b, n - 1, i);
    }
  }

  /** On a chain without repeated transactions the table holds exactly the chain's transactions, each
      at its block and index. */
  lemma {:induction false} LookupExact(chain: seq<Header>, j: nat, i: nat)
    requires Distinct(TxsOf(chain)) && j < |chain| && i < |chain[j].txs|
    ensures var t := chain[j].txs[i];
            t in LookupOf(chain) && LookupOf(chain)[t] == Position(chain[j].hash, chain[j].number, i)
  {
    var n := |chain| - 1;
    var init, b := chain[..n], chain[n];
    DistinctParts(TxsOf(init), b.txs);
    EntriesKeys(b, |b.txs|);
    assert b.txs[..|b.txs|] == b.txs;
    if j == n {
      EntriesAt(b, |b.txs|, i);
    } else {
      LookupExact(init, j, i);
      LookupKeys(init);
      var t := init[j].txs[i];
      assert t in TxsOf(init);
      assert t !in b.txs;
    }
  }

  lemma DistinctParts(a: seq<Hash>, b: seq<Hash>)
    requires Distinct(a + b)
    ensures Distinct(a) && Distinct(b)
    ensures forall t :: t in a ==> t !in b
  {
    var s := a + b;
    forall i, j | 0 <= i < j < |a| ensures a[i] != a[j] {
      assert s[i] == a[i] && s[j] == a[j];
    }
    forall i, j | 0 <= i < j < |b| ensures b[i] != b[j] {
      assert s[|a| + i] == b[i] && s[|a| + j] == b[j];
    }
    forall t | t in a ensures t !in b {
      var i :| 0 <= i < |a| && a[i] == t;
      forall j | 0 <= j < |b| ensures b[j] != t {
        assert s[i] == t && s[|a| + j] == b[j];
      }
    }
  }
}
