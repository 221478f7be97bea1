/** Vote batches: what a batch does to an account's vote list and to the delegates' tallies. */
module Votes {
  import opened Base

  /** Operation 0 votes for the candidate, 1 takes the vote back; any other is refused. */
  datatype Vote = Vote(candidate: Address, operation: nat)

  /** One vote of changeVoteList. */
  function Step(list: seq<Address>, v: Vote, pool: set<Address>): (r: Option<seq<Address>>) {
    var i := FirstIndex(list, v.candidate);
    if v.operation == 0 && i < 0 && v.candidate in pool then Some(list + [v.candidate])
    else if v.operation == 1 && i >= 0 then Some(RemoveAt(list, i))
    else None
  }

  function Changed(list: seq<Address>, votes: seq<Vote>, pool: set<Address>): (r: Option<seq<Address>>)
    decreases |votes|
  {
    if votes == [] then Some(list) else
      var next := Step(list, votes[0], pool);
      if next.None? then None else Changed(next.value, votes[1..], pool)
  }

  /** Whether `c` is voted for after the first `n` votes, read off the last vote on `c` alone. */
  predicate VotedAfter(list: seq<Address>, votes: seq<Vote>, n: nat, c: Address)
    requires n <= |votes|
  {
    if n == 0 then c in list
    else if votes[n - 1].candidate == c then votes[n - 1].operation == 0
    else VotedAfter(list, votes, n - 1, c)
  }

  /** Per candidate, additions and removals alternate from where the list stands, and only pool members
      are added. */
  predicate Legal(list: seq<Address>, votes: seq<Vote>, pool: set<Address>) {
    forall i :: 0 <= i < |votes| ==>
      var (c, op) := (votes[i].candidate, votes[i].operation);
      if op == 0 then !VotedAfter(list, votes, i, c) && c in pool else op == 1 && VotedAfter(list, votes, i, c)
  }

  /** CountTrxVote's count for one candidate: votes for it minus votes taken back. */
  function Net(votes: seq<Vote>, c: Address): (n: int) {
    if votes == [] then 0
    else Net(votes[..|votes| - 1], c) + Weight(votes[|votes| - 1], c)
  }

  function Weight(v: Vote, c: Address): (w: int) {
    if v.candidate != c then 0 else if v.operation == 0 then 1 else if v.operation == 1 then -1 else 0
  }

  /** Whatever the batch, legal or not. */
  lemma {:induction false} NetCounts(votes: seq<Vote>, c: Address)
    ensures Net(votes, c) + multiset(votes)[Vote(c, 1)] == multiset(votes)[Vote(c, 0)]
  {
    if votes != [] {
      var n := |votes| - 1;
      NetCounts(votes[..n], c);
      assert votes == votes[..n] + [votes[n]];
    }
  }

  function Holds(list: seq<Address>, c: Address): (n: int) {
    if c in list then 1 else 0
  }

  lemma StepMeans(list: seq<Address>, v: Vote, pool: set<Address>)
    requires Distinct(list)
    ensures Step(list, v, pool).Some? <==>
              if v.operation == 0 then v.candidate !in list && v.candidate in pool
              else v.operation == 1 && v.candidate in list
    ensures Step(list, v, pool).Some? ==>
              var next := Step(list, v, pool).value;
              && Distinct(next) && |next| == |list| + Weight(v, v.candidate)
              && forall c :: c in next <==> if c == v.candidate then v.operation == 0 else c in list
  {
    var i := FirstIndex(list, v.candidate);
    if v.operation == 1 && i >= 0 {
      var next := RemoveAt(list, i);
      forall c | c in list && c != v.candidate ensures c in next {
        var j :| 0 <= j < |list| && list[j] == c;
        assert next[if j < i then j else j - 1] == c;
      }
    }
  }

  lemma {:induction false} VotedAfterStep(list: seq<Address>, votes: seq<Vote>, next: seq<Address>, n: nat, c: Address)
    requires 0 < n <= |votes|
    requires c in next <==> if c == votes[0].candidate then votes[0].operation == 0 else c in list
    ensures VotedAfter(list, votes, n, c) == VotedAfter(next, votes[1..], n - 1, c)
  {
    if n > 1 {
      VotedAfterStep(list, votes, next, n - 1, c);
    }
  }

  /** A batch is accepted exactly when it is Legal; the new list then holds exactly the candidates whose
      last vote, or failing one whose old standing, says so. */
  lemma {:induction false} AcceptedIffLegal(list: seq<Address>, votes: seq<Vote>, pool: set<Address>)
    requires Distinct(list)
    ensures Changed(list, votes, pool).Some? <==> Legal(list, votes, pool)
    ensures Changed(list, votes, pool).Some? ==>
              var next := Changed(list, votes, pool).value;
              Distinct(next) && forall c :: c in next <==> VotedAfter(list, votes, |votes|, c)
    decreases |votes|
  {
    if votes == [] {
      return;
    }
    var v, rest := votes[0], votes[1..];
    StepMeans(list, v, pool);
    assert VotedAfter(list, votes, 0, v.candidate) == (v.candidate in list);
    if Step(list, v, pool).Some? {
      var next := Step(list, v, pool).value;
      AcceptedIffLegal(next, rest, pool);
      forall n: nat, c | 0 < n <= |votes| ensures VotedAfter(list, votes, n, c) == VotedAfter(next, rest, n - 1, c) {
        VotedAfterStep(list, votes, next, n, c);
      }
      LegalStep(list, votes, pool, next);
    }
  }

  lemma LegalStep(list: seq<Address>, votes: seq<Vote>, pool: set<Address>, next: seq<Address>)
    requires votes != [] && Distinct(list) && Step(list, votes[0], pool) == Some(next)
    requires forall n: nat, c :: 0 < n <= |votes| ==> VotedAfter(list, votes, n, c) == VotedAfter(next, votes[1..],
        n - 1, c)
    ensures Legal(list, votes, pool) <==> Legal(next, votes[1..], pool)
  {
    StepMeans(list, votes[0], pool);
    var rest := votes[1..];
    hide Step, Distinct;
    if Legal(list, votes, pool) {
      forall i | 0 <= i < |rest|
        ensures var (c, op) := (rest[i].candidate, rest[i].operation);
                if op == 0 then !VotedAfter(next, rest, i, c) && c in pool else op == 1 && VotedAfter(next, rest, i, c)
      {
        assert votes[i + 1] == rest[i];
        assert VotedAfter(list, votes, i + 1, rest[i].candidate) == VotedAfter(next, rest, i, rest[i].candidate);
      }
    }
    if Legal(next, rest, pool) {
      forall i | 0 <= i < |votes|
        ensures var (c, op) := (votes[i].candidate, votes[i].operation);
                if op == 0 then !VotedAfter(list, votes, i, c) && c in pool
                else op == 1 && VotedAfter(list, votes, i, c)
      {
        if i > 0 {
          assert votes[i] == rest[i - 1];
          assert VotedAfter(list, votes, i, votes[i].candidate) == VotedAfter(next, rest, i - 1, votes[i].candidate);
        }
      }
    }
  }

  lemma {:induction false} NetStep(votes: seq<Vote>, c: Address)
    requires votes != []
    ensures Net(votes, c) == Weight(votes[0], c) + Net(votes[1..], c)
    decreases |votes|
  {
    var n := |votes| - 1;
    if n > 0 {
      NetStep(votes[..n], c);
      assert votes[..n][1..] == votes[1..][..n - 1];
    }
  }

  /** The net count of every candidate in an accepted batch is the change in its standing. */
  lemma {:induction false} NetIsChange(list: seq<Address>, votes: seq<Vote>, pool: set<Address>, c: Address)
    requires Distinct(list) && Changed(list, votes, pool).Some?
    ensures var next := Changed(list, votes, pool).value;
            && Net(votes, c) == Holds(next, c) - Holds(list, c)
            && (Net(votes, c) == 1 ==> c in pool)
    decreases |votes|
  {
    if votes != [] {
      StepMeans(list, votes[0], pool);
      NetStep(votes, c);
      NetIsChange(Step(list, votes[0], pool).value, votes[1..], pool, c);
    }
  }

  /** A candidate some vote names is in the pool unless the batch ends its vote. */
  lemma NamedInPool(list: seq<Address>, votes: seq<Vote>, pool: set<Address>, i: nat)
    requires Distinct(list) && Changed(list, votes, pool).Some? && i < |votes|
    requires votes[i].candidate in Changed(list, votes, pool).value
    ensures votes[i].candidate in pool
  {
    AcceptedIffLegal(list, votes, pool);
    AddedInPool(list, votes, pool, |votes|, i);
  }

  lemma {:induction false} AddedInPool(list: seq<Address>, votes: seq<Vote>, pool: set<Address>, n: nat, i: nat)
    requires Legal(list, votes, pool) && i < n <= |votes| && VotedAfter(list, votes, n, votes[i].candidate)
    ensures votes[i].candidate in pool
  {
    if votes[n - 1].candidate != votes[i].candidate {
      AddedInPool(list, votes, pool, n - 1, i);
    }
  }

  /** Additions less removals. */
  function Growth(votes: seq<Vote>): (n: int) {
    if votes == [] then 0 else Weight(votes[0], votes[0].candidate) + Growth(votes[1..])
  }

  lemma {:induction false} ChangedLength(list: seq<Address>, votes: seq<Vote>, pool: set<Address>)
    requires Changed(list, votes, pool).Some?
    ensures |Changed(list, votes, pool).value| == |list| + Growth(votes)
    decreases |votes|
  {
    if votes != [] {
      ChangedLength(Step(list, votes[0], pool).value, votes[1..], pool);
    }
  }

  lemma {:induction false} ChangedSnoc(list: seq<Address>, votes: seq<Vote>, pool: set<Address>, n: nat)
    requires n < |votes|
    ensures Changed(list, votes[..n + 1], pool) ==
              var before := Changed(list, votes[..n], pool);
              if before.None? then None else Step(before.value, votes[n], pool)
    decreases n
  {
    var a, b := votes[..n + 1], votes[..n];
    if n == 0 {
      assert a == [votes[0]] && a[1..] == [] && b == [];
      var next := Step(list, votes[0], pool);
      if next.Some? {
        assert Changed(next.value, a[1..], pool) == next;
      }
    } else {
      assert a[0] == b[0] == votes[0] && a[1..] == votes[1..][..n] && b[1..] == votes[1..][..n - 1];
      var next := Step(list, votes[0], pool);
      if next.Some? {
        ChangedSnoc(next.value, votes[1..], pool, n - 1);
      }
    }
  }

  lemma {:induction false} RejectedStays(list: seq<Address>, votes: seq<Vote>, pool: set<Address>, n: nat)
    requires n <= |votes| && Changed(list, votes[..n], pool).None?
    ensures Changed(list, votes, pool).None?
    decreases |votes| - n
  {
    if n < |votes| {
      ChangedSnoc(list, votes, pool, n);
      RejectedStays(list, votes, pool, n + 1);
    } else {
      assert votes[..n] == votes;
    }
  }

  /** sliceContains. */
  method SliceContains(c: Address, list: seq<Address>) returns (i: int, found: bool)
    ensures i == FirstIndex(list, c) && found == (c in list)
  {
    i := 0;
    while i < |list|
      invariant 0 <= i <= |list| && c !in list[..i]
    {
      if list[i] == c {
        FirstIndexUnique(list, c, i);
        return i, true;
      }
      i := i + 1;
    }
    assert list[..|list|] == list;
    return -1, false;
  }

  /** changeVoteList: the new list and the balance to lock, or an error at the first vote refused. */
  method ChangeVoteList(prev: seq<Address>, votes: seq<Vote>, pool: set<Address>)
    returns (list: Option<seq<Address>>, lock: int)
    ensures list == Changed(prev, votes, pool)
    ensures list.Some? ==> lock == AOA * (|list.value| - |prev|)
  {
    var cur, diff, i := prev, 0, 0;
    while i < |votes|
      invariant 0 <= i <= |votes|
      invariant Changed(prev, votes[..i], pool) == Some(cur)
      invariant diff == |cur| - |prev|
    {
      ChangedSnoc(prev, votes, pool, i);
      var v := votes[i];
      var j, contain := SliceContains(v.candidate, cur);
      if v.operation == 0 && !contain && v.candidate in pool {
        diff, cur := diff + 1, cur + [v.candidate];
      } else if v.operation == 1 && contain {
        diff, cur := diff - 1, RemoveAt(cur, j);
      } else {
        RejectedStays(prev, votes, pool, i + 1);
        return None, 0;
      }
      i := i + 1;
    }
    assert votes[..i] == votes;
    return Some(cur), diff * AOA;
  }

  /** validateVote, the transaction pool's own check of a batch: accepts exactly what changeVoteList does. */
  method ValidateVote(prev: seq<Address>, votes: seq<Vote>, pool: set<Address>) returns (ok: bool)
    ensures ok <==> Changed(prev, votes, pool).Some?
  {
    var cur, i := prev, 0;
    while i < |votes|
      invariant 0 <= i <= |votes|
      invariant Changed(prev, votes[..i], pool) == Some(cur)
    {
      ChangedSnoc(prev, votes, pool, i);
      var v := votes[i];
      var j, contain := SliceContains(v.candidate, cur);
      if v.operation == 0 {
        if contain || v.candidate !in pool {
          RejectedStays(prev, votes, pool, i + 1);
          return false;
        }
        cur := cur + [v.candidate];
      } else if v.operation == 1 {
        if !contain {
          RejectedStays(prev, votes, pool, i + 1);
          return false;
        }
        cur := RemoveAt(cur, j);
      } else {
        RejectedStays(prev, votes, pool, i + 1);
        return false;
      }
      i := i + 1;
    }
    assert votes[..i] == votes;
    return true;
  }

  /** CountTrxVote's first loop: the net count of every candidate the batch names. */
  method CountVotes(votes: seq<Vote>) returns (counts: map<Address, int>)
    ensures forall c :: c in counts <==> exists v :: v in votes && v.candidate == c && v.operation <= 1
    ensures forall c :: c in counts ==> counts[c] == Net(votes, c)
  {
    counts := map[];
    var i := 0;
    while i < |votes|
      invariant 0 <= i <= |votes|
      invariant forall c :: c in counts <==> exists v :: v in votes[..i] && v.candidate == c && v.operation <= 1
      invariant forall c :: (if c in counts then counts[c] else 0) == Net(votes[..i], c)
    {
      var v := votes[i];
      assert votes[..i + 1] == votes[..i] + [v];
      assert votes[..i + 1][..i] == votes[..i];
      if v.operation == 0 {
        counts := counts[v.candidate := if v.candidate in counts then counts[v.candidate] + 1 else 1];
      } else if v.operation == 1 {
        counts := counts[v.candidate := if v.candidate in counts then counts[v.candidate] - 1 else -1];
      }
      i := i + 1;
    }
    assert votes[..i] == votes;
  }
}
