/** Vote lists as Go keeps them. changeVoteList works on the account's own slice: removals shift it in place and
    additions go into its spare room, so that a batch that is refused, or accepted and then undone, may leave
    the account's list changed. */
module VoteSlice {
  import opened Base
  import opened Votes

  /** The account's backing array, the list at work, and whether that still lies in the array. */
  datatype Buffer = Buffer(own: seq<Address>, list: seq<Address>, shared: bool)

  ghost predicate Backed(b: Buffer) {
    b.shared ==> |b.list| <= |b.own| && b.own[..|b.list|] == b.list
  }

  /** append of one element: into spare room, or into a new array when there is none. */
  function Appended(b: Buffer, c: Address): (r: Buffer)
    ensures |r.own| == |b.own|
  {
    if b.shared && |b.list| < |b.own| then Buffer(b.own[|b.list| := c], b.list + [c], true)
    else Buffer(b.own, b.list + [c], false)
  }

  /** append(list[:j], list[j+1:]...): always in place; the last entry stays behind the shortened list. */
  function Cut(b: Buffer, j: nat): (r: Buffer)
    requires Backed(b) && j < |b.list|
    ensures |r.own| == |b.own|
  {
    var rest := RemoveAt(b.list, j);
    if b.shared then Buffer(rest + b.own[|rest|..], rest, true) else Buffer(b.own, rest, false)
  }

  function SliceStep(b: Buffer, v: Vote, pool: set<Address>): (r: Option<Buffer>)
    requires Backed(b)
    ensures r.Some? ==> Backed(r.value) && |r.value.own| == |b.own|
    ensures r.Some? <==> Step(b.list, v, pool).Some?
    ensures r.Some? ==> r.value.list == Step(b.list, v, pool).value
  {
    var i := FirstIndex(b.list, v.candidate);
    if v.operation == 0 && i < 0 && v.candidate in pool then Some(Appended(b, v.candidate))
    else if v.operation == 1 && i >= 0 then Some(Cut(b, i))
    else None
  }

  /** The buffer where the batch ends or is refused. */
  function SliceRun(b: Buffer, votes: seq<Vote>, pool: set<Address>): (r: Buffer)
    requires Backed(b)
    ensures Backed(r) && |r.own| == |b.own|
    decreases |votes|
  {
    if votes == [] then b else
      var next := SliceStep(b, votes[0], pool);
      if next.None? then b else SliceRun(next.value, votes[1..], pool)
  }

  /** How many votes are taken before the batch ends or one is refused. */
  function Taken(list: seq<Address>, votes: seq<Vote>, pool: set<Address>): (n: nat)
    ensures n <= |votes|
    decreases |votes|
  {
    if votes == [] then 0 else
      var next := Step(list, votes[0], pool);
      if next.None? then 0 else 1 + Taken(next.value, votes[1..], pool)
  }

  /** What the account's own slice holds after a batch that is not kept; `spare` is its spare room. */
  function Residue(list: seq<Address>, spare: seq<Address>, votes: seq<Vote>, pool: set<Address>): (r: seq<Address>)
    ensures |r| == |list|
  {
    SliceRun(Buffer(list + spare, list, true), votes, pool).own[..|list|]
  }

  /** Sharing does not change what a batch comes to. */
  lemma {:induction false} SharingKeepsResult(b: Buffer, votes: seq<Vote>, pool: set<Address>)
    requires Backed(b) && Changed(b.list, votes, pool).Some?
    ensures SliceRun(b, votes, pool).list == Changed(b.list, votes, pool).value
    ensures Taken(b.list, votes, pool) == |votes|
    decreases |votes|
  {
    if votes != [] {
      hide Step, SliceStep;
      SharingKeepsResult(SliceStep(b, votes[0], pool).value, votes[1..], pool);
    }
  }

  /** Batches that leave the account's slice alone: additions up to the one that no longer fits, whatever
      comes after it; or removals alone, each of the last entry. */
  predicate Gentle(list: seq<Address>, room: nat, votes: seq<Vote>, n: nat)
    requires n <= |votes|
  {
    Additions(room, votes, n) || LastRemovals(list, votes, n)
  }

  predicate Additions(room: nat, votes: seq<Vote>, n: nat)
    requires n <= |votes|
  {
    forall i :: 0 <= i < n && i <= room ==> votes[i].operation == 0
  }

  predicate LastRemovals(list: seq<Address>, votes: seq<Vote>, n: nat)
    requires n <= |votes|
  {
    n <= |list| && forall i :: 0 <= i < n ==> votes[i] == Vote(list[|list| - 1 - i], 1)
  }

  lemma TakenStep(b: Buffer, votes: seq<Vote>, pool: set<Address>)
    requires Backed(b) && votes != [] && SliceStep(b, votes[0], pool).Some?
    ensures var next := SliceStep(b, votes[0], pool).value;
            && Taken(b.list, votes, pool) == 1 + Taken(next.list, votes[1..], pool)
            && SliceRun(b, votes, pool) == SliceRun(next, votes[1..], pool)
  {
    hide SliceStep, Step;
  }

  lemma {:induction false} UnsharedKeeps(b: Buffer, votes: seq<Vote>, pool: set<Address>)
    requires Backed(b) && !b.shared
    ensures SliceRun(b, votes, pool).own == b.own
    decreases |votes|
  {
    if votes != [] && SliceStep(b, votes[0], pool).Some? {
      UnsharedKeeps(SliceStep(b, votes[0], pool).value, votes[1..], pool);
    }
  }

  lemma {:induction false} AdditionsKeep(b: Buffer, k: nat, votes: seq<Vote>, pool: set<Address>)
    requires Backed(b) && b.shared && k <= |b.list|
    requires forall i :: 0 <= i < Taken(b.list, votes, pool) && i <= |b.own| - |b.list| ==> votes[i].operation == 0
    ensures SliceRun(b, votes, pool).own[..k] == b.own[..k]
    decreases |votes|
  {
    if votes != [] && SliceStep(b, votes[0], pool).Some? {
      var next, rest := SliceStep(b, votes[0], pool).value, votes[1..];
      assert Taken(b.list, votes, pool) == 1 + Taken(next.list, rest, pool);
      assert votes[0].operation == 0;
      if next.shared {
        assert next.own[..k] == b.own[..k];
        forall i | 0 <= i < Taken(next.list, rest, pool) && i <= |next.own| - |next.list|
            ensures rest[i].operation == 0 {
          assert rest[i] == votes[i + 1];
        }
        AdditionsKeep(next, k, rest, pool);
      } else {
        UnsharedKeeps(next, rest, pool);
      }
    }
  }

  /** Removing the last entry leaves the array as it is. */
  lemma LastStep(b: Buffer, pool: set<Address>)
    requires Backed(b) && b.shared && Distinct(b.list) && b.list != []
    ensures var n := |b.list| - 1;
            && SliceStep(b, Vote(b.list[n], 1), pool) == Some(Buffer(b.own, b.list[..n], true))
            && Backed(Buffer(b.own, b.list[..n], true)) && Distinct(b.list[..n])
  {
    var n := |b.list| - 1;
    FirstIndexUnique(b.list, b.list[n], n);
    hide FirstIndex;
    assert RemoveAt(b.list, n) == b.list[..n];
    assert b.list[..n] + b.own[n..] == b.own;
  }

  lemma LastRemovalsStep(list: seq<Address>, votes: seq<Vote>, n: nat)
    requires list != [] && n < |votes| && votes[0] == Vote(list[|list| - 1], 1)
    ensures LastRemovals(list, votes, n + 1) <==> LastRemovals(list[..|list| - 1], votes[1..], n)
  {
    var shorter, rest := list[..|list| - 1], votes[1..];
    assert forall i :: 0 <= i < |rest| ==> rest[i] == votes[i + 1];
    if LastRemovals(shorter, rest, n) {
      forall i | 0 <= i < n + 1 ensures votes[i] == Vote(list[|list| - 1 - i], 1) {
        assert i > 0 ==> rest[i - 1] == votes[i];
      }
    }
  }

  lemma {:induction false} LastRemovalsKeep(b: Buffer, votes: seq<Vote>, pool: set<Address>)
    requires Backed(b) && b.shared && Distinct(b.list)
    requires LastRemovals(b.list, votes, Taken(b.list, votes, pool))
    ensures SliceRun(b, votes, pool).own == b.own
    decreases |votes|
  {
    if votes != [] && SliceStep(b, votes[0], pool).Some? {
      hide *;
      TakenStep(b, votes, pool);
      FirstOfLast(b.list, votes, Taken(b.list, votes, pool));
      LastStep(b, pool);
      var shorter, rest := b.list[..|b.list| - 1], votes[1..];
      LastRemovalsStep(b.list, votes, Taken(shorter, rest, pool));
      LastRemovalsKeep(Buffer(b.own, shorter, true), rest, pool);
    } else {
      RunStops(b, votes, pool);
    }
  }

  lemma FirstOfLast(list: seq<Address>, votes: seq<Vote>, n: nat)
    requires 0 < n <= |votes| && LastRemovals(list, votes, n)
    ensures list != [] && votes[0] == Vote(list[|list| - 1], 1)
  {
  }

  lemma RunStops(b: Buffer, votes: seq<Vote>, pool: set<Address>)
    requires Backed(b) && (votes == [] || SliceStep(b, votes[0], pool).None?)
    ensures SliceRun(b, votes, pool) == b
  {
  }

  /** A gentle batch leaves the account's list as it was, whether it is refused, kept or undone. */
  lemma GentleKeeps(list: seq<Address>, spare: seq<Address>, votes: seq<Vote>, pool: set<Address>)
    requires Distinct(list) && Gentle(list, |spare|, votes, Taken(list, votes, pool))
    ensures Residue(list, spare, votes, pool) == list
  {
    var b := Buffer(list + spare, list, true);
    assert b.own[..|list|] == list;
    if Additions(|spare|, votes, Taken(list, votes, pool)) {
      AdditionsKeep(b, |list|, votes, pool);
    } else {
      LastRemovalsKeep(b, votes, pool);
    }
  }

  predicate Unnamed(votes: seq<Vote>, c: Address) {
    forall i :: 0 <= i < |votes| ==> votes[i].candidate != c
  }

  /** No candidate is named twice. */
  predicate Once(votes: seq<Vote>) {
    forall i, j :: 0 <= i < j < |votes| ==> votes[i].candidate != votes[j].candidate
  }

  lemma OnceRest(votes: seq<Vote>)
    requires Once(votes) && votes != []
    ensures Once(votes[1..]) && Unnamed(votes[1..], votes[0].candidate)
    ensures forall c :: Unnamed(votes, c) ==> Unnamed(votes[1..], c) && votes[0].candidate != c
  {
  }

  /** A place that has lost a candidate no later vote names never gets it back. */
  lemma {:induction false} LostStaysLost(b: Buffer, votes: seq<Vote>, pool: set<Address>, p: nat, c: Address)
    requires Backed(b) && p < |b.own| && b.own[p] != c && c !in b.list && Unnamed(votes, c)
    ensures SliceRun(b, votes, pool).own[p] != c
    decreases |votes|
  {
    if votes != [] && SliceStep(b, votes[0], pool).Some? {
      var next := SliceStep(b, votes[0], pool).value;
      LostStep(b, votes[0], pool, p, c);
      hide SliceStep;
      LostStaysLost(next, votes[1..], pool, p, c);
    }
  }

  lemma LostStep(b: Buffer, v: Vote, pool: set<Address>, p: nat, c: Address)
    requires Backed(b) && p < |b.own| && b.own[p] != c && c !in b.list && v.candidate != c
    requires SliceStep(b, v, pool).Some?
    ensures var next := SliceStep(b, v, pool).value; next.own[p] != c && c !in next.list
  {
    var i := FirstIndex(b.list, v.candidate);
    if v.operation == 1 {
      var rest := RemoveAt(b.list, i);
      assert forall x :: x in rest ==> x in b.list;
      assert p < |rest| ==> rest[p] in rest;
    }
  }

  /** Removing an entry that is not the last moves the next one into its place, for good. */
  lemma CutLoses(b: Buffer, votes: seq<Vote>, pool: set<Address>, j: nat)
    requires Backed(b) && b.shared && Distinct(b.list) && Once(votes) && votes != []
    requires j < |b.list| - 1 && votes[0] == Vote(b.list[j], 1)
    ensures SliceRun(b, votes, pool).own[j] != b.list[j]
  {
    var c := b.list[j];
    FirstIndexUnique(b.list, c, j);
    var next := SliceStep(b, votes[0], pool).value;
    assert next == Cut(b, j) && next.own[j] == b.list[j + 1] != c;
    StepMeans(b.list, votes[0], pool);
    OnceRest(votes);
    LostStaysLost(next, votes[1..], pool, j, c);
  }

  /** After an addition, and before one that no longer fits, every removal loses something of the first `k`. */
  lemma {:induction false} RemovalAfterAddition(b: Buffer, k: nat, votes: seq<Vote>, pool: set<Address>, i: nat)
    requires Backed(b) && b.shared && Distinct(b.list) && k < |b.list| && Once(votes)
    requires forall j :: k <= j < |b.list| ==> Unnamed(votes, b.list[j])
    requires i < Taken(b.list, votes, pool) && i <= |b.own| - |b.list| && votes[i].operation != 0
    ensures SliceRun(b, votes, pool).own[..k] != b.own[..k]
    decreases |votes|
  {
    var v, rest := votes[0], votes[1..];
    var next := SliceStep(b, v, pool).value;
    assert Taken(b.list, votes, pool) == 1 + Taken(next.list, rest, pool);
    StepMeans(b.list, v, pool);
    if v.operation == 0 {
      assert next.shared && next.own[..k] == b.own[..k] && next.list == b.list + [v.candidate];
      OnceRest(votes);
      assert rest[i - 1] == votes[i];
      RemovalAfterAddition(next, k, rest, pool, i - 1);
    } else {
      var j := FirstIndex(b.list, v.candidate);
      assert j < k;
      CutLoses(b, votes, pool, j);
      assert b.own[..k][j] == b.list[j];
    }
  }

  /** After removals of last entries, anything but another loses something. */
  lemma {:induction false} AfterLastRemovals(b: Buffer, full: seq<Address>, votes: seq<Vote>, pool: set<Address>)
    requires Backed(b) && b.shared && Distinct(full) && |b.list| < |full| <= |b.own| && Once(votes)
    requires b.list == full[..|b.list|] && b.own[..|full|] == full
    requires forall j :: |b.list| <= j < |full| ==> Unnamed(votes, full[j])
    requires !LastRemovals(b.list, votes, Taken(b.list, votes, pool))
    ensures SliceRun(b, votes, pool).own[..|full|] != full
    decreases |votes|
  {
    hide *;
    TakesFirst(b, votes, pool);
    var n, v := |b.list|, votes[0];
    TakenStep(b, votes, pool);
    PrefixDistinct(full, n);
    StepMeans(b.list, v, pool);
    if v.operation == 0 {
      OverwriteLoses(b, full[n], votes, pool);
      DiffersAt(SliceRun(b, votes, pool).own, full, n);
    } else {
      var j := FirstIndex(b.list, v.candidate);
      if j < n - 1 {
        CutLoses(b, votes, pool, j);
        DiffersAt(SliceRun(b, votes, pool).own, full, j);
      } else {
        LastStep(b, pool);
        LastRemovalsStep(b.list, votes, Taken(b.list[..n - 1], votes[1..], pool));
        OnceRest(votes);
        assert b.list[..n - 1] == full[..n - 1];
        AfterLastRemovals(Buffer(b.own, b.list[..n - 1], true), full, votes[1..], pool);
      }
    }
  }

  lemma TakesFirst(b: Buffer, votes: seq<Vote>, pool: set<Address>)
    requires Backed(b) && !LastRemovals(b.list, votes, Taken(b.list, votes, pool))
    ensures votes != [] && SliceStep(b, votes[0], pool).Some?
  {
    hide Step, SliceStep;
  }

  lemma PrefixDistinct(full: seq<Address>, n: nat)
    requires Distinct(full) && n < |full|
    ensures Distinct(full[..n]) && full[n] !in full[..n]
  {
  }

  lemma DiffersAt(own: seq<Address>, full: seq<Address>, p: nat)
    requires p < |full| <= |own| && own[p] != full[p]
    ensures own[..|full|] != full
  {
    assert own[..|full|][p] == own[p];
  }

  /** An addition where there is room overwrites the entry behind the list, for good. */
  lemma OverwriteLoses(b: Buffer, c: Address, votes: seq<Vote>, pool: set<Address>)
    requires Backed(b) && b.shared && |b.list| < |b.own| && c !in b.list && Unnamed(votes, c) && Once(votes)
    requires votes != [] && votes[0].operation == 0 && SliceStep(b, votes[0], pool).Some?
    ensures SliceRun(b, votes, pool).own[|b.list|] != c
  {
    var next := SliceStep(b, votes[0], pool).value;
    assert next == Appended(b, votes[0].candidate);
    assert next.own[|b.list|] != c && c !in next.list;
    TakenStep(b, votes, pool);
    OnceRest(votes);
    LostStaysLost(next, votes[1..], pool, |b.list|, c);
  }

  /** A batch that names no candidate twice leaves the account's list as it was exactly if it is gentle. */
  lemma UntouchedIff(list: seq<Address>, spare: seq<Address>, votes: seq<Vote>, pool: set<Address>)
    requires Distinct(list) && Once(votes)
    ensures Residue(list, spare, votes, pool) == list <==> Gentle(list, |spare|, votes, Taken(list, votes, pool))
  {
    var n := Taken(list, votes, pool);
    if Gentle(list, |spare|, votes, n) {
      GentleKeeps(list, spare, votes, pool);
    } else {
      RoughLoses(list, spare, votes, pool);
    }
  }

  lemma RoughLoses(list: seq<Address>, spare: seq<Address>, votes: seq<Vote>, pool: set<Address>)
    requires Distinct(list) && Once(votes) && !Gentle(list, |spare|, votes, Taken(list, votes, pool))
    ensures Residue(list, spare, votes, pool) != list
  {
    var b, v := Buffer(list + spare, list, true), votes[0];
    assert b.own[..|list|] == list;
    TakenStep(b, votes, pool);
    StepMeans(list, v, pool);
    OnceRest(votes);
    if v.operation == 0 {
      RoughAfterAddition(list, spare, votes, pool);
    } else {
      var j := FirstIndex(list, v.candidate);
      hide SliceStep, SliceRun, Taken;
      if j < |list| - 1 {
        CutLoses(b, votes, pool, j);
      } else {
        LastStep(b, pool);
        LastRemovalsStep(list, votes, Taken(list[..|list| - 1], votes[1..], pool));
        AfterLastRemovals(Buffer(b.own, list[..|list| - 1], true), list, votes[1..], pool);
      }
    }
  }

  lemma RoughAfterAddition(list: seq<Address>, spare: seq<Address>, votes: seq<Vote>, pool: set<Address>)
    requires Distinct(list) && Once(votes) && !Additions(|spare|, votes, Taken(list, votes, pool))
    requires votes != [] && votes[0].operation == 0 && Step(list, votes[0], pool).Some?
    ensures Residue(list, spare, votes, pool) != list
  {
    var b := Buffer(list + spare, list, true);
    assert b.own[..|list|] == list;
    var i :| 0 <= i < Taken(list, votes, pool) && i <= |spare| && votes[i].operation != 0;
    TakenStep(b, votes, pool);
    StepMeans(list, votes[0], pool);
    OnceRest(votes);
    var next := SliceStep(b, votes[0], pool).value;
    assert next.shared && next.own[..|list|] == list && next.list == list + [votes[0].candidate];
    assert votes[1..][i - 1] == votes[i];
    RemovalAfterAddition(next, |list|, votes[1..], pool, i - 1);
  }

  /** An account voting for 2 and 3 takes back its vote for 2, in a call that is undone or in a batch that goes on
      to be refused: its list is left as 3 twice. */
  lemma SharedSliceInput()
    ensures var kept, refused := [Vote(2, 1)], [Vote(2, 1), Vote(9, 1)];
            && Changed([2, 3], kept, {}).Some? && Residue([2, 3], [], kept, {}) == [3, 3]
            && Changed([2, 3], refused, {}).None? && Residue([2, 3], [], refused, {}) == [3, 3]
  {
    hide *;
    var list: seq<Address> := [2, 3];
    var b, v, w := Buffer(list + [], list, true), Vote(2, 1), Vote(9, 1);
    var next := Buffer([3, 3], [3], true);
    assert list + [] == list && [v][1..] == [] && [v, w][1..] == [w];
    InputSteps(b, v, w, next);
    UnfoldRun(b, [v], {});
    UnfoldRun(b, [v, w], {});
    UnfoldRun(next, [w], {});
    UnfoldDone(next, [], {});
    ResidueIs(list, [], [v], {});
    ResidueIs(list, [], [v, w], {});
  }

  lemma InputSteps(b: Buffer, v: Vote, w: Vote, next: Buffer)
    requires b == Buffer([2, 3], [2, 3], true) && v == Vote(2, 1) && w == Vote(9, 1)
        && next == Buffer([3, 3], [3], true)
    ensures Backed(b) && Backed(next) && SliceStep(b, v, {}) == Some(next) && SliceStep(next, w, {}).None?
  {
    FirstIndexUnique(b.list, 2, 0);
    hide FirstIndex;
    assert RemoveAt(b.list, 0) == [3];
    assert Cut(b, 0) == next;
  }

  lemma ResidueIs(list: seq<Address>, spare: seq<Address>, votes: seq<Vote>, pool: set<Address>)
    ensures Backed(Buffer(list + spare, list, true))
    ensures |SliceRun(Buffer(list + spare, list, true), votes, pool).own| == |list + spare|
    ensures Residue(list, spare, votes, pool) == SliceRun(Buffer(list + spare, list, true), votes, pool).own[..|list|]
  {
    hide SliceRun;
  }

  /** append of one element. */
  method AppendTo(own: array<Address>, cur: seq<Address>, shared: bool, c: Address) returns (still: bool)
    requires Backed(Buffer(own[..], cur, shared))
    modifies own
    ensures Buffer(own[..], cur + [c], still) == Appended(Buffer(old(own[..]), cur, shared), c)
  {
    still := shared && |cur| < own.Length;
    if still {
      own[|cur|] := c;
    }
  }

  /** The shift of a removal. */
  method CutFrom(own: array<Address>, cur: seq<Address>, shared: bool, j: nat)
    requires Backed(Buffer(own[..], cur, shared)) && j < |cur|
    modifies own
    ensures Buffer(own[..], RemoveAt(cur, j), shared) == Cut(Buffer(old(own[..]), cur, shared), j)
  {
    if shared {
      assert forall k :: 0 <= k < |cur| ==> own[k] == own[..][..|cur|][k] == cur[k];
      forall k | j <= k < |cur| - 1 {
        own[k] := own[k + 1];
      }
      assert own[..] == RemoveAt(cur, j) + old(own[..])[|cur| - 1..];
    }
  }

  /** changeVoteList on the account's own slice. The list that comes out is the same as on a copy. */
  method ChangeInPlace(own: array<Address>, n: nat, votes: seq<Vote>, pool: set<Address>)
    returns (list: Option<seq<Address>>)
    requires n <= own.Length
    modifies own
    ensures list == Changed(old(own[..n]), votes, pool)
    ensures own[..] == SliceRun(Buffer(old(own[..]), old(own[..n]), true), votes, pool).own
  {
    var cur, shared, i := own[..n], true, 0;
    ghost var start := Buffer(own[..], cur, true);
    assert votes[0..] == votes && own[..][..n] == cur;
    hide Changed, SliceRun, Backed, Appended, Cut, RemoveAt;
    while i < |votes|
      invariant 0 <= i <= |votes| && Backed(Buffer(own[..], cur, shared))
      invariant Changed(start.list, votes, pool) == Changed(cur, votes[i..], pool)
      invariant SliceRun(start, votes, pool) == SliceRun(Buffer(own[..], cur, shared), votes[i..], pool)
    {
      var v := votes[i];
      ghost var b := Buffer(own[..], cur, shared);
      assert votes[i..][0] == v && votes[i..][1..] == votes[i + 1..];
      UnfoldRun(b, votes[i..], pool);
      var j, contain := SliceContains(v.candidate, cur);
      if v.operation == 0 && !contain && v.candidate in pool {
        shared := AppendTo(own, cur, shared, v.candidate);
        cur := cur + [v.candidate];
      } else if v.operation == 1 && contain {
        CutFrom(own, cur, shared, j);
        cur := RemoveAt(cur, j);
      } else {
        return None;
      }
      assert Buffer(own[..], cur, shared) == SliceStep(b, v, pool).value;
      i := i + 1;
    }
    UnfoldDone(Buffer(own[..], cur, shared), votes[i..], pool);
    return Some(cur);
  }

  lemma UnfoldDone(b: Buffer, votes: seq<Vote>, pool: set<Address>)
    requires Backed(b) && votes == []
    ensures SliceRun(b, votes, pool) == b && Changed(b.list, votes, pool) == Some(b.list)
  {
  }

  lemma UnfoldRun(b: Buffer, votes: seq<Vote>, pool: set<Address>)
    requires Backed(b) && votes != []
    ensures var next := SliceStep(b, votes[0], pool);
            && SliceRun(b, votes, pool) == (if next.None? then b else SliceRun(next.value, votes[1..], pool))
            && Changed(b.list, votes, pool) == (if next.None? then None else Changed(next.value.list, votes[1..], pool))
  {
    hide SliceStep, Step;
  }
}
