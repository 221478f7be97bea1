/** The vote ledger: locked balances and vote lists per account, tallies per delegate, and what every
    vote, registration and cancellation does to them. */
module VoteLedger {
  import opened Base
  import opened Votes
  import VoteSlice

  /** A delegate record. A cancelled delegate keeps its record and its votes. */
  datatype Delegate = Delegate(vote: int, deleted: bool)
  type Records = map<Address, Delegate>

  datatype Accounts = Accounts(balance: map<Address, int>, locked: map<Address, int>, lists: map<Address, seq<Address>>)

  function BalanceOf(s: Accounts, u: Address): (n: int) { if u in s.balance then s.balance[u] else 0 }

  function LockedOf(s: Accounts, u: Address): (n: int) { if u in s.locked then s.locked[u] else 0 }

  function ListOf(s: Accounts, u: Address): (l: seq<Address>) { if u in s.lists then s.lists[u] else [] }

  /** Vote: the accounts after an accepted batch. `max` is maxElectDelegate. */
  function VoteOn(s: Accounts, user: Address, votes: seq<Vote>, pool: set<Address>, max: nat): (r: Option<Accounts>) {
    var next := Changed(ListOf(s, user), votes, pool);
    if next.None? then None else
      var diff := AOA * (|next.value| - |ListOf(s, user)|);
      if LockedOf(s, user) + diff > AOA * max then None
      else Some(Accounts(s.balance[user := BalanceOf(s, user) - diff],
                         s.locked[user := LockedOf(s, user) + diff],
                         s.lists[user := next.value]))
  }

  predicate Live(records: Records, c: Address) { c in records && !records[c].deleted }

  datatype Failure = DuplicateRegister | AddVoteMissing | SubVoteMissing | SubVoteNotEnough | CancelMissing | BadPayload

  datatype EntryKind = Register | AddVote | SubVote | Cancel
  datatype Entry = Entry(address: Address, vote: nat, kind: EntryKind)

  /** A registration keeps the votes of a cancelled delegate of the same address. */
  function Registered(records: Records, c: Address): (r: Records) {
    records[c := Delegate(if c in records then records[c].vote else 0, false)]
  }

  /** voteCount on one entry. */
  function Count(records: Records, e: Entry): (r: (Records, Option<Failure>)) {
    match e.kind
    case Register =>
      if Live(records, e.address) then (records, Some(DuplicateRegister)) else (Registered(records, e.address), None)
    case AddVote =>
      if !Live(records, e.address) then (records, Some(AddVoteMissing))
      else (records[e.address := records[e.address].(vote := records[e.address].vote + e.vote)], None)
    case SubVote =>
      if e.address !in records then (records, Some(SubVoteMissing))
      else if records[e.address].vote < e.vote then (records, Some(SubVoteNotEnough))
      else (records[e.address := records[e.address].(vote := records[e.address].vote - e.vote)], None)
    case Cancel =>
      if !Live(records, e.address) then (records, Some(CancelMissing))
      else (records[e.address := records[e.address].(deleted := true)], None)
  }

  /** What a transaction means to the delegates. */
  datatype Action = VoteAction(votes: seq<Vote>) | RegisterAction | OtherAction | BadVotes

  predicate Named(votes: seq<Vote>, c: Address) {
    exists v :: v in votes && v.candidate == c && v.operation <= 1
  }

  function EntryFor(votes: seq<Vote>, c: Address): (e: Entry) {
    var n := Net(votes, c);
    if n < 0 then Entry(c, -n, SubVote) else Entry(c, n, AddVote)
  }

  /** When the tally of `c` can take the batch. */
  predicate Countable(records: Records, votes: seq<Vote>, c: Address) {
    var n := Net(votes, c);
    if n < 0 then c in records && records[c].vote >= -n else Live(records, c)
  }

  function Tallied(records: Records, votes: seq<Vote>, done: set<Address>): (r: Records) {
    map c | c in records :: if c in done then records[c].(vote := records[c].vote + Net(votes, c)) else records[c]
  }

  /** A delegate whose balance no longer covers the registration cost is cancelled. */
  function Expelled(records: Records, from: Address, poor: bool): (r: Records) {
    if poor && Live(records, from) then records[from := records[from].(deleted := true)] else records
  }

  /** voteChangeToDelegateState: the records after the transaction, or None when the block is refused. */
  ghost function Outcome(records: Records, from: Address, action: Action, poor: bool): (r: Option<Records>) {
    match action
    case VoteAction(votes) =>
      if forall c :: Named(votes, c) ==> Countable(records, votes, c)
      then Some(Expelled(Tallied(records, votes, set v | v in votes && v.operation <= 1 :: v.candidate), from, poor))
      else None
    case RegisterAction => if Live(records, from) then None else Some(Registered(records, from))
    case OtherAction => Some(Expelled(records, from, poor))
    case BadVotes => None
  }

  /** CountTrxVote: one entry per candidate with a vote in the batch, in the arbitrary order of a map. */
  method CountTrxVote(from: Address, action: Action, balance: int, records: Records)
    returns (entries: Option<seq<Entry>>, ghost order: seq<Address>)
    ensures entries.None? <==> action.BadVotes?
    ensures entries.Some? ==>
              && entries.value == Listed(action, from, order) +
                 (if Live(records, from) && balance < REGISTER_COST then [Entry(from, 0, Cancel)] else [])
    ensures Distinct(order)
    ensures action.VoteAction? ==> forall c :: c in order <==> Named(action.votes, c)
  {
    order := [];
    var list: seq<Entry> := [];
    match action {
      case BadVotes => return None, [];
      case RegisterAction => list := [Entry(from, 0, Register)];
      case OtherAction =>
      case VoteAction(votes) =>
        var counts := CountVotes(votes);
        list, order := EntriesOf(votes, counts);
    }
    if Live(records, from) && balance < REGISTER_COST {
      list := list + [Entry(from, 0, Cancel)];
    }
    entries := Some(list);
  }

  function Listed(action: Action, from: Address, order: seq<Address>): (r: seq<Entry>) {
    match action
    case VoteAction(votes) => EntriesFor(votes, order)
    case RegisterAction => [Entry(from, 0, Register)]
    case _ => []
  }

  function EntriesFor(votes: seq<Vote>, order: seq<Address>): (r: seq<Entry>)
    ensures |r| == |order| && forall i :: 0 <= i < |r| ==> r[i] == EntryFor(votes, order[i])
  {
    seq(|order|, i requires 0 <= i < |order| => EntryFor(votes, order[i]))
  }

  method EntriesOf(ghost votes: seq<Vote>, counts: map<Address, int>) returns (list: seq<Entry>,
                   ghost order: seq<Address>)
    requires forall c :: c in counts <==> Named(votes, c)
    requires forall c :: c in counts ==> counts[c] == Net(votes, c)
    ensures list == EntriesFor(votes, order)
    ensures Distinct(order) && forall c :: c in order <==> Named(votes, c)
  {
    list, order := [], [];
    var left := counts.Keys;
    while left != {}
      invariant list == EntriesFor(votes, order) && Distinct(order)
      invariant left <= counts.Keys && forall c :: c in order <==> c in counts && c !in left
    {
      var c :| c in left;
      var n := counts[c];
      list := list + [if n < 0 then Entry(c, -n, SubVote) else Entry(c, n, AddVote)];
      order := order + [c];
      left := left - {c};
    }
  }

  /** The delegate database. */
  class DelegateDb {
    var records: Records

    method VoteCount(e: Entry) returns (err: Option<Failure>)
      modifies this
      ensures (records, err) == Count(old(records), e)
    {
      var (next, failure) := Count(records, e);
      records, err := next, failure;
    }

    /** Applies the entries of a batch in their order; stops at the first that fails. */
    method CountAll(entries: seq<Entry>, ghost votes: seq<Vote>, ghost order: seq<Address>)
        returns (err: Option<Failure>)
      requires entries == EntriesFor(votes, order) && Distinct(order)
      modifies this
      ensures err.None? <==> forall c :: c in order ==> Countable(old(records), votes, c)
      ensures err.None? ==> records == Tallied(old(records), votes, Members(order))
      ensures err.Some? ==>
                exists c :: c in order && !Countable(old(records), votes, c)
                            && FailsWith(old(records), votes, c, err.value)
    {
      err := None;
      ghost var start := records;
      var i := 0;
      while i < |entries|
        invariant 0 <= i <= |entries| && start == old(records)
        invariant records == Tallied(start, votes, Members(order[..i]))
        invariant forall c :: c in order[..i] ==> Countable(start, votes, c)
        invariant err.None?
      {
        CountStep(start, votes, order, i);
        err := VoteCount(entries[i]);
        if err.Some? {
          assert order[i] in order;
          return;
        }
        assert order[..i + 1] == order[..i] + [order[i]];
        i := i + 1;
      }
      assert order[..i] == order;
    }

    /** voteChangeToDelegateState, on the balance the sender has after the transaction. */
    method VoteChange(from: Address, action: Action, balance: int) returns (err: Option<Failure>)
      modifies this
      ensures var want := Outcome(old(records), from, action, balance < REGISTER_COST);
              && (err.None? <==> want.Some?)
              && (err.None? ==> records == want.value)
      ensures err.Some? && action.VoteAction? ==>
                exists c :: Named(action.votes, c) && !Countable(old(records), action.votes, c)
                            && FailsWith(old(records), action.votes, c, err.value)
      ensures err.Some? ==>
                && (action.RegisterAction? ==> err.value == DuplicateRegister)
                && (action.BadVotes? ==> err.value == BadPayload)
                && !action.OtherAction?
    {
      var entries, order := CountTrxVote(from, action, balance, records);
      if entries.None? {
        return Some(BadPayload);
      }
      var n := |entries.value|;
      var cancel := Live(records, from) && balance < REGISTER_COST;
      if action.VoteAction? {
        var body := if cancel then entries.value[..n - 1] else entries.value;
        assert body == EntriesFor(action.votes, order);
        ghost var named := set v | v in action.votes && v.operation <= 1 :: v.candidate;
        assert named == Members(order);
        err := CountAll(body, action.votes, order);
        if err.Some? {
          return;
        }
      } else if action.RegisterAction? {
        assert entries.value[0] == Entry(from, 0, Register);
        err := VoteCount(entries.value[0]);
        if err.Some? {
          return;
        }
      }
      err := None;
      if cancel {
        assert entries.value[n - 1] == Entry(from, 0, Cancel);
        err := VoteCount(entries.value[n - 1]);
      }
    }
  }

  /** The vote-related part of the account state. */
  class AccountDb {
    var balance: map<Address, int>
    var locked: map<Address, int>
    var lists: map<Address, seq<Address>>

    ghost function Now(): (s: Accounts)
      reads this
    {
      Accounts(balance, locked, lists)
    }

    /** Vote: refused batches leave everything as it was. */
    method Vote(user: Address, votes: seq<Vote>, pool: set<Address>, max: nat) returns (ok: bool)
      modifies this
      ensures var want := VoteOn(old(Now()), user, votes, pool, max);
              && (ok <==> want.Some?)
              && Now() == if ok then want.value else old(Now())
    {
      var list := if user in lists then lists[user] else [];
      var next, diff := ChangeVoteList(list, votes, pool);
      if next.None? {
        return false;
      }
      var lock := (if user in locked then locked[user] else 0) + diff;
      if lock > AOA * max {
        return false;
      }
      balance := balance[user := (if user in balance then balance[user] else 0) - diff];
      locked := locked[user := lock];
      lists := lists[user := next.value];
      return true;
    }
  }

  predicate FailsWith(records: Records, votes: seq<Vote>, c: Address, f: Failure) {
    if Net(votes, c) >= 0 then f == AddVoteMissing
    else if c in records then f == SubVoteNotEnough else f == SubVoteMissing
  }

  lemma CountStep(records: Records, votes: seq<Vote>, order: seq<Address>, i: nat)
    requires Distinct(order) && i < |order|
    ensures var (next, err) := Count(Tallied(records, votes, Members(order[..i])), EntryFor(votes, order[i]));
            && (err.None? <==> Countable(records, votes, order[i]))
            && (err.None? ==> next == Tallied(records, votes, Members(order[..i + 1])))
            && (err.Some? ==> FailsWith(records, votes, order[i], err.value))
  {
    var c, done := order[i], Members(order[..i]);
    assert order[..i + 1] == order[..i] + [c];
    assert c !in done;
    assert forall x :: x in Members(order[..i + 1]) <==> x == c || x in done;
  }

  /** The failure names what is wrong with the candidate's tally. */
  lemma FailureIsTrue(records: Records, votes: seq<Vote>, c: Address, f: Failure)
    requires !Countable(records, votes, c) && FailsWith(records, votes, c, f)
    ensures match f
            case AddVoteMissing => Net(votes, c) >= 0 && (c !in records || records[c].deleted)
            case SubVoteMissing => Net(votes, c) < 0 && c !in records
            case SubVoteNotEnough => Net(votes, c) < 0 && c in records && records[c].vote + Net(votes, c) < 0
            case _ => false
  {
  }

  /** A batch is counted exactly if who gains is a live delegate and who loses has the votes to lose; then every
      tally moves by its net count and no record comes or goes. */
  lemma BatchOutcome(records: Records, from: Address, votes: seq<Vote>, poor: bool)
    ensures Outcome(records, from, VoteAction(votes), poor).Some? <==>
              forall v :: v in votes && v.operation <= 1 ==>
                var c, n := v.candidate, Net(votes, v.candidate);
                c in records && (if n < 0 then records[c].vote + n >= 0 else !records[c].deleted)
    ensures Outcome(records, from, VoteAction(votes), poor).Some? ==>
              var next := Outcome(records, from, VoteAction(votes), poor).value;
              && next.Keys == records.Keys
              && forall c :: c in records ==> next[c].vote == records[c].vote + Net(votes, c)
  {
    var named := set v | v in votes && v.operation <= 1 :: v.candidate;
    if forall c :: Named(votes, c) ==> Countable(records, votes, c) {
      forall v | v in votes && v.operation <= 1 ensures Countable(records, votes, v.candidate) {
        assert Named(votes, v.candidate);
      }
    }
    forall c | c in records && c !in named ensures Net(votes, c) == 0 {
      UnnamedNet(votes, c);
    }
  }

  /** A registration is accepted exactly from who is no live delegate. It makes a live one, with the votes an
      earlier record had, and touches nobody else. */
  lemma RegisterOutcome(records: Records, from: Address, poor: bool)
    ensures Outcome(records, from, RegisterAction, poor).Some? <==> from !in records || records[from].deleted
    ensures Outcome(records, from, RegisterAction, poor).Some? ==>
              var next := Outcome(records, from, RegisterAction, poor).value;
              && next.Keys == records.Keys + {from} && !next[from].deleted
              && next[from].vote == (if from in records then records[from].vote else 0)
              && forall c :: c in records && c != from ==> next[c] == records[c]
  {
  }

  /** Any other accepted transaction cancels its sender exactly if that is a live delegate below the registration
      cost, and nobody else; a cancelled delegate keeps its votes. */
  lemma CancelOutcome(records: Records, from: Address, action: Action, poor: bool)
    requires !action.RegisterAction? && Outcome(records, from, action, poor).Some?
    ensures var next := Outcome(records, from, action, poor).value;
            && next.Keys == records.Keys
            && (forall c :: c in records ==> (next[c].deleted <==> records[c].deleted || (poor && c == from)))
            && forall c :: c in records ==>
                 next[c].vote == records[c].vote + if action.VoteAction? then Net(action.votes, c) else 0
  {
    if action.VoteAction? {
      BatchOutcome(records, from, action.votes, poor);
    }
  }

  // What every run keeps.

  datatype World = World(accounts: Accounts, records: Records)

  function Voters(lists: map<Address, seq<Address>>, c: Address): (r: set<Address>) {
    set u | u in lists && c in lists[u]
  }

  function BaseOf(base: map<Address, nat>, c: Address): (n: nat) { if c in base then base[c] else 0 }

  /** One vote list: no candidate twice, no more than `max`, and one unit locked for each. */
  ghost predicate Sound(s: Accounts, max: nat, u: Address) {
    && Distinct(ListOf(s, u)) && |ListOf(s, u)| <= max
    && LockedOf(s, u) == AOA * |ListOf(s, u)|
  }

  /** One transaction of a run. A vote is cast when Vote was reached and not undone. It is uncast when the
      call ended in some other failure that the block accepts, such as a revert of the code it ran after the
      vote, or ended before the vote, which was then not `reached`. The batch, whatever it is, is counted all
      the same; the sender's list is what the undone vote leaves of it, `spare` being the spare room of its
      slice. Balances move freely; any transaction may cancel its sender's delegate. */
  datatype TxStep =
    | Cast(user: Address, votes: seq<Vote>, pool: set<Address>, poor: bool)
    | Uncast(user: Address, votes: seq<Vote>, pool: set<Address>, poor: bool, spare: seq<Address>, reached: bool)
    | Plain(from: Address, action: Action, poor: bool)

  function ListsAfter(lists: map<Address, seq<Address>>, step: TxStep): (r: map<Address, seq<Address>>)
    requires step.Uncast?
  {
    if step.reached && step.user in lists
    then lists[step.user := VoteSlice.Residue(lists[step.user], step.spare, step.votes, step.pool)]
    else lists
  }

  ghost predicate Moves(w: World, t: World, step: TxStep, max: nat) {
    match step
    case Cast(user, votes, pool, poor) =>
      var next := VoteOn(w.accounts, user, votes, pool, max);
      && next.Some? && t.accounts.locked == next.value.locked && t.accounts.lists == next.value.lists
      && Outcome(w.records, user, VoteAction(votes), poor) == Some(t.records)
    case Uncast(user, votes, _, poor, _, _) =>
      && t.accounts.locked == w.accounts.locked && t.accounts.lists == ListsAfter(w.accounts.lists, step)
      && Outcome(w.records, user, VoteAction(votes), poor) == Some(t.records)
    case Plain(from, action, poor) =>
      && !action.VoteAction?
      && t.accounts.locked == w.accounts.locked && t.accounts.lists == w.accounts.lists
      && Outcome(w.records, from, action, poor) == Some(t.records)
  }

  /** An undone vote has left its sender's list as it was. */
  ghost predicate LeavesLists(w: World, step: TxStep) {
    step.Uncast? ==> ListsAfter(w.accounts.lists, step) == w.accounts.lists
  }

  /** For batches that name no candidate twice, exactly if the vote was not reached or the batch is gentle. */
  lemma LeavesListsIff(w: World, step: TxStep)
    requires step.Uncast? && Distinct(ListOf(w.accounts, step.user)) && VoteSlice.Once(step.votes)
    ensures LeavesLists(w, step) <==>
              var list := ListOf(w.accounts, step.user);
              step.reached ==>
                list == [] || VoteSlice.Gentle(list, |step.spare|, step.votes, VoteSlice.Taken(list, step.votes,
                    step.pool))
  {
    var lists, list := w.accounts.lists, ListOf(w.accounts, step.user);
    if step.user in lists {
      VoteSlice.UntouchedIff(list, step.spare, step.votes, step.pool);
      var r := VoteSlice.Residue(list, step.spare, step.votes, step.pool);
      assert lists[step.user := r] == lists <==> r == list by {
        assert lists[step.user := r][step.user] == r;
      }
    }
  }

  /** A batch that takes back a vote in a call that reverts can leave the list with a candidate twice. */
  lemma MarredListInput()
    ensures var w := World(Accounts(map[], map[1 := 2 * AOA], map[1 := [2, 3]]), map[]);
            var step := Uncast(1, [Vote(2, 1)], {}, false, [], true);
            ListsAfter(w.accounts.lists, step)[1] == [3, 3]
  {
    VoteSlice.SharedSliceInput();
  }

  /** What the uncast batches of a run have added to a tally. */
  function Drift(steps: seq<TxStep>, c: Address): (n: int) {
    if steps == [] then 0 else
      var last := steps[|steps| - 1];
      Drift(steps[..|steps| - 1], c) + if last.Uncast? then Net(last.votes, c) else 0
  }

  function Owed(base: map<Address, nat>, steps: seq<TxStep>, c: Address): (n: int) { BaseOf(base, c) + Drift(steps, c) }

  /** The tally is `owed` plus the number of accounts voting for the delegate; who is voted for has a record. */
  ghost predicate Tally(w: World, owed: int, c: Address) {
    if c in w.records then w.records[c].vote == owed + |Voters(w.accounts.lists, c)|
    else owed == 0 && Voters(w.accounts.lists, c) == {}
  }

  ghost predicate Inv(w: World, base: map<Address, nat>, steps: seq<TxStep>, max: nat) {
    && (forall u :: Sound(w.accounts, max, u))
    && (forall c :: Tally(w, Owed(base, steps, c), c))
  }

  /** An accepted vote moves balance into the lock, and nothing else anywhere. */
  lemma VoteConserves(s: Accounts, user: Address, votes: seq<Vote>, pool: set<Address>, max: nat, u: Address)
    requires Sound(s, max, user) && VoteOn(s, user, votes, pool, max).Some?
    ensures var t := VoteOn(s, user, votes, pool, max).value;
            && BalanceOf(t, u) + LockedOf(t, u) == BalanceOf(s, u) + LockedOf(s, u)
            && (u != user ==> BalanceOf(t, u) == BalanceOf(s, u) && ListOf(t, u) == ListOf(s, u))
            && (Sound(s, max, u) ==> Sound(t, max, u))
  {
    AcceptedIffLegal(ListOf(s, user), votes, pool);
    var n := |Changed(ListOf(s, user), votes, pool).value|;
    assert AOA * n <= AOA * max;
  }

  /** Vote never looks at the balance: an accepted one leaves it non-negative exactly if it covered the lock. */
  lemma BalanceStaysIff(s: Accounts, user: Address, votes: seq<Vote>, pool: set<Address>, max: nat)
    requires VoteOn(s, user, votes, pool, max).Some?
    ensures BalanceOf(VoteOn(s, user, votes, pool, max).value, user) >= 0 <==> BalanceOf(s, user) >= AOA * Growth(votes)
  {
    ChangedLength(ListOf(s, user), votes, pool);
  }

  /** An account with nothing votes for a candidate and owes the unit. */
  lemma BalanceInput()
    ensures var s, votes := Accounts(map[], map[], map[]), [Vote(2, 0)];
            && VoteOn(s, 1, votes, {2}, 1).Some?
            && BalanceOf(VoteOn(s, 1, votes, {2}, 1).value, 1) == -AOA
  {
    var votes, none: seq<Address> := [Vote(2, 0)], [];
    assert votes[1..] == [] && none + [2] == [2];
    assert Step(none, votes[0], {2}) == Some([2]);
    assert Changed(none, votes, {2}) == Some([2]);
  }

  /** With the lock invariant, Vote accepts exactly the Legal batches whose result is no longer than `max`. */
  lemma VoteAcceptsIff(s: Accounts, user: Address, votes: seq<Vote>, pool: set<Address>, max: nat)
    requires Sound(s, max, user)
    ensures VoteOn(s, user, votes, pool, max).Some? <==>
              Legal(ListOf(s, user), votes, pool) && |ListOf(s, user)| + Growth(votes) <= max
  {
    AcceptedIffLegal(ListOf(s, user), votes, pool);
    if Changed(ListOf(s, user), votes, pool).Some? {
      ChangedLength(ListOf(s, user), votes, pool);
    }
  }

  lemma VotersChange(lists: map<Address, seq<Address>>, user: Address, next: seq<Address>, c: Address)
    ensures |Voters(lists[user := next], c)| ==
              |Voters(lists, c)| + Holds(next, c) - Holds(if user in lists then lists[user] else [], c)
  {
    var after, before := Voters(lists[user := next], c), Voters(lists, c);
    if c in next {
      assert after == before + {user};
    } else {
      assert after == before - {user};
    }
  }

  /** Counting a batch the sender's list accepted: a candidate losing a vote always has a record, and its
      tally is short exactly if uncast batches have taken it below the votes it has. */
  lemma TallyShortIff(w: World, base: map<Address, nat>, steps: seq<TxStep>, max: nat, user: Address, votes: seq<Vote>,
                      pool: set<Address>, c: Address)
    requires Inv(w, base, steps, max) && Changed(ListOf(w.accounts, user), votes, pool).Some?
    ensures Net(votes, c) < 0 ==>
              && c in w.records && user in Voters(w.accounts.lists, c)
              && (Countable(w.records, votes, c) <==> Owed(base, steps, c) + |Voters(w.accounts.lists, c)| > 0)
    ensures !Countable(w.records, votes, c) ==>
              FailsWith(w.records, votes, c, if Net(votes, c) < 0 then SubVoteNotEnough else AddVoteMissing)
  {
    var list := ListOf(w.accounts, user);
    assert Sound(w.accounts, max, user) && Tally(w, Owed(base, steps, c), c);
    NetIsChange(list, votes, pool, c);
    if c in list {
      assert user in Voters(w.accounts.lists, c);
    }
  }

  /** So with no batch uncast to its loss a tally is never short. */
  lemma TallyNeverShort(w: World, base: map<Address, nat>, steps: seq<TxStep>, max: nat, user: Address,
      votes: seq<Vote>,
                        pool: set<Address>, c: Address)
    requires Inv(w, base, steps, max) && Changed(ListOf(w.accounts, user), votes, pool).Some?
    requires Drift(steps, c) >= 0
    ensures Net(votes, c) < 0 ==> Countable(w.records, votes, c)
    ensures !Countable(w.records, votes, c) ==> FailsWith(w.records, votes, c, AddVoteMissing)
  {
    TallyShortIff(w, base, steps, max, user, votes, pool, c);
    if Net(votes, c) < 0 {
      assert |Voters(w.accounts.lists, c)| > 0;
    }
  }

  /** If every candidate in the pool is a live delegate, the counting of an accepted batch fails exactly for
      a tally that uncast batches have left short. */
  lemma CountSucceedsIff(w: World, base: map<Address, nat>, steps: seq<TxStep>, max: nat, user: Address,
      votes: seq<Vote>,
                         pool: set<Address>, poor: bool)
    requires Inv(w, base, steps, max) && Changed(ListOf(w.accounts, user), votes, pool).Some?
    requires forall c :: c in pool ==> Live(w.records, c)
    ensures Outcome(w.records, user, VoteAction(votes), poor).Some? <==>
              forall c :: Net(votes, c) < 0 ==> Owed(base, steps, c) + |Voters(w.accounts.lists, c)| > 0
  {
    var list := ListOf(w.accounts, user);
    assert Sound(w.accounts, max, user);
    forall c
      ensures Net(votes, c) < 0 ==> Named(votes, c)
      ensures Net(votes, c) < 0 ==> (Countable(w.records, votes, c) <==>
          Owed(base, steps, c) + |Voters(w.accounts.lists, c)| > 0)
      ensures Named(votes, c) && Net(votes, c) >= 0 ==> Countable(w.records, votes, c)
    {
      TallyShortIff(w, base, steps, max, user, votes, pool, c);
      if !Named(votes, c) {
        UnnamedNet(votes, c);
      } else if Net(votes, c) >= 0 {
        NamedNotLost(list, votes, pool, c);
      }
    }
  }

  lemma NamedNotLost(list: seq<Address>, votes: seq<Vote>, pool: set<Address>, c: Address)
    requires Distinct(list) && Changed(list, votes, pool).Some? && Named(votes, c) && Net(votes, c) >= 0
    ensures c in pool
  {
    AcceptedIffLegal(list, votes, pool);
    NetIsChange(list, votes, pool, c);
    var i :| 0 <= i < |votes| && votes[i].candidate == c;
    if c in Changed(list, votes, pool).value {
      NamedInPool(list, votes, pool, i);
    } else {
      NamedAdded(list, votes, pool, i);
    }
  }

  /** A candidate that a legal batch names without being voted for before was added, so is in the pool. */
  lemma NamedAdded(list: seq<Address>, votes: seq<Vote>, pool: set<Address>, i: nat)
    requires Legal(list, votes, pool) && i < |votes| && votes[i].candidate !in list
    ensures votes[i].candidate in pool
  {
    var c := votes[i].candidate;
    if votes[i].operation != 0 {
      assert VotedAfter(list, votes, i, c);
      VotedWasAdded(list, votes, pool, i, c);
    }
  }

  lemma {:induction false} VotedWasAdded(list: seq<Address>, votes: seq<Vote>, pool: set<Address>, n: nat, c: Address)
    requires Legal(list, votes, pool) && n <= |votes| && VotedAfter(list, votes, n, c) && c !in list
    ensures c in pool
  {
    if votes[n - 1].candidate != c {
      VotedWasAdded(list, votes, pool, n - 1, c);
    }
  }

  lemma CastKeepsTally(w: World, t: World, owed: int, max: nat, step: TxStep, c: Address)
    requires step.Cast? && Moves(w, t, step, max) && Sound(w.accounts, max, step.user) && Tally(w, owed, c)
    ensures Tally(t, owed, c)
  {
    var list := ListOf(w.accounts, step.user);
    NetIsChange(list, step.votes, step.pool, c);
    VotersChange(w.accounts.lists, step.user, ListOf(t.accounts, step.user), c);
    if !Named(step.votes, c) {
      UnnamedNet(step.votes, c);
    }
  }

  lemma UncastShiftsTally(w: World, t: World, owed: int, max: nat, step: TxStep, c: Address)
    requires step.Uncast? && Moves(w, t, step, max) && LeavesLists(w, step) && Tally(w, owed, c)
    ensures Tally(t, owed + Net(step.votes, c), c)
  {
    if !Named(step.votes, c) {
      UnnamedNet(step.votes, c);
    }
  }

  lemma {:induction false} UnnamedNet(votes: seq<Vote>, c: Address)
    requires !Named(votes, c)
    ensures Net(votes, c) == 0
  {
    if votes != [] {
      UnnamedNet(votes[..|votes| - 1], c);
      assert votes[|votes| - 1] in votes;
    }
  }

  lemma StepKeepsInv(w: World, t: World, base: map<Address, nat>, steps: seq<TxStep>, step: TxStep, max: nat)
    requires Inv(w, base, steps, max) && Moves(w, t, step, max) && LeavesLists(w, step)
    ensures Inv(t, base, steps + [step], max)
  {
    assert (steps + [step])[..|steps|] == steps;
    forall u ensures Sound(t.accounts, max, u) {
      assert Sound(w.accounts, max, u);
      if step.Cast? {
        assert Sound(w.accounts, max, step.user);
        VoteConserves(w.accounts, step.user, step.votes, step.pool, max, u);
      }
    }
    forall c ensures Tally(t, Owed(base, steps + [step], c), c) {
      var owed := Owed(base, steps, c);
      assert Tally(w, owed, c);
      match step
      case Cast(user, _, _, _) =>
        assert Sound(w.accounts, max, user);
        CastKeepsTally(w, t, owed, max, step, c);
      case Uncast(_, _, _, _, _, _) => UncastShiftsTally(w, t, owed, max, step, c);
      case Plain(_, _, _) =>
    }
  }

  /** In every run in which undone votes leave their lists alone, from any sound start: each vote list is
      duplicate-free, at most `max` long and backed by its locked balance, and each tally is its base plus the
      accounts voting for that delegate plus what uncast batches have added. */
  lemma {:induction false} EveryRunKeepsInv(run: seq<World>, base: map<Address, nat>, steps: seq<TxStep>, max: nat,
      i: nat)
    requires |run| == |steps| + 1 && i < |run| && Inv(run[0], base, [], max)
    requires forall k :: 0 <= k < |steps| ==> Moves(run[k], run[k + 1], steps[k], max) && LeavesLists(run[k], steps[k])
    ensures Inv(run[i], base, steps[..i], max)
  {
    if i > 0 {
      EveryRunKeepsInv(run, base, steps, max, i - 1);
      assert Moves(run[i - 1], run[i], steps[i - 1], max);
      StepKeepsInv(run[i - 1], run[i], base, steps[..i - 1], steps[i - 1], max);
      assert steps[..i] == steps[..i - 1] + [steps[i - 1]];
    }
  }

  /** The tally is the base plus the accounts voting, at any point of a run, exactly if the uncast batches
      before it cancel out for that delegate. */
  lemma TallyExactIff(run: seq<World>, base: map<Address, nat>, steps: seq<TxStep>, max: nat, i: nat, c: Address)
    requires |run| == |steps| + 1 && i < |run| && Inv(run[0], base, [], max)
    requires forall k :: 0 <= k < |steps| ==> Moves(run[k], run[k + 1], steps[k], max) && LeavesLists(run[k], steps[k])
    ensures c in run[i].records ==>
              (run[i].records[c].vote == BaseOf(base, c) + |Voters(run[i].accounts.lists, c)| <==>
                  Drift(steps[..i], c) == 0)
  {
    EveryRunKeepsInv(run, base, steps, max, i);
    assert Tally(run[i], Owed(base, steps[..i], c), c);
  }

  function SenderOf(step: TxStep): (u: Address) { if step.Plain? then step.from else step.user }

  predicate Registers(step: TxStep, c: Address) { step.Plain? && step.action.RegisterAction? && step.from == c }

  /** A transaction after which its sender is below the registration cost. */
  predicate Cancels(step: TxStep, c: Address) { SenderOf(step) == c && step.poor && !Registers(step, c) }

  lemma StepLive(w: World, t: World, step: TxStep, max: nat, c: Address)
    requires Moves(w, t, step, max)
    ensures Registers(step, c) ==> Live(t.records, c)
    ensures Cancels(step, c) ==> !Live(t.records, c)
    ensures !Registers(step, c) && !Cancels(step, c) ==> (Live(t.records, c) <==> Live(w.records, c))
  {
    hide Outcome, VoteOn;
    var action := if step.Plain? then step.action else VoteAction(step.votes);
    if action.RegisterAction? {
      RegisterOutcome(w.records, SenderOf(step), step.poor);
    } else {
      CancelOutcome(w.records, SenderOf(step), action, step.poor);
    }
  }

  /** At any point of a run a delegate is live exactly if it has registered and not been cancelled since, or was
      live at the start and has not been cancelled. */
  lemma {:induction false} LiveIff(run: seq<World>, steps: seq<TxStep>, max: nat, i: nat, c: Address)
    requires |run| == |steps| + 1 && i < |run|
    requires forall k :: 0 <= k < |steps| ==> Moves(run[k], run[k + 1], steps[k], max)
    ensures Live(run[i].records, c) <==>
              || (Live(run[0].records, c) && forall j :: 0 <= j < i ==> !Cancels(steps[j], c))
              || exists k :: 0 <= k < i && Registers(steps[k], c) && forall j :: k < j < i ==> !Cancels(steps[j], c)
  {
    hide Moves;
    if i > 0 {
      LiveIff(run, steps, max, i - 1, c);
      assert Moves(run[i - 1], run[i], steps[i - 1], max);
      StepLive(run[i - 1], run[i], steps[i - 1], max, c);
    }
  }

  ghost predicate Neutral(votes: seq<Vote>) {
    forall c :: Net(votes, c) == 0
  }

  /** One uncast batch keeps tallies and lists in step exactly if it moves no tally. */
  lemma UncastKeepsInvIff(w: World, t: World, base: map<Address, nat>, steps: seq<TxStep>, step: TxStep, max: nat)
    requires Inv(w, base, steps, max) && step.Uncast? && Moves(w, t, step, max) && LeavesLists(w, step)
    ensures Inv(t, base, steps, max) <==> Neutral(step.votes)
  {
    forall c ensures Tally(t, Owed(base, steps, c), c) <==> Net(step.votes, c) == 0 {
      assert Tally(w, Owed(base, steps, c), c);
      UncastShiftsTally(w, t, Owed(base, steps, c), max, step, c);
    }
    forall u ensures Sound(t.accounts, max, u) {
      assert Sound(w.accounts, max, u);
    }
    if Inv(t, base, steps, max) {
      forall c ensures Net(step.votes, c) == 0 {
        assert Tally(t, Owed(base, steps, c), c);
      }
    }
  }

  /** Account 1 votes for delegate 2, and takes the vote back in a call that reverts: the list stays, the
      tally goes to zero. Taking it back again is accepted by the list and refused by the count. */
  lemma UncastInput()
    ensures var accounts := Accounts(map[], map[1 := AOA], map[1 := [2]]);
            var w, t := World(accounts, map[2 := Delegate(1, false)]), World(accounts, map[2 := Delegate(0, false)]);
            var votes := [Vote(2, 1)];
            && Inv(w, map[], [], 1) && Moves(w, t, Uncast(1, votes, {}, false, [], true), 1) && !Inv(t, map[], [], 1)
            && VoteOn(t.accounts, 1, votes, {}, 1).Some?
            && Outcome(t.records, 1, VoteAction(votes), false).None?
            && FailsWith(t.records, votes, 2, SubVoteNotEnough)
  {
    var accounts := Accounts(map[], map[1 := AOA], map[1 := [2]]);
    var w, t := World(accounts, map[2 := Delegate(1, false)]), World(accounts, map[2 := Delegate(0, false)]);
    var votes := [Vote(2, 1)];
    InputBatch(votes);
    InputResidue(votes);
    forall c ensures Tally(w, Owed(map[], [], c), c) {
      assert Voters(accounts.lists, c) == if c == 2 then {1} else {};
    }
    forall u ensures Sound(accounts, 1, u) {
    }
    var named := set v | v in votes && v.operation <= 1 :: v.candidate;
    assert votes[0] in votes && named == {2};
    assert Tallied(w.records, votes, named) == t.records;
    assert Named(votes, 2) && !Countable(t.records, votes, 2);
    assert !Tally(t, Owed(map[], [], 2), 2) by {
      assert Voters(accounts.lists, 2) == {1};
    }
  }

  lemma InputResidue(votes: seq<Vote>)
    requires votes == [Vote(2, 1)]
    ensures VoteSlice.Residue([2], [], votes, {}) == [2]
  {
    InputBatch(votes);
    VoteSlice.SharingKeepsResult(VoteSlice.Buffer([2], [2], true), votes, {});
    VoteSlice.GentleKeeps([2], [], votes, {});
  }

  lemma InputBatch(votes: seq<Vote>)
    requires votes == [Vote(2, 1)]
    ensures Net(votes, 2) == -1 && Changed([2], votes, {}) == Some([])
    ensures forall c :: Named(votes, c) <==> c == 2
  {
    assert votes[..0] == [] && votes[1..] == [] && votes[0] in votes;
    assert RemoveAt([2], 0) == [];
    assert Step([2], votes[0], {}) == Some([]);
  }

  ghost predicate VotesTo(s: Accounts, t: Accounts, max: nat) {
    exists user, votes, pool :: VoteOn(s, user, votes, pool, max) == Some(t)
  }

  /** In a run of votes alone, balance plus locked balance of every account stays what it was. */
  lemma {:induction false} VoteRunConserves(run: seq<Accounts>, max: nat, i: nat, u: Address)
    requires i < |run| && forall v :: Sound(run[0], max, v)
    requires forall k :: 0 < k < |run| ==> VotesTo(run[k - 1], run[k], max)
    ensures forall v :: Sound(run[i], max, v)
    ensures BalanceOf(run[i], u) + LockedOf(run[i], u) == BalanceOf(run[0], u) + LockedOf(run[0], u)
  {
    if i > 0 {
      VoteRunConserves(run, max, i - 1, u);
      var s := run[i - 1];
      assert VotesTo(s, run[i], max);
      var user, votes, pool :| VoteOn(s, user, votes, pool, max) == Some(run[i]);
      forall v ensures Sound(run[i], max, v) {
        VoteConserves(s, user, votes, pool, max, v);
      }
      VoteConserves(s, user, votes, pool, max, u);
    }
  }
}
