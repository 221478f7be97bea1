/** The event feed: one list of subscribed channels whose prefix is the set still to be sent to, with
    unsubscriptions arriving at any time. Every atomic step is one transition of a state machine.
    Positions are counted after the fixed removeSub case at the front of the list. */
module Feed {
  import opened Base

  type Chan = nat

  /** Who holds the send lock: nobody; a Send that has not yet taken over the inbox; a Send at work. */
  datatype Phase = Free | Held | Sending

  /** `live` counts subscriptions not yet cancelled and `removers` cancellations waiting for the send lock
      or for Send to take them. The other fields are the history of the Send at work: the channels it
      started with, those it delivered to, those removed meanwhile, and those of the removed ones it had
      not delivered to. */
  datatype History = History(
    live: multiset<Chan>, removers: multiset<Chan>, started: multiset<Chan>,
    delivered: multiset<Chan>, removed: multiset<Chan>, missed: multiset<Chan>)

  /** `cases[..active]` is the part of the list still to be sent to. */
  datatype State = State(cases: seq<Chan>, inbox: seq<Chan>, phase: Phase, active: nat, nsent: nat, log: History)

  /** caseList.deactivate on the first `n` cases: swaps the case to the end of them. */
  function Swap(cs: seq<Chan>, i: nat, j: nat): (r: seq<Chan>)
    requires i < |cs| && j < |cs|
    ensures |r| == |cs| && multiset(r) == multiset(cs)
  {
    cs[i := cs[j]][j := cs[i]]
  }

  function Subscribe(s: State, ch: Chan): (t: State) {
    s.(inbox := s.inbox + [ch], log := s.log.(live := s.log.live + multiset{ch}))
  }

  /** The first part of remove: the channel leaves the inbox, or the call goes on to wait. */
  function Unsubscribe(s: State, ch: Chan): (t: State)
    requires ch in s.log.live
  {
    var i := FirstIndex(s.inbox, ch);
    if i >= 0 then s.(inbox := RemoveAt(s.inbox, i), log := s.log.(live := s.log.live - multiset{ch}))
    else s.(log := s.log.(live := s.log.live - multiset{ch}, removers := s.log.removers + multiset{ch}))
  }

  /** A waiting remove gets the send lock itself. */
  function RemoveIdle(s: State, ch: Chan): (t: State)
    requires ch in s.log.removers && ch in s.cases
  {
    s.(cases := RemoveAt(s.cases, FirstIndex(s.cases, ch)), log := s.log.(removers := s.log.removers - multiset{ch}))
  }

  /** Send, holding the lock, takes over the inbox. */
  function Merge(s: State): (t: State) {
    var all := s.cases + s.inbox;
    s.(cases := all, inbox := [], phase := Sending, active := |all|, nsent := 0,
       log := s.log.(started := multiset(all), delivered := multiset{}, removed := multiset{}, missed := multiset{}))
  }

  /** A send to the case at position `i` succeeds, by TrySend or by Select. */
  function Deliver(s: State, i: nat): (t: State)
    requires i < s.active <= |s.cases|
  {
    s.(cases := Swap(s.cases, i, s.active - 1), active := s.active - 1, nsent := s.nsent + 1,
       log := s.log.(delivered := s.log.delivered + multiset{s.cases[i]}))
  }

  /** Select receives a removal while Send is at work. */
  function RemoveDuring(s: State, ch: Chan): (t: State)
    requires ch in s.log.removers && ch in s.cases
  {
    var i := FirstIndex(s.cases, ch);
    s.(cases := RemoveAt(s.cases, i),
       active := if i < s.active then s.active - 1 else s.active,
       log := s.log.(removers := s.log.removers - multiset{ch}, removed := s.log.removed + multiset{ch},
                     missed := if i < s.active then s.log.missed + multiset{ch} else s.log.missed))
  }

  /** Every interleaving of Subscribe, Unsubscribe and Send. A subscription is cancelled at most once. A
      removal whose channel is in no list would make `delete` panic: such a step leads nowhere here, and
      RemovalsAreFound shows that it never comes up. */
  ghost predicate Next(s: State, t: State) {
    || (exists ch :: t == Subscribe(s, ch))
    || (exists ch :: ch in s.log.live && t == Unsubscribe(s, ch))
    || (exists ch :: ch in s.log.removers && ch in s.cases && s.phase.Free? && t == RemoveIdle(s, ch))
    || (s.phase.Free? && t == s.(phase := Held))
    || (s.phase.Held? && t == Merge(s))
    || (s.phase.Sending? && exists i: nat :: i < s.active <= |s.cases| && t == Deliver(s, i))
    || (s.phase.Sending? && s.active > 0 &&
        exists ch :: ch in s.log.removers && ch in s.cases && t == RemoveDuring(s, ch))
    || (s.phase.Sending? && s.active == 0 && t == s.(phase := Free))
  }

  /** Each live subscription and each waiting removal has its own case; waiting removals have theirs in
      the send list. */
  ghost predicate Balanced(s: State, c: Chan) {
    && multiset(s.cases)[c] + multiset(s.inbox)[c] == s.log.live[c] + s.log.removers[c]
    && s.log.removers[c] <= multiset(s.cases)[c]
  }

  /** What a Send at work has done so far: of the channels it started with, the active ones are still to
      be sent to, the missed ones were removed before, and it has delivered once to each other one. */
  ghost predicate Accounted(s: State, c: Chan)
    requires s.active <= |s.cases|
  {
    && s.log.started[c] == multiset(s.cases[..s.active])[c] + s.log.delivered[c] + s.log.missed[c]
    && s.log.started[c] == multiset(s.cases)[c] + s.log.removed[c]
    && s.log.missed[c] <= s.log.removed[c]
  }

  ghost predicate Inv(s: State) {
    && (forall c :: Balanced(s, c))
    && (s.phase.Sending? ==> s.active <= |s.cases| && s.nsent == |s.log.delivered| && forall c :: Accounted(s, c))
  }

  lemma RemovalsAreFound(s: State, ch: Chan)
    requires Inv(s) && ch in s.log.removers
    ensures ch in s.cases && FirstIndex(s.cases, ch) >= 0
  {
    assert Balanced(s, ch);
    assert ch in multiset(s.cases);
  }

  lemma SubscribeKeepsInv(s: State, ch: Chan)
    requires Inv(s)
    ensures Inv(Subscribe(s, ch))
  {
    var t := Subscribe(s, ch);
    forall c ensures Balanced(t, c) {
      assert Balanced(s, c);
    }
    forall c | s.phase.Sending? ensures Accounted(t, c) {
      assert Accounted(s, c);
    }
  }

  lemma UnsubscribeBalanced(s: State, ch: Chan, c: Chan)
    requires ch in s.log.live && Balanced(s, c) && Balanced(s, ch)
    ensures Balanced(Unsubscribe(s, ch), c)
  {
    var i := FirstIndex(s.inbox, ch);
    if i >= 0 {
      RemoveAtMultiset(s.inbox, i);
    } else {
      assert ch !in multiset(s.inbox);
    }
  }

  lemma UnsubscribeKeepsInv(s: State, ch: Chan)
    requires Inv(s) && ch in s.log.live
    ensures Inv(Unsubscribe(s, ch))
  {
    var t := Unsubscribe(s, ch);
    hide Balanced;
    forall c ensures Balanced(t, c) {
      UnsubscribeBalanced(s, ch, c);
    }
    forall c | s.phase.Sending? ensures Accounted(t, c) {
      assert Accounted(s, c);
    }
  }

  lemma RemoveIdleKeepsInv(s: State, ch: Chan)
    requires Inv(s) && ch in s.log.removers && ch in s.cases && s.phase.Free?
    ensures Inv(RemoveIdle(s, ch))
  {
    var t := RemoveIdle(s, ch);
    RemoveAtMultiset(s.cases, FirstIndex(s.cases, ch));
    forall c ensures Balanced(t, c) {
      assert Balanced(s, c);
    }
  }

  lemma MergeKeepsInv(s: State)
    requires Inv(s)
    ensures Inv(Merge(s))
  {
    var t := Merge(s);
    assert t.cases[..t.active] == t.cases;
    forall c ensures Balanced(t, c) {
      assert Balanced(s, c);
    }
  }

  lemma SwapOut(cs: seq<Chan>, i: nat, n: nat)
    requires i < n <= |cs|
    ensures multiset(Swap(cs, i, n - 1)[..n - 1]) == multiset(cs[..n]) - multiset{cs[i]}
    ensures cs[i] in multiset(cs[..n])
  {
    var r := Swap(cs, i, n - 1);
    assert r[..n] == Swap(cs[..n], i, n - 1);
    assert r[..n] == r[..n - 1] + [cs[i]];
    assert cs[i] in cs[..n];
  }

  lemma DeliverAccounted(s: State, i: nat, c: Chan)
    requires i < s.active <= |s.cases| && Accounted(s, c)
    ensures Accounted(Deliver(s, i), c)
  {
    hide Deliver;
    DeliverCounts(s, i, c);
  }

  lemma DeliverCounts(s: State, i: nat, c: Chan)
    requires i < s.active <= |s.cases|
    ensures var t, one := Deliver(s, i), if c == s.cases[i] then 1 else 0;
            && t.active == s.active - 1 && |t.cases| == |s.cases| && multiset(t.cases)[c] == multiset(s.cases)[c]
            && multiset(t.cases[..t.active])[c] == multiset(s.cases[..s.active])[c] - one
            && t.log.delivered[c] == s.log.delivered[c] + one
            && t.log.started == s.log.started && t.log.missed == s.log.missed && t.log.removed == s.log.removed
  {
    SwapOut(s.cases, i, s.active);
    hide Swap;
  }

  lemma DeliverKeepsInv(s: State, i: nat)
    requires Inv(s) && s.phase.Sending? && i < s.active <= |s.cases|
    ensures Inv(Deliver(s, i))
  {
    var t := Deliver(s, i);
    hide Swap;
    forall c ensures Balanced(t, c) {
      assert Balanced(s, c);
    }
    hide Accounted;
    forall c ensures Accounted(t, c) {
      DeliverAccounted(s, i, c);
    }
  }

  /** What deleting position `i` does to the count of one channel, in the list and in its first `n`. */
  lemma DeleteCounts(cs: seq<Chan>, i: nat, c: Chan)
    requires i < |cs|
    ensures |RemoveAt(cs, i)| == |cs| - 1
    ensures multiset(RemoveAt(cs, i))[c] == multiset(cs)[c] - if c == cs[i] then 1 else 0
  {
    RemoveAtMultiset(cs, i);
    assert cs[i] in multiset(cs);
  }

  lemma DeletePrefix(cs: seq<Chan>, i: nat, n: nat)
    requires i < |cs| && n <= |cs|
    ensures i < n ==> RemoveAt(cs, i)[..n - 1] == RemoveAt(cs[..n], i)
    ensures i >= n ==> RemoveAt(cs, i)[..n] == cs[..n]
  {
  }

  lemma RemoveDuringBalanced(s: State, ch: Chan, c: Chan)
    requires ch in s.log.removers && ch in s.cases && Balanced(s, c)
    ensures Balanced(RemoveDuring(s, ch), c)
  {
    RemoveAtMultiset(s.cases, FirstIndex(s.cases, ch));
  }

  /** The accounting of one channel when position `i` is deleted, in the terms of Accounted. */
  lemma RemovalCounts(cs: seq<Chan>, i: nat, n: nat, c: Chan)
    requires i < |cs| && n <= |cs|
    ensures var rest, m := RemoveAt(cs, i), if i < n then n - 1 else n;
            && m <= |rest| == |cs| - 1
            && multiset(rest)[c] == multiset(cs)[c] - (if c == cs[i] then 1 else 0)
            && multiset(rest[..m])[c] == multiset(cs[..n])[c] - (if c == cs[i] && i < n then 1 else 0)
  {
    DeleteCounts(cs, i, c);
    DeletePrefix(cs, i, n);
    if i < n {
      DeleteCounts(cs[..n], i, c);
    }
  }

  lemma RemoveDuringAccounted(s: State, ch: Chan, c: Chan)
    requires ch in s.log.removers && ch in s.cases && s.active <= |s.cases| && Accounted(s, c)
    ensures var t := RemoveDuring(s, ch); t.active <= |t.cases| && Accounted(t, c)
  {
    hide FirstIndex, RemoveDuring;
    RemoveDuringCounts(s, ch, c);
  }

  lemma RemoveDuringCounts(s: State, ch: Chan, c: Chan)
    requires ch in s.log.removers && ch in s.cases && s.active <= |s.cases|
    ensures var t, i := RemoveDuring(s, ch), FirstIndex(s.cases, ch);
            var one, active := if c == ch then 1 else 0, if c == ch && i < s.active then 1 else 0;
            && t.active <= |t.cases| && multiset(t.cases)[c] == multiset(s.cases)[c] - one
            && multiset(t.cases[..t.active])[c] == multiset(s.cases[..s.active])[c] - active
            && t.log.removed[c] == s.log.removed[c] + one && t.log.missed[c] == s.log.missed[c] + active
            && t.log.started == s.log.started && t.log.delivered == s.log.delivered
  {
    var i := FirstIndex(s.cases, ch);
    assert s.cases[i] == ch;
    RemovalCounts(s.cases, i, s.active, c);
    hide FirstIndex, RemoveAt;
  }

  lemma RemoveDuringKeepsInv(s: State, ch: Chan)
    requires Inv(s) && s.phase.Sending? && ch in s.log.removers && ch in s.cases
    ensures Inv(RemoveDuring(s, ch))
  {
    var t := RemoveDuring(s, ch);
    assert t.nsent == s.nsent && t.log.delivered == s.log.delivered;
    hide Balanced, Accounted, RemoveDuring;
    forall c ensures Balanced(t, c) {
      RemoveDuringBalanced(s, ch, c);
    }
    forall c ensures t.active <= |t.cases| && Accounted(t, c) {
      RemoveDuringAccounted(s, ch, c);
    }
  }

  lemma StepKeepsInv(s: State, t: State)
    requires Inv(s) && Next(s, t)
    ensures Inv(t)
  {
    hide Inv, Subscribe, Unsubscribe, RemoveIdle, Merge, Deliver, RemoveDuring;
    if ch :| t == Subscribe(s, ch) {
      SubscribeKeepsInv(s, ch);
    } else if ch :| ch in s.log.live && t == Unsubscribe(s, ch) {
      UnsubscribeKeepsInv(s, ch);
    } else if ch :| ch in s.log.removers && ch in s.cases && s.phase.Free? && t == RemoveIdle(s, ch) {
      RemoveIdleKeepsInv(s, ch);
    } else if s.phase.Held? {
      MergeKeepsInv(s);
    } else if s.phase.Sending? && exists i: nat :: i < s.active <= |s.cases| && t == Deliver(s, i) {
      var i: nat :| i < s.active <= |s.cases| && t == Deliver(s, i);
      DeliverKeepsInv(s, i);
    } else if s.phase.Sending? && s.active > 0 &&
              exists ch :: ch in s.log.removers && ch in s.cases && t == RemoveDuring(s, ch) {
      var ch :| ch in s.log.removers && ch in s.cases && t == RemoveDuring(s, ch);
      RemoveDuringKeepsInv(s, ch);
    } else {
      PhaseKeepsInv(s);
    }
  }

  lemma PhaseKeepsInv(s: State)
    requires Inv(s)
    ensures Inv(s.(phase := Held)) && Inv(s.(phase := Free))
  {
    forall c ensures Balanced(s.(phase := Held), c) && Balanced(s.(phase := Free), c) {
      assert Balanced(s, c);
    }
  }

  const START := State([], [], Free, 0, 0, History(multiset{}, multiset{}, multiset{}, multiset{}, multiset{},
      multiset{}))

  ghost predicate IsRun(run: seq<State>) {
    run != [] && run[0] == START && forall i :: 0 < i < |run| ==> Next(run[i - 1], run[i])
  }

  lemma {:induction false} EveryRunKeepsInv(run: seq<State>, i: nat)
    requires IsRun(run) && i < |run|
    ensures Inv(run[i])
  {
    if i > 0 {
      EveryRunKeepsInv(run, i - 1);
      StepKeepsInv(run[i - 1], run[i]);
    }
  }

  /** When a Send ends, whatever was interleaved with it: each channel it started with has got the value
      once per subscription unless removed meanwhile, and then at most that often; `nsent` is the number
      of deliveries; and the list is a permutation of what Send started with minus the removed. */
  lemma SendOutcome(run: seq<State>, i: nat, ch: Chan)
    requires IsRun(run) && i < |run| && run[i].phase.Sending? && run[i].active == 0
    ensures var s := run[i];
            && s.log.delivered[ch] <= s.log.started[ch]
            && (s.log.removed[ch] == 0 ==> s.log.delivered[ch] == s.log.started[ch])
            && s.log.started[ch] <= s.log.delivered[ch] + s.log.removed[ch]
            && s.nsent == |s.log.delivered|
            && multiset(s.cases) == s.log.started - s.log.removed
  {
    EveryRunKeepsInv(run, i);
    var s := run[i];
    assert s.cases[..0] == [];
    assert Accounted(s, ch);
    forall c ensures multiset(s.cases)[c] == (s.log.started - s.log.removed)[c] {
      assert Accounted(s, c);
    }
  }

  /** A Send takes over every subscription there is: those cancelled but still waiting to be removed, and all
      the live ones. Nothing joins or leaves what it started with while it is at work. */
  lemma StepStarted(s: State, t: State)
    requires Inv(s) && Next(s, t) && t.phase.Sending?
    ensures s.phase.Sending? ==> t.log.started == s.log.started
    ensures !s.phase.Sending? ==>
              t == Merge(s) && t.inbox == [] && t.active == |t.cases| && t.log.started == s.log.live + s.log.removers
  {
    hide Inv;
    StepPhase(s, t);
    if !s.phase.Sending? {
      MergeStarts(s);
    }
  }

  lemma StepPhase(s: State, t: State)
    requires Next(s, t) && t.phase.Sending?
    ensures s.phase.Sending? ==> t.log.started == s.log.started
    ensures !s.phase.Sending? ==> t == Merge(s)
  {
    hide FirstIndex, RemoveAt, Swap;
  }

  lemma MergeStarts(s: State)
    requires Inv(s)
    ensures var t := Merge(s);
            t.inbox == [] && t.active == |t.cases| && t.log.started == s.log.live + s.log.removers
  {
    forall c ensures multiset(s.cases + s.inbox)[c] == (s.log.live + s.log.removers)[c] {
      assert Balanced(s, c);
    }
    hide Inv, Balanced;
  }

  lemma {:induction false} StartedStays(run: seq<State>, j: nat, i: nat)
    requires IsRun(run) && j < i < |run| && !run[j].phase.Sending?
    requires forall k :: j < k <= i ==> run[k].phase.Sending?
    ensures run[i].log.started == run[j].log.live + run[j].log.removers
    decreases i
  {
    hide Inv, Next;
    EveryRunKeepsInv(run, i - 1);
    StepStarted(run[i - 1], run[i]);
    if i > j + 1 {
      StartedStays(run, j, i - 1);
    }
  }

  /** So when a Send that began at `j` ends at `i`, every channel with nothing cancelled has got the value once for
      each subscription it had when the Send began, and nobody has got it more often. */
  lemma SendReachesAll(run: seq<State>, j: nat, i: nat, ch: Chan)
    requires IsRun(run) && j < i < |run| && !run[j].phase.Sending?
    requires forall k :: j < k <= i ==> run[k].phase.Sending?
    requires run[i].active == 0
    ensures var before, after := run[j].log, run[i].log;
            && after.delivered[ch] <= before.live[ch] + before.removers[ch] <= after.delivered[ch] + after.removed[ch]
            && (before.removers[ch] == 0 && after.removed[ch] == 0 ==> after.delivered[ch] == before.live[ch])
  {
    SendOutcome(run, i, ch);
    StartedStays(run, j, i);
  }

  /** A sequence of deliveries, by position. */
  ghost predicate Delivers(s: State, picks: seq<nat>, t: State)
    decreases |picks|
  {
    if picks == [] then s == t
    else s.phase.Sending? && picks[0] < s.active <= |s.cases| && Delivers(Deliver(s, picks[0]), picks[1..], t)
  }

  lemma {:induction false} DeliversSnoc(s: State, picks: seq<nat>, t: State, i: nat)
    requires Delivers(s, picks, t) && t.phase.Sending? && i < t.active <= |t.cases|
    ensures Delivers(s, picks + [i], Deliver(t, i))
    decreases |picks|
  {
    hide Deliver;
    var more := picks + [i];
    if picks == [] {
      assert more[1..] == [];
    } else {
      DeliversSnoc(Deliver(s, picks[0]), picks[1..], t, i);
      assert more[1..] == picks[1..] + [i];
    }
  }

  /** The feed as the source keeps it: Send's `cases` aliases the first `active` entries of `sendCases`. */
  class EventFeed {
    var sendCases: seq<Chan>
    var inbox: seq<Chan>
    var phase: Phase
    var active: nat
    var nsent: nat
    ghost var log: History

    ghost function Now(): (s: State)
      reads this
    {
      State(sendCases, inbox, phase, active, nsent, log)
    }

    constructor ()
      ensures Now() == START && Inv(Now())
    {
      sendCases, inbox, phase, active, nsent := [], [], Free, 0, 0;
      log := START.log;
    }

    /** caseList.find, as its loop. */
    static method FindCase(cs: seq<Chan>, ch: Chan) returns (i: int)
      ensures i == FirstIndex(cs, ch)
    {
      i := 0;
      while i < |cs|
        invariant 0 <= i <= |cs|
        invariant ch !in cs[..i]
      {
        if cs[i] == ch {
          FirstIndexUnique(cs, ch, i);
          return;
        }
        i := i + 1;
      }
      assert cs[..|cs|] == cs;
      i := -1;
    }

    method SubscribeTo(ch: Chan)
      requires Inv(Now())
      modifies this
      ensures Inv(Now()) && Now() == Subscribe(old(Now()), ch)
    {
      SubscribeKeepsInv(Now(), ch);
      inbox := inbox + [ch];
      log := log.(live := log.live + multiset{ch});
    }

    /** The first part of remove, under the inbox lock. */
    method LeaveInbox(ch: Chan) returns (done: bool)
      requires Inv(Now()) && ch in log.live
      modifies this
      ensures Inv(Now()) && Now() == Unsubscribe(old(Now()), ch)
      ensures done == (ch in old(inbox))
    {
      UnsubscribeKeepsInv(Now(), ch);
      hide Inv;
      var index := FindCase(inbox, ch);
      done := index != -1;
      if done {
        inbox := RemoveAt(inbox, index);
        log := log.(live := log.live - multiset{ch});
      } else {
        log := log.(live := log.live - multiset{ch}, removers := log.removers + multiset{ch});
      }
    }

    /** The second part of remove when no Send is in progress. */
    method RemoveNow(ch: Chan)
      requires Inv(Now()) && phase.Free? && ch in log.removers
      modifies this
      ensures ch in old(sendCases)
      ensures Inv(Now()) && Now() == RemoveIdle(old(Now()), ch)
    {
      RemovalsAreFound(Now(), ch);
      RemoveIdleKeepsInv(Now(), ch);
      hide Inv;
      var index := FindCase(sendCases, ch);
      sendCases := RemoveAt(sendCases, index);
      log := log.(removers := log.removers - multiset{ch});
    }

    /** Send, with the send lock, takes over the inbox under the inbox lock. */
    method TakeInbox()
      requires Inv(Now()) && phase.Held?
      modifies this
      ensures Inv(Now()) && Now() == Merge(old(Now()))
      ensures log.started == old(log.live) + old(log.removers)
    {
      MergeKeepsInv(Now());
      StepStarted(Now(), Merge(Now()));
      hide Inv;
      sendCases, inbox := sendCases + inbox, [];
      active, nsent, phase := |sendCases|, 0, Sending;
      log := log.(started := multiset(sendCases), delivered := multiset{}, removed := multiset{}, missed := multiset{});
    }

    /** The fast path of Send: tries every active case once, and a case that is swapped into the place of a
        delivered one in its turn. `answers` says which tries succeed, in their order; those channels are
        delivered to and the others stay active. */
    method TryAll(answers: seq<bool>) returns (ghost picks: seq<nat>, ghost tried: seq<Chan>)
      requires Inv(Now()) && phase.Sending? && |answers| == active
      modifies this
      ensures Inv(Now()) && phase.Sending? && Delivers(old(Now()), picks, Now())
      ensures TriedOnce(old(Now()), Now(), tried, answers)
    {
      hide *;
      NowIs();
      TryStart(Now());
      assert answers[..0] == [];
      picks, tried := [], [];
      var i, k := 0, 0;
      while i < active
        invariant Inv(Now()) && phase.Sending? && 0 <= i <= active <= |sendCases|
        invariant |tried| == k && k + active - i == |answers|
        invariant Delivers(old(Now()), picks, Now()) && Trying(old(Now()), Now(), i, tried, answers[..k])
        decreases active - i
      {
        assert answers[..k] + [answers[k]] == answers[..k + 1];
        ghost var ch := sendCases[i];
        i, picks := TryNext(i, answers[k], old(Now()), picks, tried, answers[..k]);
        tried, k := tried + [ch], k + 1;
      }
      assert answers[..k] == answers;
      NowIs();
      TryEnd(old(Now()), Now(), i, tried, answers);
    }

    lemma NowIs()
      ensures Now() == State(sendCases, inbox, phase, active, nsent, log)
    {
    }

    /** One try of the fast path. */
    method TryNext(i: nat, ok: bool, ghost start: State, ghost before: seq<nat>, ghost tried: seq<Chan>,
                   ghost answers: seq<bool>)
      returns (j: nat, ghost picks: seq<nat>)
      requires Inv(Now()) && phase.Sending? && i < active <= |sendCases|
      requires Delivers(start, before, Now()) && Trying(start, Now(), i, tried, answers)
      modifies this
      ensures Inv(Now()) && phase.Sending? && j <= active <= |sendCases| && active - j == old(active) - i - 1
      ensures Delivers(start, picks, Now())
      ensures Trying(start, Now(), j, tried + [old(sendCases)[i]], answers + [ok])
    {
      hide Inv, Delivers, Deliver, Trying, Where, Swap;
      j, picks := i, before;
      if ok {
        TryDelivered(start, Now(), i, tried, answers);
        DeliverKeepsInv(Now(), i);
        DeliversSnoc(start, before, Now(), i);
        DeliverFacts(Now(), i);
        Deactivate(i);
        picks := before + [i];
      } else {
        TryPassed(start, Now(), i, tried, answers);
        j := i + 1;
      }
    }

    method Deactivate(i: nat)
      requires i < active <= |sendCases|
      modifies this
      ensures Now() == Deliver(old(Now()), i)
    {
      hide Swap;
      log := log.(delivered := log.delivered + multiset{sendCases[i]});
      sendCases := Swap(sendCases, i, active - 1);
      active, nsent := active - 1, nsent + 1;
    }

    /** The removal branch of Send's select. */
    method TakeRemoval(ch: Chan)
      requires Inv(Now()) && phase.Sending? && ch in log.removers
      modifies this
      ensures ch in old(sendCases)
      ensures Inv(Now()) && Now() == RemoveDuring(old(Now()), ch)
    {
      hide *;
      NowIs();
      RemovalsAreFound(Now(), ch);
      RemoveDuringKeepsInv(Now(), ch);
      RemoveDuringIs(Now(), ch);
      var index := FindCase(sendCases, ch);
      sendCases := RemoveAt(sendCases, index);
      log := log.(removers := log.removers - multiset{ch}, removed := log.removed + multiset{ch},
                  missed := if index < active then log.missed + multiset{ch} else log.missed);
      active := if index < active then active - 1 else active;
      NowIs();
    }
  }

  lemma RemoveDuringIs(s: State, ch: Chan)
    requires ch in s.log.removers && ch in s.cases && FirstIndex(s.cases, ch) >= 0
    ensures var i, log := FirstIndex(s.cases, ch), s.log;
            RemoveDuring(s, ch) ==
              State(RemoveAt(s.cases, i), s.inbox, s.phase, if i < s.active then s.active - 1 else s.active, s.nsent,
                    log.(removers := log.removers - multiset{ch}, removed := log.removed + multiset{ch},
                         missed := if i < s.active then log.missed + multiset{ch} else log.missed))
  {
    hide FirstIndex, RemoveAt;
  }

  lemma DeliverFacts(s: State, i: nat)
    requires i < s.active <= |s.cases|
    ensures var t := Deliver(s, i); t.phase == s.phase && t.active == s.active - 1 && |t.cases| == |s.cases|
  {
  }

  /** The tried channels whose answer was `want`. */
  ghost function Where(tried: seq<Chan>, answers: seq<bool>, want: bool): (r: multiset<Chan>)
    requires |tried| == |answers|
  {
    if tried == [] then multiset{} else
      var n := |tried| - 1;
      Where(tried[..n], answers[..n], want) + if answers[n] == want then multiset{tried[n]} else multiset{}
  }

  lemma WhereSnoc(tried: seq<Chan>, answers: seq<bool>, ch: Chan, ok: bool, want: bool)
    requires |tried| == |answers|
    ensures ok == want ==> Where(tried + [ch], answers + [ok], want) == Where(tried, answers, want) + multiset{ch}
    ensures ok != want ==> Where(tried + [ch], answers + [ok], want) == Where(tried, answers, want)
  {
    var more, known := tried + [ch], answers + [ok];
    assert more[..|tried|] == tried && known[..|tried|] == answers;
  }

  /** Each active case was tried once; those that took the value have it, and the others are still active. */
  ghost predicate TriedOnce(start: State, s: State, tried: seq<Chan>, answers: seq<bool>) {
    && s.active <= |s.cases| && start.active <= |start.cases| && |tried| == |answers|
    && multiset(tried) == multiset(start.cases[..start.active])
    && s.log.delivered == start.log.delivered + Where(tried, answers, true)
    && multiset(s.cases[..s.active]) == Where(tried, answers, false)
  }

  /** Loop state of TryAll: what was tried and what is still to be tried make up what was active; the first `i`
      cases are those tried in vain. */
  ghost predicate Trying(start: State, s: State, i: nat, tried: seq<Chan>, answers: seq<bool>) {
    && i <= s.active <= |s.cases| && start.active <= |start.cases| && |tried| == |answers|
    && multiset(tried) + multiset(s.cases[i..s.active]) == multiset(start.cases[..start.active])
    && s.log.delivered == start.log.delivered + Where(tried, answers, true)
    && multiset(s.cases[..i]) == Where(tried, answers, false)
  }

  lemma TryStart(s: State)
    requires Inv(s) && s.phase.Sending?
    ensures s.active <= |s.cases| && Trying(s, s, 0, [], []) && Delivers(s, [], s)
  {
    assert s.cases[0..s.active] == s.cases[..s.active] && s.cases[..0] == [];
  }

  lemma TryDelivered(start: State, s: State, i: nat, tried: seq<Chan>, answers: seq<bool>)
    requires Trying(start, s, i, tried, answers) && i < s.active <= |s.cases|
    ensures Trying(start, Deliver(s, i), i, tried + [s.cases[i]], answers + [true])
  {
    hide *;
    TryingMeans(start, s, i, tried, answers);
    var ch, t := s.cases[i], Deliver(s, i);
    WhereSnoc(tried, answers, ch, true, true);
    WhereSnoc(tried, answers, ch, true, false);
    DeliverParts(s, i);
    TriedMore(tried, ch, multiset(s.cases[i..s.active]), multiset(t.cases[i..s.active - 1]));
    SumsAgree(start.log.delivered, Where(tried, answers, true), multiset{ch});
    TryingFrom(start, t, i, tried + [ch], answers + [true]);
  }

  lemma SumsAgree(a: multiset<Chan>, b: multiset<Chan>, c: multiset<Chan>)
    ensures (a + b) + c == a + (b + c)
  {
  }

  lemma TryingMeans(start: State, s: State, i: nat, tried: seq<Chan>, answers: seq<bool>)
    requires Trying(start, s, i, tried, answers)
    ensures i <= s.active <= |s.cases| && start.active <= |start.cases| && |tried| == |answers|
    ensures multiset(tried) + multiset(s.cases[i..s.active]) == multiset(start.cases[..start.active])
    ensures s.log.delivered == start.log.delivered + Where(tried, answers, true)
    ensures multiset(s.cases[..i]) == Where(tried, answers, false)
  {
    hide Where;
  }

  lemma TryingFrom(start: State, s: State, i: nat, tried: seq<Chan>, answers: seq<bool>)
    requires i <= s.active <= |s.cases| && start.active <= |start.cases| && |tried| == |answers|
    requires multiset(tried) + multiset(s.cases[i..s.active]) == multiset(start.cases[..start.active])
    requires s.log.delivered == start.log.delivered + Where(tried, answers, true)
    requires multiset(s.cases[..i]) == Where(tried, answers, false)
    ensures Trying(start, s, i, tried, answers)
  {
    hide Where;
  }

  lemma DeliverParts(s: State, i: nat)
    requires i < s.active <= |s.cases|
    ensures var t := Deliver(s, i);
            && t.active == s.active - 1 && |t.cases| == |s.cases| && t.cases[..i] == s.cases[..i]
            && multiset(s.cases[i..s.active]) == multiset{s.cases[i]} + multiset(t.cases[i..s.active - 1])
            && t.log.delivered == s.log.delivered + multiset{s.cases[i]}
  {
    SwapRest(s.cases, i, s.active);
    hide Swap;
  }

  lemma TryPassed(start: State, s: State, i: nat, tried: seq<Chan>, answers: seq<bool>)
    requires Trying(start, s, i, tried, answers) && i < s.active <= |s.cases|
    ensures Trying(start, s, i + 1, tried + [s.cases[i]], answers + [false])
  {
    hide *;
    TryingMeans(start, s, i, tried, answers);
    var ch := s.cases[i];
    WhereSnoc(tried, answers, ch, false, true);
    WhereSnoc(tried, answers, ch, false, false);
    PassOver(s.cases, i, s.active);
    TriedMore(tried, ch, multiset(s.cases[i..s.active]), multiset(s.cases[i + 1..s.active]));
    TryingFrom(start, s, i + 1, tried + [ch], answers + [false]);
  }

  lemma TriedMore(tried: seq<Chan>, ch: Chan, left: multiset<Chan>, rest: multiset<Chan>)
    requires left == multiset{ch} + rest
    ensures multiset(tried + [ch]) + rest == multiset(tried) + left
  {
  }

  lemma TryEnd(start: State, s: State, i: nat, tried: seq<Chan>, answers: seq<bool>)
    requires Trying(start, s, i, tried, answers) && i == s.active
    ensures TriedOnce(start, s, tried, answers)
  {
    hide Trying, Where;
    TryingMeans(start, s, i, tried, answers);
    assert s.cases[i..s.active] == [];
  }

  lemma PassOver(cs: seq<Chan>, i: nat, n: nat)
    requires i < n <= |cs|
    ensures multiset(cs[..i + 1]) == multiset(cs[..i]) + multiset{cs[i]}
    ensures multiset(cs[i..n]) == multiset{cs[i]} + multiset(cs[i + 1..n])
  {
    assert cs[..i + 1] == cs[..i] + [cs[i]];
    assert cs[i..n] == [cs[i]] + cs[i + 1..n];
  }

  lemma SwapRest(cs: seq<Chan>, i: nat, n: nat)
    requires i < n <= |cs|
    ensures var r := Swap(cs, i, n - 1);
            |r| == |cs| && r[..i] == cs[..i] && multiset(cs[i..n]) == multiset{cs[i]} + multiset(r[i..n - 1])
  {
    var r := Swap(cs, i, n - 1);
    PassOver(cs, i, n);
    if i < n - 1 {
      assert r[i..n - 1] == [cs[n - 1]] + cs[i + 1..n - 1];
      assert cs[i + 1..n] == cs[i + 1..n - 1] + [cs[n - 1]];
    } else {
      assert r[i..n - 1] == [] && cs[i + 1..n] == [];
    }
  }
}
