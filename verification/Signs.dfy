/** Collecting the delegates' signatures on a block: messages wait in a queue, one worker deals with them,
    and a timer drops a block's sign map. */
module Signs {
  import opened Base

  type Sign = nat

  datatype VoteSign = VoteSign(sign: Sign, action: nat)

  const APPROVE: nat := 0

  /** blockSignMap: signatures by delegate address, and how many of them approve. */
  datatype Collector = Collector(data: map<Address, VoteSign>, approvals: nat)

  datatype Msg = Msg(block: Hash, sign: Sign, action: nat, address: Address)

  datatype Handoff = Handoff(block: Hash, signs: seq<VoteSign>)

  /** delegateAmount, for `n` elected delegates. */
  function Amount(n: nat): (a: nat) { n / 3 * 2 }

  function Approvers(data: map<Address, VoteSign>): (r: set<Address>) {
    set a | a in data && data[a].action == APPROVE
  }

  /** blockSignMap.put. */
  function Put(c: Collector, m: Msg): (r: Collector) {
    if m.address in c.data then c
    else Collector(c.data[m.address := VoteSign(m.sign, m.action)], c.approvals + if m.action == APPROVE then 1 else 0)
  }

  lemma PutCounts(c: Collector, m: Msg)
    requires c.approvals == |Approvers(c.data)|
    ensures Put(c, m).approvals == |Approvers(Put(c, m).data)|
  {
    if m.address !in c.data {
      var after := Approvers(Put(c, m).data);
      assert after == Approvers(c.data) + if m.action == APPROVE then {m.address} else {};
    }
  }

  /** `signs` holds one signature for each address of `who`. */
  ghost predicate SignsOf(signs: seq<VoteSign>, data: map<Address, VoteSign>, who: seq<Address>) {
    && Distinct(who) && |signs| == |who|
    && forall i :: 0 <= i < |who| ==> who[i] in data && data[who[i]].action == APPROVE && signs[i] == data[who[i]]
  }

  lemma {:induction false} DistinctSize<T>(s: seq<T>)
    requires Distinct(s)
    ensures |Members(s)| == |s|
  {
    if s != [] {
      var init, last := s[..|s| - 1], s[|s| - 1];
      DistinctSize(init);
      assert Members(s) == Members(init) + {last} && last !in Members(init);
    }
  }

  /** The collecting loop of dealBlockSign, over the map in any order: stops once more than `amount`
      approvals are taken. */
  method Collect(data: map<Address, VoteSign>, amount: nat) returns (signs: seq<VoteSign>, ghost who: seq<Address>)
    ensures SignsOf(signs, data, who)
    ensures |signs| == Min(amount + 1, |Approvers(data)|)
  {
    signs, who := [], [];
    var left := data.Keys;
    while left != {}
      invariant |signs| <= amount && left <= data.Keys
      invariant Collected(signs, data, who, left)
    {
      var a :| a in left;
      CollectStep(signs, data, who, left, a);
      hide Collected;
      left := left - {a};
      if data[a].action == APPROVE {
        signs, who := signs + [data[a]], who + [a];
        if |signs| > amount {
          CollectedSize(signs, data, who, left);
          return;
        }
      }
    }
    CollectedSize(signs, data, who, left);
  }

  /** Loop state of Collect: one signature of each approving address outside `left`. */
  ghost predicate Collected(signs: seq<VoteSign>, data: map<Address, VoteSign>, who: seq<Address>, left: set<Address>) {
    SignsOf(signs, data, who) && Members(who) == Approvers(data) - left
  }

  lemma CollectStep(signs: seq<VoteSign>, data: map<Address, VoteSign>, who: seq<Address>, left: set<Address>,
      a: Address)
    requires Collected(signs, data, who, left) && a in left && a in data
    ensures if data[a].action == APPROVE then Collected(signs + [data[a]], data, who + [a], left - {a})
            else Collected(signs, data, who, left - {a})
  {
    assert a !in Members(who) && Members(who + [a]) == Members(who) + {a};
  }

  lemma CollectedSize(signs: seq<VoteSign>, data: map<Address, VoteSign>, who: seq<Address>, left: set<Address>)
    requires Collected(signs, data, who, left)
    ensures SignsOf(signs, data, who) && |signs| <= |Approvers(data)|
    ensures left == {} ==> |signs| == |Approvers(data)|
  {
    DistinctSize(who);
    SubsetSize(Members(who), Approvers(data));
    hide SignsOf, Approvers;
    assert left == {} ==> Approvers(data) - left == Approvers(data);
  }

  lemma {:induction false} SubsetSize<T>(a: set<T>, b: set<T>)
    requires a <= b
    ensures |a| <= |b|
  {
    if x :| x in a {
      SubsetSize(a - {x}, b - {x});
    }
  }

  function CollectorOf(maps: map<Hash, Collector>, block: Hash): (c: Collector) {
    if block in maps then maps[block] else Collector(map[], 0)
  }

  /** What dealBlockSign does to the block's collector, and whether it hands the signatures on. */
  function Dealt(maps: map<Hash, Collector>, m: Msg, amount: nat): (r: (map<Hash, Collector>, bool)) {
    var before := CollectorOf(maps, m.block);
    if before.approvals > amount then (maps, false)
    else
      var c := Put(before, m);
      (maps[m.block := c], c.approvals > amount)
  }

  // ---------- Every interleaving ----------

  /** The recovered signer of a signature on a block, the delegates of a block's round, and how many are
      elected. */
  datatype Setting = Setting(signer: (Hash, Sign) -> Option<Address>, round: Hash -> set<Address>, elected: nat)

  /** `handed` counts the hand-offs of a block since its sign map was made; `log` holds all of them. */
  datatype System = System(queue: seq<Msg>, maps: map<Hash, Collector>, handed: map<Hash, nat>, log: seq<Handoff>)

  ghost function HandedCount(s: System, block: Hash): (n: nat) {
    if block in s.maps && block in s.handed then s.handed[block] else 0
  }

  ghost predicate Submits(w: Setting, s: System, t: System) {
    exists block, sign, action, address ::
      w.signer(block, sign) == Some(address) && address in w.round(block) &&
      t == s.(queue := s.queue + [Msg(block, sign, action, address)])
  }

  ghost predicate Deals(w: Setting, s: System, t: System) {
    && s.queue != [] && t.queue == s.queue[1..]
    && var m := s.queue[0];
       var (maps, hands) := Dealt(s.maps, m, Amount(w.elected));
       && t.maps == maps
       && t.handed == s.handed[m.block := HandedCount(s, m.block) + if hands then 1 else 0]
       && if hands then HandsOver(w, t, s.log, m.block) else t.log == s.log
  }

  ghost predicate HandsOver(w: Setting, t: System, before: seq<Handoff>, block: Hash) {
    && |t.log| == |before| + 1 && t.log[..|before|] == before && block in t.maps
    && var h := t.log[|before|];
       && h.block == block && |h.signs| == Amount(w.elected) + 1
       && exists who :: SignsOf(h.signs, t.maps[block].data, who)
  }

  ghost predicate Expires(s: System, t: System) {
    exists block :: t == s.(maps := s.maps - {block}, handed := s.handed - {block})
  }

  ghost predicate Next(w: Setting, s: System, t: System) {
    Submits(w, s, t) || Deals(w, s, t) || Expires(s, t)
  }

  /** A signature of the delegate, on the block, in the block's round. */
  ghost predicate Genuine(w: Setting, block: Hash, sign: Sign, a: Address) {
    w.signer(block, sign) == Some(a) && a in w.round(block)
  }

  ghost predicate GoodMap(w: Setting, block: Hash, c: Collector) {
    && c.approvals == |Approvers(c.data)| <= Amount(w.elected) + 1
    && forall a :: a in c.data ==> Genuine(w, block, c.data[a].sign, a)
  }

  /** Approvals of more than two thirds: one each of Amount + 1 delegates of the round. */
  ghost predicate Certified(w: Setting, h: Handoff) {
    |h.signs| == Amount(w.elected) + 1 && exists who :: SignedBy(w, h, who)
  }

  ghost predicate SignedBy(w: Setting, h: Handoff, who: seq<Address>) {
    && Distinct(who) && |who| == |h.signs|
    && forall i :: 0 <= i < |who| ==> h.signs[i].action == APPROVE && Genuine(w, h.block, h.signs[i].sign, who[i])
  }

  ghost predicate Inv(w: Setting, s: System) {
    && (forall m :: m in s.queue ==> Genuine(w, m.block, m.sign, m.address))
    && (forall b :: b in s.maps ==> GoodMap(w, b, s.maps[b]))
    && (forall b :: b in s.maps ==> b in s.handed && s.handed[b] == if s.maps[b].approvals > Amount(w.elected)
        then 1 else 0)
    && (forall h :: h in s.log ==> Certified(w, h))
  }

  /** The message that hands a block's signatures on is the approval of one more delegate after exactly
      Amount of them, and no other message is. */
  lemma HandsOffExactly(w: Setting, s: System, m: Msg)
    requires Inv(w, s)
    ensures Dealt(s.maps, m, Amount(w.elected)).1 <==>
              var data := CollectorOf(s.maps, m.block).data;
              m.action == APPROVE && m.address !in data && |Approvers(data)| == Amount(w.elected)
  {
    assert Approvers(map[]) == {};
    if m.block in s.maps {
      assert GoodMap(w, m.block, s.maps[m.block]);
    }
  }

  lemma DealKeepsMaps(w: Setting, s: System, m: Msg, b: Hash)
    requires Inv(w, s) && Genuine(w, m.block, m.sign, m.address)
    ensures var maps := Dealt(s.maps, m, Amount(w.elected)).0;
            b in maps ==> GoodMap(w, b, maps[b])
  {
    assert Approvers(map[]) == {};
    PutCounts(CollectorOf(s.maps, m.block), m);
    HandsOffExactly(w, s, m);
  }

  lemma DealKeepsInv(w: Setting, s: System, t: System)
    requires Inv(w, s) && Deals(w, s, t)
    ensures Inv(w, t)
  {
    var m := s.queue[0];
    HandsOffExactly(w, s, m);
    forall b | b in t.maps ensures GoodMap(w, b, t.maps[b]) {
      DealKeepsMaps(w, s, m, b);
    }
    hide Approvers;
    forall h | h in t.log ensures Certified(w, h) {
      if h !in s.log {
        LastCertified(w, t, s.log, m.block, h);
      }
    }
  }

  lemma LastCertified(w: Setting, t: System, before: seq<Handoff>, block: Hash, h: Handoff)
    requires HandsOver(w, t, before, block) && h in t.log && h !in before && GoodMap(w, block, t.maps[block])
    ensures Certified(w, h)
  {
    var last := t.log[|before|];
    assert t.log == before + [last];
    var who: seq<Address> :| SignsOf(last.signs, t.maps[block].data, who);
    assert SignedBy(w, last, who);
  }

  /** What Dealt does to the collector of the message's block, in the terms of dealBlockSign. */
  lemma DealtIs(w: Setting, s: System, m: Msg)
    requires Inv(w, s)
    ensures var c := CollectorOf(s.maps, m.block);
            && c.approvals == |Approvers(c.data)|
            && Put(c, m).approvals == |Approvers(Put(c, m).data)|
            && Dealt(s.maps, m, Amount(w.elected)) ==
                 if c.approvals > Amount(w.elected) then (s.maps, false)
                 else (s.maps[m.block := Put(c, m)], Put(c, m).approvals > Amount(w.elected))
  {
    assert Approvers(map[]) == {};
    assert m.block in s.maps ==> GoodMap(w, m.block, s.maps[m.block]);
    PutCounts(CollectorOf(s.maps, m.block), m);
  }

  /** A message is stored exactly if its block has no quorum yet and its delegate no signature there, and then
      nothing else changes. */
  lemma DealStores(w: Setting, s: System, m: Msg, b: Hash)
    requires Inv(w, s)
    ensures var maps, data := Dealt(s.maps, m, Amount(w.elected)).0, CollectorOf(s.maps, b).data;
            CollectorOf(maps, b).data ==
              if b == m.block && |Approvers(data)| <= Amount(w.elected) && m.address !in data
              then data[m.address := VoteSign(m.sign, m.action)] else data
  {
    DealtIs(w, s, m);
  }

  lemma DealsIs(w: Setting, s: System, t: System, hands: Option<Handoff>, who: seq<Address>)
    requires s.queue != [] && t.queue == s.queue[1..]
    requires var m := s.queue[0];
             && Dealt(s.maps, m, Amount(w.elected)) == (t.maps, hands.Some?)
             && t.handed == s.handed[m.block := HandedCount(s, m.block) + if hands.Some? then 1 else 0]
             && t.log == (if hands.Some? then s.log + [hands.value] else s.log)
             && (hands.Some? ==>
                   && hands.value.block == m.block && |hands.value.signs| == Amount(w.elected) + 1
                   && m.block in t.maps && SignsOf(hands.value.signs, t.maps[m.block].data, who))
    ensures Deals(w, s, t)
  {
    hide Dealt, SignsOf, HandedCount;
  }

  lemma SubmitKeepsInv(w: Setting, s: System, t: System)
    requires Inv(w, s) && Submits(w, s, t)
    ensures Inv(w, t)
  {
    hide GoodMap, Certified;
  }

  lemma StepKeepsInv(w: Setting, s: System, t: System)
    requires Inv(w, s) && Next(w, s, t)
    ensures Inv(w, t)
  {
    if Deals(w, s, t) {
      DealKeepsInv(w, s, t);
    }
  }

  const START := System([], map[], map[], [])

  /** In every run: the signatures handed on for a block are the approvals of Amount + 1 different delegates
      of its round, and its sign map hands them on at most once before it expires. */
  lemma {:induction false} EveryRunKeepsInv(w: Setting, run: seq<System>, i: nat)
    requires i < |run| && run[0] == START && forall k :: 0 < k < |run| ==> Next(w, run[k - 1], run[k])
    ensures Inv(w, run[i])
  {
    if i > 0 {
      EveryRunKeepsInv(w, run, i - 1);
      StepKeepsInv(w, run[i - 1], run[i]);
    }
  }

  lemma StepKeepsSigns(w: Setting, s: System, t: System, b: Hash, a: Address)
    requires Inv(w, s) && Next(w, s, t) && b in s.maps && b in t.maps && a in s.maps[b].data
    ensures a in t.maps[b].data && t.maps[b].data[a] == s.maps[b].data[a]
  {
    hide Inv, HandsOver, Dealt, Approvers;
    if Deals(w, s, t) {
      DealStores(w, s, s.queue[0], b);
    }
  }

  /** A signature stands for as long as its block's map does, so a delegate that did not approve at first never
      counts among those that approve. */
  lemma {:induction false} EveryRunKeepsSigns(w: Setting, run: seq<System>, i: nat, j: nat, b: Hash, a: Address)
    requires i <= j < |run| && run[0] == START && forall k :: 0 < k < |run| ==> Next(w, run[k - 1], run[k])
    requires forall k :: i <= k <= j ==> b in run[k].maps
    requires a in run[i].maps[b].data
    ensures a in run[j].maps[b].data && run[j].maps[b].data[a] == run[i].maps[b].data[a]
    ensures run[i].maps[b].data[a].action != APPROVE ==> a !in Approvers(run[j].maps[b].data)
    decreases j - i
  {
    hide Inv, Next;
    if i < j {
      EveryRunKeepsSigns(w, run, i, j - 1, b, a);
      EveryRunKeepsInv(w, run, j - 1);
      StepKeepsSigns(w, run[j - 1], run[j], b, a);
    }
  }

  /** lockManager's sign maps and its queue. Each method is one step of the machine above. */
  class Manager {
    var queue: seq<Msg>
    var maps: map<Hash, Collector>
    ghost var handed: map<Hash, nat>
    ghost var log: seq<Handoff>

    ghost function Now(): (s: System)
      reads this
    {
      System(queue, maps, handed, log)
    }

    constructor (ghost w: Setting)
      ensures Now() == START && Inv(w, Now())
    {
      queue, maps, handed, log := [], map[], map[], [];
    }

    /** addSignToPendingBlock: only signatures that recover to a delegate of the round are queued. */
    method AddSign(ghost w: Setting, block: Hash, sign: Sign, action: nat, signer: Option<Address>, round: seq<Address>)
      returns (ok: bool)
      requires Inv(w, Now()) && signer == w.signer(block, sign) && Members(round) == w.round(block)
      modifies this`queue
      ensures Inv(w, Now())
      ensures ok <==> signer.Some? && signer.value in round && !(block in maps && signer.value in maps[block].data)
      ensures if ok then Submits(w, old(Now()), Now()) && queue == old(queue) + [Msg(block, sign, action, signer.value)]
              else Now() == old(Now())
    {
      if signer.None? {
        return false;
      }
      var i := 0;
      while i < |round| && round[i] != signer.value
        invariant 0 <= i <= |round| && signer.value !in round[..i]
      {
        i := i + 1;
      }
      if i == |round| {
        assert round[..i] == round;
        return false;
      }
      assert round[i] in Members(round);
      if block in maps && signer.value in maps[block].data {
        return false;
      }
      queue := queue + [Msg(block, sign, action, signer.value)];
      SubmitKeepsInv(w, old(Now()), Now());
      return true;
    }

    /** dealBlockSign on the message at the head of the queue. */
    method DealBlockSign(ghost w: Setting, amount: nat) returns (hands: Option<Handoff>)
      requires Inv(w, Now()) && queue != [] && amount == Amount(w.elected)
      modifies this
      ensures Inv(w, Now()) && Deals(w, old(Now()), Now())
      ensures log == if hands.Some? then old(log) + [hands.value] else old(log)
    {
      hide Inv, Deals, Dealt, Put, HandsOver, SignsOf, Approvers, HandedCount;
      ghost var s, who: seq<Address> := Now(), [];
      var m := queue[0];
      queue := queue[1..];
      hands := None;
      DealtIs(w, s, m);
      var c := CollectorOf(maps, m.block);
      if c.approvals <= amount {
        c := Put(c, m);
        maps := maps[m.block := c];
        if c.approvals > amount {
          var signs;
          signs, who := Collect(c.data, amount);
          hands := Some(Handoff(m.block, signs));
          log := log + [hands.value];
        }
      }
      handed := handed[m.block := HandedCount(s, m.block) + if hands.Some? then 1 else 0];
      DealsIs(w, s, Now(), hands, who);
      DealKeepsInv(w, s, Now());
    }

    /** The timer drops the block's sign map: its count of approvals starts again, and only then can its
        signatures be handed on again. */
    method Expire(ghost w: Setting, block: Hash)
      requires Inv(w, Now())
      modifies this`maps, this`handed
      ensures Inv(w, Now()) && Expires(old(Now()), Now())
      ensures CollectorOf(maps, block).approvals == 0 && HandedCount(Now(), block) == 0
      ensures forall b :: b != block ==> CollectorOf(maps, b) == CollectorOf(old(maps), b)
    {
      maps, handed := maps - {block}, handed - {block};
      StepKeepsInv(w, old(Now()), Now());
    }
  }

  // ---------- Quorums ----------

  /** The delegates of the block's round whose signatures are among `signs`. */
  function Verified(w: Setting, block: Hash, signs: seq<VoteSign>): (r: set<Address>) {
    if signs == [] then {} else
      var init := Verified(w, block, signs[..|signs| - 1]);
      var a := w.signer(block, signs[|signs| - 1].sign);
      if a.Some? && a.value in w.round(block) then init + {a.value} else init
  }

  datatype Ruling = Accepted | NotEnough | Panics

  /** VerifyBlockGenerate's count of the signatures stored with a block. It takes a signature's address before
      asking whether there is one. */
  method VerifySigns(w: Setting, block: Hash, signs: seq<VoteSign>) returns (r: Ruling)
    ensures r.Panics? <==> exists s :: s in signs && w.signer(block, s.sign).None?
    ensures !r.Panics? ==> (r.Accepted? <==> |Verified(w, block, signs)| > Amount(w.elected))
  {
    var seen: set<Address> := {};
    var i := 0;
    while i < |signs|
      invariant 0 <= i <= |signs| && seen == Verified(w, block, signs[..i])
      invariant forall k :: 0 <= k < i ==> w.signer(block, signs[k].sign).Some?
    {
      assert signs[..i + 1][..i] == signs[..i];
      var a := w.signer(block, signs[i].sign);
      if a.None? {
        assert signs[i] in signs;
        return Panics;
      }
      if a.value in w.round(block) {
        seen := seen + {a.value};
      }
      i := i + 1;
    }
    assert signs[..i] == signs;
    r := if |seen| > w.elected / 3 * 2 then Accepted else NotEnough;
  }

  // ---------- What acceptance says ----------

  function Approving(signs: seq<VoteSign>): (r: seq<VoteSign>) {
    if signs == [] then [] else
      var init, last := Approving(signs[..|signs| - 1]), signs[|signs| - 1];
      if last.action == APPROVE then init + [last] else init
  }

  lemma {:induction false} ApprovingAreVerified(w: Setting, block: Hash, signs: seq<VoteSign>)
    ensures Verified(w, block, Approving(signs)) <= Verified(w, block, signs)
  {
    if signs != [] {
      var n := |signs| - 1;
      ApprovingAreVerified(w, block, signs[..n]);
      assert (Approving(signs[..n]) + [signs[n]])[..|Approving(signs[..n])|] == Approving(signs[..n]);
    }
  }

  /** The delegates of the block's round with a signature in the pool. */
  function SignersOf(w: Setting, block: Hash, sigs: set<VoteSign>): (r: set<Address>) {
    set s | s in sigs && IsDelegate(w, block, s) :: w.signer(block, s.sign).value
  }

  predicate IsDelegate(w: Setting, block: Hash, s: VoteSign) {
    w.signer(block, s.sign).Some? && w.signer(block, s.sign).value in w.round(block)
  }

  /** Every list of signatures from the pool that passes the count has a quorum of approvals. */
  ghost predicate AcceptanceApproves(w: Setting, block: Hash, sigs: set<VoteSign>) {
    forall signs :: (forall s :: s in signs ==> s in sigs) && |Verified(w, block, signs)| > Amount(w.elected) ==>
      |Verified(w, block, Approving(signs))| > Amount(w.elected)
  }

  /** The count does not look at what a signature says. With the signatures that exist, acceptance always means
      a quorum of approvals exactly if no delegate signed anything but an approval, or too few signed at all. */
  lemma AcceptedMeansApprovedIff(w: Setting, block: Hash, sigs: set<VoteSign>)
    ensures AcceptanceApproves(w, block, sigs) <==>
              || (forall s :: s in sigs && IsDelegate(w, block, s) ==> s.action == APPROVE)
              || |SignersOf(w, block, sigs)| <= Amount(w.elected)
  {
    if forall s :: s in sigs && IsDelegate(w, block, s) ==> s.action == APPROVE {
      forall signs | forall s :: s in signs ==> s in sigs
        ensures Verified(w, block, Approving(signs)) == Verified(w, block, signs)
      {
        AllApprove(w, block, sigs, signs);
      }
    } else if |SignersOf(w, block, sigs)| <= Amount(w.elected) {
      forall signs | forall s :: s in signs ==> s in sigs ensures |Verified(w, block, signs)| <= Amount(w.elected) {
        VerifiedInPool(w, block, sigs, signs);
        SubsetSize(Verified(w, block, signs), SignersOf(w, block, sigs));
      }
    } else {
      var s :| s in sigs && IsDelegate(w, block, s) && s.action != APPROVE;
      var signs := OpposedList(w, block, sigs, s);
    }
  }

  lemma {:induction false} AllApprove(w: Setting, block: Hash, sigs: set<VoteSign>, signs: seq<VoteSign>)
    requires forall s :: s in sigs && IsDelegate(w, block, s) ==> s.action == APPROVE
    requires forall s :: s in signs ==> s in sigs
    ensures Verified(w, block, Approving(signs)) == Verified(w, block, signs)
  {
    if signs != [] {
      var n := |signs| - 1;
      var init, s := signs[..n], signs[n];
      AllApprove(w, block, sigs, init);
      SnocFacts(w, block, init, s);
      SnocFacts(w, block, Approving(init), s);
      hide Verified, Approving;
      assert init + [s] == signs && s in sigs;
    }
  }

  lemma {:induction false} VerifiedInPool(w: Setting, block: Hash, sigs: set<VoteSign>, signs: seq<VoteSign>)
    requires forall s :: s in signs ==> s in sigs
    ensures Verified(w, block, signs) <= SignersOf(w, block, sigs)
  {
    if signs != [] {
      var n := |signs| - 1;
      VerifiedInPool(w, block, sigs, signs[..n]);
      assert signs[n] in sigs;
    }
  }

  /** One signature from the pool for each of some of its signers. */
  lemma {:induction false} ListFor(w: Setting, block: Hash, sigs: set<VoteSign>, who: set<Address>)
      returns (signs: seq<VoteSign>)
    requires who <= SignersOf(w, block, sigs)
    ensures (forall s :: s in signs ==> s in sigs) && Verified(w, block, signs) == who
  {
    signs := [];
    if a :| a in who {
      var rest := ListFor(w, block, sigs, who - {a});
      var s :| s in sigs && IsDelegate(w, block, s) && w.signer(block, s.sign).value == a;
      SnocFacts(w, block, rest, s);
      signs := rest + [s];
    }
  }

  lemma {:induction false} SubsetOfSize(big: set<Address>, n: nat) returns (part: set<Address>)
    requires n <= |big|
    ensures part <= big && |part| == n
  {
    part := {};
    if n > 0 {
      var a :| a in big;
      part := SubsetOfSize(big - {a}, n - 1);
      part := part + {a};
    }
  }

  /** The signature that does not approve, and one each of Amount others: enough to pass, too few approvals. */
  lemma OpposedList(w: Setting, block: Hash, sigs: set<VoteSign>, s: VoteSign) returns (signs: seq<VoteSign>)
    requires s in sigs && IsDelegate(w, block, s) && s.action != APPROVE
    requires |SignersOf(w, block, sigs)| > Amount(w.elected)
    ensures (forall x :: x in signs ==> x in sigs) && |Verified(w, block, signs)| > Amount(w.elected)
    ensures |Verified(w, block, Approving(signs))| <= Amount(w.elected)
  {
    var d, all := w.signer(block, s.sign).value, SignersOf(w, block, sigs);
    assert d in all;
    var others := SubsetOfSize(all - {d}, Amount(w.elected));
    var rest := ListFor(w, block, sigs, others);
    signs := rest + [s];
    SnocFacts(w, block, rest, s);
    ApprovingAreVerified(w, block, rest);
    hide Verified, Approving, SignersOf;
    SubsetSize(Verified(w, block, Approving(signs)), others);
    assert |others + {d}| == Amount(w.elected) + 1;
  }

  /** Three delegates, all of them opposed: the block is accepted. */
  lemma OpposedInput()
    ensures var w := Setting((b, s) => Some(s), b => {1, 2, 3}, 3);
            var signs := [VoteSign(1, 1), VoteSign(2, 1), VoteSign(3, 1)];
            |Verified(w, 0, signs)| > Amount(w.elected) && Verified(w, 0, Approving(signs)) == {}
  {
    var w := Setting((b, s) => Some(s), b => {1, 2, 3}, 3);
    var signs := [VoteSign(1, 1), VoteSign(2, 1), VoteSign(3, 1)];
    var two, one := signs[..2], signs[..1];
    SnocFacts(w, 0, [], VoteSign(1, 1));
    SnocFacts(w, 0, one, VoteSign(2, 1));
    SnocFacts(w, 0, two, VoteSign(3, 1));
    hide Verified, Approving;
    assert [] + [VoteSign(1, 1)] == one && one + [VoteSign(2, 1)] == two && two + [VoteSign(3, 1)] == signs;
  }

  lemma SnocFacts(w: Setting, block: Hash, signs: seq<VoteSign>, s: VoteSign)
    ensures var a, before := w.signer(block, s.sign), Verified(w, block, signs);
            Verified(w, block, signs + [s]) == if a.Some? && a.value in w.round(block) then before + {a.value}
                else before
    ensures Approving(signs + [s]) == if s.action == APPROVE then Approving(signs) + [s] else Approving(signs)
    ensures Verified(w, block, []) == {} && Approving([]) == []
  {
    assert (signs + [s])[..|signs|] == signs;
  }

  // ---------- Certificates ----------

  lemma {:induction false} VerifiedAre(w: Setting, block: Hash, signs: seq<VoteSign>, who: seq<Address>)
    requires |who| == |signs| && forall i :: 0 <= i < |who| ==> Genuine(w, block, signs[i].sign, who[i])
    ensures Verified(w, block, signs) == Members(who)
  {
    if signs != [] {
      var n := |signs| - 1;
      VerifiedAre(w, block, signs[..n], who[..n]);
      assert who == who[..n] + [who[n]];
      assert Genuine(w, block, signs[n].sign, who[n]);
    }
  }

  /** What is handed on passes the check every other node makes of the block, with nothing to spare. */
  lemma CertifiedVerifies(w: Setting, h: Handoff)
    requires Certified(w, h)
    ensures |Verified(w, h.block, h.signs)| == Amount(w.elected) + 1
    ensures Verified(w, h.block, h.signs) <= w.round(h.block)
    ensures forall s :: s in h.signs ==> w.signer(h.block, s.sign).Some?
  {
    var who: seq<Address> :| SignedBy(w, h, who);
    VerifiedAre(w, h.block, h.signs, who);
    DistinctSize(who);
    forall a | a in Members(who) ensures a in w.round(h.block) {
      var i :| 0 <= i < |who| && who[i] == a;
      assert Genuine(w, h.block, h.signs[i].sign, who[i]);
    }
    forall s | s in h.signs ensures w.signer(h.block, s.sign).Some? {
      var i :| 0 <= i < |h.signs| && h.signs[i] == s;
      assert Genuine(w, h.block, h.signs[i].sign, who[i]);
    }
  }

  /** Two certificates from rounds with the same delegates share signers, at least this many. */
  lemma CertificatesMeet(w: Setting, g: Handoff, h: Handoff)
    requires Certified(w, g) && Certified(w, h)
    requires w.round(g.block) == w.round(h.block) && |w.round(g.block)| <= w.elected
    ensures |Verified(w, g.block, g.signs) * Verified(w, h.block, h.signs)| >= 4 * (w.elected / 3) + 2 - w.elected
  {
    CertifiedVerifies(w, g);
    CertifiedVerifies(w, h);
    var a, b := Verified(w, g.block, g.signs), Verified(w, h.block, h.signs);
    SubsetSize(a + b, w.round(g.block));
    assert |a + b| == |a| + |b| - |a * b|;
  }

  function Below(lo: nat, hi: nat): (s: set<nat>)
    requires lo <= hi
    ensures |s| == hi - lo && forall x: nat :: x in s <==> lo <= x < hi
    decreases hi - lo
  {
    if lo == hi then {} else Below(lo, hi - 1) + {hi - 1}
  }

  /** The bound is tight: for every number of delegates some two sets of that size share no more. */
  lemma QuorumBoundTight(n: nat)
    requires n > 0
    ensures var q := Amount(n) + 1;
            exists a, b :: a <= Below(0, n) && b <= Below(0, n) && |a| == |b| == q && |a * b| == 4 * (n / 3) + 2 - n
  {
    var q := Amount(n) + 1;
    var a, b := Below(0, q), Below(n - q, n);
    assert a * b == Below(n - q, q);
  }

  /** So two certificates share a delegate outside any group of at most (n - 1) / 3, unless `n` is two more
      than a multiple of three; then some two sets of that size meet in no more than such a group. */
  lemma SharedOutside(w: Setting, g: Handoff, h: Handoff, group: set<Address>)
    requires Certified(w, g) && Certified(w, h)
    requires w.round(g.block) == w.round(h.block) && |w.round(g.block)| <= w.elected
    requires w.elected > 0 && w.elected % 3 != 2 && |group| <= (w.elected - 1) / 3
    ensures exists a :: a in Verified(w, g.block, g.signs) && a in Verified(w, h.block, h.signs) && a !in group
  {
    CertificatesMeet(w, g, h);
    var both := Verified(w, g.block, g.signs) * Verified(w, h.block, h.signs);
    if both <= group {
      SubsetSize(both, group);
    } else {
      var a :| a in both && a !in group;
    }
  }

  lemma NotSharedOutside(n: nat)
    requires n % 3 == 2
    ensures var q := Amount(n) + 1;
            exists a, b :: a <= Below(0, n) && b <= Below(0, n) && |a| == |b| == q && |a * b| <= (n - 1) / 3
  {
    QuorumBoundTight(n);
  }
}
