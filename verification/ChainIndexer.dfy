/** The section indexer. Its lock is released while a section is processed, so notices interleave with the
    worker; and a failed reset drops all sections without taking the lock, so that it interleaves even with a
    notice that holds it. Every atomic step is one transition of a state machine. */
module ChainIndexer {
  import opened Base
  import opened Ancestry

  /** The update loop's local state. While it is Resetting, the worker is inside setValidSections(0), without
      the lock; `removing` after it has lowered the count and before it has removed the head there. */
  datatype Worker =
    | Idle
    | Working(section: nat, oldHead: Hash, next: nat, lastHead: Hash)
    | Resetting(removing: bool)
    | Failed

  /** A newHead call that holds the lock and is inside setValidSections(changed), or none. */
  datatype Call = Quiet | Dropping(changed: nat, removing: bool)

  datatype State = State(stored: nat, known: nat, cascaded: int, heads: map<int, Hash>, worker: Worker, call: Call)

  datatype Config = Config(sectionSize: nat, confirmsReq: nat)

  /** The number of the first block of a section. */
  function First(c: Config, section: nat): (n: nat) {
    section * c.sectionSize
  }

  /** SectionHead: the zero hash for a section without a recorded head. For section 0 the source asks
      for section - 1, which wraps to a number no section has. */
  function SectionHead(heads: map<int, Hash>, section: int): (h: Hash) {
    if section in heads then heads[section] else ZERO_HASH
  }

  /** What setValidSections leaves of the recorded heads when nothing interferes. */
  function ValidHeads(heads: map<int, Hash>, stored: nat, sections: nat): (r: map<int, Hash>) {
    map k | k in heads && !(sections <= k < stored) :: heads[k]
  }

  function SetValid(s: State, sections: nat): (r: State) {
    s.(stored := sections, heads := ValidHeads(s.heads, s.stored, sections))
  }

  /** The end of a reorg notice. */
  function Cascade(c: Config, s: State, changed: nat): (r: State) {
    if First(c, changed) < s.cascaded then s.(cascaded := First(c, changed)) else s
  }

  function Forget(s: State, changed: nat): (r: State) { if changed < s.known then s.(known := changed) else s }

  function Learn(c: Config, s: State, head: nat): (r: State)
    requires c.sectionSize > 0
  {
    if head >= c.confirmsReq && (head + 1 - c.confirmsReq) / c.sectionSize > s.known then
      s.(known := (head + 1 - c.confirmsReq) / c.sectionSize)
    else s
  }

  /** newHead as far as its test of the stored count. */
  function Hear(c: Config, s: State, head: nat, reorg: bool): (r: State)
    requires c.sectionSize > 0
  {
    if !reorg then Learn(c, s, head) else
      var changed := head / c.sectionSize;
      var s1 := Forget(s, changed);
      if changed < s1.stored then s1.(call := Dropping(changed, false)) else Cascade(c, s1, changed)
  }

  /** One step of setValidSections inside a notice: lowers the count, or removes the head there, or sets the
      count and ends the notice. */
  function CallDrop(c: Config, s: State): (r: State)
    requires s.call.Dropping?
  {
    var changed := s.call.changed;
    if s.call.removing then s.(heads := s.heads - {s.stored}, call := Dropping(changed, false))
    else if s.stored > changed then s.(stored := s.stored - 1, call := Dropping(changed, true))
    else Cascade(c, s.(stored := changed, call := Quiet), changed)
  }

  /** The same inside a failed reset, which drops everything. */
  function ResetDrop(s: State): (r: State)
    requires s.worker.Resetting?
  {
    if s.worker.removing then s.(heads := s.heads - {s.stored}, worker := Resetting(false))
    else if s.stored > 0 then s.(stored := s.stored - 1, worker := Resetting(true))
    else s.(stored := 0, worker := Failed)
  }

  /** A whole notice with nothing in between. */
  function NewHead(c: Config, s: State, head: nat, reorg: bool): (r: State)
    requires c.sectionSize > 0
  {
    if !reorg then Learn(c, s, head) else
      var changed := head / c.sectionSize;
      var s1 := Forget(s, changed);
      Cascade(c, if changed < s1.stored then SetValid(s1, changed) else s1, changed)
  }

  /** A whole failed reset with nothing in between. */
  function ResetFails(s: State): (r: State) {
    SetValid(s, 0).(worker := Failed)
  }

  /** The update loop takes up the first section that is known but not stored. */
  function Begin(c: Config, s: State): (r: State)
    requires s.worker.Idle? && s.known > s.stored
  {
    var oldHead := if s.stored > 0 then SectionHead(s.heads, s.stored - 1) else ZERO_HASH;
    s.(worker := Working(s.stored, oldHead, First(c, s.stored), oldHead))
  }

  /** One turn of the header loop of processSection, given what the chain database answers. */
  function Process(s: State, hash: Hash, header: Option<Header>): (r: State)
    requires s.worker.Working?
  {
    if hash == ZERO_HASH || header.None? || header.value.parent != s.worker.lastHead then s.(worker := Failed)
    else s.(worker := s.worker.(next := s.worker.next + 1, lastHead := header.value.hash))
  }

  /** The worker is back under the lock with a processed section. */
  function Finish(c: Config, s: State): (r: State)
    requires s.worker.Working?
  {
    var w := s.worker;
    if w.oldHead == SectionHead(s.heads, w.section - 1) then
      var s1 := SetValid(s.(heads := s.heads[w.section := w.lastHead]), w.section + 1);
      s1.(cascaded := First(c, s1.stored) - 1, worker := Idle)
    else s.(known := s.stored, worker := Idle)
  }

  /** Processing failed: wait for the next notification. */
  function GiveUp(s: State): (r: State) {
    s.(known := s.stored, worker := Idle)
  }

  /** A step of a drop in progress, whichever takes one. */
  ghost predicate DropStep(c: Config, s: State, t: State) {
    || (s.call.Dropping? && t == CallDrop(c, s))
    || (s.worker.Resetting? && t == ResetDrop(s))
  }

  /** A step other than hearing a notice: the worker's locked steps whenever no notice holds the lock, and its
      other steps at any time. The chain database may answer differently at each step; a header it returns is
      the one stored under the hash and number asked for. */
  ghost predicate Works(c: Config, s: State, t: State)
    requires c.sectionSize > 0
  {
    || DropStep(c, s, t)
    || (s.call.Quiet? && s.worker.Idle? && s.known > s.stored && t == Begin(c, s))
    || (s.worker.Working? && t == s.(worker := Resetting(false)))
    || (s.worker.Working? && s.worker.next < First(c, s.worker.section + 1) &&
        exists hash, header :: Answer(s.worker.next, hash, header) && t == Process(s, hash, header))
    || (s.worker.Working? && t == s.(worker := Failed))
    || (s.call.Quiet? && s.worker.Working? && s.worker.next == First(c, s.worker.section + 1) && t == Finish(c, s))
    || (s.call.Quiet? && s.worker.Failed? && t == GiveUp(s))
  }

  /** Every interleaving, with notices of any kind whenever no other holds the lock. */
  ghost predicate Next(c: Config, s: State, t: State)
    requires c.sectionSize > 0
  {
    Works(c, s, t) || (s.call.Quiet? && exists head: nat, reorg :: t == Hear(c, s, head, reorg))
  }

  ghost predicate Answer(number: nat, hash: Hash, header: Option<Header>) {
    header.Some? ==> header.value.hash == hash && header.value.number == number
  }

  /** `path` are consecutive headers from number `first` on, each the parent of the next; the first one's
      parent is `from` and the last one's hash is `to`. */
  ghost predicate Path(path: seq<Header>, from: Hash, to: Hash, first: nat) {
    if path == [] then from == to
    else
      var h := path[|path| - 1];
      h.hash == to && h.number == first + |path| - 1 && Path(path[..|path| - 1], from, h.parent, first)
  }

  ghost predicate Linked(from: Hash, to: Hash, first: nat, length: nat) {
    exists path :: |path| == length && Path(path, from, to, first)
  }

  ghost predicate HeadLinked(c: Config, heads: map<int, Hash>, k: int) {
    && k in heads && k >= 0 && heads[k] != ZERO_HASH
    && Linked(SectionHead(heads, k - 1), heads[k], First(c, k), c.sectionSize)
  }

  ghost predicate HeadsLinked(c: Config, heads: map<int, Hash>) {
    forall k :: k in heads ==> HeadLinked(c, heads, k)
  }

  ghost predicate WorkerOk(c: Config, s: State) {
    s.worker.Working? ==>
      var w := s.worker;
      && s.stored <= w.section
      && (w.section == 0 <==> w.oldHead == ZERO_HASH)
      && (s.stored == w.section > 0 ==> SectionHead(s.heads, w.section - 1) == w.oldHead)
      && First(c, w.section) <= w.next <= First(c, w.section + 1)
      && (w.next > First(c, w.section) ==> w.lastHead != ZERO_HASH)
      && Linked(w.oldHead, w.lastHead, First(c, w.section), w.next - First(c, w.section))
  }

  ghost predicate KeysBelow(heads: map<int, Hash>, top: nat) {
    forall k :: k in heads <==> 0 <= k < top
  }

  /** Exactly the sections below `stored` have a recorded head, each reached from the one before by
      `sectionSize` parent-linked headers. */
  ghost predicate Exact(c: Config, s: State) {
    KeysBelow(s.heads, s.stored) && HeadsLinked(c, s.heads)
  }

  predicate CallRemoving(s: State) { s.call.Dropping? && s.call.removing }

  predicate ResetRemoving(s: State) { s.worker.Resetting? && s.worker.removing }

  /** Both drops are in progress at once. */
  predicate Overlaps(s: State) { s.call.Dropping? && s.worker.Resetting? }

  /** An overlap that does no harm: everything is to go anyway, and there is at most one head. */
  predicate Harmless(s: State)
    requires Overlaps(s)
  {
    s.call.changed == 0 && forall k :: k in s.heads ==> k == 0
  }

  /** The heads while a drop is in progress, or none is. */
  ghost predicate HeadsFit(s: State) {
    if Overlaps(s) then
      && Harmless(s) && s.stored <= 1 && !(CallRemoving(s) && ResetRemoving(s))
      && (0 in s.heads <==> s.stored == 1 || CallRemoving(s) || ResetRemoving(s))
      && (CallRemoving(s) || ResetRemoving(s) ==> s.stored == 0)
    else
      && KeysBelow(s.heads, s.stored + if CallRemoving(s) || ResetRemoving(s) then 1 else 0)
      && (s.call.Dropping? ==> s.call.changed <= s.stored)
  }

  ghost predicate Inv(c: Config, s: State) {
    && c.sectionSize > 0
    && HeadsFit(s)
    && HeadsLinked(c, s.heads)
    && WorkerOk(c, s)
  }

  lemma InvExact(c: Config, s: State)
    requires Inv(c, s) && s.call.Quiet? && !s.worker.Resetting?
    ensures Exact(c, s)
  {
    hide HeadsLinked;
  }

  lemma LinkedEmpty(h: Hash, first: nat)
    ensures Linked(h, h, first, 0)
  {
    assert Path([], h, h, first);
  }

  lemma LinkedExtend(from: Hash, first: nat, length: nat, h: Header)
    requires Linked(from, h.parent, first, length) && h.number == first + length
    ensures Linked(from, h.hash, first, length + 1)
  {
    var path :| |path| == length && Path(path, from, h.parent, first);
    assert (path + [h])[..length] == path;
    assert Path(path + [h], from, h.hash, first);
  }

  /** Dropping the sections from some number on leaves the others linked. */
  lemma DropKeepsLinks(c: Config, heads: map<int, Hash>, stored: nat, sections: nat)
    requires KeysBelow(heads, stored) && HeadsLinked(c, heads) && sections <= stored
    ensures KeysBelow(ValidHeads(heads, stored, sections), sections)
    ensures HeadsLinked(c, ValidHeads(heads, stored, sections))
  {
    hide Linked, First;
    var r := ValidHeads(heads, stored, sections);
    forall k | k in r ensures HeadLinked(c, r, k) {
      assert SectionHead(r, k - 1) == SectionHead(heads, k - 1);
      assert HeadLinked(c, heads, k);
    }
  }

  lemma RemoveKeepsLinks(c: Config, heads: map<int, Hash>, k: int)
    requires HeadsLinked(c, heads) && k + 1 !in heads
    ensures HeadsLinked(c, heads - {k})
  {
    hide Linked, First;
    var r := heads - {k};
    forall j | j in r ensures HeadLinked(c, r, j) {
      assert SectionHead(r, j - 1) == SectionHead(heads, j - 1);
      assert HeadLinked(c, heads, j);
    }
  }

  lemma FewHeads(heads: map<int, Hash>, top: nat)
    requires KeysBelow(heads, top)
    ensures (forall k :: k in heads ==> k == 0) <==> top <= 1
    ensures 0 in heads <==> top > 0
  {
    assert 1 in heads <==> top > 1;
  }

  /** A harmless overlap fits as it starts. */
  lemma OpeningFits(s: State)
    requires Overlaps(s) && Harmless(s) && !(CallRemoving(s) && ResetRemoving(s))
    requires KeysBelow(s.heads, s.stored + if CallRemoving(s) || ResetRemoving(s) then 1 else 0)
    ensures HeadsFit(s)
  {
    FewHeads(s.heads, s.stored + if CallRemoving(s) || ResetRemoving(s) then 1 else 0);
    hide KeysBelow;
  }

  lemma HearKeepsInv(c: Config, s: State, head: nat, reorg: bool)
    requires Inv(c, s) && s.call.Quiet?
    requires var t := Hear(c, s, head, reorg); Overlaps(t) ==> Harmless(t)
    ensures Inv(c, Hear(c, s, head, reorg))
  {
    hide HeadsLinked, Linked, First, KeysBelow;
    var t := Hear(c, s, head, reorg);
    if Overlaps(t) {
      OpeningFits(t);
    }
  }

  /** A whole notice, when no reset comes in between, keeps the heads exact whatever the worker does. */
  lemma NoticeKeepsInv(c: Config, s: State, head: nat, reorg: bool)
    requires Inv(c, s) && s.call.Quiet? && !s.worker.Resetting?
    ensures Inv(c, NewHead(c, s, head, reorg))
  {
    hide HeadsLinked, Linked, ValidHeads, First;
    if reorg && head / c.sectionSize < s.stored {
      DropKeepsLinks(c, s.heads, s.stored, head / c.sectionSize);
    }
  }

  lemma CallDropFits(c: Config, s: State)
    requires HeadsFit(s) && s.call.Dropping?
    ensures HeadsFit(CallDrop(c, s))
    ensures s.call.removing ==> s.stored + 1 !in s.heads
  {
    hide First;
  }

  lemma ResetDropFits(s: State)
    requires HeadsFit(s) && s.worker.Resetting?
    ensures HeadsFit(ResetDrop(s))
    ensures s.worker.removing ==> s.stored + 1 !in s.heads
  {
  }

  lemma CallDropWorker(c: Config, s: State)
    requires WorkerOk(c, s) && HeadsFit(s) && s.call.Dropping?
    ensures WorkerOk(c, CallDrop(c, s))
  {
    hide Linked, First;
  }

  lemma CallDropKeepsInv(c: Config, s: State)
    requires Inv(c, s) && s.call.Dropping?
    ensures Inv(c, CallDrop(c, s))
  {
    CallDropFits(c, s);
    CallDropWorker(c, s);
    hide HeadsFit, WorkerOk, HeadsLinked, First;
    if s.call.removing {
      RemoveKeepsLinks(c, s.heads, s.stored);
    }
  }

  lemma ResetDropKeepsInv(c: Config, s: State)
    requires Inv(c, s) && s.worker.Resetting?
    ensures Inv(c, ResetDrop(s))
  {
    ResetDropFits(s);
    hide HeadsFit, HeadsLinked, First, Linked;
    if s.worker.removing {
      RemoveKeepsLinks(c, s.heads, s.stored);
    }
  }

  lemma ResetStartKeepsInv(c: Config, s: State)
    requires Inv(c, s) && s.worker.Working?
    requires var t := s.(worker := Resetting(false)); Overlaps(t) ==> Harmless(t)
    ensures Inv(c, s.(worker := Resetting(false)))
  {
    hide HeadsLinked, Linked, First, KeysBelow;
    var t := s.(worker := Resetting(false));
    if Overlaps(t) {
      OpeningFits(t);
    }
  }

  lemma BeginKeepsInv(c: Config, s: State)
    requires Inv(c, s) && s.call.Quiet? && s.worker.Idle? && s.known > s.stored
    ensures Inv(c, Begin(c, s))
  {
    BeginWorker(c, s);
    hide WorkerOk, HeadsLinked, First;
  }

  lemma BeginWorker(c: Config, s: State)
    requires c.sectionSize > 0 && KeysBelow(s.heads, s.stored) && HeadsLinked(c, s.heads)
    requires s.worker.Idle? && s.known > s.stored
    ensures WorkerOk(c, Begin(c, s))
  {
    hide Linked, First, HeadsLinked, KeysBelow;
    if s.stored > 0 {
      TopHead(c, s.heads, s.stored - 1);
    }
    LinkedEmpty(Begin(c, s).worker.oldHead, First(c, s.stored));
    SectionBounds(c, s.stored);
  }

  lemma TopHead(c: Config, heads: map<int, Hash>, k: nat)
    requires KeysBelow(heads, k + 1) && HeadsLinked(c, heads)
    ensures k in heads && SectionHead(heads, k) != ZERO_HASH
  {
    hide Linked, First;
    assert HeadLinked(c, heads, k);
  }

  lemma SectionBounds(c: Config, section: nat)
    ensures First(c, section + 1) == First(c, section) + c.sectionSize
  {
  }

  lemma ProcessKeepsInv(c: Config, s: State, hash: Hash, header: Option<Header>)
    requires Inv(c, s) && s.worker.Working?
    requires s.worker.next < First(c, s.worker.section + 1)
    requires Answer(s.worker.next, hash, header)
    ensures Inv(c, Process(s, hash, header))
  {
    hide HeadsLinked, Linked, First;
    var w := s.worker;
    if Process(s, hash, header).worker.Working? {
      var first := First(c, w.section);
      LinkedExtend(w.oldHead, first, w.next - first, header.value);
    }
  }

  /** The check against the recorded head succeeds only if no section has been dropped meanwhile. */
  lemma CheckMeansUntouched(c: Config, s: State)
    requires Inv(c, s) && s.call.Quiet? && s.worker.Working?
    ensures s.worker.oldHead == SectionHead(s.heads, s.worker.section - 1) <==> s.stored == s.worker.section
  {
    hide HeadsLinked, Linked;
    assert s.worker.section - 1 in s.heads <==> s.stored == s.worker.section > 0;
  }

  lemma FinishKeepsInv(c: Config, s: State)
    requires Inv(c, s) && s.call.Quiet? && s.worker.Working? && s.worker.next == First(c, s.worker.section + 1)
    ensures Inv(c, Finish(c, s))
    ensures Finish(c, s).stored == if s.stored == s.worker.section then s.stored + 1 else s.stored
  {
    hide Linked, First, HeadsLinked;
    CheckMeansUntouched(c, s);
    var w := s.worker;
    SectionBounds(c, w.section);
    if s.stored == w.section {
      AddKeepsLinks(c, s.heads, s.stored, w.lastHead);
      assert Finish(c, s).heads == s.heads[s.stored := w.lastHead];
    }
  }

  lemma AddKeepsLinks(c: Config, heads: map<int, Hash>, stored: nat, h: Hash)
    requires KeysBelow(heads, stored) && HeadsLinked(c, heads)
    requires h != ZERO_HASH && Linked(SectionHead(heads, stored - 1), h, First(c, stored), c.sectionSize)
    ensures HeadsLinked(c, heads[stored := h])
  {
    hide Linked, First;
    var r := heads[stored := h];
    forall k | k in r ensures HeadLinked(c, r, k) {
      AddKeepsLink(c, heads, stored, h, k);
    }
  }

  lemma AddKeepsLink(c: Config, heads: map<int, Hash>, stored: nat, h: Hash, k: int)
    requires KeysBelow(heads, stored) && (k in heads ==> HeadLinked(c, heads, k)) && (k in heads || k == stored)
    requires h != ZERO_HASH && Linked(SectionHead(heads, stored - 1), h, First(c, stored), c.sectionSize)
    ensures HeadLinked(c, heads[stored := h], k)
  {
    hide Linked, First;
    assert k - 1 != stored && k in heads ==> k != stored;
    assert SectionHead(heads[stored := h], k - 1) == SectionHead(heads, k - 1);
  }

  lemma ResetKeepsInv(c: Config, s: State)
    requires Inv(c, s) && s.call.Quiet? && s.worker.Working?
    ensures Inv(c, ResetFails(s))
  {
    hide HeadsLinked, Linked, ValidHeads;
    DropKeepsLinks(c, s.heads, s.stored, 0);
  }

  lemma StopKeepsInv(c: Config, s: State)
    requires Inv(c, s)
    ensures !s.worker.Resetting? ==> Inv(c, s.(worker := Failed))
    ensures s.worker.Failed? ==> Inv(c, GiveUp(s))
  {
    hide HeadsLinked, Linked, First;
  }

  /** A step keeps the invariant unless it starts an overlap that is not harmless. */
  lemma StepKeepsInv(c: Config, s: State, t: State)
    requires Inv(c, s) && Next(c, s, t) && (Overlaps(t) ==> Harmless(t))
    ensures Inv(c, t)
  {
    assert c.sectionSize > 0;
    hide Inv, Hear, CallDrop, ResetDrop, Begin, Process, Finish, GiveUp, Answer, First, Overlaps, Harmless;
    if s.call.Dropping? && t == CallDrop(c, s) {
      CallDropKeepsInv(c, s);
    } else if s.worker.Resetting? && t == ResetDrop(s) {
      ResetDropKeepsInv(c, s);
    } else if head: nat, reorg :| s.call.Quiet? && t == Hear(c, s, head, reorg) {
      HearKeepsInv(c, s, head, reorg);
    } else if s.worker.Idle? {
      BeginKeepsInv(c, s);
    } else if s.worker.Failed? || t == s.(worker := Failed) {
      StopKeepsInv(c, s);
    } else if t == s.(worker := Resetting(false)) {
      ResetStartKeepsInv(c, s);
    } else if s.worker.next == First(c, s.worker.section + 1) && t == Finish(c, s) && s.call.Quiet? {
      FinishKeepsInv(c, s);
    } else {
      var hash, header :| Answer(s.worker.next, hash, header) && t == Process(s, hash, header);
      ProcessKeepsInv(c, s, hash, header);
    }
  }

  const START := State(0, 0, 0, map[], Idle, Quiet)

  ghost predicate IsRun(c: Config, run: seq<State>)
    requires c.sectionSize > 0
  {
    run != [] && run[0] == START && forall i :: 0 < i < |run| ==> Next(c, run[i - 1], run[i])
  }

  /** In every interleaving in which a failed reset never overlaps a dropping notice, or only harmlessly:
      whenever no drop is in progress, exactly the sections below `stored` have recorded heads, and each is
      reached from the previous one by exactly `sectionSize` parent-linked headers. */
  lemma {:induction false} EveryRunIsLinked(c: Config, run: seq<State>, i: nat)
    requires c.sectionSize > 0 && IsRun(c, run) && i < |run|
    requires forall j :: 0 <= j < |run| && Overlaps(run[j]) ==> Harmless(run[j])
    ensures Inv(c, run[i])
    ensures run[i].call.Quiet? && !run[i].worker.Resetting? ==> Exact(c, run[i])
  {
    if i > 0 {
      EveryRunIsLinked(c, run, i - 1);
      hide Inv, Next, Exact, Overlaps, Harmless;
      StepKeepsInv(c, run[i - 1], run[i]);
    }
    if run[i].call.Quiet? && !run[i].worker.Resetting? {
      InvExact(c, run[i]);
    }
  }

  // ---------- What is known ----------

  lemma FirstOrder(c: Config, j: nat, k: nat)
    requires j <= k
    ensures First(c, j) <= First(c, k)
  {
  }

  /** A notice of head `head` in section `k`. A reorg leaves nothing known, stored or cascaded above where that
      section starts. Otherwise the known sections grow to those that end `confirmsReq` blocks before the head,
      that block included, and nothing else changes. */
  lemma NoticeOutcome(c: Config, s: State, head: nat, reorg: bool, k: nat)
    requires c.sectionSize > 0 && First(c, k) <= head < First(c, k + 1)
    ensures var t := NewHead(c, s, head, reorg);
            && t.worker == s.worker && t.call == s.call
            && (reorg ==>
                  && t.known == Min(s.known, k) && t.stored == Min(s.stored, k)
                  && t.cascaded == Min(s.cascaded, First(c, k))
                  && t.heads.Keys == (set i | i in s.heads && !(k <= i < s.stored))
                  && forall i :: i in t.heads ==> t.heads[i] == s.heads[i])
            && (!reorg ==>
                  && t == s.(known := t.known) && s.known <= t.known
                  && (t.known > s.known ==> First(c, t.known) + c.confirmsReq <= head + 1)
                  && forall i: nat :: First(c, i) + c.confirmsReq <= head + 1 ==> i <= t.known)
  {
    SectionOf(c, head, k);
    if reorg {
      assert ValidHeads(s.heads, s.stored, k).Keys == set i | i in s.heads && !(k <= i < s.stored);
    } else {
      LearnOutcome(c, s, head);
    }
  }

  lemma SectionOf(c: Config, head: nat, k: nat)
    requires c.sectionSize > 0 && First(c, k) <= head < First(c, k + 1)
    ensures head / c.sectionSize == k
  {
    var q := head / c.sectionSize;
    assert First(c, q) <= head < First(c, q + 1);
    if q < k {
      FirstOrder(c, q + 1, k);
    } else if q > k {
      FirstOrder(c, k + 1, q);
    }
  }

  lemma LearnOutcome(c: Config, s: State, head: nat)
    requires c.sectionSize > 0
    ensures var t := Learn(c, s, head);
            && t == s.(known := t.known) && s.known <= t.known
            && (t.known > s.known ==> First(c, t.known) + c.confirmsReq <= head + 1)
            && forall i: nat :: First(c, i) + c.confirmsReq <= head + 1 ==> i <= t.known
  {
    var t := Learn(c, s, head);
    if head + 1 >= c.confirmsReq {
      var q := (head + 1 - c.confirmsReq) / c.sectionSize;
      assert First(c, q) <= head + 1 - c.confirmsReq < First(c, q + 1);
      forall i: nat | First(c, i) + c.confirmsReq <= head + 1 ensures i <= t.known {
        if i > q {
          FirstOrder(c, q + 1, i);
        }
      }
    }
  }

  /** A run with what it heard: `heard[i]` is the notice of step `i`, or None if that step was no notice. */
  ghost predicate Hears(c: Config, run: seq<State>, heard: seq<Option<Notice>>)
    requires c.sectionSize > 0
  {
    && |heard| == |run| && run != [] && run[0] == START
    && forall i :: 0 < i < |run| ==> HearsStep(c, run[i - 1], run[i], heard[i])
  }

  ghost predicate HearsStep(c: Config, s: State, t: State, n: Option<Notice>)
    requires c.sectionSize > 0
  {
    if n.Some? then s.call.Quiet? && t == Hear(c, s, n.value.head, n.value.reorg) else Works(c, s, t)
  }

  /** The first `k` sections had their confirmations when some head heard by step `i` was announced. */
  ghost predicate Confirmed(c: Config, heard: seq<Option<Notice>>, i: nat, k: nat) {
    k == 0 || exists j :: 0 < j <= i && j < |heard| && Confirms(c, heard[j], k)
  }

  ghost predicate Confirms(c: Config, n: Option<Notice>, k: nat) {
    n.Some? && !n.value.reorg && First(c, k) + c.confirmsReq <= n.value.head + 1
  }

  lemma ConfirmedBelow(c: Config, heard: seq<Option<Notice>>, i: nat, k: nat, i': nat, k': nat)
    requires Confirmed(c, heard, i, k) && i <= i' && k' <= k
    ensures Confirmed(c, heard, i', k')
  {
    if k' > 0 {
      var j :| 0 < j <= i && j < |heard| && Confirms(c, heard[j], k);
      FirstOrder(c, k', k);
    }
  }

  /** What a state has taken to be settled: the sections known, those stored, those a notice is to leave, and the
      one in work. */
  function Settled(s: State): (k: nat) {
    var k := if s.known < s.stored then s.stored else s.known;
    var l := if s.call.Dropping? && k < s.call.changed then s.call.changed else k;
    if s.worker.Working? && l <= s.worker.section then s.worker.section + 1 else l
  }

  /** Only a notice that is no reorg settles anything new, and only what it confirms. */
  lemma StepSettles(c: Config, s: State, t: State, n: Option<Notice>)
    requires c.sectionSize > 0 && HearsStep(c, s, t, n)
    ensures Settled(t) <= Settled(s) || Confirms(c, n, Settled(t))
  {
    hide First, Answer;
    if n.Some? && !n.value.reorg {
      LearnOutcome(c, s, n.value.head);
      assert First(c, t.known) + c.confirmsReq <= n.value.head + 1 || t.known == s.known;
    }
  }

  /** In every run, whatever overlaps: a section is known, taken up or stored only after a head was announced
      that lies at least the required confirmations above its end. */
  lemma {:induction false} EveryRunIsConfirmed(c: Config, run: seq<State>, heard: seq<Option<Notice>>, i: nat)
    requires c.sectionSize > 0 && Hears(c, run, heard) && i < |run|
    ensures Confirmed(c, heard, i, run[i].known) && Confirmed(c, heard, i, run[i].stored)
    ensures run[i].worker.Working? ==> Confirmed(c, heard, i, run[i].worker.section + 1)
    ensures Confirmed(c, heard, i, Settled(run[i]))
  {
    hide HearsStep, Confirms, Confirmed, Settled;
    if i == 0 {
      NothingSettled(c, heard);
    } else {
      EveryRunIsConfirmed(c, run, heard, i - 1);
      StepSettles(c, run[i - 1], run[i], heard[i]);
      var before, now := Settled(run[i - 1]), Settled(run[i]);
      if now <= before {
        ConfirmedBelow(c, heard, i - 1, before, i, now);
      } else {
        ConfirmedNow(c, heard, i, now);
      }
      SettledBounds(run[i]);
      ConfirmedBelow(c, heard, i, now, i, run[i].known);
      ConfirmedBelow(c, heard, i, now, i, run[i].stored);
      if run[i].worker.Working? {
        ConfirmedBelow(c, heard, i, now, i, run[i].worker.section + 1);
      }
    }
  }

  lemma NothingSettled(c: Config, heard: seq<Option<Notice>>)
    ensures Settled(START) == 0 && Confirmed(c, heard, 0, 0)
  {
  }

  lemma SettledBounds(s: State)
    ensures s.known <= Settled(s) && s.stored <= Settled(s)
    ensures s.worker.Working? ==> s.worker.section + 1 <= Settled(s)
  {
  }

  lemma ConfirmedNow(c: Config, heard: seq<Option<Notice>>, i: nat, k: nat)
    requires 0 < i < |heard| && Confirms(c, heard[i], k)
    ensures Confirmed(c, heard, i, k)
  {
    hide Confirms;
  }

  // ---------- The overlap ----------

  /** An overlap as it starts: one drop may be under way, the other has done nothing yet. */
  ghost predicate Opening(c: Config, s: State) {
    && c.sectionSize > 0 && Overlaps(s) && HeadsLinked(c, s.heads)
    && !(CallRemoving(s) && ResetRemoving(s))
    && KeysBelow(s.heads, s.stored + if CallRemoving(s) || ResetRemoving(s) then 1 else 0)
    && s.call.changed <= s.stored
  }

  /** Every overlap starts so. */
  lemma OverlapOpens(c: Config, s: State, t: State)
    requires Inv(c, s) && Next(c, s, t) && !Overlaps(s) && Overlaps(t)
    ensures Opening(c, t)
  {
    hide HeadsLinked, Linked, First, Answer;
  }

  /** The two drops of an overlap, interleaved in some way until both are done. */
  ghost predicate Completes(c: Config, run: seq<State>, s: State) {
    && run != [] && run[0] == s
    && (forall i :: 0 < i < |run| ==> DropStep(c, run[i - 1], run[i]))
    && run[|run| - 1].call.Quiet? && run[|run| - 1].worker.Failed?
  }

  ghost predicate AllEndExact(c: Config, s: State) {
    forall run :: Completes(c, run, s) ==> Exact(c, run[|run| - 1])
  }

  lemma {:induction false} DropsKeepInv(c: Config, run: seq<State>, i: nat)
    requires run != [] && Inv(c, run[0]) && i < |run|
    requires forall j :: 0 < j < |run| ==> DropStep(c, run[j - 1], run[j])
    ensures Inv(c, run[i])
  {
    if i > 0 {
      DropsKeepInv(c, run, i - 1);
      var s, t := run[i - 1], run[i];
      assert DropStep(c, s, t);
      hide Inv, CallDrop, ResetDrop;
      if s.call.Dropping? && t == CallDrop(c, s) {
        CallDropKeepsInv(c, s);
      } else {
        ResetDropKeepsInv(c, s);
      }
    }
  }

  /** `run` consists of drop steps from `s` to `t`. */
  ghost predicate Drops(c: Config, run: seq<State>, s: State, t: State) {
    && run != [] && run[0] == s && run[|run| - 1] == t
    && forall i :: 0 < i < |run| ==> DropStep(c, run[i - 1], run[i])
  }

  lemma DropsOne(c: Config, s: State, t: State)
    requires DropStep(c, s, t)
    ensures Drops(c, [s, t], s, t)
  {
    hide DropStep;
  }

  lemma DropsJoin(c: Config, p: seq<State>, q: seq<State>, s: State, t: State, u: State)
    requires Drops(c, p, s, t) && Drops(c, q, t, u)
    ensures Drops(c, p + q[1..], s, u)
  {
    hide DropStep;
    var r := p + q[1..];
    forall i | 0 < i < |r| ensures DropStep(c, r[i - 1], r[i]) {
      if i < |p| {
        assert DropStep(c, p[i - 1], p[i]);
      } else {
        assert DropStep(c, q[i - |p|], q[i - |p| + 1]);
      }
    }
  }

  /** What a reset leaves when it goes on alone. */
  function ResetDone(s: State): (r: State)
    requires s.worker.Resetting?
  {
    s.(stored := 0, worker := Failed,
       heads := map k | k in s.heads && !(0 <= k < s.stored + if s.worker.removing then 1 else 0) :: s.heads[k])
  }

  lemma {:induction false} ResetRunsOut(c: Config, s: State) returns (run: seq<State>)
    requires s.worker.Resetting?
    ensures Drops(c, run, s, ResetDone(s))
    decreases s.stored, s.worker.removing
  {
    var t := ResetDrop(s);
    DropsOne(c, s, t);
    if t.worker.Failed? {
      assert t == ResetDone(s);
      run := [s, t];
    } else {
      var rest := ResetRunsOut(c, t);
      assert ResetDone(t) == ResetDone(s);
      DropsJoin(c, [s, t], rest, s, t, ResetDone(t));
      run := [s, t] + rest[1..];
    }
  }

  /** Once a recorded head stands at or above the count, or the notice is to keep some, the reset can run out
      first and the notice after it: the heads then do not fit the count. */
  lemma ResetFirst(c: Config, s: State) returns (run: seq<State>)
    requires Overlaps(s)
    requires if s.call.changed == 0
             then !s.call.removing && !s.worker.removing && exists k :: k in s.heads && k >= s.stored
             else s.stored > 0
    ensures Completes(c, run, s) && !Exact(c, run[|run| - 1])
  {
    run := ResetRunsOut(c, s);
    var t := ResetDone(s);
    if t.call.removing {
      var u := CallDrop(c, t);
      DropsOne(c, t, u);
      DropsJoin(c, run, [t, u], s, t, u);
      run := run + [t, u][1..];
      t := u;
    }
    var u := CallDrop(c, t);
    DropsOne(c, t, u);
    DropsJoin(c, run, [t, u], s, t, u);
    run := run + [t, u][1..];
    if s.call.changed == 0 {
      var k :| k in s.heads && k >= s.stored;
      assert k in u.heads && u.stored == 0;
    } else {
      assert 0 !in u.heads && u.stored == s.call.changed;
    }
  }

  /** Both drops have lowered the count before either has removed a head, which is then passed over. */
  lemma BothRemove(c: Config, s: State, top: int) returns (run: seq<State>, t: State)
    requires Overlaps(s) && s.call == Dropping(0, true) && s.worker.removing && top in s.heads && top > s.stored
    ensures Drops(c, run, s, t) && Overlaps(t) && t.call == Dropping(0, false) && !t.worker.removing
    ensures exists k :: k in t.heads && k >= t.stored
  {
    var u := CallDrop(c, s);
    DropsOne(c, s, u);
    t := ResetDrop(u);
    DropsOne(c, u, t);
    DropsJoin(c, [s, u], [u, t], s, u, t);
    run := [s, u] + [u, t][1..];
    assert top in t.heads && top >= t.stored;
  }

  /** From the start of an overlap that is to drop everything, with more than one head, to there. */
  lemma PassOver(c: Config, s: State) returns (run: seq<State>, t: State)
    requires Opening(c, s) && s.call.changed == 0 && !Harmless(s)
    ensures Drops(c, run, s, t) && Overlaps(t) && t.call == Dropping(0, false) && !t.worker.removing
    ensures exists k :: k in t.heads && k >= t.stored
  {
    OpeningTop(c, s);
    hide HeadsLinked, KeysBelow, Harmless, Drops;
    var u := s;
    if !s.worker.removing && !s.call.removing {
      u := ResetDrop(s);
      DropsOne(c, s, u);
    }
    var v := if u.worker.removing then CallDrop(c, u) else ResetDrop(u);
    DropsOne(c, u, v);
    var q;
    q, t := BothRemove(c, v, u.stored);
    DropsJoin(c, [u, v], q, u, v, t);
    run := [u, v] + q[1..];
    if u != s {
      DropsJoin(c, [s, u], run, s, u, t);
      run := [s, u] + run[1..];
    }
  }

  lemma OpeningTop(c: Config, s: State)
    requires Opening(c, s) && s.call.changed == 0 && !Harmless(s)
    ensures if CallRemoving(s) || ResetRemoving(s) then s.stored in s.heads && s.stored > 0
            else s.stored - 1 in s.heads && s.stored > 1
  {
    FewHeads(s.heads, s.stored + if CallRemoving(s) || ResetRemoving(s) then 1 else 0);
  }

  /** An overlap ends well in every interleaving exactly if it is harmless when it starts. */
  lemma OverlapSafeIff(c: Config, s: State)
    requires Opening(c, s)
    ensures AllEndExact(c, s) <==> Harmless(s)
  {
    if Harmless(s) {
      OpeningFits(s);
      forall run | Completes(c, run, s) ensures Exact(c, run[|run| - 1]) {
        DropsKeepInv(c, run, |run| - 1);
        InvExact(c, run[|run| - 1]);
      }
    } else if s.call.changed > 0 {
      var run := ResetFirst(c, s);
    } else {
      var p, t := PassOver(c, s);
      var q := ResetFirst(c, t);
      var last := q[|q| - 1];
      assert Drops(c, q, t, last);
      DropsJoin(c, p, q, s, t, last);
      assert Completes(c, p + q[1..], s);
    }
  }

  /** Sections 0 and 1 are stored and section 2 is in work. A reorg notice for section 1 has passed its test when
      the reset fails: it drops everything, and the notice then sets the count to 1. */
  lemma OverlapInput()
    ensures var c := Config(1, 0);
            var s := State(2, 3, 1, map[0 := 10, 1 := 11], Working(2, 11, 2, 11), Quiet);
            var t := State(1, 1, 1, map[], Failed, Quiet);
            && Inv(c, s)
            && (exists run ::
                  Completes(c, run, Hear(c, s, 1, true).(worker := Resetting(false))) && run[|run| - 1] == t)
            && !Exact(c, t)
  {
    var c := Config(1, 0);
    var s := State(2, 3, 1, map[0 := 10, 1 := 11], Working(2, 11, 2, 11), Quiet);
    assert Path([Header(10, ZERO_HASH, 0, [])], ZERO_HASH, 10, 0) by {
      LinkedEmpty(ZERO_HASH, 0);
    }
    assert Path([Header(11, 10, 1, [])], 10, 11, 1);
    LinkedEmpty(11, 2);
    assert HeadLinked(c, s.heads, 0) && HeadLinked(c, s.heads, 1);
    var u := Hear(c, s, 1, true).(worker := Resetting(false));
    var p := ResetRunsOut(c, u);
    var v := ResetDone(u);
    assert v.heads == map[];
    var t := CallDrop(c, v);
    DropsOne(c, v, t);
    DropsJoin(c, p, [v, t], u, v, t);
    assert Completes(c, p + [v, t][1..], u);
    assert 0 !in t.heads;
  }

  lemma DroppedTo(c: Config, s: State, head: nat)
    requires c.sectionSize > 0
    ensures head / c.sectionSize < s.stored ==> NewHead(c, s, head, true).stored == head / c.sectionSize
  {
    hide ValidHeads, First;
  }

  /** Whether a reorg notice at `head` makes the section in progress fail: it does exactly when the
      notice is for an earlier section. A notice inside the section itself does not. */
  lemma NoticeDecides(c: Config, s: State, head: nat)
    requires Inv(c, s) && s.call.Quiet? && s.worker.Working? && s.stored == s.worker.section
    requires s.worker.next == First(c, s.worker.section + 1)
    ensures var t := Finish(c, NewHead(c, s, head, true));
            && (t.stored == s.worker.section + 1 <==> head / c.sectionSize >= s.worker.section)
            && (head / c.sectionSize >= s.worker.section ==>
                SectionHead(t.heads, s.worker.section) == s.worker.lastHead)
            && (head / c.sectionSize < s.worker.section ==> t.stored == head / c.sectionSize && t.known == t.stored)
  {
    hide *;
    WorkingMeans(c, s);
    NoticeKeepsInv(c, s, head, true);
    NewHeadStored(c, s, Notice(head, true), s.worker.section);
    FinishOutcome(c, NewHead(c, s, head, true));
    DroppedTo(c, s, head);
  }

  lemma WorkingMeans(c: Config, s: State)
    requires Inv(c, s) && s.worker.Working?
    ensures c.sectionSize > 0 && s.stored <= s.worker.section
  {
    hide HeadsFit, HeadsLinked, Linked, First;
  }

  lemma FinishOutcome(c: Config, s: State)
    requires Inv(c, s) && s.call.Quiet? && s.worker.Working?
    ensures var t, section := Finish(c, s), s.worker.section;
            if s.stored == section then
              && t.stored == section + 1 && t.heads == s.heads[section := s.worker.lastHead]
              && SectionHead(t.heads, section) == s.worker.lastHead
              && t.known == s.known && t.cascaded == First(c, section + 1) - 1
            else t.stored == t.known == s.stored && t.heads == s.heads && t.cascaded == s.cascaded
  {
    hide *;
    CheckMeansUntouched(c, s);
    if s.stored == s.worker.section {
      FinishRecords(c, s);
    } else {
      FinishGivesUp(c, s);
    }
  }

  lemma FinishRecords(c: Config, s: State)
    requires s.worker.Working? && s.stored == s.worker.section
    requires s.worker.oldHead == SectionHead(s.heads, s.worker.section - 1)
    ensures var t, section := Finish(c, s), s.worker.section;
            && t.stored == section + 1 && t.heads == s.heads[section := s.worker.lastHead]
            && SectionHead(t.heads, section) == s.worker.lastHead
            && t.known == s.known && t.cascaded == First(c, section + 1) - 1
  {
    hide First;
    var grown := s.heads[s.worker.section := s.worker.lastHead];
    assert ValidHeads(grown, s.worker.section, s.worker.section + 1) == grown;
  }

  lemma FinishGivesUp(c: Config, s: State)
    requires s.worker.Working? && s.worker.oldHead != SectionHead(s.heads, s.worker.section - 1)
    ensures var t := Finish(c, s);
            t.stored == t.known == s.stored && t.heads == s.heads && t.cascaded == s.cascaded
  {
    hide First;
  }

  /** What the chain database answers for one block number: its canonical hash and that header. */
  datatype Reply = Reply(hash: Hash, header: Option<Header>)

  /** The i-th header is there and its parent is the one before it, or the old head. */
  predicate Follows(oldHead: Hash, replies: seq<Reply>, i: nat)
    requires i < |replies|
  {
    && replies[i].hash != ZERO_HASH && replies[i].header.Some?
    && replies[i].header.value.parent == if i == 0 then oldHead else replies[i - 1].hash
  }

  datatype Notice = Notice(head: nat, reorg: bool)

  /** None of the notices is a reorg below the section. */
  ghost predicate Spares(c: Config, notices: seq<Notice>, section: nat)
    requires c.sectionSize > 0
  {
    forall i :: 0 <= i < |notices| && notices[i].reorg ==> notices[i].head / c.sectionSize >= section
  }

  lemma NewHeadStored(c: Config, s: State, n: Notice, section: nat)
    requires c.sectionSize > 0 && s.stored <= section
    ensures var t := NewHead(c, s, n.head, n.reorg);
            && t.stored <= section && t.worker == s.worker && t.call == s.call
            && (t.stored == section <==> s.stored == section && (n.reorg ==> n.head / c.sectionSize >= section))
  {
  }

  /** The head recorded for the section before. */
  function SectionBefore(heads: map<int, Hash>, section: nat): (h: Hash) {
    if section > 0 then SectionHead(heads, section - 1) else ZERO_HASH
  }

  /** `run` is a run of the machine, from wherever, that has come to `s`. */
  ghost predicate Reaches(c: Config, run: seq<State>, s: State) {
    && c.sectionSize > 0 && run != [] && run[|run| - 1] == s
    && forall i :: 0 < i < |run| ==> Next(c, run[i - 1], run[i])
  }

  lemma ReachesNext(c: Config, run: seq<State>, s: State, t: State)
    requires c.sectionSize > 0 && Next(c, s, t)
    ensures Reaches(c, [s], s)
    ensures Reaches(c, run, s) ==> Reaches(c, run + [t], t)
  {
    hide Next;
  }

  lemma ReachesDrops(c: Config, run: seq<State>, s: State, q: seq<State>, t: State)
    requires Reaches(c, run, s) && Drops(c, q, s, t)
    ensures Reaches(c, run + q[1..], t)
  {
    var r := run + q[1..];
    forall i | 0 < i < |r| ensures Next(c, r[i - 1], r[i]) {
      if i >= |run| {
        assert DropStep(c, q[i - |run|], q[i - |run| + 1]);
      }
    }
  }

  /** A notice's drop that goes on alone ends with the heads below its section. */
  lemma {:induction false} CallRunsOut(c: Config, s: State) returns (run: seq<State>)
    requires s.call.Dropping? && !s.call.removing && s.call.changed <= s.stored
    ensures Drops(c, run, s, Cascade(c, SetValid(s, s.call.changed).(call := Quiet), s.call.changed))
    decreases s.stored
  {
    var t := CallDrop(c, s);
    DropsOne(c, s, t);
    if t.call.Quiet? {
      assert ValidHeads(s.heads, s.stored, s.call.changed) == s.heads;
      run := [s, t];
    } else {
      var u := CallDrop(c, t);
      DropsOne(c, t, u);
      DropsJoin(c, [s, t], [t, u], s, t, u);
      var rest := CallRunsOut(c, u);
      assert ValidHeads(u.heads, u.stored, s.call.changed) == ValidHeads(s.heads, s.stored, s.call.changed);
      run := [s, t] + [t, u][1..];
      DropsJoin(c, run, rest, s, u, rest[|rest| - 1]);
      run := run + rest[1..];
    }
  }

  /** A whole notice is a run of the machine. */
  lemma NoticeReaches(c: Config, run: seq<State>, s: State, n: Notice) returns (more: seq<State>)
    requires c.sectionSize > 0 && Reaches(c, run, s) && s.call.Quiet?
    ensures run <= more && Reaches(c, more, NewHead(c, s, n.head, n.reorg))
  {
    var t := Hear(c, s, n.head, n.reorg);
    assert Next(c, s, t);
    ReachesNext(c, run, s, t);
    more := run + [t];
    if t.call.Dropping? {
      var q := CallRunsOut(c, t);
      hide Next;
      ReachesDrops(c, more, t, q, q[|q| - 1]);
      more := more + q[1..];
    }
  }

  /** A whole failed reset is one too. */
  lemma ResetReaches(c: Config, run: seq<State>, s: State) returns (more: seq<State>)
    requires c.sectionSize > 0 && Reaches(c, run, s) && s.worker.Working?
    ensures run <= more && Reaches(c, more, ResetFails(s))
  {
    var t := s.(worker := Resetting(false));
    assert Next(c, s, t);
    ReachesNext(c, run, s, t);
    more := run + [t];
    var q := ResetRunsOut(c, t);
    assert ResetDone(t) == ResetFails(s);
    hide Next;
    ReachesDrops(c, more, t, q, ResetDone(t));
    more := more + q[1..];
  }

  lemma BeginStep(c: Config, s: State)
    requires c.sectionSize > 0 && s.call.Quiet? && s.worker.Idle? && s.known > s.stored
    ensures Next(c, s, Begin(c, s))
  {
  }

  lemma FailStep(c: Config, s: State)
    requires Inv(c, s) && s.worker.Working?
    ensures c.sectionSize > 0 && Next(c, s, s.(worker := Failed)) && Inv(c, s.(worker := Failed))
  {
    StopKeepsInv(c, s);
  }

  lemma FinishStep(c: Config, s: State)
    requires c.sectionSize > 0 && s.call.Quiet? && s.worker.Working? && s.worker.next == First(c, s.worker.section + 1)
    ensures Next(c, s, Finish(c, s)) && Finish(c, s).worker.Idle?
  {
  }

  lemma GiveUpStep(c: Config, s: State)
    requires Inv(c, s) && s.call.Quiet? && s.worker.Failed?
    ensures c.sectionSize > 0 && Next(c, s, GiveUp(s)) && Inv(c, GiveUp(s))
    ensures GiveUp(s) == s.(known := s.stored, worker := Idle)
  {
    StopKeepsInv(c, s);
  }

  /** One header of the section in work, as the loop of processSection takes it. */
  lemma ProcessStep(c: Config, s: State, reply: Reply, oldHead: Hash, replies: seq<Reply>, i: nat)
    requires Inv(c, s) && s.worker.Working? && i < |replies| == c.sectionSize && reply == replies[i]
    requires s.worker.next == First(c, s.worker.section) + i && s.worker.oldHead == oldHead
    requires s.worker.lastHead == if i == 0 then oldHead else replies[i - 1].hash
    requires Answer(s.worker.next, reply.hash, reply.header)
    ensures c.sectionSize > 0
    ensures var t := Process(s, reply.hash, reply.header);
            && Next(c, s, t) && Inv(c, t)
            && (if Follows(oldHead, replies, i)
                then t == s.(worker := s.worker.(next := s.worker.next + 1, lastHead := reply.header.value.hash))
                     && reply.header.value.hash == reply.hash
                else t == s.(worker := Failed))
    ensures Follows(oldHead, replies, i) <==>
              reply.hash != ZERO_HASH && reply.header.Some? && reply.header.value.parent == s.worker.lastHead
  {
    SectionBounds(c, s.worker.section);
    ProcessKeepsInv(c, s, reply.hash, reply.header);
    hide Inv, First;
  }

  class Indexer {
    const config: Config
    var stored: nat
    var known: nat
    var cascaded: int
    var heads: map<int, Hash>
    var worker: Worker

    /** The state between calls; what happens inside one is for the machine above. */
    ghost function Now(): (s: State)
      reads this
    {
      State(stored, known, cascaded, heads, worker, Quiet)
    }

    constructor (config: Config)
      requires config.sectionSize > 0
      ensures this.config == config && Now() == START && Inv(config, Now())
    {
      this.config := config;
      stored, known, cascaded, heads, worker := 0, 0, 0, map[], Idle;
    }

    method SetValidSections(sections: nat)
      modifies this`stored, this`heads
      ensures Now() == SetValid(old(Now()), sections)
    {
      while stored > sections
        invariant stored <= old(stored)
        invariant sections < old(stored) ==> sections <= stored
        invariant stored < old(stored) ==> sections < old(stored)
        invariant heads == (map k | k in old(heads) && !(stored <= k < old(stored)) :: old(heads)[k])
      {
        stored := stored - 1;
        heads := heads - {stored};
      }
      stored := sections;
    }

    method OnNewHead(head: nat, reorg: bool)
      requires Inv(config, Now()) && !worker.Resetting?
      modifies this
      ensures Now() == NewHead(config, old(Now()), head, reorg)
      ensures Inv(config, Now())
    {
      assert config.sectionSize > 0;
      NoticeKeepsInv(config, Now(), head, reorg);
      hide Inv, First, ValidHeads;
      if reorg {
        var changed := head / config.sectionSize;
        if changed < known {
          known := changed;
        }
        if changed < stored {
          SetValidSections(changed);
        }
        if First(config, changed) < cascaded {
          cascaded := First(config, changed);
        }
        return;
      }
      if head >= config.confirmsReq {
        var sections := (head + 1 - config.confirmsReq) / config.sectionSize;
        if sections > known {
          known := sections;
        }
      }
    }

    /** The first locked part of the update loop. */
    method TakeUp() returns (section: nat, oldHead: Hash)
      requires Inv(config, Now()) && worker.Idle? && known > stored
      modifies this`worker
      ensures Now() == Begin(config, old(Now())) && Inv(config, Now())
      ensures section == stored && oldHead == SectionBefore(heads, stored)
      ensures worker == Working(section, oldHead, First(config, section), oldHead)
    {
      hide Inv, First;
      BeginKeepsInv(config, Now());
      section := stored;
      oldHead := if section > 0 then SectionHead(heads, section - 1) else ZERO_HASH;
      worker := Working(section, oldHead, First(config, section), oldHead);
    }

    /** The lock is free while a section is processed: notices that come in meanwhile. The count stays at the
        section exactly if none of them is a reorg below it. */
    method TakeNotices(notices: seq<Notice>, ghost section: nat, ghost run0: seq<State>) returns (ghost run: seq<State>)
      requires Inv(config, Now()) && config.sectionSize > 0 && !worker.Resetting? && Reaches(config, run0, Now())
      requires stored <= section
      modifies this
      ensures Inv(config, Now()) && worker == old(worker)
      ensures run0 <= run && Reaches(config, run, Now())
      ensures stored <= section
      ensures stored == section <==> old(stored) == section && Spares(config, notices, section)
    {
      hide Inv, Next, Reaches, NewHead;
      run := run0;
      for i := 0 to |notices|
        invariant Inv(config, Now()) && worker == old(worker)
        invariant run0 <= run && Reaches(config, run, Now())
        invariant stored <= section
        invariant stored == section <==> old(stored) == section && Spares(config, notices[..i], section)
      {
        NewHeadStored(config, Now(), notices[i], section);
        run := NoticeReaches(config, run, Now(), notices[i]);
        OnNewHead(notices[i].head, notices[i].reorg);
        assert notices[..i + 1] == notices[..i] + [notices[i]];
      }
      assert notices[..|notices|] == notices;
    }

    /** processSection, with the notices that come in before each header and after the last: `run` is the same
        as steps of the machine. On success those include exactly a section's worth of headers. */
    method ProcessSection(section: nat, oldHead: Hash, resets: bool, replies: seq<Reply>, notices: seq<seq<Notice>>,
                          commits: bool, ghost run0: seq<State>)
      returns (ok: bool, head: Hash, ghost run: seq<State>)
      requires |replies| == config.sectionSize > 0 && |notices| == |replies| + 1
      requires forall i :: 0 <= i < |replies| ==> Answer(First(config, section) + i, replies[i].hash, replies[i].header)
      requires Inv(config, Now()) && worker == Working(section, oldHead, First(config, section), oldHead)
      requires stored == section && Reaches(config, run0, Now())
      modifies this
      ensures Inv(config, Now()) && run0 <= run && Reaches(config, run, Now())
      ensures ok <==> resets && commits && forall i :: 0 <= i < |replies| ==> Follows(oldHead, replies, i)
      ensures worker == if ok then Working(section, oldHead, First(config, section + 1), head) else Failed
      ensures ok ==> head == replies[|replies| - 1].hash
      ensures stored <= section
      ensures ok ==> (stored == section <==> forall i :: 0 <= i < |notices| ==> Spares(config, notices[i], section))
    {
      hide Inv, Next, Reaches, NewHead, Process, Begin, Finish, GiveUp, ResetFails, SetValid, First, Follows,
          Answer, Spares;
      run, head := run0, oldHead;
      if !resets {
        ResetIs(config, Now());
        run := ResetReaches(config, run, Now());
        SetValidSections(0);
        worker := Failed;
        return false, ZERO_HASH, run;
      }
      for i := 0 to |replies|
        invariant Inv(config, Now()) && run0 <= run && Reaches(config, run, Now())
        invariant worker == Working(section, oldHead, First(config, section) + i, head)
        invariant head == if i == 0 then oldHead else replies[i - 1].hash
        invariant forall k :: 0 <= k < i ==> Follows(oldHead, replies, k)
        invariant stored <= section
        invariant stored == section <==> forall k :: 0 <= k < i ==> Spares(config, notices[k], section)
      {
        run := TakeNotices(notices[i], section, run);
        var reply := replies[i];
        ProcessStep(config, Now(), reply, oldHead, replies, i);
        ReachesNext(config, run, Now(), Process(Now(), reply.hash, reply.header));
        if reply.hash == ZERO_HASH || reply.header.None? || reply.header.value.parent != head {
          worker := Failed;
          run := run + [Now()];
          return false, ZERO_HASH, run;
        }
        head := reply.header.value.hash;
        worker := Working(section, oldHead, First(config, section) + i + 1, head);
        run := run + [Now()];
      }
      run := TakeNotices(notices[|replies|], section, run);
      ok := commits;
      if !commits {
        FailStep(config, Now());
        ReachesNext(config, run, Now(), Now().(worker := Failed));
        worker := Failed;
        run := run + [Now()];
      } else {
        SectionBounds(config, section);
      }
    }

    /** One turn of the update loop: takes up a section, processes it and records it or gives it up. All of it,
        with the notices in between, is a run of the machine. The section is recorded exactly if processing
        succeeds and none of the notices is a reorg below it. */
    method UpdateSection(resets: bool, replies: seq<Reply>, notices: seq<seq<Notice>>, commits: bool)
      returns (recorded: bool, ghost run: seq<State>)
      requires Inv(config, Now()) && worker.Idle? && known > stored
      requires |replies| == config.sectionSize > 0 && |notices| == |replies| + 1
      requires forall i :: 0 <= i < |replies| ==> Answer(First(config, stored) + i, replies[i].hash, replies[i].header)
      modifies this
      ensures Inv(config, Now()) && worker.Idle?
      ensures run != [] && run[0] == old(Now()) && Reaches(config, run, Now())
      ensures recorded <==>
                && resets && commits
                && (forall i :: 0 <= i < |replies| ==> Follows(SectionBefore(old(heads), old(stored)), replies, i))
                && (forall i :: 0 <= i < |notices| ==> Spares(config, notices[i], old(stored)))
      ensures recorded ==> stored == old(stored) + 1 && SectionHead(heads, old(stored)) == replies[|replies| - 1].hash
      ensures !recorded ==> stored <= old(stored) && known == stored
    {
      hide Inv, Next, Reaches, NewHead, Process, Begin, Finish, GiveUp, ResetFails, SetValid, First, Follows,
          Answer, Spares;
      ghost var s := Now();
      BeginStep(config, s);
      ReachesNext(config, [s], s, Begin(config, s));
      var section, oldHead := TakeUp();
      run := [s] + [Now()];
      var ok, head;
      ok, head, run := ProcessSection(section, oldHead, resets, replies, notices, commits, run);
      recorded := ok && stored == section;
      if ok {
        FinishStep(config, Now());
        ReachesNext(config, run, Now(), Finish(config, Now()));
        Complete(section, oldHead, head);
      } else {
        GiveUpStep(config, Now());
        ReachesNext(config, run, Now(), GiveUp(Now()));
        known, worker := stored, Idle;
      }
      run := run + [Now()];
    }

    /** The second locked part of the update loop. */
    method Complete(section: nat, oldHead: Hash, newHead: Hash)
      requires Inv(config, Now()) && worker == Working(section, oldHead, First(config, section + 1), newHead)
      modifies this
      ensures Now() == Finish(config, old(Now())) && Inv(config, Now())
      ensures old(stored) == section ==>
                && stored == section + 1 && heads == old(heads)[section := newHead]
                && known == old(known) && cascaded == First(config, section + 1) - 1
      ensures old(stored) != section ==>
                stored == known == old(stored) && heads == old(heads) && cascaded == old(cascaded)
    {
      hide Inv, First, ValidHeads;
      FinishKeepsInv(config, Now());
      FinishOutcome(config, Now());
      if oldHead == SectionHead(heads, section - 1) {
        heads := heads[section := newHead];
        SetValidSections(section + 1);
        cascaded := First(config, stored) - 1;
      } else {
        known := stored;
      }
      worker := Idle;
    }
  }

  lemma ResetIs(c: Config, s: State)
    requires Inv(c, s) && s.call.Quiet? && s.worker.Working?
    ensures Inv(c, ResetFails(s)) && ResetFails(s) == SetValid(s, 0).(worker := Failed)
    ensures SetValid(s, 0).stored == 0
  {
    ResetKeepsInv(c, s);
  }
}
