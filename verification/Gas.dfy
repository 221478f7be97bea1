/** Gas accounting: buying gas from the block's pool, intrinsic gas, refunds and fees, over a whole block.
    What the virtual machine does to the state is a parameter. */
module Gas {
  import opened Base
  import opened MapSum

  type Byte = x: nat | x < 256

  const TX_GAS: nat := 25_000
  const TX_GAS_CONTRACT_CREATION: nat := 20_000
  const TX_GAS_ASSET_PUBLISH: nat := 100_000
  const TX_DATA_NON_ZERO_GAS: nat := 4
  const TX_DATA_ZERO_GAS: nat := 1

  const ACTION_PUBLISH_ASSET: nat := 4
  const ACTION_CREATE_CONTRACT: nat := 5
  const ACTION_CALL_CONTRACT: nat := 6

  datatype Message = Message(from: Address, price: nat, gas: Uint64, nonce: Uint64, checkNonce: bool,
      data: seq<Byte>, action: nat)

  datatype State = State(balance: map<Address, int>, locked: map<Address, int>, nonce: map<Address, Uint64>)

  function BalanceOf(balance: map<Address, int>, a: Address): (n: int) { if a in balance then balance[a] else 0 }

  function NonceOf(s: State, a: Address): (n: Uint64) { if a in s.nonce then s.nonce[a] else 0 }

  function Credit(balance: map<Address, int>, a: Address, amount: int): (r: map<Address, int>) {
    balance[a := BalanceOf(balance, a) + amount]
  }

  /** All the coin there is, locked or not. */
  ghost function Total(s: State): (n: int) { Sum(s.balance) + Sum(s.locked) }

  lemma CreditTotal(balance: map<Address, int>, a: Address, amount: int)
    ensures Sum(Credit(balance, a, amount)) == Sum(balance) + amount
  {
    if a in balance {
      SumUpdate(balance, a, balance[a] + amount);
    } else {
      SumInsert(balance, a, amount);
    }
  }

  datatype Error =
    | IllegalAction | NonceTooHigh | NonceTooLow | InsufficientBalanceForGas | GasLimitReached
    | OutOfGas | NoCode | AssetRefused | InsufficientBalance | BadVote | BadSignature | VoteCountRefused

  /** How a run of the machine ended. Only the two middle outcomes refuse the message. */
  datatype Ending = Success | NotEnoughBalance | VoteRefused | OtherFailure

  /** What a run of the machine leaves: the state, the gas not used and the refund counter. */
  datatype Execution = Execution(state: State, gas: Uint64, refund: Uint64, ending: Ending)

  /** The machine, for contract creation, asset publishing and calls alike. */
  type Machine = (Message, State, Uint64) -> Execution

  /** The machine returns no more gas than it is given and creates or destroys no coin. */
  ghost predicate Honest(vm: Machine) {
    forall m, s, g :: vm(m, s, g).gas <= g && Total(vm(m, s, g).state) == Total(s)
  }

  function BaseGas(action: nat): (g: nat) {
    if action == ACTION_PUBLISH_ASSET then TX_GAS_ASSET_PUBLISH
    else if action == ACTION_CREATE_CONTRACT then TX_GAS_CONTRACT_CREATION
    else if action <= ACTION_CALL_CONTRACT then TX_GAS
    else 0
  }

  function DataGas(data: seq<Byte>): (g: nat) {
    if data == [] then 0
    else DataGas(data[..|data| - 1]) + if data[|data| - 1] == 0 then TX_DATA_ZERO_GAS else TX_DATA_NON_ZERO_GAS
  }

  /** One for every byte, and three more for each that is not zero. */
  lemma {:induction false} DataGasCounts(data: seq<Byte>)
    ensures DataGas(data) == |data| + 3 * (|data| - multiset(data)[0])
  {
    if data != [] {
      var n := |data| - 1;
      DataGasCounts(data[..n]);
      assert data == data[..n] + [data[n]];
    }
  }

  /** IntrinsicGas fails exactly when the exact sum does not fit a uint64. */
  method IntrinsicGas(data: seq<Byte>, action: nat) returns (gas: Option<Uint64>)
    ensures gas == var exact := BaseGas(action) + DataGas(data); if exact <= MAX_UINT64 then Some(exact) else None
    ensures gas.Some? ==>
              gas.value == |data| + 3 * (|data| - multiset(data)[0])
                + if action == 4 then 100_000 else if action == 5 then 20_000 else if action <= 6 then 25_000 else 0
  {
    DataGasCounts(data);
    var g: Uint64 := BaseGas(action);
    var nz, i := 0, 0;
    while i < |data|
      invariant 0 <= i <= |data| && nz <= i
      invariant DataGas(data[..i]) == TX_DATA_NON_ZERO_GAS * nz + TX_DATA_ZERO_GAS * (i - nz)
    {
      assert data[..i + 1][..i] == data[..i];
      if data[i] != 0 {
        nz := nz + 1;
      }
      i := i + 1;
    }
    assert data[..i] == data;
    if (MAX_UINT64 - g) / TX_DATA_NON_ZERO_GAS < nz {
      return None;
    }
    g := g + nz * TX_DATA_NON_ZERO_GAS;
    var z := |data| - nz;
    if (MAX_UINT64 - g) / TX_DATA_ZERO_GAS < z {
      return None;
    }
    g := g + z * TX_DATA_ZERO_GAS;
    return Some(g);
  }

  /** The gas charged up front: TransitionDb lets a failed computation count as zero. */
  function Intrinsic(m: Message): (g: Uint64) {
    var exact := BaseGas(m.action) + DataGas(m.data);
    if exact <= MAX_UINT64 then exact else 0
  }

  /** preCheck and buyGas, in the order of their tests. */
  function Precheck(s: State, pool: int, m: Message): (r: Option<Error>) {
    if m.action > ACTION_CALL_CONTRACT then Some(IllegalAction)
    else if m.checkNonce && NonceOf(s, m.from) < m.nonce then Some(NonceTooHigh)
    else if m.checkNonce && NonceOf(s, m.from) > m.nonce then Some(NonceTooLow)
    else if BalanceOf(s.balance, m.from) < m.gas * m.price then Some(InsufficientBalanceForGas)
    else if pool < m.gas then Some(GasLimitReached)
    else None
  }

  /** The state the machine starts from: gas paid for and, for calls, the nonce moved on. */
  function Bought(s: State, m: Message): (r: State) {
    var paid := s.(balance := Credit(s.balance, m.from, -(m.gas * m.price)));
    if m.action == ACTION_CREATE_CONTRACT || m.action == ACTION_PUBLISH_ASSET then paid
    else paid.(nonce := paid.nonce[m.from := (NonceOf(paid, m.from) + 1) % (MAX_UINT64 + 1)])
  }

  function Executed(s: State, m: Message, vm: Machine): (r: Execution)
    requires Intrinsic(m) <= m.gas
  {
    var ex := vm(m, Bought(s, m), m.gas - Intrinsic(m));
    if m.action == ACTION_PUBLISH_ASSET then ex.(gas := m.gas - Intrinsic(m)) else ex
  }

  /** The tests after preCheck. */
  function Ended(s: State, m: Message, vm: Machine): (r: Option<Error>) {
    if m.gas < Intrinsic(m) then Some(OutOfGas)
    else if m.action == ACTION_CREATE_CONTRACT && m.data == [] then Some(NoCode)
    else
      var ending := Executed(s, m, vm).ending;
      if m.action == ACTION_PUBLISH_ASSET then (if ending.Success? then None else Some(AssetRefused))
      else if ending.NotEnoughBalance? then Some(InsufficientBalance)
      else if ending.VoteRefused? then Some(BadVote)
      else None
  }

  function Refused(s: State, pool: int, m: Message, vm: Machine): (r: Option<Error>) {
    var pre := Precheck(s, pool, m);
    if pre.Some? then pre else Ended(s, m, vm)
  }

  /** Gas a message is charged for: what it used, less the refund, which is at most half of it. */
  function Charged(m: Message, ex: Execution): (g: int) {
    var gross := m.gas - ex.gas;
    gross - Min(gross / 2, ex.refund)
  }

  /** The state after an accepted message charged `used`. */
  function Settled(ex: Execution, m: Message, used: int, coinbase: Address): (r: State) {
    ex.state.(balance := Credit(Credit(ex.state.balance, m.from, (m.gas - used) * m.price), coinbase, used * m.price))
  }

  /** A charge lies between half of the gas used and all of it, and so within what was bought. */
  lemma ChargeBounds(s: State, pool: int, m: Message, vm: Machine)
    requires Honest(vm) && Refused(s, pool, m, vm).None?
    ensures var ex := Executed(s, m, vm);
            var gross, used := m.gas - ex.gas, Charged(m, ex);
            && Intrinsic(m) <= gross <= m.gas <= pool
            && 0 <= used <= gross <= 2 * used
            && gross - used <= ex.refund
            && (gross - used == ex.refund || gross - used == gross / 2)
  {
    assert vm(m, Bought(s, m), m.gas - Intrinsic(m)).gas <= m.gas - Intrinsic(m);
  }

  /** The machine starts from `start`: the sender has paid for the gas and, for a call, has moved on to the next
      nonce; nobody and nothing else changed. */
  ghost predicate StartsFrom(s: State, m: Message, start: State) {
    && (forall a :: BalanceOf(start.balance, a) == BalanceOf(s.balance, a) - if a == m.from then m.gas * m.price else 0)
    && start.balance.Keys == s.balance.Keys + {m.from}
    && start.locked == s.locked
    && start.nonce == (if m.action == 4 || m.action == 5 then s.nonce
                       else s.nonce[m.from := if NonceOf(s, m.from) == MAX_UINT64 then 0 else NonceOf(s, m.from) + 1])
  }

  lemma BoughtStarts(s: State, m: Message, start: State)
    requires StartsFrom(s, m, start)
    ensures start == Bought(s, m)
  {
    CreditIs(s.balance, m.from, -(m.gas * m.price), start.balance);
    hide Credit;
  }

  lemma CreditIs(balance: map<Address, int>, a: Address, amount: int, after: map<Address, int>)
    requires after.Keys == balance.Keys + {a}
    requires forall b :: BalanceOf(after, b) == BalanceOf(balance, b) + if b == a then amount else 0
    ensures after == Credit(balance, a, amount)
  {
    var want := Credit(balance, a, amount);
    forall b | b in after ensures b in want && after[b] == want[b] {
      assert BalanceOf(after, b) == BalanceOf(balance, b) + if b == a then amount else 0;
    }
  }

  /** A message is accepted exactly if its action is known, its nonce the account's next where that is checked,
      the sender can pay for all the gas at once, the block has that much left, the gas covers the intrinsic gas,
      a contract has code, and the machine, started from there, does not end in an error that refuses it. */
  lemma AcceptedIff(s: State, pool: int, m: Message, vm: Machine, start: State)
    requires StartsFrom(s, m, start)
    ensures Refused(s, pool, m, vm).None? <==>
              && m.action <= 6
              && (m.checkNonce ==> m.nonce == if m.from in s.nonce then s.nonce[m.from] else 0)
              && m.gas * m.price <= (if m.from in s.balance then s.balance[m.from] else 0)
              && m.gas <= pool
              && Intrinsic(m) <= m.gas
              && (m.action == 5 ==> m.data != [])
              && (m.action == 4 ==> vm(m, start, m.gas - Intrinsic(m)).ending.Success?)
              && (m.action != 4 ==>
                    var ending := vm(m, start, m.gas - Intrinsic(m)).ending;
                    ending != NotEnoughBalance && ending != VoteRefused)
    ensures Refused(s, pool, m, vm).None? ==> BalanceOf(start.balance, m.from) >= 0
  {
    BoughtStarts(s, m, start);
    hide Bought, Intrinsic;
  }

  /** The error names what is wrong with the message. */
  lemma RefusalIsTrue(s: State, pool: int, m: Message, vm: Machine, start: State)
    requires StartsFrom(s, m, start) && Refused(s, pool, m, vm).Some?
    ensures var nonce := if m.from in s.nonce then s.nonce[m.from] else 0;
            match Refused(s, pool, m, vm).value
            case IllegalAction => m.action > 6
            case NonceTooHigh => m.checkNonce && m.nonce > nonce
            case NonceTooLow => m.checkNonce && m.nonce < nonce
            case InsufficientBalanceForGas =>
              (if m.from in s.balance then s.balance[m.from] else 0) < m.gas * m.price
            case GasLimitReached => pool < m.gas
            case OutOfGas => m.gas < Intrinsic(m)
            case NoCode => m.action == 5 && m.data == []
            case AssetRefused =>
              m.action == 4 && Intrinsic(m) <= m.gas && !vm(m, start, m.gas - Intrinsic(m)).ending.Success?
            case InsufficientBalance =>
              Intrinsic(m) <= m.gas && vm(m, start, m.gas - Intrinsic(m)).ending.NotEnoughBalance?
            case BadVote => Intrinsic(m) <= m.gas && vm(m, start, m.gas - Intrinsic(m)).ending.VoteRefused?
            case _ => false
  {
    BoughtStarts(s, m, start);
    hide Bought, Intrinsic;
  }

  /** What an accepted message leaves is what the machine leaves when started with the gas that intrinsic gas did
      not take; publishing an asset takes no more than that. */
  lemma ExecutedIs(s: State, m: Message, vm: Machine, start: State)
    requires StartsFrom(s, m, start) && Intrinsic(m) <= m.gas
    ensures var ex, left := vm(m, start, m.gas - Intrinsic(m)), m.gas - Intrinsic(m);
            && Executed(s, m, vm).state == ex.state && Executed(s, m, vm).refund == ex.refund
            && Executed(s, m, vm).gas == if m.action == 4 then left else ex.gas
  {
    BoughtStarts(s, m, start);
    hide Bought, Intrinsic;
  }

  /** The intrinsic gas in numbers; a sum that does not fit a uint64 costs nothing. */
  lemma IntrinsicIs(m: Message)
    ensures var data := |m.data| + 3 * (|m.data| - multiset(m.data)[0]);
            var exact := data
                + if m.action == 4 then 100_000 else if m.action == 5 then 20_000
                  else if m.action <= 6 then 25_000 else 0;
            Intrinsic(m) == if exact < 0x1_0000_0000_0000_0000 then exact else 0
  {
    DataGasCounts(m.data);
  }

  lemma BoughtTotal(s: State, m: Message)
    ensures Total(Bought(s, m)) == Total(s) - m.gas * m.price
  {
    CreditTotal(s.balance, m.from, -(m.gas * m.price));
  }

  lemma ExecutedTotal(s: State, m: Message, vm: Machine)
    requires Honest(vm) && Intrinsic(m) <= m.gas
    ensures Total(Executed(s, m, vm).state) == Total(Bought(s, m))
  {
    assert Total(vm(m, Bought(s, m), m.gas - Intrinsic(m)).state) == Total(Bought(s, m));
    hide Bought, Intrinsic, Total, Honest;
  }

  lemma SettledTotal(ex: Execution, m: Message, used: int, coinbase: Address)
    ensures Total(Settled(ex, m, used, coinbase)) == Total(ex.state) + m.gas * m.price
  {
    hide Credit, Sum;
    CreditTotal(ex.state.balance, m.from, (m.gas - used) * m.price);
    CreditTotal(Credit(ex.state.balance, m.from, (m.gas - used) * m.price), coinbase, used * m.price);
    PriceSplits(m.gas, used, m.price);
  }

  lemma PriceSplits(gas: int, used: int, price: int)
    ensures (gas - used) * price + used * price == gas * price
  {
  }

  /** What the sender pays, the sender and the coinbase get back between them. */
  lemma MessageConserves(s: State, m: Message, vm: Machine, coinbase: Address)
    requires Honest(vm) && Intrinsic(m) <= m.gas
    ensures var ex := Executed(s, m, vm);
            Total(Settled(ex, m, Charged(m, ex), coinbase)) == Total(s)
  {
    hide *;
    var ex := Executed(s, m, vm);
    BoughtTotal(s, m);
    ExecutedTotal(s, m, vm);
    SettledTotal(ex, m, Charged(m, ex), coinbase);
  }

  /** Who gets what: the sender the price of the gas not charged, the coinbase that of the gas charged. */
  lemma FeesGoTo(ex: Execution, m: Message, used: int, coinbase: Address, a: Address)
    ensures BalanceOf(Settled(ex, m, used, coinbase).balance, a) ==
              BalanceOf(ex.state.balance, a)
              + (if a == m.from then (m.gas - used) * m.price else 0)
              + (if a == coinbase then used * m.price else 0)
    ensures Settled(ex, m, used, coinbase).locked == ex.state.locked
    ensures Settled(ex, m, used, coinbase).nonce == ex.state.nonce
  {
    var back := Credit(ex.state.balance, m.from, (m.gas - used) * m.price);
    assert BalanceOf(back, a) == BalanceOf(ex.state.balance, a) + if a == m.from then (m.gas - used) * m.price else 0;
  }

  /** The block's gas counter. */
  class GasPool {
    var gas: Uint64

    constructor ()
      ensures gas == 0
    {
      gas := 0;
    }

    /** Panics rather than wrap. */
    method AddGas(amount: Uint64) returns (panics: bool)
      modifies this
      ensures panics <==> old(gas) + amount > MAX_UINT64
      ensures gas == if panics then old(gas) else old(gas) + amount
    {
      if gas > MAX_UINT64 - amount {
        return true;
      }
      gas := gas + amount;
      return false;
    }

    method SubGas(amount: Uint64) returns (ok: bool)
      modifies this
      ensures ok <==> amount <= old(gas)
      ensures gas == if ok then old(gas) - amount else old(gas)
    {
      if gas < amount {
        return false;
      }
      gas := gas - amount;
      return true;
    }
  }

  /** StateTransition, with the state database it works on. */
  class Transition {
    const gp: GasPool
    const msg: Message
    const coinbase: Address
    var gas: Uint64
    var initialGas: Uint64
    var state: State

    constructor (gp: GasPool, msg: Message, coinbase: Address, state: State)
      ensures this.gp == gp && this.msg == msg && this.coinbase == coinbase
      ensures gas == initialGas == 0 && this.state == state
    {
      this.gp, this.msg, this.coinbase, this.state := gp, msg, coinbase, state;
      gas, initialGas := 0, 0;
    }

    method UseGas(amount: Uint64) returns (ok: bool)
      modifies this`gas
      ensures ok <==> amount <= old(gas)
      ensures gas == if ok then old(gas) - amount else old(gas)
    {
      if gas < amount {
        return false;
      }
      gas := gas - amount;
      return true;
    }

    /** preCheck and buyGas. */
    method PreCheck() returns (err: Option<Error>)
      requires gas == 0
      modifies this, gp
      ensures err == Precheck(old(state), old(gp.gas), msg)
      ensures err.None? <==>
                && msg.action <= 6 && msg.gas <= old(gp.gas)
                && (msg.checkNonce ==> msg.nonce == NonceOf(old(state), msg.from))
                && msg.gas * msg.price <= BalanceOf(old(state).balance, msg.from)
      ensures err.None? ==>
                && gas == initialGas == msg.gas && gp.gas == old(gp.gas) - msg.gas
                && state == old(state).(balance := Credit(old(state).balance, msg.from, -(msg.gas * msg.price)))
      ensures err.Some? ==> gp.gas == old(gp.gas) && state == old(state)
    {
      if msg.action > ACTION_CALL_CONTRACT {
        return Some(IllegalAction);
      }
      if msg.checkNonce {
        var nonce := NonceOf(state, msg.from);
        if nonce < msg.nonce {
          return Some(NonceTooHigh);
        } else if nonce > msg.nonce {
          return Some(NonceTooLow);
        }
      }
      var cost := msg.gas * msg.price;
      if BalanceOf(state.balance, msg.from) < cost {
        return Some(InsufficientBalanceForGas);
      }
      var ok := gp.SubGas(msg.gas);
      if !ok {
        return Some(GasLimitReached);
      }
      gas := gas + msg.gas;
      initialGas := msg.gas;
      state := state.(balance := Credit(state.balance, msg.from, -cost));
      return None;
    }

    /** refundGas: no addition wraps and the pool does not panic. */
    method RefundGas(refundCounter: Uint64)
      requires gas <= initialGas && gp.gas + initialGas <= MAX_UINT64
      modifies this`gas, this`state, gp
      ensures gas == old(gas) + Min((initialGas - old(gas)) / 2, refundCounter) && gas <= initialGas
      ensures gp.gas == old(gp.gas) + gas
      ensures state == old(state).(balance := Credit(old(state).balance, msg.from, gas * msg.price))
    {
      var refund := (initialGas - gas) / 2;
      if refund > refundCounter {
        refund := refundCounter;
      }
      gas := gas + refund;
      state := state.(balance := Credit(state.balance, msg.from, gas * msg.price));
      var panics := gp.AddGas(gas);
      assert !panics;
    }

    /** The middle of TransitionDb: intrinsic gas, then the machine. */
    method Run(vm: Machine, ghost start: State) returns (err: Option<Error>, refund: Uint64)
      requires Honest(vm) && gas == msg.gas && msg.action <= ACTION_CALL_CONTRACT
      requires state == start.(balance := Credit(start.balance, msg.from, -(msg.gas * msg.price)))
      modifies this`gas, this`state
      ensures err == Ended(start, msg, vm)
      ensures err.None? ==>
                var ex := Executed(start, msg, vm);
                state == ex.state && gas == ex.gas <= msg.gas && refund == ex.refund
    {
      hide BaseGas, DataGas, Credit, Honest;
      refund := 0;
      var intrinsic := IntrinsicGas(msg.data, msg.action);
      var ok := UseGas(if intrinsic.Some? then intrinsic.value else 0);
      if !ok {
        return Some(OutOfGas), 0;
      }
      if msg.action == ACTION_CREATE_CONTRACT && msg.data == [] {
        return Some(NoCode), 0;
      }
      if msg.action != ACTION_CREATE_CONTRACT && msg.action != ACTION_PUBLISH_ASSET {
        state := state.(nonce := state.nonce[msg.from := (NonceOf(state, msg.from) + 1) % (MAX_UINT64 + 1)]);
      }
      assert state == Bought(start, msg);
      hide Bought;
      var ex := vm(msg, state, gas);
      HonestGas(vm, msg, state, gas);
      if msg.action == ACTION_PUBLISH_ASSET {
        if !ex.ending.Success? {
          return Some(AssetRefused), 0;
        }
        state := ex.state;
      } else {
        state, gas := ex.state, ex.gas;
        if ex.ending.NotEnoughBalance? {
          return Some(InsufficientBalance), 0;
        }
        if ex.ending.VoteRefused? {
          return Some(BadVote), 0;
        }
      }
      return None, ex.refund;
    }

    /** TransitionDb. A refused message ends the block, and with it this state and pool. */
    method TransitionDb(vm: Machine) returns (used: Uint64, err: Option<Error>)
      requires gas == 0 && Honest(vm)
      modifies this, gp
      ensures err == Refused(old(state), old(gp.gas), msg, vm)
      ensures err.None? ==>
                var ex := Executed(old(state), msg, vm);
                && used == Charged(msg, ex)
                && state == Settled(ex, msg, used, coinbase)
                && used + gp.gas == old(gp.gas)
                && Total(state) == Total(old(state))
    {
      hide Precheck, Ended, Intrinsic, Total, Credit, Honest, Executed;
      used := 0;
      err := PreCheck();
      if err.Some? {
        return;
      }
      PrecheckMeans(old(state), old(gp.gas), msg);
      var refund;
      err, refund := Run(vm, old(state));
      if err.Some? {
        return;
      }
      EndedMeans(old(state), msg, vm);
      MessageConserves(old(state), msg, vm, coinbase);
      RefundGas(refund);
      used := initialGas - gas;
      state := state.(balance := Credit(state.balance, coinbase, used * msg.price));
    }
  }

  lemma PrecheckMeans(s: State, pool: int, m: Message)
    requires Precheck(s, pool, m).None?
    ensures m.action <= ACTION_CALL_CONTRACT && m.gas <= pool
  {
  }

  lemma EndedMeans(s: State, m: Message, vm: Machine)
    requires Ended(s, m, vm).None?
    ensures Intrinsic(m) <= m.gas
  {
  }

  lemma HonestGas(vm: Machine, m: Message, s: State, g: Uint64)
    requires Honest(vm)
    ensures vm(m, s, g).gas <= g
  {
  }

  // A whole block.

  /** A transaction: its message, if its signature gives one, and whether the delegates' tallies take it. */
  datatype Transaction = Transaction(msg: Option<Message>, counted: bool)

  datatype Receipt = Receipt(cumulative: Uint64, gasUsed: Uint64)

  /** A block part way: the state, the gas left in the pool and the gas used so far. */
  datatype Point = Point(state: State, pool: int, used: int)

  /** Why the transaction ends the block, if it does. */
  function Verdict(p: Point, tx: Transaction, vm: Machine): (r: Option<Error>) {
    if tx.msg.None? then Some(BadSignature)
    else if Refused(p.state, p.pool, tx.msg.value, vm).Some? then Refused(p.state, p.pool, tx.msg.value, vm)
    else if !tx.counted then Some(VoteCountRefused)
    else None
  }

  function After(p: Point, tx: Transaction, vm: Machine, coinbase: Address): (q: Point)
    requires Verdict(p, tx, vm).None?
  {
    var ex := Executed(p.state, tx.msg.value, vm);
    var charge := Charged(tx.msg.value, ex);
    Point(Settled(ex, tx.msg.value, charge, coinbase), p.pool - charge, p.used + charge)
  }

  /** The point a run of transactions leads to, and what ends it there if not its own end. */
  function RunBlock(p: Point, txs: seq<Transaction>, vm: Machine, coinbase: Address): (r: (Point, Option<Error>)) {
    if txs == [] then (p, None) else
      var tx := txs[|txs| - 1];
      var (q, err) := RunBlock(p, txs[..|txs| - 1], vm, coinbase);
      if err.Some? then (q, err)
      else if Verdict(q, tx, vm).Some? then (q, Verdict(q, tx, vm))
      else (After(q, tx, vm, coinbase), None)
  }

  lemma AfterConserves(p: Point, tx: Transaction, vm: Machine, coinbase: Address)
    requires Honest(vm) && Verdict(p, tx, vm).None?
    ensures var q := After(p, tx, vm, coinbase);
            Total(q.state) == Total(p.state) && q.used + q.pool == p.used + p.pool && p.used <= q.used && 0 <= q.pool
  {
    MessageConserves(p.state, tx.msg.value, vm, coinbase);
    ChargeBounds(p.state, p.pool, tx.msg.value, vm);
    hide Total, Settled, Executed, Honest;
  }

  /** However far a block gets, gas used and gas left add up to the limit and no coin came or went. */
  lemma {:induction false} BlockConserves(p: Point, txs: seq<Transaction>, vm: Machine, coinbase: Address)
    requires Honest(vm) && p.pool >= 0
    ensures var q := RunBlock(p, txs, vm, coinbase).0;
            Total(q.state) == Total(p.state) && q.used + q.pool == p.used + p.pool && p.used <= q.used && 0 <= q.pool
  {
    if txs != [] {
      var n := |txs| - 1;
      BlockConserves(p, txs[..n], vm, coinbase);
      var (q, err) := RunBlock(p, txs[..n], vm, coinbase);
      hide Honest, Total, Verdict, After;
      if err.None? && Verdict(q, txs[n], vm).None? {
        AfterConserves(q, txs[n], vm, coinbase);
      }
    }
  }

  /** A block is accepted exactly if every transaction in turn has a message, which is accepted where the block
      then stands, and its votes can be counted. */
  lemma {:induction false} BlockAcceptedIff(p: Point, txs: seq<Transaction>, vm: Machine, coinbase: Address)
    ensures RunBlock(p, txs, vm, coinbase).1.None? <==>
              forall i :: 0 <= i < |txs| ==>
                var q := RunBlock(p, txs[..i], vm, coinbase).0;
                txs[i].msg.Some? && Refused(q.state, q.pool, txs[i].msg.value, vm).None? && txs[i].counted
  {
    hide Refused, After;
    if txs != [] {
      var n := |txs| - 1;
      BlockAcceptedIff(p, txs[..n], vm, coinbase);
      forall i | 0 <= i < n ensures txs[..n][..i] == txs[..i] && txs[..n][i] == txs[i] {
      }
    }
  }

  lemma RunBlockSnoc(p: Point, txs: seq<Transaction>, n: nat, vm: Machine, coinbase: Address)
    requires n < |txs|
    ensures RunBlock(p, txs[..n + 1], vm, coinbase) ==
              var (q, err) := RunBlock(p, txs[..n], vm, coinbase);
              if err.Some? then (q, err)
              else if Verdict(q, txs[n], vm).Some? then (q, Verdict(q, txs[n], vm))
              else (After(q, txs[n], vm, coinbase), None)
  {
    hide Verdict, After;
    assert txs[..n + 1][..n] == txs[..n];
  }

  lemma {:induction false} RunBlockStays(p: Point, txs: seq<Transaction>, n: nat, vm: Machine, coinbase: Address)
    requires n <= |txs| && RunBlock(p, txs[..n], vm, coinbase).1.Some?
    ensures RunBlock(p, txs, vm, coinbase) == RunBlock(p, txs[..n], vm, coinbase)
    decreases |txs| - n
  {
    if n == |txs| {
      assert txs[..n] == txs;
    } else {
      RunBlockSnoc(p, txs, n, vm, coinbase);
      hide RunBlock;
      RunBlockStays(p, txs, n + 1, vm, coinbase);
    }
  }

  /** ApplyTransaction's gas bookkeeping. */
  method ApplyTransaction(gp: GasPool, state: State, tx: Transaction, usedGas: Uint64, vm: Machine, coinbase: Address)
    returns (next: State, receipt: Receipt, err: Option<Error>)
    requires Honest(vm) && usedGas + gp.gas <= MAX_UINT64
    modifies gp
    ensures err == Verdict(Point(state, old(gp.gas), usedGas), tx, vm)
    ensures err.None? ==>
              && Point(next, gp.gas, receipt.cumulative) == After(Point(state, old(gp.gas), usedGas), tx, vm, coinbase)
              && receipt.cumulative == usedGas + receipt.gasUsed
  {
    next, receipt := state, Receipt(0, 0);
    if tx.msg.None? {
      return next, receipt, Some(BadSignature);
    }
    var st := new Transition(gp, tx.msg.value, coinbase, state);
    hide Honest, Refused, Executed, Settled, Total;
    var used;
    used, err := st.TransitionDb(vm);
    if err.Some? {
      return;
    }
    if !tx.counted {
      return next, receipt, Some(VoteCountRefused);
    }
    next, receipt := st.state, Receipt(usedGas + used, used);
  }

  /** Each receipt carries the gas used so far and its own transaction's share of it. */
  ghost predicate Receipts(p: Point, txs: seq<Transaction>, n: nat, receipts: seq<Receipt>, vm: Machine,
                           coinbase: Address)
    requires n <= |txs|
  {
    && |receipts| == n
    && forall i :: 0 <= i < n ==> ReceiptAt(p, txs, i, receipts[i], vm, coinbase)
  }

  ghost predicate ReceiptAt(p: Point, txs: seq<Transaction>, i: nat, r: Receipt, vm: Machine, coinbase: Address)
    requires i < |txs|
  {
    && r.cumulative == RunBlock(p, txs[..i + 1], vm, coinbase).0.used
    && r.gasUsed == r.cumulative - RunBlock(p, txs[..i], vm, coinbase).0.used
  }

  /** Process: the block is refused at the first transaction with a verdict against it, and otherwise all of
      them take effect in order; gas used plus gas left in the pool is the block's limit. */
  method Process(start: State, txs: seq<Transaction>, limit: Uint64, vm: Machine, coinbase: Address)
    returns (receipts: seq<Receipt>, usedGas: Uint64, err: Option<Error>, state: State)
    requires Honest(vm)
    ensures var p := Point(start, limit, 0);
            var (q, verdict) := RunBlock(p, txs, vm, coinbase);
            && err == verdict
            && (err.None? ==>
                  && state == q.state && Total(state) == Total(start)
                  && usedGas == q.used && usedGas + q.pool == limit
                  && Receipts(p, txs, |txs|, receipts, vm, coinbase))
  {
    var gp := new GasPool();
    var panics := gp.AddGas(limit);
    assert !panics;
    receipts, usedGas, err, state := [], 0, None, start;
    ghost var p := Point(start, limit, 0);
    var i := 0;
    hide Honest, Verdict, After, Total;
    while i < |txs|
      invariant 0 <= i <= |txs| && err.None?
      invariant RunBlock(p, txs[..i], vm, coinbase) == (Point(state, gp.gas, usedGas), None)
      invariant Receipts(p, txs, i, receipts, vm, coinbase)
      invariant usedGas + gp.gas == limit
    {
      hide RunBlock;
      RunBlockSnoc(p, txs, i, vm, coinbase);
      BlockConserves(p, txs[..i + 1], vm, coinbase);
      var next, receipt;
      next, receipt, err := ApplyTransaction(gp, state, txs[i], usedGas, vm, coinbase);
      if err.Some? {
        RunBlockStays(p, txs, i + 1, vm, coinbase);
        return;
      }
      receipts := receipts + [receipt];
      state, usedGas := next, receipt.cumulative;
      i := i + 1;
    }
    assert txs[..i] == txs;
    BlockConserves(p, txs, vm, coinbase);
  }
}
